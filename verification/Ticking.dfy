/** What one tick of the highlight engine does to the labels, pass by pass. */
module Ticking {
  import opened Runs
  import opened Editing
  import opened Marking

  /** One pass: the unchecked range, where highlighting starts in it, and how
      far the highlighter reports to have come. */
  datatype Pass = Pass(begin: nat, end: nat, start: nat, location: nat)

  /** ide_highlighter_update: the location reported for a pass over a range. */
  type Highlighter = (nat, nat, nat) -> nat

  /** The contract of highlighters: the location lies in the requested range. */
  ghost predicate StaysInside(update: Highlighter) {
    forall n: nat, b: nat, e: nat :: b <= e ==> b <= update(n, b, e) <= e
  }

  /** The first maximal unchecked range of the text. */
  ghost predicate NextRange(text: seq<char>, labels: seq<Label>, begin: nat, end: nat) {
    && begin < end <= |text| <= |labels|
    && (forall i :: 0 <= i < begin ==> labels[i] == Checked)
    && (forall i :: begin <= i < end ==> labels[i] == Unchecked)
    && (end == |text| || labels[end] == Checked)
  }

  ghost predicate AllChecked(text: seq<char>, labels: seq<Label>) {
    |text| <= |labels| && forall i :: 0 <= i < |text| ==> labels[i] == Checked
  }

  /** A label past the end of the text is unchecked. */
  ghost predicate LeftOver(text: seq<char>, labels: seq<Label>) {
    exists i {:trigger labels[i]} :: |text| <= i < |labels| && labels[i] == Unchecked
  }

  /** The tick has come to its end: nothing of the text is unchecked, or the
      highlighter stopped before the end of its range. */
  ghost predicate Finished(text: seq<char>, labels: seq<Label>, log: seq<Pass>) {
    AllChecked(text, labels) || (log != [] && log[|log| - 1].location < log[|log| - 1].end)
  }

  /** The last pass got somewhere. */
  ghost predicate Advanced(log: seq<Pass>) {
    log != [] && log[|log| - 1].location > log[|log| - 1].begin
  }

  /** The last pass came to the end of the text, where an unchecked label is
      left over: for the program that looks as if it had not moved. */
  ghost predicate AtLeftOver(text: seq<char>, labels: seq<Label>, log: seq<Pass>) {
    log != [] && log[|log| - 1].end <= log[|log| - 1].location == |text| && LeftOver(text, labels)
  }

  /** The range found in the labels, clamped to the text: the label past the
      end of the text, if there is one, names no character. */
  lemma {:induction false} ClampedRange(text: seq<char>, labels: seq<Label>, range: UncheckedRange)
    requires FirstInterval(labels, range) && |text| <= |labels|
    ensures range.start == NotSet || range.length == 0 ==> AllChecked(text, labels) && !LeftOver(text, labels)
    ensures range.start.At? && range.length > 0 ==>
              var begin := if range.start.offset <= |text| then range.start.offset else |text|;
              var end := if range.start.offset + range.length <= |text| then range.start.offset + range.length
                else |text|;
              if begin == end then AllChecked(text, labels) && begin == |text| && LeftOver(text, labels)
              else NextRange(text, labels, begin, end)
  {
    if range.start.At? && range.start.offset >= |text| {
      assert labels[range.start.offset] == Unchecked;
    }
  }

  /** The position after any line ends at i. */
  function SkipLineEnds(text: seq<char>, i: nat): (r: nat)
    requires i <= |text|
    ensures i <= r <= |text| && (r == |text| || !EndsLine(text, r))
    ensures forall j :: i <= j < r ==> EndsLine(text, j)
    decreases |text| - i
  {
    if i < |text| && EndsLine(text, i) then SkipLineEnds(text, i + 1) else i
  }

  /** Pass n turns `labels` into `labels'`. */
  ghost predicate PassOn(text: seq<char>, update: Highlighter, n: nat, labels: seq<Label>, p: Pass,
                         labels': seq<Label>) {
    && NextRange(text, labels, p.begin, p.end)
    && p.start == SkipLineEnds(text, p.begin)
    && p.location == (if p.start < p.end then update(n, p.start, p.end) else p.start)
    && p.start <= p.location <= |text|
    && labels' == Relabelled(labels, p.begin, p.location - p.begin, Checked)
  }

  /** The passes of a tick; all but the last got through their range. */
  ghost predicate Trace(text: seq<char>, update: Highlighter, states: seq<seq<Label>>, log: seq<Pass>) {
    && |states| == |log| + 1
    && (forall n :: 0 <= n < |log| ==> PassOn(text, update, n, states[n], log[n], states[n + 1]))
    && (forall n :: 0 <= n < |log| - 1 ==> log[n].location >= log[n].end)
  }

  /** There is one way a tick can go: the labels and the highlighter determine
      its passes and where it ends. */
  lemma {:induction false} OneTick(text: seq<char>, update: Highlighter, states: seq<seq<Label>>, log: seq<Pass>,
                                   states': seq<seq<Label>>, log': seq<Pass>)
    requires Trace(text, update, states, log) && Finished(text, states[|log|], log)
    requires Trace(text, update, states', log') && Finished(text, states'[|log'|], log')
    requires states[0] == states'[0]
    ensures states == states' && log == log'
  {
    hide PassOn;
    if |log| <= |log'| {
      SamePasses(text, update, states, log, states', log', |log|);
      NotLonger(text, update, states, log, states', log');
    } else {
      SamePasses(text, update, states', log', states, log, |log'|);
      NotLonger(text, update, states', log', states, log);
    }
  }

  lemma {:induction false} SamePasses(text: seq<char>, update: Highlighter, states: seq<seq<Label>>, log: seq<Pass>,
                                      states': seq<seq<Label>>, log': seq<Pass>, n: nat)
    requires Trace(text, update, states, log) && Trace(text, update, states', log') && n <= |log| && n <= |log'|
    requires states[0] == states'[0]
    ensures states[..n + 1] == states'[..n + 1] && log[..n] == log'[..n]
  {
    hide PassOn;
    if n > 0 {
      SamePasses(text, update, states, log, states', log', n - 1);
      assert states[n - 1] == states[..n][n - 1] == states'[..n][n - 1] == states'[n - 1];
      SamePass(text, update, n - 1, states[n - 1], log[n - 1], states[n], log'[n - 1], states'[n]);
      assert log[..n] == log[..n - 1] + [log[n - 1]] && log'[..n] == log'[..n - 1] + [log'[n - 1]];
      assert states[..n + 1] == states[..n] + [states[n]] && states'[..n + 1] == states'[..n] + [states'[n]];
    }
  }

  lemma {:induction false} SamePass(text: seq<char>, update: Highlighter, n: nat, labels: seq<Label>, p: Pass,
                                    labels1: seq<Label>, p': Pass, labels2: seq<Label>)
    requires PassOn(text, update, n, labels, p, labels1) && PassOn(text, update, n, labels, p', labels2)
    ensures p == p' && labels1 == labels2
  {
    OneRange(text, labels, p.begin, p.end, p'.begin, p'.end);
    OneRange(text, labels, p'.begin, p'.end, p.begin, p.end);
  }

  lemma {:induction false} OneRange(text: seq<char>, labels: seq<Label>, b: nat, e: nat, b': nat, e': nat)
    requires NextRange(text, labels, b, e) && NextRange(text, labels, b', e')
    ensures b <= b' && (b == b' ==> e <= e')
  {
    assert labels[b'] == Unchecked;
    assert e' < |text| ==> labels[e'] == Checked;
  }

  /** A tick that has finished makes no further pass. */
  lemma {:induction false} NotLonger(text: seq<char>, update: Highlighter, states: seq<seq<Label>>, log: seq<Pass>,
                                     states': seq<seq<Label>>, log': seq<Pass>)
    requires Trace(text, update, states, log) && Finished(text, states[|log|], log) && |log| <= |log'|
    requires Trace(text, update, states', log') && states == states'[..|log| + 1] && log == log'[..|log|]
    ensures |log| == |log'|
  {
    assert log != [] ==> log[|log| - 1] == log'[|log| - 1];
    if |log| < |log'| {
      assert PassOn(text, update, |log|, states[|log|], log'[|log|], states'[|log| + 1]);
      Unfinished(text, update, |log|, states[|log|], log'[|log|], states'[|log| + 1]);
    }
  }

  lemma {:induction false} Unfinished(text: seq<char>, update: Highlighter, n: nat, labels: seq<Label>, p: Pass,
                                      labels': seq<Label>)
    requires PassOn(text, update, n, labels, p, labels')
    ensures !AllChecked(text, labels)
  {
    assert labels[p.begin] == Unchecked;
  }

  // ----- each pass through its range leaves fewer unchecked characters -----------------------

  ghost function CountUnchecked(labels: seq<Label>): nat {
    if labels == [] then 0 else (if labels[0] == Unchecked then 1 else 0) + CountUnchecked(labels[1..])
  }

  lemma {:induction false} CountConcat(a: seq<Label>, b: seq<Label>)
    ensures CountUnchecked(a + b) == CountUnchecked(a) + CountUnchecked(b)
  {
    if a == [] {
      assert a + b == b;
    } else {
      assert (a + b)[1..] == a[1..] + b;
      CountConcat(a[1..], b);
    }
  }

  lemma {:induction false} CountChecked(n: nat)
    ensures CountUnchecked(Repeat(n, Checked)) == 0
  {
    if n > 0 {
      assert Repeat(n, Checked)[1..] == Repeat(n - 1, Checked);
      CountChecked(n - 1);
    }
  }

  lemma {:induction false} PassShrinks(text: seq<char>, update: Highlighter, n: nat, labels: seq<Label>, p: Pass,
                                       labels': seq<Label>)
    requires PassOn(text, update, n, labels, p, labels')
    ensures |labels'| == |labels| >= |text|
    ensures CountUnchecked(labels'[..|text|]) <= CountUnchecked(labels[..|text|])
    ensures p.location > p.begin ==> CountUnchecked(labels'[..|text|]) < CountUnchecked(labels[..|text|])
  {
    hide CountUnchecked;
    var s, k := labels[..|text|], p.location - p.begin;
    var a, m, z := s[..p.begin], s[p.begin..p.location], s[p.location..];
    assert s == a + m + z;
    assert labels'[..|text|] == a + Repeat(k, Checked) + z;
    CountConcat(a + m, z);
    CountConcat(a, m);
    CountConcat(a + Repeat(k, Checked), z);
    CountConcat(a, Repeat(k, Checked));
    CountChecked(k);
    if k > 0 {
      assert m[0] == Unchecked;
      FirstCounts(m);
    }
  }

  lemma {:induction false} FirstCounts(s: seq<Label>)
    requires s != [] && s[0] == Unchecked
    ensures CountUnchecked(s) > 0
  {}

  /** A tick cannot go on for more passes than there are unchecked characters. */
  lemma {:induction false} TraceBound(text: seq<char>, update: Highlighter, states: seq<seq<Label>>, log: seq<Pass>)
    requires Trace(text, update, states, log) && |text| <= |states[0]|
    ensures |log| <= CountUnchecked(states[0][..|text|])
    decreases |log|
  {
    hide CountUnchecked;
    if |log| > 0 {
      assert PassOn(text, update, 0, states[0], log[0], states[1]);
      if |log| == 1 {
        CountOpen(text, states[0], log[0].begin, log[0].end);
      } else {
        PassShrinks(text, update, 0, states[0], log[0], states[1]);
        TraceTail(text, update, states, log);
        TraceBound(text, (n, b, e) => update(n + 1, b, e), states[1..], log[1..]);
      }
    }
  }

  lemma {:induction false} TraceTail(text: seq<char>, update: Highlighter, states: seq<seq<Label>>, log: seq<Pass>)
    requires Trace(text, update, states, log) && log != []
    ensures Trace(text, (n, b, e) => update(n + 1, b, e), states[1..], log[1..])
  {
    forall n: nat | n < |log[1..]|
      ensures PassOn(text, (n, b, e) => update(n + 1, b, e), n, states[1..][n], log[1..][n], states[1..][n + 1])
    {
      assert PassOn(text, update, n + 1, states[n + 1], log[n + 1], states[n + 2]);
    }
  }

  lemma {:induction false} CountOpen(text: seq<char>, labels: seq<Label>, begin: nat, end: nat)
    requires NextRange(text, labels, begin, end)
    ensures CountUnchecked(labels[..|text|]) > 0
  {
    hide CountUnchecked;
    var s := labels[..|text|];
    assert s == s[..begin] + s[begin..];
    CountConcat(s[..begin], s[begin..]);
    FirstCounts(s[begin..]);
  }

  // ----- what a tick changes ---------------------------------------------------------------------

  /** Character i was skipped as a line end, or reported as passed, in pass n. */
  ghost predicate Passed(text: seq<char>, p: Pass, i: nat) {
    p.begin <= i < p.location && i < |text| && (i < p.start ==> EndsLine(text, i))
  }

  lemma {:induction false} TraceLength(text: seq<char>, update: Highlighter, states: seq<seq<Label>>, log: seq<Pass>,
                                       m: nat)
    requires Trace(text, update, states, log) && m <= |log|
    ensures |states[m]| == |states[0]|
  {
    if m > 0 {
      TraceLength(text, update, states, log, m - 1);
      assert PassOn(text, update, m - 1, states[m - 1], log[m - 1], states[m]);
    }
  }

  /** Labels change only from unchecked to checked, and only where a pass went. */
  lemma {:induction false} FlipsOnlyReported(text: seq<char>, update: Highlighter, states: seq<seq<Label>>,
                                             log: seq<Pass>, m: nat, i: nat)
    requires Trace(text, update, states, log) && m <= |log| && i < |states[0]|
    ensures |states[m]| == |states[0]|
    ensures if exists n {:trigger log[n]} :: 0 <= n < m && Passed(text, log[n], i) then states[m][i] == Checked
              else states[m][i] == states[0][i]
  {
    if m > 0 {
      FlipsOnlyReported(text, update, states, log, m - 1, i);
      assert PassOn(text, update, m - 1, states[m - 1], log[m - 1], states[m]);
      PassFlips(text, update, m - 1, states[m - 1], log[m - 1], states[m], i);
    }
  }

  lemma {:induction false} PassFlips(text: seq<char>, update: Highlighter, n: nat, labels: seq<Label>, p: Pass,
                                     labels': seq<Label>, i: nat)
    requires PassOn(text, update, n, labels, p, labels') && i < |labels|
    ensures |labels'| == |labels|
    ensures labels'[i] == if Passed(text, p, i) then Checked else labels[i]
  {
    assert i < |text| && p.begin <= i < p.start ==> EndsLine(text, i);
  }

  /** What the highlighter has passed over is not stale any more. */
  ghost function Cleared(stale: seq<bool>, log: seq<Pass>): (r: seq<bool>)
    ensures |r| == |stale|
  {
    seq(|stale|, i requires 0 <= i < |stale| =>
      stale[i] && !exists n {:trigger log[n]} :: 0 <= n < |log| && log[n].start <= i < log[n].location)
  }

  lemma {:induction false} TickSafe(text: seq<char>, update: Highlighter, states: seq<seq<Label>>, log: seq<Pass>,
                                    stale: seq<bool>)
    requires Trace(text, update, states, log) && Safe(text, states[0], stale)
    ensures Safe(text, states[|log|], Cleared(stale, log))
  {
    TraceLength(text, update, states, log, |log|);
    forall i | 0 <= i < |text| && states[|log|][i] == Checked && !IsBreak(text[i])
      ensures !Cleared(stale, log)[i]
    {
      FlipsOnlyReported(text, update, states, log, |log|, i);
    }
  }

  lemma {:induction false} TraceExtend(text: seq<char>, update: Highlighter, states: seq<seq<Label>>, log: seq<Pass>,
                                       p: Pass, labels: seq<Label>)
    requires Trace(text, update, states, log) && (log != [] ==> log[|log| - 1].location >= log[|log| - 1].end)
    requires PassOn(text, update, |log|, states[|log|], p, labels)
    ensures Trace(text, update, states + [labels], log + [p])
  {
    hide PassOn;
    var states', log' := states + [labels], log + [p];
    forall n: nat | n < |log'|
      ensures PassOn(text, update, n, states'[n], log'[n], states'[n + 1])
    {
      if n < |log| {
        assert PassOn(text, update, n, states[n], log[n], states[n + 1]);
      }
    }
  }

  lemma {:induction false} TraceStart(text: seq<char>, update: Highlighter, labels: seq<Label>, stale: seq<bool>)
    ensures Trace(text, update, [labels], []) && Cleared(stale, []) == stale
  {}

  lemma {:induction false} RangeFits(text: seq<char>, labels: seq<Label>, begin: nat, end: nat)
    requires NextRange(text, labels, begin, end)
    ensures begin < end <= |text| <= |labels|
    ensures begin > 0 ==> labels[begin - 1] != labels[begin]
  {}

  /** The pass that starts with this range does what PassOn says. */
  lemma {:induction false} PassNow(text: seq<char>, update: Highlighter, n: nat, labels: seq<Label>, p: Pass)
    requires NextRange(text, labels, p.begin, p.end) && StaysInside(update) && p.start == SkipLineEnds(text, p.begin)
    requires p.location == (if p.start < p.end then update(n, p.start, p.end) else p.start)
    ensures p.begin <= p.start <= p.location <= |text| <= |labels|
    ensures (p.location == p.begin ==> p.begin < p.end && p.start < p.end)
    ensures PassOn(text, update, n, labels, p, Relabelled(labels, p.begin, p.location - p.begin, Checked))
    ensures p.location == p.begin ==> Relabelled(labels, p.begin, p.location - p.begin, Checked) == labels
    ensures |Relabelled(labels, p.begin, p.location - p.begin, Checked)| == |labels|
  {}
}
