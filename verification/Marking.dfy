/** Lines of a text, and the labels the highlight engine keeps beside it. */
module Marking {
  import opened Runs
  import opened Iteration

  /** RUN_UNCHECKED and RUN_CHECKED */
  datatype Label = Unchecked | Checked

  // ----- lines ------------------------------------------------------------------------------

  predicate IsBreak(c: char) {
    c == '\n' || c == '\r' || c == '\U{2029}'
  }

  /** gtk_text_iter_ends_line */
  predicate EndsLine(text: seq<char>, i: nat)
    requires i <= |text|
  {
    i == |text| || (IsBreak(text[i]) && !(text[i] == '\n' && i > 0 && text[i - 1] == '\r'))
  }

  /** gtk_text_iter_starts_line */
  predicate StartsLine(text: seq<char>, i: nat)
    requires i <= |text|
  {
    i == 0 || (IsBreak(text[i - 1]) && !(text[i - 1] == '\r' && i < |text| && text[i] == '\n'))
  }

  /** gtk_text_iter_set_line_offset (iter, 0) */
  function LineStart(text: seq<char>, i: nat): (r: nat)
    requires i <= |text|
    ensures r <= i && StartsLine(text, r)
    ensures forall j :: r < j <= i ==> !StartsLine(text, j)
  {
    if StartsLine(text, i) then i else LineStart(text, i - 1)
  }

  /** The nearest line end, here or further on. */
  function LineEnd(text: seq<char>, i: nat): (r: nat)
    requires i <= |text|
    ensures i <= r <= |text| && EndsLine(text, r)
    ensures forall j :: i <= j < r ==> !EndsLine(text, j)
    decreases |text| - i
  {
    if EndsLine(text, i) then i else LineEnd(text, i + 1)
  }

  /** Character j is on the line of position p. */
  ghost predicate SameLine(text: seq<char>, j: nat, p: nat)
    requires j <= |text| && p <= |text|
  {
    LineStart(text, j) == LineStart(text, p)
  }

  /** Character j is on a line that meets the edited span [at, at + n]. */
  ghost predicate OnEditedLine(text: seq<char>, at: nat, n: nat, j: nat)
    requires j <= |text| && at + n <= |text|
  {
    exists p {:trigger SameLine(text, j, p)} :: at <= p <= at + n && SameLine(text, j, p)
  }

  lemma {:induction false} LineStartMono(text: seq<char>, i: nat, j: nat)
    requires i <= j <= |text|
    ensures LineStart(text, i) <= LineStart(text, j)
  {
    assert StartsLine(text, LineStart(text, i));
  }

  /** Position i lies inside a two-character line break. */
  predicate InsideBreak(text: seq<char>, i: nat)
    requires i <= |text|
  {
    0 < i < |text| && text[i - 1] == '\r' && text[i] == '\n'
  }

  /** The characters of the edited lines, other than line breaks, lie between
      the start of the first line and the end of the last; and back, unless the
      span ends inside a line break, when the next line is taken as well. */
  lemma {:induction false} EditedLines(text: seq<char>, at: nat, n: nat, j: nat)
    requires j < |text| && at + n <= |text| && !IsBreak(text[j])
    ensures OnEditedLine(text, at, n, j) ==> LineStart(text, at) <= j < LineEnd(text, at + n)
    ensures !InsideBreak(text, at + n) && LineStart(text, at) <= j < LineEnd(text, at + n) ==>
              OnEditedLine(text, at, n, j)
  {
    var a, b := LineStart(text, at), LineEnd(text, at + n);
    if OnEditedLine(text, at, n, j) {
      var p :| at <= p <= at + n && SameLine(text, j, p);
      LineStartMono(text, at, p);
      if b <= j {
        AfterBreak(text, b, j);
      }
    }
    if !InsideBreak(text, at + n) && a <= j < b {
      if j < at {
        LineStartMono(text, j, at);
        LineStartMono(text, a, j);
        assert SameLine(text, j, at);
      } else if j <= at + n {
        assert SameLine(text, j, j);
      } else {
        SameUntilEnd(text, at + n, j);
        assert SameLine(text, j, at + n);
      }
    }
  }

  /** A character past a line end that is no line break is on a later line. */
  lemma {:induction false} AfterBreak(text: seq<char>, b: nat, j: nat)
    requires b <= j < |text| && EndsLine(text, b) && !IsBreak(text[j])
    ensures b < LineStart(text, j)
  {
    var s := if text[b] == '\r' && text[b + 1] == '\n' then b + 2 else b + 1;
    assert StartsLine(text, s) && s <= j;
  }

  lemma {:induction false} SameUntilEnd(text: seq<char>, i: nat, j: nat)
    requires i <= |text| && !InsideBreak(text, i) && i <= j <= LineEnd(text, i)
    ensures LineStart(text, j) == LineStart(text, i)
    decreases j
  {
    if i < j {
      SameUntilEnd(text, i, j - 1);
      assert !EndsLine(text, j - 1) && (j - 1 > i ==> !EndsLine(text, j - 2));
      assert !StartsLine(text, j);
    }
  }

  // ----- relabelling ---------------------------------------------------------------------------

  /** The labels with [a, b) unchecked. */
  ghost function Unset(labels: seq<Label>, a: nat, b: nat): (r: seq<Label>)
    requires a <= b <= |labels|
    ensures |r| == |labels|
    ensures forall i :: 0 <= i < |r| ==> r[i] == if a <= i < b then Unchecked else labels[i]
  {
    labels[..a] + Repeat(b - a, Unchecked) + labels[b..]
  }

  lemma {:induction false} UnsetByEdits(labels: seq<Label>, a: nat, b: nat)
    requires a <= b <= |labels|
    ensures Inserted(Deleted(labels, a, b - a), a, Repeat(b - a, Unchecked)) == Unset(labels, a, b)
  {}

  // ----- whether the line of a character was edited since it was checked -----------------------------

  /** Checked characters, other than line breaks, lie on lines that were not
      edited since the characters were checked. */
  ghost predicate Safe(text: seq<char>, labels: seq<Label>, stale: seq<bool>) {
    && |stale| == |text| <= |labels|
    && forall i :: 0 <= i < |text| && labels[i] == Checked && !IsBreak(text[i]) ==> !stale[i]
  }

  lemma {:induction false} UnsetSafe(text: seq<char>, labels: seq<Label>, stale: seq<bool>, a: nat, b: nat)
    requires Safe(text, labels, stale) && a <= b <= |labels|
    ensures Safe(text, Unset(labels, a, b), stale)
  {}

  /** After an edit that left n characters at `at`: every character of the
      touched lines is stale, the others are as `carried` along. */
  ghost function Touched(text: seq<char>, at: nat, n: nat, carried: seq<bool>): (r: seq<bool>)
    requires at + n <= |text| && |carried| == |text|
    ensures |r| == |text|
  {
    seq(|text|, j requires 0 <= j < |text| => OnEditedLine(text, at, n, j) || carried[j])
  }

  lemma {:induction false} TouchedSafe(text: seq<char>, at: nat, n: nat, labels: seq<Label>, carried: seq<bool>)
    requires at + n <= |text| && |carried| == |text| <= |labels|
    requires forall i :: 0 <= i < |text| && labels[i] == Checked && !IsBreak(text[i]) ==> !carried[i]
    ensures Safe(text, Unset(labels, LineStart(text, at), LineEnd(text, at + n)), Touched(text, at, n, carried))
  {
    var labels' := Unset(labels, LineStart(text, at), LineEnd(text, at + n));
    forall i | 0 <= i < |text| && labels'[i] == Checked && !IsBreak(text[i])
      ensures !Touched(text, at, n, carried)[i]
    {
      EditedLines(text, at, n, i);
    }
  }

  /** An insertion with its hooks keeps every label honest. */
  lemma {:induction false} InsertSafe(text: seq<char>, labels: seq<Label>, stale: seq<bool>, at: nat, ins: seq<char>)
    requires Safe(text, labels, stale) && at <= |text|
    ensures var text' := Inserted(text, at, ins);
            var labels' := Inserted(labels, at, Repeat(|ins|, Unchecked));
            && at + |ins| <= |text'| <= |labels'|
            && Safe(text', Unset(labels', LineStart(text', at), LineEnd(text', at + |ins|)),
                    Touched(text', at, |ins|, Inserted(stale, at, Repeat(|ins|, true))))
  {
    var text' := Inserted(text, at, ins);
    var labels' := Inserted(labels, at, Repeat(|ins|, Unchecked));
    TouchedSafe(text', at, |ins|, labels', Inserted(stale, at, Repeat(|ins|, true)));
  }

  lemma {:induction false} DeleteSafe(text: seq<char>, labels: seq<Label>, stale: seq<bool>, at: nat, n: nat)
    requires Safe(text, labels, stale) && at + n <= |text|
    ensures var text' := Deleted(text, at, n);
            var labels' := Deleted(labels, at, n);
            && at <= |text'| <= |labels'|
            && Safe(text', Unset(labels', LineStart(text', at), LineEnd(text', at)),
                    Touched(text', at, 0, Deleted(stale, at, n)))
  {
    var text' := Deleted(text, at, n);
    var labels' := Deleted(labels, at, n);
    TouchedSafe(text', at, 0, labels', Deleted(stale, at, n));
  }

  // ----- the first unchecked interval --------------------------------------------------------------

  /** G_MAXSIZE stands for an offset that is not set. */
  datatype Offset = NotSet | At(offset: nat)
  datatype UncheckedRange = UncheckedRange(start: Offset, length: nat)

  /** get_unchecked_start_cb */
  function UncheckedStart(offset: nat, run: Run<Label>, range: UncheckedRange): (UncheckedRange, bool) {
    if range.start.NotSet? && run.data == Checked then
      (range, false)
    else if run.data == Unchecked then
      (UncheckedRange(if range.start.NotSet? then At(offset) else range.start, range.length + run.length), false)
    else
      (range, true)
  }

  /** The unchecked interval starts the labels after nothing but checked ones. */
  ghost predicate Opens(labels: seq<Label>, range: UncheckedRange) {
    match range.start
    case NotSet => range.length == 0 && forall i :: 0 <= i < |labels| ==> labels[i] == Checked
    case At(o) =>
      && range.length > 0 && o + range.length <= |labels|
      && (forall i :: 0 <= i < o ==> labels[i] == Checked)
      && (forall i :: o <= i < o + range.length ==> labels[i] == Unchecked)
  }

  /** It is the first maximal unchecked interval. */
  ghost predicate FirstInterval(labels: seq<Label>, range: UncheckedRange) {
    && Opens(labels, range)
    && (range.start.At? ==>
          var end := range.start.offset + range.length;
          end == |labels| || labels[end] == Checked)
  }

  lemma {:induction false} VisitFindsFirst(seen: seq<Label>, rs: seq<Run<Label>>, range: UncheckedRange)
    requires AllPositive(rs) && Opens(seen, range)
    requires range.start.At? ==> range.start.offset + range.length == |seen|
    ensures FirstInterval(seen + Expand(rs), Visit(UncheckedStart, Placed(rs, |seen|), range))
    decreases |rs|
  {
    if rs == [] {
      assert seen + Expand(rs) == seen;
    } else {
      var run, ps := rs[0], Placed(rs, |seen|);
      assert ps[0] == (|seen|, run) && ps[1..] == Placed(rs[1..], |seen| + run.length);
      var seen' := seen + Repeat(run.length, run.data);
      assert seen + Expand(rs) == seen' + Expand(rs[1..]);
      hide Placed, Expand, AllPositive;
      var (range', stop) := UncheckedStart(|seen|, run, range);
      if stop {
        assert (seen + Expand(rs))[|seen|] == Checked;
      } else {
        VisitFindsFirst(seen', rs[1..], range');
      }
    }
  }
}
