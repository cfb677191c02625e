/** IdeHighlightEngine: which characters of a buffer a highlighter has still to
    visit, kept in a text region beside the text. */
module HighlightEngines {
  import opened Runs
  import opened Levels
  import opened Trees
  import opened Dissolution
  import opened Locating
  import opened Editing
  import opened TextRegions
  import opened Marking
  import opened Ticking
  import Balance

  class HighlightEngine {
    const region: TextRegion<Label>
    /** '_' or g_unichar_isalnum */
    const isWord: char -> bool

    /** The characters of the buffer. */
    var text: seq<char>
    var enabled: bool
    var hasHighlighter: bool
    var workScheduled: bool

    /** Per character: its line was edited since the highlighter passed it. */
    ghost var stale: seq<bool>

    ghost function Labels(): seq<Label>
      reads this, region
    {
      region.Characters()
    }

    /** The region has one label for each character, and at most one more. */
    ghost predicate Consistent()
      reads this, region
    {
      && region.Valid()
      && |stale| == |text| <= |Labels()| <= |text| + 1
      && Safe(text, Labels(), stale)
    }

    /** Besides, the worker is only queued when there is a highlighter to call. */
    ghost predicate Valid()
      reads this, region
    {
      Consistent() && (workScheduled ==> hasHighlighter)
    }

    ghost function Surplus(): int
      reads this, region
    {
      |Labels()| - |text|
    }

    /** An engine bound to a new, empty buffer. */
    constructor (isWord: char -> bool, enabled: bool)
      ensures Valid() && fresh(region) && text == [] && Labels() == [] && this.isWord == isWord
      ensures this.enabled == enabled && !hasHighlighter && !workScheduled
    {
      hide Good, CachePlace, TextRegion<Label>.Characters, TextRegion<Label>.Contents, Expand, Gather;
      this.isWord := isWord;
      this.enabled := enabled;
      region := new TextRegion<Label>(NeverJoin);
      text, stale, hasHighlighter, workScheduled := [], [], false, false;
    }

    method QueueWork()
      modifies `workScheduled
      ensures workScheduled == (old(workScheduled) || (enabled && hasHighlighter))
    {
      if !enabled || workScheduled || !hasHighlighter {
        return;
      }
      workScheduled := true;
    }

    /** Unchecks [begin, end); `ok` is false where the region would abort. */
    method Invalidate(begin: nat, end: nat) returns (ok: bool)
      requires region.Valid() && begin <= end <= |text| <= |Labels()|
      modifies region, `workScheduled
      ensures ok ==> region.Valid() && Labels() == Unset(old(Labels()), begin, end)
      ensures ok ==> workScheduled == (old(workScheduled) || (enabled && hasHighlighter))
      ensures !ok ==> begin < end && old(CannotCut(region, begin, end))
      ensures begin < end && old(CutsFullLeaf(region, begin, end)) ==> !ok
    {
      hide Good, CachePlace, TextRegion<Label>.Characters, TextRegion<Label>.Contents, SplitsFullLeaf;
      ghost var labels := Labels();
      var length := end - begin;
      if length > 0 {
        ok := region.Remove(begin, length);
        if !ok {
          return;
        }
        region.Insert(begin, length, Unchecked);
      }
      UnsetByEdits(labels, begin, end);
      ok := true;
      QueueWork();
    }

    /** Unchecks a range of the buffer, widened to whole words within its lines. */
    method MarkUnchecked(offset: nat, length: nat) returns (ok: bool)
      requires region.Valid() && offset + length <= |text| <= |Labels()|
      modifies region, `workScheduled
      ensures ok ==>
                region.Valid() &&
                Labels() ==
                Unset(old(Labels()), WordStart(text, isWord, offset), WordEnd(text, isWord, offset + length))
      ensures ok ==> workScheduled == (old(workScheduled) || (enabled && hasHighlighter))
      ensures var begin, end := WordStart(text, isWord, offset), WordEnd(text, isWord, offset + length);
              && (!ok ==> begin < end && old(CannotCut(region, begin, end)))
              && (begin < end && old(CutsFullLeaf(region, begin, end)) ==> !ok)
    {
      hide Good, CachePlace, TextRegion<Label>.Characters, TextRegion<Label>.Contents, Unset, CutsFullLeaf, CannotCut;
      var begin := BackToWord(offset);
      var end := ForwardToWord(offset + length);
      ok := Invalidate(begin, end);
    }

    method BackToWord(offset: nat) returns (begin: nat)
      requires offset <= |text|
      ensures begin == WordStart(text, isWord, offset)
    {
      begin := offset;
      while !StartsLine(text, begin)
        invariant begin <= offset && WordStart(text, isWord, offset) == WordStart(text, isWord, begin)
        decreases begin
      {
        begin := begin - 1;
        if !isWord(text[begin]) {
          return;
        }
      }
    }

    method ForwardToWord(offset: nat) returns (end: nat)
      requires offset <= |text|
      ensures end == WordEnd(text, isWord, offset)
    {
      end := offset;
      while !EndsLine(text, end)
        invariant offset <= end <= |text| && WordEnd(text, isWord, offset) == WordEnd(text, isWord, end)
        decreases |text| - end
      {
        end := end + 1;
        if end == |text| || !isWord(text[end]) {
          return;
        }
      }
    }

    // ----- the commit hooks ------------------------------------------------------------------------

    /** The hooks after an insertion, and, with length 0, after a deletion. */
    method MarkLines(offset: nat, length: nat) returns (ok: bool)
      requires region.Valid() && offset + length <= |text| <= |Labels()|
      modifies region, `workScheduled
      ensures ok ==>
                region.Valid() &&
                Labels() == Unset(old(Labels()), LineStart(text, offset), LineEnd(text, offset + length))
      ensures ok ==> workScheduled == (old(workScheduled) || (enabled && hasHighlighter))
      ensures var begin, end := LineStart(text, offset), LineEnd(text, offset + length);
              && (!ok ==> begin < end && old(CannotCut(region, begin, end)))
              && (begin < end && old(CutsFullLeaf(region, begin, end)) ==> !ok)
    {
      hide CutsFullLeaf, CannotCut;
      var begin, end := LineStart(text, offset), LineEnd(text, offset + length);
      ok := MarkUnchecked(begin, end - begin);
    }

    /** An insertion into the buffer, with its hooks before and after; `mid` is
        the region between the two. */
    method InsertText(offset: nat, ins: seq<char>) returns (ok: bool, ghost mid: Tree<Label>)
      requires Valid() && offset <= |text|
      modifies this, region
      ensures text == Inserted(old(text), offset, ins) && enabled == old(enabled)
      ensures hasHighlighter == old(hasHighlighter)
      ensures ok ==> Valid() && Surplus() == old(Surplus())
      ensures ok ==>
                Labels() ==
                Unset(Inserted(old(Labels()), offset, Repeat(|ins|, Unchecked)), LineStart(text, offset),
                LineEnd(text, offset + |ins|))
      ensures ok ==> stale == Touched(text, offset, |ins|, Inserted(old(stale), offset, Repeat(|ins|, true)))
      ensures ok ==> workScheduled == (old(workScheduled) || (enabled && hasHighlighter))
      ensures Good(mid, 0, [], NIL) && Trees.Labels(mid) == Inserted(old(Labels()), offset, Repeat(|ins|, Unchecked))
      ensures var begin, end := LineStart(text, offset), LineEnd(text, offset + |ins|);
              && (!ok ==>
                    begin < end &&
                    (SplitsFullLeaf(mid, region.join, begin, end - begin) || |old(region.Contents())| + 3 >= CROWD))
              && (begin < end && SplitsFullLeaf(mid, region.join, begin, end - begin) ==> !ok)
    {
      hide Safe, Touched, Good, CachePlace, Unset, SplitsFullLeaf, CannotCut, CutsFullLeaf, Trees.Labels,
        TextRegion<Label>.Characters, TextRegion<Label>.Contents, OneLeaf;
      InsertSafe(text, Labels(), stale, offset, ins);
      region.Insert(offset, |ins|, Unchecked);
      mid := region.Snap();
      MidRegion(region);
      text := text[..offset] + ins + text[offset..];
      stale := Touched(text, offset, |ins|, Inserted(stale, offset, Repeat(|ins|, true)));
      MidCut(region, LineStart(text, offset), LineEnd(text, offset + |ins|));
      ok := MarkLines(offset, |ins|);
    }

    /** A deletion from the buffer, with its hooks before and after; `mid` is the
        region between the two, once the first has removed the labels. */
    method DeleteText(offset: nat, length: nat) returns (ok: bool, ghost mid: Tree<Label>)
      requires Valid() && offset + length <= |text| && offset < |Labels()|
      modifies this, region
      ensures ok ==> Valid() && Surplus() == old(Surplus())
      ensures ok ==>
                text == Deleted(old(text), offset, length) && enabled == old(enabled) &&
                hasHighlighter == old(hasHighlighter)
      ensures ok ==>
                Labels() ==
                Unset(Deleted(old(Labels()), offset, length), LineStart(text, offset), LineEnd(text, offset))
      ensures ok ==> stale == Touched(text, offset, 0, Deleted(old(stale), offset, length))
      ensures ok ==> workScheduled == (old(workScheduled) || (enabled && hasHighlighter))
      ensures length > 0 && old(CutsFullLeaf(region, offset, offset + length)) ==> !ok
      ensures var text' := Deleted(old(text), offset, length);
              var begin, end := LineStart(text', offset), LineEnd(text', offset);
              && (!ok ==> old(CutsFullLeaf(region, offset, offset + length)) || |old(region.Contents())| + 2 >= CROWD
                          || (begin < end && SplitsFullLeaf(mid, region.join, begin, end - begin)))
              && (begin < end && SplitsFullLeaf(mid, region.join, begin, end - begin) ==> !ok)
      ensures ok ==> Good(mid, 0, [], NIL) && Trees.Labels(mid) == Deleted(old(Labels()), offset, length)
    {
      hide Safe, Touched, Good, CachePlace, Unset, SplitsFullLeaf, CannotCut, CutsFullLeaf, Trees.Labels,
        TextRegion<Label>.Characters, TextRegion<Label>.Contents, OneLeaf, LineStart, LineEnd;
      DeleteSafe(text, Labels(), stale, offset, length);
      mid := OneLeaf([]);
      MidCut(region, offset, offset + length);
      ok := region.Remove(offset, length);
      if !ok {
        return;
      }
      mid := region.Snap();
      MidRegion(region);
      text := text[..offset] + text[offset + length..];
      stale := Touched(text, offset, 0, Deleted(stale, offset, length));
      MidCut(region, LineStart(text, offset), LineEnd(text, offset));
      ok := MarkLines(offset, 0);
    }

    // ----- invalidating everything -------------------------------------------------------------------

    /** Runs when the buffer is bound, the highlighter changes or the engine is unpaused. */
    method Reload() returns (ok: bool)
      requires Consistent()
      modifies region, `workScheduled
      ensures ok ==> Valid() && Labels() == Unset(old(Labels()), 0, |text|)
      ensures ok ==> workScheduled == (enabled && hasHighlighter)
      ensures !ok ==> |old(region.Contents())| + 1 >= CROWD
    {
      hide Good, CachePlace, TextRegion<Label>.Characters, TextRegion<Label>.Contents, Safe, Unset, CutsFullLeaf;
      CutsNothing(region, 0, |text|);
      UnsetSafe(text, Labels(), stale, 0, |text|);
      workScheduled := false;
      ok := Invalidate(0, |text|);
      if !ok || !hasHighlighter {
        return;
      }
      QueueWork();
    }

    /** Another highlighter, or none, takes over. */
    method SetHighlighter(present: bool) returns (ok: bool)
      requires Valid()
      modifies region, `workScheduled, `hasHighlighter
      ensures hasHighlighter == present
      ensures ok ==> Valid() && Labels() == Unset(old(Labels()), 0, |text|) && workScheduled == (enabled && present)
      ensures !ok ==> |old(region.Contents())| + 1 >= CROWD
    {
      hasHighlighter := present;
      ok := Reload();
    }

    /** Leaves the last label in place, so that a label may be left over. */
    method Rebuild() returns (ok: bool)
      requires Valid()
      modifies region, `workScheduled
      ensures ok ==> Valid()
      ensures ok ==> Labels() == if enabled then Rebuilt(old(Labels()), |text|) else old(Labels())
      ensures ok && enabled ==> Surplus() == (if old(Labels()) == [] then 0 else 1)
      ensures ok ==> workScheduled == (old(workScheduled) || (enabled && hasHighlighter))
      ensures !ok ==> |old(region.Contents())| + 1 >= CROWD
    {
      hide Good, CachePlace, TextRegion<Label>.Characters, TextRegion<Label>.Contents, Rebuilt, Inserted, Deleted, Safe,
        SplitsFullLeaf;
      ok := true;
      if !enabled {
        return;
      }
      RebuiltLabels(text, Labels(), stale);
      if region.length > 0 {
        CutsNothing(region, 0, region.length - 1);
        ok := region.Remove(0, region.length - 1);
        if !ok {
          return;
        }
      }
      if |text| > 0 {
        region.Insert(0, |text|, Unchecked);
      }
      QueueWork();
    }

    method SettingsChanged(semantic: bool) returns (ok: bool)
      requires Valid()
      modifies region, `workScheduled, `enabled
      ensures enabled == semantic
      ensures ok ==> Valid() && Labels() == if semantic then Rebuilt(old(Labels()), |text|) else old(Labels())
      ensures ok ==> workScheduled == (old(workScheduled) || (semantic && hasHighlighter))
      ensures !ok ==> |old(region.Contents())| + 1 >= CROWD
    {
      ok := true;
      enabled := semantic;
      if semantic {
        ok := Rebuild();
      }
    }

    // ----- the worker ------------------------------------------------------------------------------------

    /** The first unchecked range of the text; `begin` and `end` are the
        arguments by reference, which a failure leaves alone unless the label
        past the end of the text is unchecked. */
    method GetNextRange(begin0: nat, end0: nat) returns (more: bool, begin: nat, end: nat)
      requires region.Valid() && |text| <= |Labels()|
      ensures more ==> NextRange(text, Labels(), begin, end)
      ensures !more ==> AllChecked(text, Labels())
      ensures !more ==> if LeftOver(text, Labels()) then begin == end == |text| else begin == begin0 && end == end0
    {
      var none := UncheckedRange(NotSet, 0);
      VisitFindsFirst([], region.Contents(), none) by { RegionPositive(region); }
      assert [] + Labels() == Labels();
      var range := region.Foreach(UncheckedStart, none);
      ClampedRange(text, Labels(), range);
      begin, end := begin0, end0;
      if range.length == 0 || range.start == NotSet {
        return false, begin, end;
      }
      begin := if range.start.offset <= |text| then range.start.offset else |text|;
      end := if range.start.offset + range.length <= |text| then range.start.offset + range.length else |text|;
      return begin != end, begin, end;
    }

    /** The scheduled worker: it stays scheduled exactly as long as the engine
        is enabled and its ticks ask for another one. */
    method Worker(update: Highlighter) returns (ok: bool, ghost states: seq<seq<Label>>, ghost log: seq<Pass>)
      requires Valid() && workScheduled && StaysInside(update)
      modifies region, `stale, `workScheduled
      ensures ok ==> Valid() && Surplus() == old(Surplus())
      ensures Trace(text, update, states, log) && states[0] == old(Labels()) && (ok ==> states[|log|] == Labels())
      ensures ok ==> stale == Cleared(old(stale), log)
      ensures ok && enabled ==> Finished(text, Labels(), log)
      ensures !enabled ==> ok && log == []
      ensures ok ==> (workScheduled <==> enabled && Advanced(log) && !AtLeftOver(text, Labels(), log))
      ensures !ok ==> |old(region.Contents())| + 3 * |log| + 1 >= CROWD
    {
      hide Finished, Advanced, AtLeftOver, Trace, Cleared, AllChecked, Good, CachePlace, Safe, StaysInside,
        TextRegion<Label>.Characters,
        TextRegion<Label>.Contents;
      ok := true;
      states, log := [Labels()], [];
      TraceStart(text, update, Labels(), stale);
      if enabled {
        var again;
        ok, again, states, log := Tick(update);
        if again {
          return;
        }
      }
      workScheduled := false;
    }

    /** One tick: passes until the highlighter stops short or nothing is
        unchecked.  `log` and `states` record the passes.  It asks for another
        tick exactly if the last pass moved, and did not come to an unchecked
        label past the end of the text. */
    method Tick(update: Highlighter)
        returns (ok: bool, again: bool, ghost states: seq<seq<Label>>, ghost log: seq<Pass>)
      requires Valid() && hasHighlighter && StaysInside(update)
      modifies region, `stale
      ensures ok ==> Valid() && Surplus() == old(Surplus())
      ensures Trace(text, update, states, log) && states[0] == old(Labels()) && (ok ==> states[|log|] == Labels())
      ensures ok ==> stale == Cleared(old(stale), log)
      ensures ok ==> Finished(text, Labels(), log)
      ensures ok ==> (again <==> Advanced(log) && !AtLeftOver(text, Labels(), log))
      ensures !ok ==> |old(region.Contents())| + 3 * |log| + 1 >= CROWD
    {
      hide Good, CachePlace, TextRegion<Label>.Characters, TextRegion<Label>.Contents, NextRange, PassOn, Trace, Safe,
        Cleared, CountUnchecked, AllChecked, StaysInside, LeftOver;
      ok, again := true, false;
      states, log := [Labels()], [];
      TraceStart(text, update, Labels(), stale);
      var begin, end, pass := 0, 0, 0;
      var more;
      more, begin, end := GetNextRange(begin, end);
      if !more {
        return;
      }
      while true
        invariant region.Valid() && |Labels()| == |old(Labels())| && stale == old(stale)
        invariant |states| == |log| + 1 && Trace(text, update, states, log) && states[|log|] == Labels()
        invariant states[0] == old(Labels()) && pass == |log|
        invariant log != [] ==> log[|log| - 1].location >= log[|log| - 1].end
        invariant NextRange(text, Labels(), begin, end)
        invariant |region.Contents()| <= |old(region.Contents())| + 3 * |log|
        decreases CountUnchecked(Labels()[..|text|])
      {
        ghost var labels := Labels();
        var iter;
        ghost var p;
        ok, iter, p := HighlightRange(update, pass, begin, end);
        if !ok {
          return;
        }
        TraceExtend(text, update, states, log, p, Labels());
        PassShrinks(text, update, pass, labels, p, Labels());
        states, log, pass := states + [Labels()], log + [p], pass + 1;
        if iter >= end {
          more, begin, end := GetNextRange(begin, end);
          if more {
            continue;
          }
        }
        TickSafe(text, update, states, log, stale);
        stale := Cleared(stale, log);
        again := iter != begin;
        return;
      }
    }

    /** The body of a pass. */
    method HighlightRange(update: Highlighter, pass: nat, begin: nat, end: nat)
        returns (ok: bool, iter: nat, ghost p: Pass)
      requires region.Valid() && NextRange(text, Labels(), begin, end) && StaysInside(update)
      modifies region
      ensures p == Pass(begin, end, p.start, iter) && begin <= iter && (iter == begin ==> iter < end)
      ensures ok ==>
                region.Valid() && PassOn(text, update, pass, old(Labels()), p, Labels()) &&
                |Labels()| == |old(Labels())|
      ensures ok ==> |region.Contents()| <= |old(region.Contents())| + 3
      ensures !ok ==> |old(region.Contents())| + 1 >= CROWD
    {
      hide Good, CachePlace, TextRegion<Label>.Characters, TextRegion<Label>.Contents, NextRange, PassOn,
        SplitsFullLeaf;
      ghost var labels := Labels();
      RangeFits(text, labels, begin, end);
      iter := ForwardPastEnds(begin);
      var start := iter;
      if iter < end {
        iter := update(pass, start, end);
      }
      p := Pass(begin, end, start, iter);
      PassNow(text, update, pass, labels, p);
      ok := true;
      if iter != begin {
        CutsNothing(region, begin, iter);
        ok := region.Replace(begin, iter - begin, Checked);
      }
    }

    method ForwardPastEnds(begin: nat) returns (iter: nat)
      requires begin <= |text|
      ensures iter == SkipLineEnds(text, begin)
    {
      iter := begin;
      while EndsLine(text, iter)
        invariant begin <= iter <= |text| && SkipLineEnds(text, begin) == SkipLineEnds(text, iter)
        decreases |text| - iter
      {
        if iter == |text| {
          break;
        }
        iter := iter + 1;
      }
    }
  }

  lemma {:induction false} RegionPositive(region: TextRegion<Label>)
    requires region.Valid()
    ensures AllPositive(region.Contents())
  {
    hide Sound, Exact, Full, Fits;
    forall x | 0 <= x < |region.Contents()|
      ensures region.Contents()[x].length > 0
    {
      Balance.NoEmptyRun(region.Snap(), x);
    }
  }

  /** Removing [begin, end) would cut a run of a full leaf in two. */
  ghost predicate CutsFullLeaf(region: TextRegion<Label>, begin: nat, end: nat)
    requires begin <= end
    reads region
  {
    SplitsFullLeaf(region.Snap(), region.join, begin, end - begin)
  }

  /** Removing [begin, end) may abort: in a leaf, or in a branch of a large tree. */
  ghost predicate CannotCut(region: TextRegion<Label>, begin: nat, end: nat)
    requires begin <= end
    reads region
  {
    CutsFullLeaf(region, begin, end) || |region.Contents()| + 1 >= CROWD
  }

  lemma {:induction false} MidRegion(region: TextRegion<Label>)
    requires region.Valid()
    ensures Good(region.Snap(), 0, [], NIL) && Trees.Labels(region.Snap()) == region.Characters()
  {
    hide Good, CachePlace;
    LevelsExist(region.Snap());
  }

  lemma {:induction false} MidCut(region: TextRegion<Label>, begin: nat, end: nat)
    requires begin <= end
    ensures CutsFullLeaf(region, begin, end) <==> SplitsFullLeaf(region.Snap(), region.join, begin, end - begin)
    ensures CannotCut(region, begin, end) <==>
            SplitsFullLeaf(region.Snap(), region.join, begin, end - begin) || |region.Contents()| + 1 >= CROWD
  {
    hide SplitsFullLeaf, TextRegion<Label>.Contents;
  }

  /** Nothing is cut at the start of the labels, nor where the label changes. */
  lemma {:induction false} CutsNothing(region: TextRegion<Label>, begin: nat, end: nat)
    requires region.Valid() && begin <= end
    requires 0 < begin < |region.Characters()| ==> region.Characters()[begin - 1] != region.Characters()[begin]
    ensures !CutsFullLeaf(region, begin, end)
  {
    hide Good, SplitsFullLeaf, Expand;
    if CutsFullLeaf(region, begin, end) {
      SplitsBetweenEqual(region.Snap(), region.join, begin, end - begin);
      assert false;
    }
  }

  /** The backward loop of mark_unchecked. */
  function WordStart(text: seq<char>, isWord: char -> bool, i: nat): (r: nat)
    requires i <= |text|
    ensures LineStart(text, i) <= r <= i && (r == i <==> StartsLine(text, i))
    ensures forall j :: r < j < i ==> isWord(text[j])
    ensures r < i ==> r == LineStart(text, i) || !isWord(text[r])
  {
    if StartsLine(text, i) then i
    else if !isWord(text[i - 1]) then i - 1
    else WordStart(text, isWord, i - 1)
  }

  /** The forward loop of mark_unchecked; it looks at the character it has moved to. */
  function WordEnd(text: seq<char>, isWord: char -> bool, i: nat): (r: nat)
    requires i <= |text|
    ensures i <= r <= LineEnd(text, i) && (r == i <==> EndsLine(text, i))
    ensures forall j :: i < j < r ==> isWord(text[j])
    ensures i < r ==> r == LineEnd(text, i) || !isWord(text[r])
    decreases |text| - i
  {
    if EndsLine(text, i) then i
    else if i + 1 == |text| || !isWord(text[i + 1]) then i + 1
    else WordEnd(text, isWord, i + 1)
  }

  /** The labels after a rebuild: a new one for each character, before what was
      the last label. */
  ghost function Rebuilt(labels: seq<Label>, n: nat): (r: seq<Label>)
    ensures |r| == n + (if labels == [] then 0 else 1)
    ensures forall i :: 0 <= i < n ==> r[i] == Unchecked
    ensures labels != [] ==> r[n] == labels[|labels| - 1]
  {
    Repeat(n, Unchecked) + if labels == [] then [] else [labels[|labels| - 1]]
  }

  lemma {:induction false} RebuiltLabels(text: seq<char>, labels: seq<Label>, stale: seq<bool>)
    requires |stale| == |text| <= |labels|
    ensures var kept := if labels == [] then [] else Deleted(labels, 0, |labels| - 1);
            Rebuilt(labels, |text|) == if |text| > 0 then Inserted(kept, 0, Repeat(|text|, Unchecked)) else kept
    ensures Safe(text, Rebuilt(labels, |text|), stale)
    ensures |Rebuilt(labels, |text|)| == |text| + if labels == [] then 0 else 1
  {}
}
