/** Steps of the iteration over the leaves. */
module Traversal {
  import opened Runs
  import opened Levels
  import opened Forest
  import opened Trees
  import opened Searching
  import opened Iteration
  import opened Compacting

  // ----- iterating ----------------------------------------------------------------------------

  lemma {:induction false} VisitAllIs<T, S>(func: Callback<T, S>, rs: seq<Run<T>>, at: nat, s: S)
    ensures VisitAll(func, rs, at, s) == Visit(func, Placed(rs, at), s)
  {}

  lemma {:induction false} VisitAllEnd<T, S>(func: Callback<T, S>, at: nat, s: S)
    ensures VisitAll(func, [], at, s) == s
  {}

  lemma {:induction false} VisitInIs<T, S>(func: Callback<T, S>, rs: seq<Run<T>>, at: nat, begin: nat, end: nat, s: S)
    ensures VisitIn(func, rs, at, begin, end, s) == Visit(func, Overlapping(Placed(rs, at), begin, end), s)
  {}

  lemma {:induction false} LeafAndRest<T>(t: Tree<T>, i: nat)
    requires Good(t, 0, [], NIL) && t.levels != [] && i < |t.levels[0]|
    ensures var n := t.levels[0][i];
            && n in t.runs && AllPositive(t.runs[n])
            && Gather(t.runs, t.levels[0][i..]) == t.runs[n] + Gather(t.runs, t.levels[0][i + 1..])
            && Ref(t.next, n) == (if i + 1 == |t.levels[0]| then NIL else t.levels[0][i + 1])
            && (i + 1 < |t.levels[0]| ==> t.levels[0][i + 1] != NIL)
            && LeafStart(t, i + 1) == LeafStart(t, i) + Total(t.runs[n])
  {
    LinksOf(t, 0, i, NIL);
    LeafStartStep(t, i);
    hide Gather, Total, Rooted, Ranked, AllLinked, Stacked, Parented, Measured, Filled, WithinCapacity, LeafStart;
    assert Kind(0, t.levels[0][i], t.runs, t.children);
    var ids := t.levels[0][i..];
    GatherAt(t.runs, ids, 0);
    assert ids[..0] == [];
    GatherNone(t.runs);
  }

  /** The leaves before the one found end before the range begins. */
  lemma {:induction false} SkipLeaves<T, S>(func: Callback<T, S>, t: Tree<T>, i: nat, within: nat, begin: nat, end: nat,
                                            s: S)
    requires Finds(t, i, within, begin)
    ensures within <= begin && begin - within == LeafStart(t, i)
    ensures VisitIn(func, Gather(t.runs, t.levels[0]), 0, begin, end, s)
         == VisitIn(func, Gather(t.runs, t.levels[0][i..]), begin - within, begin, end, s)
  {
    hide Gather, Total, VisitIn, Len;
    GatherConcat(t.runs, t.levels[0][..i], t.levels[0][i..]);
    assert t.levels[0][..i] + t.levels[0][i..] == t.levels[0];
    VisitInSkip(func, Gather(t.runs, t.levels[0][..i]), Gather(t.runs, t.levels[0][i..]), 0, begin, end, s);
  }

  lemma {:induction false} MoreLeaves<T>(t: Tree<T>, i: nat, position: nat, end: nat)
    requires t.levels != [] && i <= |t.levels[0]| && position == LeafStart(t, i)
    requires position < end <= Total(Gather(t.runs, t.levels[0]))
    ensures i < |t.levels[0]|
  {
    hide Gather, Total;
    assert t.levels[0][..|t.levels[0]|] == t.levels[0];
  }
}
