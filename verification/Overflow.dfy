/** The missing capacity checks of the removal, on states that meet them. */
module Overflow {
  import opened Runs
  import opened Levels
  import opened Forest
  import opened Trees
  import opened Searching
  import opened Editing
  import opened TextRegions

  /** k runs of one character, and what is left of sixty. */
  ghost function Steps(k: nat): seq<Run<int>>
    requires 2 * k < 60
  {
    seq(k, _ => Run(1, 0)) + [Run(60 - 2 * k, 0)]
  }

  lemma {:induction false} StepsTotal(k: nat, x: nat)
    requires 2 * k < 60 && x <= k
    ensures |Steps(k)| == k + 1 && Total(Steps(k)[..x]) == x && Total(Steps(k)) == 60 - k
  {
    Singles(x);
    Singles(k);
    assert Steps(k)[..x] == seq(x, _ => Run(1, 0));
    ExpandConcat(seq(k, _ => Run(1, 0)), [Run(60 - 2 * k, 0)]);
    ExpandOne(Run(60 - 2 * k, 0));
  }

  lemma {:induction false} Singles(k: nat)
    ensures Total(seq(k, _ => Run(1, 0))) == k
  {
    if k > 0 {
      assert seq(k, _ => Run(1, 0))[1..] == seq(k - 1, _ => Run(1, 0));
      Singles(k - 1);
    }
  }

  /** Taking the second character of the last run leaves one step more. */
  lemma {:induction false} NextStep(k: nat)
    requires 2 * k + 4 < 60
    ensures SplitsRun(Steps(k), k, 0, k + 1, 1, NeverJoin) && CutRun(Steps(k), k, k + 1, 1) == Steps(k + 1)
  {
    hide Total;
    StepsTotal(k, k);
    assert Steps(k)[..k] == seq(k, _ => Run(1, 0)) && Steps(k)[k + 1..] == [];
    assert Steps(k + 1) == seq(k, _ => Run(1, 0)) + [Run(1, 0), Run(60 - 2 * k - 2, 0)];
  }

  lemma {:induction false} LastStepOverflows(t: Tree<int>)
    requires Good(t, 0, [], NIL) && OneLeafOnly(t.levels) && Gather(t.runs, t.levels[0]) == Steps(25)
    ensures SplitsFullLeaf(t, NeverJoin, 26, 1)
  {
    hide Good, Total, Gather;
    NextStep(25);
    StepsTotal(25, 25);
    OnlyLeaf(t);
    assert Finds(t, 0, 26, 26);
    assert RemovalOverflows(Get(t.runs, t.levels[0][0]), 0, 26, 1, NeverJoin);
  }

  /** Where the one leaf starts, and what it holds. */
  lemma {:induction false} OnlyLeaf<T>(t: Tree<T>)
    requires Good(t, 0, [], NIL) && OneLeafOnly(t.levels)
    ensures Get(t.runs, t.levels[0][0]) == Gather(t.runs, t.levels[0]) && LeafStart(t, 0) == 0
    ensures Len(t.children, t.runs, t.levels[0][0]) == Total(Gather(t.runs, t.levels[0]))
  {
    GatherOne(t.runs, t.levels[0][0]);
    assert t.levels[0] == [t.levels[0][0]] && t.levels[0][..0] == [];
    hide Total, Gather;
    GatherNone(t.runs);
    LeafStartStep(t, 0);
    assert Total<Run<T>>([]) == 0;
  }

  /** A program that meets the missing check: one insertion into a new region
      and twenty-six removals of one character each. */
  method OverflowIsReached() returns (ok: bool)
    ensures !ok
  {
    hide Good, Expand, SplitsFullLeaf, Steps, SplitsRun, CutRun, TextRegion<int>.Contents;
    var region := new TextRegion<int>(NeverJoin);
    region.Insert(0, 60, 0);
    var k := 0;
    FirstStep();
    while k < 25
      invariant k <= 25 && region.Valid() && region.join == NeverJoin && fresh(region)
      invariant region.Contents() == Steps(k) && OneLeafOnly(region.levels)
    {
      StepsTotal(k, k);
      NextStep(k);
      ok := region.Remove(k + 1, 1);
      k := k + 1;
    }
    StepsTotal(25, 25);
    RegionOverflows(region);
    ok := region.Remove(26, 1);
  }

  lemma {:induction false} FirstStep()
    ensures Steps(0) == [Run(60, 0)]
  {}

  lemma {:induction false} RegionOverflows(region: TextRegion<int>)
    requires region.Valid() && region.join == NeverJoin && OneLeafOnly(region.levels) && region.Contents() == Steps(25)
    ensures SplitsFullLeaf(region.Snap(), region.join, 26, 1)
  {
    hide Good, Gather;
    LastStepOverflows(region.Snap());
  }
}
