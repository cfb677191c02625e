/** Where a character offset lies in the tree. */
module Searching {
  import opened Runs
  import opened Levels
  import opened Forest
  import opened Trees

  /** The number of characters under these nodes. */
  ghost function SumLens<T>(ch: map<Id, seq<Child>>, runs: map<Id, seq<Run<T>>>, ids: seq<Id>): nat {
    if ids == [] then 0 else Len(ch, runs, ids[0]) + SumLens(ch, runs, ids[1..])
  }

  lemma {:induction false} SumLensStep<T>(ch: map<Id, seq<Child>>, runs: map<Id, seq<Run<T>>>, ids: seq<Id>, x: nat)
    requires x < |ids|
    ensures SumLens(ch, runs, ids[..x + 1]) == SumLens(ch, runs, ids[..x]) + Len(ch, runs, ids[x])
  {
    hide Len;
    if x == 0 {
      assert ids[..1][1..] == [];
    } else {
      SumLensStep(ch, runs, ids[1..], x - 1);
      assert ids[..x + 1][1..] == ids[1..][..x] && ids[..x][1..] == ids[1..][..x - 1];
    }
  }

  lemma {:induction false} SumLensBranches<T>(ch: map<Id, seq<Child>>, runs: map<Id, seq<Run<T>>>, ids: seq<Id>)
    requires forall i :: 0 <= i < |ids| ==> ids[i] !in runs
    ensures SumLens(ch, runs, ids) == ChildTotal(Gather(ch, ids))
  {
    hide ChildTotal;
    if ids == [] {
      assert ChildTotal([]) == 0 by { ChildTotalNone(); }
    } else {
      SumLensBranches(ch, runs, ids[1..]);
      ChildTotalConcat(Get(ch, ids[0]), Gather(ch, ids[1..]));
    }
  }

  lemma {:induction false} ChildTotalNone()
    ensures ChildTotal([]) == 0
  {}

  lemma {:induction false} SumLensLeaves<T>(ch: map<Id, seq<Child>>, runs: map<Id, seq<Run<T>>>, ids: seq<Id>)
    requires forall i :: 0 <= i < |ids| ==> ids[i] in runs
    ensures SumLens(ch, runs, ids) == Total(Gather(runs, ids))
  {
    if ids != [] {
      hide Total;
      SumLensLeaves(ch, runs, ids[1..]);
      ExpandConcat(runs[ids[0]], Gather(runs, ids[1..]));
    }
  }

  /** The cached lengths of an upper level add up to the lengths below. */
  lemma {:induction false} SumLensBelow<T>(ch: map<Id, seq<Child>>, runs: map<Id, seq<Run<T>>>, up: seq<Id>,
                                           low: seq<Id>, x: nat)
    requires Covers(ch, up, low) && Measured(ch, runs, NIL, 0, NIL, 0) && x <= |low|
    ensures x <= |Gather(ch, up)| && SumLens(ch, runs, low[..x]) == ChildTotal(Gather(ch, up)[..x])
  {
    hide Gather, Len, ChildTotal;
    var es := Gather(ch, up);
    if x == 0 {
      assert low[..0] == [] && es[..0] == [];
      ChildTotalNone();
    } else {
      SumLensBelow(ch, runs, up, low, x - 1);
      SumLensStep(ch, runs, low, x - 1);
      ChildTotalAt(es, x - 1);
      var j, c := Locate(ch, up, x - 1);
      assert es[x - 1] == ch[up[j]][c];
      assert Nodes(es)[x - 1] == low[x - 1];
    }
  }

  ghost function LevelStart<T>(t: Tree<T>, k: nat, j: nat): nat
    requires k < |t.levels| && j <= |t.levels[k]|
  {
    SumLens(t.children, t.runs, t.levels[k][..j])
  }

  /** The offset of leaf i. */
  ghost function LeafStart<T>(t: Tree<T>, i: nat): nat
    requires t.levels != [] && i <= |t.levels[0]|
  {
    Total(Gather(t.runs, t.levels[0][..i]))
  }

  lemma {:induction false} LevelZeroStart<T>(t: Tree<T>, i: nat)
    requires Whole(t) && i <= |t.levels[0]|
    ensures LevelStart(t, 0, i) == LeafStart(t, i)
  {
    hide Allocated, AllLinked, Stacked, Parented, RunsPositive, Ranked, Gather, Total, Len;
    var ids := t.levels[0][..i];
    forall x | 0 <= x < |ids|
      ensures ids[x] in t.runs
    {
      assert Kind(0, t.levels[0][x], t.runs, t.children);
    }
    SumLensLeaves(t.children, t.runs, ids);
  }

  /** Child c of node j of level k is node x of the level below, at the place
      its entry says and as long. */
  ghost predicate ChildAt<T>(t: Tree<T>, k: nat, j: nat, c: nat, x: nat)
    requires 0 < k < |t.levels| && j < |t.levels[k]| && c < |Get(t.children, t.levels[k][j])|
  {
    var es := Get(t.children, t.levels[k][j]);
    && x < |t.levels[k - 1]| && t.levels[k - 1][x] == es[c].node
    && LevelStart(t, k - 1, x) == LevelStart(t, k, j) + ChildTotal(es[..c])
    && (j + 1 == |t.levels[k]| && c + 1 == |es| ==> x + 1 == |t.levels[k - 1]|)
    && es[c].length == Len(t.children, t.runs, t.levels[k - 1][x])
  }

  lemma {:induction false} ChildStart<T>(t: Tree<T>, k: nat, j: nat, c: nat) returns (x: nat)
    requires Whole(t) && Exact(t) && 0 < k < |t.levels| && j < |t.levels[k]|
    requires c < |Get(t.children, t.levels[k][j])|
    ensures ChildAt(t, k, j, c, x)
  {
    hide Rooted, Ranked, Allocated, AllLinked, Parented, RunsPositive, Gather, Total, Len, Covers, ChildTotal;
    var ch, up, low := t.children, t.levels[k], t.levels[k - 1];
    var es := Get(ch, up[j]);
    assert Covers(ch, Row(t.levels, 0, [], k), low);
    x := |Gather(ch, up[..j])| + c;
    ChildPlace(ch, up, low, j, c, x);
    SumLensBelow(ch, t.runs, up, low, x);
    ChildTotalConcat(Gather(ch, up[..j]), es[..c]);
    forall y | 0 <= y < |up[..j]|
      ensures up[..j][y] !in t.runs
    {
      assert Kind(k, t.levels[k][y], t.runs, t.children);
    }
    SumLensBranches(ch, t.runs, up[..j]);
    assert ch[up[j]][c].node == low[x];
  }

  lemma {:induction false} ChildPlace(ch: map<Id, seq<Child>>, up: seq<Id>, low: seq<Id>, j: nat, c: nat, x: nat)
    requires Covers(ch, up, low) && j < |up| && c < |Get(ch, up[j])| && x == |Gather(ch, up[..j])| + c
    ensures x < |low| && x <= |Gather(ch, up)| && low[x] == Get(ch, up[j])[c].node
    ensures Gather(ch, up)[..x] == Gather(ch, up[..j]) + Get(ch, up[j])[..c]
    ensures j + 1 == |up| && c + 1 == |Get(ch, up[j])| ==> x + 1 == |low|
  {
    hide Gather;
    GatherAt(ch, up, j);
    var a, b, z := Gather(ch, up[..j]), Get(ch, up[j]), Gather(ch, up[j + 1..]);
    assert (a + b + z)[x] == b[c];
    assert (a + b + z)[..x] == a + b[..c];
    assert Nodes(Gather(ch, up))[x] == low[x];
    if j + 1 == |up| {
      assert up[j + 1..] == [];
      GatherNone(ch);
    }
  }

  /** Offset `offset` is character `within` of leaf i; only in the last leaf may
      it be the end. */
  ghost predicate Finds<T>(t: Tree<T>, i: nat, within: nat, offset: nat) {
    && t.levels != [] && i < |t.levels[0]|
    && LeafStart(t, i) + within == offset
    && (within < Len(t.children, t.runs, t.levels[0][i])
        || (within == Len(t.children, t.runs, t.levels[0][i]) && i + 1 == |t.levels[0]|))
  }

  /** The search may answer `leaf` and `within` for `offset`. */
  ghost predicate Answers<T>(t: Tree<T>, leaf: Id, within: nat, offset: nat) {
    exists i: nat :: Finds(t, i, within, offset) && t.levels[0][i] == leaf
  }

  /** It has one answer only, whatever route it takes. */
  lemma {:induction false} OneAnswer<T>(t: Tree<T>, leaf: Id, within: nat, leaf': Id, within': nat, offset: nat)
    requires Whole(t) && Answers(t, leaf, within, offset) && Answers(t, leaf', within', offset)
    ensures leaf == leaf' && within == within'
  {
    hide Sound, Len, LeafStart;
    var i: nat :| Finds(t, i, within, offset) && t.levels[0][i] == leaf;
    var i': nat :| Finds(t, i', within', offset) && t.levels[0][i'] == leaf';
    FindsUnique(t, i, within, i', within', offset);
  }

  lemma {:induction false} LeafStartStep<T>(t: Tree<T>, i: nat)
    requires Whole(t) && i < |t.levels[0]|
    ensures LeafStart(t, i + 1) == LeafStart(t, i) + Len(t.children, t.runs, t.levels[0][i])
    ensures t.levels[0][i] in t.runs && Len(t.children, t.runs, t.levels[0][i]) == Total(t.runs[t.levels[0][i]])
  {
    hide Allocated, AllLinked, Stacked, Parented, RunsPositive, Ranked, Gather, Total;
    assert Kind(0, t.levels[0][i], t.runs, t.children);
    GatherAt(t.runs, t.levels[0], i);
    ExpandConcat(Gather(t.runs, t.levels[0][..i]), t.runs[t.levels[0][i]]);
  }

  lemma {:induction false} LeafStartMono<T>(t: Tree<T>, i: nat, j: nat)
    requires Whole(t) && i <= j <= |t.levels[0]|
    ensures LeafStart(t, i) <= LeafStart(t, j)
    decreases j - i
  {
    hide Sound, LeafStart;
    if i < j {
      LeafStartMono(t, i, j - 1);
      LeafStartStep(t, j - 1);
    }
  }

  /** There is one place for an offset: whatever route the search takes, its
      answer is the same. */
  lemma {:induction false} FindsUnique<T>(t: Tree<T>, i: nat, w: nat, i': nat, w': nat, offset: nat)
    requires Whole(t) && Finds(t, i, w, offset) && Finds(t, i', w', offset)
    ensures i == i' && w == w'
  {
    hide Sound, Len, LeafStart;
    if i < i' {
      LeafStartStep(t, i);
      LeafStartMono(t, i + 1, i');
    } else if i' < i {
      LeafStartStep(t, i');
      LeafStartMono(t, i' + 1, i);
    }
  }

  /** The length of the root is that of all the leaves. */
  lemma {:induction false} LevelTotal<T>(t: Tree<T>, k: nat)
    requires Whole(t) && Exact(t) && k < |t.levels|
    ensures SumLens(t.children, t.runs, t.levels[k]) == Total(Gather(t.runs, t.levels[0]))
  {
    hide Rooted, Ranked, Allocated, AllLinked, Parented, RunsPositive, Gather, Total, Len, Covers, ChildTotal;
    if k == 0 {
      LevelZeroStart(t, |t.levels[0]|);
      assert t.levels[0][..|t.levels[0]|] == t.levels[0];
    } else {
      LevelTotal(t, k - 1);
      var low := t.levels[k - 1];
      assert Covers(t.children, Row(t.levels, 0, [], k), low);
      SumLensBelow(t.children, t.runs, t.levels[k], low, |low|);
      assert low[..|low|] == low;
      forall y | 0 <= y < |t.levels[k]|
        ensures t.levels[k][y] !in t.runs
      {
        assert Kind(k, t.levels[k][y], t.runs, t.children);
      }
      SumLensBranches(t.children, t.runs, t.levels[k]);
      CoversLength(t.children, t.levels[k], low);
    }
  }

  lemma {:induction false} CoversLength(ch: map<Id, seq<Child>>, up: seq<Id>, low: seq<Id>)
    requires Covers(ch, up, low)
    ensures |Gather(ch, up)| == |low| && Gather(ch, up)[..|low|] == Gather(ch, up)
  {}

  /** Every branch has a child, and every leaf a character unless it is alone. */
  lemma {:induction false} NonEmpty<T>(t: Tree<T>, k: nat, j: nat)
    requires Good(t, 0, [], NIL) && k < |t.levels| && j < |t.levels[k]|
    ensures k > 0 ==> Get(t.children, t.levels[k][j]) != []
    ensures k == 0 && |t.levels[0]| > 1 ==> Len(t.children, t.runs, t.levels[0][j]) > 0
  {
    hide Rooted, AllLinked, Stacked, Parented, Measured, WithinCapacity, Total;
    assert Kind(k, t.levels[k][j], t.runs, t.children);
    assert t.levels[k][j] in t.rank;
    assert MinSize(t.levels, k) <= Size(t.children, t.runs, t.levels[k][j]);
    if k == 0 {
      PositiveTotal(t.runs[t.levels[0][j]]);
    }
  }
}
