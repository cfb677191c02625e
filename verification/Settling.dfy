/** Carrying a change of length up through the parents. */
module Settling {
  import opened Runs
  import opened Levels
  import opened Forest
  import opened Trees

  // ----- adjusting the lengths upwards ----------------------------------------------------

  /** `keep` is no proper ancestor of node `n` of level k, and the debt `e` it is
      owed does not exceed its length. */
  ghost predicate Settles<T>(t: Tree<T>, k: nat, n: Id, keep: Id, e: int) {
    && (keep == NIL || (keep in t.rank && t.rank[keep] <= k))
    && (keep == n ==> e <= Len(t.children, t.runs, n))
  }

  lemma {:induction false} NilSettles<T>(t: Tree<T>, k: nat, n: Id)
    ensures Settles(t, k, n, NIL, 0)
  {}

  lemma {:induction false} SameNodesSelf(ch: map<Id, seq<Child>>)
    ensures SameNodes(ch, ch)
  {}

  lemma {:induction false} SameNodesTrans(a: map<Id, seq<Child>>, b: map<Id, seq<Child>>, c: map<Id, seq<Child>>)
    requires SameNodes(a, b) && SameNodes(b, c)
    ensures SameNodes(a, c)
  {}

  lemma {:induction false} AdjustDone<T>(t: Tree<T>, kk: nat, lo: seq<Id>, k: nat, i: nat, d: int, keep: Id, e: int)
    requires Sound(t, kk, lo) && kk <= k < |t.levels| && i < |t.levels[k]|
    requires Measured(t.children, t.runs, t.levels[k][i], d, keep, e)
    requires Ref(t.parent, t.levels[k][i]) == NIL || d == 0
    ensures Measured(t.children, t.runs, NIL, 0, keep, e)
    ensures SameNodes(t.children, t.children)
  {
    ParentNil(t, kk, lo, k, i);
    hide AllLinked, Stacked, Kinds, Ranked, RunsPositive, Len;
    var n := t.levels[k][i];
    forall q, y {:trigger t.children[q][y]} | q in t.children && 0 <= y < |t.children[q]|
      ensures t.children[q][y].length + (if t.children[q][y].node == keep then e else 0) ==
                Len(t.children, t.runs, t.children[q][y].node)
    {
      assert Ref(t.parent, t.children[q][y].node) == q;
    }
  }

  lemma {:induction false} EntryReady<T>(t: Tree<T>, kk: nat, lo: seq<Id>, k: nat, i: nat, d: int, keep: Id, e: int)
      returns (j: nat, c: nat)
    requires Sound(t, kk, lo) && kk <= k && k + 1 < |t.levels| && i < |t.levels[k]|
    requires Measured(t.children, t.runs, t.levels[k][i], d, keep, e)
    requires Settles(t, k, t.levels[k][i], keep, e)
    ensures Hangs(t, k, i, j, c)
    ensures var n := t.levels[k][i];
            var p := Ref(t.parent, n);
            && j < |t.levels[k + 1]| && t.levels[k + 1][j] == p
            && p in t.children && c < |t.children[p]| && t.children[p][c].node == n
            && Distinct(Nodes(t.children[p])) && t.children[p][c].length + d >= 0
            && p in t.rank && t.rank[p] == k + 1
  {
    j, c := FindParent(t, kk, lo, k, i);
    hide Sound, Len;
    assert t.children[Ref(t.parent, t.levels[k][i])][c].node == t.levels[k][i];
  }

  lemma {:induction false} AdjustStep<T>(t: Tree<T>, t': Tree<T>, kk: nat, lo: seq<Id>, k: nat, i: nat, j: nat, c: nat,
                                         d: int, keep: Id, e: int)
    requires Sound(t, kk, lo) && kk <= k && Hangs(t, k, i, j, c)
    requires Measured(t.children, t.runs, t.levels[k][i], d, keep, e) && Settles(t, k, t.levels[k][i], keep, e)
    requires var n := t.levels[k][i];
             var p := t.levels[k + 1][j];
             && t.children[p][c].length + d >= 0
             && t' == t.(children := t.children[p := t.children[p][c := Child(n, t.children[p][c].length + d)]])
    ensures Sound(t', kk, lo) && SameNodes(t.children, t'.children)
    ensures Measured(t'.children, t'.runs, t.levels[k + 1][j], d, keep, e)
    ensures Settles(t', k + 1, t.levels[k + 1][j], keep, e)
  {
    hide AllLinked, Stacked, Parented, Measured, Rooted, RunsPositive, RowRanked, Ranked, Len, Distinct;
    var n, p := t.levels[k][i], t.levels[k + 1][j];
    var es := t.children[p];
    var es' := es[c := Child(n, es[c].length + d)];
    assert Nodes(es') == Nodes(es);
    MeasuredStep(t.children, t'.children, t.runs, t.parent, p, c, n, d, keep, e);
    StackedSameNodes(t.children, t'.children, t.levels, kk, lo);
    ParentedSameNodes(t.parent, t.children, t'.children);
    SameKeysKinds(t.levels, t.runs, t.children, t'.children);
  }

  lemma {:induction false} SameKeysKinds<T>(levels: seq<seq<Id>>, runs: map<Id, seq<Run<T>>>, ch: map<Id, seq<Child>>,
                                            ch': map<Id, seq<Child>>)
    requires Kinds(levels, runs, ch) && SameNodes(ch, ch')
    ensures Kinds(levels, runs, ch')
  {
    forall l, i {:trigger levels[l][i]} | 0 <= l < |levels| && 0 <= i < |levels[l]|
      ensures Kind(l, levels[l][i], runs, ch')
    {
      assert Kind(l, levels[l][i], runs, ch);
    }
  }

  lemma {:induction false} SameNodesSizes<T>(t: Tree<T>, t': Tree<T>, x: Id)
    requires SameNodes(t.children, t'.children) && t'.levels == t.levels && t'.runs == t.runs
    requires Full(t, x) && Fits(t)
    ensures Full(t', x) && Fits(t')
  {
    hide MinSize;
    forall n: Id
      ensures Size(t'.children, t'.runs, n) == Size(t.children, t.runs, n)
    {
      assert n in t.children ==> |Nodes(t.children[n])| == |Nodes(t'.children[n])|;
    }
  }
}
