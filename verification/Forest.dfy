/** The invariants of the tree, as predicates over the field maps and the
    levels, and how each kind of step changes them. */
module Forest {
  import opened Runs
  import opened Levels

  // ----- levels: order, ranks and kinds --------------------------------------

  /** `rank` names the level a node stands (or last stood) on. */
  ghost predicate Ranked(levels: seq<seq<Id>>, rank: map<Id, int>) {
    && (forall l, i {:trigger levels[l][i]} :: 0 <= l < |levels| && 0 <= i < |levels[l]| ==>
          levels[l][i] in rank && rank[levels[l][i]] == l)
    && (forall l :: 0 <= l < |levels| ==> Distinct(levels[l]))
  }

  lemma {:induction false} DistinctInsert(ids: seq<Id>, i: nat, right: Id)
    requires Distinct(ids) && i <= |ids| && right !in ids
    ensures Distinct(InsertAt(ids, i, right))
  {}

  lemma {:induction false} DistinctRemove(ids: seq<Id>, i: nat)
    requires Distinct(ids) && i < |ids|
    ensures Distinct(RemoveAt(ids, i))
  {}

  lemma {:induction false} RankedInsert(levels: seq<seq<Id>>, rank: map<Id, int>, k: nat, i: nat, right: Id)
    requires Ranked(levels, rank) && k < |levels| && i <= |levels[k]| && right !in rank
    ensures Ranked(levels[k := InsertAt(levels[k], i, right)], rank[right := k])
  {
    DistinctInsert(levels[k], i, right);
  }

  lemma {:induction false} RankedRemove(levels: seq<seq<Id>>, rank: map<Id, int>, k: nat, i: nat)
    requires Ranked(levels, rank) && k < |levels| && i < |levels[k]|
    ensures Ranked(levels[k := RemoveAt(levels[k], i)], rank)
  {
    DistinctRemove(levels[k], i);
  }

  ghost predicate Kind<T>(l: nat, n: Id, runs: map<Id, seq<Run<T>>>, ch: map<Id, seq<Child>>) {
    (n in runs <==> l == 0) && (n in ch <==> l > 0)
  }

  /** Leaves hold runs, the nodes above hold children. */
  ghost predicate Kinds<T>(levels: seq<seq<Id>>, runs: map<Id, seq<Run<T>>>, ch: map<Id, seq<Child>>) {
    forall l, i {:trigger levels[l][i]} :: 0 <= l < |levels| && 0 <= i < |levels[l]| ==>
      Kind(l, levels[l][i], runs, ch)
  }

  /** Ids in use are neither NULL nor still to be handed out. */
  ghost predicate Allocated<T>(rank: map<Id, int>, nextId: Id, parent: map<Id, Id>, runs: map<Id, seq<Run<T>>>,
                               ch: map<Id, seq<Child>>) {
    && ROOT < nextId
    && (forall n :: n in rank ==> NIL < n < nextId)
    && (forall n :: n in parent ==> NIL < n < nextId)
    && (forall n :: n in runs ==> NIL < n < nextId)
    && (forall n :: n in ch ==> NIL < n < nextId)
  }

  ghost predicate Rooted(levels: seq<seq<Id>>, parent: map<Id, Id>) {
    && |levels| >= 2
    && levels[|levels| - 1] == [ROOT]
    && Ref(parent, ROOT) == NIL
    && forall l :: 0 <= l < |levels| ==> levels[l] != []
  }

  // ----- sibling links --------------------------------------------------------

  ghost predicate PrevLinked(prev: map<Id, Id>, ids: seq<Id>) {
    forall i {:trigger Ref(prev, ids[i])} :: 0 <= i < |ids| ==>
      Ref(prev, ids[i]) == (if i == 0 then NIL else ids[i - 1])
  }

  ghost predicate NextLinked(next: map<Id, Id>, ids: seq<Id>) {
    forall i {:trigger Ref(next, ids[i])} :: 0 <= i < |ids| ==>
      Ref(next, ids[i]) == (if i + 1 == |ids| then NIL else ids[i + 1])
  }

  ghost predicate Linked(prev: map<Id, Id>, next: map<Id, Id>, ids: seq<Id>) {
    PrevLinked(prev, ids) && NextLinked(next, ids)
  }

  /** On every level prev and next are exactly the in-order list. */
  ghost predicate AllLinked(prev: map<Id, Id>, next: map<Id, Id>, levels: seq<seq<Id>>) {
    forall l {:trigger levels[l]} :: 0 <= l < |levels| ==> Linked(prev, next, levels[l])
  }

  lemma {:induction false} PrevInsert(prev: map<Id, Id>, prev': map<Id, Id>, ids: seq<Id>, i: nat, right: Id)
    requires PrevLinked(prev, ids) && i < |ids|
    requires Ref(prev', right) == ids[i]
    requires i + 1 < |ids| ==> Ref(prev', ids[i + 1]) == right
    requires forall x {:trigger Ref(prev', ids[x])} :: 0 <= x < |ids| && x != i + 1 ==>
               Ref(prev', ids[x]) == Ref(prev, ids[x])
    ensures PrevLinked(prev', InsertAt(ids, i + 1, right))
  {
    var ids' := InsertAt(ids, i + 1, right);
    hide Ref;
    forall x | 0 <= x < |ids'|
      ensures Ref(prev', ids'[x]) == (if x == 0 then NIL else ids'[x - 1])
    {
      if x <= i {
        assert ids'[x] == ids[x];
        assert x > 0 ==> ids'[x - 1] == ids[x - 1];
      } else if x > i + 1 {
        assert ids'[x] == ids[x - 1];
        assert x > i + 2 ==> ids'[x - 1] == ids[x - 2];
      }
    }
  }

  lemma {:induction false} NextInsert(next: map<Id, Id>, next': map<Id, Id>, ids: seq<Id>, i: nat, right: Id)
    requires NextLinked(next, ids) && i < |ids|
    requires Ref(next', ids[i]) == right
    requires Ref(next', right) == (if i + 1 == |ids| then NIL else ids[i + 1])
    requires forall x {:trigger Ref(next', ids[x])} :: 0 <= x < |ids| && x != i ==>
               Ref(next', ids[x]) == Ref(next, ids[x])
    ensures NextLinked(next', InsertAt(ids, i + 1, right))
  {
    var ids' := InsertAt(ids, i + 1, right);
    hide Ref;
    forall x | 0 <= x < |ids'|
      ensures Ref(next', ids'[x]) == (if x + 1 == |ids'| then NIL else ids'[x + 1])
    {
      if x <= i {
        assert ids'[x] == ids[x];
        assert x < i ==> ids'[x + 1] == ids[x + 1];
      } else if x > i + 1 {
        assert ids'[x] == ids[x - 1];
        assert x + 1 < |ids'| ==> ids'[x + 1] == ids[x];
      }
    }
  }

  lemma {:induction false} PrevRemove(prev: map<Id, Id>, prev': map<Id, Id>, ids: seq<Id>, i: nat)
    requires PrevLinked(prev, ids) && i < |ids|
    requires i + 1 < |ids| ==> Ref(prev', ids[i + 1]) == (if i == 0 then NIL else ids[i - 1])
    requires forall x {:trigger Ref(prev', ids[x])} :: 0 <= x < |ids| && x != i && x != i + 1 ==>
               Ref(prev', ids[x]) == Ref(prev, ids[x])
    ensures PrevLinked(prev', RemoveAt(ids, i))
  {
    var ids' := RemoveAt(ids, i);
    hide Ref;
    forall x | 0 <= x < |ids'|
      ensures Ref(prev', ids'[x]) == (if x == 0 then NIL else ids'[x - 1])
    {
      if x < i {
        assert ids'[x] == ids[x];
        assert x > 0 ==> ids'[x - 1] == ids[x - 1];
      } else {
        assert ids'[x] == ids[x + 1];
        assert x > i ==> ids'[x - 1] == ids[x];
        assert x == i && i > 0 ==> ids'[x - 1] == ids[i - 1];
      }
    }
  }

  lemma {:induction false} NextRemove(next: map<Id, Id>, next': map<Id, Id>, ids: seq<Id>, i: nat)
    requires NextLinked(next, ids) && i < |ids|
    requires i > 0 ==> Ref(next', ids[i - 1]) == (if i + 1 == |ids| then NIL else ids[i + 1])
    requires forall x {:trigger Ref(next', ids[x])} :: 0 <= x < |ids| && x != i && x + 1 != i ==>
               Ref(next', ids[x]) == Ref(next, ids[x])
    ensures NextLinked(next', RemoveAt(ids, i))
  {
    var ids' := RemoveAt(ids, i);
    hide Ref;
    forall x | 0 <= x < |ids'|
      ensures Ref(next', ids'[x]) == (if x + 1 == |ids'| then NIL else ids'[x + 1])
    {
      if x < i {
        assert ids'[x] == ids[x];
        assert x + 1 < i ==> ids'[x + 1] == ids[x + 1];
        assert x + 1 == i && i + 1 < |ids| ==> ids'[x + 1] == ids[i + 1];
      } else {
        assert ids'[x] == ids[x + 1];
        assert x + 1 < |ids'| ==> ids'[x + 1] == ids[x + 2];
      }
    }
  }

  /** A step on level k leaves the links of the other levels alone. */
  lemma {:induction false} AllLinkedPatch(prev: map<Id, Id>, next: map<Id, Id>, prev': map<Id, Id>, next': map<Id, Id>,
                                          levels: seq<seq<Id>>, rank: map<Id, int>, k: nat, ids: seq<Id>)
    requires AllLinked(prev, next, levels) && Ranked(levels, rank) && k < |levels|
    requires forall n {:trigger Ref(prev', n)} {:trigger Ref(next', n)} :: n in rank && rank[n] != k ==>
               Ref(prev', n) == Ref(prev, n) && Ref(next', n) == Ref(next, n)
    requires Linked(prev', next', ids)
    ensures AllLinked(prev', next', levels[k := ids])
  {
    forall l | 0 <= l < |levels| && l != k
      ensures Linked(prev', next', levels[l])
    {
      assert Linked(prev, next, levels[l]);
    }
  }

  // ----- parents, children and lengths ----------------------------------------

  /** The row that must cover level l - 1: level l, except that on level k a
      node being dissolved still stands among its neighbours. */
  ghost function Row(levels: seq<seq<Id>>, k: nat, lo: seq<Id>, l: nat): seq<Id>
    requires l < |levels|
  {
    if l == k then lo else levels[l]
  }

  ghost predicate Stacked(ch: map<Id, seq<Child>>, levels: seq<seq<Id>>, k: nat, lo: seq<Id>) {
    forall l {:trigger Row(levels, k, lo, l)} :: 1 <= l < |levels| ==> Covers(ch, Row(levels, k, lo, l), levels[l - 1])
  }

  ghost predicate RowRanked(rank: map<Id, int>, k: nat, lo: seq<Id>) {
    Distinct(lo) && forall i :: 0 <= i < |lo| ==> lo[i] in rank && rank[lo[i]] == k
  }

  /** A step that touches only nodes of levels k and k + 1 keeps the rest stacked. */
  lemma {:induction false} StackedPatch(ch: map<Id, seq<Child>>, ch': map<Id, seq<Child>>, levels: seq<seq<Id>>,
                                        rank: map<Id, int>, k: nat, lo: seq<Id>, ids: seq<Id>, lo': seq<Id>)
    requires Stacked(ch, levels, k, lo) && Ranked(levels, rank) && k < |levels|
    requires forall n {:trigger Get(ch', n)} :: n in rank && rank[n] != k && rank[n] != k + 1 ==>
               Get(ch', n) == Get(ch, n)
    requires k >= 1 ==> Covers(ch', lo', levels[k - 1])
    requires k + 1 < |levels| ==> Covers(ch', levels[k + 1], ids)
    ensures Stacked(ch', levels[k := ids], k, lo')
  {
    hide Covers;
    var levels' := levels[k := ids];
    forall l | 1 <= l < |levels|
      ensures Covers(ch', Row(levels', k, lo', l), levels'[l - 1])
    {
      if l != k && l != k + 1 {
        var row := levels[l];
        assert Row(levels, k, lo, l) == row;
        CoversFrame(ch, ch', row, levels[l - 1]);
      }
    }
  }

  lemma {:induction false} CoversFrame(ch: map<Id, seq<Child>>, ch': map<Id, seq<Child>>, up: seq<Id>, low: seq<Id>)
    requires Covers(ch, up, low)
    requires forall i :: 0 <= i < |up| ==> Get(ch', up[i]) == Get(ch, up[i])
    ensures Covers(ch', up, low)
  {
    GatherSame(ch, ch', up);
  }

  /** Parent pointers agree with the child entries. */
  ghost predicate Parented(parent: map<Id, Id>, ch: map<Id, seq<Child>>) {
    forall p, c {:trigger ch[p][c]} :: p in ch && 0 <= c < |ch[p]| ==> Ref(parent, ch[p][c].node) == p
  }

  ghost function ChildTotal(es: seq<Child>): nat {
    if es == [] then 0 else es[0].length + ChildTotal(es[1..])
  }

  lemma {:induction false} ChildTotalConcat(a: seq<Child>, b: seq<Child>)
    ensures ChildTotal(a + b) == ChildTotal(a) + ChildTotal(b)
  {
    if a == [] {
      assert a + b == b;
    } else {
      assert (a + b)[1..] == a[1..] + b;
      ChildTotalConcat(a[1..], b);
    }
  }

  lemma {:induction false} ChildTotalAt(es: seq<Child>, i: nat)
    requires i < |es|
    ensures ChildTotal(es) == ChildTotal(es[..i]) + es[i].length + ChildTotal(es[i + 1..])
    ensures ChildTotal(es[..i + 1]) == ChildTotal(es[..i]) + es[i].length
    ensures i + 1 == |es| ==> ChildTotal(es[..i + 1]) == ChildTotal(es)
  {
    assert es[..i + 1] == es[..i] + [es[i]];
    assert es == es[..i + 1] + es[i + 1..];
    ChildTotalConcat(es[..i], [es[i]]);
    ChildTotalConcat(es[..i + 1], es[i + 1..]);
  }

  lemma {:induction false} ChildTotalUpdate(es: seq<Child>, i: nat, e: Child)
    requires i < |es|
    ensures ChildTotal(es[i := e]) == ChildTotal(es) - es[i].length + e.length
  {
    ChildTotalAt(es, i);
    var es' := es[i := e];
    ChildTotalAt(es', i);
    assert es'[..i] == es[..i] && es'[i + 1..] == es[i + 1..];
  }

  ghost function Len<T>(ch: map<Id, seq<Child>>, runs: map<Id, seq<Run<T>>>, n: Id): nat {
    if n in runs then Total(runs[n]) else ChildTotal(Get(ch, n))
  }

  /** Every child entry caches the length of its subtree, except that the entry
      of `off` is still short by `d`, and that of `keep` by `e`. */
  ghost predicate Measured<T>(ch: map<Id, seq<Child>>, runs: map<Id, seq<Run<T>>>, off: Id, d: int, keep: Id, e: int) {
    forall p, c {:trigger ch[p][c]} :: p in ch && 0 <= c < |ch[p]| ==>
      ch[p][c].length + (if ch[p][c].node == off then d else 0) + (if ch[p][c].node == keep then e else 0)
      == Len(ch, runs, ch[p][c].node)
  }

  /** Adding `d` to the entry of `n` moves the debt to its parent. */
  lemma {:induction false} MeasuredStep<T>(ch: map<Id, seq<Child>>, ch': map<Id, seq<Child>>,
                                           runs: map<Id, seq<Run<T>>>,
                                           parent: map<Id, Id>, p: Id, c: nat, n: Id, d: int, keep: Id, e: int)
    requires Measured(ch, runs, n, d, keep, e) && Parented(parent, ch)
    requires p in ch && p !in runs && c < |ch[p]| && ch[p][c].node == n && n != p
    requires Distinct(Nodes(ch[p]))
    requires 0 <= ch[p][c].length + d && ch' == ch[p := ch[p][c := Child(n, ch[p][c].length + d)]]
    ensures Measured(ch', runs, p, d, keep, e)
  {
    ChildTotalUpdate(ch[p], c, Child(n, ch[p][c].length + d));
    forall q, x {:trigger ch'[q][x]} | q in ch' && 0 <= x < |ch'[q]|
      ensures ch'[q][x].length + (if ch'[q][x].node == p then d else 0) + (if ch'[q][x].node == keep then e else 0)
              == Len(ch', runs, ch'[q][x].node)
    {
      assert ch[q][x].node == ch'[q][x].node;
      if q != p || x != c {
        assert ch'[q][x] == ch[q][x];
        assert ch[q][x].node != n by {
          assert Ref(parent, ch[q][x].node) == q && Ref(parent, ch[p][c].node) == p;
          if q == p {
            assert Nodes(ch[p])[x] != Nodes(ch[p])[c];
          }
        }
      }
    }
  }

  /** Same nodes in the same places; only cached lengths may differ. */
  ghost predicate SameNodes(ch: map<Id, seq<Child>>, ch': map<Id, seq<Child>>) {
    ch.Keys == ch'.Keys && forall n :: n in ch ==> Nodes(ch[n]) == Nodes(ch'[n])
  }

  lemma {:induction false} GatherSameNodes(ch: map<Id, seq<Child>>, ch': map<Id, seq<Child>>, ids: seq<Id>)
    requires SameNodes(ch, ch')
    ensures Nodes(Gather(ch, ids)) == Nodes(Gather(ch', ids))
  {
    if ids != [] {
      GatherSameNodes(ch, ch', ids[1..]);
      NodesConcat(Get(ch, ids[0]), Gather(ch, ids[1..]));
      NodesConcat(Get(ch', ids[0]), Gather(ch', ids[1..]));
    }
  }

  lemma {:induction false} StackedSameNodes(ch: map<Id, seq<Child>>, ch': map<Id, seq<Child>>, levels: seq<seq<Id>>,
                                            k: nat, lo: seq<Id>)
    requires SameNodes(ch, ch') && Stacked(ch, levels, k, lo)
    ensures Stacked(ch', levels, k, lo)
  {
    forall l | 1 <= l < |levels|
      ensures Covers(ch', Row(levels, k, lo, l), levels[l - 1])
    {
      GatherSameNodes(ch, ch', Row(levels, k, lo, l));
    }
  }

  lemma {:induction false} ParentedSameNodes(parent: map<Id, Id>, ch: map<Id, seq<Child>>, ch': map<Id, seq<Child>>)
    requires SameNodes(ch, ch') && Parented(parent, ch)
    ensures Parented(parent, ch')
  {
    forall p, c {:trigger ch'[p][c]} | p in ch' && 0 <= c < |ch'[p]|
      ensures Ref(parent, ch'[p][c].node) == p
    {
      assert Nodes(ch'[p])[c] == Nodes(ch[p])[c] == ch[p][c].node;
    }
  }

  // ----- fill -----------------------------------------------------------------

  ghost function MinSize(levels: seq<seq<Id>>, l: nat): nat
    requires l < |levels|
  {
    if |levels[l]| >= 2 then MIN_RUNS
    else if l == 0 then 0
    else if l + 1 == |levels| then 1
    else 2
  }

  ghost function Size<T>(ch: map<Id, seq<Child>>, runs: map<Id, seq<Run<T>>>, n: Id): nat {
    if n in runs then |runs[n]| else |Get(ch, n)|
  }

  /** Minimum fill: on a level with several nodes each holds at least a third
      of its capacity; a branch alone on its level below the root holds at
      least two children.  Node `x` is exempt. */
  ghost predicate Filled<T>(levels: seq<seq<Id>>, ch: map<Id, seq<Child>>, runs: map<Id, seq<Run<T>>>, x: Id) {
    forall l, i {:trigger levels[l][i]} :: 0 <= l < |levels| && 0 <= i < |levels[l]| && levels[l][i] != x ==>
      MinSize(levels, l) <= Size(ch, runs, levels[l][i])
  }

  ghost predicate WithinCapacity<T>(levels: seq<seq<Id>>, ch: map<Id, seq<Child>>, runs: map<Id, seq<Run<T>>>) {
    forall l, i {:trigger levels[l][i]} :: 0 <= l < |levels| && 0 <= i < |levels[l]| ==>
      Size(ch, runs, levels[l][i]) <= MAX_RUNS
  }

  ghost predicate RunsPositive<T>(runs: map<Id, seq<Run<T>>>) {
    forall n :: n in runs ==> AllPositive(runs[n])
  }
}
