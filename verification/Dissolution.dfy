/** Dissolving a branch: its children move one by one to a neighbour. */
module Dissolution {
  import opened Levels
  import opened Forest
  import opened Trees

  /** The next child to move, those that stay, and the neighbour afterwards:
      to a right neighbour the last goes first. */
  function Moving<X>(s: seq<X>, toRight: bool): X
    requires s != []
  {
    if toRight then s[|s| - 1] else s[0]
  }

  function Staying<X>(s: seq<X>, toRight: bool): seq<X>
    requires s != []
  {
    if toRight then s[..|s| - 1] else s[1..]
  }

  function Grown<X>(s: seq<X>, e: X, toRight: bool): seq<X> {
    if toRight then [e] + s else s + [e]
  }

  /** `node` has left level k but still stands in `lo`, just before node i of
      the level when its children go to the right, else just after it. */
  ghost predicate Dissolving<T>(t: Tree<T>, k: nat, lo: seq<Id>, node: Id, target: Id, i: nat, toRight: bool) {
    && 0 < k && k + 1 < |t.levels| && i < |t.levels[k]| && t.levels[k][i] == target
    && lo == InsertAt(t.levels[k], if toRight then i else i + 1, node)
    && node in t.children && node !in t.runs && node in t.rank && t.rank[node] == k && node != NIL
    && target in t.children && target !in t.runs && target != node && target != NIL
    && NoEntry(t.children, node)
  }

  ghost function Moved<T>(t: Tree<T>, node: Id, target: Id, toRight: bool): Tree<T>
    requires Get(t.children, node) != []
  {
    var es := Get(t.children, node);
    var e := Moving(es, toRight);
    t.(parent := t.parent[e.node := target],
       children := t.children[target := Grown(Get(t.children, target), e, toRight)][node := Staying(es, toRight)])
  }

  lemma {:induction false} NeighbourPlaces(ids: seq<Id>, i: nat, node: Id, toRight: bool)
    requires i < |ids|
    ensures var lo := InsertAt(ids, if toRight then i else i + 1, node);
            && i + 1 < |lo|
            && (if toRight then lo[i] == node && lo[i + 1] == ids[i] else lo[i] == ids[i] && lo[i + 1] == node)
  {}

  lemma {:induction false} MoveShuffles<T>(t: Tree<T>, k: nat, lo: seq<Id>, node: Id, target: Id, i: nat, toRight: bool)
    requires Sound(t, k, lo) && Dissolving(t, k, lo, node, target, i, toRight) && t.children[node] != []
    ensures i + 1 < |lo|
    ensures var e := Moving(t.children[node], toRight);
            var stay, grow := Staying(t.children[node], toRight), Grown(t.children[target], e, toRight);
            var l, r := if toRight then stay else grow, if toRight then grow else stay;
            && (if toRight then lo[i] == node && lo[i + 1] == target else lo[i] == target && lo[i + 1] == node)
            && Shuffles(t, k, lo, i, l, r, t.parent[e.node := target])
  {
    hide Rooted, Kinds, AllLinked, RunsPositive, RowRanked, InsertAt, Covers, Reparented, Moving, Staying, Grown;
    NeighbourPlaces(t.levels[k], i, node, toRight);
    assert Row(t.levels, k, lo, k) == lo;
    EntriesDistinct(t.children, lo, t.levels[k - 1], if toRight then i else i + 1);
    hide Stacked, Ranked, Parented, Distinct;
    MoveReparents(t.parent, t.children, node, target, toRight, t.nextId);
    MoveSum(t.children[node], t.children[target], toRight);
  }

  lemma {:induction false} MoveSum<X>(s: seq<X>, u: seq<X>, toRight: bool)
    requires s != []
    ensures var e := Moving(s, toRight);
            if toRight then s + u == Staying(s, toRight) + Grown(u, e, toRight)
            else u + s == Grown(u, e, toRight) + Staying(s, toRight)
  {}

  lemma {:induction false} MoveReparents(parent: map<Id, Id>, ch: map<Id, seq<Child>>, node: Id, target: Id,
                                         toRight: bool, nextId: Id)
    requires Parented(parent, ch) && node in ch && target in ch && node != target && node != NIL && target != NIL
    requires ch[node] != []
    requires Distinct(Nodes(ch[node])) && forall n :: n in parent ==> NIL < n < nextId
    ensures var e := Moving(ch[node], toRight);
            var stay, grow := Staying(ch[node], toRight), Grown(ch[target], e, toRight);
            var l, r := if toRight then stay else grow, if toRight then grow else stay;
            Reparented(parent, parent[e.node := target], if toRight then node else target,
              if toRight then target else node, l, r, nextId)
  {
    hide Moving, Staying, Grown, Distinct, Parented;
    MoveOwners(parent, ch, node, target, toRight);
  }

  /** Moving one child gives every child of the two its right parent. */
  lemma {:induction false} MoveOwners(parent: map<Id, Id>, ch: map<Id, seq<Child>>, node: Id, target: Id, toRight: bool)
    requires Parented(parent, ch) && node in ch && target in ch && node != target && node != NIL && target != NIL
    requires ch[node] != []
    requires Distinct(Nodes(ch[node]))
    ensures var e := Moving(ch[node], toRight);
            var stay, grow := Staying(ch[node], toRight), Grown(ch[target], e, toRight);
            var parent' := parent[e.node := target];
            && e.node in parent
            && (forall n {:trigger Ref(parent', n)} :: Ref(parent', n) ==
                  if n in Nodes(grow) then target else if n in Nodes(stay) then node else Ref(parent, n))
            && (e.node in Nodes(grow))
            && (forall n :: n in Nodes(stay) ==> n !in Nodes(grow))
  {
    var e := Moving(ch[node], toRight);
    var stay, grow := Staying(ch[node], toRight), Grown(ch[target], e, toRight);
    var z := if toRight then |ch[node]| - 1 else 0;
    assert ch[node][z] == e;
    assert Nodes(grow)[if toRight then 0 else |ch[target]|] == e.node;
    forall n | n in Nodes(grow) && n != e.node
      ensures Ref(parent, n) == target
    {
      var y :| 0 <= y < |grow| && Nodes(grow)[y] == n;
      assert ch[target][if toRight then y - 1 else y].node == n;
    }
    forall n | n in Nodes(stay)
      ensures Ref(parent, n) == node && n != e.node
    {
      var y :| 0 <= y < |stay| && Nodes(stay)[y] == n;
      assert ch[node][if toRight then y else y + 1].node == n;
      assert Nodes(ch[node])[if toRight then y else y + 1] != Nodes(ch[node])[z];
    }
  }

  lemma {:induction false} MoveSound<T>(t: Tree<T>, k: nat, lo: seq<Id>, node: Id, target: Id, i: nat, toRight: bool)
    requires Sound(t, k, lo) && Dissolving(t, k, lo, node, target, i, toRight) && t.children[node] != []
    ensures Sound(Moved(t, node, target, toRight), k, lo)
  {
    hide Rooted, Ranked, Kinds, Allocated, AllLinked, Stacked, Parented, RunsPositive, RowRanked, InsertAt, Reparented,
      Moving, Staying, Grown, NoEntry;
    MoveShuffles(t, k, lo, node, target, i, toRight);
    var e := Moving(t.children[node], toRight);
    var stay, grow := Staying(t.children[node], toRight), Grown(t.children[target], e, toRight);
    var l, r := if toRight then stay else grow, if toRight then grow else stay;
    ShuffleSound(t, k, lo, i, l, r, t.parent[e.node := target]);
    assert t.children[target := grow][node := stay] == t.children[node := stay][target := grow];
    assert Shuffle(t, lo[i], lo[i + 1], l, r, t.parent[e.node := target]) == Moved(t, node, target, toRight);
  }

  lemma {:induction false} GrownTotal(s: seq<Child>, e: Child, toRight: bool)
    ensures ChildTotal(Grown(s, e, toRight)) == ChildTotal(s) + e.length
  {
    ChildTotalConcat([e], s);
    ChildTotalConcat(s, [e]);
    assert ChildTotal([e]) == e.length;
  }

  lemma {:induction false} MoveMeasured<T>(t: Tree<T>, k: nat, lo: seq<Id>, node: Id, target: Id, i: nat, toRight: bool,
                                           d: int)
    requires Dissolving(t, k, lo, node, target, i, toRight) && t.children[node] != [] && NoEntry(t.children, NIL)
    requires Measured(t.children, t.runs, target, d, NIL, 0)
    ensures var t' := Moved(t, node, target, toRight);
            && Measured(t'.children, t'.runs, target, d + Moving(t.children[node], toRight).length, NIL, 0)
            && Dissolving(t', k, lo, node, target, i, toRight)
  {
    hide InsertAt, Moving, Staying, Grown, ChildTotal, Measured, NoEntry;
    var t' := Moved(t, node, target, toRight);
    var e := Moving(t.children[node], toRight);
    var stay, grow := Staying(t.children[node], toRight), Grown(t.children[target], e, toRight);
    MoveSum(t.children[node], t.children[target], toRight);
    GrownTotal(t.children[target], e, toRight);
    var a, b := if toRight then node else target, if toRight then target else node;
    var l, r := if toRight then stay else grow, if toRight then grow else stay;
    assert t'.children == t.children[a := l][b := r];
    ShuffleMeasured(t.children, t'.children, t.runs, a, b, l, r, target, node, d, e.length);
  }

  lemma {:induction false} MoveSizes<T>(t: Tree<T>, k: nat, lo: seq<Id>, node: Id, target: Id, i: nat, toRight: bool,
                                        x: Id)
    requires Sound(t, k, lo) && Dissolving(t, k, lo, node, target, i, toRight) && t.children[node] != []
    requires Full(t, x) && Fits(t) && |t.children[target]| < MAX_BRANCHES
    requires node !in t.levels[k]
    ensures var t' := Moved(t, node, target, toRight); Full(t', x) && Fits(t')
  {
    hide Rooted, Kinds, Allocated, AllLinked, Stacked, Parented, RunsPositive, RowRanked, InsertAt, NoEntry, Filled,
      WithinCapacity, MinSize;
    var t' := Moved(t, node, target, toRight);
    forall l, y {:trigger t.levels[l][y]} | 0 <= l < |t.levels| && 0 <= y < |t.levels[l]| && t.levels[l][y] != target
      ensures Size(t'.children, t'.runs, t.levels[l][y]) == Size(t.children, t.runs, t.levels[l][y])
    {
      assert t.levels[l][y] != node by {
        assert t.rank[t.levels[l][y]] == l;
      }
    }
    GrowSizes(t, t', k, i, x);
  }

  /** The dissolved node is not on its level. */
  lemma {:induction false} NotOnLevel(ids: seq<Id>, g: nat, node: Id)
    requires g <= |ids| && Distinct(InsertAt(ids, g, node))
    ensures node !in ids
  {
    var lo := InsertAt(ids, g, node);
    forall y | 0 <= y < |ids|
      ensures ids[y] != node
    {
      assert lo[if y < g then y else y + 1] == ids[y] && lo[g] == node;
    }
  }

  /** One step of the redistribution loop of branch_compact. */
  lemma {:induction false} MoveKeeps<T>(t: Tree<T>, k: nat, lo: seq<Id>, node: Id, target: Id, i: nat, toRight: bool,
                                        d: int, x: Id)
    requires Sound(t, k, lo) && Dissolving(t, k, lo, node, target, i, toRight) && t.children[node] != []
    requires Measured(t.children, t.runs, target, d, NIL, 0) && Full(t, x) && Fits(t)
    requires |t.children[target]| < MAX_BRANCHES
    ensures var t' := Moved(t, node, target, toRight);
            && Sound(t', k, lo) && Dissolving(t', k, lo, node, target, i, toRight)
            && Measured(t'.children, t'.runs, target, d + Moving(t.children[node], toRight).length, NIL, 0)
            && Full(t', x) && Fits(t')
  {
    assert node !in t.levels[k] by { NotOnLevel(t.levels[k], if toRight then i else i + 1, node); }
    hide Rooted, Ranked, Kinds, Allocated, AllLinked, Stacked, Parented, RunsPositive, RowRanked, InsertAt, NoEntry,
      Filled, WithinCapacity, Measured, Moved;
    NoNilEntry(t, k, lo);
    MoveSound(t, k, lo, node, target, i, toRight);
    MoveMeasured(t, k, lo, node, target, i, toRight, d);
    MoveSizes(t, k, lo, node, target, i, toRight, x);
  }

  // ----- the way a full neighbour is split ---------------------------------------------

  lemma {:induction false} SplitBeside(ids: seq<Id>, i: nat, node: Id, right: Id, toRight: bool)
    requires i < |ids|
    ensures var lo := InsertAt(ids, if toRight then i else i + 1, node);
            var ids' := InsertAt(ids, i + 1, right);
            var y := if toRight then i + 1 else i;
            && y < |lo| && lo[y] == ids[i] && i + 1 < |ids'| && ids'[i] == ids[i] && ids'[i + 1] == right
            && InsertAt(lo, y + 1, right) == (if toRight then InsertAt(ids', i, node) else InsertAt(ids', i + 2, node))
  {
    var lo := InsertAt(ids, if toRight then i else i + 1, node);
    var ids' := InsertAt(ids, i + 1, right);
    if toRight {
      assert InsertAt(lo, i + 2, right) == ids[..i] + [node] + [ids[i]] + [right] + ids[i + 1..];
      assert InsertAt(ids', i, node) == ids[..i] + [node] + [ids[i]] + [right] + ids[i + 1..];
    } else {
      assert InsertAt(lo, i + 1, right) == ids[..i] + [ids[i]] + [right] + [node] + ids[i + 1..];
      assert InsertAt(ids', i + 2, node) == ids[..i] + [ids[i]] + [right] + [node] + ids[i + 1..];
    }
  }

  // ----- when the parent of the neighbour is full ------------------------------------------

  lemma {:induction false} GatherLarge<X>(m: map<Id, seq<X>>, ids: seq<Id>)
    requires forall i :: 0 <= i < |ids| ==> |Get(m, ids[i])| >= 8
    ensures |Gather(m, ids)| >= 8 * |ids|
  {
    if ids != [] {
      GatherLarge(m, ids[1..]);
    }
  }

  lemma {:induction false} GatherLess<X>(m: map<Id, seq<X>>, ids: seq<Id>, g: nat, n: Id)
    requires g <= |ids|
    ensures |Gather(m, InsertAt(ids, g, n))| >= |Gather(m, ids)|
  {
    hide Gather;
    var lo := InsertAt(ids, g, n);
    GatherAt(m, lo, g);
    assert lo[..g] == ids[..g] && lo[g + 1..] == ids[g..];
    GatherConcat(m, ids[..g], ids[g..]);
    assert ids == ids[..g] + ids[g..];
  }

  /** The least number of runs in a tree where a branch compaction can meet a
      full parent: 26 siblings of 8 children of 8 runs. */
  const CROWD: nat := 1664

  lemma {:induction false} LevelsBelow<T>(t: Tree<T>, k: nat, lo: seq<Id>, l: nat, x: Id)
    requires Sound(t, k, lo) && l < k && k + 1 < |t.levels| && Full(t, x) && x in t.rank && t.rank[x] > k
    requires |t.levels[l]| >= 208
    ensures |Gather(t.runs, t.levels[0])| >= CROWD
  {
    hide Rooted, Allocated, AllLinked, Parented, RunsPositive, RowRanked, Covers, Gather;
    forall y | 0 <= y < |t.levels[l]|
      ensures Size(t.children, t.runs, t.levels[l][y]) >= MIN_RUNS
      ensures Kind(l, t.levels[l][y], t.runs, t.children)
    {
      assert t.rank[t.levels[l][y]] == l;
    }
    if l == 0 {
      GatherLarge(t.runs, t.levels[0]);
    } else {
      GatherLarge(t.children, t.levels[l]);
      assert Covers(t.children, Row(t.levels, k, lo, l), t.levels[l - 1]);
      CoversCount(t.children, t.levels[l], t.levels[l - 1]);
      LevelsBelow(t, k, lo, l - 1, x);
    }
  }

  lemma {:induction false} CoversCount(ch: map<Id, seq<Child>>, up: seq<Id>, low: seq<Id>)
    requires Covers(ch, up, low)
    ensures |low| == |Gather(ch, up)|
  {}

  lemma {:induction false} CrowdedSiblings<T>(t: Tree<T>, k: nat, lo: seq<Id>, i: nat, j: nat, c: nat, x: Id)
    requires Sound(t, k, lo) && 0 < k && Hangs(t, k, i, j, c)
    requires Full(t, x) && x in t.rank && t.rank[x] == k + 1
    requires |Get(t.children, t.levels[k + 1][j])| >= MAX_BRANCHES
    ensures |t.levels[k]| >= MAX_BRANCHES
    ensures forall y :: 0 <= y < |t.levels[k]| ==> |Get(t.children, t.levels[k][y])| >= MIN_BRANCHES
  {
    hide Rooted, Allocated, AllLinked, Parented, RunsPositive, RowRanked, Covers, Gather, ChildOf;
    var ids := t.levels[k];
    assert Covers(t.children, Row(t.levels, k, lo, k + 1), ids);
    CoverParts(t.children, t.levels[k + 1], ids, j);
    hide Stacked;
    forall y | 0 <= y < |ids|
      ensures |Get(t.children, ids[y])| >= MIN_BRANCHES
    {
      assert t.rank[t.levels[k][y]] == k;
      assert Kind(k, t.levels[k][y], t.runs, t.children);
      assert MinSize(t.levels, k) <= Size(t.children, t.runs, t.levels[k][y]);
    }
  }

  lemma {:induction false} Crowded<T>(t: Tree<T>, k: nat, lo: seq<Id>, node: Id, i: nat, j: nat, c: nat, g: nat, x: Id)
    requires Sound(t, k, lo) && 0 < k && Hangs(t, k, i, j, c) && g <= |t.levels[k]|
    requires lo == InsertAt(t.levels[k], g, node)
    requires Full(t, x) && x in t.rank && t.rank[x] == k + 1
    requires |Get(t.children, t.levels[k + 1][j])| >= MAX_BRANCHES
    ensures |Gather(t.runs, t.levels[0])| >= CROWD
  {
    CrowdedSiblings(t, k, lo, i, j, c, x);
    hide Rooted, Ranked, Kinds, Allocated, AllLinked, Parented, RunsPositive, RowRanked, Covers, Gather, InsertAt,
      ChildOf, Filled;
    GatherLarge(t.children, t.levels[k]);
    GatherLess(t.children, t.levels[k], g, node);
    assert Covers(t.children, Row(t.levels, k, lo, k), t.levels[k - 1]);
    CoversCount(t.children, lo, t.levels[k - 1]);
    LevelsBelow(t, k, lo, k - 1, x);
  }
}
