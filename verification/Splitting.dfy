/** How splits keep the tree good: one node, then a whole path towards the root. */
module Splitting {
  import opened Runs
  import opened Levels
  import opened Forest
  import opened Trees

  // ----- what the splitting methods rely on ----------------------------------------------

  /** Facts about a leaf that is about to be split. */
  lemma {:induction false} LeafReady<T>(t: Tree<T>, i: nat, x: Id) returns (j: nat, c: nat)
    requires Good(t, 0, [], x) && |t.levels| >= 2 && i < |t.levels[0]|
    ensures Hangs(t, 0, i, j, c) && FreshId(t)
    ensures var left := t.levels[0][i];
            var p := Ref(t.parent, left);
            && t.levels[1][j] == p && left in t.runs && p in t.children && c < |t.children[p]|
            && t.children[p][c].node == left
            && Distinct(Nodes(t.children[p]))
            && Total(Tail(t.runs[left])) <= t.children[p][c].length
            && left != t.nextId
  {
    hide Filled, WithinCapacity, Total, Tail, Keep;
    IdIsFresh(t, 0, []);
    j, c := FindParent(t, 0, [], 0, i);
    LeafEntryLength(t, i, t.levels[1][j], c);
  }

  lemma {:induction false} BranchReady<T>(t: Tree<T>, k: nat, lo: seq<Id>, i: nat, x: Id) returns (j: nat, c: nat)
    requires 0 < k && Good(t, k, lo, x) && k + 1 < |t.levels| && i < |t.levels[k]|
    ensures Hangs(t, k, i, j, c) && FreshId(t)
    ensures var left := t.levels[k][i];
            var p := Ref(t.parent, left);
            && t.levels[k + 1][j] == p && left in t.children && p in t.children && c < |t.children[p]|
            && t.children[p][c].node == left
            && Distinct(Nodes(t.children[p]))
            && left != t.nextId
  {
    hide Filled, WithinCapacity, Measured;
    IdIsFresh(t, k, lo);
    j, c := FindParent(t, k, lo, k, i);
  }

  lemma {:induction false} LeafEntryLength<T>(t: Tree<T>, i: nat, p: Id, c: nat)
    requires t.levels != [] && i < |t.levels[0]| && ChildOf(t, 0, t.levels[0][i], p, c) && Exact(t)
    ensures var rs := t.runs[t.levels[0][i]];
            Total(Tail(rs)) <= Total(rs) == t.children[p][c].length
  {
    var rs := t.runs[t.levels[0][i]];
    HalvesMeet(rs);
    ExpandConcat(Keep(rs), Tail(rs));
    hide Total;
    assert t.children[p][c].node == t.levels[0][i];
  }

  ghost predicate LeafSplitFields<T>(t: Tree<T>, t': Tree<T>, i: nat, p: Id, c: nat, a: nat, b: nat)
    requires t.levels != [] && i < |t.levels[0]| && c < |Get(t.children, p)|
  {
    var left, right := t.levels[0][i], t.nextId;
    var after := Ref(t.next, left);
    && t'.parent == t.parent[right := p]
    && t'.prev == PrevLinks(t.prev, left, right, after) && t'.next == NextLinks(t.next, left, right, after)
    && t'.runs == t.runs[right := []][left := Keep(Get(t.runs, left))][right := Tail(Get(t.runs, left))]
    && t'.children == t.children[p := SplitEntries(Get(t.children, p), c, right, a, b)]
    && t'.nextId == t.nextId + 1
    && t'.levels == t.levels[0 := InsertAt(t.levels[0], i + 1, right)]
    && t'.rank == t.rank[right := 0]
  }

  lemma {:induction false} LeafSplitByFields<T>(t: Tree<T>, t': Tree<T>, i: nat, p: Id, c: nat, a: nat, b: nat)
    requires t.levels != [] && i < |t.levels[0]| && c < |Get(t.children, p)|
    requires LeafSplitFields(t, t', i, p, c, a, b)
    ensures t' == LeafSplit(t, i, p, c, a, b)
  {
    hide Keep, Tail, SplitEntries, InsertAt, PrevLinks, NextLinks;
  }

  lemma {:induction false} SplitLeafKeeps<T>(t: Tree<T>, t': Tree<T>, i: nat, j: nat, c: nat, a: nat, b: nat, x: Id)
    requires Good(t, 0, [], x) && Hangs(t, 0, i, j, c) && FreshId(t)
    requires LeafSplitFields(t, t', i, t.levels[1][j], c, a, b)
    requires b == Total(Tail(t.runs[t.levels[0][i]])) && a + b == t.children[t.levels[1][j]][c].length
    requires |t.runs[t.levels[0][i]]| >= 2 * MIN_RUNS && |t.children[t.levels[1][j]]| < MAX_BRANCHES
    ensures Good(t', 0, [], x)
    ensures LeafHalved(t, t', i, t.nextId) && AllStand(t, t')
  {
    hide Measured, Filled, WithinCapacity, Ranked, Kinds, Allocated, AllLinked, Stacked, Parented, RunsPositive,
      LeafHalved, AllStand;
    LeafSplitByFields(t, t', i, t.levels[1][j], c, a, b);
    hide LeafSplit, LeafSplitFields;
    LeafSplitParts(t, i, t.levels[1][j], c, a, b);
    LevelStands(t, t', 0, i + 1, t.nextId);
    hide LeafSplitShape;
    var p := t.levels[1][j];
    LeafSplitSound(t, i, j, c, a, b);
    LeafSplitParts(t, i, p, c, a, b);
    LeafSplitGather(t, t', i, p, c, a, b);
    LeafSplitExact(t, t', i, p, c, a, b);
    LeafSplitSizes(t, t', i, p, c, a, b, x);
    ShapeLeafHalved(t, t', i, p, c, a, b);
  }

  /** Leaf i has given the last half of its runs to a new right sibling. */
  ghost predicate LeafHalved<T>(t: Tree<T>, t': Tree<T>, i: nat, right: Id)
    requires t.levels != [] && i < |t.levels[0]|
  {
    var left := t.levels[0][i];
    && right !in t.rank && right !in t.runs && right != NIL && left in t.runs
    && |t'.levels| >= |t.levels| && t'.levels[0] == InsertAt(t.levels[0], i + 1, right)
    && t'.runs == t.runs[left := Keep(t.runs[left])][right := Tail(t.runs[left])]
    && Gather(t'.runs, t'.levels[0]) == Gather(t.runs, t.levels[0])
  }

  lemma {:induction false} ShapeLeafHalved<T>(t: Tree<T>, t': Tree<T>, i: nat, p: Id, c: nat, a: nat, b: nat)
    requires t.levels != [] && i < |t.levels[0]| && ChildOf(t, 0, t.levels[0][i], p, c) && FreshId(t)
    requires LeafSplitShape(t, t', i, p, c, a, b)
    requires Gather(t'.runs, t'.levels[0]) == Gather(t.runs, t.levels[0])
    ensures LeafHalved(t, t', i, t.nextId)
  {
    hide InsertAt, Keep, Tail, Gather, SplitEntries;
  }

  /** Node i of level k has given the last half of its children to a new right
      sibling, for which its parent has one more entry. */
  ghost predicate BranchHalved<T>(t: Tree<T>, t': Tree<T>, k: nat, i: nat, right: Id)
    requires k < |t.levels| && i < |t.levels[k]|
  {
    var left := t.levels[k][i];
    var p := Ref(t.parent, left);
    && right == t.nextId && right !in t.rank && right != left && right != p && left != p
    && t'.levels == t.levels[k := InsertAt(t.levels[k], i + 1, right)]
    && t'.runs == t.runs
    && t'.nextId == t.nextId + 1 && t'.rank == t.rank[right := k]
    && Get(t'.children, left) == Keep(Get(t.children, left))
    && Get(t'.children, right) == Tail(Get(t.children, left))
    && |Get(t'.children, p)| == |Get(t.children, p)| + 1
    && (forall n :: n in Nodes(Get(t'.children, p)) ==> n in Nodes(Get(t.children, p)) || n == right)
    && (forall n {:trigger Get(t'.children, n)} :: n != left && n != right && n != p ==>
          Get(t'.children, n) == Get(t.children, n))
  }

  lemma {:induction false} SplitBranchKeeps<T>(t: Tree<T>, t': Tree<T>, k: nat, lo: seq<Id>, y: nat, i: nat, j: nat,
                                               c: nat, x: Id)
    requires 0 < k && Good(t, k, lo, x) && Hangs(t, k, i, j, c) && FreshId(t)
    requires y < |lo| && lo[y] == t.levels[k][i]
    requires t' == BranchSplit(t, k, i, t.levels[k + 1][j], c)
    requires |t.children[t.levels[k][i]]| >= 2 * MIN_BRANCHES && |t.children[t.levels[k + 1][j]]| < MAX_BRANCHES
    ensures Good(t', k, InsertAt(lo, y + 1, t.nextId), x)
    ensures BranchHalved(t, t', k, i, t.nextId)
  {
    hide Measured, Filled, WithinCapacity, Ranked, Kinds, Allocated, AllLinked, Stacked, Parented, RunsPositive,
      RowRanked, BranchSplit, BranchSplitShape, BranchHalved;
    var p := t.levels[k + 1][j];
    BranchSplitSound(t, k, lo, y, i, j, c);
    BranchSplitParts(t, k, i, p, c);
    BranchSplitExact(t, t', k, i, p, c);
    BranchSplitSizes(t, t', k, i, p, c, x);
    ShapeHalves(t, t', k, i, p, c);
  }

  lemma {:induction false} ShapeHalves<T>(t: Tree<T>, t': Tree<T>, k: nat, i: nat, p: Id, c: nat)
    requires 0 < k < |t.levels| && i < |t.levels[k]| && ChildOf(t, k, t.levels[k][i], p, c) && FreshId(t)
    requires BranchSplitShape(t, t', k, i, p, c)
    ensures BranchHalved(t, t', k, i, t.nextId)
  {
    hide InsertAt, Keep, Tail, ChildTotal;
    var es, a, b :=
      t.children[p], ChildTotal(Keep(t.children[t.levels[k][i]])), ChildTotal(Tail(t.children[t.levels[k][i]]));
    SplitEntriesMembers(es, c, t.nextId, a, b);
    hide SplitEntries;
  }

  lemma {:induction false} SplitEntriesMembers(es: seq<Child>, c: nat, right: Id, a: nat, b: nat)
    requires c < |es|
    ensures var r := SplitEntries(es, c, right, a, b);
            |r| == |es| + 1 && forall n :: n in Nodes(r) ==> n in Nodes(es) || n == right
  {
    var r := SplitEntries(es, c, right, a, b);
    forall n | n in Nodes(r) && n != right
      ensures n in Nodes(es)
    {
      var y :| 0 <= y < |r| && Nodes(r)[y] == n;
      assert Nodes(es)[if y <= c then y else y - 1] == n;
    }
  }

  lemma {:induction false} RootReady<T>(t: Tree<T>, x: Id)
    requires Good(t, 0, [], x)
    ensures t.levels != [] && RootedAt(t, |t.levels| - 1)
  {
    RootPlace(t, 0, []);
  }

  lemma {:induction false} SplitRootKeeps<T>(t: Tree<T>, x: Id)
    requires Good(t, 0, [], x) && |Get(t.children, ROOT)| >= 2 * MIN_BRANCHES
    ensures Good(RootSplit(t), 0, [], x) && RootSplitShape(t, RootSplit(t))
  {
    hide Measured, Filled, WithinCapacity, Ranked, Kinds, Allocated, AllLinked, Stacked, Parented, RunsPositive,
      RootSplit, RootSplitShape;
    RootPlace(t, 0, []);
    IdIsFresh(t, 0, []);
    RootSplitSound(t);
    RootSplitExact(t, RootSplit(t));
    RootSplitSizes(t, RootSplit(t), x);
  }

  // ----- splitting upwards -------------------------------------------------------------

  /** Nothing below level k has changed but parent pointers. */
  ghost predicate Untouched<T>(t: Tree<T>, t': Tree<T>, k: nat) {
    && |t.levels| <= |t'.levels| && t'.runs == t.runs
    && t.rank.Keys <= t'.rank.Keys
    && (forall l {:trigger t'.levels[l]} :: 0 <= l < k && l < |t.levels| ==> t'.levels[l] == t.levels[l])
    && (forall l, y {:trigger t.levels[l][y]} :: 0 <= l < k && l < |t.levels| && 0 <= y < |t.levels[l]| ==>
          Get(t'.children, t.levels[l][y]) == Get(t.children, t.levels[l][y]))
  }

  /** The parents of these nodes can take another child. */
  ghost predicate HasRoom<T>(t: Tree<T>, es: seq<Child>) {
    forall n :: n in Nodes(es) ==> |Get(t.children, Ref(t.parent, n))| < MAX_BRANCHES
  }

  lemma {:induction false} RoomFor<T>(t: Tree<T>, es: seq<Child>, n: Id)
    requires HasRoom(t, es) && n in Nodes(es)
    ensures |Get(t.children, Ref(t.parent, n))| < MAX_BRANCHES
  {}

  lemma {:induction false} UntouchedSelf<T>(t: Tree<T>, k: nat)
    ensures Untouched(t, t, k)
  {}

  lemma {:induction false} UntouchedNode<T>(t: Tree<T>, t': Tree<T>, k: nat, i: nat)
    requires Untouched(t, t', k + 1) && k < |t.levels| && i < |t.levels[k]|
    ensures |t.levels| <= |t'.levels| && t'.levels[k] == t.levels[k]
    ensures t'.runs == t.runs && Get(t'.children, t.levels[k][i]) == Get(t.children, t.levels[k][i])
  {}

  /** The kind of a node, and the place of its parent. */
  lemma {:induction false} ParentPlace<T>(t: Tree<T>, k: nat, i: nat, x: Id) returns (j: nat)
    requires Good(t, 0, [], x) && k < |t.levels| && i < |t.levels[k]|
    ensures var n := t.levels[k][i];
            var p := Ref(t.parent, n);
            && |t.levels| >= 2 && (n in t.runs <==> k == 0) && (n in t.children <==> k > 0)
            && (p == NIL <==> k + 1 == |t.levels|) && (p == NIL ==> n == ROOT)
            && (p != NIL ==>
                  j < |t.levels[k + 1]| && t.levels[k + 1][j] == p && p !in t.runs && n in Nodes(Get(t.children, p)))
  {
    hide Measured, Filled, WithinCapacity, AllLinked, Stacked, Parented, Allocated, RunsPositive, Ranked;
    ParentNil(t, 0, [], k, i);
    assert Kind(k, t.levels[k][i], t.runs, t.children);
    j := 0;
    if k + 1 < |t.levels| {
      var c;
      j, c := FindParent(t, 0, [], k, i);
      assert Nodes(t.children[t.levels[k + 1][j]])[c] == t.levels[k][i];
    }
  }

  lemma {:induction false} LeafHalvedSince<T>(t: Tree<T>, t1: Tree<T>, t': Tree<T>, i: nat, right: Id)
    requires t.levels != [] && i < |t.levels[0]|
    requires Untouched(t, t1, 1) && t1.levels != [] && i < |t1.levels[0]| && LeafHalved(t1, t', i, right)
    ensures LeafHalved(t, t', i, right)
  {
    hide Gather, InsertAt, Keep, Tail;
  }

  lemma {:induction false} GoodAt<T>(t: Tree<T>, k: nat, x: Id)
    requires 0 < k < |t.levels|
    ensures Good(t, 0, [], x) <==> Good(t, k, t.levels[k], x)
  {
    hide Sound, Measured, Filled, WithinCapacity;
    WholeAt(t, k);
  }

  /** After a split every child of the old node hangs off one of the halves. */
  lemma {:induction false} HalvesHaveRoom<T>(t: Tree<T>, es: seq<Child>, left: Id, right: Id)
    requires Parented(t.parent, t.children)
    requires Get(t.children, left) == Keep(es) && Get(t.children, right) == Tail(es) && 2 <= |es| <= MAX_BRANCHES
    ensures HasRoom(t, es)
  {
    HalvesMeet(es);
    forall n | n in Nodes(es)
      ensures |Get(t.children, Ref(t.parent, n))| < MAX_BRANCHES
    {
      var y :| 0 <= y < |es| && Nodes(es)[y] == n;
      HalvesIndex(es, y);
      var q := if y < |Keep(es)| then left else right;
      var z := if y < |Keep(es)| then y else y - |Keep(es)|;
      assert Get(t.children, q)[z].node == n;
      assert q in t.children && t.children[q][z].node == n;
    }
  }

  lemma {:induction false} BranchHalvedBelow<T>(t: Tree<T>, t1: Tree<T>, t': Tree<T>, k: nat, i: nat, right: Id, x: Id)
    requires 0 < k && Untouched(t, t1, k + 1) && k + 1 < |t.levels| && i < |t.levels[k]| && k < |t1.levels|
    requires i < |t1.levels[k]|
    requires |Get(t.children, t.levels[k][i])| >= 2
    requires Good(t1, k, t1.levels[k], x) && k + 1 < |t1.levels| && BranchHalved(t1, t', k, i, right)
    requires Good(t', k, InsertAt(t1.levels[k], i + 1, right), x)
    ensures Untouched(t, t', k) && HasRoom(t', Get(t.children, t.levels[k][i]))
    ensures k < |t'.levels| && t'.levels[k] == InsertAt(t1.levels[k], i + 1, right)
  {
    hide Measured, Filled, Stacked, AllLinked, Kinds, Allocated, RunsPositive, InsertAt, RowRanked, Rooted, Keep, Tail,
      HasRoom, Parented;
    var left := t.levels[k][i];
    var es := Get(t.children, left);
    assert Get(t1.children, left) == es && t1.levels[k][i] == left;
    assert |es| <= MAX_BRANCHES by { assert Size(t1.children, t1.runs, t1.levels[k][i]) <= MAX_RUNS; BranchKind(t1, k,
      i, x); }
    HalvesHaveRoom(t', es, left, right);
    var j, c := BranchReady(t1, k, t1.levels[k], i, x);
    assert t1.rank[t1.levels[k][i]] == k && t1.rank[t1.levels[k + 1][j]] == k + 1;
    hide WithinCapacity;
    forall l, y {:trigger t.levels[l][y]} | 0 <= l < k && l < |t.levels| && 0 <= y < |t.levels[l]|
      ensures Get(t'.children, t.levels[l][y]) == Get(t.children, t.levels[l][y])
    {
      assert t1.levels[l][y] == t.levels[l][y] && t1.rank[t1.levels[l][y]] == l;
    }
  }

  lemma {:induction false} BranchKind<T>(t: Tree<T>, k: nat, i: nat, x: Id)
    requires 0 < k < |t.levels| && i < |t.levels[k]| && Kinds(t.levels, t.runs, t.children)
    ensures t.levels[k][i] in t.children && t.levels[k][i] !in t.runs
  {
    assert Kind(k, t.levels[k][i], t.runs, t.children);
  }

  lemma {:induction false} RootSplitBelow<T>(t: Tree<T>, t1: Tree<T>, t': Tree<T>, k: nat, x: Id)
    requires k > 0 && |t.levels| == k + 1 && Untouched(t, t1, k + 1) && |t1.levels| == |t.levels|
    requires |Get(t1.children, ROOT)| >= 2
    requires Good(t1, 0, [], x) && RootSplitShape(t1, t') && Good(t', 0, [], x)
    ensures Untouched(t, t', k) && HasRoom(t', Get(t1.children, ROOT))
  {
    hide Measured, Filled, Stacked, AllLinked, Kinds, Allocated, RunsPositive, Rooted, Keep, Tail, HasRoom, Parented,
      RootParents, RootEntries, Untouched;
    IdIsFresh(t1, 0, []);
    assert |t1.children[ROOT]| <= MAX_BRANCHES by { assert Size(t1.children, t1.runs, t1.levels[k][0]) <= MAX_RUNS; }
    hide WithinCapacity, Ranked;
    HalvesHaveRoom(t', t1.children[ROOT], t1.nextId, t1.nextId + 1);
    RootSplitLeaves(t, t1, t', k);
  }

  lemma {:induction false} RootSplitLeaves<T>(t: Tree<T>, t1: Tree<T>, t': Tree<T>, k: nat)
    requires k > 0 && |t.levels| == k + 1 && Untouched(t, t1, k + 1) && |t1.levels| == |t.levels|
    requires Ranked(t1.levels, t1.rank) && FreshId(t1) && t1.nextId + 1 !in t1.rank && RootSplitShape(t1, t')
    ensures Untouched(t, t', k)
  {
    hide Keep, Tail, RootParents, RootEntries;
    forall l, y {:trigger t.levels[l][y]} | 0 <= l < k && 0 <= y < |t.levels[l]|
      ensures Get(t'.children, t.levels[l][y]) == Get(t.children, t.levels[l][y])
    {
      assert t1.levels[l][y] == t.levels[l][y];
      LowerNotRoot(t1, l, y);
    }
  }

  // ----- nodes that keep standing -------------------------------------------------------

  /** `x` is a branch of the tree. */
  ghost predicate Stands<T>(t: Tree<T>, x: Id) {
    exists l, y :: 1 <= l < |t.levels| && 0 <= y < |t.levels[l]| && t.levels[l][y] == x
  }

  ghost predicate AllStand<T>(t: Tree<T>, t': Tree<T>) {
    forall n :: Stands(t, n) ==> Stands(t', n)
  }

  lemma {:induction false} LevelStands<T>(t: Tree<T>, t': Tree<T>, k: nat, i: nat, right: Id)
    requires k < |t.levels| && i <= |t.levels[k]| && t'.levels == t.levels[k := InsertAt(t.levels[k], i, right)]
    ensures AllStand(t, t')
  {
    forall n | Stands(t, n)
      ensures Stands(t', n)
    {
      var l, y :| 1 <= l < |t.levels| && 0 <= y < |t.levels[l]| && t.levels[l][y] == n;
      InsertAtLength(t.levels[k], i, right);
      var z := if l == k && y >= i then y + 1 else y;
      if l == k {
        InsertAtIndex(t.levels[k], i, right, z);
      }
      assert t'.levels[l][z] == n;
    }
  }

  lemma {:induction false} RootSplitStands<T>(t: Tree<T>, t': Tree<T>)
    requires RootSplitShape(t, t')
    ensures AllStand(t, t')
  {
    hide RootParents, Keep, Tail, RootEntries;
    var top := |t.levels| - 1;
    forall n | Stands(t, n)
      ensures Stands(t', n)
    {
      var l, y :| 1 <= l < |t.levels| && 0 <= y < |t.levels[l]| && t.levels[l][y] == n;
      if l == top {
        assert t'.levels[top + 1][0] == n;
      } else {
        assert t'.levels[l][y] == n;
      }
    }
  }

  lemma {:induction false} HalvedStands<T>(t: Tree<T>, t': Tree<T>, k: nat, i: nat, right: Id)
    requires k < |t.levels| && i < |t.levels[k]| && BranchHalved(t, t', k, i, right)
    ensures AllStand(t, t')
  {
    hide Keep, Tail;
    LevelStands(t, t', k, i + 1, right);
  }

  lemma {:induction false} StandSelf<T>(t: Tree<T>)
    ensures AllStand(t, t)
  {
    hide Stands;
  }

  lemma {:induction false} StandTrans<T>(t: Tree<T>, t1: Tree<T>, t2: Tree<T>)
    requires AllStand(t, t1) && AllStand(t1, t2)
    ensures AllStand(t, t2)
  {
    hide Stands;
  }
}
