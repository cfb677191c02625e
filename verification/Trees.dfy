/** The whole tree as one value, and the steps that restructure it.  Each step
    is given as a function from tree to tree, with lemmas saying what it keeps;
    the methods of the region are proved to compute these functions. */
module Trees {
  import opened Runs
  import opened Levels
  import opened Forest

  datatype Tree<T> = Tree(
    parent: map<Id, Id>,
    prev: map<Id, Id>,
    next: map<Id, Id>,
    runs: map<Id, seq<Run<T>>>,
    children: map<Id, seq<Child>>,
    nextId: Id,
    levels: seq<seq<Id>>,
    rank: map<Id, int>)

  /** The tree is well formed.  When k > 0, a node of level k is being
      dissolved: it stands in `lo` but no longer in level k. */
  ghost predicate Sound<T>(t: Tree<T>, k: nat, lo: seq<Id>) {
    && Rooted(t.levels, t.parent)
    && Ranked(t.levels, t.rank)
    && Kinds(t.levels, t.runs, t.children)
    && Allocated(t.rank, t.nextId, t.parent, t.runs, t.children)
    && AllLinked(t.prev, t.next, t.levels)
    && Stacked(t.children, t.levels, k, lo)
    && (k > 0 ==> RowRanked(t.rank, k, lo))
    && Parented(t.parent, t.children)
    && RunsPositive(t.runs)
  }

  ghost predicate Whole<T>(t: Tree<T>) {
    Sound(t, 0, [])
  }

  /** One label per character, read off the leaves. */
  ghost function Labels<T>(t: Tree<T>): seq<T>
    requires t.levels != []
  {
    Expand(Gather(t.runs, t.levels[0]))
  }

  ghost predicate Exact<T>(t: Tree<T>) {
    Measured(t.children, t.runs, NIL, 0, NIL, 0)
  }

  ghost predicate Full<T>(t: Tree<T>, x: Id) {
    Filled(t.levels, t.children, t.runs, x)
  }

  ghost predicate Fits<T>(t: Tree<T>) {
    WithinCapacity(t.levels, t.children, t.runs)
  }

  /** Everything a settled tree satisfies; node `x` may be underfilled. */
  ghost predicate Good<T>(t: Tree<T>, k: nat, lo: seq<Id>, x: Id) {
    Sound(t, k, lo) && Exact(t) && Full(t, x) && Fits(t)
  }

  // ----- the parent of a node --------------------------------------------------

  /** Where node i of level k hangs: the parent is node j of level k + 1, and
      this is its child c. */
  ghost predicate Hangs<T>(t: Tree<T>, k: nat, i: nat, j: nat, c: nat) {
    && k + 1 < |t.levels| && i < |t.levels[k]| && j < |t.levels[k + 1]|
    && i == |Gather(t.children, t.levels[k + 1][..j])| + c
    && ChildOf(t, k, t.levels[k][i], t.levels[k + 1][j], c)
  }

  /** Node `n` of level k is child c of `p`, and its only entry is there. */
  ghost predicate ChildOf<T>(t: Tree<T>, k: nat, n: Id, p: Id, c: nat) {
    && Ref(t.parent, n) == p
    && p in t.children && p !in t.runs && p != n && p != NIL && n != NIL
    && (if k == 0 then n in t.runs && n !in t.children else n in t.children && n !in t.runs)
    && c < |t.children[p]| && t.children[p][c].node == n
    && Distinct(Nodes(t.children[p]))
    && n in t.rank && t.rank[n] == k && p in t.rank && t.rank[p] == k + 1
  }

  ghost predicate FreshId<T>(t: Tree<T>) {
    var n := t.nextId;
    n != NIL && n !in t.rank && n !in t.children && n !in t.runs && n !in t.parent
    && NIL !in t.children && NIL !in t.runs && NIL !in t.parent
  }

  lemma {:induction false} IdIsFresh<T>(t: Tree<T>, kk: nat, lo: seq<Id>)
    requires Sound(t, kk, lo)
    ensures FreshId(t) && Ref(t.parent, t.nextId) == NIL && Ref(t.parent, NIL) == NIL
    ensures var n := t.nextId + 1; n !in t.rank && n !in t.children && n !in t.runs && n !in t.parent
  {
    hide Ranked, AllLinked, Stacked, Parented, RunsPositive, Rooted, Kinds;
  }

  lemma {:induction false} FindParent<T>(t: Tree<T>, kk: nat, lo: seq<Id>, k: nat, i: nat) returns (j: nat, c: nat)
    requires Sound(t, kk, lo) && kk <= k && k + 1 < |t.levels| && i < |t.levels[k]|
    ensures Hangs(t, k, i, j, c)
  {
    hide AllLinked, Covers, Gather;
    assert Row(t.levels, kk, lo, k + 1) == t.levels[k + 1];
    j, c := FindEntry(t.children, t.levels[k + 1], t.levels[k], i);
    EntriesDistinct(t.children, t.levels[k + 1], t.levels[k], j);
    var p := t.levels[k + 1][j];
    assert Kind(k + 1, p, t.runs, t.children) && Kind(k, t.levels[k][i], t.runs, t.children);
    assert t.children[p][c].node == t.levels[k][i];
  }

  lemma {:induction false} ParentNil<T>(t: Tree<T>, kk: nat, lo: seq<Id>, k: nat, i: nat)
    requires Sound(t, kk, lo) && kk <= k < |t.levels| && i < |t.levels[k]|
    ensures Ref(t.parent, t.levels[k][i]) == NIL <==> k + 1 == |t.levels|
    ensures k + 1 == |t.levels| <==> t.levels[k][i] == ROOT
  {
    hide AllLinked, Covers, Gather, Measured;
    if k + 1 < |t.levels| {
      var j, c := FindParent(t, kk, lo, k, i);
    }
    assert t.levels[|t.levels| - 1][0] == ROOT;
  }

  // ----- a new right sibling -----------------------------------------------------

  /** The links once `right` has been put between `left` and `after`. */
  ghost function PrevLinks(prev: map<Id, Id>, left: Id, right: Id, after: Id): map<Id, Id> {
    if after != NIL then prev[right := left][after := right] else prev[right := left]
  }

  ghost function NextLinks(next: map<Id, Id>, left: Id, right: Id, after: Id): map<Id, Id> {
    next[right := after][left := right]
  }

  /** The new node `t.nextId`, still empty, after node i of level k. */
  ghost function AddSibling<T>(t: Tree<T>, k: nat, i: nat, p: Id, entries: seq<Child>): Tree<T>
    requires k < |t.levels| && i < |t.levels[k]|
  {
    var left, right := t.levels[k][i], t.nextId;
    var after := Ref(t.next, left);
    t.(parent := t.parent[right := p],
       prev := PrevLinks(t.prev, left, right, after),
       next := NextLinks(t.next, left, right, after),
       runs := if k == 0 then t.runs[right := []] else t.runs,
       children := (if k == 0 then t.children else t.children[right := []])[p := entries],
       nextId := t.nextId + 1,
       levels := t.levels[k := InsertAt(t.levels[k], i + 1, right)],
       rank := t.rank[right := k])
  }

  lemma {:induction false} AddSiblingLinked<T>(t: Tree<T>, k: nat, lo: seq<Id>, i: nat, p: Id, entries: seq<Child>)
    requires Sound(t, k, lo) && k + 1 < |t.levels| && i < |t.levels[k]|
    ensures var t' := AddSibling(t, k, i, p, entries); AllLinked(t'.prev, t'.next, t'.levels)
  {
    hide Stacked, Parented, Kinds;
    var t' := AddSibling(t, k, i, p, entries);
    var ids, right := t.levels[k], t.nextId;
    assert Linked(t.prev, t.next, ids);
    assert right !in t.rank;
    assert forall x :: 0 <= x < |ids| ==> ids[x] in t.rank && t.rank[ids[x]] == k;
    assert Distinct(ids);
    var after := Ref(t.next, ids[i]);
    assert after == (if i + 1 == |ids| then NIL else ids[i + 1]);
    PrevInsert(t.prev, t'.prev, ids, i, right);
    NextInsert(t.next, t'.next, ids, i, right);
    AllLinkedPatch(t.prev, t.next, t'.prev, t'.next, t.levels, t.rank, k, t'.levels[k]);
  }

  lemma {:induction false} AddSiblingStacked<T>(t: Tree<T>, k: nat, lo: seq<Id>, x: nat, i: nat, j: nat, c: nat,
                                                entries: seq<Child>)
    requires Sound(t, k, lo) && Hangs(t, k, i, j, c)
    requires k > 0 ==> x < |lo| && lo[x] == t.levels[k][i]
    requires Nodes(entries) == InsertAt(Nodes(Get(t.children, t.levels[k + 1][j])), c + 1, t.nextId)
    ensures var t' := AddSibling(t, k, i, t.levels[k + 1][j], entries);
            Stacked(t'.children, t'.levels, k, if k == 0 then lo else InsertAt(lo, x + 1, t.nextId))
  {
    hide AllLinked, Covers, Gather, Parented;
    var p, right := t.levels[k + 1][j], t.nextId;
    var t' := AddSibling(t, k, i, p, entries);
    var ch, ch' := t.children, t'.children;
    assert right !in t.rank && right !in ch;
    var up := t.levels[k + 1];
    assert Distinct(up);
    assert p !in t.runs && p in ch by { assert Kind(k + 1, p, t.runs, ch); }
    assert Row(t.levels, k, lo, k + 1) == up;
    assert forall y :: 0 <= y < |up| ==> up[y] in t.rank && t.rank[up[y]] == k + 1;
    CoverInsert(ch, ch', up, t.levels[k], j, c, i, right);
    if k > 0 {
      assert Row(t.levels, k, lo, k) == lo;
      GatherSplit(ch, ch', lo, x, right);
      CoversGather(ch, ch', lo, InsertAt(lo, x + 1, right), t.levels[k - 1]);
    }
    StackedPatch(ch, ch', t.levels, t.rank, k, lo, InsertAt(t.levels[k], i + 1, right),
                 if k == 0 then lo else InsertAt(lo, x + 1, right));
  }

  lemma {:induction false} CoversGather(ch: map<Id, seq<Child>>, ch': map<Id, seq<Child>>, up: seq<Id>, up': seq<Id>,
                                        low: seq<Id>)
    requires Covers(ch, up, low) && Gather(ch', up') == Gather(ch, up)
    ensures Covers(ch', up', low)
  {}

  lemma {:induction false} AddSiblingParented<T>(t: Tree<T>, k: nat, lo: seq<Id>, i: nat, j: nat, c: nat,
                                                 entries: seq<Child>)
    requires Sound(t, k, lo) && Hangs(t, k, i, j, c)
    requires Nodes(entries) == InsertAt(Nodes(Get(t.children, t.levels[k + 1][j])), c + 1, t.nextId)
    ensures var t' := AddSibling(t, k, i, t.levels[k + 1][j], entries); Parented(t'.parent, t'.children)
  {
    hide AllLinked, Covers, Gather, Stacked, RunsPositive;
    var p, right := t.levels[k + 1][j], t.nextId;
    var t' := AddSibling(t, k, i, p, entries);
    assert p in t.children by { assert Kind(k + 1, p, t.runs, t.children); }
    InsertAtLength(Nodes(t.children[p]), c + 1, right);
    forall q, y {:trigger t'.children[q][y]} | q in t'.children && 0 <= y < |t'.children[q]|
      ensures Ref(t'.parent, t'.children[q][y].node) == q
    {
      if q == p {
        InsertAtIndex(Nodes(t.children[p]), c + 1, right, y);
        assert t'.children[q][y].node == Nodes(entries)[y];
        assert y <= c ==> Ref(t.parent, t.children[p][y].node) == p;
        assert y > c + 1 ==> Ref(t.parent, t.children[p][y - 1].node) == p;
      } else if q != right || k == 0 {
        assert Ref(t.parent, t.children[q][y].node) == q;
      }
    }
  }

  lemma {:induction false} AddSiblingSound<T>(t: Tree<T>, k: nat, lo: seq<Id>, x: nat, i: nat, j: nat, c: nat,
                                              entries: seq<Child>)
    requires Sound(t, k, lo) && Hangs(t, k, i, j, c)
    requires k > 0 ==> x < |lo| && lo[x] == t.levels[k][i]
    requires Nodes(entries) == InsertAt(Nodes(Get(t.children, t.levels[k + 1][j])), c + 1, t.nextId)
    ensures var t' := AddSibling(t, k, i, t.levels[k + 1][j], entries);
            Sound(t', k, if k == 0 then lo else InsertAt(lo, x + 1, t.nextId))
  {
    hide Rooted, Ranked, RowRanked, Kinds, Allocated, AllLinked, Stacked, Parented, RunsPositive, InsertAt;
    var p := t.levels[k + 1][j];
    AddSiblingLinked(t, k, lo, i, p, entries);
    AddSiblingStacked(t, k, lo, x, i, j, c, entries);
    AddSiblingParented(t, k, lo, i, j, c, entries);
    AddSiblingRanked(t, k, lo, x, i, p, entries);
    AddSiblingKinds(t, k, lo, i, p, entries);
  }

  lemma {:induction false} AddSiblingRanked<T>(t: Tree<T>, k: nat, lo: seq<Id>, x: nat, i: nat, p: Id,
                                               entries: seq<Child>)
    requires Sound(t, k, lo) && k + 1 < |t.levels| && i < |t.levels[k]|
    requires k > 0 ==> x < |lo|
    ensures var t' := AddSibling(t, k, i, p, entries);
            && Ranked(t'.levels, t'.rank)
            && (k > 0 ==> RowRanked(t'.rank, k, InsertAt(lo, x + 1, t.nextId)))
            && RunsPositive(t'.runs)
  {
    hide Kinds, AllLinked, Stacked, Parented, Rooted;
    assert t.nextId !in t.rank;
    RankedInsert(t.levels, t.rank, k, i + 1, t.nextId);
    if k > 0 {
      DistinctInsert(lo, x + 1, t.nextId);
    }
  }

  lemma {:induction false} AddSiblingKinds<T>(t: Tree<T>, k: nat, lo: seq<Id>, i: nat, p: Id, entries: seq<Child>)
    requires Sound(t, k, lo) && k + 1 < |t.levels| && i < |t.levels[k]| && p in t.levels[k + 1]
    ensures var t' := AddSibling(t, k, i, p, entries);
            && Kinds(t'.levels, t'.runs, t'.children)
            && Allocated(t'.rank, t'.nextId, t'.parent, t'.runs, t'.children)
            && Rooted(t'.levels, t'.parent)
  {
    hide AllLinked, Stacked, Parented, RunsPositive;
    var t' := AddSibling(t, k, i, p, entries);
    assert Kind(k + 1, p, t.runs, t.children) by {
      var j :| 0 <= j < |t.levels[k + 1]| && t.levels[k + 1][j] == p;
    }
    assert t.nextId !in t.rank;
    forall l, y {:trigger t'.levels[l][y]} | 0 <= l < |t'.levels| && 0 <= y < |t'.levels[l]|
      ensures Kind(l, t'.levels[l][y], t'.runs, t'.children)
    {
      if l != k {
        assert t'.levels[l][y] == t.levels[l][y];
      } else {
        InsertAtIndex(t.levels[k], i + 1, t.nextId, y);
        assert y <= i ==> t'.levels[l][y] == t.levels[k][y];
        assert y > i + 1 ==> t'.levels[l][y] == t.levels[k][y - 1];
      }
    }
    assert Ref(t.parent, ROOT) == NIL;
  }

  // ----- two neighbours share out their children anew ----------------------------

  ghost function Reparent(parent: map<Id, Id>, ids: seq<Id>, p: Id): map<Id, Id>
    decreases |ids|
  {
    if ids == [] then parent else Reparent(parent[ids[0] := p], ids[1..], p)
  }

  lemma {:induction false} ReparentRef(parent: map<Id, Id>, ids: seq<Id>, p: Id, n: Id)
    ensures Ref(Reparent(parent, ids, p), n) == (if n in ids then p else Ref(parent, n))
    ensures n in Reparent(parent, ids, p) <==> n in ids || n in parent
    decreases |ids|
  {
    if ids != [] {
      ReparentRef(parent[ids[0] := p], ids[1..], p, n);
    }
  }

  /** Nodes `a` and `b` come to hold `l` and `r`, whose parents `parent'` records. */
  ghost function Shuffle<T>(t: Tree<T>, a: Id, b: Id, l: seq<Child>, r: seq<Child>, parent': map<Id, Id>): Tree<T> {
    t.(parent := parent', children := t.children[a := l][b := r])
  }

  ghost predicate Reparented(parent: map<Id, Id>, parent': map<Id, Id>, a: Id, b: Id, l: seq<Child>, r: seq<Child>,
                             nextId: Id) {
    && (forall n {:trigger Ref(parent', n)} :: Ref(parent', n) ==
          if n in Nodes(l) then a else if n in Nodes(r) then b else Ref(parent, n))
    && (forall n :: n in parent' ==> NIL < n < nextId)
  }

  /** A shuffle of neighbours x and x + 1 of the row at level k. */
  ghost predicate Shuffles<T>(t: Tree<T>, k: nat, lo: seq<Id>, x: nat, l: seq<Child>, r: seq<Child>,
                              parent': map<Id, Id>) {
    && 0 < k < |t.levels| && x + 1 < |lo|
    && lo[x] in t.children && lo[x + 1] in t.children
    && Get(t.children, lo[x]) + Get(t.children, lo[x + 1]) == l + r
    && Reparented(t.parent, parent', lo[x], lo[x + 1], l, r, t.nextId)
  }

  lemma {:induction false} PairDistinct(ch: map<Id, seq<Child>>, up: seq<Id>, low: seq<Id>, x: nat)
    requires Covers(ch, up, low) && Distinct(low) && x + 1 < |up|
    ensures Distinct(Nodes(Get(ch, up[x]) + Get(ch, up[x + 1])))
  {
    hide Gather;
    GatherPair(ch, up, x);
    var a, m, b := Gather(ch, up[..x]), Get(ch, up[x]) + Get(ch, up[x + 1]), Gather(ch, up[x + 2..]);
    NodesConcat(a + m, b);
    NodesConcat(a, m);
    assert Nodes(m) == low[|a|..|a| + |m|];
  }

  lemma {:induction false} ShuffleStacked<T>(t: Tree<T>, k: nat, lo: seq<Id>, x: nat, l: seq<Child>, r: seq<Child>,
                                             parent': map<Id, Id>)
    requires Sound(t, k, lo) && Shuffles(t, k, lo, x, l, r, parent')
    ensures var t' := Shuffle(t, lo[x], lo[x + 1], l, r, parent'); Stacked(t'.children, t'.levels, k, lo)
  {
    hide AllLinked, Covers, Gather, Parented, Kinds, RunsPositive, Rooted, Reparented;
    var t' := Shuffle(t, lo[x], lo[x + 1], l, r, parent');
    var ch, ch' := t.children, t'.children;
    assert Row(t.levels, k, lo, k) == lo;
    assert lo[x] != lo[x + 1];
    GatherMove(ch, ch', lo, x);
    CoversGather(ch, ch', lo, lo, t.levels[k - 1]);
    if k + 1 < |t.levels| {
      var up := t.levels[k + 1];
      assert Row(t.levels, k, lo, k + 1) == up;
      assert forall y :: 0 <= y < |up| ==> up[y] in t.rank && t.rank[up[y]] == k + 1;
      CoversFrame(ch, ch', up, t.levels[k]);
    }
    StackedPatch(ch, ch', t.levels, t.rank, k, lo, t.levels[k], lo);
    assert t.levels[k := t.levels[k]] == t.levels;
  }

  /** Every child of the two neighbours points to one of them. */
  lemma {:induction false} ShuffleOwners<T>(t: Tree<T>, k: nat, lo: seq<Id>, x: nat, l: seq<Child>, r: seq<Child>,
                                            parent': map<Id, Id>)
    requires Sound(t, k, lo) && Shuffles(t, k, lo, x, l, r, parent')
    ensures forall n :: n in Nodes(l) || n in Nodes(r) ==> Ref(t.parent, n) == lo[x] || Ref(t.parent, n) == lo[x + 1]
    ensures forall n :: n in Nodes(l) ==> n !in Nodes(r)
  {
    hide AllLinked, Covers, Gather, Kinds, RunsPositive, Rooted, Reparented;
    assert Row(t.levels, k, lo, k) == lo;
    PairDistinct(t.children, lo, t.levels[k - 1], x);
    var a, b := t.children[lo[x]], t.children[lo[x + 1]];
    NodesConcat(l, r);
    NodesConcat(a, b);
    forall n | n in Nodes(l) || n in Nodes(r)
      ensures Ref(t.parent, n) == lo[x] || Ref(t.parent, n) == lo[x + 1]
    {
      assert n in Nodes(l + r);
      var y :| 0 <= y < |l + r| && Nodes(l + r)[y] == n;
      assert (a + b)[y].node == n;
      assert y < |a| ==> t.children[lo[x]][y].node == n;
      assert y >= |a| ==> t.children[lo[x + 1]][y - |a|].node == n;
    }
    forall n | n in Nodes(l)
      ensures n !in Nodes(r)
    {
      var y :| 0 <= y < |l| && Nodes(l)[y] == n;
      assert Nodes(l + r)[y] == n;
      assert forall z :: 0 <= z < |r| ==> Nodes(r)[z] == Nodes(l + r)[|l| + z];
    }
  }

  lemma {:induction false} ShuffleParented<T>(t: Tree<T>, k: nat, lo: seq<Id>, x: nat, l: seq<Child>, r: seq<Child>,
                                              parent': map<Id, Id>)
    requires Sound(t, k, lo) && Shuffles(t, k, lo, x, l, r, parent')
    ensures var t' := Shuffle(t, lo[x], lo[x + 1], l, r, parent'); Parented(t'.parent, t'.children)
    ensures Ref(parent', ROOT) == NIL
  {
    ShuffleOwners(t, k, lo, x, l, r, parent');
    hide AllLinked, Covers, Gather, Kinds, RunsPositive, Stacked;
    var t' := Shuffle(t, lo[x], lo[x + 1], l, r, parent');
    assert lo[x] != lo[x + 1] && lo[x] != NIL && lo[x + 1] != NIL;
    forall q, y {:trigger t'.children[q][y]} | q in t'.children && 0 <= y < |t'.children[q]|
      ensures Ref(t'.parent, t'.children[q][y].node) == q
    {
      if q == lo[x] {
        assert Nodes(l)[y] == l[y].node;
      } else if q == lo[x + 1] {
        assert Nodes(r)[y] == r[y].node;
      } else {
        assert Ref(t.parent, t.children[q][y].node) == q;
      }
    }
  }

  lemma {:induction false} ShuffleSound<T>(t: Tree<T>, k: nat, lo: seq<Id>, x: nat, l: seq<Child>, r: seq<Child>,
                                           parent': map<Id, Id>)
    requires Sound(t, k, lo) && Shuffles(t, k, lo, x, l, r, parent')
    ensures Sound(Shuffle(t, lo[x], lo[x + 1], l, r, parent'), k, lo)
  {
    ShuffleStacked(t, k, lo, x, l, r, parent');
    ShuffleParented(t, k, lo, x, l, r, parent');
    hide Ranked, AllLinked, Stacked, Parented, RunsPositive, Ref;
  }

  // ----- a node leaves its level ---------------------------------------------------

  lemma {:induction false} WholeAt<T>(t: Tree<T>, k: nat)
    requires 0 < k < |t.levels|
    ensures Whole(t) <==> Sound(t, k, t.levels[k])
  {
    hide AllLinked, Covers, Parented, RunsPositive, Kinds, Rooted, Allocated;
    if Whole(t) {
      assert Ranked(t.levels, t.rank);
      assert forall i :: 0 <= i < |t.levels[k]| ==> t.levels[k][i] in t.rank && t.rank[t.levels[k][i]] == k;
      forall l | 1 <= l < |t.levels|
        ensures Covers(t.children, Row(t.levels, k, t.levels[k], l), t.levels[l - 1])
      {
        assert Covers(t.children, Row(t.levels, 0, [], l), t.levels[l - 1]);
      }
    }
    if Sound(t, k, t.levels[k]) {
      forall l | 1 <= l < |t.levels|
        ensures Covers(t.children, Row(t.levels, 0, [], l), t.levels[l - 1])
      {
        assert Covers(t.children, Row(t.levels, k, t.levels[k], l), t.levels[l - 1]);
      }
    }
  }

  ghost function PrevUnlinked(prev: map<Id, Id>, left: Id, right: Id): map<Id, Id> {
    if right != NIL then prev[right := left] else prev
  }

  ghost function NextUnlinked(next: map<Id, Id>, left: Id, right: Id): map<Id, Id> {
    if left != NIL then next[left := right] else next
  }

  /** Node i of level k, child c of `p`, is unlinked; it keeps what it holds. */
  ghost function Detach<T>(t: Tree<T>, k: nat, i: nat, p: Id, c: nat): Tree<T>
    requires k < |t.levels| && i < |t.levels[k]| && c < |Get(t.children, p)|
  {
    var node := t.levels[k][i];
    var left, right := Ref(t.prev, node), Ref(t.next, node);
    var prev := PrevUnlinked(t.prev, left, right);
    var next := NextUnlinked(t.next, left, right);
    t.(prev := if k == 0 then prev[node := NIL] else prev,
       next := if k == 0 then next[node := NIL] else next,
       children := t.children[p := RemoveAt(Get(t.children, p), c)],
       levels := t.levels[k := RemoveAt(t.levels[k], i)])
  }

  lemma {:induction false} DetachLinked<T>(t: Tree<T>, k: nat, i: nat, p: Id, c: nat)
    requires Whole(t) && k < |t.levels| && i < |t.levels[k]| && c < |Get(t.children, p)|
    ensures var t' := Detach(t, k, i, p, c); AllLinked(t'.prev, t'.next, t'.levels)
  {
    hide Stacked, Parented, Kinds, RunsPositive;
    var t' := Detach(t, k, i, p, c);
    var ids := t.levels[k];
    assert Linked(t.prev, t.next, ids);
    assert forall x :: 0 <= x < |ids| ==> ids[x] in t.rank && t.rank[ids[x]] == k;
    assert Distinct(ids);
    assert Ref(t.prev, ids[i]) == (if i == 0 then NIL else ids[i - 1]);
    assert Ref(t.next, ids[i]) == (if i + 1 == |ids| then NIL else ids[i + 1]);
    PrevRemove(t.prev, t'.prev, ids, i);
    NextRemove(t.next, t'.next, ids, i);
    AllLinkedPatch(t.prev, t.next, t'.prev, t'.next, t.levels, t.rank, k, t'.levels[k]);
  }

  lemma {:induction false} DetachStacked<T>(t: Tree<T>, k: nat, i: nat, j: nat, c: nat)
    requires Whole(t) && Hangs(t, k, i, j, c)
    ensures var t' := Detach(t, k, i, t.levels[k + 1][j], c); Stacked(t'.children, t'.levels, k, t.levels[k])
  {
    hide AllLinked, Covers, Gather, Parented, Kinds, RunsPositive, Rooted;
    var p := t.levels[k + 1][j];
    var t' := Detach(t, k, i, p, c);
    var ch, ch' := t.children, t'.children;
    var up := t.levels[k + 1];
    assert Row(t.levels, 0, [], k + 1) == up;
    assert forall y :: 0 <= y < |up| ==> up[y] in t.rank && t.rank[up[y]] == k + 1;
    assert Distinct(up);
    CoverRemove(ch, ch', up, t.levels[k], j, c, i);
    if k > 0 {
      assert Row(t.levels, 0, [], k) == t.levels[k];
      assert forall y :: 0 <= y < |t.levels[k]| ==> t.rank[t.levels[k][y]] == k;
      CoversFrame(ch, ch', t.levels[k], t.levels[k - 1]);
      WholeAt(t, k);
    }
    StackedRow(t, k);
    StackedPatch(ch, ch', t.levels, t.rank, k, t.levels[k], RemoveAt(t.levels[k], i), t.levels[k]);
  }

  lemma {:induction false} StackedRow<T>(t: Tree<T>, k: nat)
    requires k < |t.levels| && Stacked(t.children, t.levels, 0, [])
    ensures Stacked(t.children, t.levels, k, t.levels[k])
  {
    hide Covers;
    forall l | 1 <= l < |t.levels|
      ensures Covers(t.children, Row(t.levels, k, t.levels[k], l), t.levels[l - 1])
    {
      assert Covers(t.children, Row(t.levels, 0, [], l), t.levels[l - 1]);
    }
  }

  lemma {:induction false} DetachRest<T>(t: Tree<T>, k: nat, i: nat, j: nat, c: nat)
    requires Whole(t) && Hangs(t, k, i, j, c) && |t.levels[k]| >= 2
    ensures var t' := Detach(t, k, i, t.levels[k + 1][j], c);
            && Rooted(t'.levels, t'.parent)
            && Ranked(t'.levels, t'.rank)
            && Kinds(t'.levels, t'.runs, t'.children)
            && Allocated(t'.rank, t'.nextId, t'.parent, t'.runs, t'.children)
            && RowRanked(t'.rank, k, t.levels[k])
            && Parented(t'.parent, t'.children)
  {
    hide AllLinked, Stacked, RunsPositive;
    var p := t.levels[k + 1][j];
    var t' := Detach(t, k, i, p, c);
    RankedRemove(t.levels, t.rank, k, i);
    assert Kind(k + 1, p, t.runs, t.children);
    forall l, y {:trigger t'.levels[l][y]} | 0 <= l < |t'.levels| && 0 <= y < |t'.levels[l]|
      ensures Kind(l, t'.levels[l][y], t'.runs, t'.children)
    {
      assert l != k ==> t'.levels[l][y] == t.levels[l][y];
      assert l == k ==> t'.levels[l][y] == t.levels[k][if y < i then y else y + 1];
    }
    forall q, y {:trigger t'.children[q][y]} | q in t'.children && 0 <= y < |t'.children[q]|
      ensures Ref(t'.parent, t'.children[q][y].node) == q
    {
      assert t'.children[q][y] == t.children[q][if q == p && y >= c then y + 1 else y];
    }
    assert forall y :: 0 <= y < |t.levels[k]| ==> t.levels[k][y] in t.rank && t.rank[t.levels[k][y]] == k;
  }

  lemma {:induction false} DetachSound<T>(t: Tree<T>, k: nat, i: nat, j: nat, c: nat)
    requires Whole(t) && Hangs(t, k, i, j, c) && |t.levels[k]| >= 2
    ensures Sound(Detach(t, k, i, t.levels[k + 1][j], c), k, t.levels[k])
  {
    hide Rooted, Ranked, RowRanked, Kinds, Allocated, AllLinked, Stacked, Parented, RunsPositive, RemoveAt;
    DetachLinked(t, k, i, t.levels[k + 1][j], c);
    DetachStacked(t, k, i, j, c);
    DetachRest(t, k, i, j, c);
  }

  /** Once the dissolved node holds nothing, the row is the level. */
  lemma {:induction false} CloseGap<T>(t: Tree<T>, k: nat, lo: seq<Id>, x: nat)
    requires 0 < k < |t.levels| && Sound(t, k, lo) && x < |lo|
    requires RemoveAt(lo, x) == t.levels[k] && Get(t.children, lo[x]) == []
    ensures Whole(t)
  {
    hide AllLinked, Gather, Parented, RunsPositive, Kinds, Rooted, Allocated, Ranked, RowRanked, RemoveAt;
    GatherDrop(t.children, lo, x);
    assert Row(t.levels, k, lo, k) == lo;
    forall l | 1 <= l < |t.levels|
      ensures Covers(t.children, Row(t.levels, 0, [], l), t.levels[l - 1])
    {
      assert Covers(t.children, Row(t.levels, k, lo, l), t.levels[l - 1]);
    }
  }

  // ----- lengths and sizes through a split -----------------------------------------

  /** The entries of the parent once child c has been split in two. */
  function SplitEntries(es: seq<Child>, c: nat, right: Id, leftLength: nat, rightLength: nat): (r: seq<Child>)
    requires c < |es|
  {
    es[..c] + [Child(es[c].node, leftLength), Child(right, rightLength)] + es[c + 1..]
  }

  lemma {:induction false} SplitEntriesNodes(es: seq<Child>, c: nat, right: Id, a: nat, b: nat)
    requires c < |es|
    ensures var r := SplitEntries(es, c, right, a, b);
            && Nodes(r) == InsertAt(Nodes(es), c + 1, right)
            && ChildTotal(r) == ChildTotal(es) - es[c].length + a + b
  {
    var r := SplitEntries(es, c, right, a, b);
    ChildTotalAt(es, c);
    ChildTotalConcat(es[..c] + [Child(es[c].node, a), Child(right, b)], es[c + 1..]);
    ChildTotalConcat(es[..c], [Child(es[c].node, a), Child(right, b)]);
    var two := [Child(es[c].node, a), Child(right, b)];
    assert two[1..] == [Child(right, b)];
    assert ChildTotal(two) == a + ChildTotal(two[1..]) == a + b;
  }

  /** The nodes of `n` and its new sibling hold between them what `n` held. */
  ghost predicate Halved<X>(m: map<Id, seq<X>>, m': map<Id, seq<X>>, left: Id, right: Id, p: Id) {
    && (left in m <==> left in m') && (left in m <==> right in m')
    && Get(m, left) == Get(m', left) + Get(m', right)
    && forall n {:trigger n in m'} {:trigger Get(m', n)} :: n != left && n != right && n != p ==>
         (n in m <==> n in m') && Get(m, n) == Get(m', n)
  }

  lemma {:induction false} HalvedLen<T>(ch: map<Id, seq<Child>>, ch': map<Id, seq<Child>>, runs: map<Id, seq<Run<T>>>,
                                        runs': map<Id, seq<Run<T>>>, left: Id, right: Id, p: Id, n: Id)
    requires Halved(ch, ch', left, right, p) && Halved(runs, runs', left, right, NIL)
    requires n != left && n != right && n != NIL
    requires n == p ==> n in ch' && n !in runs && n !in runs' && ChildTotal(ch'[n]) == ChildTotal(Get(ch, n))
    ensures Len(ch', runs', n) == Len(ch, runs, n)
  {
    hide Total, ChildTotal;
    assert n in runs <==> n in runs';
    assert Get(runs', n) == Get(runs, n);
    if n != p {
      assert Get(ch', n) == Get(ch, n);
    }
  }

  /** `left`, child c of `p`, has been split: its entry too. */
  ghost predicate SplitStep<T>(ch: map<Id, seq<Child>>, ch': map<Id, seq<Child>>, runs: map<Id, seq<Run<T>>>,
                               runs': map<Id, seq<Run<T>>>, parent: map<Id, Id>, left: Id, right: Id, p: Id, c: nat)
  {
    && Parented(parent, ch) && Ref(parent, right) == NIL && Ref(parent, NIL) == NIL && NIL !in ch && NIL !in runs
    && Halved(ch, ch', left, right, p) && Halved(runs, runs', left, right, NIL)
    && p in ch && p in ch' && p !in runs && p !in runs' && left != p && right != p
    && left != NIL && right != NIL && left != right
    && c < |ch[p]| && ch[p][c].node == left && Distinct(Nodes(ch[p]))
  }

  lemma {:induction false} SplitMeasured<T>(ch: map<Id, seq<Child>>, ch': map<Id, seq<Child>>,
                                            runs: map<Id, seq<Run<T>>>,
                                            runs': map<Id, seq<Run<T>>>, parent: map<Id, Id>, left: Id, right: Id,
                                              p: Id, c: nat, a: nat, b: nat)
    requires SplitStep(ch, ch', runs, runs', parent, left, right, p, c)
    requires Measured(ch, runs, NIL, 0, NIL, 0)
    requires ch'[p] == SplitEntries(ch[p], c, right, a, b)
    requires a == Len(ch', runs', left) && b == Len(ch', runs', right) && a + b == ch[p][c].length
    ensures Measured(ch', runs', NIL, 0, NIL, 0)
  {
    SplitEntriesNodes(ch[p], c, right, a, b);
    assert ChildTotal(ch'[p]) == ChildTotal(ch[p]);
    forall q, y {:trigger ch'[q][y]} | q in ch' && 0 <= y < |ch'[q]|
      ensures ch'[q][y].length == Len(ch', runs', ch'[q][y].node)
    {
      if q == p && (y == c || y == c + 1) {
      } else {
        hide Total, ChildTotal, Len, Parented;
        var q0, y0 := SplitOrigin(ch, ch', runs, runs', parent, left, right, p, c, a, b, q, y);
        hide Halved, SplitEntries;
        SplitOldEntry(ch, parent, left, right, p, c, q0, y0);
        HalvedLen(ch, ch', runs, runs', left, right, p, ch'[q][y].node);
      }
    }
  }

  /** Every entry but the two of the halves was an entry before. */
  lemma {:induction false} SplitOrigin<T>(ch: map<Id, seq<Child>>, ch': map<Id, seq<Child>>, runs: map<Id, seq<Run<T>>>,
                                          runs': map<Id, seq<Run<T>>>, parent: map<Id, Id>, left: Id, right: Id, p: Id,
                                            c: nat,
                                          a: nat, b: nat, q: Id, y: nat) returns (q0: Id, y0: nat)
    requires SplitStep(ch, ch', runs, runs', parent, left, right, p, c)
    requires ch'[p] == SplitEntries(ch[p], c, right, a, b)
    requires q in ch' && y < |ch'[q]| && !(q == p && (y == c || y == c + 1))
    ensures q0 in ch && y0 < |ch[q0]| && ch[q0][y0] == ch'[q][y] && !(q0 == p && y0 == c)
  {
    if q == p {
      q0, y0 := p, if y > c then y - 1 else y;
    } else if q == right {
      q0, y0 := left, |Get(ch', left)| + y;
      assert Get(ch, left)[y0] == Get(ch', right)[y];
    } else if q == left {
      q0, y0 := left, y;
      assert Get(ch, left)[y] == Get(ch', left)[y];
    } else {
      q0, y0 := q, y;
      assert Get(ch, q) == Get(ch', q);
    }
  }

  /** No entry but child c of `p` stands for `left`, and none for `right`. */
  lemma {:induction false} SplitOldEntry(ch: map<Id, seq<Child>>, parent: map<Id, Id>, left: Id, right: Id, p: Id,
                                         c: nat, q: Id, y: nat)
    requires Parented(parent, ch) && NIL !in ch && Ref(parent, right) == NIL && Ref(parent, NIL) == NIL
    requires p in ch && c < |ch[p]| && ch[p][c].node == left && Distinct(Nodes(ch[p]))
    requires q in ch && y < |ch[q]| && !(q == p && y == c)
    ensures ch[q][y].node != left && ch[q][y].node != right && ch[q][y].node != NIL
  {
    assert Ref(parent, ch[q][y].node) == q && Ref(parent, ch[p][c].node) == p;
    if q == p {
      assert Nodes(ch[p])[y] != Nodes(ch[p])[c];
    }
  }

  /** Fill survives a split whose halves are both large enough. */
  lemma {:induction false} SplitFilled<T>(t: Tree<T>, t': Tree<T>, k: nat, i: nat, right: Id, x: Id)
    requires Ranked(t.levels, t.rank) && k + 1 < |t.levels| && i < |t.levels[k]| && right !in t.rank
    requires t'.levels == t.levels[k := InsertAt(t.levels[k], i + 1, right)]
    requires Full(t, x)
    requires Size(t'.children, t'.runs, t.levels[k][i]) >= MIN_RUNS && Size(t'.children, t'.runs, right) >= MIN_RUNS
    requires forall n {:trigger Size(t'.children, t'.runs, n)} :: n in t.rank && n != t.levels[k][i] ==>
               Size(t.children, t.runs, n) <= Size(t'.children, t'.runs, n)
    ensures Full(t', x)
  {
    hide Size;
    InsertAtLength(t.levels[k], i + 1, right);
    forall l, y {:trigger t'.levels[l][y]} | 0 <= l < |t'.levels| && 0 <= y < |t'.levels[l]| && t'.levels[l][y] != x
      ensures MinSize(t'.levels, l) <= Size(t'.children, t'.runs, t'.levels[l][y])
    {
      if l == k {
        InsertAtIndex(t.levels[k], i + 1, right, y);
        if y != i && y != i + 1 {
          var z := if y <= i then y else y - 1;
          assert t'.levels[l][y] == t.levels[l][z] && t.levels[l][z] != t.levels[l][i];
        }
      } else {
        assert t'.levels[l][y] == t.levels[l][y];
      }
    }
  }

  lemma {:induction false} SplitFits<T>(t: Tree<T>, t': Tree<T>, k: nat, i: nat, right: Id)
    requires Ranked(t.levels, t.rank) && k < |t.levels| && i < |t.levels[k]| && right !in t.rank
    requires t'.levels == t.levels[k := InsertAt(t.levels[k], i + 1, right)]
    requires Fits(t) && Size(t'.children, t'.runs, right) <= MAX_RUNS
    requires forall n {:trigger Size(t'.children, t'.runs, n)} :: n in t.rank ==>
               Size(t'.children, t'.runs, n) <= Size(t.children, t.runs, n) || Size(t'.children, t'.runs, n) <= MAX_RUNS
    ensures Fits(t')
  {
    hide Size;
    forall l, y {:trigger t'.levels[l][y]} | 0 <= l < |t'.levels| && 0 <= y < |t'.levels[l]|
      ensures Size(t'.children, t'.runs, t'.levels[l][y]) <= MAX_RUNS
    {
      if l == k {
        InsertAtIndex(t.levels[k], i + 1, right, y);
        assert y <= i ==> t'.levels[l][y] == t.levels[l][y];
        assert y > i + 1 ==> t'.levels[l][y] == t.levels[l][y - 1];
      } else {
        assert t'.levels[l][y] == t.levels[l][y];
      }
    }
  }

  // ----- splitting a leaf -------------------------------------------------------------

  /** SORTED_ARRAY_SPLIT: the new node gets the last half, rounded down. */
  function Keep<X>(s: seq<X>): (r: seq<X>) {
    s[..|s| - |s| / 2]
  }

  function Tail<X>(s: seq<X>): (r: seq<X>) {
    s[|s| - |s| / 2..]
  }

  ghost function LeafSplit<T>(t: Tree<T>, i: nat, p: Id, c: nat, a: nat, b: nat): Tree<T>
    requires t.levels != [] && i < |t.levels[0]| && c < |Get(t.children, p)|
  {
    var left, right := t.levels[0][i], t.nextId;
    var rs := Get(t.runs, left);
    var t1 := AddSibling(t, 0, i, p, SplitEntries(Get(t.children, p), c, right, a, b));
    t1.(runs := t1.runs[left := Keep(rs)][right := Tail(rs)])
  }

  lemma {:induction false} LeafSplitSound<T>(t: Tree<T>, i: nat, j: nat, c: nat, a: nat, b: nat)
    requires Whole(t) && Hangs(t, 0, i, j, c)
    ensures Whole(LeafSplit(t, i, t.levels[1][j], c, a, b))
  {
    hide Rooted, Ranked, RowRanked, Allocated, AllLinked, Stacked, Parented, InsertAt, Total, AddSibling, SplitEntries,
      Keep, Tail;
    var left, right, p := t.levels[0][i], t.nextId, t.levels[1][j];
    var rs := t.runs[left];
    var entries := SplitEntries(t.children[p], c, right, a, b);
    SplitEntriesNodes(t.children[p], c, right, a, b);
    AddSiblingSound(t, 0, [], 0, i, j, c, entries);
    var t1 := AddSibling(t, 0, i, p, entries);
    SiblingLeaf(t, i, p, entries);
    assert AllPositive(Keep(rs)) && AllPositive(Tail(rs)) by { HalvesPositive(rs); }
    WithRuns(t1, left, Keep(rs));
    WithRuns(t1.(runs := t1.runs[left := Keep(rs)]), right, Tail(rs));
  }

  lemma {:induction false} HalvesPositive<T>(rs: seq<Run<T>>)
    requires AllPositive(rs)
    ensures AllPositive(Keep(rs)) && AllPositive(Tail(rs))
  {}

  lemma {:induction false} SiblingLeaf<T>(t: Tree<T>, i: nat, p: Id, entries: seq<Child>)
    requires 0 < |t.levels| && i < |t.levels[0]| && t.levels[0][i] in t.runs
    ensures var t1 := AddSibling(t, 0, i, p, entries); t.levels[0][i] in t1.runs && t.nextId in t1.runs
  {}

  /** The runs of a leaf may be replaced at will. */
  lemma {:induction false} WithRuns<T>(t: Tree<T>, n: Id, rs: seq<Run<T>>)
    requires Whole(t) && n in t.runs && AllPositive(rs)
    ensures Whole(t.(runs := t.runs[n := rs]))
  {
    hide Rooted, Ranked, AllLinked, Stacked, Parented;
  }

  ghost predicate LeafSplitShape<T>(t: Tree<T>, t': Tree<T>, i: nat, p: Id, c: nat, a: nat, b: nat)
    requires t.levels != [] && i < |t.levels[0]| && c < |Get(t.children, p)|
  {
    var left, right := t.levels[0][i], t.nextId;
    && t'.levels == t.levels[0 := InsertAt(t.levels[0], i + 1, right)]
    && t'.runs == t.runs[left := Keep(Get(t.runs, left))][right := Tail(Get(t.runs, left))]
    && t'.children == t.children[p := SplitEntries(Get(t.children, p), c, right, a, b)]
  }

  lemma {:induction false} LeafSplitParts<T>(t: Tree<T>, i: nat, p: Id, c: nat, a: nat, b: nat)
    requires t.levels != [] && i < |t.levels[0]| && c < |Get(t.children, p)|
    ensures LeafSplitShape(t, LeafSplit(t, i, p, c, a, b), i, p, c, a, b)
  {}

  lemma {:induction false} LeafSplitGather<T>(t: Tree<T>, t': Tree<T>, i: nat, p: Id, c: nat, a: nat, b: nat)
    requires t.levels != [] && i < |t.levels[0]| && c < |Get(t.children, p)|
    requires LeafSplitShape(t, t', i, p, c, a, b) && FreshId(t) && Ranked(t.levels, t.rank)
    ensures Gather(t'.runs, t'.levels[0]) == Gather(t.runs, t.levels[0])
  {
    hide Gather, InsertAt, SplitEntries;
    var left, right := t.levels[0][i], t.nextId;
    var ids := t.levels[0];
    assert forall y :: 0 <= y < |ids| ==> ids[y] in t.rank;
    assert Distinct(ids);
    assert Keep(Get(t.runs, left)) + Tail(Get(t.runs, left)) == Get(t.runs, left);
    GatherSplit(t.runs, t'.runs, ids, i, right);
  }

  lemma {:induction false} LeafSplitExact<T>(t: Tree<T>, t': Tree<T>, i: nat, p: Id, c: nat, a: nat, b: nat)
    requires t.levels != [] && i < |t.levels[0]| && ChildOf(t, 0, t.levels[0][i], p, c) && FreshId(t)
    requires LeafSplitShape(t, t', i, p, c, a, b) && Exact(t) && Parented(t.parent, t.children)
    requires b == Total(Tail(t.runs[t.levels[0][i]])) && a + b == t.children[p][c].length
    ensures Exact(t')
  {
    LeafSplitStep(t, t', i, p, c, a, b);
    var left, right := t.levels[0][i], t.nextId;
    var rs := t.runs[left];
    assert Keep(rs) + Tail(rs) == rs;
    ExpandConcat(Keep(rs), Tail(rs));
    assert t.children[p][c].length == Total(rs);
    hide Total, InsertAt, SplitEntries, Keep, Tail, SplitStep, Distinct;
    SplitMeasured(t.children, t'.children, t.runs, t'.runs, t.parent, left, right, p, c, a, b);
  }

  lemma {:induction false} LeafSplitStep<T>(t: Tree<T>, t': Tree<T>, i: nat, p: Id, c: nat, a: nat, b: nat)
    requires t.levels != [] && i < |t.levels[0]| && ChildOf(t, 0, t.levels[0][i], p, c) && FreshId(t)
    requires LeafSplitShape(t, t', i, p, c, a, b) && Parented(t.parent, t.children)
    ensures SplitStep(t.children, t'.children, t.runs, t'.runs, t.parent, t.levels[0][i], t.nextId, p, c)
  {
    hide InsertAt, SplitEntries, Keep, Tail, Parented, Distinct, Halved;
    LeafRunsHalved(t, t', i, p, c, a, b);
    LeafEntriesHalved(t, t', i, p, c, a, b);
  }

  lemma {:induction false} LeafRunsHalved<T>(t: Tree<T>, t': Tree<T>, i: nat, p: Id, c: nat, a: nat, b: nat)
    requires t.levels != [] && i < |t.levels[0]| && ChildOf(t, 0, t.levels[0][i], p, c) && FreshId(t)
    requires LeafSplitShape(t, t', i, p, c, a, b)
    ensures Halved(t.runs, t'.runs, t.levels[0][i], t.nextId, NIL)
  {
    hide InsertAt, SplitEntries, Keep, Tail, Distinct;
    HalvesMeet(t.runs[t.levels[0][i]]);
  }

  lemma {:induction false} LeafEntriesHalved<T>(t: Tree<T>, t': Tree<T>, i: nat, p: Id, c: nat, a: nat, b: nat)
    requires t.levels != [] && i < |t.levels[0]| && ChildOf(t, 0, t.levels[0][i], p, c) && FreshId(t)
    requires LeafSplitShape(t, t', i, p, c, a, b)
    ensures Halved(t.children, t'.children, t.levels[0][i], t.nextId, p)
  {
    hide InsertAt, SplitEntries, Keep, Tail, Distinct;
  }

  lemma {:induction false} HalvesMeet<X>(s: seq<X>)
    ensures Keep(s) + Tail(s) == s
  {}

  lemma {:induction false} HalvesIndex<X>(s: seq<X>, y: nat)
    requires y < |s|
    ensures |Keep(s)| + |Tail(s)| == |s|
    ensures s[y] == if y < |Keep(s)| then Keep(s)[y] else Tail(s)[y - |Keep(s)|]
  {}

  lemma {:induction false} LeafSplitSizes<T>(t: Tree<T>, t': Tree<T>, i: nat, p: Id, c: nat, a: nat, b: nat, x: Id)
    requires |t.levels| > 1 && i < |t.levels[0]| && ChildOf(t, 0, t.levels[0][i], p, c) && FreshId(t)
    requires LeafSplitShape(t, t', i, p, c, a, b) && Ranked(t.levels, t.rank) && Full(t, x) && Fits(t)
    requires |t.runs[t.levels[0][i]]| >= 2 * MIN_RUNS && |t.children[p]| < MAX_BRANCHES
    ensures Full(t', x) && Fits(t')
  {
    var left, right := t.levels[0][i], t.nextId;
    assert |t'.children[p]| == |t.children[p]| + 1;
    assert Size(t.children, t.runs, left) <= MAX_RUNS;
    hide Filled, WithinCapacity, InsertAt, Ranked, SplitEntries;
    SplitFilled(t, t', 0, i, right, x);
    SplitFits(t, t', 0, i, right);
  }

  // ----- splitting a branch ------------------------------------------------------------

  ghost function BranchSplit<T>(t: Tree<T>, k: nat, i: nat, p: Id, c: nat): Tree<T>
    requires k < |t.levels| && i < |t.levels[k]| && c < |Get(t.children, p)|
  {
    var left, right := t.levels[k][i], t.nextId;
    var es := Get(t.children, left);
    var t1 := AddSibling(t, k, i, p,
      SplitEntries(Get(t.children, p), c, right, ChildTotal(Keep(es)), ChildTotal(Tail(es))));
    Shuffle(t1, left, right, Keep(es), Tail(es), Reparent(t1.parent, Nodes(Tail(es)), right))
  }

  ghost predicate BranchSplitShape<T>(t: Tree<T>, t': Tree<T>, k: nat, i: nat, p: Id, c: nat)
    requires k < |t.levels| && i < |t.levels[k]| && c < |Get(t.children, p)|
  {
    var left, right := t.levels[k][i], t.nextId;
    var es := Get(t.children, left);
    && t'.levels == t.levels[k := InsertAt(t.levels[k], i + 1, right)]
    && t'.runs == t.runs
    && t'.nextId == t.nextId + 1 && t'.rank == t.rank[right := k]
    && t'.children ==
      t.children[p := SplitEntries(Get(t.children, p), c, right, ChildTotal(Keep(es)), ChildTotal(Tail(es)))]
                                [left := Keep(es)][right := Tail(es)]
  }

  lemma {:induction false} BranchSplitParts<T>(t: Tree<T>, k: nat, i: nat, p: Id, c: nat)
    requires 0 < k < |t.levels| && i < |t.levels[k]| && c < |Get(t.children, p)|
    requires ChildOf(t, k, t.levels[k][i], p, c) && FreshId(t)
    ensures BranchSplitShape(t, BranchSplit(t, k, i, p, c), k, i, p, c)
    ensures Ref(BranchSplit(t, k, i, p, c).parent, t.nextId) == p ||
              t.nextId in Nodes(Tail(Get(t.children, t.levels[k][i])))
  {
    hide ChildTotal, SplitEntries, InsertAt;
    var left, right := t.levels[k][i], t.nextId;
    var es := Get(t.children, left);
    assert Nodes(es)[..] == Nodes(es);
    ReparentRef(t.parent[right := p], Nodes(Tail(es)), right, right);
  }

  lemma {:induction false} BranchSplitSound<T>(t: Tree<T>, k: nat, lo: seq<Id>, x: nat, i: nat, j: nat, c: nat)
    requires 0 < k && Sound(t, k, lo) && Hangs(t, k, i, j, c) && x < |lo| && lo[x] == t.levels[k][i]
    ensures Sound(BranchSplit(t, k, i, t.levels[k + 1][j], c), k, InsertAt(lo, x + 1, t.nextId))
  {
    hide Rooted, Ranked, RowRanked, Allocated, AllLinked, Stacked, Parented, RunsPositive, AddSibling, SplitEntries,
      Keep, Tail, ChildTotal;
    var left, right, p := t.levels[k][i], t.nextId, t.levels[k + 1][j];
    var es := t.children[left];
    var entries := SplitEntries(t.children[p], c, right, ChildTotal(Keep(es)), ChildTotal(Tail(es)));
    SplitEntriesNodes(t.children[p], c, right, ChildTotal(Keep(es)), ChildTotal(Tail(es)));
    AddSiblingSound(t, k, lo, x, i, j, c, entries);
    var t1 := AddSibling(t, k, i, p, entries);
    var lo1 := InsertAt(lo, x + 1, right);
    var parent' := Reparent(t1.parent, Nodes(Tail(es)), right);
    BranchSplitShuffles(t, t1, k, lo, x, i, p, c, entries);
    ShuffleSound(t1, k, lo1, x, Keep(es), Tail(es), parent');
  }

  lemma {:induction false} BranchSplitShuffles<T>(t: Tree<T>, t1: Tree<T>, k: nat, lo: seq<Id>, x: nat, i: nat, p: Id,
                                                  c: nat, entries: seq<Child>)
    requires 0 < k && k + 1 < |t.levels| && i < |t.levels[k]| && x < |lo| && lo[x] == t.levels[k][i]
    requires ChildOf(t, k, t.levels[k][i], p, c) && Sound(t, k, lo)
    requires t1 == AddSibling(t, k, i, p, entries)
    ensures var es := t.children[t.levels[k][i]];
            var parent' := Reparent(t1.parent, Nodes(Tail(es)), t.nextId);
            var lo1 := InsertAt(lo, x + 1, t.nextId);
            && lo1[x] == t.levels[k][i] && lo1[x + 1] == t.nextId
            && Shuffles(t1, k, lo1, x, Keep(es), Tail(es), parent')
  {
    IdIsFresh(t, k, lo);
    var left, right := t.levels[k][i], t.nextId;
    var es := t.children[left];
    var lo1 := InsertAt(lo, x + 1, right);
    var parent' := Reparent(t1.parent, Nodes(Tail(es)), right);
    SplitOwners(t, k, lo, left);
    hide Rooted, Ranked, RowRanked, AllLinked, Stacked, RunsPositive, Kinds;
    assert t1.children[left] == es && t1.children[right] == [] && t1.nextId == t.nextId + 1;
    assert t1.parent == t.parent[right := p];
    assert es == Keep(es) + Tail(es);
    NodesConcat(Keep(es), Tail(es));
    forall n: Id
      ensures Ref(parent', n) ==
                if n in Nodes(Keep(es)) then left else if n in Nodes(Tail(es)) then right else Ref(t1.parent, n)
      ensures n in parent' ==> NIL < n < t1.nextId
    {
      ReparentRef(t1.parent, Nodes(Tail(es)), right, n);
      if n in Nodes(Keep(es)) || n in Nodes(Tail(es)) {
        assert n in Nodes(es);
      }
    }
  }

  /** The children of one branch: each points to it and occurs once. */
  lemma {:induction false} SplitOwners<T>(t: Tree<T>, k: nat, lo: seq<Id>, left: Id)
    requires 0 < k < |t.levels| && Sound(t, k, lo) && left in lo && left in t.children
    ensures forall n :: n in Nodes(t.children[left]) ==> Ref(t.parent, n) == left && n in t.parent
    ensures var es := t.children[left]; forall n :: n in Nodes(Keep(es)) ==> n !in Nodes(Tail(es))
  {
    hide Rooted, AllLinked, Covers, RunsPositive, Kinds;
    var es := t.children[left];
    var x :| 0 <= x < |lo| && lo[x] == left;
    assert Row(t.levels, k, lo, k) == lo;
    EntriesDistinct(t.children, lo, t.levels[k - 1], x);
    forall n | n in Nodes(es)
      ensures Ref(t.parent, n) == left && n in t.parent
    {
      var y :| 0 <= y < |es| && Nodes(es)[y] == n;
      assert t.children[left][y].node == n;
    }
    var m := |es| - |es| / 2;
    assert forall y :: 0 <= y < |Keep(es)| ==> Nodes(Keep(es))[y] == Nodes(es)[y];
    assert forall y :: 0 <= y < |Tail(es)| ==> Nodes(Tail(es))[y] == Nodes(es)[m + y];
  }

  lemma {:induction false} BranchSplitExact<T>(t: Tree<T>, t': Tree<T>, k: nat, i: nat, p: Id, c: nat)
    requires 0 < k < |t.levels| && i < |t.levels[k]| && ChildOf(t, k, t.levels[k][i], p, c) && FreshId(t)
    requires BranchSplitShape(t, t', k, i, p, c) && Exact(t) && Parented(t.parent, t.children)
    ensures Exact(t')
  {
    BranchSplitStep(t, t', k, i, p, c);
    var left, right := t.levels[k][i], t.nextId;
    var es := t.children[left];
    HalvesMeet(es);
    ChildTotalConcat(Keep(es), Tail(es));
    var a, b := ChildTotal(Keep(es)), ChildTotal(Tail(es));
    assert t.children[p][c].length == a + b;
    hide ChildTotal, InsertAt, SplitEntries, Keep, Tail, SplitStep, Distinct;
    SplitMeasured(t.children, t'.children, t.runs, t'.runs, t.parent, left, right, p, c, a, b);
  }

  lemma {:induction false} BranchSplitStep<T>(t: Tree<T>, t': Tree<T>, k: nat, i: nat, p: Id, c: nat)
    requires 0 < k < |t.levels| && i < |t.levels[k]| && ChildOf(t, k, t.levels[k][i], p, c) && FreshId(t)
    requires BranchSplitShape(t, t', k, i, p, c) && Parented(t.parent, t.children)
    ensures SplitStep(t.children, t'.children, t.runs, t'.runs, t.parent, t.levels[k][i], t.nextId, p, c)
  {
    hide InsertAt, SplitEntries, Keep, Tail, Parented, Distinct, ChildTotal;
    HalvesMeet(t.children[t.levels[k][i]]);
  }

  lemma {:induction false} BranchSplitSizes<T>(t: Tree<T>, t': Tree<T>, k: nat, i: nat, p: Id, c: nat, x: Id)
    requires 0 < k && k + 1 < |t.levels| && i < |t.levels[k]| && ChildOf(t, k, t.levels[k][i], p, c) && FreshId(t)
    requires BranchSplitShape(t, t', k, i, p, c) && Ranked(t.levels, t.rank) && Full(t, x) && Fits(t)
    requires |t.children[t.levels[k][i]]| >= 2 * MIN_BRANCHES && |t.children[p]| < MAX_BRANCHES
    ensures Full(t', x) && Fits(t')
  {
    var left, right := t.levels[k][i], t.nextId;
    assert |t'.children[p]| == |t.children[p]| + 1;
    assert Size(t.children, t.runs, left) <= MAX_RUNS;
    hide Filled, WithinCapacity, InsertAt, Ranked, SplitEntries, ChildTotal;
    SplitFilled(t, t', k, i, right, x);
    SplitFits(t, t', k, i, right);
  }

  // ----- the root grows and shrinks the tree ---------------------------------------------

  /** The halves under the root, and the former children of the root under them. */
  ghost function RootParents(parent: map<Id, Id>, l: seq<Id>, r: seq<Id>, left: Id, right: Id): map<Id, Id> {
    Reparent(Reparent(parent[left := ROOT][right := ROOT], l, left), r, right)
  }

  lemma {:induction false} RootParentsRef(parent: map<Id, Id>, l: seq<Id>, r: seq<Id>, left: Id, right: Id, n: Id)
    ensures Ref(RootParents(parent, l, r, left, right), n)
         == if n in r then right else if n in l then left else if n == left || n == right then ROOT else Ref(parent, n)
    ensures n in RootParents(parent, l, r, left, right) ==> n in r || n in l || n == left || n == right || n in parent
  {
    hide Reparent;
    var parent0 := parent[left := ROOT][right := ROOT];
    ReparentRef(Reparent(parent0, l, left), r, right, n);
    ReparentRef(parent0, l, left, n);
  }

  /** The entries of the root for its two halves. */
  ghost function RootEntries(es: seq<Child>, left: Id, right: Id): (r: seq<Child>)
    ensures |r| == 2 && Nodes(r) == [left, right]
  {
    [Child(left, ChildTotal(Keep(es))), Child(right, ChildTotal(Tail(es)))]
  }

  ghost function RootSplit<T>(t: Tree<T>): Tree<T>
    requires t.levels != []
  {
    var top := |t.levels| - 1;
    var es := Get(t.children, ROOT);
    var left, right := t.nextId, t.nextId + 1;
    Tree(RootParents(t.parent, Nodes(Keep(es)), Nodes(Tail(es)), left, right),
         t.prev[left := NIL][right := left],
         t.next[left := right][right := NIL],
         t.runs,
         t.children[left := Keep(es)][right := Tail(es)][ROOT := RootEntries(es, left, right)],
         t.nextId + 2,
         t.levels[..top] + [[left, right], [ROOT]],
         t.rank[left := top][right := top][ROOT := top + 1])
  }

  ghost predicate RootedAt<T>(t: Tree<T>, top: nat) {
    && |t.levels| == top + 1 && top >= 1
    && t.levels[top] == [ROOT] && ROOT in t.children && ROOT !in t.runs
    && t.rank.Keys >= {ROOT} && t.rank[ROOT] == top
  }

  ghost predicate RootSplitShape<T>(t: Tree<T>, t': Tree<T>) {
    var top := |t.levels| - 1;
    var es := Get(t.children, ROOT);
    var left, right := t.nextId, t.nextId + 1;
    && t.levels != [] && RootedAt(t, |t.levels| - 1) && |t'.levels| == top + 2
    && (forall l {:trigger t'.levels[l]} :: 0 <= l < top ==> t'.levels[l] == t.levels[l])
    && t'.levels[top] == [left, right] && t'.levels[top + 1] == [ROOT]
    && t'.parent == RootParents(t.parent, Nodes(Keep(es)), Nodes(Tail(es)), left, right)
    && t'.prev == t.prev[left := NIL][right := left]
    && t'.next == t.next[left := right][right := NIL]
    && t'.runs == t.runs
    && t'.children == t.children[left := Keep(es)][right := Tail(es)][ROOT := RootEntries(es, left, right)]
    && t'.nextId == t.nextId + 2
    && t'.rank == t.rank[left := top][right := top][ROOT := top + 1]
  }

  lemma {:induction false} RootSplitParts<T>(t: Tree<T>)
    requires t.levels != [] && RootedAt(t, |t.levels| - 1)
    ensures RootSplitShape(t, RootSplit(t))
  {
    hide RootParents, Keep, Tail, RootEntries;
  }

  lemma {:induction false} RootPlace<T>(t: Tree<T>, k: nat, lo: seq<Id>)
    requires Sound(t, k, lo)
    ensures RootedAt(t, |t.levels| - 1)
  {
    hide AllLinked, Stacked, Parented, RunsPositive;
    var top := |t.levels| - 1;
    assert t.levels[top][0] == ROOT;
    assert Kind(top, t.levels[top][0], t.runs, t.children);
  }

  lemma {:induction false} LowerNotRoot<T>(t: Tree<T>, l: nat, y: nat)
    requires l + 1 < |t.levels| && Ranked(t.levels, t.rank) && RootedAt(t, |t.levels| - 1) && y < |t.levels[l]|
    ensures t.levels[l][y] != ROOT && t.levels[l][y] in t.rank && t.rank[t.levels[l][y]] == l
  {}

  lemma {:induction false} RootSplitStacked<T>(t: Tree<T>, t': Tree<T>)
    requires Whole(t) && RootSplitShape(t, t') && FreshId(t)
    ensures Stacked(t'.children, t'.levels, 0, [])
  {
    hide AllLinked, Covers, Parented, RunsPositive, Kinds, RootParents, ChildTotal, Keep, Tail, Gather, Rooted,
      Allocated, Ranked, RootEntries;
    var top := |t.levels| - 1;
    forall l | 1 <= l < |t'.levels|
      ensures Covers(t'.children, Row(t'.levels, 0, [], l), t'.levels[l - 1])
    {
      assert Row(t'.levels, 0, [], l) == t'.levels[l];
      if l < top {
        RootSplitLower(t, t', l);
      } else if l == top {
        assert Covers(t.children, Row(t.levels, 0, [], top), t.levels[top - 1]);
        RootSplitRow(t.children, t'.children, t.levels[top - 1], t.nextId, t.nextId + 1);
      } else {
        RootCovers(t'.children, [t.nextId, t.nextId + 1]);
      }
    }
  }

  lemma {:induction false} RootSplitLower<T>(t: Tree<T>, t': Tree<T>, l: nat)
    requires Whole(t) && RootSplitShape(t, t') && FreshId(t) && 1 <= l && l + 1 < |t.levels|
    ensures Covers(t'.children, t'.levels[l], t'.levels[l - 1])
  {
    hide AllLinked, Covers, Parented, RunsPositive, Kinds, RootParents, RootEntries, Keep, Tail, Gather, Rooted;
    var up := t.levels[l];
    assert Covers(t.children, Row(t.levels, 0, [], l), t.levels[l - 1]);
    assert forall y :: 0 <= y < |up| ==> up[y] in t.rank && t.rank[up[y]] == l;
    assert t.nextId + 1 !in t.rank;
    CoversFrame(t.children, t'.children, up, t.levels[l - 1]);
  }

  lemma {:induction false} RootSplitRow(ch: map<Id, seq<Child>>, ch': map<Id, seq<Child>>, low: seq<Id>, left: Id,
                                        right: Id)
    requires Covers(ch, [ROOT], low)
    requires Get(ch', left) == Keep(Get(ch, ROOT)) && Get(ch', right) == Tail(Get(ch, ROOT))
    ensures Covers(ch', [left, right], low)
  {
    hide Gather, Keep, Tail;
    GatherOne(ch, ROOT);
    var ids := [left, right];
    GatherPair(ch', ids, 0);
    assert ids[..0] == [] && ids[2..] == [];
    GatherNone(ch');
    HalvesMeet(Get(ch, ROOT));
  }

  lemma {:induction false} RootCovers(ch: map<Id, seq<Child>>, ids: seq<Id>)
    requires Nodes(Get(ch, ROOT)) == ids
    ensures Covers(ch, [ROOT], ids)
  {
    GatherOne(ch, ROOT);
  }

  /** The children of the root point to it, and none lies in both halves. */
  ghost predicate RootHalves(parent: map<Id, Id>, ch: map<Id, seq<Child>>, left: Id, right: Id) {
    && ROOT in ch && ROOT != left && ROOT != right && Ref(parent, ROOT) == NIL && left !in ch && right !in ch
    && left !in parent && right !in parent && left != right && NIL !in ch
    && Parented(parent, ch)
    && (forall n :: n in Nodes(Keep(ch[ROOT])) || n in Nodes(Tail(ch[ROOT])) ==> Ref(parent, n) == ROOT && n in parent)
    && (forall n :: n in Nodes(Keep(ch[ROOT])) ==> n !in Nodes(Tail(ch[ROOT])))
  }

  lemma {:induction false} RootOwners<T>(t: Tree<T>)
    requires Whole(t) && RootedAt(t, |t.levels| - 1) && FreshId(t)
    ensures RootHalves(t.parent, t.children, t.nextId, t.nextId + 1)
  {
    var top := |t.levels| - 1;
    WholeAt(t, top);
    SplitOwners(t, top, t.levels[top], ROOT);
    assert t.nextId + 1 !in t.children && t.nextId + 1 !in t.parent && ROOT < t.nextId;
    hide Ranked, Kinds, Allocated, AllLinked, Stacked, Parented, RunsPositive;
    var es := t.children[ROOT];
    HalvesMeet(es);
    NodesConcat(Keep(es), Tail(es));
    hide Keep, Tail;
    assert forall n :: n in Nodes(Keep(es)) || n in Nodes(Tail(es)) ==> n in Nodes(es);
  }

  lemma {:induction false} RootHalvesParented(parent: map<Id, Id>, ch: map<Id, seq<Child>>, ch': map<Id, seq<Child>>,
                                              left: Id, right: Id)
    requires ROOT in ch && RootHalves(parent, ch, left, right)
    requires ch' == ch[left := Keep(ch[ROOT])][right := Tail(ch[ROOT])][ROOT := RootEntries(ch[ROOT], left, right)]
    ensures Parented(RootParents(parent, Nodes(Keep(ch[ROOT])), Nodes(Tail(ch[ROOT])), left, right), ch')
  {
    hide RootHalves, RootParents, Ref, Keep, Tail, RootEntries;
    forall q, y {:trigger ch'[q][y]} | q in ch' && 0 <= y < |ch'[q]|
      ensures Ref(RootParents(parent, Nodes(Keep(ch[ROOT])), Nodes(Tail(ch[ROOT])), left, right), ch'[q][y].node) == q
    {
      RootParentsRef(parent, Nodes(Keep(ch[ROOT])), Nodes(Tail(ch[ROOT])), left, right, ch'[q][y].node);
      RootSplitOwner(parent, ch, ch', left, right, q, y);
    }
  }

  lemma {:induction false} RootHalvesAllocated<T>(t: Tree<T>, t': Tree<T>)
    requires Rooted(t.levels, t.parent) && Allocated(t.rank, t.nextId, t.parent, t.runs, t.children)
    requires RootSplitShape(t, t') && RootHalves(t.parent, t.children, t.nextId, t.nextId + 1)
    ensures Rooted(t'.levels, t'.parent)
    ensures Allocated(t'.rank, t'.nextId, t'.parent, t'.runs, t'.children)
  {
    hide AllLinked, Covers, RunsPositive, Kinds, Stacked, Ranked, RootEntries, RootParents, Keep, Tail, Parented;
    var es := t.children[ROOT];
    RootNotMoved(t.parent, t.children, t.nextId, t.nextId + 1);
    assert forall x :: 0 <= x < |t.levels| - 1 ==> t'.levels[x] != [];
    forall n: Id
      ensures n in t'.parent ==> NIL < n < t'.nextId
    {
      RootParentsRef(t.parent, Nodes(Keep(es)), Nodes(Tail(es)), t.nextId, t.nextId + 1, n);
    }
  }

  lemma {:induction false} RootNotMoved(parent: map<Id, Id>, ch: map<Id, seq<Child>>, left: Id, right: Id)
    requires ROOT in ch && RootHalves(parent, ch, left, right)
    ensures Ref(RootParents(parent, Nodes(Keep(ch[ROOT])), Nodes(Tail(ch[ROOT])), left, right), ROOT) == NIL
  {
    hide RootParents, Keep, Tail, Parented;
    RootParentsRef(parent, Nodes(Keep(ch[ROOT])), Nodes(Tail(ch[ROOT])), left, right, ROOT);
  }

  lemma {:induction false} RootSplitOwner(parent: map<Id, Id>, ch: map<Id, seq<Child>>, ch': map<Id, seq<Child>>,
                                          left: Id, right: Id, q: Id, y: nat)
    requires ROOT in ch && RootHalves(parent, ch, left, right)
    requires ch' == ch[left := Keep(ch[ROOT])][right := Tail(ch[ROOT])][ROOT := RootEntries(ch[ROOT], left, right)]
    requires q in ch' && y < |ch'[q]|
    ensures var es := ch[ROOT];
            var n := ch'[q][y].node;
            q == if n in Nodes(Tail(es)) then right else if n in Nodes(Keep(es)) then left
                 else if n == left || n == right then ROOT else Ref(parent, n)
  {
    hide Keep, Tail, ChildTotal;
    var es := ch[ROOT];
    var n := ch'[q][y].node;
    if q == left {
      assert n == Nodes(Keep(es))[y];
    } else if q == right {
      assert n == Nodes(Tail(es))[y];
    } else if q == ROOT {
      assert n == left || n == right;
    } else {
      assert Ref(parent, ch[q][y].node) == q;
    }
  }

  lemma {:induction false} RootSplitRanked<T>(t: Tree<T>, t': Tree<T>)
    requires Whole(t) && RootSplitShape(t, t') && FreshId(t)
    ensures Ranked(t'.levels, t'.rank)
    ensures Kinds(t'.levels, t'.runs, t'.children)
  {
    hide Covers, Stacked, Parented, RootEntries, RootParents, Keep, Tail, Rooted, AllLinked;
    var top := |t.levels| - 1;
    assert t.nextId + 1 !in t.rank && t.nextId + 1 !in t.runs;
    forall l, y {:trigger t'.levels[l][y]} | 0 <= l < |t'.levels| && 0 <= y < |t'.levels[l]|
      ensures t'.levels[l][y] in t'.rank && t'.rank[t'.levels[l][y]] == l
      ensures Kind(l, t'.levels[l][y], t'.runs, t'.children)
    {
      if l < top {
        LowerNotRoot(t, l, y);
        assert Kind(l, t.levels[l][y], t.runs, t.children);
      }
    }
  }

  lemma {:induction false} RootSplitLinked<T>(t: Tree<T>, t': Tree<T>)
    requires Whole(t) && RootSplitShape(t, t') && FreshId(t)
    ensures AllLinked(t'.prev, t'.next, t'.levels)
  {
    hide Covers, Stacked, Parented, RootEntries, RootParents, Keep, Tail, Rooted, Kinds;
    var top := |t.levels| - 1;
    assert t.nextId + 1 !in t.rank;
    assert Linked(t.prev, t.next, t.levels[top]);
    assert t.levels[top][0] == ROOT;
    assert Ref(t.prev, t.levels[top][0]) == NIL && Ref(t.next, t.levels[top][0]) == NIL;
    forall l | 0 <= l < top
      ensures Linked(t'.prev, t'.next, t'.levels[l])
    {
      var ids := t.levels[l];
      assert Linked(t.prev, t.next, ids);
      assert forall y :: 0 <= y < |ids| ==> ids[y] in t.rank;
      LinkedFrame(t.prev, t.next, t'.prev, t'.next, ids);
    }
  }

  lemma {:induction false} LinkedFrame(prev: map<Id, Id>, next: map<Id, Id>, prev': map<Id, Id>, next': map<Id, Id>,
                                       ids: seq<Id>)
    requires Linked(prev, next, ids)
    requires forall y {:trigger ids[y]} :: 0 <= y < |ids| ==>
               Ref(prev', ids[y]) == Ref(prev, ids[y]) && Ref(next', ids[y]) == Ref(next, ids[y])
    ensures Linked(prev', next', ids)
  {}

  lemma {:induction false} RootSplitSound<T>(t: Tree<T>)
    requires Whole(t)
    ensures Whole(RootSplit(t)) && RootSplitShape(t, RootSplit(t))
  {
    hide Rooted, Ranked, Kinds, Allocated, AllLinked, Stacked, Parented, RunsPositive, RootParents, FreshId, RootHalves;
    RootPlace(t, 0, []);
    IdIsFresh(t, 0, []);
    RootSplitParts(t);
    var t' := RootSplit(t);
    RootSplitStacked(t, t');
    RootOwners(t);
    RootHalvesParented(t.parent, t.children, t'.children, t.nextId, t.nextId + 1);
    RootHalvesAllocated(t, t');
    RootSplitRanked(t, t');
    RootSplitLinked(t, t');
  }

  lemma {:induction false} RootSplitExact<T>(t: Tree<T>, t': Tree<T>)
    requires Whole(t) && Exact(t) && RootSplitShape(t, t')
    ensures Exact(t')
  {
    hide Ranked, Kinds, Allocated, AllLinked, Stacked, Parented, RunsPositive, Rooted, RootParents, Keep, Tail,
      RootEntries, Measured;
    IdIsFresh(t, 0, []);
    RootOwners(t);
    assert t.nextId !in t.runs && t.nextId + 1 !in t.runs;
    hide Sound, Len, RootHalves, FreshId;
    RootHalvesMeasured(t.parent, t.children, t'.children, t.runs, t.nextId, t.nextId + 1);
  }

  /** The halves of the root have the lengths of its new entries, the rest their own. */
  lemma {:induction false} RootHalvesLen<T>(ch: map<Id, seq<Child>>, ch': map<Id, seq<Child>>,
                                            runs: map<Id, seq<Run<T>>>, left: Id, right: Id)
    requires ROOT in ch && left !in runs && right !in runs && left != right && ROOT != left && ROOT != right
    requires ch' == ch[left := Keep(ch[ROOT])][right := Tail(ch[ROOT])][ROOT := RootEntries(ch[ROOT], left, right)]
    ensures forall q: Id {:trigger Len(ch', runs, q)} :: q != ROOT && q != left && q != right ==>
              Len(ch', runs, q) == Len(ch, runs, q)
    ensures Len(ch', runs, left) == ChildTotal(Keep(ch[ROOT])) && Len(ch', runs, right) == ChildTotal(Tail(ch[ROOT]))
  {
    hide Total, ChildTotal, Keep, Tail, RootEntries;
  }

  lemma {:induction false} RootHalvesMeasured<T>(parent: map<Id, Id>, ch: map<Id, seq<Child>>, ch': map<Id, seq<Child>>,
                                                 runs: map<Id, seq<Run<T>>>, left: Id, right: Id)
    requires ROOT in ch && RootHalves(parent, ch, left, right) && left !in runs && right !in runs
    requires ch' == ch[left := Keep(ch[ROOT])][right := Tail(ch[ROOT])][ROOT := RootEntries(ch[ROOT], left, right)]
    requires Measured(ch, runs, NIL, 0, NIL, 0)
    ensures Measured(ch', runs, NIL, 0, NIL, 0)
  {
    hide Len, ChildTotal, Keep, Tail;
    RootHalvesLen(ch, ch', runs, left, right);
    var es := ch[ROOT];
    forall q, y {:trigger ch'[q][y]} | q in ch' && 0 <= y < |ch'[q]|
      ensures ch'[q][y].length == Len(ch', runs, ch'[q][y].node)
    {
      if q == ROOT {
        assert ch'[q] == RootEntries(es, left, right);
      } else {
        hide RootEntries;
        var q0 := if q == left || q == right then ROOT else q;
        var y0 := if q == right then |Keep(es)| + y else y;
        HalvesMeet(es);
        assert q0 in ch && y0 < |ch[q0]| && ch[q0][y0] == ch'[q][y];
        assert Ref(parent, ch[q0][y0].node) == q0;
      }
    }
  }

  lemma {:induction false} RootSplitSizes<T>(t: Tree<T>, t': Tree<T>, x: Id)
    requires Whole(t) && Full(t, x) && Fits(t) && RootSplitShape(t, t') && FreshId(t)
    requires |t.children[ROOT]| >= 2 * MIN_BRANCHES
    ensures Full(t', x) && Fits(t')
  {
    hide AllLinked, Stacked, Parented, RunsPositive, RootParents, RootEntries, Rooted, Kinds;
    var top := |t.levels| - 1;
    assert Size(t.children, t.runs, t.levels[top][0]) <= MAX_RUNS;
    assert t.nextId + 1 !in t.runs;
    forall l, y {:trigger t'.levels[l][y]} | 0 <= l < |t'.levels| && 0 <= y < |t'.levels[l]|
      ensures t'.levels[l][y] != x ==> MinSize(t'.levels, l) <= Size(t'.children, t'.runs, t'.levels[l][y])
      ensures Size(t'.children, t'.runs, t'.levels[l][y]) <= MAX_RUNS
    {
      if l < top {
        LowerNotRoot(t, l, y);
        assert t'.levels[l] == t.levels[l];
      }
    }
  }

  /** The only branch below the root gives its only child to the root. */
  ghost function Collapse<T>(t: Tree<T>, node: Id, d: Id, length: nat): Tree<T>
    requires |t.levels| >= 2
  {
    var top := |t.levels| - 1;
    t.(parent := t.parent[d := ROOT],
       children := t.children[ROOT := [Child(d, length)]][node := []],
       levels := t.levels[..top - 1] + [[ROOT]],
       rank := t.rank[ROOT := top - 1])
  }

  /** The two top branches have one child each. */
  ghost predicate Spindly<T>(t: Tree<T>, node: Id, d: Id, length: nat) {
    var top := |t.levels| - 1;
    && top >= 2 && RootedAt(t, top)
    && t.levels[top - 1] == [node] && node in t.children && node != ROOT && d != ROOT && d != NIL && node !in t.runs
    && t.children[ROOT] == [Child(node, length)]
    && |t.children[node]| == 1 && t.children[node][0].node == d
    && t.levels[top - 2] == [d] && d != node && d in t.parent
  }

  lemma {:induction false} SpindlyBelow<T>(t: Tree<T>, node: Id, length: nat)
    requires Whole(t) && |t.levels| > 2 && t.levels[|t.levels| - 2] == [node]
    requires node in t.children && |t.children[node]| == 1 && Get(t.children, ROOT) == [Child(node, length)]
    ensures Spindly(t, node, t.children[node][0].node, length)
  {
    RootPlace(t, 0, []);
    var top := |t.levels| - 1;
    assert Kind(top - 1, t.levels[top - 1][0], t.runs, t.children);
    hide AllLinked, RunsPositive, Kinds, Gather;
    var d := t.children[node][0].node;
    assert Covers(t.children, Row(t.levels, 0, [], top - 1), t.levels[top - 2]);
    GatherOne(t.children, node);
    assert t.levels[top - 2] == [d];
    LowerNotRoot(t, top - 1, 0);
    LowerNotRoot(t, top - 2, 0);
    assert t.rank[t.levels[top - 2][0]] == top - 2;
    assert Ref(t.parent, t.children[node][0].node) == node;
  }

  lemma {:induction false} CollapseStacked<T>(t: Tree<T>, node: Id, d: Id, length: nat)
    requires Whole(t) && Spindly(t, node, d, length)
    ensures var t' := Collapse(t, node, d, length); Stacked(t'.children, t'.levels, 0, [])
  {
    hide AllLinked, Covers, Parented, RunsPositive, Kinds, Gather, Rooted, Allocated;
    var t' := Collapse(t, node, d, length);
    var top := |t.levels| - 1;
    assert t.rank[t.levels[top - 1][0]] == top - 1;
    forall l | 1 <= l < |t'.levels|
      ensures Covers(t'.children, Row(t'.levels, 0, [], l), t'.levels[l - 1])
    {
      if l < top - 1 {
        var up := t.levels[l];
        assert Covers(t.children, Row(t.levels, 0, [], l), t.levels[l - 1]);
        assert forall y :: 0 <= y < |up| ==> up[y] in t.rank && t.rank[up[y]] == l;
        CoversFrame(t.children, t'.children, up, t.levels[l - 1]);
      } else {
        RootCovers(t'.children, [d]);
      }
    }
  }

  lemma {:induction false} CollapseRest<T>(t: Tree<T>, node: Id, d: Id, length: nat)
    requires Whole(t) && Spindly(t, node, d, length)
    ensures var t' := Collapse(t, node, d, length);
            && Ranked(t'.levels, t'.rank)
            && Kinds(t'.levels, t'.runs, t'.children)
            && AllLinked(t'.prev, t'.next, t'.levels)
  {
    hide Covers, Parented, Stacked, RunsPositive, Rooted;
    var t' := Collapse(t, node, d, length);
    var top := |t.levels| - 1;
    assert t'.levels[top - 1] == [ROOT];
    forall l, y {:trigger t'.levels[l][y]} | 0 <= l < |t'.levels| && 0 <= y < |t'.levels[l]|
      ensures t'.levels[l][y] in t'.rank && t'.rank[t'.levels[l][y]] == l
      ensures Kind(l, t'.levels[l][y], t'.runs, t'.children)
    {
      if l < top - 1 {
        LowerNotRoot(t, l, y);
        assert t.rank[t.levels[top - 1][0]] == top - 1;
        assert Kind(l, t.levels[l][y], t.runs, t.children);
      }
    }
    assert Linked(t.prev, t.next, t.levels[top]);
    forall l | 0 <= l < top - 1
      ensures Linked(t'.prev, t'.next, t'.levels[l]) && Distinct(t'.levels[l])
    {
      assert Linked(t.prev, t.next, t.levels[l]);
    }
  }

  lemma {:induction false} CollapseSound<T>(t: Tree<T>, node: Id, d: Id, length: nat)
    requires Whole(t) && Spindly(t, node, d, length)
    ensures Whole(Collapse(t, node, d, length))
  {
    CollapseStacked(t, node, d, length);
    CollapseRest(t, node, d, length);
    hide Ranked, Kinds, AllLinked, Stacked;
    var t' := Collapse(t, node, d, length);
    assert t.children[node][0].node == d;
    assert forall l :: 0 <= l < |t'.levels| ==> t'.levels[l] != [];
  }

  lemma {:induction false} CollapseExact<T>(t: Tree<T>, node: Id, d: Id, length: nat)
    requires Whole(t) && Exact(t) && Spindly(t, node, d, length)
    ensures Exact(Collapse(t, node, d, length))
  {
    IdIsFresh(t, 0, []);
    hide Ranked, Kinds, AllLinked, Stacked, Allocated, RunsPositive;
    var t' := Collapse(t, node, d, length);
    assert t.children[ROOT][0].node == node && t.children[node][0].node == d;
    assert ChildTotal(t.children[node]) == t.children[node][0].length + ChildTotal(t.children[node][1..]);
    assert Len(t.children, t.runs, node) == length;
    assert Len(t.children, t.runs, d) == length;
    hide Total, ChildTotal;
    forall q, y {:trigger t'.children[q][y]} | q in t'.children && 0 <= y < |t'.children[q]|
      ensures t'.children[q][y].length == Len(t'.children, t'.runs, t'.children[q][y].node)
    {
      if q != ROOT {
        assert t'.children[q][y] == t.children[q][y];
        assert Ref(t.parent, t.children[q][y].node) == q;
        assert Ref(t.parent, ROOT) == NIL && Ref(t.parent, node) == ROOT;
      }
    }
  }

  lemma {:induction false} CollapseSizes<T>(t: Tree<T>, node: Id, d: Id, length: nat)
    requires Whole(t) && Full(t, node) && Fits(t) && Spindly(t, node, d, length)
    ensures Full(Collapse(t, node, d, length), NIL) && Fits(Collapse(t, node, d, length))
  {
    hide AllLinked, Stacked, Parented, RunsPositive, Rooted;
    var t' := Collapse(t, node, d, length);
    var top := |t.levels| - 1;
    assert t'.levels[top - 1] == [ROOT];
    forall l, y {:trigger t'.levels[l][y]} | 0 <= l < |t'.levels| && 0 <= y < |t'.levels[l]|
      ensures MinSize(t'.levels, l) <= Size(t'.children, t'.runs, t'.levels[l][y])
      ensures Size(t'.children, t'.runs, t'.levels[l][y]) <= MAX_RUNS
    {
      if l < top - 1 {
        LowerNotRoot(t, l, y);
        assert t.rank[t.levels[top - 1][0]] == top - 1;
        assert MinSize(t.levels, l) <= Size(t.children, t.runs, t.levels[l][y]);
      }
    }
  }

  // ----- lengths and sizes when a node is dissolved --------------------------------------

  ghost predicate NoEntry(ch: map<Id, seq<Child>>, n: Id) {
    forall q, y {:trigger ch[q][y]} :: q in ch && 0 <= y < |ch[q]| ==> ch[q][y].node != n
  }

  /** Once its entry has been brought down to zero it can be dropped. */
  /** Taking an empty entry off a node changes no length. */
  lemma {:induction false} DetachLen<T>(ch: map<Id, seq<Child>>, ch': map<Id, seq<Child>>, runs: map<Id, seq<Run<T>>>,
                                        p: Id, c: nat)
    requires p in ch && c < |ch[p]| && ch[p][c].length == 0 && ch' == ch[p := RemoveAt(ch[p], c)]
    ensures forall q: Id {:trigger Len(ch', runs, q)} :: Len(ch', runs, q) == Len(ch, runs, q)
  {
    hide Total;
    ChildTotalAt(ch[p], c);
    ChildTotalConcat(ch[p][..c], ch[p][c + 1..]);
    assert ChildTotal(ch'[p]) == ChildTotal(ch[p]);
  }

  lemma {:induction false} DetachMeasured<T>(ch: map<Id, seq<Child>>, ch': map<Id, seq<Child>>,
                                             runs: map<Id, seq<Run<T>>>,
                                             parent: map<Id, Id>, p: Id, c: nat, n: Id, e: int)
    requires Parented(parent, ch) && p in ch && p !in runs && c < |ch[p]| && ch[p][c].node == n
    requires Distinct(Nodes(ch[p]))
    requires Measured(ch, runs, NIL, 0, n, e) && ch[p][c].length == 0
    requires Ref(parent, NIL) == NIL && NIL !in ch
    requires ch' == ch[p := RemoveAt(ch[p], c)]
    ensures Measured(ch', runs, NIL, 0, NIL, 0) && NoEntry(ch', n)
  {
    hide Len;
    DetachLen(ch, ch', runs, p, c);
    forall q, y {:trigger ch'[q][y]} | q in ch' && 0 <= y < |ch'[q]|
      ensures ch'[q][y].length == Len(ch', runs, ch'[q][y].node) && ch'[q][y].node != n
    {
      var y0 := if q == p && y >= c then y + 1 else y;
      assert ch'[q][y] == ch[q][y0];
      assert Ref(parent, ch[q][y0].node) == q && Ref(parent, ch[p][c].node) == p;
      assert q == p ==> Nodes(ch[p])[y0] != Nodes(ch[p])[c];
    }
  }

  lemma {:induction false} DetachSizes<T>(t: Tree<T>, t': Tree<T>, k: nat, i: nat, p: Id)
    requires Ranked(t.levels, t.rank) && k + 1 < |t.levels| && i < |t.levels[k]|
    requires t'.levels == t.levels[k := RemoveAt(t.levels[k], i)]
    requires Full(t, t.levels[k][i]) && Fits(t)
    requires forall n {:trigger Size(t'.children, t'.runs, n)} :: n in t.rank && n != p ==>
               Size(t'.children, t'.runs, n) == Size(t.children, t.runs, n)
    requires Size(t'.children, t'.runs, p) <= MAX_RUNS
    ensures Full(t', p) && Fits(t')
  {
    hide Size;
    forall l, y {:trigger t'.levels[l][y]} | 0 <= l < |t'.levels| && 0 <= y < |t'.levels[l]|
      ensures t'.levels[l][y] != p ==> MinSize(t'.levels, l) <= Size(t'.children, t'.runs, t'.levels[l][y])
      ensures Size(t'.children, t'.runs, t'.levels[l][y]) <= MAX_RUNS
    {
      var z := if l == k && y >= i then y + 1 else y;
      assert t'.levels[l][y] == t.levels[l][z];
      assert l == k ==> t.levels[l][z] != t.levels[k][i];
      assert t.levels[l][z] in t.rank;
    }
  }

  /** A node that only gains keeps the fill. */
  lemma {:induction false} GrowSizes<T>(t: Tree<T>, t': Tree<T>, k: nat, i: nat, x: Id)
    requires Ranked(t.levels, t.rank) && k < |t.levels| && i < |t.levels[k]| && t'.levels == t.levels
    requires Full(t, x) && Fits(t)
    requires var n := t.levels[k][i];
             Size(t.children, t.runs, n) <= Size(t'.children, t'.runs, n) <= MAX_RUNS
    requires forall l, y {:trigger t.levels[l][y]} :: 0 <= l < |t.levels| && 0 <= y < |t.levels[l]| ==>
               t.levels[l][y] != t.levels[k][i] ==>
                 Size(t'.children, t'.runs, t.levels[l][y]) == Size(t.children, t.runs, t.levels[l][y])
    ensures Full(t', x) && Fits(t')
  {
    hide Size, MinSize;
    forall l, y {:trigger t'.levels[l][y]} | 0 <= l < |t'.levels| && 0 <= y < |t'.levels[l]|
      ensures t'.levels[l][y] != x ==> MinSize(t'.levels, l) <= Size(t'.children, t'.runs, t'.levels[l][y])
      ensures Size(t'.children, t'.runs, t'.levels[l][y]) <= MAX_RUNS
    {
      var n := t.levels[l][y];
    }
  }

  lemma {:induction false} ShuffleLen<T>(ch: map<Id, seq<Child>>, ch': map<Id, seq<Child>>, runs: map<Id, seq<Run<T>>>,
                                         a: Id, b: Id, l: seq<Child>, r: seq<Child>, target: Id, node: Id, x: int)
    requires a in ch && b in ch && a !in runs && b !in runs && a != b
    requires (a == target && b == node) || (a == node && b == target)
    requires ch' == ch[a := l][b := r] && ChildTotal(ch'[target]) == ChildTotal(ch[target]) + x
    ensures forall q: Id {:trigger Len(ch', runs, q)} :: q != node ==>
              Len(ch', runs, q) == Len(ch, runs, q) + if q == target then x else 0
  {
    hide Total, ChildTotal;
  }

  /** Moving children worth `x` characters from the dissolved `node` to `target`. */
  lemma {:induction false} ShuffleMeasured<T>(ch: map<Id, seq<Child>>, ch': map<Id, seq<Child>>,
                                              runs: map<Id, seq<Run<T>>>,
                                              a: Id, b: Id, l: seq<Child>, r: seq<Child>, target: Id, node: Id, d: int,
                                                x: int)
    requires Measured(ch, runs, target, d, NIL, 0) && NoEntry(ch, node) && NoEntry(ch, NIL)
    requires a in ch && b in ch && a !in runs && b !in runs && a != b
    requires (a == target && b == node) || (a == node && b == target)
    requires ch[a] + ch[b] == l + r && ch' == ch[a := l][b := r]
    requires ChildTotal(ch'[target]) == ChildTotal(ch[target]) + x
    ensures Measured(ch', runs, target, d + x, NIL, 0) && NoEntry(ch', node) && NoEntry(ch', NIL)
  {
    hide Len, ChildTotal;
    ShuffleLen(ch, ch', runs, a, b, l, r, target, node, x);
    forall q, y {:trigger ch'[q][y]} | q in ch' && 0 <= y < |ch'[q]|
      ensures ch'[q][y].length + (if ch'[q][y].node == target then d + x else 0) == Len(ch', runs, ch'[q][y].node)
      ensures ch'[q][y].node != node && ch'[q][y].node != NIL
    {
      var z := if q == b then |l| + y else y;
      var q0 := if q != a && q != b then q else if z < |ch[a]| then a else b;
      var y0 := if q != a && q != b then y else if z < |ch[a]| then z else z - |ch[a]|;
      assert q == a ==> ch'[q][y] == (l + r)[z];
      assert q == b ==> ch'[q][y] == (l + r)[z];
      assert ch'[q][y] == ch[q0][y0];
    }
  }

  lemma {:induction false} NoNilEntry<T>(t: Tree<T>, k: nat, lo: seq<Id>)
    requires Sound(t, k, lo)
    ensures NoEntry(t.children, NIL)
  {
    hide Ranked, Kinds, AllLinked, Stacked, RunsPositive, Rooted;
    forall q, y {:trigger t.children[q][y]} | q in t.children && 0 <= y < |t.children[q]|
      ensures t.children[q][y].node != NIL
    {
      assert Ref(t.parent, t.children[q][y].node) == q;
    }
  }
}
