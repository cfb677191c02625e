/** The theory of the tree seen level by level.  Every record field of a node
    is a map from node ids; a level is the left-to-right sequence of its ids,
    leaves at level 0 and the root alone on top.  An upper level covers the
    one below when its child entries, read off in order, are that level. */
module Levels {
  import opened Runs

  type Id = int

  /** NULL, and the node embedded in the region itself. */
  const NIL: Id := 0
  const ROOT: Id := 1

  const MAX_BRANCHES: nat := 26
  const MIN_BRANCHES: nat := MAX_BRANCHES / 3
  const MIN_RUNS: nat := MAX_RUNS / 3

  /** The entry of a branch for one of its children, with the cached length. */
  datatype Child = Child(node: Id, length: nat)

  function Get<X>(m: map<Id, seq<X>>, n: Id): seq<X> {
    if n in m then m[n] else []
  }

  function Ref(m: map<Id, Id>, n: Id): Id {
    if n in m then m[n] else NIL
  }

  ghost predicate Distinct(s: seq<Id>) {
    forall i, j :: 0 <= i < j < |s| ==> s[i] != s[j]
  }

  ghost function InsertAt<X>(s: seq<X>, i: nat, x: X): seq<X>
    requires i <= |s|
  {
    s[..i] + [x] + s[i..]
  }

  lemma {:induction false} InsertAtLength<X>(s: seq<X>, i: nat, x: X)
    requires i <= |s|
    ensures |InsertAt(s, i, x)| == |s| + 1
  {}

  lemma {:induction false} InsertAtIndex<X>(s: seq<X>, i: nat, x: X, y: nat)
    requires i <= |s| && y < |InsertAt(s, i, x)|
    ensures |InsertAt(s, i, x)| == |s| + 1
    ensures InsertAt(s, i, x)[y] == (if y < i then s[y] else if y == i then x else s[y - 1])
  {}

  ghost function RemoveAt<X>(s: seq<X>, i: nat): seq<X>
    requires i < |s|
  {
    s[..i] + s[i + 1..]
  }

  lemma {:induction false} InsertInMiddle<X>(a: seq<X>, b: seq<X>, c: seq<X>, i: nat, x: X)
    requires i <= |b|
    ensures InsertAt(a + b + c, |a| + i, x) == a + InsertAt(b, i, x) + c
  {}

  lemma {:induction false} RemoveInMiddle<X>(a: seq<X>, b: seq<X>, c: seq<X>, i: nat)
    requires i < |b|
    ensures RemoveAt(a + b + c, |a| + i) == a + RemoveAt(b, i) + c
  {}

  ghost function Nodes(es: seq<Child>): (ids: seq<Id>)
    ensures |ids| == |es|
    ensures forall i :: 0 <= i < |es| ==> ids[i] == es[i].node
  {
    seq(|es|, i requires 0 <= i < |es| => es[i].node)
  }

  // ----- what the nodes of a level hold, in order ----------------------------

  ghost function Gather<X>(m: map<Id, seq<X>>, ids: seq<Id>): seq<X> {
    if ids == [] then [] else Get(m, ids[0]) + Gather(m, ids[1..])
  }

  lemma {:induction false} GatherConcat<X>(m: map<Id, seq<X>>, a: seq<Id>, b: seq<Id>)
    ensures Gather(m, a + b) == Gather(m, a) + Gather(m, b)
  {
    if a == [] {
      assert a + b == b;
    } else {
      assert (a + b)[1..] == a[1..] + b;
      GatherConcat(m, a[1..], b);
    }
  }

  lemma {:induction false} GatherOne<X>(m: map<Id, seq<X>>, n: Id)
    ensures Gather(m, [n]) == Get(m, n)
  {}

  lemma {:induction false} GatherSame<X>(m: map<Id, seq<X>>, m': map<Id, seq<X>>, ids: seq<Id>)
    requires forall i :: 0 <= i < |ids| ==> Get(m, ids[i]) == Get(m', ids[i])
    ensures Gather(m, ids) == Gather(m', ids)
  {
    if ids != [] {
      assert forall i :: 0 <= i < |ids[1..]| ==> ids[1..][i] == ids[i + 1];
      GatherSame(m, m', ids[1..]);
    }
  }

  lemma {:induction false} GatherAt<X>(m: map<Id, seq<X>>, ids: seq<Id>, i: nat)
    requires i < |ids|
    ensures Gather(m, ids) == Gather(m, ids[..i]) + Get(m, ids[i]) + Gather(m, ids[i + 1..])
    ensures Gather(m, ids[..i + 1]) == Gather(m, ids[..i]) + Get(m, ids[i])
    ensures i + 1 == |ids| ==> Gather(m, ids[..i + 1]) == Gather(m, ids)
  {
    hide Gather;
    GatherOne(m, ids[i]);
    assert ids[..i + 1] == ids[..i] + [ids[i]];
    GatherConcat(m, ids[..i], [ids[i]]);
    assert ids == ids[..i + 1] + ids[i + 1..];
    GatherConcat(m, ids[..i + 1], ids[i + 1..]);
    if i + 1 == |ids| {
      assert ids[..i + 1] == ids;
    }
  }

  lemma {:induction false} GatherPair<X>(m: map<Id, seq<X>>, ids: seq<Id>, i: nat)
    requires i + 1 < |ids|
    ensures Gather(m, ids) == Gather(m, ids[..i]) + (Get(m, ids[i]) + Get(m, ids[i + 1])) + Gather(m, ids[i + 2..])
  {
    hide Gather;
    GatherAt(m, ids, i);
    GatherAt(m, ids[i + 1..], 0);
    assert ids[i + 1..][..0] == [] && ids[i + 1..][1..] == ids[i + 2..];
    GatherNone(m);
  }

  lemma {:induction false} GatherNone<X>(m: map<Id, seq<X>>)
    ensures Gather(m, []) == []
  {}

  /** The node, and the place in it, that holds item `x` of a level. */
  lemma {:induction false} Locate<X>(m: map<Id, seq<X>>, ids: seq<Id>, x: nat) returns (j: nat, c: nat)
    requires x < |Gather(m, ids)|
    ensures j < |ids| && c < |Get(m, ids[j])|
    ensures x == |Gather(m, ids[..j])| + c
    ensures Gather(m, ids)[x] == Get(m, ids[j])[c]
  {
    if x < |Get(m, ids[0])| {
      j, c := 0, x;
    } else {
      var j0, c0 := Locate(m, ids[1..], x - |Get(m, ids[0])|);
      j, c := j0 + 1, c0;
      assert ids[..j] == [ids[0]] + ids[1..][..j0];
      GatherConcat(m, [ids[0]], ids[1..][..j0]);
    }
  }

  /** Changing one node of a level changes the items at its place. */
  lemma {:induction false} GatherPatch<X>(m: map<Id, seq<X>>, m': map<Id, seq<X>>, ids: seq<Id>, j: nat)
    requires j < |ids|
    requires forall i :: 0 <= i < |ids| && i != j ==> Get(m, ids[i]) == Get(m', ids[i])
    ensures Gather(m', ids) == Gather(m, ids[..j]) + Get(m', ids[j]) + Gather(m, ids[j + 1..])
  {
    hide Gather;
    GatherAt(m', ids, j);
    GatherSame(m, m', ids[..j]);
    GatherSame(m, m', ids[j + 1..]);
  }

  /** A new right sibling takes over the tail of what `ids[j]` held. */
  lemma {:induction false} GatherSplit<X>(m: map<Id, seq<X>>, m': map<Id, seq<X>>, ids: seq<Id>, j: nat, right: Id)
    requires j < |ids|
    requires forall i :: 0 <= i < |ids| && i != j ==> Get(m, ids[i]) == Get(m', ids[i])
    requires Get(m, ids[j]) == Get(m', ids[j]) + Get(m', right)
    ensures Gather(m', InsertAt(ids, j + 1, right)) == Gather(m, ids)
  {
    hide Gather;
    var ids' := InsertAt(ids, j + 1, right);
    GatherPair(m', ids', j);
    assert ids'[..j] == ids[..j] && ids'[j + 2..] == ids[j + 1..];
    GatherSame(m, m', ids[..j]);
    GatherSame(m, m', ids[j + 1..]);
    GatherAt(m, ids, j);
  }

  /** Two neighbours redistribute what they hold. */
  lemma {:induction false} GatherMove<X>(m: map<Id, seq<X>>, m': map<Id, seq<X>>, ids: seq<Id>, j: nat)
    requires j + 1 < |ids|
    requires forall i :: 0 <= i < |ids| && i != j && i != j + 1 ==> Get(m, ids[i]) == Get(m', ids[i])
    requires Get(m, ids[j]) + Get(m, ids[j + 1]) == Get(m', ids[j]) + Get(m', ids[j + 1])
    ensures Gather(m', ids) == Gather(m, ids)
  {
    hide Gather;
    GatherPair(m, ids, j);
    GatherPair(m', ids, j);
    GatherSame(m, m', ids[..j]);
    GatherSame(m, m', ids[j + 2..]);
  }

  /** A node that holds nothing can be left out. */
  lemma {:induction false} GatherDrop<X>(m: map<Id, seq<X>>, ids: seq<Id>, j: nat)
    requires j < |ids| && Get(m, ids[j]) == []
    ensures Gather(m, RemoveAt(ids, j)) == Gather(m, ids)
  {
    hide Gather;
    GatherAt(m, ids, j);
    GatherConcat(m, ids[..j], ids[j + 1..]);
  }

  // ----- one level covers the next -------------------------------------------

  ghost predicate Covers(ch: map<Id, seq<Child>>, up: seq<Id>, low: seq<Id>) {
    Nodes(Gather(ch, up)) == low
  }

  lemma {:induction false} NodesConcat(a: seq<Child>, b: seq<Child>)
    ensures Nodes(a + b) == Nodes(a) + Nodes(b)
  {}

  lemma {:induction false} CoverParts(ch: map<Id, seq<Child>>, up: seq<Id>, low: seq<Id>, j: nat)
    requires Covers(ch, up, low) && j < |up|
    ensures var x := |Gather(ch, up[..j])|;
            var n := |Get(ch, up[j])|;
            && x + n <= |low|
            && low[..x] == Nodes(Gather(ch, up[..j]))
            && low[x..x + n] == Nodes(Get(ch, up[j]))
            && low[x + n..] == Nodes(Gather(ch, up[j + 1..]))
            && low == low[..x] + Nodes(Get(ch, up[j])) + low[x + n..]
  {
    hide Gather;
    GatherAt(ch, up, j);
    NodesConcat(Gather(ch, up[..j]) + Get(ch, up[j]), Gather(ch, up[j + 1..]));
    NodesConcat(Gather(ch, up[..j]), Get(ch, up[j]));
  }

  /** The parent of `low[i]` and the entry it has there. */
  lemma {:induction false} FindEntry(ch: map<Id, seq<Child>>, up: seq<Id>, low: seq<Id>, i: nat)
      returns (j: nat, c: nat)
    requires Covers(ch, up, low) && i < |low|
    ensures j < |up| && c < |Get(ch, up[j])| && Get(ch, up[j])[c].node == low[i]
    ensures i == |Gather(ch, up[..j])| + c
  {
    hide Gather;
    j, c := Locate(ch, up, i);
  }

  lemma {:induction false} EntriesDistinct(ch: map<Id, seq<Child>>, up: seq<Id>, low: seq<Id>, j: nat)
    requires Covers(ch, up, low) && Distinct(low) && j < |up|
    ensures Distinct(Nodes(Get(ch, up[j])))
  {
    hide Gather;
    CoverParts(ch, up, low, j);
    var x, n := |Gather(ch, up[..j])|, |Get(ch, up[j])|;
    assert Distinct(low[x..x + n]);
  }

  /** The entries of one branch change; the level below changes at their place. */
  lemma {:induction false} CoverPatch(ch: map<Id, seq<Child>>, ch': map<Id, seq<Child>>, up: seq<Id>, low: seq<Id>,
                                      j: nat)
    requires Covers(ch, up, low) && j < |up|
    requires forall i :: 0 <= i < |up| && i != j ==> Get(ch, up[i]) == Get(ch', up[i])
    ensures var x := |Gather(ch, up[..j])|;
            var n := |Get(ch, up[j])|;
            && x + n <= |low|
            && Covers(ch', up, low[..x] + Nodes(Get(ch', up[j])) + low[x + n..])
  {
    hide Gather;
    CoverParts(ch, up, low, j);
    GatherPatch(ch, ch', up, j);
    NodesConcat(Gather(ch, up[..j]) + Get(ch', up[j]), Gather(ch, up[j + 1..]));
    NodesConcat(Gather(ch, up[..j]), Get(ch', up[j]));
  }

  lemma {:induction false} CoverInsert(ch: map<Id, seq<Child>>, ch': map<Id, seq<Child>>, up: seq<Id>, low: seq<Id>,
                                       j: nat, c: nat, i: nat, right: Id)
    requires Covers(ch, up, low) && j < |up| && i < |low|
    requires c < |Get(ch, up[j])| && i == |Gather(ch, up[..j])| + c
    requires forall x :: 0 <= x < |up| && x != j ==> Get(ch, up[x]) == Get(ch', up[x])
    requires Nodes(Get(ch', up[j])) == InsertAt(Nodes(Get(ch, up[j])), c + 1, right)
    ensures Covers(ch', up, InsertAt(low, i + 1, right))
  {
    hide Gather, Covers, InsertAt;
    CoverPatch(ch, ch', up, low, j);
    CoverParts(ch, up, low, j);
    var x, n := i - c, |Get(ch, up[j])|;
    InsertInMiddle(low[..x], Nodes(Get(ch, up[j])), low[x + n..], c + 1, right);
  }

  lemma {:induction false} CoverRemove(ch: map<Id, seq<Child>>, ch': map<Id, seq<Child>>, up: seq<Id>, low: seq<Id>,
                                       j: nat, c: nat, i: nat)
    requires Covers(ch, up, low) && j < |up| && i < |low|
    requires c < |Get(ch, up[j])| && i == |Gather(ch, up[..j])| + c
    requires forall x :: 0 <= x < |up| && x != j ==> Get(ch, up[x]) == Get(ch', up[x])
    requires Nodes(Get(ch', up[j])) == RemoveAt(Nodes(Get(ch, up[j])), c)
    ensures Covers(ch', up, RemoveAt(low, i))
  {
    hide Gather, Covers, RemoveAt;
    CoverPatch(ch, ch', up, low, j);
    CoverParts(ch, up, low, j);
    var x, n := i - c, |Get(ch, up[j])|;
    RemoveInMiddle(low[..x], Nodes(Get(ch, up[j])), low[x + n..], c);
  }
}
