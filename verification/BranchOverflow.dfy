/** A tree in which compaction meets a full parent.  Its ids count the nodes
    level by level from the root; the children of node n are the ids from
    FirstChild(n) to FirstChild(n + 1). */
module BranchOverflow {
  import opened Runs
  import opened Levels
  import opened Forest
  import opened Trees
  import opened Compacting

  const LEAVES: nat := 294
  const FIRST_LEAF: Id := 38
  const NODE: Id := 11

  /** The number of leaves under the branches before branch i of the 34. */
  function Before(i: nat): nat {
    if i <= 6 then 8 * i else if i == 7 then 68 else if i == 8 then 75 else 94 + 8 * (i - 9)
  }

  function FirstChild(n: Id): Id {
    if n == 1 then 2 else if n == 2 then 4 else if n == 3 then 12
    else if 4 <= n <= FIRST_LEAF then FIRST_LEAF + Before(n - 4)
    else 0
  }

  function Parent(n: Id): Id {
    var j := n - FIRST_LEAF;
    if 2 <= n < 4 then 1 else if 4 <= n < 12 then 2 else if 12 <= n < FIRST_LEAF then 3
    else if j < 48 then 4 + j / 8 else if j < 68 then 10 else if j < 75 then 11 else if j < 94 then 12
    else 13 + (j - 94) / 8
  }

  function Level(n: Id): int {
    if n == 1 then 3 else if n < 4 then 2 else if n < FIRST_LEAF then 1 else 0
  }

  /** Eight characters in each leaf. */
  function Weight(n: Id): nat {
    if n == 2 then 600 else if n == 3 then 1752
    else if 4 <= n < FIRST_LEAF && FirstChild(n) <= FirstChild(n + 1) then 8 * (FirstChild(n + 1) - FirstChild(n))
    else 8
  }

  ghost function Range(a: Id, b: Id): (ids: seq<Id>)
    requires a <= b
    ensures |ids| == b - a && forall i :: 0 <= i < |ids| ==> ids[i] == a + i
  {
    seq(b - a, i => a + i)
  }

  ghost function Entries(a: Id, b: Id): (es: seq<Child>)
    requires a <= b
    ensures |es| == b - a && forall i :: 0 <= i < |es| ==> es[i] == Child(a + i, Weight(a + i))
  {
    seq(b - a, i => Child(a + i, Weight(a + i)))
  }

  const LAST: Id := FIRST_LEAF + LEAVES

  ghost function Levels4(): seq<seq<Id>> {
    [Range(FIRST_LEAF, LAST), Range(4, FIRST_LEAF), Range(2, 4), Range(1, 2)]
  }

  function Prev(n: Id): Id {
    if n == 1 || n == 2 || n == 4 || n == FIRST_LEAF then NIL else n - 1
  }

  function Next(n: Id): Id {
    if n == 1 || n == 3 || n + 1 == FIRST_LEAF || n + 1 == LAST then NIL else n + 1
  }

  ghost function ChildrenOf(n: Id): seq<Child> {
    if FirstChild(n) <= FirstChild(n + 1) then Entries(FirstChild(n), FirstChild(n + 1)) else []
  }

  ghost function RunsOf(n: Id): seq<Run<int>> {
    Eight()
  }

  ghost function FullTree(): Tree<int> {
    Tree(map n: Id {:trigger Parent(n)} | 2 <= n < LAST :: Parent(n),
         map n: Id {:trigger Prev(n)} | 1 <= n < LAST :: Prev(n),
         map n: Id {:trigger Next(n)} | 1 <= n < LAST :: Next(n),
         map n: Id {:trigger RunsOf(n)} | FIRST_LEAF <= n < LAST :: RunsOf(n),
         map n: Id {:trigger ChildrenOf(n)} | 1 <= n < FIRST_LEAF :: ChildrenOf(n),
         LAST, Levels4(),
         map n: Id {:trigger Level(n)} | 1 <= n < LAST :: Level(n))
  }

  ghost function Eight(): seq<Run<int>> {
    [Run(1, 0), Run(1, 1), Run(1, 0), Run(1, 1), Run(1, 0), Run(1, 1), Run(1, 0), Run(1, 1)]
  }

  lemma {:induction false} EightTotal()
    ensures Total(Eight()) == 8 && AllPositive(Eight())
  {
    var a := [Run(1, 0), Run(1, 1)];
    ExpandTwo(Run(1, 0), Run(1, 1));
    ExpandConcat(a, a);
    ExpandConcat(a + a, a + a);
    assert Eight() == (a + a) + (a + a);
  }

  // ----- the arithmetic of the ids -----------------------------------------------------------

  lemma {:induction false} ChildIds(n: Id)
    requires 1 <= n < FIRST_LEAF
    ensures 2 <= FirstChild(n) <= FirstChild(n + 1) <= LAST
    ensures forall m :: FirstChild(n) <= m < FirstChild(n + 1) ==> Parent(m) == n && Level(m) == Level(n) - 1
    ensures FirstChild(n + 1) - FirstChild(n) ==
              if n == 1 then 2
              else if n == 3 then 26 else if n == 10 then 20 else if n == NODE then 7 else if n == 12 then 19 else 8
  {}

  /** What the maps say about one node. */
  lemma {:induction false} AtNode(n: Id)
    requires 1 <= n < LAST
    ensures var t := FullTree();
            && Ref(t.parent, n) == (if n == 1 then NIL else Parent(n)) && Ref(t.prev, n) == Prev(n)
            && Ref(t.next, n) == Next(n)
            && n in t.rank && t.rank[n] == Level(n)
            && (n in t.runs <==> FIRST_LEAF <= n) && (n in t.children <==> n < FIRST_LEAF)
            && (n in t.runs ==> t.runs[n] == Eight()) && (n in t.children ==> t.children[n] == ChildrenOf(n))
  {
    hide Eight, ChildrenOf, Levels4, Parent, Prev, Next, Level;
    assert RunsOf(n) == Eight();
  }

  lemma {:induction false} RangeChildren(a: Id, b: Id)
    requires 1 <= a <= b <= FIRST_LEAF
    ensures FirstChild(a) <= FirstChild(b)
    ensures Nodes(Gather(FullTree().children, Range(a, b))) == Range(FirstChild(a), FirstChild(b))
    decreases b - a
  {
    hide FullTree, FirstChild, Entries, Weight, ChildrenOf, Range, Nodes, Gather;
    if a == b {
      RangeStart(a, b);
      GatherNone(FullTree().children);
    } else {
      RangeStart(a, b);
      RangeStart(FirstChild(a), FirstChild(a));
      AtNode(a);
      ChildIds(a);
      RangeChildren(a + 1, b);
      GatherConcat(FullTree().children, [a], Range(a + 1, b));
      GatherOne(FullTree().children, a);
      NodesConcat(Get(FullTree().children, a), Gather(FullTree().children, Range(a + 1, b)));
      NodesOf(a);
      RangeJoin(FirstChild(a), FirstChild(a + 1), FirstChild(b));
    }
  }

  lemma {:induction false} NodesOf(a: Id)
    requires 1 <= a < FIRST_LEAF && FirstChild(a) <= FirstChild(a + 1)
    ensures Nodes(ChildrenOf(a)) == Range(FirstChild(a), FirstChild(a + 1))
  {
    hide FirstChild;
  }

  lemma {:induction false} RangeStart(a: Id, b: Id)
    requires a <= b
    ensures if a == b then Range(a, b) == [] && Nodes([]) == [] else Range(a, b) == [a] + Range(a + 1, b)
  {}

  lemma {:induction false} RangeJoin(a: Id, b: Id, c: Id)
    requires a <= b <= c
    ensures Range(a, b) + Range(b, c) == Range(a, c)
  {}

  lemma {:induction false} LeafEntries(a: Id, b: Id)
    requires FIRST_LEAF <= a <= b
    ensures ChildTotal(Entries(a, b)) == 8 * (b - a)
    decreases b - a
  {
    if a < b {
      LeafEntries(a + 1, b);
      assert Entries(a, b)[1..] == Entries(a + 1, b);
    }
  }

  lemma {:induction false} BranchEntries(a: Id, b: Id)
    requires 4 <= a <= b <= FIRST_LEAF
    ensures FirstChild(a) <= FirstChild(b) && ChildTotal(Entries(a, b)) == 8 * (FirstChild(b) - FirstChild(a))
    decreases b - a
  {
    if a < b {
      ChildIds(a);
      BranchEntries(a + 1, b);
      assert Entries(a, b)[1..] == Entries(a + 1, b);
    }
  }

  /** What hangs under a node weighs what its entry says. */
  lemma {:induction false} WeightIsLength(n: Id)
    requires 2 <= n < LAST
    ensures Weight(n) == Len(FullTree().children, FullTree().runs, n)
  {
    hide FullTree, ChildTotal, Entries;
    AtNode(n);
    if n < FIRST_LEAF {
      ChildIds(n);
      if n < 4 {
        BranchEntries(FirstChild(n), FirstChild(n + 1));
      } else {
        LeafEntries(FirstChild(n), FirstChild(n + 1));
      }
    } else {
      EightTotal();
    }
  }

  // ----- the tree is good but for one node -----------------------------------------------------

  /** Where the levels begin. */
  function Base(l: nat): Id {
    if l == 0 then FIRST_LEAF else if l == 1 then 4 else if l == 2 then 2 else 1
  }

  lemma {:induction false} AtLevel(l: nat, i: nat)
    requires l < 4 && i < |Levels4()[l]|
    ensures var n := Levels4()[l][i];
            && n == Base(l) + i && 1 <= n < LAST && Level(n) == l
            && (i == 0 <==> Prev(n) == NIL) && (i > 0 ==> Prev(n) == n - 1)
            && (i + 1 == |Levels4()[l]| <==> Next(n) == NIL) && (i + 1 < |Levels4()[l]| ==> Next(n) == n + 1)
  {}

  lemma {:induction false} TreeRanked()
    ensures Ranked(FullTree().levels, FullTree().rank)
  {
    hide Levels4;
    var levels := FullTree().levels;
    assert |Levels4()| == 4 by { LevelCount(); }
    forall l, i {:trigger levels[l][i]} | 0 <= l < |levels| && 0 <= i < |levels[l]|
      ensures levels[l][i] in FullTree().rank && FullTree().rank[levels[l][i]] == l
    {
      AtLevel(l, i);
      AtNode(levels[l][i]);
    }
    forall l | 0 <= l < |levels|
      ensures Distinct(levels[l])
    {
      forall i, j | 0 <= i < j < |levels[l]|
        ensures levels[l][i] != levels[l][j]
      {
        AtLevel(l, i);
        AtLevel(l, j);
      }
    }
  }

  lemma {:induction false} LevelCount()
    ensures |Levels4()| == 4 && Levels4()[3] == [ROOT] && |Levels4()[2]| == 2 && |Levels4()[1]| == 34
    ensures |Levels4()[0]| == LEAVES
  {}

  lemma {:induction false} TreeKinds()
    ensures Kinds(FullTree().levels, FullTree().runs, FullTree().children)
  {
    hide Levels4;
    LevelCount();
    var t := FullTree();
    forall l, i {:trigger t.levels[l][i]} | 0 <= l < |t.levels| && 0 <= i < |t.levels[l]|
      ensures Kind(l, t.levels[l][i], t.runs, t.children)
    {
      AtLevel(l, i);
      AtNode(t.levels[l][i]);
    }
  }

  lemma {:induction false} TreeLinked()
    ensures AllLinked(FullTree().prev, FullTree().next, FullTree().levels)
  {
    hide Levels4, Linked;
    LevelCount();
    var levels := FullTree().levels;
    forall l | 0 <= l < |levels|
      ensures Linked(FullTree().prev, FullTree().next, levels[l])
    {
      LevelLinked(l);
    }
  }

  lemma {:induction false} LinksAt(l: nat, i: nat)
    requires l < |Levels4()| && i < |Levels4()[l]|
    ensures Ref(FullTree().prev, Levels4()[l][i]) == if i == 0 then NIL else Levels4()[l][i - 1]
    ensures Ref(FullTree().next, Levels4()[l][i]) == if i + 1 == |Levels4()[l]| then NIL else Levels4()[l][i + 1]
  {
    hide Levels4, FullTree, Ref, Prev, Next;
    LevelCount();
    AtLevel(l, i);
    AtNode(Levels4()[l][i]);
    if i > 0 {
      AtLevel(l, i - 1);
    }
    if i + 1 < |Levels4()[l]| {
      AtLevel(l, i + 1);
    }
  }

  lemma {:induction false} LevelLinked(l: nat)
    requires l < |Levels4()|
    ensures Linked(FullTree().prev, FullTree().next, Levels4()[l])
  {
    hide Levels4, FullTree, Ref;
    var ids, prev, next := Levels4()[l], FullTree().prev, FullTree().next;
    forall i {:trigger Ref(prev, ids[i])} | 0 <= i < |ids|
      ensures Ref(prev, ids[i]) == if i == 0 then NIL else ids[i - 1]
    {
      LinksAt(l, i);
    }
    forall i {:trigger Ref(next, ids[i])} | 0 <= i < |ids|
      ensures Ref(next, ids[i]) == if i + 1 == |ids| then NIL else ids[i + 1]
    {
      LinksAt(l, i);
    }
  }

  lemma {:induction false} TreeStacked()
    ensures Stacked(FullTree().children, FullTree().levels, 0, [])
  {
    hide Gather;
    RangeChildren(1, 2);
    RangeChildren(2, 4);
    RangeChildren(4, FIRST_LEAF);
    hide Nodes;
    var t := FullTree();
    forall l | 1 <= l < |t.levels|
      ensures Covers(t.children, Row(t.levels, 0, [], l), t.levels[l - 1])
    {}
  }

  lemma {:induction false} TreeParented()
    ensures Parented(FullTree().parent, FullTree().children) && Exact(FullTree())
  {
    hide Levels4, Len;
    var t := FullTree();
    forall p, c {:trigger t.children[p][c]} | p in t.children && 0 <= c < |t.children[p]|
      ensures Ref(t.parent, t.children[p][c].node) == p
      ensures t.children[p][c].length == Len(t.children, t.runs, t.children[p][c].node)
    {
      EntryOf(p, c);
    }
  }

  lemma {:induction false} EntryOf(p: Id, c: nat)
    requires 1 <= p < FIRST_LEAF && c < |FullTree().children[p]|
    ensures var e := FullTree().children[p][c];
            Ref(FullTree().parent, e.node) == p && e.length == Len(FullTree().children, FullTree().runs, e.node)
  {
    AtNode(p);
    ChildIds(p);
    hide FullTree, Len, FirstChild, Parent, Weight;
    var n := FirstChild(p) + c;
    assert ChildrenOf(p)[c] == Child(n, Weight(n));
    AtNode(n);
    WeightIsLength(n);
  }

  lemma {:induction false} TreeSizes()
    ensures Full(FullTree(), NODE) && Fits(FullTree())
  {
    hide Levels4;
    LevelCount();
    var t := FullTree();
    forall l, i {:trigger t.levels[l][i]} | 0 <= l < |t.levels| && 0 <= i < |t.levels[l]|
      ensures t.levels[l][i] != NODE ==> MinSize(t.levels, l) <= Size(t.children, t.runs, t.levels[l][i])
      ensures Size(t.children, t.runs, t.levels[l][i]) <= MAX_RUNS
    {
      AtLevel(l, i);
      SizeOf(t.levels[l][i]);
    }
  }

  lemma {:induction false} SizeOf(n: Id)
    requires 1 <= n < LAST
    ensures Size(FullTree().children, FullTree().runs, n) ==
            if n == 1 then 2
              else if n == 3 then 26 else if n == 10 then 20 else if n == NODE then 7 else if n == 12 then 19 else 8
  {
    AtNode(n);
    if n < FIRST_LEAF {
      ChildIds(n);
    }
    hide FullTree, FirstChild;
  }

  /** A tree that is good, but for a branch that has just lost a child, in which
      compaction splits a neighbour whose parent is full. */
  lemma {:induction false} FullParentIsMet()
    ensures Good(FullTree(), 0, [], NODE) && NODE in FullTree().levels[1] && DissolvingOverflows(FullTree(), NODE)
  {
    TreeRanked();
    TreeKinds();
    TreeLinked();
    TreeStacked();
    TreeParented();
    TreeSizes();
    EightTotal();
    AtLevel(1, 7);
    AtNode(NODE);
    AtNode(12);
    AtNode(1);
    SizeOf(3);
    SizeOf(10);
    SizeOf(NODE);
    SizeOf(12);
    TreeRest();
    hide Ranked, Kinds, AllLinked, Stacked, Parented, Measured, Filled, WithinCapacity, FullTree;
  }

  lemma {:induction false} TreeRest()
    ensures var t := FullTree();
            Rooted(t.levels, t.parent) && Allocated(t.rank, t.nextId, t.parent, t.runs, t.children) &&
              RunsPositive(t.runs)
  {
    hide ChildrenOf, Parent, Prev, Next, Level, Levels4, AllPositive, Eight;
    EightTotal();
    LevelCount();
    forall n | n in FullTree().runs
      ensures AllPositive(FullTree().runs[n])
    {
      assert FullTree().runs[n] == RunsOf(n);
    }
  }
}
