/** Dissolving underfilled nodes: the loops that hand their entries to a neighbour, and the
    collapse of a lone chain at the root. */
module Compacting {
  import opened Runs
  import opened Levels
  import opened Forest
  import opened Trees
  import opened Dissolution
  import opened Splitting
  import opened Settling

  // ----- the loop that redistributes the children ---------------------------------------

  /** Level k is the only one whose node list may have changed. */
  ghost predicate Beside<T>(t: Tree<T>, t': Tree<T>, k: nat) {
    && |t'.levels| == |t.levels| && t'.runs == t.runs
    && (forall l {:trigger t'.levels[l]} :: 0 <= l < |t.levels| && l != k ==> t'.levels[l] == t.levels[l])
    && (forall n {:trigger n in t.rank} {:trigger t'.rank[n]} :: n in t.rank ==>
          n in t'.rank && t'.rank[n] == t.rank[n])
  }

  /** Invariant of the loop: the entry of `target` is short by `added`. */
  ghost predicate Merging<T>(t0: Tree<T>, t: Tree<T>, k: nat, lo: seq<Id>, node: Id, target: Id, i: nat, toRight: bool,
                             added: int, x: Id) {
    && Sound(t, k, lo) && Dissolving(t, k, lo, node, target, i, toRight)
    && Measured(t.children, t.runs, target, added, NIL, 0) && Full(t, x) && Fits(t)
    && Beside(t0, t, k) && x in t.rank && t.rank[x] == k + 1
  }

  lemma {:induction false} MergingParts<T>(t0: Tree<T>, t: Tree<T>, k: nat, lo: seq<Id>, node: Id, target: Id, i: nat,
                                           toRight: bool, added: int, x: Id)
    requires Merging(t0, t, k, lo, node, target, i, toRight, added, x)
    ensures Sound(t, k, lo) && Measured(t.children, t.runs, target, added, NIL, 0)
    ensures 0 < k && k + 1 < |t.levels| && i < |t.levels[k]| && t.levels[k][i] == target
    ensures node in t.children && target in t.children && node != target
    ensures |t.children[target]| <= MAX_BRANCHES
    ensures var y := if toRight then i + 1 else i; y < |lo| && lo[y] == target
    ensures Settles(t, k, target, NIL, 0)
    ensures Beside(t0, t, k)
  {
    hide Sound, Measured, Filled, Beside, NoEntry, InsertAt;
    NeighbourPlaces(t.levels[k], i, node, toRight);
    assert Size(t.children, t.runs, t.levels[k][i]) <= MAX_RUNS;
  }

  lemma {:induction false} StayingShorter<X>(s: seq<X>, toRight: bool)
    requires s != []
    ensures |Staying(s, toRight)| < |s|
    ensures s == if toRight then Staying(s, toRight) + [Moving(s, toRight)]
              else [Moving(s, toRight)] + Staying(s, toRight)
  {}

  lemma {:induction false} SameNodesNoEntry(ch: map<Id, seq<Child>>, ch': map<Id, seq<Child>>, n: Id)
    requires SameNodes(ch, ch') && NoEntry(ch, n)
    ensures NoEntry(ch', n)
  {
    forall q, y {:trigger ch'[q][y]} | q in ch' && 0 <= y < |ch'[q]|
      ensures ch'[q][y].node != n
    {
      assert Nodes(ch'[q])[y] == Nodes(ch[q])[y] == ch[q][y].node;
    }
  }

  lemma {:induction false} MergingSettled<T>(t0: Tree<T>, t: Tree<T>, t1: Tree<T>, k: nat, lo: seq<Id>, node: Id,
                                             target: Id, i: nat, toRight: bool, added: int, x: Id)
    requires Merging(t0, t, k, lo, node, target, i, toRight, added, x)
    requires t1 == t.(children := t1.children) && SameNodes(t.children, t1.children)
    requires Sound(t1, k, lo) && Exact(t1)
    ensures Merging(t0, t1, k, lo, node, target, i, toRight, 0, x) && Good(t1, k, lo, x)
    ensures |Get(t1.children, target)| == |t.children[target]| && |Get(t1.children, node)| == |t.children[node]|
  {
    hide Sound, Filled, WithinCapacity, InsertAt, NoEntry, Measured, Beside;
    SameNodesSizes(t, t1, x);
    SameNodesNoEntry(t.children, t1.children, node);
    assert |Nodes(t1.children[target])| == |Nodes(t.children[target])|;
    assert |Nodes(t1.children[node])| == |Nodes(t.children[node])|;
    ZeroDebt(t1.children, t1.runs, target);
    BesideSameLevels(t0, t, t1, k);
  }

  lemma {:induction false} BesideSameLevels<T>(t0: Tree<T>, t: Tree<T>, t1: Tree<T>, k: nat)
    requires Beside(t0, t, k) && t1 == t.(children := t1.children)
    ensures Beside(t0, t1, k)
  {}

  lemma {:induction false} MergingCrowded<T>(t0: Tree<T>, t: Tree<T>, k: nat, lo: seq<Id>, node: Id, target: Id, i: nat,
                                             toRight: bool, x: Id)
    requires Merging(t0, t, k, lo, node, target, i, toRight, 0, x)
    requires |Get(t.children, Ref(t.parent, target))| >= MAX_BRANCHES
    ensures t0.levels != [] && |Gather(t0.runs, t0.levels[0])| >= CROWD
  {
    hide Measured, Filled, WithinCapacity, NoEntry, InsertAt, Rooted, Ranked, Kinds, Allocated, AllLinked, Stacked,
      Parented, RunsPositive, RowRanked;
    var j, c := FindParent(t, k, lo, k, i);
    Crowded(t, k, lo, node, i, j, c, if toRight then i else i + 1, x);
  }

  lemma {:induction false} MergingMoved<T>(t0: Tree<T>, t: Tree<T>, k: nat, lo: seq<Id>, node: Id, target: Id, i: nat,
                                           toRight: bool, added: int, x: Id)
    requires Merging(t0, t, k, lo, node, target, i, toRight, added, x) && t.children[node] != []
    requires |t.children[target]| < MAX_BRANCHES - 1
    ensures Merging(t0, Moved(t, node, target, toRight), k, lo, node, target, i, toRight,
              added + Moving(t.children[node], toRight).length, x)
  {
    hide Sound, Measured, Filled, WithinCapacity, Dissolving, Moving, Staying, Grown;
    MoveKeeps(t, k, lo, node, target, i, toRight, added, x);
  }

  lemma {:induction false} ZeroDebt<T>(ch: map<Id, seq<Child>>, runs: map<Id, seq<Run<T>>>, n: Id)
    requires Measured(ch, runs, NIL, 0, NIL, 0)
    ensures Measured(ch, runs, n, 0, NIL, 0)
  {
    hide Len;
  }

  lemma {:induction false} HalfSizes<X>(s: seq<X>)
    requires 2 <= |s| <= MAX_BRANCHES
    ensures 1 <= |Keep(s)| < MAX_BRANCHES - 1 && 1 <= |Tail(s)| < MAX_BRANCHES - 1
  {}

  lemma {:induction false} SplitNoEntry<T>(t: Tree<T>, t': Tree<T>, k: nat, i: nat, right: Id, n: Id)
    requires k < |t.levels| && i < |t.levels[k]| && BranchHalved(t, t', k, i, right) && NoEntry(t.children, n)
    requires n != right
    ensures NoEntry(t'.children, n)
  {
    hide InsertAt, Keep, Tail;
    var left := t.levels[k][i];
    var p := Ref(t.parent, left);
    HalvesMeet(Get(t.children, left));
    NotAmong(t.children, p, n);
    NotAmong(t.children, left, n);
    forall q, y {:trigger t'.children[q][y]} | q in t'.children && 0 <= y < |t'.children[q]|
      ensures t'.children[q][y].node != n
    {
      if q == p {
        assert Nodes(t'.children[q])[y] in Nodes(Get(t'.children, p));
      } else if q == left || q == right {
        var z := if q == right then |Get(t'.children, left)| + y else y;
        assert Nodes(Get(t.children, left))[z] == Get(t'.children, q)[y].node;
      } else {
        assert Get(t'.children, q) == Get(t.children, q);
      }
    }
  }

  lemma {:induction false} NotAmong(ch: map<Id, seq<Child>>, q: Id, n: Id)
    requires NoEntry(ch, n)
    ensures n !in Nodes(Get(ch, q))
  {
    forall z | 0 <= z < |Get(ch, q)|
      ensures Nodes(Get(ch, q))[z] != n
    {
      assert ch[q][z].node != n;
    }
  }

  lemma {:induction false} MergingSplit<T>(t0: Tree<T>, t: Tree<T>, t': Tree<T>, k: nat, lo: seq<Id>, node: Id,
                                           target: Id, i: nat, toRight: bool, right: Id, x: Id)
    requires Merging(t0, t, k, lo, node, target, i, toRight, 0, x) && Good(t, k, lo, x)
    requires t.children[node] != [] && 2 <= |t.children[target]| <= MAX_BRANCHES
    requires BranchHalved(t, t', k, i, right)
    requires Good(t', k, InsertAt(lo, if toRight then i + 2 else i + 1, right), x)
    ensures var target' := if toRight then target else right;
            && Merging(t0, t', k, InsertAt(lo, if toRight then i + 2 else i + 1, right), node, target',
              if toRight then i else i + 1, toRight, 0, x)
            && Get(t'.children, node) == Get(t.children, node)
            && |Get(t'.children, target')| < MAX_BRANCHES - 1
  {
    hide Measured, Filled, WithinCapacity, Sound, InsertAt, Keep, Tail, NoEntry, Hangs, BranchHalved, Dissolving,
      Beside;
    ZeroDebt(t'.children, t'.runs, if toRight then target else right);
    MergingSplitDissolving(t0, t, t', k, lo, node, target, i, toRight, right, x);
  }

  lemma {:induction false} MergingSplitDissolving<T>(t0: Tree<T>, t: Tree<T>, t': Tree<T>, k: nat, lo: seq<Id>,
                                                     node: Id, target: Id, i: nat, toRight: bool, right: Id, x: Id)
    requires Good(t, k, lo, x) && Dissolving(t, k, lo, node, target, i, toRight) && Beside(t0, t, k)
    requires t.children[node] != [] && 2 <= |t.children[target]| <= MAX_BRANCHES && x in t.rank
    requires BranchHalved(t, t', k, i, right)
    ensures var target' := if toRight then target else right;
            && Dissolving(t', k, InsertAt(lo, if toRight then i + 2 else i + 1, right), node, target',
              if toRight then i else i + 1, toRight)
            && Beside(t0, t', k) && x in t'.rank && t'.rank[x] == t.rank[x]
            && Get(t'.children, node) == Get(t.children, node)
            && |Get(t'.children, target')| < MAX_BRANCHES - 1
  {
    hide Measured, Filled, WithinCapacity, Sound, InsertAt, Keep, Tail, NoEntry, Beside, BranchHalved, Distinct;
    var j, c := BranchReady(t, k, lo, i, x);
    assert t.levels[k + 1][j] != node && t.nextId != NIL && t.nextId !in t.runs;
    assert right == t.nextId by { FreshHalf(t, t', k, i, right); }
    hide Hangs, FreshId;
    HalfSizes(t.children[target]);
    BesideSplit(t0, t, t', k, i, right);
    SplitBeside(t.levels[k], i, node, right, toRight);
    SplitHolds(t, t', k, i, right, node);
    SplitNoEntry(t, t', k, i, right, node);
  }

  lemma {:induction false} FreshHalf<T>(t: Tree<T>, t': Tree<T>, k: nat, i: nat, right: Id)
    requires k < |t.levels| && i < |t.levels[k]| && BranchHalved(t, t', k, i, right)
    ensures right == t.nextId
  {}

  lemma {:induction false} BesideSplit<T>(t0: Tree<T>, t: Tree<T>, t': Tree<T>, k: nat, i: nat, right: Id)
    requires Beside(t0, t, k) && k < |t.levels| && i < |t.levels[k]| && BranchHalved(t, t', k, i, right)
    ensures Beside(t0, t', k)
  {
    hide InsertAt, Keep, Tail;
  }

  lemma {:induction false} SplitHolds<T>(t: Tree<T>, t': Tree<T>, k: nat, i: nat, right: Id, node: Id)
    requires k < |t.levels| && i < |t.levels[k]| && BranchHalved(t, t', k, i, right)
    requires node in t.rank && node != t.levels[k][i] && node != Ref(t.parent, t.levels[k][i])
    requires Get(t.children, node) != []
    requires 2 <= |Get(t.children, t.levels[k][i])| <= MAX_BRANCHES
    ensures t'.runs == t.runs && t'.levels == t.levels[k := InsertAt(t.levels[k], i + 1, right)]
    ensures Get(t'.children, node) == Get(t.children, node) && node in t'.children && t.levels[k][i] in t'.children
    ensures right in t'.children
    ensures t'.rank == t.rank[right := k] && right != node && right !in t.rank
    ensures |Get(t'.children, t.levels[k][i])| < MAX_BRANCHES - 1 && |Get(t'.children, right)| < MAX_BRANCHES - 1
  {
    HalfSizes(Get(t.children, t.levels[k][i]));
    hide InsertAt, Keep, Tail;
  }

  lemma {:induction false} MergingDone<T>(t0: Tree<T>, t: Tree<T>, t1: Tree<T>, k: nat, lo: seq<Id>, node: Id,
                                          target: Id, i: nat, toRight: bool, added: int, x: Id)
    requires Merging(t0, t, k, lo, node, target, i, toRight, added, x) && t.children[node] == []
    requires t1 == t.(children := t1.children) && SameNodes(t.children, t1.children)
    requires Sound(t1, k, lo) && Exact(t1)
    ensures Good(t1, 0, [], x) && Beside(t0, t1, k)
  {
    hide Measured, Filled, WithinCapacity, Sound, InsertAt, NoEntry, SameNodes, Beside;
    MergingSettled(t0, t, t1, k, lo, node, target, i, toRight, added, x);
    var g := if toRight then i else i + 1;
    RemoveInserted(t.levels[k], g, node);
    CloseGap(t1, k, lo, g);
  }

  lemma {:induction false} RemoveInserted<X>(s: seq<X>, g: nat, x: X)
    requires g <= |s|
    ensures |InsertAt(s, g, x)| == |s| + 1 && InsertAt(s, g, x)[g] == x && RemoveAt(InsertAt(s, g, x), g) == s
  {}

  // ----- whether the neighbour has to be split, and its parent is full ------------------------

  /** The children of `node` do not fit beside those of its neighbour, whose
      parent has no slot for another half. */
  ghost predicate NeighbourOverflows<T>(t: Tree<T>, node: Id, neighbour: Id) {
    && Get(t.children, node) != []
    && |Get(t.children, neighbour)| + |Get(t.children, node)| >= MAX_BRANCHES
    && |Get(t.children, Ref(t.parent, neighbour))| >= MAX_BRANCHES
  }

  /** The sizes while children move: before the neighbour is halved, if ever, and after. */
  ghost predicate Tally<T>(t0: Tree<T>, t: Tree<T>, node: Id, neighbour: Id, target: Id, halved: bool) {
    var q := Ref(t0.parent, neighbour);
    var left, moved := |Get(t.children, node)|, |Get(t0.children, node)|;
    if halved then
      !NeighbourOverflows(t0, node, neighbour) && |Get(t.children, target)| + left < MAX_BRANCHES - 2
    else
      && target == neighbour && q != node && q != neighbour && neighbour != node && Ref(t.parent, neighbour) == q
      && |Get(t.children, q)| == |Get(t0.children, q)| && left <= moved < MIN_BRANCHES
      && |Get(t.children, neighbour)| + left == |Get(t0.children, neighbour)| + moved
      && (left < moved ==> |Get(t.children, neighbour)| < MAX_BRANCHES)
  }

  lemma {:induction false} MergingLinks<T>(t0: Tree<T>, t: Tree<T>, k: nat, lo: seq<Id>, node: Id, target: Id, i: nat,
                                           toRight: bool, added: int, x: Id)
    requires Merging(t0, t, k, lo, node, target, i, toRight, added, x)
    ensures Parented(t.parent, t.children) && node in t.rank
  {}

  lemma {:induction false} TallyStart<T>(t: Tree<T>, k: nat, lo: seq<Id>, node: Id, neighbour: Id, i: nat,
                                         toRight: bool, added: int, x: Id)
    requires Merging(t, t, k, lo, node, neighbour, i, toRight, added, x) && |Get(t.children, node)| < MIN_BRANCHES
    ensures Tally(t, t, node, neighbour, neighbour, false)
  {
    hide Measured, Filled, WithinCapacity, NoEntry, InsertAt, Rooted, Ranked, Kinds, Allocated, AllLinked, Stacked,
      Parented, RunsPositive, RowRanked;
    var j, c := FindParent(t, k, lo, k, i);
  }

  lemma {:induction false} TallySettled<T>(t0: Tree<T>, t: Tree<T>, t1: Tree<T>, node: Id, neighbour: Id, target: Id,
                                           halved: bool)
    requires Tally(t0, t, node, neighbour, target, halved) && SameNodes(t.children, t1.children)
    requires t1.parent == t.parent
    ensures Tally(t0, t1, node, neighbour, target, halved) && |Get(t1.children, node)| == |Get(t.children, node)|
    ensures |Get(t1.children, target)| == |Get(t.children, target)|
  {
    hide NeighbourOverflows;
    SameSize(t.children, t1.children, node);
    SameSize(t.children, t1.children, target);
    SameSize(t.children, t1.children, Ref(t0.parent, neighbour));
  }

  lemma {:induction false} SameSize(ch: map<Id, seq<Child>>, ch': map<Id, seq<Child>>, n: Id)
    requires SameNodes(ch, ch')
    ensures |Get(ch, n)| == |Get(ch', n)|
  {
    if n in ch {
      assert |Nodes(ch[n])| == |Nodes(ch'[n])|;
    }
  }

  /** Where the target is found full, it is the neighbour itself. */
  lemma {:induction false} TallyFull<T>(t0: Tree<T>, t: Tree<T>, node: Id, neighbour: Id, target: Id, halved: bool)
    requires Tally(t0, t, node, neighbour, target, halved) && |Get(t.children, target)| >= MAX_BRANCHES - 1
    requires Get(t.children, node) != []
    ensures !halved && target == neighbour
    ensures |Get(t.children, Ref(t.parent, target))| == |Get(t0.children, Ref(t0.parent, neighbour))|
    ensures NeighbourOverflows(t0, node, neighbour) <==> |Get(t.children, Ref(t.parent, target))| >= MAX_BRANCHES
  {}

  lemma {:induction false} TallySplit<T>(t0: Tree<T>, t: Tree<T>, t': Tree<T>, k: nat, i: nat, node: Id, neighbour: Id,
                                         right: Id, toRight: bool)
    requires Tally(t0, t, node, neighbour, neighbour, false) && !NeighbourOverflows(t0, node, neighbour)
    requires k < |t.levels| && i < |t.levels[k]| && t.levels[k][i] == neighbour && BranchHalved(t, t', k, i, right)
    requires node in t.rank && |Get(t.children, neighbour)| <= MAX_BRANCHES
    ensures Tally(t0, t', node, neighbour, if toRight then neighbour else right, true)
    ensures Get(t'.children, node) == Get(t.children, node)
    ensures |Get(t'.children, if toRight then neighbour else right)| < MAX_BRANCHES - 1
  {
    hide NeighbourOverflows, Keep, Tail, InsertAt;
    HalfBound(Get(t.children, neighbour));
    assert Get(t'.children, node) == Get(t.children, node);
  }

  lemma {:induction false} HalfBound<X>(s: seq<X>)
    requires |s| <= MAX_BRANCHES
    ensures 2 * |Keep(s)| <= MAX_BRANCHES && 2 * |Tail(s)| <= MAX_BRANCHES
  {}

  lemma {:induction false} TallyMoved<T>(t0: Tree<T>, t: Tree<T>, t': Tree<T>, node: Id, neighbour: Id, target: Id,
                                         halved: bool, toRight: bool)
    requires Tally(t0, t, node, neighbour, target, halved) && node in t.children && t.children[node] != []
    requires target != node && |Get(t.children, target)| < MAX_BRANCHES - 1 && Parented(t.parent, t.children)
    requires var e := Moving(t.children[node], toRight);
             && t'.parent == t.parent[e.node := target]
             && t'.children ==
               t.children[target := Grown(Get(t.children, target), e, toRight)][node := Staying(t.children[node],
               toRight)]
    ensures Tally(t0, t', node, neighbour, target, halved)
  {
    hide NeighbourOverflows;
    var es := t.children[node];
    var e := Moving(es, toRight);
    assert e == t.children[node][if toRight then |es| - 1 else 0];
    assert |Staying(es, toRight)| == |es| - 1 &&
      |Grown(Get(t.children, target), e, toRight)| == |Get(t.children, target)| + 1;
  }

  lemma {:induction false} TallyDone<T>(t0: Tree<T>, t: Tree<T>, node: Id, neighbour: Id, target: Id, halved: bool)
    requires Tally(t0, t, node, neighbour, target, halved) && Get(t.children, node) == []
    ensures !NeighbourOverflows(t0, node, neighbour)
  {}

  // ----- compacting a branch -----------------------------------------------------------

  lemma {:induction false} LevelBelowOf<T>(t: Tree<T>, k: nat)
    requires Whole(t) && 0 < k < |t.levels|
    ensures Covers(t.children, t.levels[k], t.levels[k - 1]) && t.levels[k - 1] != []
  {
    hide Covers, Ranked, Kinds, Allocated, AllLinked, Parented, RunsPositive;
    assert Covers(t.children, Row(t.levels, 0, [], k), t.levels[k - 1]);
  }

  /** A node alone on its level holds all of the level below. */
  lemma {:induction false} AloneHolds<T>(t: Tree<T>, k: nat)
    requires Whole(t) && 0 < k < |t.levels| && |t.levels[k]| == 1
    ensures |Get(t.children, t.levels[k][0])| == |t.levels[k - 1]| >= 1
    ensures Nodes(Get(t.children, t.levels[k][0])) == t.levels[k - 1]
  {
    LevelBelowOf(t, k);
    hide Sound, Gather;
    assert t.levels[k] == [t.levels[k][0]];
    GatherOne(t.children, t.levels[k][0]);
  }

  lemma {:induction false} RootFilled<T>(t: Tree<T>, k: nat)
    requires Good(t, 0, [], ROOT) && 0 < k && k + 1 == |t.levels|
    ensures Good(t, 0, [], NIL)
  {
    RootPlace(t, 0, []);
    AloneHolds(t, k);
    hide Sound, Measured, WithinCapacity, RootedAt;
    FillExempt(t, k, 0, ROOT);
  }

  /** Fill holds without exemption once it is known of the exempt node. */
  lemma {:induction false} FillExempt<T>(t: Tree<T>, k: nat, i: nat, x: Id)
    requires Full(t, x) && Ranked(t.levels, t.rank) && k < |t.levels| && i < |t.levels[k]| && t.levels[k][i] == x
    requires MinSize(t.levels, k) <= Size(t.children, t.runs, x)
    ensures Full(t, NIL)
  {
    hide Size, MinSize;
    forall l, y {:trigger t.levels[l][y]} | 0 <= l < |t.levels| && 0 <= y < |t.levels[l]|
      ensures MinSize(t.levels, l) <= Size(t.children, t.runs, t.levels[l][y])
    {
      if t.levels[l][y] == x {
        assert t.rank[t.levels[l][y]] == l && t.rank[t.levels[k][i]] == k;
      }
    }
  }

  lemma {:induction false} LinksOf<T>(t: Tree<T>, k: nat, i: nat, x: Id)
    requires Good(t, 0, [], x) && k < |t.levels| && i < |t.levels[k]|
    ensures var ids := t.levels[k];
            && Ref(t.prev, ids[i]) == (if i == 0 then NIL else ids[i - 1])
            && Ref(t.next, ids[i]) == (if i + 1 == |ids| then NIL else ids[i + 1])
            && (forall y :: 0 <= y < |ids| ==> ids[y] != NIL)
            && (i > 0 ==> ids[i - 1] != ids[i]) && (i + 1 < |ids| ==> ids[i + 1] != ids[i])
  {
    hide Rooted, Kinds, Stacked, Parented, RunsPositive, Measured, Filled, WithinCapacity;
    assert Linked(t.prev, t.next, t.levels[k]);
    forall y | 0 <= y < |t.levels[k]|
      ensures t.levels[k][y] != NIL
    {
      assert t.levels[k][y] in t.rank;
    }
    assert Distinct(t.levels[k]);
  }

  lemma {:induction false} AloneFilled<T>(t: Tree<T>, k: nat, i: nat)
    requires 0 < k && k + 1 < |t.levels| && i < |t.levels[k]| && Good(t, 0, [], t.levels[k][i])
    requires |t.levels[k]| == 1
    requires !(|Get(t.children, t.levels[k][i])| == 1 && |Get(t.children, Ref(t.parent, t.levels[k][i]))| == 1)
    ensures Good(t, 0, [], NIL)
  {
    AloneHolds(t, k);
    var node := t.levels[k][i];
    var j := ParentPlace(t, k, i, node);
    ParentOfAlone(t, k, i, j);
    hide Measured, WithinCapacity, Filled, Rooted, Kinds, Allocated, AllLinked, Stacked, Parented, RunsPositive;
    FillExempt(t, k, i, node);
  }

  /** The parent of a lone node is alone too, and has no other child. */
  lemma {:induction false} ParentOfAlone<T>(t: Tree<T>, k: nat, i: nat, j: nat)
    requires 0 < k && k + 1 < |t.levels| && i < |t.levels[k]| && Good(t, 0, [], t.levels[k][i])
    requires |t.levels[k]| == 1 && j < |t.levels[k + 1]| && t.levels[k + 1][j] == Ref(t.parent, t.levels[k][i])
    ensures |Get(t.children, t.levels[k + 1][j])| == 1
    ensures t.levels[k][i] in t.children && t.levels[k][i] !in t.runs
  {
    assert Kind(k, t.levels[k][i], t.runs, t.children);
    LevelBelowOf(t, k + 1);
    CoverParts(t.children, t.levels[k + 1], t.levels[k], j);
    hide Measured, WithinCapacity, Covers, Gather, Rooted, Allocated, AllLinked, Stacked, RunsPositive;
    var j', c := FindParent(t, 0, [], k, i);
    assert Distinct(t.levels[k + 1]);
  }

  lemma {:induction false} LargeFilled<T>(t: Tree<T>, k: nat, i: nat)
    requires k < |t.levels| && i < |t.levels[k]| && Good(t, 0, [], t.levels[k][i])
    requires |Get(t.children, t.levels[k][i])| >= MIN_BRANCHES && t.levels[k][i] !in t.runs
    ensures Good(t, 0, [], NIL)
  {
    hide Measured, WithinCapacity, Filled, Rooted, Kinds, Allocated, AllLinked, Stacked, Parented, RunsPositive;
    FillExempt(t, k, i, t.levels[k][i]);
  }

  /** A branch and its parent with one child each: the parent is the root. */
  lemma {:induction false} OnlyChild<T>(t: Tree<T>, k: nat, i: nat)
    requires 0 < k && k + 1 < |t.levels| && i < |t.levels[k]| && Good(t, 0, [], t.levels[k][i])
    requires var node := t.levels[k][i];
             |Get(t.children, node)| == 1 && |Get(t.children, Ref(t.parent, node))| == 1
    ensures var node := t.levels[k][i];
            var p := Ref(t.parent, node);
            && p == ROOT && p in t.children && node in t.children && k + 2 == |t.levels|
            && t.levels[k] == [node] && i == 0 && Ref(t.prev, node) == NIL && Ref(t.next, node) == NIL
            && Ref(t.prev, p) == NIL && Ref(t.next, p) == NIL
            && |t.children[p]| == 1 && t.children[p][0].node == node
            && Spindly(t, node, t.children[node][0].node, t.children[p][0].length)
  {
    var node := t.levels[k][i];
    var j, c := FindParent(t, 0, [], k, i);
    OnlyChildTop(t, k, i, j, c);
    hide Measured, WithinCapacity, Filled, Rooted, Kinds, Allocated, AllLinked, Stacked, Parented, RunsPositive;
    assert t.children[ROOT] == [Child(node, t.children[ROOT][0].length)];
    SpindlyBelow(t, node, t.children[ROOT][0].length);
    LinksOf(t, k, i, node);
    LinksOf(t, k + 1, 0, node);
  }

  lemma {:induction false} OnlyChildTop<T>(t: Tree<T>, k: nat, i: nat, j: nat, c: nat)
    requires 0 < k && Hangs(t, k, i, j, c) && Good(t, 0, [], t.levels[k][i])
    requires |Get(t.children, t.levels[k + 1][j])| == 1
    ensures k + 2 == |t.levels| && t.levels[k + 1] == [ROOT] && t.levels[k] == [t.levels[k][i]] && j == 0 && c == 0
  {
    var p := t.levels[k + 1][j];
    assert MinSize(t.levels, k + 1) <= 1 by {
      assert Size(t.children, t.runs, p) == 1;
      assert t.levels[k + 1][j] != t.levels[k][i];
    }
    hide Measured, WithinCapacity, Filled, Ranked, Kinds, Allocated, AllLinked, Parented, RunsPositive;
    assert t.levels[k + 1] == [ROOT];
    AloneHolds(t, k + 1);
  }

  lemma {:induction false} CollapseKeeps<T>(t: Tree<T>, node: Id, d: Id, length: nat)
    requires Good(t, 0, [], node) && Spindly(t, node, d, length)
    ensures var t' := Collapse(t, node, d, length);
            Good(t', 0, [], ROOT) && |t'.levels| == |t.levels| - 1 && t'.levels[|t'.levels| - 1] == [ROOT]
    ensures var t' := Collapse(t, node, d, length); t'.levels[0] == t.levels[0]
  {
    hide Measured, WithinCapacity, Filled, Rooted, Ranked, Kinds, Allocated, AllLinked, Stacked, Parented, RunsPositive;
    var t' := Collapse(t, node, d, length);
    CollapseSound(t, node, d, length);
    CollapseExact(t, node, d, length);
    CollapseSizes(t, node, d, length);
    WeakerFill(t', ROOT);
  }

  lemma {:induction false} WeakerFill<T>(t: Tree<T>, x: Id)
    requires Full(t, NIL) && Whole(t)
    ensures Full(t, x)
  {
    hide MinSize, Size;
    forall l, y {:trigger t.levels[l][y]} | 0 <= l < |t.levels| && 0 <= y < |t.levels[l]|
      ensures MinSize(t.levels, l) <= Size(t.children, t.runs, t.levels[l][y])
    {
      assert t.levels[l][y] in t.rank;
    }
  }

  // ----- taking a node off its level ------------------------------------------------------

  lemma {:induction false} ExactSettles<T>(t: Tree<T>, k: nat, i: nat, length: nat)
    requires k < |t.levels| && i < |t.levels[k]| && Good(t, 0, [], t.levels[k][i])
    requires length == Len(t.children, t.runs, t.levels[k][i])
    ensures var n := t.levels[k][i];
            && Whole(t) && Measured(t.children, t.runs, n, 0 - length, n, length)
            && Settles(t, k, n, n, length)
  {
    hide Rooted, Kinds, Allocated, AllLinked, Stacked, Parented, RunsPositive, WithinCapacity, Filled, Len;
    NoNilEntry(t, 0, []);
  }

  /** `n` and everything below it still hold what they did. */
  ghost predicate BelowSame<T>(t: Tree<T>, t1: Tree<T>, k: nat) {
    forall n {:trigger Get(t1.children, n)} :: n in t.rank && t.rank[n] <= k ==>
      Get(t1.children, n) == Get(t.children, n)
  }

  lemma {:induction false} BelowSelf<T>(t: Tree<T>, k: nat)
    ensures BelowSame(t, t, k)
  {}

  lemma {:induction false} BelowTrans<T>(t: Tree<T>, t1: Tree<T>, t2: Tree<T>, k: nat, p: Id)
    requires p in t.rank && t.rank[p] == k + 1 && t1 == t.(children := t1.children)
    requires forall n {:trigger Get(t1.children, n)} :: n != p ==> Get(t1.children, n) == Get(t.children, n)
    requires BelowSame(t1, t2, k + 1)
    ensures BelowSame(t, t2, k)
  {
    forall n {:trigger Get(t2.children, n)} | n in t.rank && t.rank[n] <= k
      ensures Get(t2.children, n) == Get(t.children, n)
    {
      assert Get(t1.children, n) == Get(t.children, n);
    }
  }

  lemma {:induction false} DetachReady<T>(t: Tree<T>, t1: Tree<T>, k: nat, i: nat, length: nat) returns (j: nat, c: nat)
    requires k + 1 < |t.levels| && i < |t.levels[k]| && Good(t, 0, [], t.levels[k][i])
    requires length == Len(t.children, t.runs, t.levels[k][i])
    requires t1 == t.(children := t1.children) && SameNodes(t.children, t1.children) && BelowSame(t, t1, k)
    requires Whole(t1) && Measured(t1.children, t1.runs, NIL, 0, t.levels[k][i], length)
    ensures Hangs(t1, k, i, j, c)
    ensures var n := t.levels[k][i];
            var p := Ref(t.parent, n);
            && j < |t.levels[k + 1]| && t.levels[k + 1][j] == p && p in t1.children && c < |t1.children[p]|
            && (n in t.runs <==> k == 0)
            && t1.children[p][c].node == n && t1.children[p][c].length == 0
            && Distinct(Nodes(t1.children[p])) && |t1.children[p]| == |Get(t.children, p)|
  {
    j, c := FindParent(t1, 0, [], k, i);
    var n := t.levels[k][i];
    var p := Ref(t.parent, n);
    assert n in t.rank && t.rank[n] == k;
    hide Sound, Filled, WithinCapacity, Total, ChildTotal;
    assert Get(t1.children, n) == Get(t.children, n);
    assert t1.children[p][c].length + length == Len(t1.children, t1.runs, t1.children[p][c].node);
    assert |Nodes(t1.children[p])| == |Nodes(t.children[p])|;
  }

  /** Node i of level k is out of the tree; its parent, node j of level k + 1,
      may be underfilled. */
  ghost predicate Detached<T>(t: Tree<T>, t2: Tree<T>, k: nat, i: nat, j: nat)
    requires k < |t.levels| && i < |t.levels[k]|
  {
    var node := t.levels[k][i];
    var p := Ref(t.parent, node);
    && k + 1 < |t.levels| && j < |t.levels[k + 1]| && t.levels[k + 1][j] == p
    && t2.levels == t.levels[k := RemoveAt(t.levels[k], i)] && t2.rank == t.rank && t2.runs == t.runs
    && t2.parent == t.parent
    && Sound(t2, k, t.levels[k]) && Exact(t2) && NoEntry(t2.children, node) && Full(t2, p) && Fits(t2)
    && p in t2.rank && t2.rank[p] == k + 1 && p != node
    && (if k > 0 then node in t2.children && node !in t2.runs else node in t2.runs && node !in t2.children)
  }

  lemma {:induction false} DetachKeeps<T>(t: Tree<T>, t1: Tree<T>, t2: Tree<T>, k: nat, i: nat, j: nat, c: nat,
                                          length: nat)
    requires k + 1 < |t.levels| && i < |t.levels[k]| && Good(t, 0, [], t.levels[k][i]) && |t.levels[k]| >= 2
    requires t1 == t.(children := t1.children) && SameNodes(t.children, t1.children)
    requires Whole(t1) && Measured(t1.children, t1.runs, NIL, 0, t.levels[k][i], length)
    requires Hangs(t1, k, i, j, c) && t1.children[t1.levels[k + 1][j]][c].length == 0
    requires t2 == Detach(t1, k, i, t1.levels[k + 1][j], c)
    ensures Detached(t, t2, k, i, j)
  {
    hide Filled, WithinCapacity, Measured, Rooted, Ranked, Kinds, AllLinked, Stacked, RunsPositive, NoEntry, RemoveAt,
      SameNodes, Distinct, Allocated, Parented;
    var node, p := t.levels[k][i], t.levels[k + 1][j];
    IdIsFresh(t1, 0, []);
    SameNodesSizes(t, t1, node);
    DetachSound(t1, k, i, j, c);
    DetachMeasured(t1.children, t2.children, t1.runs, t1.parent, p, c, node, length);
    DetachFilled(t1, t2, k, i, j, c);
  }

  /** The parent of `node` has one child less, and nothing else changed in size. */
  ghost predicate OneChildLess<T>(t: Tree<T>, t2: Tree<T>, node: Id) {
    var p := Ref(t.parent, node);
    && t2.parent == t.parent && |Get(t2.children, p)| == |Get(t.children, p)| - 1
    && forall n {:trigger Get(t2.children, n)} :: n != p ==> |Get(t2.children, n)| == |Get(t.children, n)|
  }

  lemma {:induction false} DetachCounts<T>(t: Tree<T>, t1: Tree<T>, t2: Tree<T>, k: nat, i: nat, c: nat)
    requires k < |t.levels| && i < |t.levels[k]| && t1 == t.(children := t1.children)
    requires SameNodes(t.children, t1.children)
    requires c < |Get(t1.children, Ref(t.parent, t.levels[k][i]))|
    requires t2 == Detach(t1, k, i, Ref(t.parent, t.levels[k][i]), c)
    ensures OneChildLess(t, t2, t.levels[k][i])
  {
    hide SameNodes, PrevUnlinked, NextUnlinked;
    var p := Ref(t.parent, t.levels[k][i]);
    forall n: Id
      ensures |Get(t2.children, n)| == if n == p then |Get(t.children, n)| - 1 else |Get(t.children, n)|
    {
      SameSize(t.children, t1.children, n);
    }
  }

  /** The neighbour that is to take the children, as the source chooses it. */
  ghost function MergeTarget<T>(t: Tree<T>, node: Id): Id {
    var left, right := Ref(t.prev, node), Ref(t.next, node);
    if left == NIL || (right != NIL && |Get(t.children, left)| > |Get(t.children, right)|) then right else left
  }

  /** The children do not fit, and the neighbour has another parent, which is full. */
  ghost predicate DissolvingOverflows<T>(t: Tree<T>, node: Id) {
    var n := MergeTarget(t, node);
    NeighbourOverflows(t, node, n) && Ref(t.parent, n) != Ref(t.parent, node)
  }

  lemma {:induction false} OverflowsDetached<T>(t: Tree<T>, t2: Tree<T>, k: nat, i: nat, j: nat, n: Id)
    requires k < |t.levels| && i < |t.levels[k]| && OneChildLess(t, t2, t.levels[k][i])
    requires n != Ref(t.parent, t.levels[k][i]) && t.levels[k][i] != Ref(t.parent, t.levels[k][i])
    requires |Get(t.children, Ref(t.parent, t.levels[k][i]))| <= MAX_BRANCHES
    ensures NeighbourOverflows(t2, t.levels[k][i], n) <==>
            NeighbourOverflows(t, t.levels[k][i], n) && Ref(t.parent, n) != Ref(t.parent, t.levels[k][i])
    ensures |Get(t2.children, t.levels[k][i])| == |Get(t.children, t.levels[k][i])|
  {}

  lemma {:induction false} SizesStay<T>(t: Tree<T>, t2: Tree<T>, k: nat, i: nat, n: Id)
    requires k + 1 < |t.levels| && i < |t.levels[k]| && Good(t, 0, [], t.levels[k][i])
    requires OneChildLess(t, t2, t.levels[k][i])
    requires n == NIL || n in t.levels[k]
    ensures n != NIL ==> |Get(t2.children, n)| == |Get(t.children, n)|
  {
    hide Good;
    if n != NIL {
      NeighbourNotParent(t, k, i, n);
    }
  }

  /** The two nodes of a level are not their parents. */
  lemma {:induction false} NeighbourNotParent<T>(t: Tree<T>, k: nat, i: nat, n: Id)
    requires k + 1 < |t.levels| && i < |t.levels[k]| && Good(t, 0, [], t.levels[k][i]) && n in t.levels[k]
    ensures var p := Ref(t.parent, t.levels[k][i]);
            n != p && t.levels[k][i] != p && |Get(t.children, p)| <= MAX_BRANCHES
  {
    var j, c := FindParent(t, 0, [], k, i);
    hide Measured, Filled, AllLinked, Stacked, Parented, RunsPositive;
    var y :| 0 <= y < |t.levels[k]| && t.levels[k][y] == n;
    assert t.rank[t.levels[k][y]] == k && t.rank[t.levels[k + 1][j]] == k + 1;
    assert Size(t.children, t.runs, t.levels[k + 1][j]) <= MAX_RUNS;
  }

  lemma {:induction false} DetachFilled<T>(t: Tree<T>, t': Tree<T>, k: nat, i: nat, j: nat, c: nat)
    requires Whole(t) && Hangs(t, k, i, j, c) && Full(t, t.levels[k][i]) && Fits(t)
    requires t' == Detach(t, k, i, t.levels[k + 1][j], c)
    ensures Full(t', t.levels[k + 1][j]) && Fits(t')
  {
    var p := t.levels[k + 1][j];
    assert Size(t.children, t.runs, t.levels[k + 1][j]) <= MAX_RUNS;
    assert |t'.children[p]| == |t.children[p]| - 1;
    hide Filled, WithinCapacity, Rooted, Kinds, AllLinked, Stacked, RunsPositive, Allocated, Parented, RemoveAt,
      Distinct;
    DetachSizes(t, t', k, i, p);
  }

  lemma {:induction false} Neighbours<T>(t: Tree<T>, k: nat, i: nat, node: Id, toRight: bool)
    requires k < |t.levels| && i < |t.levels[k]| && t.levels[k][i] == node && Good(t, 0, [], node) && |t.levels[k]| >= 2
    requires toRight ==> Ref(t.next, node) != NIL
    requires !toRight ==> Ref(t.prev, node) != NIL
    ensures var ids := RemoveAt(t.levels[k], i);
            var i' := if toRight then i else i - 1;
            && 0 <= i' < |ids| && ids[i'] == (if toRight then Ref(t.next, node) else Ref(t.prev, node))
            && ids[i'] != node && ids[i'] != NIL
            && InsertAt(ids, i, node) == t.levels[k]
            && i == (if toRight then i' else i' + 1)
  {
    hide Good;
    LinksOf(t, k, i, node);
    InsertRemoved(t.levels[k], i);
  }

  lemma {:induction false} InsertRemoved<X>(s: seq<X>, i: nat)
    requires i < |s|
    ensures InsertAt(RemoveAt(s, i), i, s[i]) == s
  {}

  lemma {:induction false} StartMerging<T>(t: Tree<T>, t2: Tree<T>, k: nat, i: nat, j: nat, node: Id, toRight: bool)
    requires 0 < k && k + 1 < |t.levels| && i < |t.levels[k]| && t.levels[k][i] == node && Good(t, 0, [], node)
    requires |t.levels[k]| >= 2
    requires toRight ==> Ref(t.next, node) != NIL
    requires !toRight ==> Ref(t.prev, node) != NIL
    requires Detached(t, t2, k, i, j)
    ensures var i' := if toRight then i else i - 1;
            var neighbour := if toRight then Ref(t.next, node) else Ref(t.prev, node);
            && k + 1 < |t2.levels| && j < |t2.levels[k + 1]| && t2.levels[k + 1][j] == Ref(t.parent, node)
            && t2.levels[0] == t.levels[0] && t2.runs == t.runs && |t2.levels| == |t.levels|
            && 0 <= i' < |t2.levels[k]|
            && Merging(t2, t2, k, InsertAt(t2.levels[k], if toRight then i' else i' + 1, node), node, neighbour, i',
              toRight, 0, Ref(t.parent, node))
  {
    Neighbours(t, k, i, node, toRight);
    var i' := if toRight then i else i - 1;
    assert Kind(k, t2.levels[k][i'], t2.runs, t2.children);
    assert t.levels[k][i] in t.rank && t.rank[t.levels[k][i]] == k && node != NIL;
    hide Filled, WithinCapacity, Measured, Sound, NoEntry, InsertAt, RemoveAt;
    ZeroDebt(t2.children, t2.runs, t2.levels[k][i']);
  }

  lemma {:induction false} ParentStays<T>(t: Tree<T>, t': Tree<T>, k: nat, j: nat, p: Id)
    requires k + 1 < |t.levels| && j < |t.levels[k + 1]| && t.levels[k + 1][j] == p && Beside(t, t', k) && 0 < k
    ensures |t'.levels| == |t.levels|
    ensures k + 1 < |t'.levels| && j < |t'.levels[k + 1]| && t'.levels[k + 1][j] == p && t'.levels[0] == t.levels[0]
    ensures t'.runs == t.runs
  {}

  // ----- the loop that redistributes the runs of a leaf ------------------------------------

  /** The runs of the level with `rest` in front of leaf g. */
  ghost function Spliced<X>(m: map<Id, seq<X>>, ids: seq<Id>, g: nat, rest: seq<X>): seq<X> {
    if g <= |ids| then Gather(m, ids[..g]) + rest + Gather(m, ids[g..]) else []
  }

  lemma {:induction false} SplicedNone<X>(m: map<Id, seq<X>>, ids: seq<Id>, g: nat)
    requires g <= |ids|
    ensures Spliced(m, ids, g, []) == Gather(m, ids)
  {
    hide Gather;
    GatherConcat(m, ids[..g], ids[g..]);
    assert ids == ids[..g] + ids[g..];
  }

  lemma {:induction false} SplicedMove<X>(m: map<Id, seq<X>>, m': map<Id, seq<X>>, ids: seq<Id>, i: nat, e: X,
                                          rest: seq<X>, toRight: bool)
    requires i < |ids| && Distinct(ids) && ids[i] in m && m' == m[ids[i] := Grown(m[ids[i]], e, toRight)]
    ensures var g := if toRight then i else i + 1;
            Spliced(m', ids, g, rest) == Spliced(m, ids, g, if toRight then rest + [e] else [e] + rest)
  {
    if toRight {
      SplicedMoveRight(m, m', ids, i, e, rest);
    } else {
      SplicedMoveLeft(m, m', ids, i, e, rest);
    }
  }

  lemma {:induction false} SplicedMoveRight<X>(m: map<Id, seq<X>>, m': map<Id, seq<X>>, ids: seq<Id>, i: nat, e: X,
                                               rest: seq<X>)
    requires i < |ids| && Distinct(ids) && ids[i] in m && m' == m[ids[i] := [e] + m[ids[i]]]
    ensures Spliced(m', ids, i, rest) == Spliced(m, ids, i, rest + [e])
  {
    GatherSame(m, m', ids[..i]);
    hide Gather;
    var tail := ids[i..];
    assert tail[..0] == [];
    GatherNone(m);
    GatherPatch(m, m', tail, 0);
    GatherAt(m, tail, 0);
    hide Distinct;
    assert Gather(m', tail) == [e] + Gather(m, tail);
  }

  lemma {:induction false} SplicedMoveLeft<X>(m: map<Id, seq<X>>, m': map<Id, seq<X>>, ids: seq<Id>, i: nat, e: X,
                                              rest: seq<X>)
    requires i < |ids| && Distinct(ids) && ids[i] in m && m' == m[ids[i] := m[ids[i]] + [e]]
    ensures Spliced(m', ids, i + 1, rest) == Spliced(m, ids, i + 1, [e] + rest)
  {
    GatherSame(m, m', ids[i + 1..]);
    GatherSame(m, m', ids[..i]);
    hide Gather, Distinct;
    LastGrows(m, m', ids[..i], ids[i], e);
    assert ids[..i] + [ids[i]] == ids[..i + 1];
    MoveAcross(Gather(m, ids[..i + 1]), e, rest, Gather(m, ids[i + 1..]));
  }

  lemma {:induction false} LastGrows<X>(m: map<Id, seq<X>>, m': map<Id, seq<X>>, a: seq<Id>, n: Id, e: X)
    requires Gather(m', a) == Gather(m, a) && Get(m', n) == Get(m, n) + [e]
    ensures Gather(m', a + [n]) == Gather(m, a + [n]) + [e]
  {
    hide Gather;
    GatherConcat(m, a, [n]);
    GatherConcat(m', a, [n]);
    GatherOne(m, n);
    GatherOne(m', n);
  }

  lemma {:induction false} MoveAcross<X>(a: seq<X>, e: X, rest: seq<X>, b: seq<X>)
    ensures (a + [e]) + rest + b == a + ([e] + rest) + b
  {}

  lemma {:induction false} SplicedSplit<X>(m: map<Id, seq<X>>, m': map<Id, seq<X>>, ids: seq<Id>, i: nat, right: Id,
                                           rest: seq<X>, toRight: bool)
    requires i < |ids| && Distinct(ids) && right !in ids && ids[i] in m
    requires m' == m[ids[i] := Keep(m[ids[i]])][right := Tail(m[ids[i]])]
    ensures Spliced(m', InsertAt(ids, i + 1, right), if toRight then i else i + 2, rest) ==
              Spliced(m, ids, if toRight then i else i + 1, rest)
  {
    hide Gather, Keep, Tail;
    HalvesMeet(m[ids[i]]);
    var ids' := InsertAt(ids, i + 1, right);
    if toRight {
      GatherSame(m, m', ids[..i]);
      GatherSplit(m, m', ids[i..], 0, right);
      assert ids'[..i] == ids[..i] && ids'[i..] == InsertAt(ids[i..], 1, right);
    } else {
      GatherSame(m, m', ids[i + 1..]);
      GatherSplit(m, m', ids[..i + 1], i, right);
      assert ids'[i + 2..] == ids[i + 1..] && ids'[..i + 2] == InsertAt(ids[..i + 1], i + 1, right);
    }
  }

  ghost predicate LeafMerging<T>(t: Tree<T>, all: seq<Run<T>>, rest: seq<Run<T>>, target: Id, i: nat, toRight: bool,
                                 added: int, x: Id) {
    && Whole(t) && Full(t, x) && Fits(t) && Stands(t, x)
    && Measured(t.children, t.runs, target, added, NIL, 0)
    && i < |t.levels[0]| && t.levels[0][i] == target
    && AllPositive(rest)
    && Spliced(t.runs, t.levels[0], if toRight then i else i + 1, rest) == all
  }

  lemma {:induction false} StartLeafMerging<T>(t: Tree<T>, node: Id, rest: seq<Run<T>>, target: Id, i: nat,
                                               toRight: bool, x: Id)
    requires t.levels != [] && i < |t.levels[0]| && t.levels[0][i] == target && Good(t, 0, [], x) && Stands(t, x)
    requires node in t.runs && rest == t.runs[node]
    ensures LeafMerging(t, Spliced(t.runs, t.levels[0], if toRight then i else i + 1, rest), rest, target, i, toRight,
              0, x)
  {
    hide Rooted, Ranked, Kinds, Allocated, AllLinked, Stacked, Parented, Measured, Filled, WithinCapacity, Stands,
      Spliced;
    ZeroDebt(t.children, t.runs, target);
  }

  lemma {:induction false} LeafMergingParts<T>(t: Tree<T>, all: seq<Run<T>>, rest: seq<Run<T>>, target: Id, i: nat,
                                               toRight: bool, added: int, x: Id)
    requires LeafMerging(t, all, rest, target, i, toRight, added, x)
    ensures Whole(t) && Measured(t.children, t.runs, target, added, NIL, 0) && Settles(t, 0, target, NIL, 0)
    ensures |t.levels| >= 2 && i < |t.levels[0]| && t.levels[0][i] == target && target in t.runs
    ensures target !in t.children
    ensures |t.runs[target]| <= MAX_RUNS
  {
    TwoLevels(t);
    hide Rooted, Ranked, Allocated, AllLinked, Stacked, Parented, RunsPositive, Measured, Filled, Stands, Spliced;
    assert Kind(0, t.levels[0][i], t.runs, t.children);
    assert Size(t.children, t.runs, t.levels[0][i]) <= MAX_RUNS;
  }

  lemma {:induction false} TwoLevels<T>(t: Tree<T>)
    requires Whole(t)
    ensures |t.levels| >= 2
  {
    hide Ranked, Kinds, Allocated, AllLinked, Stacked, Parented, RunsPositive;
  }

  lemma {:induction false} LeafMergingSettled<T>(t: Tree<T>, t1: Tree<T>, all: seq<Run<T>>, rest: seq<Run<T>>,
                                                 target: Id, i: nat, toRight: bool, added: int, x: Id)
    requires LeafMerging(t, all, rest, target, i, toRight, added, x)
    requires t1 == t.(children := t1.children) && SameNodes(t.children, t1.children) && Whole(t1) && Exact(t1)
    ensures LeafMerging(t1, all, rest, target, i, toRight, 0, x) && Good(t1, 0, [], x)
  {
    hide Sound, Measured, Filled, WithinCapacity, Spliced, SameNodes;
    SameNodesSizes(t, t1, x);
    ZeroDebt(t1.children, t1.runs, target);
  }

  lemma {:induction false} LeafMergingSplit<T>(t: Tree<T>, t': Tree<T>, all: seq<Run<T>>, rest: seq<Run<T>>, target: Id,
                                               i: nat, toRight: bool, right: Id, x: Id)
    requires LeafMerging(t, all, rest, target, i, toRight, 0, x) && t.levels != [] && i < |t.levels[0]|
    requires LeafHalved(t, t', i, right) && Good(t', 0, [], x) && AllStand(t, t')
    requires |Get(t.runs, target)| >= MAX_RUNS - 1
    ensures var target' := if toRight then target else right;
            var i' := if toRight then i else i + 1;
            && LeafMerging(t', all, rest, target', i', toRight, 0, x)
            && |Get(t'.runs, target')| < MAX_RUNS - 1
  {
    LeafMergingParts(t, all, rest, target, i, toRight, 0, x);
    assert Distinct(t.levels[0]) && right !in t.levels[0];
    hide Sound, Measured, Filled, WithinCapacity, Spliced, Stands;
    SplicedSplit(t.runs, t'.runs, t.levels[0], i, right, rest, toRight);
    InsertAtIndex(t.levels[0], i + 1, right, i);
    InsertAtIndex(t.levels[0], i + 1, right, i + 1);
    HalfSizes(t.runs[target]);
    ZeroDebt(t'.children, t'.runs, if toRight then target else right);
  }

  lemma {:induction false} MeasuredRuns<T>(ch: map<Id, seq<Child>>, runs: map<Id, seq<Run<T>>>,
                                           runs': map<Id, seq<Run<T>>>, n: Id, d: int, x: int)
    requires Measured(ch, runs, n, d, NIL, 0) && n in runs && n in runs' && runs' == runs[n := runs'[n]]
    requires Total(runs'[n]) == Total(runs[n]) + x
    ensures Measured(ch, runs', n, d + x, NIL, 0)
  {
    hide Total, ChildTotal;
  }

  lemma {:induction false} GrownRuns<T>(s: seq<Run<T>>, r: Run<T>, toRight: bool)
    requires AllPositive(s) && r.length > 0
    ensures AllPositive(Grown(s, r, toRight)) && Total(Grown(s, r, toRight)) == Total(s) + r.length
    ensures |Grown(s, r, toRight)| == |s| + 1
  {
    ExpandConcat([r], s);
    ExpandConcat(s, [r]);
    ExpandOne(r);
  }

  lemma {:induction false} LeafMergingMoved<T>(t: Tree<T>, t': Tree<T>, all: seq<Run<T>>, run: Run<T>,
                                               rest: seq<Run<T>>, target: Id, i: nat, toRight: bool, added: int, x: Id)
    requires LeafMerging(t, all, if toRight then rest + [run] else [run] + rest, target, i, toRight, added, x)
    requires |Get(t.runs, target)| < MAX_RUNS - 1 && target in t.runs
    requires t' == t.(runs := t.runs[target := Grown(t.runs[target], run, toRight)])
    ensures LeafMerging(t', all, rest, target, i, toRight, added + run.length, x)
  {
    LeafMergingParts(t, all, if toRight then rest + [run] else [run] + rest, target, i, toRight, added, x);
    PositiveParts(rest, run, toRight);
    assert Distinct(t.levels[0]) && AllPositive(t.runs[target]);
    assert Ranked(t.levels, t.rank);
    hide Rooted, Kinds, Allocated, AllLinked, Stacked, Parented, RunsPositive, Measured, Filled, WithinCapacity,
      Spliced, Stands, Ranked, Grown, AllPositive;
    GrownRuns(t.runs[target], run, toRight);
    WithRuns(t, target, Grown(t.runs[target], run, toRight));
    MeasuredRuns(t.children, t.runs, t'.runs, target, added, run.length);
    SplicedMove(t.runs, t'.runs, t.levels[0], i, run, rest, toRight);
    GrowSizes(t, t', 0, i, x);
    StandsSame(t, t', x);
  }

  lemma {:induction false} StandsSame<T>(t: Tree<T>, t': Tree<T>, x: Id)
    requires Stands(t, x) && t'.levels == t.levels
    ensures Stands(t', x)
  {}

  lemma {:induction false} PositiveParts<T>(rest: seq<Run<T>>, run: Run<T>, toRight: bool)
    requires AllPositive(if toRight then rest + [run] else [run] + rest)
    ensures AllPositive(rest) && run.length > 0
  {
    var s := if toRight then rest + [run] else [run] + rest;
    assert s[if toRight then |rest| else 0] == run;
    assert forall y :: 0 <= y < |rest| ==> rest[y] == s[if toRight then y else y + 1];
  }

  lemma {:induction false} LeafMergingDone<T>(t: Tree<T>, all: seq<Run<T>>, target: Id, i: nat, toRight: bool, x: Id)
    requires LeafMerging(t, all, [], target, i, toRight, 0, x)
    ensures t.levels != [] && Gather(t.runs, t.levels[0]) == all && Stands(t, x)
  {
    LeafMergingParts(t, all, [], target, i, toRight, 0, x);
    hide Sound, Measured, Filled, WithinCapacity, Spliced, Stands;
    SplicedNone(t.runs, t.levels[0], if toRight then i else i + 1);
  }

  // ----- compacting a leaf ---------------------------------------------------------------

  lemma {:induction false} StandsWhere<T>(t: Tree<T>, x: Id) returns (l: nat, y: nat)
    requires Stands(t, x)
    ensures 1 <= l < |t.levels| && y < |t.levels[l]| && t.levels[l][y] == x
  {
    l, y :| 1 <= l < |t.levels| && 0 <= y < |t.levels[l]| && t.levels[l][y] == x;
  }

  lemma {:induction false} AloneLeafFilled<T>(t: Tree<T>, i: nat)
    requires t.levels != [] && i < |t.levels[0]| && |t.levels[0]| == 1 && Good(t, 0, [], t.levels[0][i])
    ensures Good(t, 0, [], NIL)
  {
    hide Measured, WithinCapacity, Filled, Rooted, Kinds, Allocated, AllLinked, Stacked, Parented, RunsPositive, Size;
    FillExempt(t, 0, i, t.levels[0][i]);
  }

  lemma {:induction false} NoRow<T>(t: Tree<T>, lo: seq<Id>)
    requires Sound(t, 0, lo)
    ensures Whole(t)
  {
    hide Covers, Rooted, Ranked, Kinds, Allocated, AllLinked, Parented, RunsPositive;
    forall l | 1 <= l < |t.levels|
      ensures Covers(t.children, Row(t.levels, 0, [], l), t.levels[l - 1])
    {
      assert Covers(t.children, Row(t.levels, 0, lo, l), t.levels[l - 1]);
    }
  }

  lemma {:induction false} LeafDetached<T>(t: Tree<T>, t2: Tree<T>, i: nat, j: nat, node: Id, toRight: bool)
    requires t.levels != [] && i < |t.levels[0]| && t.levels[0][i] == node && Good(t, 0, [], node) && |t.levels[0]| >= 2
    requires toRight ==> Ref(t.next, node) != NIL
    requires !toRight ==> Ref(t.prev, node) != NIL
    requires Detached(t, t2, 0, i, j)
    ensures var i' := if toRight then i else i - 1;
            var neighbour := if toRight then Ref(t.next, node) else Ref(t.prev, node);
            var p := Ref(t.parent, node);
            && t2.levels != [] && 0 <= i' < |t2.levels[0]| && t2.levels[0][i'] == neighbour && neighbour != node
            && node !in t2.levels[0] && node in t2.runs && Good(t2, 0, [], p) && Stands(t2, p)
            && Spliced(t2.runs, t2.levels[0], if toRight then i' else i' + 1, t2.runs[node]) ==
              Gather(t.runs, t.levels[0])
  {
    Neighbours(t, 0, i, node, toRight);
    NoRow(t2, t.levels[0]);
    hide Measured, WithinCapacity, Filled, Sound, Gather;
    var ids := t2.levels[0];
    assert t2.levels[1][j] == Ref(t.parent, node);
    GatherAt(t.runs, t.levels[0], i);
    assert ids[..i] == t.levels[0][..i] && ids[i..] == t.levels[0][i + 1..];
    assert node !in ids by { LeafGone(t, i); }
  }

  lemma {:induction false} LeafGone<T>(t: Tree<T>, i: nat)
    requires t.levels != [] && i < |t.levels[0]| && Good(t, 0, [], t.levels[0][i])
    ensures t.levels[0][i] !in RemoveAt(t.levels[0], i)
  {
    hide Rooted, Kinds, AllLinked, Stacked, Parented, RunsPositive, Measured, Filled, WithinCapacity;
    assert Distinct(t.levels[0]);
  }
}
