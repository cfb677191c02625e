/** CjhTextRegion: a B+tree of runs that labels every character of a text. */
module TextRegions {
  import opened Runs
  import opened Levels
  import opened Forest
  import opened Trees
  import opened Dissolution
  import opened Searching
  import opened Iteration
  import opened Splitting
  import opened Settling
  import opened Compacting
  import opened Locating
  import opened Editing
  import opened Traversal

  class TextRegion<T(!new)> {
    /** NULL is the callback that never joins. */
    const join: JoinFunc<T>

    // The nodes, one map for each field of the records.
    var parent: map<Id, Id>
    var prev: map<Id, Id>
    var next: map<Id, Id>
    var runs: map<Id, seq<Run<T>>>
    var children: map<Id, seq<Child>>
    var nextId: Id

    var length: nat
    var cached: Id
    var cachedOffset: nat

    /** The tree level by level, leaves first, and the level of every node. */
    ghost var levels: seq<seq<Id>>
    ghost var rank: map<Id, int>

    ghost function Snap(): Tree<T>
      reads this
    {
      Tree(parent, prev, next, runs, children, nextId, levels, rank)
    }

    // ----- small steps -------------------------------------------------------------

    method NodeLength(n: Id) returns (total: nat)
      ensures total == Len(children, runs, n)
    {
      total := 0;
      if n in runs {
        var rs := runs[n];
        var i := 0;
        while i < |rs|
          invariant i <= |rs| && total == Total(rs[..i])
        {
          RunAt(rs, i);
          total := total + rs[i].length;
          i := i + 1;
        }
        assert rs[..i] == rs;
      } else {
        total := ChildrenLength(Get(children, n));
      }
    }

    static method ChildrenLength(es: seq<Child>) returns (total: nat)
      ensures total == ChildTotal(es)
    {
      total := 0;
      var i := 0;
      while i < |es|
        invariant i <= |es| && total == ChildTotal(es[..i])
      {
        ChildTotalAt(es, i);
        total := total + es[i].length;
        i := i + 1;
      }
      assert es[..i] == es;
    }

    /** The entry of `p` for its child `n`. */
    method FindChild(p: Id, n: Id, ghost c: nat) returns (i: nat)
      requires c < |Get(children, p)| && Get(children, p)[c].node == n
      requires Distinct(Nodes(Get(children, p)))
      ensures i == c
    {
      var es := Get(children, p);
      i := 0;
      while es[i].node != n
        invariant i <= c
        decreases c - i
      {
        i := i + 1;
      }
      assert Nodes(es)[i] == Nodes(es)[c];
    }

    method SetParents(es: seq<Child>, p: Id)
      modifies `parent
      ensures parent == Reparent(old(parent), Nodes(es), p)
    {
      var i := 0;
      ghost var ids := Nodes(es);
      while i < |es|
        invariant i <= |es|
        invariant Reparent(parent, ids[i..], p) == Reparent(old(parent), ids, p)
      {
        parent := parent[es[i].node := p];
        assert ids[i..][1..] == ids[i + 1..];
        i := i + 1;
      }
    }

    /** Puts `right` after `left` in the list of its level. */
    method LinkAfter(left: Id, right: Id)
      modifies `prev, `next
      ensures prev == PrevLinks(old(prev), left, right, Ref(old(next), left))
      ensures next == NextLinks(old(next), left, right, Ref(old(next), left))
    {
      var after := Ref(next, left);
      next := next[right := after];
      prev := prev[right := left];
      if after != NIL {
        prev := prev[after := right];
      }
      next := next[left := right];
    }

    // ----- splitting ------------------------------------------------------------------

    /** SORTED_ARRAY_SPLIT of the runs of a leaf, and the length of the new one. */
    method SplitRuns(left: Id, right: Id) returns (rightLength: nat)
      requires left in runs && left != right
      modifies `runs
      ensures runs == old(runs)[left := Keep(old(runs)[left])][right := Tail(old(runs)[left])]
      ensures rightLength == Total(Tail(old(runs)[left]))
    {
      var rs := runs[left];
      runs := runs[left := Keep(rs)][right := Tail(rs)];
      rightLength := NodeLength(right);
    }

    method SplitLeaf(left: Id, ghost i: nat, ghost x: Id) returns (right: Id)
      requires Good(Snap(), 0, [], x)
      requires |levels| >= 2 && i < |levels[0]| && levels[0][i] == left
      requires |Get(runs, left)| >= 2 * MIN_RUNS && |Get(children, Ref(parent, left))| < MAX_BRANCHES
      modifies `parent, `prev, `next, `runs, `children, `nextId, `levels, `rank
      ensures Good(Snap(), 0, [], x)
      ensures LeafHalved(old(Snap()), Snap(), i, right) && AllStand(old(Snap()), Snap())
    {
      hide Good, LeafHalved, AllStand, Hangs, InsertAt, Total, Keep, Tail, SplitEntries, PrevLinks, NextLinks, Distinct;
      ghost var t := Snap();
      ghost var j, c := LeafReady(t, i, x);
      var p := Ref(parent, left);
      right := nextId;
      nextId := nextId + 1;
      parent := parent[right := p];

      runs := runs[right := []];
      var rightLength := SplitRuns(left, right);

      var es := children[p];
      var e := FindChild(p, left, c);
      LinkAfter(left, right);
      children := children[p := SplitEntries(es, e, right, es[e].length - rightLength, rightLength)];
      levels := levels[0 := InsertAt(levels[0], i + 1, right)];
      rank := rank[right := 0];
      SplitLeafKeeps(t, Snap(), i, j, c, es[e].length - rightLength, rightLength, x);
    }

    method SplitBranch(left: Id, ghost k: nat, ghost i: nat, ghost lo: seq<Id>, ghost y: nat, ghost x: Id)
      returns (ok: bool, right: Id)
      requires 0 < k && Good(Snap(), k, lo, x)
      requires k + 1 < |levels| && i < |levels[k]| && levels[k][i] == left && y < |lo| && lo[y] == left
      requires |Get(children, left)| >= 2 * MIN_BRANCHES
      modifies `parent, `prev, `next, `children, `nextId, `levels, `rank
      ensures ok <==> |Get(old(children), Ref(old(parent), left))| < MAX_BRANCHES
      ensures ok ==> Good(Snap(), k, InsertAt(lo, y + 1, right), x)
      ensures ok ==> BranchHalved(old(Snap()), Snap(), k, i, right)
    {
      hide Good, BranchHalved, Hangs, Distinct, InsertAt, Keep, Tail, SplitEntries, ChildTotal, Reparent, PrevLinks,
        NextLinks;
      ghost var t := Snap();
      ghost var j, c := BranchReady(t, k, lo, i, x);
      var p := Ref(parent, left);
      right := nextId;
      nextId := nextId + 1;
      parent := parent[right := p];
      LinkAfter(left, right);

      var es := children[left];
      var leftLength := ChildrenLength(Keep(es));
      var rightLength := ChildrenLength(Tail(es));
      SetParents(Tail(es), right);
      var siblings := children[p];
      if |siblings| >= MAX_BRANCHES {
        return false, right;
      }
      var e := FindChild(p, left, c);
      children := children[right := []][p := SplitEntries(siblings, e, right, leftLength, rightLength)];
      children := children[left := Keep(es)][right := Tail(es)];
      levels := levels[k := InsertAt(levels[k], i + 1, right)];
      rank := rank[right := k];
      SplitBranchKeeps(t, Snap(), k, lo, y, i, j, c, x);
      return true, right;
    }

    method SplitRoot(ghost x: Id)
      requires Good(Snap(), 0, [], x) && |Get(children, ROOT)| >= 2 * MIN_BRANCHES
      modifies `parent, `prev, `next, `children, `nextId, `levels, `rank
      ensures Good(Snap(), 0, [], x)
      ensures RootSplitShape(old(Snap()), Snap())
    {
      hide Good, RootSplitShape, Keep, Tail, ChildTotal, Reparent, RootedAt;
      ghost var t := Snap();
      RootReady(t, x);
      var es := children[ROOT];
      var left, right := nextId, nextId + 1;
      nextId := nextId + 2;
      parent := parent[left := ROOT][right := ROOT];
      prev := prev[left := NIL][right := left];
      next := next[left := right][right := NIL];
      children := children[left := Keep(es)][right := Tail(es)];
      SetParents(Keep(es), left);
      SetParents(Tail(es), right);
      var rightLength := ChildrenLength(Tail(es));
      var leftLength := ChildrenLength(Keep(es));
      children := children[ROOT := [Child(left, leftLength), Child(right, rightLength)]];
      levels := levels[..|levels| - 1] + [[left, right], [ROOT]];
      rank := rank[left := |levels| - 2][right := |levels| - 2][ROOT := |levels| - 1];
      SplitRootKeeps(t, x);
    }

    predicate NeedsSplit(n: Id)
      reads this
    {
      if n in runs then |runs[n]| >= MAX_RUNS - 2 else |Get(children, n)| >= MAX_BRANCHES - 2
    }

    /** Splits a node, first making room in its ancestors. */
    method NodeSplit(node: Id, ghost k: nat, ghost i: nat, ghost x: Id) returns (right: Id)
      requires Good(Snap(), 0, [], x)
      requires k < |levels| && i < |levels[k]| && levels[k][i] == node
      requires NeedsSplit(node)
      modifies `parent, `prev, `next, `runs, `children, `nextId, `levels, `rank, `cached, `cachedOffset
      ensures Good(Snap(), 0, [], x) && cached == NIL && AllStand(old(Snap()), Snap())
      ensures k == 0 ==> LeafHalved(old(Snap()), Snap(), i, right)
      ensures k > 0 ==> Untouched(old(Snap()), Snap(), k) && HasRoom(Snap(), Get(old(children), node))
      decreases |levels| - k
    {
      hide Good, LeafHalved, AllStand, BranchHalved, Untouched, HasRoom, RootSplitShape, RootedAt, InsertAt, Keep, Tail;
      cached, cachedOffset := NIL, 0;
      ghost var t := Snap();
      var p := Ref(parent, node);
      ghost var j := ParentPlace(t, k, i, x);
      if p != NIL && NeedsSplit(p) {
        var _ := NodeSplit(p, k + 1, j, x);
        RoomFor(Snap(), Get(t.children, p), node);
      } else {
        UntouchedSelf(t, k + 1);
        StandSelf(t);
      }
      ghost var t1 := Snap();
      UntouchedNode(t, t1, k, i);
      if node in runs {
        right := SplitLeaf(node, i, x);
        LeafHalvedSince(t, t1, Snap(), i, right);
      } else if p == NIL {
        SplitRoot(x);
        right := ROOT;
        RootSplitBelow(t, t1, Snap(), k, x);
        RootSplitStands(t1, Snap());
      } else {
        GoodAt(t1, k, x);
        var ok;
        ok, right := SplitBranch(node, k, i, levels[k], i, x);
        BranchHalvedBelow(t, t1, Snap(), k, i, right, x);
        GoodAt(Snap(), k, x);
        HalvedStands(t1, Snap(), k, i, right);
      }
      StandTrans(t, t1, Snap());
    }

    // ----- lengths of the ancestors ---------------------------------------------------------

    /** cjh_text_region_add_to_parents, and with a negative `d`
        cjh_text_region_subtract_from_parents. */
    method AdjustParents(node: Id, d: int, ghost k: nat, ghost i: nat, ghost kk: nat, ghost lo: seq<Id>, ghost keep: Id,
                         ghost e: int)
      requires Sound(Snap(), kk, lo) && kk <= k < |levels| && i < |levels[k]| && levels[k][i] == node
      requires Measured(children, runs, node, d, keep, e)
      requires Settles(Snap(), k, node, keep, e)
      modifies `children, `cached, `cachedOffset
      ensures Sound(Snap(), kk, lo) && Measured(children, runs, NIL, 0, keep, e)
      ensures SameNodes(old(children), children) && BelowSame(old(Snap()), Snap(), k)
      ensures if d != 0 && k + 1 < |levels| then cached == NIL
                else cached == old(cached) && cachedOffset == old(cachedOffset)
      decreases |levels| - k
    {
      hide Sound, Measured, SameNodes, Settles, Hangs, Distinct, BelowSame;
      ghost var t := Snap();
      var p := Ref(parent, node);
      ParentNil(t, kk, lo, k, i);
      if p == NIL || d == 0 {
        AdjustDone(t, kk, lo, k, i, d, keep, e);
        BelowSelf(t, k);
        return;
      }
      cached, cachedOffset := NIL, 0;
      ghost var j, c := EntryReady(t, kk, lo, k, i, d, keep, e);
      var x := FindChild(p, node, c);
      children := children[p := children[p][x := Child(node, children[p][x].length + d)]];
      AdjustStep(t, Snap(), kk, lo, k, i, j, c, d, keep, e);
      ghost var t1 := Snap();
      AdjustParents(p, d, k + 1, j, kk, lo, keep, e);
      SameNodesTrans(t.children, t1.children, children);
      BelowTrans(t, t1, Snap(), k, p);
    }

    /** The loop at the end of _cjh_text_region_insert. */
    method GrowAncestors(target: Id, d: nat, ghost i: nat)
      requires Whole(Snap()) && levels != [] && i < |levels[0]| && levels[0][i] == target
      requires Measured(children, runs, target, d, NIL, 0)
      modifies `children
      ensures Whole(Snap()) && Exact(Snap())
      ensures SameNodes(old(children), children)
    {
      hide Sound, Measured, SameNodes, Settles, Hangs, Distinct;
      var node := target;
      var p := Ref(parent, node);
      ghost var k: nat, y: nat := 0, i;
      SameNodesSelf(children);
      while p != NIL
        invariant k < |levels| && y < |levels[k]| && levels[k][y] == node && p == Ref(parent, node)
        invariant Sound(Snap(), 0, []) && Measured(children, runs, node, d, NIL, 0)
        invariant SameNodes(old(children), children)
        decreases |levels| - k
      {
        ghost var t := Snap();
        NilSettles(t, k, node);
        ParentNil(t, 0, [], k, y);
        ghost var j, c := EntryReady(t, 0, [], k, y, d, NIL, 0);
        var x := FindChild(p, node, c);
        children := children[p := children[p][x := Child(node, children[p][x].length + d)]];
        AdjustStep(t, Snap(), 0, [], k, y, j, c, d, NIL, 0);
        SameNodesTrans(old(children), t.children, children);
        k, y := k + 1, j;
        node := p;
        p := Ref(parent, node);
      }
      AdjustDone(Snap(), 0, [], k, y, d, NIL, 0);
    }

    // ----- compacting branches ------------------------------------------------------------------

    /** The redistribution loops of cjh_text_region_branch_compact: the children
        of `node`, which has left level k, go one by one to its neighbour, the
        last first when that is on the right. */
    method MergeInto(node: Id, neighbour: Id, toRight: bool, ghost k: nat, ghost i: nat, ghost x: Id) returns (ok: bool)
      requires k < |levels| && i < |levels[k]|
      requires Merging(Snap(), Snap(), k, InsertAt(levels[k], if toRight then i else i + 1, node), node, neighbour, i,
                 toRight, 0, x)
      requires cached == NIL && |Get(children, node)| < MIN_BRANCHES
      modifies `parent, `prev, `next, `children, `nextId, `levels, `rank, `cached, `cachedOffset
      ensures ok ==> Good(Snap(), 0, [], x) && Beside(old(Snap()), Snap(), k) && cached == NIL
      ensures ok <==> !NeighbourOverflows(old(Snap()), node, neighbour)
      ensures !ok ==> |old(Gather(runs, levels[0]))| >= CROWD
    {
      hide Good, Sound, Measured, Merging, Beside, SameNodes, Settles, InsertAt, Moving, Staying, Grown, Tally,
        NeighbourOverflows;
      ghost var t0 := Snap();
      var target, added := neighbour, 0;
      ghost var lo, y, halved := InsertAt(levels[k], if toRight then i else i + 1, node), i, false;
      MergingParts(t0, t0, k, lo, node, target, y, toRight, added, x);
      TallyStart(t0, k, lo, node, neighbour, i, toRight, added, x);
      while children[node] != []
        invariant Merging(t0, Snap(), k, lo, node, target, y, toRight, added, x) && cached == NIL && node in children
        invariant Tally(t0, Snap(), node, neighbour, target, halved)
        decreases |children[node]|
      {
        ghost var t := Snap();
        MergingParts(t0, t, k, lo, node, target, y, toRight, added, x);
        if |children[target]| >= MAX_BRANCHES - 1 {
          ok, target, lo, y := HalveNeighbour(node, neighbour, target, toRight, added, t0, k, lo, y, halved, x);
          added := 0;
          if !ok {
            return;
          }
          halved := true;
        }
        ghost var t2 := Snap();
        MergingParts(t0, t2, k, lo, node, target, y, toRight, added, x);
        MergingLinks(t0, t2, k, lo, node, target, y, toRight, added, x);
        var e := Moving(children[node], toRight);
        parent := parent[e.node := target];
        added := added + e.length;
        children := children[target := Grown(children[target], e, toRight)][node := Staying(children[node], toRight)];
        MergingMoved(t0, t2, k, lo, node, target, y, toRight, added - e.length, x);
        TallyMoved(t0, t2, Snap(), node, neighbour, target, halved, toRight);
        assert |children[node]| < |t2.children[node]| by { StayingShorter(t2.children[node], toRight); }
      }
      ghost var t := Snap();
      TallyDone(t0, t, node, neighbour, target, halved);
      MergingParts(t0, t, k, lo, node, target, y, toRight, added, x);
      AdjustParents(target, added, k, y, k, lo, NIL, 0);
      MergingDone(t0, t, Snap(), k, lo, node, target, y, toRight, added, x);
      ok := true;
    }

    /** Splits the neighbour when the next child would fill it.  The split needs a
        slot in its parent. */
    method HalveNeighbour(node: Id, ghost neighbour: Id, target: Id, toRight: bool, added: int,
                          ghost t0: Tree<T>, ghost k: nat, ghost lo: seq<Id>, ghost y: nat, ghost halved: bool,
                            ghost x: Id)
      returns (ok: bool, target': Id, ghost lo': seq<Id>, ghost y': nat)
      requires Merging(t0, Snap(), k, lo, node, target, y, toRight, added, x) && cached == NIL
      requires Tally(t0, Snap(), node, neighbour, target, halved) && Get(children, node) != []
      requires |Get(children, target)| >= MAX_BRANCHES - 1
      modifies `parent, `prev, `next, `children, `nextId, `levels, `rank, `cached, `cachedOffset
      ensures ok <==> !NeighbourOverflows(t0, node, neighbour)
      ensures !ok ==> t0.levels != [] && |Gather(t0.runs, t0.levels[0])| >= CROWD
      ensures ok ==> Merging(t0, Snap(), k, lo', node, target', y', toRight, 0, x) && cached == NIL
      ensures ok ==> Tally(t0, Snap(), node, neighbour, target', true)
      ensures ok ==> |Get(children, node)| == |old(Get(children, node))| && |Get(children, target')| < MAX_BRANCHES - 1
    {
      hide Good, Sound, Measured, Merging, BranchHalved, Beside, SameNodes, Settles, InsertAt, Tally,
        NeighbourOverflows;
      ghost var t := Snap();
      MergingParts(t0, t, k, lo, node, target, y, toRight, added, x);
      AdjustParents(target, added, k, y, k, lo, NIL, 0);
      ghost var t1 := Snap();
      MergingSettled(t0, t, t1, k, lo, node, target, y, toRight, added, x);
      TallySettled(t0, t, t1, node, neighbour, target, halved);
      TallyFull(t0, t1, node, neighbour, target, halved);
      target', lo', y' := target, lo, y;
      var right;
      ok, right := SplitBranch(target, k, y, lo, if toRight then y + 1 else y, x);
      if !ok {
        MergingCrowded(t0, t1, k, lo, node, target, y, toRight, x);
        return;
      }
      MergingSplit(t0, t1, Snap(), k, lo, node, target, y, toRight, right, x);
      MergingLinks(t0, t1, k, lo, node, target, y, toRight, 0, x);
      TallySplit(t0, t1, Snap(), k, y, node, neighbour, right, toRight);
      lo' := InsertAt(lo, if toRight then y + 2 else y + 1, right);
      if !toRight {
        target', y' := right, y + 1;
      }
    }

    /** cjh_text_region_branch_compact: `node` has just lost a child.  Entries
        whose node is NULL, which the source sweeps out first, do not occur
        here: the source leaves them only in nodes it is about to free. */
    method BranchCompact(node: Id, ghost k: nat, ghost i: nat) returns (ok: bool)
      requires Good(Snap(), 0, [], node) && 0 < k < |levels| && i < |levels[k]| && levels[k][i] == node
      requires cached == NIL
      modifies `parent, `prev, `next, `children, `nextId, `levels, `rank, `cached, `cachedOffset
      ensures ok ==> Good(Snap(), 0, [], NIL) && cached == NIL && levels != [] && levels[0] == old(levels[0])
      ensures !ok ==> |old(Gather(runs, levels[0]))| >= CROWD
      decreases |levels| - k
    {
      hide Good, Sound, Measured, Merging, Beside, SameNodes, Settles, Hangs, Spindly, Distinct;
      ghost var t := Snap();
      var p := Ref(parent, node);
      ghost var j := ParentPlace(t, k, i, node);
      if p == NIL {
        RootFilled(t, k);
        return true;
      }
      LinksOf(t, k, i, node);
      if |children[node]| == 1 && |Get(children, p)| == 1 {
        OnlyChild(t, k, i);
        var d := children[node][0].node;
        var length := children[p][0].length;
        children := children[p := [Child(d, length)]][node := []];
        parent := parent[d := p];
        levels := levels[..|levels| - 2] + [[ROOT]];
        rank := rank[ROOT := |levels| - 1];
        CollapseKeeps(t, node, d, length);
        ok := BranchCompact(p, k, 0);
        return;
      }
      if Ref(prev, node) == NIL && Ref(next, node) == NIL {
        AloneFilled(t, k, i);
        return true;
      }
      if |children[node]| >= MIN_BRANCHES {
        LargeFilled(t, k, i);
        return true;
      }

      j, ok := DissolveBranch(node, k, i);
      if ok {
        ok := BranchCompact(p, k + 1, j);
      }
    }

    /** Removes an underfilled branch; its children go to a neighbour. */
    method DissolveBranch(node: Id, ghost k: nat, ghost i: nat) returns (ghost j: nat, ok: bool)
      requires 0 < k && k + 1 < |levels| && i < |levels[k]| && levels[k][i] == node && Good(Snap(), 0, [], node)
      requires |levels[k]| >= 2 && node in children && |children[node]| < MIN_BRANCHES && cached == NIL
      modifies `parent, `prev, `next, `children, `nextId, `levels, `rank, `cached, `cachedOffset
      ensures ok ==> |levels| == |old(levels)| && levels[0] == old(levels[0]) && cached == NIL
      ensures ok ==>
                Good(Snap(), 0, [], Ref(old(parent), node)) && j < |levels[k + 1]| &&
                levels[k + 1][j] == Ref(old(parent), node)
      ensures ok <==> !DissolvingOverflows(old(Snap()), node)
      ensures !ok ==> |old(Gather(runs, levels[0]))| >= CROWD
    {
      hide Good, Merging, Beside, Detached, OneChildLess, NeighbourOverflows;
      ghost var t := Snap();
      var p := Ref(parent, node);
      var length := NodeLength(node);
      var left, right := Ref(prev, node), Ref(next, node);
      j := DetachNode(node, length, k, i);
      LinksOf(t, k, i, node);
      SizesStay(t, Snap(), k, i, left);
      SizesStay(t, Snap(), k, i, right);
      var toRight := left == NIL || (right != NIL && |Get(children, left)| > |Get(children, right)|);
      NeighbourNotParent(t, k, i, if toRight then right else left);
      StartMerging(t, Snap(), k, i, j, node, toRight);
      ghost var t2 := Snap();
      OverflowsDetached(t, t2, k, i, j, if toRight then right else left);
      ok := MergeInto(node, if toRight then right else left, toRight, k, if toRight then i else i - 1, p);
      if ok {
        ParentStays(t2, Snap(), k, j, p);
      }
    }

    /** Takes a node that is not alone on its level out of the tree. */
    method DetachNode(node: Id, length: nat, ghost k: nat, ghost i: nat) returns (ghost j: nat)
      requires k + 1 < |levels| && i < |levels[k]| && levels[k][i] == node && Good(Snap(), 0, [], node)
      requires |levels[k]| >= 2 && length == Len(children, runs, node) && cached == NIL
      modifies `prev, `next, `children, `levels, `cached, `cachedOffset
      ensures Detached(old(Snap()), Snap(), k, i, j) && OneChildLess(old(Snap()), Snap(), node) && cached == NIL
    {
      hide Good, Sound, Measured, BelowSame, SameNodes, Settles, Hangs, Distinct, PrevUnlinked, NextUnlinked, Detached,
        Len;
      ghost var t := Snap();
      var p := Ref(parent, node);
      ExactSettles(t, k, i, length);
      AdjustParents(node, -(length as int), k, i, 0, [], node, length);
      ghost var t1 := Snap();
      ghost var c;
      j, c := DetachReady(t, t1, k, i, length);
      var e := FindChild(p, node, c);
      children := children[p := children[p][..e] + children[p][e + 1..]];
      LinksOf(t, k, i, node);
      Unlink(node);
      if node in runs {
        prev, next := prev[node := NIL], next[node := NIL];
      }
      levels := levels[k := RemoveAt(levels[k], i)];
      DetachKeeps(t, t1, Snap(), k, i, j, c, length);
      DetachCounts(t, t1, Snap(), k, i, c);
    }

    /** Takes `node` out of the list of its level. */
    method Unlink(node: Id)
      requires Ref(prev, node) != node && Ref(next, node) != node
      modifies `prev, `next
      ensures prev == PrevUnlinked(old(prev), Ref(old(prev), node), Ref(old(next), node))
      ensures next == NextUnlinked(old(next), Ref(old(prev), node), Ref(old(next), node))
    {
      var left, right := Ref(prev, node), Ref(next, node);
      if left != NIL {
        next := next[left := right];
      }
      if right != NIL {
        prev := prev[right := left];
      }
    }

    // ----- compacting leaves -----------------------------------------------------------------------

    /** The redistribution loops of cjh_text_region_leaf_compact. */
    method MergeLeafInto(node: Id, neighbour: Id, toRight: bool, ghost i: nat, ghost x: Id)
      requires levels != [] && i < |levels[0]| && levels[0][i] == neighbour && node in runs && cached == NIL
      requires Good(Snap(), 0, [], x) && neighbour != node && node !in levels[0] && Stands(Snap(), x)
      modifies `parent, `prev, `next, `runs, `children, `nextId, `levels, `rank, `cached, `cachedOffset
      ensures Good(Snap(), 0, [], x) && cached == NIL && levels != [] && Stands(Snap(), x)
      ensures Gather(runs, levels[0]) == old(Spliced(runs, levels[0], if toRight then i else i + 1, runs[node]))
    {
      hide Good, Sound, Measured, LeafMerging, LeafHalved, SameNodes, Settles, BelowSame, Stands, Spliced, InsertAt,
        Moving, Staying, Grown;
      ghost var all := Spliced(runs, levels[0], if toRight then i else i + 1, runs[node]);
      var rest := runs[node];
      var target, added: nat := neighbour, 0;
      ghost var y: nat := i;
      StartLeafMerging(Snap(), node, rest, target, y, toRight, x);
      while rest != []
        invariant LeafMerging(Snap(), all, rest, target, y, toRight, added, x) && cached == NIL
        decreases |rest|
      {
        LeafMergingParts(Snap(), all, rest, target, y, toRight, added, x);
        if |runs[target]| >= MAX_RUNS - 1 {
          ghost var t := Snap();
          AdjustParents(target, added, 0, y, 0, [], NIL, 0);
          ghost var t1 := Snap();
          LeafMergingSettled(t, t1, all, rest, target, y, toRight, added, x);
          added := 0;
          var right := NodeSplit(target, 0, y, x);
          LeafMergingSplit(t1, Snap(), all, rest, target, y, toRight, right, x);
          if !toRight {
            target, y := right, y + 1;
          }
        }
        ghost var t2 := Snap();
        LeafMergingParts(t2, all, rest, target, y, toRight, added, x);
        var run := Moving(rest, toRight);
        StayingShorter(rest, toRight);
        rest := Staying(rest, toRight);
        added := added + run.length;
        runs := runs[target := Grown(runs[target], run, toRight)];
        LeafMergingMoved(t2, Snap(), all, run, rest, target, y, toRight, added - run.length, x);
      }
      ghost var t := Snap();
      LeafMergingParts(t, all, rest, target, y, toRight, added, x);
      AdjustParents(target, added, 0, y, 0, [], NIL, 0);
      LeafMergingSettled(t, Snap(), all, rest, target, y, toRight, added, x);
      LeafMergingDone(Snap(), all, target, y, toRight, x);
    }

    method LeafCompact(node: Id, ghost i: nat) returns (ok: bool)
      requires levels != [] && i < |levels[0]| && levels[0][i] == node && Good(Snap(), 0, [], node) && cached == NIL
      modifies `parent, `prev, `next, `runs, `children, `nextId, `levels, `rank, `cached, `cachedOffset
      ensures ok ==>
                Good(Snap(), 0, [], NIL) && cached == NIL && levels != [] &&
                Gather(runs, levels[0]) == old(Gather(runs, levels[0]))
      ensures !ok ==> |old(Gather(runs, levels[0]))| >= CROWD
      ensures old(OneLeafOnly(levels)) ==> ok && levels == old(levels)
    {
      hide Good, Detached, Stands, Len, Spliced, Gather;
      ghost var t := Snap();
      ghost var _ := ParentPlace(t, 0, i, node);
      LinksOf(t, 0, i, node);
      if Ref(prev, node) == NIL && Ref(next, node) == NIL {
        AloneLeafFilled(t, i);
        return true;
      }
      var p := Ref(parent, node);
      var left, right := Ref(prev, node), Ref(next, node);
      var length := NodeLength(node);
      ghost var j := DetachNode(node, length, 0, i);
      var toRight := left == NIL || (right != NIL && |Get(runs, left)| > |Get(runs, right)|);
      LeafDetached(t, Snap(), i, j, node, toRight);
      MergeLeafInto(node, if toRight then right else left, toRight, if toRight then i else i - 1, p);
      ghost var k, y := StandsWhere(Snap(), p);
      ok := BranchCompact(p, k, y);
    }

    // ----- searching -----------------------------------------------------------------------------

    /** cjh_text_region_node_search_recurse */
    method SearchRecurse(node: Id, offset: nat, ghost k: nat, ghost j: nat)
        returns (leaf: Id, within: nat, ghost i: nat)
      requires Good(Snap(), 0, [], NIL) && k < |levels| && j < |levels[k]| && levels[k][j] == node
      requires offset < Len(children, runs, node) || (offset == Len(children, runs, node) && j + 1 == |levels[k]|)
      ensures Finds(Snap(), i, within, LevelStart(Snap(), k, j) + offset) && levels[0][i] == leaf
      ensures Answers(Snap(), leaf, within, LevelStart(Snap(), k, j) + offset)
      decreases k
    {
      hide Good, Finds, LevelStart, LeafStart, ChildTotal, Len;
      ghost var t := Snap();
      if node in runs {
        FoundLeaf(t, k, j, offset);
        return node, offset, j;
      }
      BranchParts(t, k, j);
      var es := children[node];
      var c, rest := 0, offset;
      ghost var x;
      ChildTotalNone();
      assert es[..0] == [];
      while c < |es|
        invariant c <= |es| && 0 <= rest && rest + ChildTotal(es[..c]) == offset
      {
        ChildTotalAt(es, c);
        if rest < es[c].length {
          x := ChildPosition(t, k, j, c);
          leaf, within, i := SearchRecurse(es[c].node, rest, k - 1, x);
          return;
        }
        rest := rest - es[c].length;
        c := c + 1;
      }
      assert es[..c] == es;
      var last := |es| - 1;
      ChildTotalAt(es, last);
      x := ChildPosition(t, k, j, last);
      leaf, within, i := SearchRecurse(es[last].node, rest + es[last].length, k - 1, x);
    }

    method FirstLeaf() returns (leaf: Id)
      requires Good(Snap(), 0, [], NIL)
      ensures levels != [] && levels[0] != [] && leaf == levels[0][0]
    {
      hide Good, RootedAt, ChildTotal, Len;
      ghost var t := Snap();
      RootTop(t);
      leaf := ROOT;
      ghost var k: nat := |levels| - 1;
      while leaf !in runs
        invariant k < |levels| && levels[k] != [] && levels[k][0] == leaf
        decreases k
      {
        BranchParts(t, k, 0);
        ghost var x := ChildPosition(t, k, 0, 0);
        FirstOfLevel(t, k);
        leaf := children[leaf][0].node;
        k := k - 1;
      }
      ghost var _ := ParentPlace(t, k, 0, NIL);
    }

    /** The search when the cache does not help. */
    method SearchUncached(offset: nat) returns (leaf: Id, within: nat, ghost i: nat)
      requires Good(Snap(), 0, [], NIL) && levels != [] && offset <= Total(Gather(runs, levels[0]))
      ensures Finds(Snap(), i, within, offset) && levels[0][i] == leaf
      ensures Answers(Snap(), leaf, within, offset)
    {
      hide Good, LeafStart, LevelStart, Len, Total, Gather, Finds;
      if offset == 0 {
        leaf := FirstLeaf();
        within, i := 0, 0;
        FindsFirst(Snap());
      } else {
        RootSpan(Snap());
        leaf, within, i := SearchRecurse(ROOT, offset, |levels| - 1, 0);
      }
    }

    method Search(offset: nat) returns (leaf: Id, within: nat, ghost i: nat)
      requires Good(Snap(), 0, [], NIL) && CachePlace(Snap(), cached, cachedOffset)
      requires offset <= Total(Gather(runs, levels[0]))
      modifies `cached, `cachedOffset
      ensures Finds(Snap(), i, within, offset) && levels[0][i] == leaf
      ensures Answers(Snap(), leaf, within, offset)
      ensures CachePlace(Snap(), cached, cachedOffset) && cached == leaf
    {
      hide Good, LeafStart, LevelStart, Len, Total, Gather, CachePlace, Finds;
      ghost var t := Snap();
      if cached != NIL && offset >= cachedOffset {
        i := CacheWhere(t, cached, cachedOffset);
        var length := NodeLength(cached);
        var calcOffset := cachedOffset + length;
        if offset < calcOffset || (offset == calcOffset && Ref(next, cached) == NIL) {
          CacheHit(t, i, cachedOffset, offset);
          return cached, offset - cachedOffset, i;
        }
      }
      LevelsExist(t);
      leaf, within, i := SearchUncached(offset);
      CacheSet(t, i, within, offset);
      cached, cachedOffset := leaf, offset - within;
      assert Snap() == t;
    }

    // ----- the public operations ---------------------------------------------------------------------

    /** Every region reachable through the operations below is valid. */
    ghost predicate Valid()
      reads this
    {
      && Good(Snap(), 0, [], NIL)
      && CachePlace(Snap(), cached, cachedOffset)
      && length == |Characters()|
      && JoinsOnlyEqual(join)
    }

    /** The runs of the tree in order. */
    ghost function Contents(): seq<Run<T>>
      reads this
    {
      if levels == [] then [] else Gather(runs, levels[0])
    }

    /** One label per character: what the region stands for. */
    ghost function Characters(): seq<T>
      reads this
    {
      Expand(Contents())
    }

    constructor (join: JoinFunc<T>)
      requires JoinsOnlyEqual(join)
      ensures Valid() && Contents() == [] && Characters() == [] && this.join == join
    {
      var leaf := ROOT + 1;
      this.join := join;
      parent := map[leaf := ROOT];
      prev, next := map[], map[];
      runs := map[leaf := []];
      children := map[ROOT := [Child(leaf, 0)]];
      nextId := leaf + 1;
      length, cached, cachedOffset := 0, NIL, 0;
      levels := [[leaf], [ROOT]];
      rank := map[leaf := 0, ROOT := 1];
      new;
      OneLeafGood<T>([]);
      assert Snap() == OneLeaf([]);
    }

    /** The leaf for `offset`, split beforehand unless it has two free slots. */
    method SearchWithRoom(offset: nat) returns (target: Id, within: nat, ghost i: nat)
      requires Valid() && offset <= length
      modifies `parent, `prev, `next, `runs, `children, `nextId, `levels, `rank, `cached, `cachedOffset
      ensures Valid() && Contents() == old(Contents())
      ensures Finds(Snap(), i, within, offset) && levels[0][i] == target && cached == target
      ensures target in runs && |runs[target]| <= MAX_RUNS - 3
    {
      hide Good, CachePlace, Finds, LeafHalved, Expand, Total, Gather, AllStand;
      ghost var t0 := Snap();
      LevelsExist(t0);
      target, within, i := Search(offset);
      LeafHasRuns(t0, i, within, offset);
      if NeedsSplit(target) {
        ghost var i0, w0 := i, within;
        var right := NodeSplit(target, 0, i, NIL);
        ghost var t1 := Snap();
        SplitContents(t0, t1, i0, right, cachedOffset);
        target, within, i := Search(offset);
        SmallAfterSplit(t0, t1, i0, w0, right, i, within, offset);
      }
    }

    method Insert(offset: nat, count: nat, data: T)
      requires Valid() && offset <= length
      modifies this
      ensures Valid() && Characters() == Inserted(old(Characters()), offset, Repeat(count, data))
      ensures |Contents()| <= |old(Contents())| + 2
      ensures old(Contents()) == [] && count > 0 ==> Contents() == [Run(count, data)] && OneLeafOnly(levels)
      ensures count > 0 ==> InsertedRuns(old(Contents()), offset, Run(count, data), join, Contents())
    {
      hide Good, CachePlace, Finds, Total, Gather, SameNodes, InsertResult, LeafInserted, InsertOutcome, InsertedRuns;
      if count == 0 {
        assert Repeat(0, data) == [];
        return;
      }
      ghost var before := Characters();
      var target, within;
      ghost var i;
      target, within, i := SearchWithRoom(offset);
      hide Expand, Inserted;
      ghost var t := Snap();
      LeafHasRuns(t, i, within, offset);
      if runs[target] == [] {
        FirstRun(within, count, data);
        FirstInsert(offset, Run(count, data), join);
        runs := runs[target := [Run(count, data)]];
      } else {
        var out := InsertIntoRuns(runs[target], offset, within, Run(count, data), join);
        runs := runs[target := out];
      }
      ghost var t1 := Snap();
      InsertInLeaf(t, t1, i, within, offset, count, data);
      InsertedContents(t, t1, i, within, offset, Run(count, data), join);
      GrowAncestors(target, count, i);
      AfterInsert(t, t1, Snap(), i, cached, cachedOffset, offset, count, data);
      InsertedAlone(t, Snap(), i, within, offset);
      length := length + count;
    }

    /** Removes characters; `ok` is false where an assertion of the source about
        the capacity of an array would stop the program. */
    method Remove(offset: nat, n: nat) returns (ok: bool)
      requires Valid() && offset < length && n <= length - offset
      modifies this
      ensures ok ==>
                Valid() && Characters() == Deleted(old(Characters()), offset, n) &&
                |Contents()| <= |old(Contents())| + 1
      ensures ok && n > 0 ==> CutOutcome(old(Contents()), 0, offset, n, join, Contents())
      ensures ok && old(OneLeafOnly(levels)) ==> OneLeafOnly(levels)
      ensures !ok ==> old(SplitsFullLeaf(Snap(), join, offset, n)) || |old(Contents())| + 1 >= CROWD
      ensures !ok ==> |old(Contents())| >= MAX_RUNS
      ensures n > 0 && old(SplitsFullLeaf(Snap(), join, offset, n)) ==> !ok
      decreases n
    {
      hide Good, CachePlace, Total, Gather, SplitsFullLeaf, Expand, SplitsRun;
      if n == 0 {
        DeletedNone(Characters(), offset);
        return true;
      }
      ghost var before := Characters();
      FewRunsFit(Snap(), join, offset, n);
      var left;
      ok, left := RemovePass(offset, n);
      if ok && left > 0 {
        DeletedTwice(before, offset, n - left, left);
        ok := Remove(offset, left);
      }
    }

    /** One pass of _cjh_text_region_remove: deletes from one leaf, at most to
        its end, and compacts; `left` characters remain to be removed. */
    method RemovePass(offset: nat, n: nat) returns (ok: bool, left: nat)
      requires Valid() && 0 < n && offset + n <= length
      modifies this
      ensures ok ==> left < n && Valid() && Characters() == Deleted(old(Characters()), offset, n - left)
      ensures ok ==> TakesFromLeaf(old(Snap()), offset, n, n - left)
      ensures ok ==>
                |Contents()| <= |old(Contents())| + 1 &&
                CutOutcome(old(Contents()), 0, offset, n, join, Contents())
      ensures ok && left > 0 ==> !SplitsFullLeaf(Snap(), join, offset, left) && |Contents()| <= |old(Contents())|
      ensures ok && left > 0 ==> CutsNoRun(old(Contents()), 0, offset, n, join)
      ensures !ok ==> old(SplitsFullLeaf(Snap(), join, offset, n)) || |old(Contents())| + 1 >= CROWD
      ensures old(SplitsFullLeaf(Snap(), join, offset, n)) ==> !ok
      ensures ok && old(OneLeafOnly(levels)) ==> OneLeafOnly(levels)
    {
      hide Good, CachePlace, Finds, Total, Gather, RemovalOverflows, RemoveResult, SplitsFullLeaf, Expand, Measured,
        LeafStart, CutOutcome, CutsNoRun, TakesFromLeaf;
      ghost var t0 := Snap();
      LevelsExist(t0);
      var target, within;
      ghost var i;
      target, within, i := Search(offset);
      LeafHasRuns(t0, i, within, offset);
      InsideLeaf(t0, i, within, offset);
      var out;
      ok, out, left := RemoveFromRuns(runs[target], offset, within, n, join);
      OnlyLeafSplits(t0, join, i, within, offset, n);
      if !ok {
        return;
      }
      runs := runs[target := out];
      ghost var t1 := Snap();
      LeafCut(t0, t1, i, within, offset, n, left, join);
      length := length - (n - left);
      ok := SettleLeaf(target, n - left, i);
      if !ok {
        return;
      }
      NoCache(Snap(), cachedOffset);
      if left > 0 {
        NoSecondSplit(Snap(), join, t1, i, offset, left);
      }
    }

    /** A leaf has lost `removed` characters: its ancestors are told, and it is
        compacted when it holds too few runs. */
    method SettleLeaf(target: Id, removed: nat, ghost i: nat) returns (ok: bool)
      requires Whole(Snap()) && i < |levels[0]| && levels[0][i] == target && target in runs && 0 < removed
      requires Measured(children, runs, target, -(removed as int), NIL, 0) && Fits(Snap()) && Full(Snap(), target)
      modifies `parent, `prev, `next, `runs, `children, `nextId, `levels, `rank, `cached, `cachedOffset
      ensures ok ==>
                Good(Snap(), 0, [], NIL) && cached == NIL && levels != [] &&
                Gather(runs, levels[0]) == old(Gather(runs, levels[0]))
      ensures !ok ==> |old(Gather(runs, levels[0]))| >= CROWD
      ensures ok && old(OneLeafOnly(levels)) ==> OneLeafOnly(levels)
    {
      hide Good, Gather, SameNodes, Measured;
      ghost var t1 := Snap();
      var size := |runs[target]|;
      AdjustParents(target, -(removed as int), 0, i, 0, [], NIL, 0);
      LeafSettled(t1, Snap(), i);
      ok := true;
      if size < MIN_RUNS {
        ok := LeafCompact(target, i);
      } else {
        LeafLarge(Snap(), i);
      }
    }

    /** Relabels characters. */
    method Replace(offset: nat, n: nat, data: T) returns (ok: bool)
      requires Valid() && (n == 0 || offset + n <= length)
      modifies this
      ensures ok ==> Valid() && |Contents()| <= |old(Contents())| + 3
      ensures ok ==>
                Characters() ==
                if n == 0 then old(Characters()) else Relabelled(old(Characters()), offset, n, data)
      ensures !ok ==> old(SplitsFullLeaf(Snap(), join, offset, n)) || |old(Contents())| + 1 >= CROWD
      ensures !ok ==> |old(Contents())| >= MAX_RUNS
      ensures n > 0 && old(SplitsFullLeaf(Snap(), join, offset, n)) ==> !ok
    {
      hide Good, CachePlace, SplitsFullLeaf, Expand, Gather;
      if n == 0 {
        return true;
      }
      ghost var before := Characters();
      ok := Remove(offset, n);
      if ok {
        Insert(offset, n, data);
        InsertedAfterDelete(before, offset, n, data);
      }
    }

    // ----- iterating ---------------------------------------------------------------------------------

    /** Calls `func` for every run in order until it asks to stop; its user data
        is threaded through as a value. */
    method Foreach<S>(func: Callback<T, S>, userData: S) returns (result: S)
      requires Valid()
      ensures result == Visit(func, Placed(Contents(), 0), userData)
    {
      hide Good, CachePlace, VisitAll, Gather, Total;
      ghost var t := Snap();
      result := userData;
      var offset := 0;
      var leaf := FirstLeaf();
      ghost var i := 0;
      assert levels[0][0..] == levels[0];
      assert VisitAll(func, Contents(), 0, userData) ==
        Visit(func, Placed(Contents(), 0), userData) by { VisitAllIs(func, Contents(), 0, userData); }
      LinksOf(t, 0, 0, NIL);
      while leaf != NIL
        invariant i <= |levels[0]| && leaf == (if i < |levels[0]| then levels[0][i] else NIL)
        invariant VisitAll(func, Contents(), 0, userData) ==
                    VisitAll(func, Gather(runs, levels[0][i..]), offset, result)
        decreases |levels[0]| - i
      {
        LeafAndRest(t, i);
        var stop;
        result, offset, stop := VisitLeaf(runs[leaf], offset, func, result, Gather(runs, levels[0][i + 1..]));
        if stop {
          return;
        }
        leaf := Ref(next, leaf);
        i := i + 1;
      }
      assert levels[0][i..] == [] && i <= |levels[0]|;
      GatherNone(runs);
      VisitAllEnd(func, offset, result);
    }

    /** Calls `func` for the runs that meet [begin, end). */
    method ForeachInRange<S>(begin: nat, end: nat, func: Callback<T, S>, userData: S) returns (result: S)
      requires Valid()
      modifies `cached, `cachedOffset
      ensures Valid() && Contents() == old(Contents())
      ensures result == if begin <= end <= length then Visit(func, Overlapping(Placed(Contents(), 0), begin, end),
                userData) else userData
    {
      hide Good, CachePlace, VisitIn, Gather, Total, Finds, Expand;
      result := userData;
      if begin > length || end > length || begin > end {
        return;
      }
      assert VisitIn(func, Contents(), 0, begin, end, userData) ==
        Visit(func, Overlapping(Placed(Contents(), 0), begin, end), userData)
        by { VisitInIs(func, Contents(), 0, begin, end, userData); }
      if begin == end || begin == length {
        VisitInDone(func, Contents(), 0, end, end, userData);
        return;
      }
      ghost var t := Snap();
      LevelsExist(t);
      var leaf, within: nat;
      ghost var i: nat;
      if begin == 0 {
        FindsFirst(t);
        leaf := FirstLeaf();
        within, i := 0, 0;
      } else {
        leaf, within, i := Search(begin);
      }
      LeafHasRuns(t, i, within, begin);
      SkipLeaves(func, t, i, within, begin, end, userData);
      var position := begin - within;
      while position < end
        invariant Valid() && Contents() == old(Contents()) && Snap() == t
        invariant i <= |levels[0]| && leaf == (if i < |levels[0]| then levels[0][i] else NIL)
        invariant position + within == begin || (within == 0 && position >= begin)
        invariant position < end ==> position == LeafStart(t, i)
        invariant VisitIn(func, Contents(), 0, begin, end, userData) ==
                    VisitIn(func, Gather(runs, levels[0][i..]), position, begin, end, result)
        decreases |levels[0]| - i
      {
        MoreLeaves(t, i, position, end);
        LeafAndRest(t, i);
        var stop;
        result, position, within, stop :=
          VisitLeafInRange(runs[leaf], position, within, begin, end, func, result, Gather(runs, levels[0][i + 1..]));
        if stop {
          return;
        }
        leaf := Ref(next, leaf);
        i := i + 1;
      }
      VisitInDone(func, Gather(runs, levels[0][i..]), position, begin, end, result);
    }
  }

  /** The region has a single leaf. */
  ghost predicate OneLeafOnly(levels: seq<seq<Id>>) {
    levels != [] && |levels[0]| == 1
  }
}
