/** What inserting and removing do to one leaf, to the tree and to the labels. */
module Editing {
  import opened Runs
  import opened Levels
  import opened Forest
  import opened Trees
  import opened Searching
  import opened Splitting
  import opened Settling
  import opened Compacting
  import opened Locating

  // ----- inserting --------------------------------------------------------------------------

  /** The root and one leaf, which holds `rs`. */
  ghost function OneLeaf<T>(rs: seq<Run<T>>): Tree<T> {
    var leaf := ROOT + 1;
    Tree(map[leaf := ROOT], map[], map[], map[leaf := rs], map[ROOT := [Child(leaf, Total(rs))]], leaf + 1,
         [[leaf], [ROOT]], map[leaf := 0, ROOT := 1])
  }

  lemma {:induction false} OneLeafGood<T>(rs: seq<Run<T>>)
    requires |rs| <= MAX_RUNS && AllPositive(rs)
    ensures var t := OneLeaf(rs); Good(t, 0, [], NIL) && Gather(t.runs, t.levels[0]) == rs
  {
    var t, leaf := OneLeaf(rs), ROOT + 1;
    OneLeafSound(rs);
    hide Sound, Total;
    GatherOne(t.runs, leaf);
    assert ChildTotal([Child(leaf, Total(rs))]) == Total(rs) by {
      assert [Child(leaf, Total(rs))][1..] == [];
    }
  }

  lemma {:induction false} OneLeafSound<T>(rs: seq<Run<T>>)
    requires AllPositive(rs)
    ensures Whole(OneLeaf(rs))
  {
    hide Total, AllPositive;
    var t, leaf := OneLeaf(rs), ROOT + 1;
    RootCovers(t.children, [leaf]);
    hide Gather, Covers;
    forall l | 1 <= l < |t.levels|
      ensures Covers(t.children, Row(t.levels, 0, [], l), t.levels[l - 1])
    {
      assert Row(t.levels, 0, [], l) == [ROOT];
    }
  }

  /** Only a region of many runs can meet a failing capacity check. */
  lemma {:induction false} FullLeafRuns<T>(t: Tree<T>, join: JoinFunc<T>, offset: nat, n: nat)
    requires SplitsFullLeaf(t, join, offset, n)
    ensures t.levels != [] && |Gather(t.runs, t.levels[0])| >= MAX_RUNS
  {
    var i: nat, w: nat :| Finds(t, i, w, offset) &&
      RemovalOverflows(Get(t.runs, t.levels[0][i]), offset - w, w, n, join);
    hide Gather;
    GatherAt(t.runs, t.levels[0], i);
  }

  lemma {:induction false} FewRunsFit<T>(t: Tree<T>, join: JoinFunc<T>, offset: nat, n: nat)
    ensures SplitsFullLeaf(t, join, offset, n) ==> t.levels != [] && |Gather(t.runs, t.levels[0])| >= MAX_RUNS
  {
    hide SplitsFullLeaf;
    if SplitsFullLeaf(t, join, offset, n) {
      FullLeafRuns(t, join, offset, n);
    }
  }

  lemma {:induction false} LevelsExist<T>(t: Tree<T>)
    requires Good(t, 0, [], NIL)
    ensures |t.levels| >= 2
  {
    TwoLevels(t);
  }

  lemma {:induction false} LeafHasRuns<T>(t: Tree<T>, i: nat, within: nat, offset: nat)
    requires Good(t, 0, [], NIL) && Finds(t, i, within, offset)
    ensures |t.levels| >= 2 && i < |t.levels[0]| && within <= offset
    ensures var n := t.levels[0][i];
            && n in t.runs && n !in t.children && |t.runs[n]| <= MAX_RUNS && AllPositive(t.runs[n])
            && within <= Total(t.runs[n]) == Len(t.children, t.runs, n)
            && (within == Total(t.runs[n]) ==> i + 1 == |t.levels[0]|)
            && (t.runs[n] == [] ==> within == 0 && |t.levels[0]| == 1)
  {
    TwoLevels(t);
    hide Rooted, AllLinked, Stacked, Parented, Measured, Filled, Total, Ranked, Allocated, LeafStart;
    assert Kind(0, t.levels[0][i], t.runs, t.children);
    assert Size(t.children, t.runs, t.levels[0][i]) <= MAX_RUNS;
    EmptyLeafAlone(t, i);
  }

  lemma {:induction false} EmptyLeafAlone<T>(t: Tree<T>, i: nat)
    requires Good(t, 0, [], NIL) && t.levels != [] && i < |t.levels[0]| && t.levels[0][i] in t.runs
    ensures t.runs[t.levels[0][i]] == [] ==> |t.levels[0]| == 1 && Len(t.children, t.runs, t.levels[0][i]) == 0
  {
    hide Rooted, AllLinked, Stacked, Parented, Measured, WithinCapacity;
    assert t.levels[0][i] in t.rank;
    assert MinSize(t.levels, 0) <= Size(t.children, t.runs, t.levels[0][i]);
  }

  lemma {:induction false} SplitContents<T>(t: Tree<T>, t': Tree<T>, i: nat, right: Id, cachedOffset: nat)
    requires t.levels != [] && i < |t.levels[0]| && LeafHalved(t, t', i, right)
    ensures t'.levels != [] && Gather(t'.runs, t'.levels[0]) == Gather(t.runs, t.levels[0])
    ensures CachePlace(t', NIL, cachedOffset)
  {
    hide Gather, InsertAt, Keep, Tail;
  }

  /** After the split the search ends in one of the halves. */
  lemma {:induction false} SmallAfterSplit<T>(t: Tree<T>, t': Tree<T>, i: nat, w: nat, right: Id, i': nat, w': nat,
                                              offset: nat)
    requires Good(t, 0, [], NIL) && Good(t', 0, [], NIL) && Finds(t, i, w, offset) && LeafHalved(t, t', i, right)
    requires Finds(t', i', w', offset)
    ensures t'.levels[0][i'] in t'.runs && |t'.runs[t'.levels[0][i']]| <= MAX_RUNS - 3
  {
    LeafHasRuns(t, i, w, offset);
    hide Measured, Filled, WithinCapacity, Rooted, Kinds, Allocated, AllLinked, Stacked, Parented, RunsPositive,
      LeafStart;
    var left := t.levels[0][i];
    var rs := t.runs[left];
    HalvesMeet(rs);
    ExpandConcat(Keep(rs), Tail(rs));
    HalvesPlace(t, t', i, right);
    assert |Keep(rs)| <= 13 && |Tail(rs)| <= 13;
    hide Keep, Tail, Total, LeafHalved, Ranked;
    if w < Total(Keep(rs)) {
      FindsUnique(t', i, w, i', w', offset);
    } else {
      FindsUnique(t', i + 1, w - Total(Keep(rs)), i', w', offset);
    }
  }

  lemma {:induction false} HalvesPlace<T>(t: Tree<T>, t': Tree<T>, i: nat, right: Id)
    requires Whole(t) && Whole(t') && t.levels != [] && i < |t.levels[0]| && LeafHalved(t, t', i, right)
    ensures var left := t.levels[0][i];
            var ids, ids' := t.levels[0], t'.levels[0];
            && i + 1 < |ids'| == |ids| + 1 && ids'[i] == left && ids'[i + 1] == right
            && left in t'.runs && right in t'.runs && t'.runs[left] == Keep(t.runs[left])
            && t'.runs[right] == Tail(t.runs[left])
            && Len(t'.children, t'.runs, left) == Total(Keep(t.runs[left]))
            && Len(t'.children, t'.runs, right) == Total(Tail(t.runs[left]))
            && LeafStart(t', i) == LeafStart(t, i)
            && LeafStart(t', i + 1) == LeafStart(t, i) + Total(Keep(t.runs[left]))
  {
    hide Rooted, Kinds, Allocated, AllLinked, Stacked, Parented, RunsPositive, Keep, Tail, Total, Gather;
    var ids, ids' := t.levels[0], t'.levels[0];
    var left := ids[i];
    assert forall y :: 0 <= y < |ids| ==> ids[y] in t.rank;
    assert Distinct(ids);
    hide Ranked;
    InsertAtIndex(ids, i + 1, right, i);
    InsertAtIndex(ids, i + 1, right, i + 1);
    assert ids'[..i] == ids[..i];
    GatherSame(t.runs, t'.runs, ids[..i]);
    LeafStartStep(t', i);
  }

  lemma {:induction false} FirstRun<T>(within: nat, count: nat, data: T)
    requires within == 0
    ensures Expand([Run(count, data)]) == Inserted(Expand<T>([]), within, Repeat(count, data))
  {
    ExpandOne(Run(count, data));
  }

  /** The runs of leaf i now hold the new characters; its ancestors are owed them. */
  ghost predicate LeafInserted<T>(t: Tree<T>, t': Tree<T>, i: nat, offset: nat, count: nat, data: T)
    requires t.levels != [] && i < |t.levels[0]| && offset <= Total(Gather(t.runs, t.levels[0]))
  {
    && Whole(t') && Full(t', NIL) && Fits(t')
    && t'.levels == t.levels
    && Measured(t'.children, t'.runs, t.levels[0][i], count, NIL, 0)
    && Expand(Gather(t'.runs, t.levels[0])) ==
      Inserted(Expand(Gather(t.runs, t.levels[0])), offset, Repeat(count, data))
    && LeafStart(t', i) == LeafStart(t, i)
    && |Gather(t'.runs, t.levels[0])| <= |Gather(t.runs, t.levels[0])| + 2
  }

  lemma {:induction false} InsertInLeaf<T>(t: Tree<T>, t': Tree<T>, i: nat, within: nat, offset: nat, count: nat,
                                           data: T)
    requires Good(t, 0, [], NIL) && Finds(t, i, within, offset)
    requires var leaf := t.levels[0][i];
             && leaf in t.runs && leaf in t'.runs && t' == t.(runs := t.runs[leaf := t'.runs[leaf]])
             && AllPositive(t'.runs[leaf]) && |t.runs[leaf]| <= |t'.runs[leaf]| <= MAX_RUNS
             && |t'.runs[leaf]| <= |t.runs[leaf]| + 2
             && within <= Total(t.runs[leaf])
             && Expand(t'.runs[leaf]) == Inserted(Expand(t.runs[leaf]), within, Repeat(count, data))
    ensures i < |t.levels[0]| && offset <= Total(Gather(t.runs, t.levels[0]))
    ensures Whole(t') && Measured(t'.children, t'.runs, t.levels[0][i], count, NIL, 0)
    ensures LeafInserted(t, t', i, offset, count, data)
  {
    hide Good, Total, Expand, Inserted, Sound, Repeat, Gather, AllPositive, Measured, Filled, WithinCapacity, Len;
    var leaf := t.levels[0][i];
    assert Total(t'.runs[leaf]) == Total(t.runs[leaf]) + count by {
      InsertedLength(Expand(t.runs[leaf]), within, Repeat(count, data));
    }
    LeafRewritten(t, t', i, count);
    LeavesDistinct(t);
    InsertContents(t.runs, t'.runs, t.levels[0], i, within, Repeat(count, data));
  }

  lemma {:induction false} LeavesDistinct<T>(t: Tree<T>)
    requires Good(t, 0, [], NIL) && t.levels != []
    ensures Distinct(t.levels[0])
  {}

  /** Leaf i holds other runs, worth `d` characters more; its ancestors are owed them. */
  lemma {:induction false} LeafRewritten<T>(t: Tree<T>, t': Tree<T>, i: nat, d: int)
    requires Good(t, 0, [], NIL) && t.levels != [] && i < |t.levels[0]|
    requires var leaf := t.levels[0][i];
             && leaf in t.runs && leaf in t'.runs && t' == t.(runs := t.runs[leaf := t'.runs[leaf]])
             && AllPositive(t'.runs[leaf]) && Total(t'.runs[leaf]) == Total(t.runs[leaf]) + d
             && (|t'.runs[leaf]| <= MAX_RUNS || |t'.runs[leaf]| <= |t.runs[leaf]|)
    ensures Whole(t') && Measured(t'.children, t'.runs, t.levels[0][i], d, NIL, 0) && Fits(t')
    ensures Full(t', t.levels[0][i])
    ensures |t.runs[t.levels[0][i]]| <= |t'.runs[t.levels[0][i]]| ==> Full(t', NIL)
  {
    var leaf := t.levels[0][i];
    hide Rooted, Kinds, Allocated, AllLinked, Stacked, Parented, RunsPositive, Measured, Filled, WithinCapacity, Ranked,
      AllPositive, Total;
    WithRuns(t, leaf, t'.runs[leaf]);
    ZeroDebt(t.children, t.runs, leaf);
    MeasuredRuns(t.children, t.runs, t'.runs, leaf, 0, d);
    RewrittenSizes(t, t', i);
  }

  lemma {:induction false} RewrittenSizes<T>(t: Tree<T>, t': Tree<T>, i: nat)
    requires Full(t, NIL) && Fits(t) && t.levels != [] && i < |t.levels[0]| && Ranked(t.levels, t.rank)
    requires NIL !in t.rank
    requires var leaf := t.levels[0][i];
             && leaf in t.runs && leaf in t'.runs && t' == t.(runs := t.runs[leaf := t'.runs[leaf]])
             && (|t'.runs[leaf]| <= MAX_RUNS || |t'.runs[leaf]| <= |t.runs[leaf]|)
    ensures Fits(t') && Full(t', t.levels[0][i])
    ensures |t.runs[t.levels[0][i]]| <= |t'.runs[t.levels[0][i]]| ==> Full(t', NIL)
  {
    hide MinSize;
    forall l, y {:trigger t'.levels[l][y]} | 0 <= l < |t'.levels| && 0 <= y < |t'.levels[l]|
      ensures Size(t'.children, t'.runs, t'.levels[l][y]) <= MAX_RUNS
      ensures t'.levels[l][y] != t.levels[0][i] ==> MinSize(t'.levels, l) <= Size(t'.children, t'.runs, t'.levels[l][y])
      ensures |t.runs[t.levels[0][i]]| <= |t'.runs[t.levels[0][i]]| ==>
                MinSize(t'.levels, l) <= Size(t'.children, t'.runs, t'.levels[l][y])
    {
      assert t.levels[l][y] in t.rank;
      assert Size(t.children, t.runs, t.levels[l][y]) <= MAX_RUNS;
    }
  }

  lemma {:induction false} InsertedLength<T>(s: seq<T>, at: nat, ins: seq<T>)
    requires at <= |s|
    ensures |Inserted(s, at, ins)| == |s| + |ins|
  {}

  lemma {:induction false} InsertContents<T>(runs: map<Id, seq<Run<T>>>, runs': map<Id, seq<Run<T>>>, ids: seq<Id>,
                                             i: nat, within: nat, ins: seq<T>)
    requires i < |ids| && Distinct(ids) && ids[i] in runs && ids[i] in runs' && runs' == runs[ids[i] := runs'[ids[i]]]
    requires within <= Total(runs[ids[i]]) && Expand(runs'[ids[i]]) == Inserted(Expand(runs[ids[i]]), within, ins)
    ensures Total(Gather(runs, ids[..i])) + within <= Total(Gather(runs, ids))
    ensures Expand(Gather(runs', ids)) ==
              Inserted(Expand(Gather(runs, ids)), Total(Gather(runs, ids[..i])) + within, ins)
    ensures Gather(runs', ids[..i]) == Gather(runs, ids[..i])
    ensures |Gather(runs', ids)| == |Gather(runs, ids)| + |runs'[ids[i]]| - |runs[ids[i]]|
  {
    hide Total, Expand, Inserted, Gather;
    LeafReplaced(runs, runs', ids, i);
    GatherExpand(runs, ids, i);
    GatherExpand(runs', ids, i);
    GatherAt(runs, ids, i);
    GatherAt(runs', ids, i);
    hide Distinct;
    InsertedInMiddle(Expand(Gather(runs, ids[..i])), Expand(runs[ids[i]]), Expand(Gather(runs, ids[i + 1..])), within,
      ins);
  }

  /** An insertion into leaf i changes the runs of the region exactly there. */
  lemma {:induction false} InsertedContents<T>(t: Tree<T>, t': Tree<T>, i: nat, within: nat, offset: nat, ins: Run<T>,
                                               join: JoinFunc<T>)
    requires Good(t, 0, [], NIL) && Finds(t, i, within, offset)
    requires var leaf := t.levels[0][i];
             && leaf in t.runs && leaf in t'.runs && t'.levels == t.levels
             && t'.runs == t.runs[leaf := t'.runs[leaf]] && within <= Total(t.runs[leaf])
             && InsertOutcome(t.runs[leaf], offset, within, ins, join, t'.runs[leaf])
    ensures InsertedRuns(Gather(t.runs, t.levels[0]), offset, ins, join, Gather(t'.runs, t'.levels[0]))
  {
    hide Good, InsertOutcome, Gather, Total;
    var ids := t.levels[0];
    LeavesDistinct(t);
    LeavesPositive(t, i);
    GatherAt(t.runs, ids, i);
    GatherAt(t'.runs, ids, i);
    LeafReplaced(t.runs, t'.runs, ids, i);
    InsertInPart(Gather(t.runs, ids[..i]), t.runs[ids[i]], Gather(t.runs, ids[i + 1..]), offset, within, ins, join,
      t'.runs[ids[i]]);
  }

  lemma {:induction false} LeavesPositive<T>(t: Tree<T>, i: nat)
    requires Good(t, 0, [], NIL) && t.levels != [] && i <= |t.levels[0]|
    ensures AllPositive(Gather(t.runs, t.levels[0][..i]))
  {
    GatherPositive(t.runs, t.levels[0][..i]);
  }

  lemma {:induction false} GatherPositive<T>(runs: map<Id, seq<Run<T>>>, ids: seq<Id>)
    requires RunsPositive(runs)
    ensures AllPositive(Gather(runs, ids))
  {
    if ids != [] {
      GatherPositive(runs, ids[1..]);
    }
  }

  /** Only leaf i changed: what lies before and after it is the same. */
  lemma {:induction false} LeafReplaced<T>(runs: map<Id, seq<Run<T>>>, runs': map<Id, seq<Run<T>>>, ids: seq<Id>,
                                           i: nat)
    requires i < |ids| && Distinct(ids) && ids[i] in runs && ids[i] in runs' && runs' == runs[ids[i] := runs'[ids[i]]]
    ensures Gather(runs', ids[..i]) == Gather(runs, ids[..i])
    ensures Gather(runs', ids[i + 1..]) == Gather(runs, ids[i + 1..])
  {
    GatherSame(runs, runs', ids[..i]);
    GatherSame(runs, runs', ids[i + 1..]);
  }

  lemma {:induction false} GatherExpand<T>(runs: map<Id, seq<Run<T>>>, ids: seq<Id>, i: nat)
    requires i < |ids|
    ensures Expand(Gather(runs, ids))
         == Expand(Gather(runs, ids[..i])) + Expand(Get(runs, ids[i])) + Expand(Gather(runs, ids[i + 1..]))
    ensures Total(Gather(runs, ids)) ==
              Total(Gather(runs, ids[..i])) + Total(Get(runs, ids[i])) + Total(Gather(runs, ids[i + 1..]))
  {
    hide Gather, Expand, Total;
    GatherAt(runs, ids, i);
    ExpandConcat(Gather(runs, ids[..i]) + Get(runs, ids[i]), Gather(runs, ids[i + 1..]));
    ExpandConcat(Gather(runs, ids[..i]), Get(runs, ids[i]));
  }

  lemma {:induction false} AfterInsert<T>(t: Tree<T>, t1: Tree<T>, t2: Tree<T>, i: nat, cached: Id, cachedOffset: nat,
                                          offset: nat, count: nat, data: T)
    requires t.levels != [] && i < |t.levels[0]| && offset <= Total(Gather(t.runs, t.levels[0]))
    requires LeafInserted(t, t1, i, offset, count, data)
    requires t2 == t1.(children := t2.children) && SameNodes(t1.children, t2.children) && Whole(t2) && Exact(t2)
    requires Good(t, 0, [], NIL) && CachePlace(t, cached, cachedOffset) && cached == t.levels[0][i]
    ensures Good(t2, 0, [], NIL) && CachePlace(t2, cached, cachedOffset) && t2.levels == t.levels
    ensures Expand(Gather(t2.runs, t.levels[0])) ==
              Inserted(Expand(Gather(t.runs, t.levels[0])), offset, Repeat(count, data))
    ensures |Gather(t2.runs, t.levels[0])| <= |Gather(t.runs, t.levels[0])| + 2
  {
    hide Sound, Measured, Filled, WithinCapacity, SameNodes, Expand, Inserted, Total, Gather, LeafStart;
    SameNodesSizes(t1, t2, NIL);
    assert LeafStart(t2, i) == LeafStart(t1, i) by { StartByRuns(t1, t2, i); }
    CachedAt(t, i, cached, cachedOffset);
    assert CachePlace(t2, cached, cachedOffset);
  }

  /** An empty region has a single leaf, whose runs are then all there are. */
  lemma {:induction false} InsertedAlone<T>(t: Tree<T>, t': Tree<T>, i: nat, within: nat, offset: nat)
    requires Good(t, 0, [], NIL) && Finds(t, i, within, offset) && t'.levels == t.levels
    ensures i < |t.levels[0]|
    ensures Gather(t.runs, t.levels[0]) == [] ==>
              Get(t.runs, t.levels[0][i]) == [] && |t.levels[0]| == 1 &&
                Gather(t'.runs, t'.levels[0]) == Get(t'.runs, t.levels[0][i])
  {
    hide Good, Gather, Finds;
    LeafHasRuns(t, i, within, offset);
    GatherAt(t.runs, t.levels[0], i);
    if |t.levels[0]| == 1 {
      GatherOne(t'.runs, t.levels[0][i]);
      assert t.levels[0] == [t.levels[0][i]];
    }
  }

  lemma {:induction false} StartByRuns<T>(t: Tree<T>, t': Tree<T>, i: nat)
    requires t.levels != [] && i <= |t.levels[0]| && t'.levels == t.levels && t'.runs == t.runs
    ensures LeafStart(t', i) == LeafStart(t, i)
  {}

  lemma {:induction false} CachedAt<T>(t: Tree<T>, i: nat, cached: Id, cachedOffset: nat)
    requires Good(t, 0, [], NIL) && CachePlace(t, cached, cachedOffset) && t.levels != [] && i < |t.levels[0]|
    requires t.levels[0][i] == cached
    ensures cachedOffset == LeafStart(t, i) && cached != NIL
  {
    LinksOf(t, 0, i, NIL);
    hide Rooted, Kinds, Allocated, AllLinked, Stacked, Parented, RunsPositive, Measured, Filled, WithinCapacity,
      LeafStart;
    assert Distinct(t.levels[0]);
    var j := CacheWhere(t, cached, cachedOffset);
  }

  // ----- removing ----------------------------------------------------------------------------

  /** The range lies strictly inside one run of a leaf that is full, and what is
      left of the run does not join: the leaf would need one slot too many. */
  ghost predicate SplitsFullLeaf<T>(t: Tree<T>, join: JoinFunc<T>, offset: nat, n: nat) {
    exists i: nat, w: nat :: Finds(t, i, w, offset) &&
      RemovalOverflows(Get(t.runs, t.levels[0][i]), offset - w, w, n, join)
  }

  /** What relabelling means. */
  ghost function Relabelled<T>(s: seq<T>, at: nat, n: nat, data: T): seq<T>
    requires at + n <= |s|
  {
    s[..at] + Repeat(n, data) + s[at + n..]
  }

  lemma {:induction false} InsertedAfterDelete<T>(s: seq<T>, at: nat, n: nat, data: T)
    requires at + n <= |s|
    ensures at <= |Deleted(s, at, n)|
    ensures Inserted(Deleted(s, at, n), at, Repeat(n, data)) == Relabelled(s, at, n, data)
  {}

  lemma {:induction false} DeletedNone<T>(s: seq<T>, at: nat)
    requires at <= |s|
    ensures Deleted(s, at, 0) == s
  {}

  lemma {:induction false} DeletedTwice<T>(s: seq<T>, at: nat, n: nat, m: nat)
    requires at + n + m <= |s|
    ensures |Deleted(s, at, n)| == |s| - n
    ensures Deleted(Deleted(s, at, n), at, m) == Deleted(s, at, n + m)
  {}

  lemma {:induction false} InsideLeaf<T>(t: Tree<T>, i: nat, within: nat, offset: nat)
    requires Good(t, 0, [], NIL) && Finds(t, i, within, offset) && offset < Total(Gather(t.runs, t.levels[0]))
    ensures within < Len(t.children, t.runs, t.levels[0][i])
  {
    hide Measured, Filled, WithinCapacity, Sound, Gather, Total, Len;
    LeafStartStep(t, i);
    assert t.levels[0][..|t.levels[0]|] == t.levels[0];
  }

  lemma {:induction false} OnlyLeafSplits<T>(t: Tree<T>, join: JoinFunc<T>, i: nat, within: nat, offset: nat, n: nat)
    requires Good(t, 0, [], NIL) && Finds(t, i, within, offset)
    ensures i < |t.levels[0]| && within <= offset
    ensures SplitsFullLeaf(t, join, offset, n) <==>
              RemovalOverflows(Get(t.runs, t.levels[0][i]), offset - within, within, n, join)
  {
    hide Sound, Measured, Filled, WithinCapacity, RemovalOverflows, Len, LeafStart;
    forall j: nat, w: nat | Finds(t, j, w, offset)
      ensures j == i && w == within
    {
      FindsUnique(t, i, within, j, w, offset);
    }
  }

  /** Of n characters from `offset`, r lie in the leaf that holds the first. */
  ghost predicate TakesFromLeaf<T>(t: Tree<T>, offset: nat, n: nat, r: nat) {
    exists i: nat, w: nat :: Finds(t, i, w, offset) &&
      r == (if n <= Len(t.children, t.runs, t.levels[0][i]) - w then n else Len(t.children, t.runs, t.levels[0][i]) - w)
  }

  /** Leaf i has lost `r` characters; its ancestors count them still. */
  lemma {:induction false} RemoveInLeaf<T>(t: Tree<T>, t': Tree<T>, i: nat, within: nat, offset: nat, r: nat)
    requires Good(t, 0, [], NIL) && Finds(t, i, within, offset)
    requires var leaf := t.levels[0][i];
             && leaf in t.runs && leaf in t'.runs && t' == t.(runs := t.runs[leaf := t'.runs[leaf]])
             && (|t'.runs[leaf]| <= MAX_RUNS || |t'.runs[leaf]| <= |t.runs[leaf]|)
             && RemoveResult(t.runs[leaf], within, r, t'.runs[leaf])
    ensures Whole(t') && Measured(t'.children, t'.runs, t.levels[0][i], -(r as int), NIL, 0) && Fits(t')
    ensures Full(t', t.levels[0][i])
    ensures offset + r <= Total(Gather(t.runs, t.levels[0]))
    ensures Expand(Gather(t'.runs, t.levels[0])) == Deleted(Expand(Gather(t.runs, t.levels[0])), offset, r)
    ensures |Gather(t'.runs, t.levels[0])| ==
              |Gather(t.runs, t.levels[0])| + |t'.runs[t.levels[0][i]]| - |t.runs[t.levels[0][i]]|
    ensures Total(Gather(t'.runs, t.levels[0][..i]) + t'.runs[t.levels[0][i]]) ==
              offset - within + Total(t'.runs[t.levels[0][i]])
    ensures Total(t'.runs[t.levels[0][i]]) == Total(t.runs[t.levels[0][i]]) - r
  {
    hide Good, Total, Expand, Deleted, Sound, Gather, AllPositive, Measured, Filled, WithinCapacity, Len;
    var leaf := t.levels[0][i];
    assert Total(t'.runs[leaf]) == Total(t.runs[leaf]) - r by { DeletedLength(Expand(t.runs[leaf]), within, r); }
    LeafRewritten(t, t', i, -(r as int));
    LeavesDistinct(t);
    DeleteContents(t.runs, t'.runs, t.levels[0], i, within, r);
  }

  lemma {:induction false} DeletedLength<T>(s: seq<T>, at: nat, n: nat)
    requires at + n <= |s|
    ensures |Deleted(s, at, n)| == |s| - n
  {}

  lemma {:induction false} DeleteContents<T>(runs: map<Id, seq<Run<T>>>, runs': map<Id, seq<Run<T>>>, ids: seq<Id>,
                                             i: nat, within: nat, r: nat)
    requires i < |ids| && Distinct(ids) && ids[i] in runs && ids[i] in runs' && runs' == runs[ids[i] := runs'[ids[i]]]
    requires within + r <= Total(runs[ids[i]]) && Expand(runs'[ids[i]]) == Deleted(Expand(runs[ids[i]]), within, r)
    ensures Total(Gather(runs, ids[..i])) + within + r <= Total(Gather(runs, ids))
    ensures Expand(Gather(runs', ids)) == Deleted(Expand(Gather(runs, ids)), Total(Gather(runs, ids[..i])) + within, r)
    ensures |Gather(runs', ids)| == |Gather(runs, ids)| + |runs'[ids[i]]| - |runs[ids[i]]|
    ensures Total(Gather(runs', ids[..i]) + runs'[ids[i]]) == Total(Gather(runs, ids[..i])) + Total(runs'[ids[i]])
  {
    hide Total, Expand, Deleted, Gather;
    LeafReplaced(runs, runs', ids, i);
    GatherExpand(runs, ids, i);
    GatherExpand(runs', ids, i);
    GatherAt(runs, ids, i);
    GatherAt(runs', ids, i);
    ExpandConcat(Gather(runs', ids[..i]), runs'[ids[i]]);
    hide Distinct;
    DeletedInMiddle(Expand(Gather(runs, ids[..i])), Expand(runs[ids[i]]), Expand(Gather(runs, ids[i + 1..])), within,
      r);
  }

  lemma {:induction false} LeafSettled<T>(t1: Tree<T>, t2: Tree<T>, i: nat)
    requires Fits(t1) && t1.levels != [] && i < |t1.levels[0]| && Full(t1, t1.levels[0][i])
    requires t2 == t1.(children := t2.children) && SameNodes(t1.children, t2.children) && Whole(t2) && Exact(t2)
    ensures Good(t2, 0, [], t1.levels[0][i])
  {
    hide Sound, Measured, Filled, WithinCapacity, SameNodes;
    SameNodesSizes(t1, t2, t1.levels[0][i]);
  }

  lemma {:induction false} LeafLarge<T>(t: Tree<T>, i: nat)
    requires t.levels != [] && i < |t.levels[0]| && Good(t, 0, [], t.levels[0][i]) && t.levels[0][i] in t.runs
    requires |t.runs[t.levels[0][i]]| >= MIN_RUNS
    ensures Good(t, 0, [], NIL)
  {
    hide Measured, WithinCapacity, Filled, Rooted, Kinds, Allocated, AllLinked, Stacked, Parented, RunsPositive;
    FillExempt(t, 0, i, t.levels[0][i]);
  }

  lemma {:induction false} NoCache<T>(t: Tree<T>, cachedOffset: nat)
    requires t.levels != []
    ensures CachePlace(t, NIL, cachedOffset)
  {}

  /** After a leaf has been cut short, the offset is the end of a run, and a
      removal that starts there splits none. */
  lemma {:induction false} NoSecondSplit<T>(t: Tree<T>, join: JoinFunc<T>, t1: Tree<T>, i: nat, offset: nat, n: nat)
    requires Good(t, 0, [], NIL) && t.levels != [] && t1.levels != [] && i < |t1.levels[0]|
    requires t1.levels[0][i] in t1.runs
    requires Gather(t.runs, t.levels[0]) == Gather(t1.runs, t1.levels[0])
    requires Total(Gather(t1.runs, t1.levels[0][..i]) + t1.runs[t1.levels[0][i]]) == offset
    ensures !SplitsFullLeaf(t, join, offset, n)
  {
    hide Good, RemovalOverflows, Gather, Total, Len;
    GatherAt(t1.runs, t1.levels[0], i);
    var all := Gather(t.runs, t.levels[0]);
    var m := |Gather(t1.runs, t1.levels[0][..i]) + t1.runs[t1.levels[0][i]]|;
    assert all[..m] == Gather(t1.runs, t1.levels[0][..i]) + t1.runs[t1.levels[0][i]];
    forall j: nat, w: nat | Finds(t, j, w, offset)
      ensures !RemovalOverflows(Get(t.runs, t.levels[0][j]), offset - w, w, n, join)
    {
      LeafHasRuns(t, j, w, offset);
      GatherAt(t.runs, t.levels[0], j);
      NoSplitAtEnd(all, Gather(t.runs, t.levels[0][..j]), t.runs[t.levels[0][j]], Gather(t.runs, t.levels[0][j + 1..]),
        join, w, offset, n, m);
    }
  }

  lemma {:induction false} NoSplitAtEnd<T>(all: seq<Run<T>>, a: seq<Run<T>>, rs: seq<Run<T>>, b: seq<Run<T>>,
                                           join: JoinFunc<T>,
                                           w: nat, offset: nat, n: nat, m: nat)
    requires all == a + rs + b && Total(a) + w == offset && m <= |all| && Total(all[..m]) == offset
    ensures !RemovalOverflows(rs, offset - w, w, n, join)
  {
    hide Total;
    var base := offset - w;
    forall x | 0 <= x < |rs|
      ensures !SplitsRun(rs, x, base, w, n, join)
    {
      assert all[..|a| + x] == a + rs[..x] && all[..|a| + x + 1] == a + rs[..x + 1];
      ExpandConcat(a, rs[..x]);
      ExpandConcat(a, rs[..x + 1]);
      RunAt(rs, x);
      if m <= |a| + x {
        TotalPrefix(all, m, |a| + x);
      } else {
        TotalPrefix(all, |a| + x + 1, m);
      }
    }
  }

  // ----- which run a removal cuts ----------------------------------------------------------------

  /** In the whole list of runs a removal cuts the run it cuts in its leaf. */
  lemma {:induction false} CutInLeaf<T>(a: seq<Run<T>>, rs: seq<Run<T>>, b: seq<Run<T>>, within: nat, offset: nat,
                                        n: nat,
                                        join: JoinFunc<T>, out: seq<Run<T>>)
    requires Total(a) + within == offset && within < Total(rs) && CutOutcome(rs, offset - within, within, n, join, out)
    ensures CutOutcome(a + rs + b, 0, offset, n, join, a + out + b)
    ensures CutsNoRun(rs, offset - within, within, n, join) ==> CutsNoRun(a + rs + b, 0, offset, n, join)
  {
    hide Total;
    var all := a + rs + b;
    forall x | 0 <= x < |all| && SplitsRun(all, x, 0, offset, n, join)
      ensures |a| <= x < |a| + |rs| && SplitsRun(rs, x - |a|, offset - within, within, n, join)
      ensures a + out + b == CutRun(all, x, offset, n)
    {
      CutPlace(a, rs, b, x, offset, n, join);
      var y := x - |a|;
      assert out == CutRun(rs, y, within, n);
      assert all[..x] == a + rs[..y] && all[x + 1..] == rs[y + 1..] + b;
    }
  }

  lemma {:induction false} CutPlace<T>(a: seq<Run<T>>, rs: seq<Run<T>>, b: seq<Run<T>>, x: nat, offset: nat, n: nat,
                                       join: JoinFunc<T>)
    requires var all := a + rs + b; x < |all| && SplitsRun(all, x, 0, offset, n, join)
    requires Total(a) <= offset < Total(a) + Total(rs)
    ensures |a| <= x < |a| + |rs| && Total((a + rs + b)[..x]) == Total(a) + Total(rs[..x - |a|])
    ensures SplitsRun(rs, x - |a|, Total(a), offset - Total(a), n, join)
  {
    hide Total;
    var all := a + rs + b;
    RunAt(all, x);
    ExpandConcat(a, rs);
    assert all[..|a|] == a && all[..|a| + |rs|] == a + rs;
    if x < |a| {
      TotalPrefix(all, x + 1, |a|);
    } else if x >= |a| + |rs| {
      TotalPrefix(all, |a| + |rs|, x);
    } else {
      assert all[..x] == a + rs[..x - |a|];
      ExpandConcat(a, rs[..x - |a|]);
    }
  }

  lemma {:induction false} CutContents<T>(t: Tree<T>, t': Tree<T>, i: nat, within: nat, offset: nat, n: nat,
                                          join: JoinFunc<T>)
    requires Good(t, 0, [], NIL) && Finds(t, i, within, offset) && within < Len(t.children, t.runs, t.levels[0][i])
    requires var leaf := t.levels[0][i];
             && leaf in t.runs && leaf in t'.runs && t' == t.(runs := t.runs[leaf := t'.runs[leaf]])
             && CutOutcome(t.runs[leaf], offset - within, within, n, join, t'.runs[leaf])
    ensures CutOutcome(Gather(t.runs, t.levels[0]), 0, offset, n, join, Gather(t'.runs, t.levels[0]))
    ensures CutsNoRun(t.runs[t.levels[0][i]], offset - within, within, n, join) ==>
              CutsNoRun(Gather(t.runs, t.levels[0]), 0, offset, n, join)
  {
    var ids := t.levels[0];
    assert Distinct(ids);
    hide Sound, Measured, Filled, WithinCapacity, CutOutcome, CutsNoRun, Gather, Total;
    GatherAt(t.runs, ids, i);
    GatherAt(t'.runs, ids, i);
    LeafReplaced(t.runs, t'.runs, ids, i);
    CutInLeaf(Gather(t.runs, ids[..i]), t.runs[ids[i]], Gather(t.runs, ids[i + 1..]), within, offset, n, join,
      t'.runs[ids[i]]);
  }

  lemma {:induction false} TakesHere<T>(t: Tree<T>, i: nat, within: nat, offset: nat, n: nat, r: nat)
    requires Finds(t, i, within, offset) && within < Len(t.children, t.runs, t.levels[0][i])
    requires r == if n <= Len(t.children, t.runs, t.levels[0][i]) - within then n
               else Len(t.children, t.runs, t.levels[0][i]) - within
    ensures TakesFromLeaf(t, offset, n, r)
  {
    hide Finds, Len;
  }

  /** What the first pass of a removal has done to the runs in order. */
  ghost predicate PassDone<T>(t: Tree<T>, offset: nat, n: nat, left: nat, join: JoinFunc<T>, all: seq<Run<T>>) {
    && t.levels != [] && left < n && offset + (n - left) <= Total(Gather(t.runs, t.levels[0]))
    && Expand(all) == Deleted(Expand(Gather(t.runs, t.levels[0])), offset, n - left)
    && TakesFromLeaf(t, offset, n, n - left)
    && |all| <= |Gather(t.runs, t.levels[0])| + 1
    && CutOutcome(Gather(t.runs, t.levels[0]), 0, offset, n, join, all)
    && (left > 0 ==>
          |all| <= |Gather(t.runs, t.levels[0])| && CutsNoRun(Gather(t.runs, t.levels[0]), 0, offset, n, join))
  }

  /** The leaf has been cut, and its ancestors do not know yet. */
  lemma {:induction false} LeafCut<T>(t: Tree<T>, t': Tree<T>, i: nat, within: nat, offset: nat, n: nat, left: nat,
                                      join: JoinFunc<T>)
    requires Good(t, 0, [], NIL) && Finds(t, i, within, offset) && within < Len(t.children, t.runs, t.levels[0][i])
    requires var leaf := t.levels[0][i];
             && leaf in t.runs && leaf in t'.runs && t' == t.(runs := t.runs[leaf := t'.runs[leaf]])
             && left == n - (if n <= Total(t.runs[leaf]) - within then n else Total(t.runs[leaf]) - within) && left < n
             && RemoveResult(t.runs[leaf], within, n - left, t'.runs[leaf])
             && CutOutcome(t.runs[leaf], offset - within, within, n, join, t'.runs[leaf])
             && (|t'.runs[leaf]| <= MAX_RUNS || |t'.runs[leaf]| <= |t.runs[leaf]|)
             && (|t'.runs[leaf]| <= |t.runs[leaf]| || (left == 0 && |t'.runs[leaf]| == |t.runs[leaf]| + 1))
             && (left > 0 ==> CutsNoRun(t.runs[leaf], offset - within, within, n, join))
    ensures Whole(t') && Measured(t'.children, t'.runs, t.levels[0][i], -((n - left) as int), NIL, 0) && Fits(t')
    ensures Full(t', t.levels[0][i])
    ensures t'.levels == t.levels && PassDone(t, offset, n, left, join, Gather(t'.runs, t'.levels[0]))
    ensures left > 0 ==> Total(Gather(t'.runs, t.levels[0][..i]) + t'.runs[t.levels[0][i]]) == offset
  {
    hide Good, Gather, Expand, Total, RemoveResult, CutOutcome, CutsNoRun, TakesFromLeaf, Deleted, Finds, Measured,
      Whole, Fits, Full;
    LeafHasRuns(t, i, within, offset);
    RemoveInLeaf(t, t', i, within, offset, n - left);
    CutContents(t, t', i, within, offset, n, join);
    TakesHere(t, i, within, offset, n, n - left);
  }

  // ----- removals that cannot overflow ----------------------------------------------------------

  /** A removal overflows a leaf only when it starts inside a run, between two
      characters of one label. */
  lemma {:induction false} SplitsBetweenEqual<T>(t: Tree<T>, join: JoinFunc<T>, offset: nat, n: nat)
    requires SplitsFullLeaf(t, join, offset, n)
    ensures t.levels != [] && 0 < offset < |Labels(t)| && Labels(t)[offset - 1] == Labels(t)[offset]
  {
    var i: nat, w: nat :| Finds(t, i, w, offset) &&
      RemovalOverflows(Get(t.runs, t.levels[0][i]), offset - w, w, n, join);
    var rs := Get(t.runs, t.levels[0][i]);
    var x :| 0 <= x < |rs| && SplitsRun(rs, x, offset - w, w, n, join);
    RunAt(rs, x);
    GatherExpand(t.runs, t.levels[0], i);
    hide Finds, RemovalOverflows, Expand, Gather, Total, SplitsRun;
    var a, b := Expand(Gather(t.runs, t.levels[0][..i])), Expand(Gather(t.runs, t.levels[0][i + 1..]));
    BetweenEqual(a, Expand(rs[..x]), rs[x].length, rs[x].data, Expand(rs[x + 1..]), b, offset);
  }

  lemma {:induction false} BetweenEqual<T>(a: seq<T>, b: seq<T>, n: nat, d: T, c: seq<T>, e: seq<T>, at: nat)
    requires |a| + |b| < at < |a| + |b| + n
    ensures var s := a + (b + Repeat(n, d) + c) + e; at < |s| && s[at - 1] == d == s[at]
  {}
}
