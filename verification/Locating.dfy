/** The steps of the search, and the place of its one-entry cache. */
module Locating {
  import opened Runs
  import opened Levels
  import opened Forest
  import opened Trees
  import opened Searching
  import opened Compacting

  // ----- steps of the search --------------------------------------------------------------

  lemma {:induction false} FoundLeaf<T>(t: Tree<T>, k: nat, j: nat, offset: nat)
    requires Good(t, 0, [], NIL) && k < |t.levels| && j < |t.levels[k]| && t.levels[k][j] in t.runs
    requires var n := Len(t.children, t.runs, t.levels[k][j]);
             offset < n || (offset == n && j + 1 == |t.levels[k]|)
    ensures k == 0 && Finds(t, j, offset, LevelStart(t, k, j) + offset)
  {
    hide Measured, Filled, WithinCapacity, LevelStart, LeafStart, Len, Rooted, Ranked, Allocated, AllLinked, Stacked,
      Parented, RunsPositive;
    assert Kind(k, t.levels[k][j], t.runs, t.children);
    LevelZeroStart(t, j);
  }

  lemma {:induction false} BranchParts<T>(t: Tree<T>, k: nat, j: nat)
    requires Good(t, 0, [], NIL) && k < |t.levels| && j < |t.levels[k]| && t.levels[k][j] !in t.runs
    ensures k > 0 && t.levels[k][j] in t.children && t.children[t.levels[k][j]] != []
    ensures Len(t.children, t.runs, t.levels[k][j]) == ChildTotal(t.children[t.levels[k][j]])
  {
    NonEmpty(t, k, j);
    hide Measured, Filled, WithinCapacity, Rooted, Ranked, Allocated, AllLinked, Stacked, Parented, RunsPositive,
      ChildTotal;
    assert Kind(k, t.levels[k][j], t.runs, t.children);
  }

  lemma {:induction false} ChildPosition<T>(t: Tree<T>, k: nat, j: nat, c: nat) returns (x: nat)
    requires Good(t, 0, [], NIL) && 0 < k < |t.levels| && j < |t.levels[k]| && c < |Get(t.children, t.levels[k][j])|
    ensures ChildAt(t, k, j, c, x)
  {
    hide Sound, Measured, Filled, WithinCapacity, ChildAt;
    x := ChildStart(t, k, j, c);
  }

  lemma {:induction false} FirstOfLevel<T>(t: Tree<T>, k: nat)
    requires Good(t, 0, [], NIL) && 0 < k < |t.levels| && t.levels[k] != [] && Get(t.children, t.levels[k][0]) != []
    ensures t.levels[k - 1] != [] && t.levels[k - 1][0] == Get(t.children, t.levels[k][0])[0].node
  {
    LevelBelowOf(t, k);
    hide Sound, Measured, Filled, WithinCapacity, Gather;
    ChildPlace(t.children, t.levels[k], t.levels[k - 1], 0, 0,
      0) by { assert t.levels[k][..0] == []; GatherNone(t.children); }
  }

  lemma {:induction false} RootTop<T>(t: Tree<T>)
    requires Good(t, 0, [], NIL)
    ensures |t.levels| >= 2 && t.levels[|t.levels| - 1] == [ROOT] && ROOT in t.children && ROOT !in t.runs
  {
    RootPlace(t, 0, []);
  }

  lemma {:induction false} RootSpan<T>(t: Tree<T>)
    requires Good(t, 0, [], NIL)
    ensures |t.levels| >= 2 && t.levels[|t.levels| - 1] == [ROOT] && t.levels[0] != []
    ensures Len(t.children, t.runs, ROOT) == Total(Gather(t.runs, t.levels[0]))
    ensures LevelStart(t, |t.levels| - 1, 0) == 0
  {
    hide Gather, Total, Measured, Filled, WithinCapacity, Ranked, Allocated, AllLinked, Stacked, Parented, RunsPositive,
      Kinds, Len;
    RootPlace(t, 0, []);
    var k := |t.levels| - 1;
    LevelTotal(t, k);
    assert t.levels[k][1..] == [] && t.levels[k][..0] == [];
  }

  lemma {:induction false} FindsFirst<T>(t: Tree<T>)
    requires Good(t, 0, [], NIL)
    ensures t.levels != [] && t.levels[0] != []
    ensures Finds(t, 0, 0, 0)
  {
    RootSpan(t);
    NonEmpty(t, 0, 0);
    hide Good, Len;
    assert t.levels[0][..0] == [];
    GatherNone(t.runs);
  }

  /** The cached leaf is in the tree and its cached offset is its offset. */
  ghost predicate CachePlace<T>(t: Tree<T>, cached: Id, cachedOffset: nat) {
    t.levels != [] && (cached == NIL ||
      exists i :: 0 <= i < |t.levels[0]| && t.levels[0][i] == cached && cachedOffset == LeafStart(t, i))
  }

  lemma {:induction false} CacheWhere<T>(t: Tree<T>, cached: Id, cachedOffset: nat) returns (i: nat)
    requires CachePlace(t, cached, cachedOffset) && cached != NIL
    ensures t.levels != [] && i < |t.levels[0]| && t.levels[0][i] == cached && cachedOffset == LeafStart(t, i)
  {
    i :| 0 <= i < |t.levels[0]| && t.levels[0][i] == cached && cachedOffset == LeafStart(t, i);
  }

  lemma {:induction false} CacheHit<T>(t: Tree<T>, i: nat, start: nat, offset: nat)
    requires Good(t, 0, [], NIL) && t.levels != [] && i < |t.levels[0]| && start == LeafStart(t, i) && start <= offset
    requires var n := t.levels[0][i];
             var end := start + Len(t.children, t.runs, n);
             offset < end || (offset == end && Ref(t.next, n) == NIL)
    ensures Finds(t, i, offset - start, offset)
  {
    hide Good, LeafStart, Len;
    LinksOf(t, 0, i, NIL);
  }

  lemma {:induction false} CacheSet<T>(t: Tree<T>, i: nat, within: nat, offset: nat)
    requires Finds(t, i, within, offset)
    ensures within <= offset && i < |t.levels[0]| && CachePlace(t, t.levels[0][i], offset - within)
  {
    hide LeafStart, Len;
  }
}
