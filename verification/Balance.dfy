/** What a good tree is when it is read from the root through the child entries
    alone: the levels are its breadth-first rows. */
module Balance {
  import opened Runs
  import opened Levels
  import opened Forest
  import opened Trees
  import opened Searching

  /** The nodes `depth` levels below these, in order. */
  ghost function Below(ch: map<Id, seq<Child>>, ids: seq<Id>, depth: nat): seq<Id>
    decreases depth, |ids|
  {
    if depth == 0 then ids
    else if ids == [] then []
    else Below(ch, Nodes(Get(ch, ids[0])), depth - 1) + Below(ch, ids[1..], depth)
  }

  /** Every path from `n` reaches a leaf after exactly `depth` steps. */
  ghost predicate Uniform<T>(ch: map<Id, seq<Child>>, runs: map<Id, seq<Run<T>>>, n: Id, depth: nat)
    decreases depth
  {
    if depth == 0 then
      n in runs && n !in ch
    else
      n in ch && n !in runs && forall c :: 0 <= c < |ch[n]| ==> Uniform(ch, runs, ch[n][c].node, depth - 1)
  }

  lemma {:induction false} BelowConcat(ch: map<Id, seq<Child>>, a: seq<Id>, b: seq<Id>, depth: nat)
    ensures Below(ch, a + b, depth) == Below(ch, a, depth) + Below(ch, b, depth)
  {
    if a == [] {
      assert a + b == b;
    } else if depth > 0 {
      assert (a + b)[1..] == a[1..] + b;
      BelowConcat(ch, a[1..], b, depth);
    }
  }

  /** Depth first and level by level name the same nodes. */
  lemma {:induction false} BelowStep(ch: map<Id, seq<Child>>, ids: seq<Id>, depth: nat)
    requires depth > 0
    ensures Below(ch, ids, depth) == Below(ch, Nodes(Gather(ch, ids)), depth - 1)
  {
    if ids == [] {
      assert Nodes([]) == [];
    } else {
      BelowStep(ch, ids[1..], depth);
      NodesConcat(Get(ch, ids[0]), Gather(ch, ids[1..]));
      BelowConcat(ch, Nodes(Get(ch, ids[0])), Nodes(Gather(ch, ids[1..])), depth - 1);
    }
  }

  lemma {:induction false} LevelBelow<T>(t: Tree<T>, k: nat, depth: nat)
    requires Whole(t) && depth <= k < |t.levels|
    ensures Below(t.children, t.levels[k], depth) == t.levels[k - depth]
  {
    hide Rooted, Ranked, Kinds, Allocated, AllLinked, Parented, RunsPositive, Gather;
    if depth > 0 {
      assert Covers(t.children, Row(t.levels, 0, [], k), t.levels[k - 1]);
      BelowStep(t.children, t.levels[k], depth);
      LevelBelow(t, k - 1, depth - 1);
    }
  }

  lemma {:induction false} LevelUniform<T>(t: Tree<T>, k: nat, j: nat)
    requires Whole(t) && k < |t.levels| && j < |t.levels[k]|
    ensures Uniform(t.children, t.runs, t.levels[k][j], k)
    decreases k
  {
    hide Rooted, Ranked, Allocated, AllLinked, Parented, RunsPositive, Gather, Covers;
    var n := t.levels[k][j];
    assert Kind(k, n, t.runs, t.children);
    if k > 0 {
      assert Covers(t.children, Row(t.levels, 0, [], k), t.levels[k - 1]);
      forall c | 0 <= c < |t.children[n]|
        ensures Uniform(t.children, t.runs, t.children[n][c].node, k - 1)
      {
        var x := |Gather(t.children, t.levels[k][..j])| + c;
        ChildPlace(t.children, t.levels[k], t.levels[k - 1], j, c, x);
        LevelUniform(t, k - 1, x);
      }
    }
  }

  lemma {:induction false} EntriesTotal<T>(ch: map<Id, seq<Child>>, runs: map<Id, seq<Run<T>>>, es: seq<Child>)
    requires forall c :: 0 <= c < |es| ==> es[c].length == Len(ch, runs, es[c].node)
    ensures ChildTotal(es) == SumLens(ch, runs, Nodes(es))
  {
    if es != [] {
      EntriesTotal(ch, runs, es[1..]);
      assert Nodes(es)[1..] == Nodes(es[1..]);
    }
  }

  /** Cached lengths are the run totals of the whole subtrees. */
  lemma {:induction false} SubtreeTotal<T>(ch: map<Id, seq<Child>>, runs: map<Id, seq<Run<T>>>, ids: seq<Id>,
                                           depth: nat)
    requires Measured(ch, runs, NIL, 0, NIL, 0)
    requires forall i :: 0 <= i < |ids| ==> Uniform(ch, runs, ids[i], depth)
    ensures SumLens(ch, runs, ids) == Total(Gather(runs, Below(ch, ids, depth)))
    decreases depth, |ids|
  {
    hide Total, Gather, ChildTotal, Measured;
    if depth == 0 {
      SumLensLeaves(ch, runs, ids);
    } else if ids == [] {
      SumLensLeaves(ch, runs, ids);
    } else {
      assert Uniform(ch, runs, ids[0], depth);
      var es := ch[ids[0]];
      ChildTotalOf(ch, runs, ids[0]);
      SubtreeTotal(ch, runs, Nodes(es), depth - 1);
      SubtreeTotal(ch, runs, ids[1..], depth);
      var a, b := Below(ch, Nodes(es), depth - 1), Below(ch, ids[1..], depth);
      GatherConcat(runs, a, b);
      ExpandConcat(Gather(runs, a), Gather(runs, b));
    }
  }

  lemma {:induction false} ChildTotalOf<T>(ch: map<Id, seq<Child>>, runs: map<Id, seq<Run<T>>>, n: Id)
    requires Measured(ch, runs, NIL, 0, NIL, 0) && n in ch && n !in runs
    ensures Len(ch, runs, n) == SumLens(ch, runs, Nodes(ch[n]))
  {
    hide Total, ChildTotal, SumLens;
    var es := ch[n];
    forall c | 0 <= c < |es|
      ensures es[c].length == Len(ch, runs, es[c].node)
    {
      assert ch[n][c] == es[c];
    }
    EntriesTotal(ch, runs, es);
  }

  // ----- the theorems about a good tree --------------------------------------------------

  /** The nodes at a depth, from the root. */
  ghost function AtDepth<T>(t: Tree<T>, depth: nat): seq<Id> {
    Below(t.children, [ROOT], depth)
  }

  lemma {:induction false} DepthLevel<T>(t: Tree<T>, depth: nat)
    requires Whole(t) && depth < |t.levels|
    ensures AtDepth(t, depth) == t.levels[|t.levels| - 1 - depth]
  {
    LevelBelow(t, |t.levels| - 1, depth);
  }

  /** All leaves lie at one depth, and the in-order leaves hold the text. */
  lemma {:induction false} EqualDepth<T>(t: Tree<T>)
    requires Whole(t)
    ensures var height := |t.levels| - 1;
            && height >= 1
            && Uniform(t.children, t.runs, ROOT, height)
            && Labels(t) == Expand(Gather(t.runs, AtDepth(t, height)))
  {
    hide Gather, Expand;
    var top := |t.levels| - 1;
    assert t.levels[top][0] == ROOT;
    LevelUniform(t, top, 0);
    DepthLevel(t, top);
  }

  /** On every level, also across different parents, prev and next run through
      the nodes in order, and each child entry is matched by a parent pointer. */
  lemma {:induction false} NeighboursInOrder<T>(t: Tree<T>, depth: nat, i: nat)
    requires Whole(t) && depth < |t.levels| && i < |AtDepth(t, depth)|
    ensures var row := AtDepth(t, depth);
            && Ref(t.prev, row[i]) == (if i == 0 then NIL else row[i - 1])
            && Ref(t.next, row[i]) == (if i + 1 == |row| then NIL else row[i + 1])
    ensures forall c :: 0 <= c < |Get(t.children, AtDepth(t, depth)[i])| ==>
              Ref(t.parent, Get(t.children, AtDepth(t, depth)[i])[c].node) == AtDepth(t, depth)[i]
  {
    hide Rooted, Ranked, Allocated, Kinds, Stacked, RunsPositive, Ref;
    DepthLevel(t, depth);
    assert Linked(t.prev, t.next, t.levels[|t.levels| - 1 - depth]);
    forall c | 0 <= c < |Get(t.children, AtDepth(t, depth)[i])|
      ensures Ref(t.parent, Get(t.children, AtDepth(t, depth)[i])[c].node) == AtDepth(t, depth)[i]
    {
      var p := AtDepth(t, depth)[i];
      assert t.children[p][c] == Get(t.children, p)[c];
    }
  }

  /** Every child entry caches the total length of the runs below it. */
  lemma {:induction false} EntryIsSubtreeLength<T>(t: Tree<T>, depth: nat, i: nat, c: nat)
    requires Whole(t) && Exact(t) && depth + 1 < |t.levels| && i < |AtDepth(t, depth)|
    requires c < |Get(t.children, AtDepth(t, depth)[i])|
    ensures var e := Get(t.children, AtDepth(t, depth)[i])[c];
            e.length == Total(Gather(t.runs, Below(t.children, [e.node], |t.levels| - 2 - depth)))
  {
    hide Rooted, Ranked, Allocated, AllLinked, Stacked, Parented, RunsPositive, Gather, Total, Below, Uniform;
    DepthLevel(t, depth);
    var k := |t.levels| - 1 - depth;
    LevelUniform(t, k, i);
    var e := Get(t.children, t.levels[k][i])[c];
    ChildUniform(t.children, t.runs, t.levels[k][i], k, c);
    SubtreeTotal(t.children, t.runs, [e.node], k - 1);
    assert t.children[t.levels[k][i]][c] == e;
    assert SumLens(t.children, t.runs, [e.node]) == Len(t.children, t.runs, e.node) by {
      assert [e.node][1..] == [];
    }
  }

  lemma {:induction false} ChildUniform<T>(ch: map<Id, seq<Child>>, runs: map<Id, seq<Run<T>>>, n: Id, depth: nat,
                                           c: nat)
    requires depth > 0 && Uniform(ch, runs, n, depth) && c < |Get(ch, n)|
    ensures n in ch && Uniform(ch, runs, Get(ch, n)[c].node, depth - 1)
  {}

  /** Fill: a node that shares its level holds at least eight entries; only the
      root can have a single child; a leaf can only be empty when it is the one
      leaf of an empty text.  Nothing ever exceeds the arrays. */
  lemma {:induction false} FillBounds<T>(t: Tree<T>, depth: nat, i: nat)
    requires Good(t, 0, [], NIL) && depth < |t.levels| && i < |AtDepth(t, depth)|
    ensures var row := AtDepth(t, depth);
            var size := Size(t.children, t.runs, row[i]);
            && size <= MAX_RUNS
            && (|row| >= 2 ==> size >= MIN_RUNS)
            && (depth + 1 < |t.levels| ==> size >= 1)
            && (depth + 1 < |t.levels| && size == 1 ==> row == [ROOT])
            && (size == 0 ==> row == t.levels[0] && |row| == 1 && Labels(t) == [])
  {
    hide AllLinked, Stacked, Parented, Measured, Expand;
    DepthLevel(t, depth);
    var k := |t.levels| - 1 - depth;
    assert Kind(k, t.levels[k][i], t.runs, t.children);
    assert t.levels[k][i] != NIL by { assert t.levels[k][i] in t.rank; }
    assert MinSize(t.levels, k) <= Size(t.children, t.runs, t.levels[k][i]);
    if Size(t.children, t.runs, t.levels[k][i]) == 0 {
      assert t.levels[0] == [t.levels[0][0]];
      GatherOne(t.runs, t.levels[0][0]);
      ExpandNothing<T>();
    }
  }

  lemma {:induction false} ExpandNothing<T>()
    ensures Expand<T>([]) == []
  {}

  /** Every run has a character. */
  lemma {:induction false} NoEmptyRun<T>(t: Tree<T>, x: nat)
    requires Whole(t) && x < |Gather(t.runs, t.levels[0])|
    ensures Gather(t.runs, t.levels[0])[x].length > 0
  {
    hide Ranked, Allocated, AllLinked, Stacked, Parented, Kinds, Gather;
    var j, c := Locate(t.runs, t.levels[0], x);
    assert AllPositive(t.runs[t.levels[0][j]]);
  }
}
