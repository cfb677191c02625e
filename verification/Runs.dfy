/** Runs of equally labelled characters, and the edits that one leaf of the
    text region makes to its own runs. */
module Runs {
  /** The most runs a leaf can hold (CJH_TEXT_REGION_MAX_RUNS). */
  const MAX_RUNS: nat := 26

  datatype Run<+T> = Run(length: nat, data: T)

  /** A join callback: offset in the region, left run, right run.  The source
      allows NULL, which stands for `NeverJoin`. */
  type JoinFunc<!T> = (nat, Run<T>, Run<T>) -> bool

  ghost predicate JoinsOnlyEqual<T(!new)>(join: JoinFunc<T>) {
    forall o, a, b :: join(o, a, b) ==> a.data == b.data
  }

  predicate NeverJoin<T>(offset: nat, left: Run<T>, right: Run<T>) {
    false
  }

  ghost function Repeat<T>(n: nat, x: T): (s: seq<T>)
    ensures |s| == n
    ensures forall i :: 0 <= i < n ==> s[i] == x
  {
    seq(n, _ => x)
  }

  ghost function Total<T>(rs: seq<Run<T>>): nat {
    if rs == [] then 0 else rs[0].length + Total(rs[1..])
  }

  /** One label per character. */
  ghost function Expand<T>(rs: seq<Run<T>>): (s: seq<T>)
    ensures |s| == Total(rs)
  {
    if rs == [] then [] else Repeat(rs[0].length, rs[0].data) + Expand(rs[1..])
  }

  ghost predicate AllPositive<T>(rs: seq<Run<T>>) {
    forall i :: 0 <= i < |rs| ==> rs[i].length > 0
  }

  lemma {:induction false} ExpandConcat<T>(a: seq<Run<T>>, b: seq<Run<T>>)
    ensures Expand(a + b) == Expand(a) + Expand(b)
    ensures Total(a + b) == Total(a) + Total(b)
  {
    if a == [] {
      assert a + b == b;
    } else {
      assert (a + b)[1..] == a[1..] + b;
      ExpandConcat(a[1..], b);
    }
  }

  lemma {:induction false} ExpandOne<T>(r: Run<T>)
    ensures Expand([r]) == Repeat(r.length, r.data)
    ensures Total([r]) == r.length
  {}

  lemma {:induction false} ExpandTwo<T>(a: Run<T>, b: Run<T>)
    ensures Expand([a, b]) == Repeat(a.length, a.data) + Repeat(b.length, b.data)
    ensures Total([a, b]) == a.length + b.length
  {
    ExpandConcat([a], [b]);
    assert [a] + [b] == [a, b];
  }

  lemma {:induction false} RunAt<T>(rs: seq<Run<T>>, i: nat)
    requires i < |rs|
    ensures Expand(rs) == Expand(rs[..i]) + Repeat(rs[i].length, rs[i].data) + Expand(rs[i + 1..])
    ensures Total(rs[..i + 1]) == Total(rs[..i]) + rs[i].length
    ensures Total(rs) == Total(rs[..i + 1]) + Total(rs[i + 1..])
    ensures i + 1 == |rs| ==> Total(rs[..i + 1]) == Total(rs)
  {
    var a, r, b := rs[..i], rs[i], rs[i + 1..];
    assert rs == (a + [r]) + b && rs[..i + 1] == a + [r];
    MiddleRun(a, r, b);
  }

  lemma {:induction false} MiddleRun<T>(a: seq<Run<T>>, r: Run<T>, b: seq<Run<T>>)
    ensures Expand(a + [r]) == Expand(a) + Repeat(r.length, r.data)
    ensures Expand((a + [r]) + b) == Expand(a) + Repeat(r.length, r.data) + Expand(b)
    ensures Total(a + [r]) == Total(a) + r.length
    ensures Total((a + [r]) + b) == Total(a + [r]) + Total(b)
  {
    ExpandOne(r);
    ExpandConcat(a, [r]);
    ExpandConcat(a + [r], b);
  }

  lemma {:induction false} TotalPrefix<T>(rs: seq<Run<T>>, i: nat, j: nat)
    requires i <= j <= |rs|
    ensures Total(rs[..i]) <= Total(rs[..j]) <= Total(rs)
  {
    ExpandConcat(rs[..i], rs[i..j]);
    assert rs[..i] + rs[i..j] == rs[..j];
    ExpandConcat(rs[..j], rs[j..]);
    assert rs[..j] + rs[j..] == rs;
  }

  lemma {:induction false} PositiveTotal<T>(rs: seq<Run<T>>)
    requires AllPositive(rs)
    ensures |rs| <= Total(rs)
  {
    if rs != [] {
      assert AllPositive(rs[1..]);
      PositiveTotal(rs[1..]);
    }
  }

  /** What insertion of `ins` at character `at` means. */
  ghost function Inserted<T>(s: seq<T>, at: nat, ins: seq<T>): seq<T>
    requires at <= |s|
  {
    s[..at] + ins + s[at..]
  }

  /** What deletion of `n` characters at `at` means. */
  ghost function Deleted<T>(s: seq<T>, at: nat, n: nat): seq<T>
    requires at + n <= |s|
  {
    s[..at] + s[at + n..]
  }

  /** Replacing the characters of one stretch of runs replaces them in the whole. */
  lemma {:induction false} SpliceExpand<T>(a: seq<Run<T>>, x: seq<Run<T>>, y: seq<Run<T>>, b: seq<Run<T>>)
    ensures Expand(a + x + b) == Expand(a) + Expand(x) + Expand(b)
    ensures Expand(a + y + b) == Expand(a) + Expand(y) + Expand(b)
  {
    ExpandConcat(a, x);
    ExpandConcat(a + x, b);
    ExpandConcat(a, y);
    ExpandConcat(a + y, b);
  }

  lemma {:induction false} InsertedInMiddle<T>(a: seq<T>, s: seq<T>, b: seq<T>, at: nat, ins: seq<T>)
    requires at <= |s|
    ensures Inserted(a + s + b, |a| + at, ins) == a + Inserted(s, at, ins) + b
  {}

  lemma {:induction false} DeletedInMiddle<T>(a: seq<T>, s: seq<T>, b: seq<T>, at: nat, n: nat)
    requires at + n <= |s|
    ensures Deleted(a + s + b, |a| + at, n) == a + Deleted(s, at, n) + b
  {}

  /** The new run `ins` goes in at character `w` of the run `rs[i]`, which `x` replaces. */
  lemma {:induction false} InsertAtRun<T>(rs: seq<Run<T>>, i: nat, w: nat, ins: Run<T>, x: seq<Run<T>>)
    requires i < |rs| && w <= rs[i].length
    requires Total(rs[..i]) + w <= Total(rs)
    requires Expand(x) == Inserted(Repeat(rs[i].length, rs[i].data), w, Repeat(ins.length, ins.data))
    ensures Expand(rs[..i] + x + rs[i + 1..])
         == Inserted(Expand(rs), Total(rs[..i]) + w, Repeat(ins.length, ins.data))
  {
    RunAt(rs, i);
    SpliceExpand(rs[..i], x, x, rs[i + 1..]);
    InsertedInMiddle(Expand(rs[..i]), Repeat(rs[i].length, rs[i].data), Expand(rs[i + 1..]), w,
                     Repeat(ins.length, ins.data));
  }

  /** join_run: the joined run, if the callback accepts. */
  function JoinRun<T>(join: JoinFunc<T>, offset: nat, left: Run<T>, right: Run<T>): (joined: seq<Run<T>>) {
    if join(offset, left, right) then [Run(left.length + right.length, left.data)] else []
  }

  lemma {:induction false} JoinedExpands<T(!new)>(join: JoinFunc<T>, offset: nat, left: Run<T>, right: Run<T>)
    requires JoinsOnlyEqual(join)
    ensures var j := JoinRun(join, offset, left, right);
            j != [] ==> Expand(j) == Repeat(left.length, left.data) + Repeat(right.length, right.data)
  {}

  // ----- inserting into the runs of one leaf ---------------------------------

  lemma {:induction false} BeforeRun<T>(d: T, n: nat, ins: seq<T>)
    ensures Inserted(Repeat(n, d), 0, ins) == ins + Repeat(n, d)
    ensures Inserted(Repeat(n, d), n, ins) == Repeat(n, d) + ins
  {}

  lemma {:induction false} InsideRun<T>(d: T, w: nat, n: nat, ins: seq<T>)
    requires w <= n
    ensures Inserted(Repeat(n, d), w, ins) == Repeat(w, d) + (ins + Repeat(n - w, d))
  {}

  /** `left` tries to join the first of the runs that follow it. */
  function JoinFront<T>(join: JoinFunc<T>, offset: nat, left: Run<T>, rest: seq<Run<T>>): (x: seq<Run<T>>)
    requires rest != []
    ensures |rest| <= |x| <= |rest| + 1
  {
    var joined := JoinRun(join, offset, left, rest[0]);
    if joined != [] then joined + rest[1..] else [left] + rest
  }

  lemma {:induction false} JoinFrontExpands<T(!new)>(join: JoinFunc<T>, offset: nat, left: Run<T>, rest: seq<Run<T>>)
    requires JoinsOnlyEqual(join) && rest != [] && left.length > 0 && AllPositive(rest)
    ensures var x := JoinFront(join, offset, left, rest);
            AllPositive(x) && Expand(x) == Repeat(left.length, left.data) + Expand(rest)
  {
    hide Expand;
    var joined := JoinRun(join, offset, left, rest[0]);
    JoinedExpands(join, offset, left, rest[0]);
    ExpandConcat(joined, rest[1..]);
    ExpandOne(left);
    ExpandOne(rest[0]);
    assert rest == [rest[0]] + rest[1..];
    ExpandConcat([rest[0]], rest[1..]);
    ExpandConcat([left], rest);
  }

  /** The runs that take the place of `run` when `ins` lands strictly inside it:
      the new run tries to join the right part, then the left part tries to
      join what results. */
  function SplitAround<T>(join: JoinFunc<T>, offset: nat, run: Run<T>, w: nat, ins: Run<T>): (x: seq<Run<T>>)
    requires w < run.length && w <= offset
    ensures 1 <= |x| <= 3
  {
    var left := Run(w, run.data);
    var right := Run(run.length - w, run.data);
    JoinFront(join, offset - w, left, JoinFront(join, offset, ins, [right]))
  }

  lemma {:induction false} SplitAroundExpands<T(!new)>(join: JoinFunc<T>, offset: nat, run: Run<T>, w: nat, ins: Run<T>)
    requires JoinsOnlyEqual(join)
    requires 0 < w < run.length && w <= offset && ins.length > 0
    ensures var x := SplitAround(join, offset, run, w, ins);
            && AllPositive(x)
            && Expand(x) == Inserted(Repeat(run.length, run.data), w, Repeat(ins.length, ins.data))
  {
    hide Expand, JoinFront, Inserted;
    var left := Run(w, run.data);
    var right := Run(run.length - w, run.data);
    var inner := JoinFront(join, offset, ins, [right]);
    ExpandOne(right);
    JoinFrontExpands(join, offset, ins, [right]);
    assert Expand(inner) == Repeat(ins.length, ins.data) + Repeat(right.length, run.data);
    JoinFrontExpands(join, offset - w, left, inner);
    InsideRun(run.data, w, run.length, Repeat(ins.length, ins.data));
  }

  /** Landing on the boundary before `run`, or after it. */
  lemma {:induction false} BesideExpands<T(!new)>(join: JoinFunc<T>, offset: nat, run: Run<T>, ins: Run<T>)
    requires JoinsOnlyEqual(join) && run.length > 0 && ins.length > 0
    ensures var before := JoinRun(join, offset, ins, run);
            before != [] ==>
              AllPositive(before) &&
                Expand(before) == Inserted(Repeat(run.length, run.data), 0, Repeat(ins.length, ins.data))
    ensures var after := JoinRun(join, offset, run, ins);
            after != [] ==>
              AllPositive(after) &&
                Expand(after) == Inserted(Repeat(run.length, run.data), run.length, Repeat(ins.length, ins.data))
    ensures Expand([ins, run]) == Inserted(Repeat(run.length, run.data), 0, Repeat(ins.length, ins.data))
    ensures Expand([run, ins]) == Inserted(Repeat(run.length, run.data), run.length, Repeat(ins.length, ins.data))
  {
    JoinedExpands(join, offset, ins, run);
    JoinedExpands(join, offset, run, ins);
    ExpandTwo(ins, run);
    ExpandTwo(run, ins);
    BeforeRun(run.data, run.length, Repeat(ins.length, ins.data));
  }

  ghost predicate InsertResult<T>(rs: seq<Run<T>>, within: nat, ins: Run<T>, out: seq<Run<T>>)
    requires within <= Total(rs)
  {
    && Expand(out) == Inserted(Expand(rs), within, Repeat(ins.length, ins.data))
    && AllPositive(out)
    && |rs| <= |out| <= |rs| + 2
  }

  lemma {:induction false} InsertAtRunResult<T>(rs: seq<Run<T>>, i: nat, w: nat, ins: Run<T>, x: seq<Run<T>>,
                                                out: seq<Run<T>>)
    requires i < |rs| && w <= rs[i].length && AllPositive(rs) && AllPositive(x)
    requires 1 <= |x| <= 3
    requires Expand(x) == Inserted(Repeat(rs[i].length, rs[i].data), w, Repeat(ins.length, ins.data))
    requires out == rs[..i] + x + rs[i + 1..]
    ensures Total(rs[..i]) + w <= Total(rs)
    ensures InsertResult(rs, Total(rs[..i]) + w, ins, out)
  {
    RunAt(rs, i);
    InsertAtRun(rs, i, w, ins, x);
  }

  /** The runs of the first n characters; a run that reaches beyond is cut. */
  ghost function RunsBefore<T>(rs: seq<Run<T>>, n: nat): (a: seq<Run<T>>) {
    if rs == [] || n == 0 then []
    else if rs[0].length <= n then [rs[0]] + RunsBefore(rs[1..], n - rs[0].length)
    else [Run(n, rs[0].data)]
  }

  /** The runs of the characters from n on. */
  ghost function RunsFrom<T>(rs: seq<Run<T>>, n: nat): (b: seq<Run<T>>) {
    if rs == [] || n == 0 then rs
    else if rs[0].length <= n then RunsFrom(rs[1..], n - rs[0].length)
    else [Run(rs[0].length - n, rs[0].data)] + rs[1..]
  }

  /** `ins` between the runs before and after it, in one with its neighbours
      where it is joined. */
  ghost function Seamed<T>(a: seq<Run<T>>, ins: Run<T>, b: seq<Run<T>>, left: bool, right: bool): seq<Run<T>>
    requires (left ==> a != []) && (right ==> b != [])
  {
    var m := Run((if left then a[|a| - 1].length else 0) + ins.length + (if right then b[0].length else 0),
                 if left then a[|a| - 1].data else ins.data);
    (if left then a[..|a| - 1] else a) + [m] + (if right then b[1..] else b)
  }

  /** The new run is joined with the one after it: always asked for where it cuts
      a run or comes first, and else only if it is not joined with the one before. */
  ghost predicate JoinsNext<T>(a: seq<Run<T>>, offset: nat, ins: Run<T>, b: seq<Run<T>>, cut: bool, join: JoinFunc<T>) {
    b != [] && join(offset, ins, b[0]) && (a == [] || cut || !join(offset, a[|a| - 1], ins))
  }

  /** The run before it is joined with the new run, or, where a run is cut, with
      what has become of the new run. */
  ghost predicate JoinsPrev<T>(a: seq<Run<T>>, offset: nat, ins: Run<T>, b: seq<Run<T>>, cut: bool, join: JoinFunc<T>) {
    && a != [] && (cut ==> a[|a| - 1].length <= offset)
    && join(if cut then offset - a[|a| - 1].length else offset, a[|a| - 1],
            if cut && JoinsNext(a, offset, ins, b, cut, join) then Run(ins.length + b[0].length, ins.data) else ins)
  }

  /** The runs of a leaf after an insertion, exactly. */
  ghost predicate InsertOutcome<T>(rs: seq<Run<T>>, offset: nat, within: nat, ins: Run<T>, join: JoinFunc<T>,
                                   out: seq<Run<T>>) {
    var a, b := RunsBefore(rs, within), RunsFrom(rs, within);
    var cut := |a| + |b| > |rs|;
    out == Seamed(a, ins, b, JoinsPrev(a, offset, ins, b, cut, join), JoinsNext(a, offset, ins, b, cut, join))
  }

  lemma {:induction false} SidesExpand<T>(rs: seq<Run<T>>, n: nat)
    requires n <= Total(rs)
    ensures Expand(RunsBefore(rs, n)) == Expand(rs)[..n] && Expand(RunsFrom(rs, n)) == Expand(rs)[n..]
  {
    if rs != [] && n > 0 {
      var r, rest := rs[0], rs[1..];
      HeadExpand(r, rest);
      assert rs == [r] + rest;
      if r.length <= n {
        SidesExpand(rest, n - r.length);
        HeadExpand(r, RunsBefore(rest, n - r.length));
        hide Expand, Repeat;
        CutBehind(Repeat(r.length, r.data), Expand(rest), n);
      } else {
        ExpandOne(Run(n, r.data));
        HeadExpand(Run(r.length - n, r.data), rest);
        hide Expand, Repeat;
        CutFront(r.length, n, r.data, Expand(rest));
      }
    }
  }

  lemma {:induction false} HeadExpand<T>(r: Run<T>, rest: seq<Run<T>>)
    ensures Expand([r] + rest) == Repeat(r.length, r.data) + Expand(rest)
  {
    hide Expand;
    ExpandConcat([r], rest);
    ExpandOne(r);
  }

  lemma {:induction false} CutBehind<T>(a: seq<T>, b: seq<T>, n: nat)
    requires |a| <= n <= |a| + |b|
    ensures (a + b)[..n] == a + b[..n - |a|] && (a + b)[n..] == b[n - |a|..]
  {}

  lemma {:induction false} CutFront<T>(m: nat, n: nat, d: T, s: seq<T>)
    requires n <= m
    ensures (Repeat(m, d) + s)[..n] == Repeat(n, d) && (Repeat(m, d) + s)[n..] == Repeat(m - n, d) + s
  {}

  lemma {:induction false} SidesConcat<T>(x: seq<Run<T>>, rs: seq<Run<T>>, n: nat)
    requires AllPositive(x)
    ensures RunsBefore(x + rs, Total(x) + n) == x + RunsBefore(rs, n)
    ensures RunsFrom(x + rs, Total(x) + n) == RunsFrom(rs, n)
  {
    if x == [] {
      assert x + rs == rs;
    } else {
      assert (x + rs)[1..] == x[1..] + rs;
      SidesConcat(x[1..], rs, n);
    }
  }

  lemma {:induction false} SidesStep<T>(r: Run<T>, rest: seq<Run<T>>, n: nat)
    ensures RunsBefore([r] + rest, n) ==
              if n == 0 then [] else if r.length <= n then [r] + RunsBefore(rest, n - r.length) else [Run(n, r.data)]
    ensures RunsFrom([r] + rest, n) ==
              if n == 0 then [r] + rest else if r.length <= n then RunsFrom(rest, n - r.length)
              else [Run(r.length - n, r.data)] + rest
  {
    assert ([r] + rest)[1..] == rest;
  }

  lemma {:induction false} SidesAppend<T>(rs: seq<Run<T>>, y: seq<Run<T>>, n: nat)
    requires n <= Total(rs)
    ensures RunsBefore(rs + y, n) == RunsBefore(rs, n)
    ensures RunsFrom(rs + y, n) == RunsFrom(rs, n) + y
  {
    if rs == [] {
      assert rs + y == y;
    } else {
      var r, rest := rs[0], rs[1..];
      assert Total(rs) == r.length + Total(rest);
      hide RunsBefore, RunsFrom, Total;
      assert rs == [r] + rest && rs + y == [r] + (rest + y);
      SidesStep(r, rest, n);
      SidesStep(r, rest + y, n);
      if n == 0 {
        return;
      } else if r.length <= n {
        SidesAppend(rest, y, n - r.length);
      } else {
        Regrouped([Run(r.length - n, r.data)], rest, y);
      }
    }
  }

  lemma {:induction false} Regrouped<X>(a: seq<X>, b: seq<X>, c: seq<X>)
    ensures a + (b + c) == a + b + c
  {}

  /** The two sides of a place in run i. */
  lemma {:induction false} SidesAt<T>(rs: seq<Run<T>>, i: nat, w: nat)
    requires i < |rs| && w <= rs[i].length && AllPositive(rs)
    ensures RunsBefore(rs, Total(rs[..i]) + w) ==
              rs[..i] + if w == 0 then [] else if w == rs[i].length then [rs[i]] else [Run(w, rs[i].data)]
    ensures RunsFrom(rs, Total(rs[..i]) + w) ==
              (if w == 0 then [rs[i]] else if w == rs[i].length then [] else [Run(rs[i].length - w, rs[i].data)]) +
              rs[i + 1..]
  {
    var x, y := rs[..i], rs[i..];
    assert rs == x + y && y[0] == rs[i] && y[1..] == rs[i + 1..];
    SidesConcat(x, y, w);
  }

  /** What an insertion does to the runs of the whole region: the new run stands
      between the two sides, in one with a neighbour only where the callback
      accepts.  (Whether it is asked depends on the leaves.) */
  ghost predicate InsertedRuns<T>(rs: seq<Run<T>>, offset: nat, ins: Run<T>, join: JoinFunc<T>, out: seq<Run<T>>) {
    exists left: bool, right: bool ::
      SeamedAs(RunsBefore(rs, offset), offset, ins, RunsFrom(rs, offset), join, out, left, right)
  }

  ghost predicate SeamedAs<T>(a: seq<Run<T>>, offset: nat, ins: Run<T>, b: seq<Run<T>>, join: JoinFunc<T>,
                              out: seq<Run<T>>, left: bool, right: bool) {
    && (right ==> b != [] && join(offset, ins, b[0]))
    && (left ==> a != [] && (join(offset, a[|a| - 1], ins) ||
                             (a[|a| - 1].length <= offset &&
                              join(offset - a[|a| - 1].length, a[|a| - 1],
                                   if right then Run(ins.length + b[0].length, ins.data) else ins))))
    && out == Seamed(a, ins, b, left, right)
  }

  /** Without joining, the new run stands between the two sides. */
  lemma {:induction false} PlainInsert<T>(rs: seq<Run<T>>, offset: nat, ins: Run<T>, out: seq<Run<T>>)
    requires InsertedRuns(rs, offset, ins, NeverJoin, out)
    ensures out == RunsBefore(rs, offset) + [ins] + RunsFrom(rs, offset)
  {}

  lemma {:induction false} InsertInPart<T>(x: seq<Run<T>>, rs: seq<Run<T>>, y: seq<Run<T>>, offset: nat, within: nat,
                                           ins: Run<T>, join: JoinFunc<T>, out: seq<Run<T>>)
    requires AllPositive(x) && within <= Total(rs) && Total(x) + within == offset
    requires InsertOutcome(rs, offset, within, ins, join, out)
    ensures InsertedRuns(x + rs + y, offset, ins, join, x + out + y)
  {
    hide Total, RunsBefore, RunsFrom, Seamed;
    assert x + rs + y == x + (rs + y);
    SidesConcat(x, rs + y, within);
    SidesAppend(rs, y, within);
    var a, b := RunsBefore(rs, within), RunsFrom(rs, within);
    var cut := |a| + |b| > |rs|;
    var left, right := JoinsPrev(a, offset, ins, b, cut, join), JoinsNext(a, offset, ins, b, cut, join);
    SeamInPart(x, a, ins, b, y, left, right);
    assert SeamedAs(x + a, offset, ins, b + y, join, x + out + y, left, right);
  }

  lemma {:induction false} SeamInPart<T>(x: seq<Run<T>>, a: seq<Run<T>>, ins: Run<T>, b: seq<Run<T>>, y: seq<Run<T>>,
                                         left: bool, right: bool)
    requires (left ==> a != []) && (right ==> b != [])
    ensures (left ==> x + a != []) && (right ==> b + y != [])
    ensures Seamed(x + a, ins, b + y, left, right) == x + Seamed(a, ins, b, left, right) + y
  {
    assert left ==> (x + a)[..|x + a| - 1] == x + a[..|a| - 1];
    assert right ==> (b + y)[1..] == b[1..] + y;
  }

  lemma {:induction false} FirstInsert<T>(offset: nat, ins: Run<T>, join: JoinFunc<T>)
    ensures InsertOutcome([], offset, 0, ins, join, [ins])
  {}

  lemma {:induction false} FirstOutcome<T>(rs: seq<Run<T>>, offset: nat, ins: Run<T>, join: JoinFunc<T>,
                                           out: seq<Run<T>>)
    requires rs != []
    requires var joined := JoinRun(join, offset, ins, rs[0]);
             out == rs[..0] + (if joined != [] then joined else [ins, rs[0]]) + rs[1..]
    ensures InsertOutcome(rs, offset, 0, ins, join, out)
  {
    assert rs[..0] == [];
    assert rs == [rs[0]] + rs[1..];
  }

  lemma {:induction false} InsideOutcome<T>(rs: seq<Run<T>>, i: nat, offset: nat, w: nat, ins: Run<T>,
                                            join: JoinFunc<T>, out: seq<Run<T>>)
    requires i < |rs| && 0 < w < rs[i].length && w <= offset && AllPositive(rs)
    requires out == rs[..i] + SplitAround(join, offset, rs[i], w, ins) + rs[i + 1..]
    ensures InsertOutcome(rs, offset, Total(rs[..i]) + w, ins, join, out)
  {
    hide Total, RunsBefore, RunsFrom, SplitAround, Seamed;
    SidesAt(rs, i, w);
    var left, right := Run(w, rs[i].data), Run(rs[i].length - w, rs[i].data);
    var prev := JoinsPrev([left], offset, ins, [right], true, join);
    var next := JoinsNext([left], offset, ins, [right], true, join);
    AroundSeamed(rs[i], offset, w, ins, join);
    SeamInPart(rs[..i], [left], ins, [right], rs[i + 1..], prev, next);
    assert (rs[..i] + [left])[|rs[..i]|] == left && ([right] + rs[i + 1..])[0] == right;
  }

  lemma {:induction false} AroundSeamed<T>(run: Run<T>, offset: nat, w: nat, ins: Run<T>, join: JoinFunc<T>)
    requires 0 < w < run.length && w <= offset
    ensures var left, right := Run(w, run.data), Run(run.length - w, run.data);
            SplitAround(join, offset, run, w, ins) ==
              Seamed([left], ins, [right], JoinsPrev([left], offset, ins, [right], true, join),
                     JoinsNext([left], offset, ins, [right], true, join))
  {
    var left, right := Run(w, run.data), Run(run.length - w, run.data);
    assert [right][1..] == [] && [left][..0] == [];
    assert JoinFront(join, offset, ins, [right]) ==
      if join(offset, ins, right) then [Run(ins.length + right.length, ins.data)] else [ins, right];
  }

  lemma {:induction false} SidesBehind<T>(rs: seq<Run<T>>, i: nat)
    requires i < |rs| && AllPositive(rs)
    ensures RunsBefore(rs, Total(rs[..i]) + rs[i].length) == rs[..i + 1]
    ensures RunsFrom(rs, Total(rs[..i]) + rs[i].length) == rs[i + 1..]
    ensures rs[..i + 1] == rs[..i] + [rs[i]]
  {
    hide Total, RunsBefore, RunsFrom;
    SidesAt(rs, i, rs[i].length);
  }

  lemma {:induction false} JoinedBefore<T>(rs: seq<Run<T>>, i: nat, offset: nat, ins: Run<T>, join: JoinFunc<T>)
    requires i < |rs| && AllPositive(rs) && join(offset, rs[i], ins)
    ensures InsertOutcome(rs, offset, Total(rs[..i]) + rs[i].length, ins, join,
              rs[..i] + JoinRun(join, offset, rs[i], ins) + rs[i + 1..])
  {
    hide Total, RunsBefore, RunsFrom;
    SidesBehind(rs, i);
    assert rs[..i + 1][..i] == rs[..i];
  }

  lemma {:induction false} JoinedAfter<T>(rs: seq<Run<T>>, i: nat, offset: nat, ins: Run<T>, join: JoinFunc<T>)
    requires i + 1 < |rs| && AllPositive(rs) && !join(offset, rs[i], ins) && join(offset, ins, rs[i + 1])
    ensures InsertOutcome(rs, offset, Total(rs[..i]) + rs[i].length, ins, join,
              rs[..i + 1] + JoinRun(join, offset, ins, rs[i + 1]) + rs[i + 2..])
  {
    hide Total, RunsBefore, RunsFrom;
    SidesBehind(rs, i);
    assert rs[i + 1..][1..] == rs[i + 2..];
  }

  lemma {:induction false} NotJoined<T>(rs: seq<Run<T>>, i: nat, offset: nat, ins: Run<T>, join: JoinFunc<T>)
    requires i < |rs| && AllPositive(rs) && !join(offset, rs[i], ins)
    requires i + 1 < |rs| ==> !join(offset, ins, rs[i + 1])
    ensures InsertOutcome(rs, offset, Total(rs[..i]) + rs[i].length, ins, join, rs[..i] + [rs[i], ins] + rs[i + 1..])
  {
    hide Total, RunsBefore, RunsFrom;
    SidesBehind(rs, i);
    assert rs[..i] + [rs[i], ins] == rs[..i + 1] + [ins];
  }

  /** The loop of _cjh_text_region_insert over the runs of the target leaf. */
  method InsertIntoRuns<T(!new)>(rs: seq<Run<T>>, offset: nat, within: nat, ins: Run<T>, join: JoinFunc<T>)
    returns (out: seq<Run<T>>)
    requires rs != [] && AllPositive(rs) && ins.length > 0 && JoinsOnlyEqual(join)
    requires within <= Total(rs) && within <= offset
    ensures Expand(out) == Inserted(Expand(rs), within, Repeat(ins.length, ins.data))
    ensures AllPositive(out)
    ensures |rs| <= |out| <= |rs| + 2
    ensures InsertOutcome(rs, offset, within, ins, join, out)
  {
    hide Inserted, Expand, InsertOutcome;
    var i := 0;
    var w := within;
    while i < |rs|
      invariant 0 <= i < |rs| && 0 <= w && (i > 0 ==> w > 0)
      invariant Total(rs[..i]) + w == within
    {
      var run := rs[i];
      if w == 0 {
        var joined := JoinRun(join, offset, ins, run);
        var x := if joined != [] then joined else [ins, run];
        out := rs[..i] + x + rs[i + 1..];
        BesideExpands(join, offset, run, ins);
        InsertAtRunResult(rs, i, w, ins, x, out);
        FirstOutcome(rs, offset, ins, join, out);
        return;
      } else if w == run.length {
        out := InsertAfterRun(rs, i, offset, ins, join);
        return;
      } else if w < run.length {
        var x := SplitAround(join, offset, run, w, ins);
        out := rs[..i] + x + rs[i + 1..];
        SplitAroundExpands(join, offset, run, w, ins);
        InsertAtRunResult(rs, i, w, ins, x, out);
        InsideOutcome(rs, i, offset, w, ins, join, out);
        return;
      }
      RunAt(rs, i);
      w := w - run.length;
      i := i + 1;
    }
    assert false;
  }

  /** The new run lands exactly between `rs[i]` and its successor: it joins the
      former, else the latter, else it becomes a run of its own. */
  method InsertAfterRun<T(!new)>(rs: seq<Run<T>>, i: nat, offset: nat, ins: Run<T>, join: JoinFunc<T>)
    returns (out: seq<Run<T>>)
    requires i < |rs| && AllPositive(rs) && ins.length > 0 && JoinsOnlyEqual(join)
    ensures Total(rs[..i]) + rs[i].length <= Total(rs)
    ensures InsertResult(rs, Total(rs[..i]) + rs[i].length, ins, out)
    ensures InsertOutcome(rs, offset, Total(rs[..i]) + rs[i].length, ins, join, out)
  {
    hide InsertOutcome;
    var run := rs[i];
    RunAt(rs, i);
    BesideExpands(join, offset, run, ins);
    var joined := JoinRun(join, offset, run, ins);
    if joined != [] {
      JoinedBefore(rs, i, offset, ins, join);
    }
    if joined == [] && i + 1 < |rs| {
      var next := rs[i + 1];
      var joinedNext := JoinRun(join, offset, ins, next);
      if joinedNext != [] {
        out := rs[..i + 1] + joinedNext + rs[i + 2..];
        BesideExpands(join, offset, next, ins);
        InsertAtRunResult(rs, i + 1, 0, ins, joinedNext, out);
        JoinedAfter(rs, i, offset, ins, join);
        return;
      }
    }
    var x := if joined != [] then joined else [run, ins];
    out := rs[..i] + x + rs[i + 1..];
    InsertAtRunResult(rs, i, run.length, ins, x, out);
    if joined == [] {
      NotJoined(rs, i, offset, ins, join);
    }
  }

  // ----- removing from the runs of one leaf ----------------------------------

  /** Where a cut `u` characters into run `i` falls. */
  lemma {:induction false} CutAt<T>(rs: seq<Run<T>>, i: nat, u: nat)
    requires i < |rs| && u <= rs[i].length
    ensures var p := Total(rs[..i]) + u;
            && p <= Total(rs)
            && Expand(rs)[..p] == Expand(rs[..i]) + Repeat(u, rs[i].data)
            && Expand(rs)[p..] == Repeat(rs[i].length - u, rs[i].data) + Expand(rs[i + 1..])
  {
    hide Expand;
    RunAt(rs, i);
    CutRepeat(Expand(rs[..i]), rs[i].data, u, rs[i].length, Expand(rs[i + 1..]));
  }

  lemma {:induction false} CutRepeat<T>(a: seq<T>, d: T, u: nat, n: nat, b: seq<T>)
    requires u <= n
    ensures (a + Repeat(n, d) + b)[..|a| + u] == a + Repeat(u, d)
    ensures (a + Repeat(n, d) + b)[|a| + u..] == Repeat(n - u, d) + b
  {
    var s := a + Repeat(n, d) + b;
    assert s == a + Repeat(u, d) + (Repeat(n - u, d) + b);
  }

  /** The part `[within, within + n)` lies strictly inside run `i`, and the two
      parts of the run that survive on either side of it do not join. */
  ghost predicate SplitsRun<T>(rs: seq<Run<T>>, i: nat, base: nat, within: nat, n: nat, join: JoinFunc<T>)
    requires i < |rs|
  {
    var start := Total(rs[..i]);
    && start < within
    && within + n < start + rs[i].length
    && !join(base + start, Run(within - start, rs[i].data), Run(start + rs[i].length - within - n, rs[i].data))
  }

  /** The removal leaves one run more than the leaf holds, in a leaf that is full. */
  ghost predicate RemovalOverflows<T>(rs: seq<Run<T>>, base: nat, within: nat, n: nat, join: JoinFunc<T>) {
    |rs| >= MAX_RUNS && exists i :: 0 <= i < |rs| && SplitsRun(rs, i, base, within, n, join)
  }

  lemma {:induction false} OnlyRunSplit<T>(rs: seq<Run<T>>, i: nat, base: nat, within: nat, n: nat, join: JoinFunc<T>)
    requires i < |rs| && Total(rs[..i]) <= within < Total(rs[..i]) + rs[i].length
    ensures RemovalOverflows(rs, base, within, n, join) <==> |rs| >= MAX_RUNS && SplitsRun(rs, i, base, within, n, join)
    ensures forall j :: 0 <= j < |rs| && SplitsRun(rs, j, base, within, n, join) ==> j == i
  {
    hide Total;
    forall j | 0 <= j < |rs| && SplitsRun(rs, j, base, within, n, join)
      ensures j == i
    {
      RunAt(rs, i);
      RunAt(rs, j);
      if i < j {
        TotalPrefix(rs, i + 1, j);
      } else if j < i {
        TotalPrefix(rs, j + 1, i);
      }
    }
  }

  /** Run x with the characters [within, within + n) taken out of its inside. */
  ghost function CutRun<T>(rs: seq<Run<T>>, x: nat, within: nat, n: nat): seq<Run<T>>
    requires x < |rs| && Total(rs[..x]) <= within && within + n <= Total(rs[..x]) + rs[x].length
  {
    var start, run := Total(rs[..x]), rs[x];
    rs[..x] + [Run(within - start, run.data), Run(start + run.length - within - n, run.data)] + rs[x + 1..]
  }

  /** If the removal splits a run, this is the outcome. */
  ghost predicate CutOutcome<T>(rs: seq<Run<T>>, base: nat, within: nat, n: nat, join: JoinFunc<T>, out: seq<Run<T>>) {
    forall x :: 0 <= x < |rs| && SplitsRun(rs, x, base, within, n, join) ==> out == CutRun(rs, x, within, n)
  }

  ghost predicate CutsNoRun<T>(rs: seq<Run<T>>, base: nat, within: nat, n: nat, join: JoinFunc<T>) {
    forall x :: 0 <= x < |rs| ==> !SplitsRun(rs, x, base, within, n, join)
  }

  /** State of the removal loop before run `i` of the original runs: `kept` has
      been settled, `w` characters are still to be skipped, `removed` are gone. */
  ghost predicate Removing<T>(rs: seq<Run<T>>, kept: seq<Run<T>>, i: nat, within: nat, removed: nat, w: nat)
    requires i <= |rs| && within <= Total(rs)
  {
    && within + removed == Total(rs[..i]) + w
    && (removed > 0 ==> w == 0)
    && (removed == 0 ==> kept == rs[..i])
    && (w == 0 ==> Expand(kept) == Expand(rs)[..within])
    && AllPositive(kept)
  }

  lemma {:induction false} SkipRun<T>(rs: seq<Run<T>>, i: nat, within: nat, w: nat)
    requires i < |rs| && within <= Total(rs) && AllPositive(rs)
    requires Removing(rs, rs[..i], i, within, 0, w) && w >= rs[i].length
    ensures Removing(rs, rs[..i + 1], i + 1, within, 0, w - rs[i].length)
    ensures rs[..i + 1] == rs[..i] + [rs[i]]
  {
    hide Expand;
    RunAt(rs, i);
    MiddleRun(rs[..i], rs[i], []);
    assert rs[..i + 1] == rs[..i] + [rs[i]];
    CutAt(rs, i, rs[i].length);
  }

  lemma {:induction false} TrimRun<T>(rs: seq<Run<T>>, i: nat, within: nat, w: nat)
    requires i < |rs| && within <= Total(rs) && AllPositive(rs)
    requires Removing(rs, rs[..i], i, within, 0, w) && 0 < w < rs[i].length
    ensures Removing(rs, rs[..i] + [Run(w, rs[i].data)], i + 1, within, rs[i].length - w, 0)
  {
    hide Expand;
    RunAt(rs, i);
    MiddleRun(rs[..i], Run(w, rs[i].data), []);
    CutAt(rs, i, w);
  }

  lemma {:induction false} DropRun<T>(rs: seq<Run<T>>, kept: seq<Run<T>>, i: nat, within: nat, removed: nat)
    requires i < |rs| && within <= Total(rs) && AllPositive(rs)
    requires Removing(rs, kept, i, within, removed, 0)
    ensures Removing(rs, kept, i + 1, within, removed + rs[i].length, 0)
  {
    hide Expand;
    RunAt(rs, i);
  }

  ghost predicate RemoveResult<T>(rs: seq<Run<T>>, within: nat, removed: nat, out: seq<Run<T>>) {
    && within + removed <= Total(rs)
    && Expand(out) == Deleted(Expand(rs), within, removed)
    && AllPositive(out)
  }

  /** The loop stops between two runs. */
  lemma {:induction false} StopBetween<T>(rs: seq<Run<T>>, kept: seq<Run<T>>, i: nat, within: nat, removed: nat)
    requires i <= |rs| && within <= Total(rs) && AllPositive(rs)
    requires Removing(rs, kept, i, within, removed, 0)
    ensures RemoveResult(rs, within, removed, kept + rs[i..])
  {
    hide Expand;
    ExpandConcat(rs[..i], rs[i..]);
    assert rs == rs[..i] + rs[i..];
    ExpandConcat(kept, rs[i..]);
    assert Expand(rs)[Total(rs[..i])..] == Expand(rs[i..]);
  }

  /** The loop stops inside run `i`, whose part from `u` on survives. */
  lemma {:induction false} StopInside<T>(rs: seq<Run<T>>, kept: seq<Run<T>>, i: nat, within: nat, removed: nat, u: nat)
    requires i < |rs| && within <= Total(rs) && AllPositive(rs)
    requires Removing(rs, kept, i, within, removed, 0) && u < rs[i].length
    ensures RemoveResult(rs, within, removed + u, kept + [Run(rs[i].length - u, rs[i].data)] + rs[i + 1..])
  {
    hide Expand;
    var rest := Run(rs[i].length - u, rs[i].data);
    CutAt(rs, i, u);
    MiddleRun(kept, rest, rs[i + 1..]);
  }

  lemma {:induction false} Regroup<X>(a: seq<X>, b: seq<X>, c: seq<X>, d: seq<X>)
    ensures a + (b + c) + d == (a + b) + (c + d)
  {}

  /** A removal strictly inside run `i` keeps both its ends, as one run or two. */
  lemma {:induction false} StopSplit<T(!new)>(rs: seq<Run<T>>, i: nat, within: nat, n: nat, w: nat, join: JoinFunc<T>,
                                       base: nat)
    requires i < |rs| && within <= Total(rs) && AllPositive(rs) && JoinsOnlyEqual(join)
    requires Removing(rs, rs[..i], i, within, 0, w) && 0 < w && w + n < rs[i].length
    ensures var ends := JoinFront(join, base, Run(w, rs[i].data), [Run(rs[i].length - w - n, rs[i].data)]);
            RemoveResult(rs, within, n, rs[..i] + ends + rs[i + 1..])
  {
    hide Expand, JoinFront;
    var left, rest := Run(w, rs[i].data), Run(rs[i].length - w - n, rs[i].data);
    var ends := JoinFront(join, base, left, [rest]);
    JoinFrontExpands(join, base, left, [rest]);
    ExpandOne(rest);
    CutAt(rs, i, w);
    CutAt(rs, i, w + n);
    SpliceExpand(rs[..i], ends, ends, rs[i + 1..]);
    Regroup(Expand(rs[..i]), Repeat(w, left.data), Repeat(rest.length, left.data), Expand(rs[i + 1..]));
  }

  /** What the run that holds the start says about the outcome: w characters of
      it stay in front. */
  lemma {:induction false} OnlyCut<T>(rs: seq<Run<T>>, i: nat, base: nat, within: nat, n: nat, join: JoinFunc<T>,
                                      w: nat)
    requires i < |rs| && within == Total(rs[..i]) + w && w < rs[i].length
    ensures var run := rs[i];
            SplitsRun(rs, i, base, within, n, join) <==>
              0 < w && w + n < run.length &&
                !join(base + Total(rs[..i]), Run(w, run.data), Run(run.length - w - n, run.data))
    ensures !SplitsRun(rs, i, base, within, n, join) ==> CutsNoRun(rs, base, within, n, join)
    ensures SplitsRun(rs, i, base, within, n, join) ==>
              var run := rs[i];
              CutOutcome(rs, base, within, n, join,
                rs[..i] + [Run(w, run.data), Run(run.length - w - n, run.data)] + rs[i + 1..])
  {
    OnlyRunSplit(rs, i, base, within, n, join);
    hide Total;
  }

  /** The loop of _cjh_text_region_remove over the runs of the target leaf:
      removes what it can of `n` characters and says how many are left.  `ok`
      is false where the source's insertion into a full array asserts. */
  method RemoveFromRuns<T(!new)>(rs: seq<Run<T>>, offset: nat, within: nat, n: nat, join: JoinFunc<T>)
    returns (ok: bool, out: seq<Run<T>>, left: nat)
    requires AllPositive(rs) && JoinsOnlyEqual(join)
    requires within < Total(rs) && within <= offset && 0 < n
    ensures ok <==> !RemovalOverflows(rs, offset - within, within, n, join)
    ensures ok ==> left == n - (if n <= Total(rs) - within then n else Total(rs) - within)
    ensures ok ==> RemoveResult(rs, within, n - left, out)
    ensures ok ==> |out| <= MAX_RUNS || |out| <= |rs|
    ensures ok ==> CutOutcome(rs, offset - within, within, n, join, out)
    ensures ok && left > 0 ==> CutsNoRun(rs, offset - within, within, n, join)
    ensures ok ==> |out| <= |rs| || (left == 0 && |out| == |rs| + 1)
  {
    hide Expand, Total, Removing, RemoveResult, RemovalOverflows, SplitsRun, CutRun;
    ghost var base := offset - within;
    var kept := [];
    var i, w, toRemove, at := 0, within, n, offset - within;
    StartRemoving(rs, within);
    while i < |rs|
      invariant 0 <= i <= |rs| && 0 <= w && 0 < toRemove <= n
      invariant Removing(rs, kept, i, within, n - toRemove, w)
      invariant |kept| <= i
      invariant within + (n - toRemove) == Total(rs[..i]) + w
      invariant toRemove == n ==> kept == rs[..i] && at == base + Total(rs[..i])
      invariant toRemove < n ==>
                  w == 0 && !RemovalOverflows(rs, base, within, n, join) && CutsNoRun(rs, base, within, n, join)
    {
      var run := rs[i];
      RunAt(rs, i);
      if w >= run.length {
        SkipRun(rs, i, within, w);
        kept, w, at := kept + [run], w - run.length, at + run.length;
      } else {
        if toRemove == n {
          OnlyRunSplit(rs, i, base, within, n, join);
          OnlyCut(rs, i, base, within, n, join, w);
        }
        if w > 0 && toRemove >= run.length - w {
          TrimRun(rs, i, within, w);
          kept, toRemove, at, w := kept + [Run(w, run.data)], toRemove - (run.length - w), at + w, 0;
          if toRemove == 0 {
            StopBetween(rs, kept, i + 1, within, n);
            return true, kept + rs[i + 1..], 0;
          }
        } else if w > 0 {
          var ends := JoinFront(join, at, Run(w, run.data), [Run(run.length - w - toRemove, run.data)]);
          if |ends| == 2 && |rs| >= MAX_RUNS {
            return false, [], 0;
          }
          StopSplit(rs, i, within, n, w, join, at);
          assert SplitsRun(rs, i, base, within, n, join) ==>
            ends == [Run(w, run.data), Run(run.length - w - n, run.data)];
          return true, kept + ends + rs[i + 1..], 0;
        } else if toRemove < run.length {
          StopInside(rs, kept, i, within, n - toRemove, toRemove);
          return true, kept + [Run(run.length - toRemove, run.data)] + rs[i + 1..], 0;
        } else {
          DropRun(rs, kept, i, within, n - toRemove);
          toRemove := toRemove - run.length;
          if toRemove == 0 {
            StopBetween(rs, kept, i + 1, within, n);
            return true, kept + rs[i + 1..], 0;
          }
        }
      }
      i := i + 1;
    }
    assert rs[..i] == rs && kept + rs[i..] == kept;
    StopBetween(rs, kept, i, within, n - toRemove);
    return true, kept, toRemove;
  }

  lemma {:induction false} StartRemoving<T>(rs: seq<Run<T>>, within: nat)
    requires within <= Total(rs)
    ensures Removing(rs, [], 0, within, 0, within)
  {}
}
