/** What iterating over runs with a callback means. */
module Iteration {
  import opened Runs

  type Callback<!T, !S> = (nat, Run<T>, S) -> (S, bool)

  /** Runs with the offsets at which they start. */
  ghost function Placed<T>(rs: seq<Run<T>>, base: nat): (ps: seq<(nat, Run<T>)>)
    ensures |ps| == |rs|
  {
    if rs == [] then [] else [(base, rs[0])] + Placed(rs[1..], base + rs[0].length)
  }

  /** Each run is called at its true offset. */
  lemma {:induction false} PlacedAt<T>(rs: seq<Run<T>>, base: nat, i: nat)
    requires i < |rs|
    ensures Placed(rs, base)[i] == (base + Total(rs[..i]), rs[i])
  {
    if i > 0 {
      PlacedAt(rs[1..], base + rs[0].length, i - 1);
      assert rs[..i][1..] == rs[1..][..i - 1];
    }
  }

  /** The user data after calling `func` in order until it asks to stop. */
  ghost function Visit<T, S>(func: Callback<T, S>, ps: seq<(nat, Run<T>)>, s: S): S {
    if ps == [] then s
    else
      var (s', stop) := func(ps[0].0, ps[0].1, s);
      if stop then s' else Visit(func, ps[1..], s')
  }

  ghost predicate Meets<T>(p: (nat, Run<T>), begin: nat, end: nat) {
    begin < end && p.0 < end && begin < p.0 + p.1.length
  }

  /** The placed runs that have a character in [begin, end), in order. */
  ghost function Overlapping<T>(ps: seq<(nat, Run<T>)>, begin: nat, end: nat): seq<(nat, Run<T>)> {
    if ps == [] then []
    else (if Meets(ps[0], begin, end) then [ps[0]] else []) + Overlapping(ps[1..], begin, end)
  }

  /** Exactly the runs that meet the range are among them. */
  lemma {:induction false} OverlappingMembers<T>(ps: seq<(nat, Run<T>)>, begin: nat, end: nat, p: (nat, Run<T>))
    ensures p in Overlapping(ps, begin, end) <==> p in ps && Meets(p, begin, end)
  {
    if ps != [] {
      OverlappingMembers(ps[1..], begin, end, p);
      assert p in ps <==> p == ps[0] || p in ps[1..];
    }
  }

  ghost function VisitIn<T, S>(func: Callback<T, S>, rs: seq<Run<T>>, at: nat, begin: nat, end: nat, s: S): S {
    Visit(func, Overlapping(Placed(rs, at), begin, end), s)
  }

  ghost function VisitAll<T, S>(func: Callback<T, S>, rs: seq<Run<T>>, at: nat, s: S): S {
    Visit(func, Placed(rs, at), s)
  }

  lemma {:induction false} VisitAllStep<T, S>(func: Callback<T, S>, rs: seq<Run<T>>, at: nat, s: S)
    requires rs != []
    ensures var (s', stop) := func(at, rs[0], s);
            VisitAll(func, rs, at, s) == if stop then s' else VisitAll(func, rs[1..], at + rs[0].length, s')
  {
    var ps := Placed(rs, at);
    assert ps[1..] == Placed(rs[1..], at + rs[0].length);
  }

  lemma {:induction false} VisitInStep<T, S>(func: Callback<T, S>, rs: seq<Run<T>>, at: nat, begin: nat, end: nat, s: S)
    requires rs != []
    ensures VisitIn(func, rs, at, begin, end, s) ==
            if Meets((at, rs[0]), begin, end)
            then (var (s', stop) := func(at, rs[0], s);
                  if stop then s' else VisitIn(func, rs[1..], at + rs[0].length, begin, end, s'))
            else VisitIn(func, rs[1..], at + rs[0].length, begin, end, s)
  {
    var ps := Placed(rs, at);
    assert ps[0] == (at, rs[0]) && ps[1..] == Placed(rs[1..], at + rs[0].length);
    var rest := Overlapping(ps[1..], begin, end);
    if Meets(ps[0], begin, end) {
      assert Overlapping(ps, begin, end) == [ps[0]] + rest;
      assert ([ps[0]] + rest)[1..] == rest;
    } else {
      assert Overlapping(ps, begin, end) == rest;
    }
  }

  /** Nothing is called from `end` on, nor for an empty range. */
  lemma {:induction false} VisitInDone<T, S>(func: Callback<T, S>, rs: seq<Run<T>>, at: nat, begin: nat, end: nat, s: S)
    requires at >= end || begin == end || rs == []
    ensures VisitIn(func, rs, at, begin, end, s) == s
    decreases |rs|
  {
    if rs == [] {
    } else {
      VisitInStep(func, rs, at, begin, end, s);
      VisitInDone(func, rs[1..], at + rs[0].length, begin, end, s);
    }
  }

  /** Runs that end before the range are passed over. */
  lemma {:induction false} VisitInSkip<T, S>(func: Callback<T, S>, a: seq<Run<T>>, b: seq<Run<T>>, at: nat, begin: nat,
                                             end: nat, s: S)
    requires at + Total(a) <= begin
    ensures VisitIn(func, a + b, at, begin, end, s) == VisitIn(func, b, at + Total(a), begin, end, s)
    decreases |a|
  {
    hide VisitIn;
    if a == [] {
      assert a + b == b;
    } else {
      assert (a + b)[1..] == a[1..] + b;
      VisitInStep(func, a + b, at, begin, end, s);
      VisitInSkip(func, a[1..], b, at + a[0].length, begin, end, s);
    }
  }

  /** One leaf of _cjh_text_region_foreach; `later` is what follows it. */
  method VisitLeaf<T(!new), S>(rs: seq<Run<T>>, at: nat, func: Callback<T, S>, s: S, ghost later: seq<Run<T>>)
    returns (result: S, end: nat, stop: bool)
    ensures stop ==> result == VisitAll(func, rs + later, at, s)
    ensures !stop ==> end == at + Total(rs) && VisitAll(func, later, end, result) == VisitAll(func, rs + later, at, s)
  {
    hide VisitAll, Total;
    result, end, stop := s, at, false;
    var z := 0;
    assert rs[..0] == [] && rs[0..] == rs;
    assert Total<T>([]) == 0 by { TotalNone<T>(); }
    while z < |rs|
      invariant z <= |rs| && end == at + Total(rs[..z])
      invariant VisitAll(func, rs[z..] + later, end, result) == VisitAll(func, rs + later, at, s)
    {
      VisitAllStep(func, rs[z..] + later, end, result);
      assert (rs[z..] + later)[1..] == rs[z + 1..] + later;
      RunAt(rs, z);
      var (result', stop') := func(end, rs[z], result);
      result, stop := result', stop';
      if stop {
        return;
      }
      end := end + rs[z].length;
      z := z + 1;
    }
    assert rs[..z] == rs && rs[z..] + later == later;
  }

  lemma {:induction false} TotalNone<T>()
    ensures Total<T>([]) == 0
  {}

  /** One leaf of _cjh_text_region_foreach_in_range: `within` characters are
      still to be skipped before the range begins. */
  method VisitLeafInRange<T(!new), S>(rs: seq<Run<T>>, at: nat, within: nat, begin: nat, end: nat, func: Callback<T, S>,
                            s: S, ghost later: seq<Run<T>>)
    returns (result: S, position: nat, within': nat, stop: bool)
    requires AllPositive(rs) && begin < end && at < end
    requires at + within == begin || (within == 0 && at >= begin)
    ensures stop ==> result == VisitIn(func, rs + later, at, begin, end, s)
    ensures !stop ==> VisitIn(func, later, position, begin, end, result) == VisitIn(func, rs + later, at, begin, end, s)
    ensures !stop ==> position + within' == begin || (within' == 0 && position >= begin)
    ensures !stop ==> position >= end || position == at + Total(rs)
  {
    hide VisitIn, Total;
    result, position, within', stop := s, at, within, false;
    var z := 0;
    assert rs[..0] == [] && rs[0..] == rs;
    assert Total<T>([]) == 0 by { TotalNone<T>(); }
    while z < |rs|
      invariant z <= |rs| && position == at + Total(rs[..z])
      invariant position + within' == begin || (within' == 0 && position >= begin)
      invariant VisitIn(func, rs[z..] + later, position, begin, end, result) ==
                  VisitIn(func, rs + later, at, begin, end, s)
      invariant position < end
    {
      var run := rs[z];
      VisitInStep(func, rs[z..] + later, position, begin, end, result);
      assert (rs[z..] + later)[1..] == rs[z + 1..] + later;
      RunAt(rs, z);
      if within' >= run.length {
        within' := within' - run.length;
      } else {
        within' := 0;
        var (result', stop') := func(position, run, result);
        result, stop := result', stop';
        if stop {
          return;
        }
      }
      position := position + run.length;
      z := z + 1;
      if position >= end {
        VisitInDone(func, rs[z..] + later, position, begin, end, result);
        VisitInDone(func, later, position, begin, end, result);
        return;
      }
    }
    assert rs[..z] == rs && rs[z..] + later == later;
  }
}
