/** The SortedArray of the tree nodes: a fixed array of elements whose order is
    kept by a queue of indices threaded through the slots. */
module SortedArrays {
  import opened Levels
  import opened Trees

  type Slot = int

  /** (guint8) -1 */
  const INVALID: Slot := 255

  // ----- the chain of slots ---------------------------------------------------------------

  ghost predicate InRange(order: seq<Slot>, bound: int) {
    forall i :: 0 <= i < |order| ==> 0 <= order[i] < bound
  }

  /** prev and next run through the slots of `order` and nothing else matters. */
  ghost predicate Chained(prev: seq<Slot>, next: seq<Slot>, order: seq<Slot>) {
    && |prev| == |next| && InRange(order, |prev|)
    && (forall i {:trigger prev[order[i]]} :: 0 <= i < |order| ==>
          prev[order[i]] == (if i == 0 then INVALID else order[i - 1]))
    && (forall i {:trigger next[order[i]]} :: 0 <= i < |order| ==>
          next[order[i]] == (if i + 1 == |order| then INVALID else order[i + 1]))
  }

  ghost function First(order: seq<Slot>): Slot {
    if order == [] then INVALID else order[0]
  }

  ghost function Last(order: seq<Slot>): Slot {
    if order == [] then INVALID else order[|order| - 1]
  }

  ghost function Earlier(order: seq<Slot>, n: nat): Slot
    requires n <= |order|
  {
    if n == 0 then INVALID else order[n - 1]
  }

  ghost function Later(order: seq<Slot>, n: nat): Slot
    requires n <= |order|
  {
    if n == |order| then INVALID else order[n]
  }

  /** The chain once `id` stands before the slot at n. */
  lemma {:induction false} ChainInsert(prev: seq<Slot>, next: seq<Slot>, prev': seq<Slot>, next': seq<Slot>,
                                       order: seq<Slot>, n: nat, id: Slot)
    requires Chained(prev, next, order) && n <= |order| && |prev'| == |prev| && |next'| == |next| && 0 <= id < |prev|
    requires prev'[id] == Earlier(order, n) && next'[id] == Later(order, n)
    requires forall x {:trigger prev'[order[x]]} :: 0 <= x < |order| ==>
               prev'[order[x]] == (if x == n then id else prev[order[x]])
    requires forall x {:trigger next'[order[x]]} :: 0 <= x < |order| ==>
               next'[order[x]] == (if x + 1 == n then id else next[order[x]])
    ensures Chained(prev', next', InsertAt(order, n, id))
  {
    var order' := InsertAt(order, n, id);
    forall x | 0 <= x < |order'|
      ensures 0 <= order'[x] < |prev|
      ensures prev'[order'[x]] == (if x == 0 then INVALID else order'[x - 1])
    {
      if x < n {
        assert order'[x] == order[x];
      } else if x > n {
        assert order'[x] == order[x - 1];
      }
    }
    forall x | 0 <= x < |order'|
      ensures next'[order'[x]] == (if x + 1 == |order'| then INVALID else order'[x + 1])
    {
      if x < n {
        assert order'[x] == order[x];
      } else if x > n {
        assert order'[x] == order[x - 1];
      }
    }
  }

  /** The chain once the slot at n has been taken out. */
  lemma {:induction false} ChainRemove(prev: seq<Slot>, next: seq<Slot>, prev': seq<Slot>, next': seq<Slot>,
                                       order: seq<Slot>, n: nat)
    requires Chained(prev, next, order) && n < |order| && |prev'| == |prev| && |next'| == |next|
    requires forall x {:trigger prev'[order[x]]} :: 0 <= x < |order| && x != n ==>
               prev'[order[x]] == (if x == n + 1 then Earlier(order, n) else prev[order[x]])
    requires forall x {:trigger next'[order[x]]} :: 0 <= x < |order| && x != n ==>
               next'[order[x]] == (if x + 1 == n then Later(order, n + 1) else next[order[x]])
    ensures Chained(prev', next', RemoveAt(order, n))
  {
    var order' := RemoveAt(order, n);
    forall x | 0 <= x < |order'|
      ensures 0 <= order'[x] < |prev|
      ensures prev'[order'[x]] == (if x == 0 then INVALID else order'[x - 1])
    {
      if x < n {
        assert order'[x] == order[x];
      } else {
        assert order'[x] == order[x + 1];
      }
    }
    forall x | 0 <= x < |order'|
      ensures next'[order'[x]] == (if x + 1 == |order'| then INVALID else order'[x + 1])
    {
      if x < n {
        assert order'[x] == order[x];
      } else {
        assert order'[x] == order[x + 1];
      }
    }
  }

  /** The chain once the slot at n has been relocated to `id`. */
  lemma {:induction false} ChainMove(prev: seq<Slot>, next: seq<Slot>, prev': seq<Slot>, next': seq<Slot>,
                                     order: seq<Slot>, n: nat, id: Slot)
    requires Chained(prev, next, order) && n < |order| && |prev'| == |prev| && |next'| == |next| && 0 <= id < |prev|
    requires prev'[id] == prev[order[n]] && next'[id] == next[order[n]]
    requires forall x {:trigger prev'[order[x]]} :: 0 <= x < |order| && x != n ==>
               prev'[order[x]] == (if x == n + 1 then id else prev[order[x]])
    requires forall x {:trigger next'[order[x]]} :: 0 <= x < |order| && x != n ==>
               next'[order[x]] == (if x + 1 == n then id else next[order[x]])
    ensures Chained(prev', next', order[n := id])
  {
    var order' := order[n := id];
    forall x | 0 <= x < |order'|
      ensures 0 <= order'[x] < |prev|
      ensures prev'[order'[x]] == (if x == 0 then INVALID else order'[x - 1])
    {
      if x != n {
        assert order'[x] == order[x];
      }
    }
    forall x | 0 <= x < |order'|
      ensures next'[order'[x]] == (if x + 1 == |order'| then INVALID else order'[x + 1])
    {
      if x != n {
        assert order'[x] == order[x];
      }
    }
  }

  // ----- which slots are occupied --------------------------------------------------------------

  /** Exactly the slots 0..|order| - 1 are occupied. */
  ghost predicate Packed(order: seq<Slot>) {
    Distinct(order) && InRange(order, |order|)
  }

  lemma {:induction false} Pigeonhole(order: seq<Slot>, bound: nat)
    requires Distinct(order) && InRange(order, bound)
    ensures |order| <= bound
  {
    if order != [] {
      assert 0 <= order[0] < bound;
      if i :| 0 <= i < |order| && order[i] == bound - 1 {
        Pigeonhole(RemoveAt(order, i), bound - 1);
      } else {
        Pigeonhole(order[1..], bound - 1);
      }
    }
  }

  /** Every slot below the length is occupied. */
  lemma {:induction false} Occupied(order: seq<Slot>, id: Slot) returns (i: nat)
    requires Packed(order) && 0 <= id < |order|
    ensures i < |order| && order[i] == id
  {
    if j :| 0 <= j < |order| && order[j] == id {
      i := j;
    } else {
      var last := |order| - 1;
      var other := seq(|order|, x requires 0 <= x < |order| => if order[x] == last then id else order[x]);
      Pigeonhole(other, last);
      assert false;
    }
  }

  /** The order of the slots after taking out position n and moving the last
      slot into the hole. */
  ghost function Repacked(order: seq<Slot>, n: nat): seq<Slot>
    requires n < |order|
  {
    var rest := RemoveAt(order, n);
    seq(|rest|, x requires 0 <= x < |rest| => if rest[x] == |rest| then order[n] else rest[x])
  }

  lemma {:induction false} RepackedPacked(order: seq<Slot>, n: nat)
    requires Packed(order) && n < |order|
    ensures Packed(Repacked(order, n))
  {
    var rest := RemoveAt(order, n);
    forall x | 0 <= x < |rest|
      ensures rest[x] == (if x < n then order[x] else order[x + 1])
    {}
  }

  /** The elements in order. */
  ghost function Arranged<T>(items: seq<T>, order: seq<Slot>): seq<T>
    requires InRange(order, |items|)
  {
    seq(|order|, x requires 0 <= x < |order| => items[order[x]])
  }

  lemma {:induction false} ArrangedInsert<T>(items: seq<T>, items': seq<T>, order: seq<Slot>, n: nat, id: Slot)
    requires InRange(order, |items|) && n <= |order| && 0 <= id < |items| == |items'|
    requires items' == items[id := items'[id]]
    requires forall i :: 0 <= i < |order| ==> order[i] != id
    ensures InRange(InsertAt(order, n, id), |items'|)
    ensures Arranged(items', InsertAt(order, n, id)) == InsertAt(Arranged(items, order), n, items'[id])
  {}

  lemma {:induction false} ArrangedRepacked<T>(items: seq<T>, items': seq<T>, order: seq<Slot>, n: nat)
    requires Packed(order) && n < |order| <= |items|
    requires items' == (if order[n] < |order| - 1 then items[order[n] := items[|order| - 1]] else items)
    ensures InRange(Repacked(order, n), |items'|)
    ensures Arranged(items', Repacked(order, n)) == RemoveAt(Arranged(items, order), n)
  {
    RepackedPacked(order, n);
    var rest, order' := RemoveAt(order, n), Repacked(order, n);
    var a, b := Arranged(items', order'), RemoveAt(Arranged(items, order), n);
    forall x | 0 <= x < |rest|
      ensures a[x] == b[x]
    {
      assert rest[x] == order[if x < n then x else x + 1] && rest[x] != order[n];
      assert b[x] == items[rest[x]];
    }
  }

  lemma {:induction false} InsertEnds<X>(s: seq<X>, x: X)
    ensures InsertAt(s, 0, x) == [x] + s && InsertAt(s, |s|, x) == s + [x]
  {}

  lemma {:induction false} InsertPacked(order: seq<Slot>, n: nat)
    requires Packed(order) && n <= |order|
    ensures Packed(InsertAt(order, n, |order|)) && |InsertAt(order, n, |order|)| == |order| + 1
  {}

  // ----- iterating with removal -------------------------------------------------------------

  /** What is left of the first `v` elements. */
  ghost function Survivors<T>(s: seq<T>, v: nat, remove: (seq<T>, T) -> bool): seq<T>
    requires v <= |s|
  {
    if v == 0 then []
    else Survivors(s, v - 1, remove) + if remove(s[..v - 1], s[v - 1]) then [] else [s[v - 1]]
  }

  ghost function Backwards<T>(s: seq<T>): (b: seq<T>)
    ensures |b| == |s|
  {
    seq(|s|, i requires 0 <= i < |s| => s[|s| - 1 - i])
  }

  lemma {:induction false} SurvivorsNone<T>(s: seq<T>, remove: (seq<T>, T) -> bool)
    ensures Survivors(s, 0, remove) == []
  {}

  lemma {:induction false} SurvivorsStep<T>(s: seq<T>, v: nat, remove: (seq<T>, T) -> bool)
    requires v < |s|
    ensures var a := Survivors(s, v, remove);
            var all := a + s[v..];
            && s[..v] + [s[v]] == s[..v + 1]
            && all[|a|] == s[v]
            && (if remove(s[..v], s[v]) then Survivors(s, v + 1, remove) == a && RemoveAt(all, |a|) == a + s[v + 1..]
                else Survivors(s, v + 1, remove) == a + [s[v]] && all == a + [s[v]] + s[v + 1..])
  {
    var a := Survivors(s, v, remove);
    assert s[v..] == [s[v]] + s[v + 1..];
  }

  lemma {:induction false} BackwardsStart<T>(s: seq<T>, none: seq<T>)
    requires none == []
    ensures s[..|s|] + Backwards(none) == s && Backwards(s)[..0] == []
  {}

  lemma {:induction false} SurvivorsBack<T>(s: seq<T>, v: nat, remove: (seq<T>, T) -> bool)
    requires v < |s|
    ensures var b := Backwards(s);
            var n := |s| - v - 1;
            var a := Backwards(Survivors(b, v, remove));
            var all := s[..n + 1] + a;
            && b[..v] + [s[n]] == b[..v + 1]
            && all[n] == s[n]
            && (if remove(b[..v], s[n]) then Survivors(b, v + 1, remove) == Survivors(b, v, remove) &&
                  RemoveAt(all, n) == s[..n] + a
                else Backwards(Survivors(b, v + 1, remove)) == [s[n]] + a && all == s[..n] + ([s[n]] + a))
  {
    var b, n := Backwards(s), |s| - v - 1;
    SurvivorsStep(b, v, remove);
    assert b[v] == s[n];
    assert s[..n + 1] == s[..n] + [s[n]];
    BackwardsMore(Survivors(b, v, remove), s[n]);
  }

  lemma {:induction false} BackwardsMore<T>(s: seq<T>, x: T)
    ensures Backwards(s + [x]) == [x] + Backwards(s)
  {}

  /** Around the removed position, the slots are found where they were, or in
      the hole when they were the last slot. */
  lemma {:induction false} RepackedNear(order: seq<Slot>, n: nat)
    requires Packed(order) && n < |order| < INVALID
    ensures var order', len := Repacked(order, n), |order| - 1;
            && |order'| == len
            && Later(order', n) ==
              (if Later(order, n + 1) == len && order[n] < len then order[n] else Later(order, n + 1))
            && Earlier(order', n) ==
              (if Earlier(order, n) == len && order[n] < len then order[n] else Earlier(order, n))
  {
    var rest, len := RemoveAt(order, n), |order| - 1;
    forall x | 0 <= x < |rest|
      ensures rest[x] == (if x < n then order[x] else order[x + 1])
    {}
    assert n < len ==> Repacked(order, n)[n] == (if order[n + 1] == len then order[n] else order[n + 1]);
    assert n > 0 ==> Repacked(order, n)[n - 1] == (if order[n - 1] == len then order[n] else order[n - 1]);
  }

  lemma {:induction false} LaterSlot<T>(prev: seq<Slot>, next: seq<Slot>, items: seq<T>, order: seq<Slot>, n: nat)
    requires Chained(prev, next, order) && n <= |order| && |items| == |prev| && |prev| < INVALID
    requires Later(order, n) != INVALID
    ensures n < |order| && order[n] == Later(order, n) && 0 <= order[n] < |next|
    ensures next[order[n]] == Later(order, n + 1) && items[order[n]] == Arranged(items, order)[n]
  {}

  lemma {:induction false} LaterEnd(prev: seq<Slot>, next: seq<Slot>, order: seq<Slot>, n: nat)
    requires Chained(prev, next, order) && n <= |order| && |prev| < INVALID && Later(order, n) == INVALID
    ensures n == |order|
  {}

  lemma {:induction false} EarlierSlot<T>(prev: seq<Slot>, next: seq<Slot>, items: seq<T>, order: seq<Slot>, n: nat)
    requires Chained(prev, next, order) && n <= |order| && |items| == |prev| && |prev| < INVALID
    requires Earlier(order, n) != INVALID
    ensures 0 < n && order[n - 1] == Earlier(order, n) && 0 <= order[n - 1] < |prev|
    ensures prev[order[n - 1]] == Earlier(order, n - 1) && items[order[n - 1]] == Arranged(items, order)[n - 1]
  {}

  lemma {:induction false} EarlierEnd(prev: seq<Slot>, next: seq<Slot>, order: seq<Slot>, n: nat)
    requires Chained(prev, next, order) && n <= |order| && |prev| < INVALID && Earlier(order, n) == INVALID
    ensures n == 0
  {}

  lemma {:induction false} HalvesOf<T>(s: seq<T>)
    ensures Keep(s) == s[..|s| - |s| / 2] && Tail(s) == s[|s| - |s| / 2..]
  {}

  lemma {:induction false} RemoveLast<X>(s: seq<X>, z: nat)
    requires z < |s|
    ensures RemoveAt(s[..|s| - z], |s| - z - 1) == s[..|s| - z - 1]
    ensures [s[|s| - z - 1]] + s[|s| - z..] == s[|s| - z - 1..]
  {}

  // ----- the array ------------------------------------------------------------------------------

  class SortedArray<T(0)> {
    const items: array<T>
    const prev: array<Slot>
    const next: array<Slot>
    var head: Slot
    var tail: Slot
    var length: nat

    /** The slots in order. */
    ghost var order: seq<Slot>

    ghost predicate Apart() {
      && prev != next && items as object != prev && items as object != next
      && prev.Length == next.Length == items.Length < INVALID
    }

    ghost predicate Queue()
      reads this, prev, next
    {
      && Apart()
      && Chained(prev[..], next[..], order) && Distinct(order)
      && head == First(order) && tail == Last(order) && length == |order|
    }

    ghost predicate Valid()
      reads this, prev, next
    {
      Queue() && Packed(order) && |order| <= items.Length
    }

    /** What the array stands for. */
    ghost function Contents(): (s: seq<T>)
      requires Valid()
      reads this, prev, next, items
      ensures |s| == length
    {
      Arranged(items[..], order)
    }

    ghost function Repr(): set<object> {
      {this, items, prev, next}
    }

    constructor (capacity: nat)
      requires capacity < INVALID
      ensures Valid() && Contents() == [] && items.Length == capacity && fresh(Repr())
    {
      items := new T[capacity];
      prev := new Slot[capacity](_ => INVALID);
      next := new Slot[capacity](_ => INVALID);
      head, tail, length, order := INVALID, INVALID, 0, [];
    }

    /** SORTED_ARRAY_INIT on an array in use. */
    method Init()
      requires Apart()
      modifies this, prev, next
      ensures Valid() && Contents() == []
    {
      length, head, tail, order := 0, INVALID, INVALID, [];
      for i := 0 to items.Length
        invariant length == 0 && head == INVALID && tail == INVALID && order == []
      {
        next[i] := INVALID;
        prev[i] := INVALID;
      }
    }

    // ----- the queue of slots ---------------------------------------------------------------------

    method QueuePushHead(id: Slot)
      requires Queue() && 0 <= id < items.Length && id !in order
      modifies `head, `tail, `length, `order, prev, next
      ensures Queue() && order == InsertAt(old(order), 0, id)
    {
      hide Chained;
      ghost var p, n := prev[..], next[..];
      ChainFacts(p, n, order);
      prev[id] := INVALID;
      next[id] := head;
      if head != INVALID {
        prev[head] := id;
      }
      head := id;
      if tail == INVALID {
        tail := id;
      }
      length := length + 1;
      ChainInsert(p, n, prev[..], next[..], order, 0, id);
      order := InsertAt(order, 0, id);
    }

    method QueuePushTail(id: Slot)
      requires Queue() && 0 <= id < items.Length && id !in order
      modifies `head, `tail, `length, `order, prev, next
      ensures Queue() && order == InsertAt(old(order), |old(order)|, id)
    {
      hide Chained;
      ghost var p, n := prev[..], next[..];
      ChainFacts(p, n, order);
      prev[id] := tail;
      next[id] := INVALID;
      if tail != INVALID {
        next[tail] := id;
      }
      tail := id;
      if head == INVALID {
        head := id;
      }
      length := length + 1;
      ChainInsert(p, n, prev[..], next[..], order, |order|, id);
      order := InsertAt(order, |order|, id);
    }

    method QueueInsert(nth: nat, val: Slot)
      requires Queue() && 0 <= val < items.Length && val !in order && nth <= length
      modifies `head, `tail, `length, `order, prev, next
      ensures Queue() && order == InsertAt(old(order), nth, val)
    {
      if nth == 0 {
        QueuePushHead(val);
      } else if nth == length {
        QueuePushTail(val);
      } else {
        var id, n := head, 0;
        while n < nth && id != INVALID
          invariant n <= nth && id == order[n]
        {
          id := next[id];
          n := n + 1;
        }
        hide Chained;
        ghost var p, q := prev[..], next[..];
        ChainFacts(p, q, order);
        prev[val] := prev[id];
        next[val] := id;
        next[prev[id]] := val;
        prev[id] := val;
        length := length + 1;
        ChainInsert(p, q, prev[..], next[..], order, nth, val);
        order := InsertAt(order, nth, val);
      }
    }

    /** A position past the end names the tail. */
    method QueueNth(nth: nat) returns (id: Slot)
      requires Queue()
      ensures id == if order == [] then INVALID else order[if nth < |order| then nth else |order| - 1]
    {
      if nth == 0 {
        id := head;
      } else if nth >= length as int - 1 {
        id := tail;
      } else {
        id := head;
        var n := 0;
        while n < nth
          invariant n <= nth && id == order[n]
        {
          id := next[id];
          n := n + 1;
        }
      }
    }

    method QueuePopAt(pos: Slot, ghost n: nat)
      requires Queue() && n < |order| && order[n] == pos
      modifies `head, `tail, `length, `order, prev, next
      ensures Queue() && order == RemoveAt(old(order), n)
    {
      hide Chained, RemoveAt, First, Last, Distinct;
      ghost var p, q := prev[..], next[..];
      SlotFacts(p, q, order, n);
      var before, after := prev[pos], next[pos];
      if before != INVALID {
        next[before] := after;
      }
      if after != INVALID {
        prev[after] := before;
      }
      if head == pos {
        head := after;
      }
      if tail == pos {
        tail := before;
      }
      prev[pos] := INVALID;
      next[pos] := INVALID;
      length := length - 1;
      assert prev[..] == (if after != INVALID then p[after := before] else p)[pos := INVALID];
      assert next[..] == (if before != INVALID then q[before := after] else q)[pos := INVALID];
      ChainPopped(p, q, prev[..], next[..], order, n);
      order := RemoveAt(order, n);
    }

    method QueueMove(from: Slot, to: Slot, ghost n: nat)
      requires Queue() && n < |order| && order[n] == from && 0 <= to < items.Length && to !in order
      modifies `head, `tail, `order, prev, next
      ensures Queue() && order == old(order)[n := to]
    {
      hide Chained;
      ghost var p, q := prev[..], next[..];
      ChainFacts(p, q, order);
      prev[to], next[to] := prev[from], next[from];
      if prev[to] != INVALID {
        next[prev[to]] := to;
      }
      if next[to] != INVALID {
        prev[next[to]] := to;
      }
      if head == from {
        head := to;
      }
      if tail == from {
        tail := to;
      }
      ChainMove(p, q, prev[..], next[..], order, n, to);
      order := order[n := to];
    }

    // ----- the operations -----------------------------------------------------------------------------

    method PushHead(ele: T)
      requires Valid() && length < items.Length
      modifies Repr()
      ensures Valid() && Contents() == [ele] + old(Contents())
    {
      hide Chained, Arranged, InsertAt;
      ghost var was, o := items[..], order;
      items[length] := ele;
      assert items[..] == was[|o| := ele];
      QueuePushHead(length);
      ArrangedInsert(was, items[..], o, 0, |o|);
      InsertPacked(o, 0);
      InsertEnds(old(Contents()), ele);
    }

    method PushTail(ele: T)
      requires Valid() && length < items.Length
      modifies Repr()
      ensures Valid() && Contents() == old(Contents()) + [ele]
    {
      hide Chained, Arranged, InsertAt;
      ghost var was, o := items[..], order;
      items[length] := ele;
      assert items[..] == was[|o| := ele];
      QueuePushTail(length);
      ArrangedInsert(was, items[..], o, |o|, |o|);
      InsertPacked(o, |o|);
      InsertEnds(old(Contents()), ele);
    }

    method InsertVal(position: nat, ele: T)
      requires Valid() && position <= length < items.Length
      modifies Repr()
      ensures Valid() && Contents() == InsertAt(old(Contents()), position, ele)
    {
      hide Chained, Arranged, InsertAt;
      ghost var was, o := items[..], order;
      items[length] := ele;
      assert items[..] == was[|o| := ele];
      QueueInsert(position, length);
      ArrangedInsert(was, items[..], o, position, |o|);
      InsertPacked(o, position);
    }

    /** Takes a slot out of the queue and moves the last slot into the hole. */
    method RemoveSlot(pos: Slot, ghost n: nat)
      requires Valid() && n < |order| && order[n] == pos
      modifies Repr()
      ensures Valid() && Contents() == RemoveAt(old(Contents()), n)
      ensures order == Repacked(old(order), n)
    {
      hide Chained, Arranged, Repacked;
      ghost var was, o := items[..], order;
      QueuePopAt(pos, n);
      if pos < length {
        items[pos] := items[length];
        ghost var m := LastSlot(o, n);
        QueueMove(length, pos, m);
      }
      RepackedIs(o, n, pos, order);
      ArrangedRepacked(was, items[..], o, n);
      RepackedPacked(o, n);
    }

    /** Removes and returns an element; a position past the end names the last. */
    method RemoveIndex(position: nat) returns (ele: T)
      requires Valid() && length > 0
      modifies Repr()
      ensures var n := if position < old(length) then position else old(length) - 1;
              Valid() && ele == old(Contents())[n] && Contents() == RemoveAt(old(Contents()), n)
    {
      var pos := QueueNth(position);
      ele := items[pos];
      RemoveSlot(pos, if position < length then position else length - 1);
    }

    // ----- iterating ------------------------------------------------------------------------------------

    /** SORTED_ARRAY_FOREACH_REMOVE: removes the current element; `aiter`, the
        slot to visit next, may be the one that is relocated. */
    method ForeachRemove(current: Slot, aiter: Slot, ghost n: nat) returns (aiter': Slot)
      requires Valid() && n < |order| && order[n] == current
      requires aiter == Later(order, n + 1) || aiter == Earlier(order, n)
      modifies Repr()
      ensures Valid() && Contents() == RemoveAt(old(Contents()), n)
      ensures aiter == Later(old(order), n + 1) ==> aiter' == Later(order, n)
      ensures aiter == Earlier(old(order), n) ==> aiter' == Earlier(order, n)
    {
      ghost var o := order;
      var len := length - 1;
      aiter' := aiter;
      RemoveSlot(current, n);
      if current < len && aiter == len {
        aiter' := current;
      }
      RepackedNear(o, n);
    }

    /** SORTED_ARRAY_FOREACH with a block that may remove the current element:
        `remove` decides from the elements seen so far and the current one. */
    method Foreach(remove: (seq<T>, T) -> bool) returns (visited: seq<T>)
      requires Valid()
      modifies Repr()
      ensures Valid() && visited == old(Contents())
      ensures Contents() == Survivors(old(Contents()), |visited|, remove)
    {
      hide Chained, Arranged, Packed, RemoveAt, Survivors, Last, Distinct;
      ghost var s, v := Contents(), 0;
      visited := [];
      var aiter := head;
      SurvivorsNone(s, remove);
      while aiter != INVALID
        invariant Valid() && v <= |s| && visited == s[..v]
        invariant Contents() == Survivors(s, v, remove) + s[v..] && |Survivors(s, v, remove)| <= length
        invariant aiter == Later(order, |Survivors(s, v, remove)|)
        decreases |s| - v
      {
        ghost var n := |Survivors(s, v, remove)|;
        LaterSlot(prev[..], next[..], items[..], order, n);
        SurvivorsStep(s, v, remove);
        var current := aiter;
        var element := items[aiter];
        aiter := next[aiter];
        if remove(visited, element) {
          aiter := ForeachRemove(current, aiter, n);
        }
        visited := visited + [element];
        v := v + 1;
      }
      LaterEnd(prev[..], next[..], order, |Survivors(s, v, remove)|);
      assert v == |s| && s[..v] == s && s[v..] == [];
    }

    /** SORTED_ARRAY_FOREACH_REVERSE */
    method ForeachReverse(remove: (seq<T>, T) -> bool) returns (visited: seq<T>)
      requires Valid()
      modifies Repr()
      ensures Valid() && visited == Backwards(old(Contents()))
      ensures Contents() == Backwards(Survivors(visited, |visited|, remove))
    {
      hide Chained, Arranged, Packed, RemoveAt, Survivors, Backwards;
      ghost var s, v := Contents(), 0;
      ghost var b := Backwards(s);
      visited := [];
      var aiter := tail;
      SurvivorsNone(b, remove);
      BackwardsStart(s, Survivors(b, 0, remove));
      while aiter != INVALID
        invariant Valid() && v <= |s| == |b| && visited == b[..v]
        invariant Contents() == s[..|s| - v] + Backwards(Survivors(b, v, remove)) && |s| - v <= length
        invariant aiter == Earlier(order, |s| - v)
        decreases |s| - v
      {
        EarlierSlot(prev[..], next[..], items[..], order, |s| - v);
        ghost var n: nat := |s| - v - 1;
        SurvivorsBack(s, v, remove);
        var current := aiter;
        var element := items[aiter];
        aiter := prev[aiter];
        if remove(visited, element) {
          aiter := ForeachRemove(current, aiter, n);
        }
        visited := visited + [element];
        v := v + 1;
      }
      EarlierEnd(prev[..], next[..], order, |s| - v);
      assert v == |s| && b[..v] == b && s[..0] == [];
    }

    // ----- splitting ----------------------------------------------------------------------------------------

    /** SORTED_ARRAY_SPLIT: the second half, rounded down, moves to `split`. */
    method Split(split: SortedArray<T>)
      requires Valid() && split.Apart() && split.items.Length == items.Length && Repr() !! split.Repr()
      modifies Repr(), split.Repr()
      ensures Valid() && split.Valid()
      ensures Contents() == Keep(old(Contents())) && split.Contents() == Tail(old(Contents()))
    {
      hide Chained, Arranged, Packed, RemoveAt, First, Last, Distinct, Keep, Tail;
      ghost var s := Contents();
      HalvesOf(s);
      split.Init();
      var mid := length / 2;
      assert s[..|s| - 0] == s && s[|s| - 0..] == [];
      for z := 0 to mid
        invariant Valid() && split.Valid() && length == |s| - z && split.length == z
        invariant Contents() == s[..|s| - z] && split.Contents() == s[|s| - z..]
      {
        var ele := RemoveIndex(length - 1);
        split.PushHead(ele);
        RemoveLast(s, z);
      }
    }

    /** SORTED_ARRAY_SPLIT2: both halves move out. */
    method Split2(left: SortedArray<T>, right: SortedArray<T>)
      requires Valid() && left.Apart() && right.Apart() && left.items.Length == right.items.Length == items.Length
      requires Repr() !! left.Repr() && Repr() !! right.Repr() && left.Repr() !! right.Repr()
      modifies Repr(), left.Repr(), right.Repr()
      ensures Valid() && left.Valid() && right.Valid() && Contents() == []
      ensures left.Contents() == Keep(old(Contents())) && right.Contents() == Tail(old(Contents()))
    {
      hide Chained, Arranged, Packed, RemoveAt, Keep, Tail;
      ghost var s := Contents();
      left.Init();
      Split(right);
      ghost var z, k := 0, Contents();
      while length != 0
        invariant Valid() && left.Valid() && right.Valid() && length == |k| - z && left.length == z
        invariant Contents() == k[..|k| - z] && left.Contents() == k[|k| - z..] && right.Contents() == Tail(s)
        decreases length
      {
        var ele := RemoveIndex(length - 1);
        left.PushHead(ele);
        RemoveLast(k, z);
        z := z + 1;
      }
    }
  }

  lemma {:induction false} SlotFacts(prev: seq<Slot>, next: seq<Slot>, order: seq<Slot>, n: nat)
    requires Chained(prev, next, order) && Distinct(order) && n < |order|
    ensures |prev| == |next| && 0 <= order[n] < |prev|
    ensures prev[order[n]] == Earlier(order, n) && next[order[n]] == Later(order, n + 1)
    ensures Earlier(order, n) == INVALID || 0 <= Earlier(order, n) < |prev|
    ensures Later(order, n + 1) == INVALID || 0 <= Later(order, n + 1) < |prev|
    ensures First(order) == order[n] <==> n == 0
    ensures Last(order) == order[n] <==> n + 1 == |order|
  {}

  lemma {:induction false} ChainPopped(prev: seq<Slot>, next: seq<Slot>, prev': seq<Slot>, next': seq<Slot>,
                                       order: seq<Slot>, n: nat)
    requires Chained(prev, next, order) && Distinct(order) && n < |order| && |prev| < INVALID
    requires var pos, before, after := order[n], Earlier(order, n), Later(order, n + 1);
             && 0 <= pos < |prev| == |next|
             && (after != INVALID ==> 0 <= after < |prev|) && (before != INVALID ==> 0 <= before < |prev|)
             && prev' == (if after != INVALID then prev[after := before] else prev)[pos := INVALID]
             && next' == (if before != INVALID then next[before := after] else next)[pos := INVALID]
    ensures Chained(prev', next', RemoveAt(order, n)) && Distinct(RemoveAt(order, n))
    ensures |RemoveAt(order, n)| == |order| - 1
    ensures First(RemoveAt(order, n)) == if n == 0 then Later(order, 1) else First(order)
    ensures Last(RemoveAt(order, n)) == if n + 1 == |order| then Earlier(order, n) else Last(order)
  {
    ChainRemove(prev, next, prev', next', order, n);
  }

  lemma {:induction false} ChainFacts(prev: seq<Slot>, next: seq<Slot>, order: seq<Slot>)
    requires Chained(prev, next, order)
    ensures |prev| == |next| && InRange(order, |prev|)
    ensures forall i {:trigger prev[order[i]]} :: 0 <= i < |order| ==>
              prev[order[i]] == (if i == 0 then INVALID else order[i - 1])
    ensures forall i {:trigger next[order[i]]} :: 0 <= i < |order| ==>
              next[order[i]] == (if i + 1 == |order| then INVALID else order[i + 1])
  {}

  /** Where the last slot stands once position n has been taken out. */
  lemma {:induction false} LastSlot(order: seq<Slot>, n: nat) returns (m: nat)
    requires Packed(order) && n < |order| && order[n] < |order| - 1
    ensures m < |RemoveAt(order, n)| && RemoveAt(order, n)[m] == |order| - 1
    ensures order[n] !in RemoveAt(order, n)
  {
    var i := Occupied(order, |order| - 1);
    m := if i < n then i else i - 1;
  }

  lemma {:induction false} RepackedIs(order: seq<Slot>, n: nat, pos: Slot, order': seq<Slot>)
    requires Packed(order) && n < |order| && order[n] == pos
    requires pos == |order| - 1 ==> order' == RemoveAt(order, n)
    requires pos < |order| - 1 ==>
               exists m :: 0 <= m < |RemoveAt(order, n)| && RemoveAt(order, n)[m] == |order| - 1 &&
                           order' == RemoveAt(order, n)[m := pos]
    ensures order' == Repacked(order, n)
  {
    var rest := RemoveAt(order, n);
    forall x | 0 <= x < |rest|
      ensures rest[x] == (if x < n then order[x] else order[x + 1])
    {}
  }
}
