/** Edits whose ranges touch or overlap: whichever is applied swallows the text
    of those it meets, so that the edits applied so far form separated blocks. */
module Blocks {
  import opened Substitution

  /** The position lies in the block or on its border. */
  ghost predicate Hits(b: Edit, q: nat) {
    b.lo <= q <= b.hi
  }

  ghost predicate Touches(b: Edit, u: Edit) {
    b.lo <= u.hi && u.lo <= b.hi
  }

  /** Where the block at position q begins, if there is one. */
  ghost function LeftAt(bs: seq<Edit>, q: nat): nat {
    if bs == [] then q else if Hits(bs[0], q) then bs[0].lo else LeftAt(bs[1..], q)
  }

  ghost function RightAt(bs: seq<Edit>, q: nat): nat {
    if bs == [] then q else if Hits(bs[0], q) then bs[0].hi else RightAt(bs[1..], q)
  }

  /** The blocks that u does not meet. */
  ghost function Rest(bs: seq<Edit>, u: Edit): seq<Edit> {
    if bs == [] then [] else (if Touches(bs[0], u) then [] else [bs[0]]) + Rest(bs[1..], u)
  }

  /** u and the blocks it meets, in one. */
  ghost function Hull(bs: seq<Edit>, u: Edit): Edit {
    Edit(LeftAt(bs, u.lo), RightAt(bs, u.hi), u.text)
  }

  ghost function Absorbed(bs: seq<Edit>, u: Edit): seq<Edit> {
    Rest(bs, u) + [Hull(bs, u)]
  }

  /** The blocks after all edits: each group of ranges without an untouched
      character between them, with the text of the edit applied last. */
  ghost function Merged(es: seq<Edit>): seq<Edit> {
    if es == [] then [] else Absorbed(Merged(es[..|es| - 1]), es[|es| - 1])
  }

  ghost predicate BlocksOk(text: seq<char>, bs: seq<Edit>) {
    (forall b :: b in bs ==> Within(b, text)) && forall i, j :: 0 <= i < j < |bs| ==> Apart(bs[i], bs[j])
  }

  lemma {:induction false} TwoBlocks(text: seq<char>, bs: seq<Edit>, a: Edit, b: Edit)
    requires BlocksOk(text, bs) && a in bs && b in bs
    ensures a == b || Apart(a, b)
  {
    var i :| 0 <= i < |bs| && bs[i] == a;
    var j :| 0 <= j < |bs| && bs[j] == b;
    assert i < j ==> Apart(bs[i], bs[j]);
    assert j < i ==> Apart(bs[j], bs[i]);
  }

  lemma {:induction false} BlocksTail(text: seq<char>, bs: seq<Edit>)
    requires BlocksOk(text, bs) && bs != []
    ensures BlocksOk(text, bs[1..]) && forall b :: b in bs[1..] ==> Apart(bs[0], b)
  {
    forall b | b in bs[1..]
      ensures Within(b, text) && Apart(bs[0], b)
    {
      var i :| 0 <= i < |bs[1..]| && bs[1..][i] == b;
      assert b == bs[i + 1] && Apart(bs[0], bs[i + 1]);
    }
  }

  lemma {:induction false} AtIs(text: seq<char>, bs: seq<Edit>, q: nat)
    requires BlocksOk(text, bs)
    ensures LeftAt(bs, q) <= q <= RightAt(bs, q)
    ensures forall b :: b in bs && Hits(b, q) ==> LeftAt(bs, q) == b.lo && RightAt(bs, q) == b.hi
    ensures (forall b :: b in bs ==> !Hits(b, q)) ==> LeftAt(bs, q) == q == RightAt(bs, q)
    ensures LeftAt(bs, q) < q || q < RightAt(bs, q) ==> exists b :: b in bs && Hits(b, q)
  {
    if bs != [] {
      BlocksTail(text, bs);
      AtIs(text, bs[1..], q);
      assert bs == [bs[0]] + bs[1..];
      if Hits(bs[0], q) {
        assert bs[0] in bs;
      }
    }
  }

  lemma {:induction false} RestIs(text: seq<char>, bs: seq<Edit>, u: Edit)
    requires BlocksOk(text, bs)
    ensures forall b :: b in Rest(bs, u) <==> b in bs && !Touches(b, u)
    ensures BlocksOk(text, Rest(bs, u))
  {
    if bs != [] {
      BlocksTail(text, bs);
      RestIs(text, bs[1..], u);
      assert bs == [bs[0]] + bs[1..];
      var rest := Rest(bs[1..], u);
      if !Touches(bs[0], u) {
        assert Rest(bs, u) == [bs[0]] + rest;
        forall i, j | 0 <= i < j < |Rest(bs, u)|
          ensures Apart(Rest(bs, u)[i], Rest(bs, u)[j])
        {
          assert Rest(bs, u)[j] == rest[j - 1];
          if i > 0 {
            assert Rest(bs, u)[i] == rest[i - 1];
          }
        }
      } else {
        assert Rest(bs, u) == rest;
      }
    }
  }

  /** The blocks that u meets lie in the hull, the others keep clear of it. */
  lemma {:induction false} HullIs(text: seq<char>, bs: seq<Edit>, u: Edit, b: Edit)
    requires BlocksOk(text, bs) && Within(u, text) && b in bs
    ensures var h := Hull(bs, u);
            && h.lo <= u.lo <= u.hi <= h.hi
            && (if Touches(b, u) then h.lo <= b.lo && b.hi <= h.hi else Apart(b, h))
  {
    AtIs(text, bs, u.lo);
    AtIs(text, bs, u.hi);
    if !Touches(b, u) {
      if c :| c in bs && Hits(c, u.lo) {
        TwoBlocks(text, bs, b, c);
      }
      if c :| c in bs && Hits(c, u.hi) {
        TwoBlocks(text, bs, b, c);
      }
    }
  }

  lemma {:induction false} HullWithin(text: seq<char>, bs: seq<Edit>, u: Edit)
    requires BlocksOk(text, bs) && Within(u, text)
    ensures Within(Hull(bs, u), text) && Hull(bs, u).lo <= u.lo <= u.hi <= Hull(bs, u).hi
  {
    AtIs(text, bs, u.lo);
    AtIs(text, bs, u.hi);
  }

  lemma {:induction false} AbsorbedOk(text: seq<char>, bs: seq<Edit>, u: Edit)
    requires BlocksOk(text, bs) && Within(u, text)
    ensures BlocksOk(text, Absorbed(bs, u)) && Hull(bs, u) in Absorbed(bs, u)
    ensures forall b :: b in Absorbed(bs, u) <==> b == Hull(bs, u) || (b in bs && !Touches(b, u))
    ensures ApartFrom(Rest(bs, u), Hull(bs, u))
  {
    hide Hull, Touches;
    RestIs(text, bs, u);
    HullWithin(text, bs, u);
    forall i | 0 <= i < |Rest(bs, u)|
      ensures Rest(bs, u)[i].lo <= Rest(bs, u)[i].hi && Apart(Rest(bs, u)[i], Hull(bs, u))
    {
      assert Rest(bs, u)[i] in Rest(bs, u);
      HullIs(text, bs, u, Rest(bs, u)[i]);
    }
    assert forall i, j :: 0 <= i < j < |Rest(bs, u)| ==> Apart(Rest(bs, u)[i], Rest(bs, u)[j]);
  }

  lemma {:induction false} MergedOk(text: seq<char>, es: seq<Edit>)
    requires forall i :: 0 <= i < |es| ==> Within(es[i], text)
    ensures BlocksOk(text, Merged(es))
  {
    if es != [] {
      MergedOk(text, es[..|es| - 1]);
      AbsorbedOk(text, Merged(es[..|es| - 1]), es[|es| - 1]);
    }
  }

  /** Separated edits stay as they are. */
  lemma {:induction false} MergedSeparated(text: seq<char>, es: seq<Edit>)
    requires Separated(es) && forall i :: 0 <= i < |es| ==> Within(es[i], text)
    ensures Merged(es) == es
  {
    if es != [] {
      var before, u := es[..|es| - 1], es[|es| - 1];
      MergedSeparated(text, before);
      forall b | b in before
        ensures !Touches(b, u)
      {
        var i :| 0 <= i < |before| && before[i] == b;
        assert Within(es[i], text) && Apart(es[i], es[|es| - 1]);
      }
      NothingMet(before, u);
      assert es == before + [u];
    }
  }

  lemma {:induction false} NothingMet(bs: seq<Edit>, u: Edit)
    requires u.lo <= u.hi && forall b :: b in bs ==> !Touches(b, u)
    ensures Absorbed(bs, u) == bs + [u]
  {
    if bs != [] {
      assert bs[0] in bs && forall b :: b in bs[1..] ==> b in bs;
      NothingMet(bs[1..], u);
      assert bs == [bs[0]] + bs[1..];
      assert Rest(bs[1..], u) == bs[1..] by {
        assert |Rest(bs[1..], u) + [Hull(bs[1..], u)]| == |bs[1..] + [u]|;
        assert Rest(bs[1..], u) == (Rest(bs[1..], u) + [Hull(bs[1..], u)])[..|bs[1..]|];
      }
      assert Hull(bs[1..], u) == (Rest(bs[1..], u) + [Hull(bs[1..], u)])[|bs[1..]|];
    }
  }

  // ----- the text after one more edit -----------------------------------------------------------

  lemma {:induction false} PutAtRest(bs: seq<Edit>, u: Edit, p: nat)
    requires forall b :: b in bs && Touches(b, u) ==> b.lo != p
    ensures PutAt(Rest(bs, u), p) == PutAt(bs, p)
  {
    if bs != [] {
      assert bs[0] in bs && forall b :: b in bs[1..] ==> b in bs;
      PutAtRest(bs[1..], u, p);
      PutAtConcat(if Touches(bs[0], u) then [] else [bs[0]], Rest(bs[1..], u), p);
      PutAtOne(bs[0], p);
    }
  }

  lemma {:induction false} CoveredIs(bs: seq<Edit>, p: nat)
    ensures Covered(bs, p) <==> exists b :: b in bs && b.lo <= p < b.hi
  {
    if b :| b in bs && b.lo <= p < b.hi {
      var i :| 0 <= i < |bs| && bs[i] == b;
    }
  }

  /** Outside the hull nothing changes; inside, its text stands at its start and
      the rest is gone. */
  lemma {:induction false} AbsorbedPiece(text: seq<char>, bs: seq<Edit>, u: Edit, p: nat)
    requires BlocksOk(text, bs) && Within(u, text) && p <= |text|
    ensures var h, bs' := Hull(bs, u), Absorbed(bs, u);
            && (p < h.lo || h.hi < p ==> PutAt(bs', p) == PutAt(bs, p) && (Covered(bs', p) <==> Covered(bs, p)))
            && (h.lo <= p <= h.hi ==>
                  PutAt(bs', p) == (if p == h.lo then u.text else []) && (Covered(bs', p) <==> p < h.hi))
            && (p == h.hi ==> !Covered(bs, p))
  {
    hide Hull, PutAt, Covered;
    var h, rest := Hull(bs, u), Rest(bs, u);
    AbsorbedOk(text, bs, u);
    RestIs(text, bs, u);
    HullText(bs, u);
    PutAtConcat(rest, [h], p);
    PutAtOne(h, p);
    CoveredMore(rest, h, p);
    CoveredIs(bs, p);
    CoveredIs(rest, p);
    forall b | b in bs
      ensures h.lo <= u.lo <= u.hi <= h.hi
      ensures if Touches(b, u) then h.lo <= b.lo && b.hi <= h.hi else Apart(b, h)
    {
      HullIs(text, bs, u, b);
    }
    if p < h.lo || h.hi < p {
      PutAtRest(bs, u, p);
    } else {
      PutAtNone(rest, p);
    }
  }

  lemma {:induction false} HullText(bs: seq<Edit>, u: Edit)
    ensures Hull(bs, u).text == u.text
  {}

  /** The position behind what is put in at q, once the edits are made. */
  ghost function MovedPast(text: seq<char>, bs: seq<Edit>, q: nat): nat
    requires q <= |text|
  {
    Moved(text, bs, q) + |PutAt(bs, q)|
  }

  /** The pieces before the hull, and those behind its end, are the same. */
  lemma {:induction false} OutsideHull(text: seq<char>, bs: seq<Edit>, u: Edit, a: nat, b: nat)
    requires BlocksOk(text, bs) && Within(u, text) && a <= b <= |text| + 1
    requires b <= Hull(bs, u).lo || Hull(bs, u).hi < a
    ensures Pieces(text, Absorbed(bs, u), a, b) == Pieces(text, bs, a, b)
  {
    hide Hull, PutAt, Covered, Pieces;
    forall p: nat | a <= p < b
      ensures Piece(text, Absorbed(bs, u), p) == Piece(text, bs, p)
    {
      AbsorbedPiece(text, bs, u, p);
    }
    hide Piece, Absorbed;
    PiecesSame(text, Absorbed(bs, u), bs, a, b);
  }

  /** Inside the hull, after its start, nothing is left up to its end. */
  lemma {:induction false} InsideHull(text: seq<char>, bs: seq<Edit>, u: Edit, a: nat)
    requires BlocksOk(text, bs) && Within(u, text) && Hull(bs, u).lo < a <= Hull(bs, u).hi
    ensures Hull(bs, u).hi <= |text|
    ensures Pieces(text, Absorbed(bs, u), a, Hull(bs, u).hi) == []
    decreases Hull(bs, u).hi - a
  {
    hide Hull, PutAt, Covered, Absorbed;
    HullWithin(text, bs, u);
    if a < Hull(bs, u).hi {
      AbsorbedPiece(text, bs, u, a);
      InsideHull(text, bs, u, a + 1);
    }
  }

  /** From the start of the hull to its end: before, what lay there, with what is
      put in at the end; after, the text of u. */
  lemma {:induction false} AcrossHull(text: seq<char>, bs: seq<Edit>, u: Edit, q: nat)
    requires BlocksOk(text, bs) && Within(u, text) && Hull(bs, u).hi < q <= |text| + 1
    ensures Hull(bs, u).lo <= Hull(bs, u).hi <= |text|
    ensures var h := Hull(bs, u);
            var own := if h.hi == |text| then [] else [text[h.hi]];
            && Pieces(text, Absorbed(bs, u), h.lo, q) == u.text + (own + Pieces(text, bs, h.hi + 1, q))
            && Pieces(text, bs, h.hi, q) == PutAt(bs, h.hi) + (own + Pieces(text, bs, h.hi + 1, q))
  {
    hide Hull, PutAt, Covered, Pieces, Absorbed;
    var h, bs' := Hull(bs, u), Absorbed(bs, u);
    HullWithin(text, bs, u);
    OutsideHull(text, bs, u, h.hi + 1, q);
    AbsorbedPiece(text, bs, u, h.hi);
    AbsorbedPiece(text, bs, u, h.lo);
    PiecesStep(text, bs, h.hi, q);
    PiecesStep(text, bs', h.hi, q);
    if h.lo < h.hi {
      PiecesJoin(text, bs', h.lo, h.hi, q);
      PiecesStep(text, bs', h.lo, h.hi);
      InsideHull(text, bs, u, h.lo + 1);
    }
  }

  /** Replacing what lies between the start of the hull and behind its end, where
      the edits so far have moved them, makes one more edit. */
  lemma {:induction false} AbsorbText(text: seq<char>, bs: seq<Edit>, u: Edit)
    requires BlocksOk(text, bs) && Within(u, text)
    ensures Hull(bs, u).lo <= Hull(bs, u).hi <= |text|
    ensures var all := Substituted(text, bs);
            var begin, end := Moved(text, bs, Hull(bs, u).lo), MovedPast(text, bs, Hull(bs, u).hi);
            && begin <= end <= |all|
            && Substituted(text, Absorbed(bs, u)) == all[..begin] + u.text + all[end..]
  {
    hide Hull, PutAt, Pieces, Absorbed;
    var h, bs', n := Hull(bs, u), Absorbed(bs, u), |text| + 1;
    HullWithin(text, bs, u);
    OutsideHull(text, bs, u, 0, h.lo);
    AcrossHull(text, bs, u, n);
    PiecesJoin(text, bs, 0, h.lo, h.hi);
    PiecesJoin(text, bs, 0, h.hi, n);
    PiecesJoin(text, bs', 0, h.lo, n);
  }

  // ----- where positions move ----------------------------------------------------------------------

  /** Positions before the hull stay, those behind it move with the length, and
      those in it lie between its ends. */
  lemma {:induction false} AbsorbMoves(text: seq<char>, bs: seq<Edit>, u: Edit, q: nat)
    requires BlocksOk(text, bs) && Within(u, text) && q <= |text|
    ensures Hull(bs, u).lo <= Hull(bs, u).hi <= |text|
    ensures var h, bs' := Hull(bs, u), Absorbed(bs, u);
            var begin, end := Moved(text, bs, h.lo), MovedPast(text, bs, h.hi);
            && begin <= end
            && (q < h.lo ==>
                  Moved(text, bs', q) == Moved(text, bs, q) && MovedPast(text, bs', q) == MovedPast(text, bs, q))
            && (q > h.hi ==>
                  && Moved(text, bs', q) == Moved(text, bs, q) - (end - begin) + |u.text|
                  && MovedPast(text, bs', q) == MovedPast(text, bs, q) - (end - begin) + |u.text|)
            && Moved(text, bs', h.lo) == begin && MovedPast(text, bs', h.hi) == begin + |u.text|
  {
    hide Hull, PutAt, Pieces, Absorbed, Covered;
    var h, bs' := Hull(bs, u), Absorbed(bs, u);
    AbsorbText(text, bs, u);
    AbsorbedPiece(text, bs, u, q);
    AbsorbedPiece(text, bs, u, h.hi);
    OutsideHull(text, bs, u, 0, h.lo);
    if q < h.lo {
      OutsideHull(text, bs, u, 0, q);
    } else if q > h.hi {
      PiecesJoin(text, bs', 0, h.lo, q);
      PiecesJoin(text, bs, 0, h.hi, q);
      AcrossHull(text, bs, u, q);
    }
    HullEnd(text, bs, u);
  }

  lemma {:induction false} HullEnd(text: seq<char>, bs: seq<Edit>, u: Edit)
    requires BlocksOk(text, bs) && Within(u, text)
    ensures Hull(bs, u).lo <= Hull(bs, u).hi <= |text|
    ensures MovedPast(text, Absorbed(bs, u), Hull(bs, u).hi) == Moved(text, bs, Hull(bs, u).lo) + |u.text|
  {
    hide Hull, PutAt, Pieces, Absorbed, Covered;
    var h, bs' := Hull(bs, u), Absorbed(bs, u);
    HullWithin(text, bs, u);
    AbsorbedPiece(text, bs, u, h.hi);
    AbsorbedPiece(text, bs, u, h.lo);
    OutsideHull(text, bs, u, 0, h.lo);
    if h.lo < h.hi {
      PiecesJoin(text, bs', 0, h.lo, h.hi);
      PiecesStep(text, bs', h.lo, h.hi);
      InsideHull(text, bs, u, h.lo + 1);
    }
  }

  /** Positions are in order, strictly where an untouched character stands between. */
  lemma {:induction false} MovesInOrder(text: seq<char>, bs: seq<Edit>, p: nat, q: nat)
    requires p <= q <= |text|
    ensures Moved(text, bs, p) <= Moved(text, bs, q) && MovedPast(text, bs, p) <= MovedPast(text, bs, q)
    ensures p < q && !Covered(bs, p) ==> MovedPast(text, bs, p) < Moved(text, bs, q)
  {
    hide PutAt, Pieces, Covered;
    PiecesJoin(text, bs, 0, p, q);
    if p < q {
      PiecesStep(text, bs, p, q);
    }
  }

  /** After one more edit the block at a position is the hull, if it lies there,
      and else the one it was. */
  lemma {:induction false} AtAfter(text: seq<char>, bs: seq<Edit>, u: Edit, q: nat)
    requires BlocksOk(text, bs) && Within(u, text)
    ensures var h, bs' := Hull(bs, u), Absorbed(bs, u);
            if q < h.lo then
              LeftAt(bs', q) == LeftAt(bs, q) && RightAt(bs', q) == RightAt(bs, q) < h.lo
            else if q > h.hi then
              LeftAt(bs', q) == LeftAt(bs, q) > h.hi && RightAt(bs', q) == RightAt(bs, q)
            else
              LeftAt(bs', q) == h.lo <= LeftAt(bs, q) && RightAt(bs, q) <= h.hi == RightAt(bs', q)
  {
    hide Hull, LeftAt, RightAt, Absorbed;
    var h, bs' := Hull(bs, u), Absorbed(bs, u);
    AbsorbedOk(text, bs, u);
    AtIs(text, bs, q);
    AtIs(text, bs', q);
    HullWithin(text, bs, u);
    forall b | b in bs
      ensures if Touches(b, u) then h.lo <= b.lo && b.hi <= h.hi else Apart(b, h)
    {
      HullIs(text, bs, u, b);
    }
    if q < h.lo || h.hi < q {
      if b :| b in bs && Hits(b, q) {
        assert b in bs';
      }
    } else {
      assert h in bs' && Hits(h, q);
    }
  }

  /** The block at a position ends before an uncovered character. */
  lemma {:induction false} BlockEnds(text: seq<char>, bs: seq<Edit>, q: nat)
    requires BlocksOk(text, bs) && q <= |text|
    ensures LeftAt(bs, q) <= q <= RightAt(bs, q) <= |text|
    ensures !Covered(bs, RightAt(bs, q))
  {
    hide Covered, LeftAt, RightAt;
    AtIs(text, bs, q);
    CoveredIs(bs, RightAt(bs, q));
    if b :| b in bs && Hits(b, q) {
      forall c | c in bs
        ensures !(c.lo <= RightAt(bs, q) < c.hi)
      {
        TwoBlocks(text, bs, b, c);
      }
    }
  }

  /** A range that keeps clear of all edits keeps clear of their blocks. */
  lemma {:induction false} MergedApart(text: seq<char>, es: seq<Edit>, v: Edit)
    requires Within(v, text) && forall i :: 0 <= i < |es| ==> Within(es[i], text) && Apart(es[i], v)
    ensures forall b :: b in Merged(es) ==> Apart(b, v)
  {
    if es != [] {
      var before, u := es[..|es| - 1], es[|es| - 1];
      MergedApart(text, before, v);
      MergedOk(text, before);
      HullApart(text, Merged(before), u, v);
      AbsorbedOk(text, Merged(before), u);
    }
  }

  lemma {:induction false} HullApart(text: seq<char>, bs: seq<Edit>, u: Edit, v: Edit)
    requires BlocksOk(text, bs) && Within(u, text) && Within(v, text) && Apart(u, v)
    requires forall b :: b in bs ==> Apart(b, v)
    ensures Apart(Hull(bs, u), v)
  {
    hide LeftAt, RightAt;
    AtIs(text, bs, u.lo);
    AtIs(text, bs, u.hi);
    if c :| c in bs && Hits(c, u.lo) {
      assert Apart(c, v);
    }
    if c :| c in bs && Hits(c, u.hi) {
      assert Apart(c, v);
    }
  }
}
