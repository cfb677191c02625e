/** When edits applied one after another are the simultaneous substitution. */
module Swallowing {
  import opened Substitution
  import opened Blocks

  /** The range of e lies in the block. */
  ghost predicate In(e: Edit, b: Edit) {
    b.lo <= e.lo && e.hi <= b.hi
  }

  ghost predicate AllWithin(text: seq<char>, es: seq<Edit>) {
    forall i :: 0 <= i < |es| ==> Within(es[i], text)
  }

  /** Edit i is the last of its block. */
  ghost predicate Survives(es: seq<Edit>, i: nat, b: Edit)
    requires i < |es|
  {
    In(es[i], b) && es[i].text == b.text && forall j :: i < j < |es| ==> !In(es[j], b)
  }

  // ----- the edits and their blocks -----------------------------------------------------------

  ghost predicate EachIn(es: seq<Edit>, bs: seq<Edit>) {
    forall i :: 0 <= i < |es| ==> exists b :: b in bs && In(es[i], b)
  }

  ghost predicate EachSurvived(es: seq<Edit>, bs: seq<Edit>) {
    forall b :: b in bs ==> exists i :: 0 <= i < |es| && Survives(es, i, b)
  }

  lemma {:induction false} BlockOf(es: seq<Edit>, bs: seq<Edit>, i: nat) returns (b: Edit)
    requires EachIn(es, bs) && i < |es|
    ensures b in bs && In(es[i], b)
  {
    var e := es[i];
    b :| b in bs && In(e, b);
  }

  lemma {:induction false} MergedParts(text: seq<char>, es: seq<Edit>)
    requires AllWithin(text, es)
    ensures BlocksOk(text, Merged(es)) && EachIn(es, Merged(es)) && EachSurvived(es, Merged(es))
    ensures forall p :: 0 <= p ==> (Covered(Merged(es), p) <==> Covered(es, p))
  {
    MergedOk(text, es);
    if es != [] {
      var before, u := es[..|es| - 1], es[|es| - 1];
      assert es == before + [u];
      MergedParts(text, before);
      AbsorbedOk(text, Merged(before), u);
      HullWithin(text, Merged(before), u);
      AbsorbedEachIn(text, before, u, Merged(before));
      AbsorbedSurvived(text, before, u, Merged(before));
      forall p: nat
        ensures Covered(Merged(es), p) <==> Covered(es, p)
      {
        CoveredMore(before, u, p);
        HullCovered(text, Merged(before), u, p);
      }
    }
  }

  lemma {:induction false} AbsorbedEachIn(text: seq<char>, es: seq<Edit>, u: Edit, bs: seq<Edit>)
    requires BlocksOk(text, bs) && Within(u, text) && EachIn(es, bs)
    ensures EachIn(es + [u], Absorbed(bs, u))
  {
    hide Hull, Absorbed;
    AbsorbedOk(text, bs, u);
    HullWithin(text, bs, u);
    var es' := es + [u];
    forall i | 0 <= i < |es'|
      ensures exists b :: b in Absorbed(bs, u) && In(es'[i], b)
    {
      if i < |es| {
        assert es'[i] == es[i];
        var b := BlockOf(es, bs, i);
        HullIs(text, bs, u, b);
        assert In(es[i], if Touches(b, u) then Hull(bs, u) else b);
      } else {
        assert In(u, Hull(bs, u));
      }
    }
  }

  lemma {:induction false} AbsorbedSurvived(text: seq<char>, es: seq<Edit>, u: Edit, bs: seq<Edit>)
    requires BlocksOk(text, bs) && Within(u, text) && EachSurvived(es, bs)
    ensures EachSurvived(es + [u], Absorbed(bs, u))
  {
    hide Hull, Absorbed;
    AbsorbedOk(text, bs, u);
    HullWithin(text, bs, u);
    HullText(bs, u);
    var es' := es + [u];
    forall b | b in Absorbed(bs, u)
      ensures exists i :: 0 <= i < |es'| && Survives(es', i, b)
    {
      if b == Hull(bs, u) {
        assert Survives(es', |es|, b);
      } else {
        var i :| 0 <= i < |es| && Survives(es, i, b);
        assert Survives(es', i, b);
      }
    }
  }

  /** The hull covers what its blocks and u cover. */
  lemma {:induction false} HullCovered(text: seq<char>, bs: seq<Edit>, u: Edit, p: nat)
    requires BlocksOk(text, bs) && Within(u, text)
    ensures Covered(Absorbed(bs, u), p) <==> Covered(bs, p) || u.lo <= p < u.hi
  {
    hide Covered, PutAt, Absorbed, LeftAt, RightAt;
    var h := Hull(bs, u);
    HullWithin(text, bs, u);
    CoveredIs(bs, p);
    if p <= |text| {
      AbsorbedPiece(text, bs, u, p);
      AtIs(text, bs, u.lo);
      AtIs(text, bs, u.hi);
    } else {
      AbsorbedOk(text, bs, u);
      CoveredIs(Absorbed(bs, u), p);
    }
  }

  // ----- edits of one block ----------------------------------------------------------------------

  ghost function Least(a: nat, b: nat): nat {
    if a <= b then a else b
  }

  ghost function Greatest(a: nat, b: nat): nat {
    if a <= b then b else a
  }

  /** No untouched character stands between the two. */
  ghost predicate Together(es: seq<Edit>, i: nat, j: nat)
    requires i < |es| && j < |es|
  {
    forall p :: Least(es[i].hi, es[j].hi) <= p < Greatest(es[i].lo, es[j].lo) ==> Covered(es, p)
  }

  /** One block holds both. */
  ghost predicate SameBlockFor(es: seq<Edit>, bs: seq<Edit>, i: nat, j: nat)
    requires i < |es| && j < |es|
  {
    exists b :: b in bs && In(es[i], b) && In(es[j], b)
  }

  lemma {:induction false} TogetherIs(text: seq<char>, es: seq<Edit>, i: nat, j: nat)
    requires AllWithin(text, es) && i < |es| && j < |es|
    ensures Together(es, i, j) <==> SameBlockFor(es, Merged(es), i, j)
  {
    hide Merged, Covered, Together, In, BlocksOk, AllWithin, EachSurvived, SameBlockFor;
    MergedParts(text, es);
    var bs := Merged(es);
    var a := BlockOf(es, bs, i);
    var b := BlockOf(es, bs, j);
    if a == b {
      TogetherInside(text, es, bs, i, j, a);
    } else {
      AreApart(text, bs, a, b);
      NotTogether(text, es, bs, i, j, a, b);
      NoCommonBlock(text, es, bs, i, j, a, b);
    }
  }

  lemma {:induction false} AreApart(text: seq<char>, bs: seq<Edit>, a: Edit, b: Edit)
    requires BlocksOk(text, bs) && a in bs && b in bs && a != b
    ensures Apart(a, b)
  {
    hide BlocksOk;
    TwoBlocks(text, bs, a, b);
  }

  lemma {:induction false} NoCommonBlock(text: seq<char>, es: seq<Edit>, bs: seq<Edit>, i: nat, j: nat, a: Edit,
                                         b: Edit)
    requires AllWithin(text, es) && BlocksOk(text, bs) && i < |es| && j < |es|
    requires a in bs && b in bs && Apart(a, b) && In(es[i], a) && In(es[j], b)
    ensures !SameBlockFor(es, bs, i, j)
  {
    assert Within(es[i], text) && Within(es[j], text) && Within(a, text) && Within(b, text);
    forall c | c in bs && In(es[i], c)
      ensures c == a
    {
      OneBlock(text, es, bs, i, a, c);
    }
  }

  lemma {:induction false} OneBlock(text: seq<char>, es: seq<Edit>, bs: seq<Edit>, i: nat, a: Edit, b: Edit)
    requires AllWithin(text, es) && BlocksOk(text, bs) && a in bs && b in bs && i < |es| && In(es[i], a) && In(es[i], b)
    ensures a == b
  {
    TwoBlocks(text, bs, a, b);
    assert Within(es[i], text);
  }

  lemma {:induction false} TogetherInside(text: seq<char>, es: seq<Edit>, bs: seq<Edit>, i: nat, j: nat, b: Edit)
    requires AllWithin(text, es) && i < |es| && j < |es| && b in bs && In(es[i], b) && In(es[j], b)
    requires forall p :: 0 <= p ==> (Covered(bs, p) <==> Covered(es, p))
    ensures Together(es, i, j) && SameBlockFor(es, bs, i, j)
  {
    hide Covered;
    assert Within(es[i], text) && Within(es[j], text);
    forall p: nat | b.lo <= p < b.hi
      ensures Covered(es, p)
    {
      CoveredIs(bs, p);
    }
  }

  lemma {:induction false} NotTogether(text: seq<char>, es: seq<Edit>, bs: seq<Edit>, i: nat, j: nat, a: Edit, b: Edit)
    requires AllWithin(text, es) && BlocksOk(text, bs) && i < |es| && j < |es|
    requires a in bs && b in bs && Apart(a, b) && In(es[i], a) && In(es[j], b)
    requires forall p :: 0 <= p ==> (Covered(bs, p) <==> Covered(es, p))
    ensures !Together(es, i, j)
  {
    hide Covered;
    GapOpen(text, bs, a, b);
    assert Within(es[i], text) && Within(es[j], text) && Within(a, text) && Within(b, text);
    assert !Covered(es, Least(a.hi, b.hi));
  }

  /** The character behind the first of two blocks is untouched. */
  lemma {:induction false} GapOpen(text: seq<char>, bs: seq<Edit>, a: Edit, b: Edit)
    requires BlocksOk(text, bs) && a in bs && b in bs && Apart(a, b)
    ensures !Covered(bs, Least(a.hi, b.hi))
  {
    CoveredIs(bs, Least(a.hi, b.hi));
    forall c | c in bs
      ensures !(c.lo <= Least(a.hi, b.hi) < c.hi)
    {
      TwoBlocks(text, bs, a, c);
      TwoBlocks(text, bs, b, c);
    }
  }

  /** Only the last edit of each block has a text. */
  ghost predicate OthersEmpty(es: seq<Edit>, bs: seq<Edit>) {
    forall i, j :: 0 <= i < j < |es| && SameBlockFor(es, bs, i, j) ==> es[i].text == []
  }

  // ----- then the texts agree -----------------------------------------------------------------------

  lemma {:induction false} PutAtSole(es: seq<Edit>, s: nat, p: nat)
    requires s < |es| && forall i :: 0 <= i < |es| && i != s && es[i].lo == p ==> es[i].text == []
    ensures PutAt(es, p) == if es[s].lo == p then es[s].text else []
  {
    if s == 0 {
      PutAtEmpty(es[1..], p);
    } else {
      PutAtSole(es[1..], s - 1, p);
    }
  }

  lemma {:induction false} PutAtEmpty(es: seq<Edit>, p: nat)
    requires forall i :: 0 <= i < |es| && es[i].lo == p ==> es[i].text == []
    ensures PutAt(es, p) == []
  {
    if es != [] {
      PutAtEmpty(es[1..], p);
    }
  }

  lemma {:induction false} PiecesSole(text: seq<char>, es: seq<Edit>, a: nat, c: nat, at: nat, put: seq<char>)
    requires a <= c <= |text|
    requires forall p :: a <= p < c ==> Covered(es, p) && PutAt(es, p) == if p == at then put else []
    ensures Pieces(text, es, a, c) == if a <= at < c then put else []
    decreases c - a
  {
    hide Covered, PutAt;
    if a < c {
      PiecesSole(text, es, a + 1, c, at, put);
    }
  }

  /** A block, and the character behind it. */
  lemma {:induction false} BlockPieces(text: seq<char>, es: seq<Edit>, b: Edit, s: nat)
    requires Within(b, text) && s < |es| && In(es[s], b) && es[s].lo <= es[s].hi && es[s].text == b.text
    requires forall i :: 0 <= i < |es| && i != s && b.lo <= es[i].lo <= b.hi ==> es[i].text == []
    requires (forall p :: b.lo <= p < b.hi ==> Covered(es, p)) && !Covered(es, b.hi)
    ensures Pieces(text, es, b.lo, b.hi + 1) == b.text + if b.hi == |text| then [] else [text[b.hi]]
  {
    hide Covered, PutAt, Pieces;
    forall p: nat | b.lo <= p <= b.hi
      ensures PutAt(es, p) == if p == es[s].lo then b.text else []
    {
      PutAtSole(es, s, p);
    }
    PiecesSole(text, es, b.lo, b.hi, es[s].lo, b.text);
    PiecesJoin(text, es, b.lo, b.hi, b.hi + 1);
    PiecesStep(text, es, b.hi, b.hi + 1);
    PiecesNone(text, es, b.hi + 1);
  }

  lemma {:induction false} PiecesNone(text: seq<char>, es: seq<Edit>, a: nat)
    requires a <= |text| + 1
    ensures Pieces(text, es, a, a) == []
  {}

  /** The position is not inside a block, nor at its end. */
  ghost predicate Clear(bs: seq<Edit>, q: nat) {
    forall b :: b in bs ==> !(b.lo < q <= b.hi)
  }

  lemma {:induction false} SameFrom(text: seq<char>, es: seq<Edit>, bs: seq<Edit>, q: nat)
    requires AllWithin(text, es) && BlocksOk(text, bs) && EachIn(es, bs) && EachSurvived(es, bs) && OthersEmpty(es, bs)
    requires forall p :: 0 <= p ==> (Covered(bs, p) <==> Covered(es, p))
    requires q <= |text| + 1 && Clear(bs, q)
    ensures Pieces(text, es, q, |text| + 1) == Pieces(text, bs, q, |text| + 1)
    decreases |text| + 1 - q
  {
    hide Covered, PutAt, Pieces, EachIn, EachSurvived, OthersEmpty, AllWithin;
    var n := |text| + 1;
    if q == n {
      PiecesNone(text, es, n);
      PiecesNone(text, bs, n);
    } else if b :| b in bs && b.lo == q {
      SameBlock(text, es, bs, b);
      ClearBehind(text, bs, b);
      SameFrom(text, es, bs, b.hi + 1);
      PiecesJoin(text, es, q, b.hi + 1, n);
      PiecesJoin(text, bs, q, b.hi + 1, n);
    } else {
      NothingAt(text, es, bs, q);
      assert Clear(bs, q + 1);
      SameFrom(text, es, bs, q + 1);
      PiecesStep(text, es, q, n);
      PiecesStep(text, bs, q, n);
    }
  }

  lemma {:induction false} ClearBehind(text: seq<char>, bs: seq<Edit>, b: Edit)
    requires BlocksOk(text, bs) && b in bs
    ensures b.lo <= b.hi <= |text| && Clear(bs, b.hi + 1)
  {
    assert Within(b, text);
    forall c | c in bs
      ensures !(c.lo < b.hi + 1 <= c.hi)
    {
      TwoBlocks(text, bs, b, c);
    }
  }

  lemma {:induction false} NothingAt(text: seq<char>, es: seq<Edit>, bs: seq<Edit>, q: nat)
    requires AllWithin(text, es) && EachIn(es, bs) && Clear(bs, q) && forall b :: b in bs ==> b.lo != q
    ensures PutAt(es, q) == [] && PutAt(bs, q) == []
  {
    forall i | 0 <= i < |es|
      ensures es[i].lo != q
    {
      var b := BlockOf(es, bs, i);
      assert Within(es[i], text);
    }
    PutAtNone(es, q);
    PutAtNone(bs, q);
  }

  lemma {:induction false} SameBlock(text: seq<char>, es: seq<Edit>, bs: seq<Edit>, b: Edit)
    requires AllWithin(text, es) && BlocksOk(text, bs) && EachIn(es, bs) && EachSurvived(es, bs) && OthersEmpty(es, bs)
    requires forall p :: 0 <= p ==> (Covered(bs, p) <==> Covered(es, p))
    requires b in bs
    ensures b.lo <= b.hi <= |text| && Pieces(text, es, b.lo, b.hi + 1) == Pieces(text, bs, b.lo, b.hi + 1)
  {
    hide Covered, Pieces, OthersEmpty, EachIn, Survives;
    assert Within(b, text);
    GapOpenAt(text, bs, b);
    forall p: nat | b.lo <= p < b.hi
      ensures Covered(bs, p)
    {
      CoveredIs(bs, p);
    }
    var s :| 0 <= s < |es| && Survives(es, s, b);
    SoleText(text, es, bs, b, s);
    BlockPieces(text, es, b, s);
    var x :| 0 <= x < |bs| && bs[x] == b;
    SoleBlock(text, bs, x);
    BlockPieces(text, bs, b, x);
  }

  /** Among the edits that start in a block only the last has a text. */
  lemma {:induction false} SoleText(text: seq<char>, es: seq<Edit>, bs: seq<Edit>, b: Edit, s: nat)
    requires AllWithin(text, es) && BlocksOk(text, bs) && EachIn(es, bs) && OthersEmpty(es, bs)
    requires b in bs && s < |es| && Survives(es, s, b)
    ensures In(es[s], b) && es[s].lo <= es[s].hi && es[s].text == b.text
    ensures forall i :: 0 <= i < |es| && i != s && b.lo <= es[i].lo <= b.hi ==> es[i].text == []
  {
    hide BlocksOk, EachIn;
    assert Within(es[s], text);
    forall i | 0 <= i < |es| && i != s && b.lo <= es[i].lo <= b.hi
      ensures es[i].text == []
    {
      InThisBlock(text, es, bs, b, i);
      if i < s {
        BothIn(es, bs, i, s, b);
      }
    }
  }

  lemma {:induction false} SoleBlock(text: seq<char>, bs: seq<Edit>, x: nat)
    requires BlocksOk(text, bs) && x < |bs|
    ensures forall i :: 0 <= i < |bs| && i != x ==> !(bs[x].lo <= bs[i].lo <= bs[x].hi)
  {
    forall i | 0 <= i < |bs| && i != x
      ensures Apart(bs[i], bs[x]) && Within(bs[i], text)
    {
      assert bs[i] in bs;
      if i < x {
        assert Apart(bs[i], bs[x]);
      } else {
        assert Apart(bs[x], bs[i]);
      }
    }
  }

  lemma {:induction false} GapOpenAt(text: seq<char>, bs: seq<Edit>, b: Edit)
    requires BlocksOk(text, bs) && b in bs
    ensures !Covered(bs, b.hi)
  {
    CoveredIs(bs, b.hi);
    forall c | c in bs
      ensures !(c.lo <= b.hi < c.hi)
    {
      TwoBlocks(text, bs, b, c);
    }
  }

  lemma {:induction false} InThisBlock(text: seq<char>, es: seq<Edit>, bs: seq<Edit>, b: Edit, i: nat)
    requires AllWithin(text, es) && BlocksOk(text, bs) && EachIn(es, bs) && b in bs && i < |es|
    requires b.lo <= es[i].lo <= b.hi
    ensures In(es[i], b)
  {
    var c := BlockOf(es, bs, i);
    TwoBlocks(text, bs, b, c);
    assert Within(es[i], text);
  }

  // ----- and only then ---------------------------------------------------------------------------

  ghost function TextTotal(es: seq<Edit>): nat {
    if es == [] then 0 else |es[0].text| + TextTotal(es[1..])
  }

  lemma {:induction false} TextConcat(a: seq<Edit>, b: seq<Edit>)
    ensures TextTotal(a + b) == TextTotal(a) + TextTotal(b)
  {
    if a == [] {
      assert a + b == b;
    } else {
      assert (a + b)[1..] == a[1..] + b;
      TextConcat(a[1..], b);
    }
  }

  /** The length put in at the positions [a, b). */
  ghost function PutTotal(es: seq<Edit>, a: nat, b: nat): nat
    requires a <= b
    decreases b - a
  {
    if a == b then 0 else |PutAt(es, a)| + PutTotal(es, a + 1, b)
  }

  lemma {:induction false} PutConcat(e: Edit, es: seq<Edit>, a: nat, b: nat)
    requires a <= b
    ensures PutTotal([e] + es, a, b) == PutTotal([e], a, b) + PutTotal(es, a, b)
    decreases b - a
  {
    hide PutAt;
    if a < b {
      PutAtConcat([e], es, a);
      PutConcat(e, es, a + 1, b);
    }
  }

  lemma {:induction false} PutSingle(e: Edit, a: nat, b: nat)
    requires a <= b
    ensures PutTotal([e], a, b) == if a <= e.lo < b then |e.text| else 0
    decreases b - a
  {
    if a < b {
      PutAtOne(e, a);
      PutSingle(e, a + 1, b);
    }
  }

  lemma {:induction false} PutNothing(a: nat, b: nat)
    requires a <= b
    ensures PutTotal([], a, b) == 0
    decreases b - a
  {
    if a < b {
      PutNothing(a + 1, b);
    }
  }

  /** Every text is put in somewhere. */
  lemma {:induction false} PutAll(es: seq<Edit>, n: nat)
    requires forall i :: 0 <= i < |es| ==> es[i].lo < n
    ensures PutTotal(es, 0, n) == TextTotal(es)
  {
    if es == [] {
      PutNothing(0, n);
    } else {
      hide PutTotal;
      PutAll(es[1..], n);
      assert es == [es[0]] + es[1..];
      PutConcat(es[0], es[1..], 0, n);
      PutSingle(es[0], 0, n);
    }
  }

  /** Two lists that cover the same positions differ in length by their texts. */
  lemma {:induction false} LengthsDiffer(text: seq<char>, es: seq<Edit>, bs: seq<Edit>, a: nat)
    requires a <= |text| + 1 && forall p :: 0 <= p ==> (Covered(bs, p) <==> Covered(es, p))
    ensures |Pieces(text, es, a, |text| + 1)| + PutTotal(bs, a, |text| + 1) ==
              |Pieces(text, bs, a, |text| + 1)| + PutTotal(es, a, |text| + 1)
    decreases |text| + 1 - a
  {
    hide Covered, PutAt;
    if a <= |text| {
      LengthsDiffer(text, es, bs, a + 1);
    }
  }

  /** What u swallows, and what is left beside it. */
  lemma {:induction false} RestTotal(bs: seq<Edit>, u: Edit)
    ensures TextTotal(Rest(bs, u)) <= TextTotal(bs)
    ensures TextTotal(Rest(bs, u)) == TextTotal(bs) ==> forall b :: b in bs && Touches(b, u) ==> b.text == []
  {
    if bs != [] {
      RestTotal(bs[1..], u);
      TextConcat(if Touches(bs[0], u) then [] else [bs[0]], Rest(bs[1..], u));
      assert bs == [bs[0]] + bs[1..];
      assert TextTotal([bs[0]]) == |bs[0].text| by {
        assert [bs[0]][1..] == [];
      }
    }
  }

  /** Merging loses text, and none only where the others of each block are empty. */
  lemma {:induction false} MergedTotal(text: seq<char>, es: seq<Edit>)
    requires AllWithin(text, es)
    ensures TextTotal(Merged(es)) <= TextTotal(es)
    ensures TextTotal(Merged(es)) == TextTotal(es) ==> OthersEmpty(es, Merged(es))
  {
    hide TextTotal, Absorbed, OthersEmpty;
    if es == [] {
      assert OthersEmpty(es, Merged(es)) by { NoOthers(); }
    } else {
      var before, u := es[..|es| - 1], es[|es| - 1];
      var bs := Merged(before);
      assert es == before + [u];
      MergedTotal(text, before);
      MergedParts(text, before);
      AbsorbedTotal(bs, u);
      TextConcat(before, [u]);
      if TextTotal(Merged(es)) == TextTotal(es) {
        OthersStayEmpty(text, before, u, bs);
      }
    }
  }

  lemma {:induction false} NoOthers()
    ensures OthersEmpty([], Merged([])) && TextTotal(Merged([])) == TextTotal([])
  {}

  lemma {:induction false} AbsorbedTotal(bs: seq<Edit>, u: Edit)
    ensures TextTotal(Absorbed(bs, u)) == TextTotal(Rest(bs, u)) + TextTotal([u])
    ensures TextTotal(Rest(bs, u)) <= TextTotal(bs)
    ensures TextTotal(Rest(bs, u)) == TextTotal(bs) ==> forall b :: b in bs && Touches(b, u) ==> b.text == []
  {
    RestTotal(bs, u);
    TextConcat(Rest(bs, u), [Hull(bs, u)]);
    assert [Hull(bs, u)][1..] == [] && [u][1..] == [];
  }

  lemma {:induction false} OthersStayEmpty(text: seq<char>, es: seq<Edit>, u: Edit, bs: seq<Edit>)
    requires AllWithin(text, es) && Within(u, text) && BlocksOk(text, bs) && EachIn(es, bs) && EachSurvived(es, bs)
    requires OthersEmpty(es, bs)
    requires forall b :: b in bs && Touches(b, u) ==> b.text == []
    ensures OthersEmpty(es + [u], Absorbed(bs, u))
  {
    hide Hull, Absorbed, BlocksOk, EachIn, EachSurvived, OthersEmpty, Touches;
    AbsorbedOk(text, bs, u);
    var es' := es + [u];
    forall i, j, b | 0 <= i < j < |es'| && b in Absorbed(bs, u) && In(es'[i], b) && In(es'[j], b)
      ensures es'[i].text == []
    {
      assert es'[i] == es[i];
      if b == Hull(bs, u) {
        HullSilent(text, es, u, bs, i);
      } else {
        NotInOther(text, es, u, bs, b);
        assert es'[j] == es[j];
        BothIn(es, bs, i, j, b);
      }
    }
    OthersAre(es', Absorbed(bs, u));
  }

  lemma {:induction false} OthersAre(es: seq<Edit>, bs: seq<Edit>)
    requires forall i, j, b :: 0 <= i < j < |es| && b in bs && In(es[i], b) && In(es[j], b) ==> es[i].text == []
    ensures OthersEmpty(es, bs)
  {
    forall i, j | 0 <= i < j < |es| && SameBlockFor(es, bs, i, j)
      ensures es[i].text == []
    {
      var b :| b in bs && In(es[i], b) && In(es[j], b);
    }
  }

  lemma {:induction false} BothIn(es: seq<Edit>, bs: seq<Edit>, i: nat, j: nat, b: Edit)
    requires OthersEmpty(es, bs) && i < j < |es| && b in bs && In(es[i], b) && In(es[j], b)
    ensures es[i].text == []
  {
    assert SameBlockFor(es, bs, i, j);
  }

  lemma {:induction false} NotInOther(text: seq<char>, es: seq<Edit>, u: Edit, bs: seq<Edit>, b: Edit)
    requires Within(u, text) && !Touches(b, u)
    ensures !In(u, b)
  {}

  /** What lies in the hull is empty, if the blocks that u swallows are. */
  lemma {:induction false} HullSilent(text: seq<char>, es: seq<Edit>, u: Edit, bs: seq<Edit>, i: nat)
    requires AllWithin(text, es) && Within(u, text) && BlocksOk(text, bs) && EachIn(es, bs) && EachSurvived(es, bs)
    requires OthersEmpty(es, bs)
    requires (forall b :: b in bs && Touches(b, u) ==> b.text == []) && i < |es| && In(es[i], Hull(bs, u))
    ensures es[i].text == []
  {
    hide Hull, BlocksOk, OthersEmpty, Touches;
    var b := BlockOf(es, bs, i);
    HullIs(text, bs, u, b);
    assert Within(es[i], text);
    var s :| 0 <= s < |es| && Survives(es, s, b);
    if i < s {
      BothIn(es, bs, i, s, b);
    }
  }

  // ----- exactly ------------------------------------------------------------------------------------

  /** Only the last edit of those without an untouched character between them has
      a text. */
  ghost predicate OnlyLastOnes(es: seq<Edit>) {
    forall i, j :: 0 <= i < j < |es| && Together(es, i, j) ==> es[i].text == []
  }

  /** Edits applied one by one are the simultaneous substitution exactly if, of
      those between which no untouched character stands, all but the one applied
      last put in nothing. */
  lemma {:induction false} OneByOneExactly(text: seq<char>, es: seq<Edit>)
    requires AllWithin(text, es)
    ensures Substituted(text, Merged(es)) == Substituted(text, es) <==> OnlyLastOnes(es)
  {
    hide Merged, Covered, PutAt, Pieces, TextTotal, Together, EachIn, EachSurvived, OthersEmpty, BlocksOk;
    var bs := Merged(es);
    MergedParts(text, es);
    OnlyLastIs(text, es);
    if OthersEmpty(es, bs) {
      ClearStart(bs);
      SameFrom(text, es, bs, 0);
    }
    MergedTotal(text, es);
    LengthsDiffer(text, es, bs, 0);
    assert forall i :: 0 <= i < |es| ==> Within(es[i], text);
    PutAll(es, |text| + 1);
    BlocksStart(text, bs);
    PutAll(bs, |text| + 1);
  }

  lemma {:induction false} ClearStart(bs: seq<Edit>)
    ensures Clear(bs, 0)
  {}

  lemma {:induction false} BlocksStart(text: seq<char>, bs: seq<Edit>)
    requires BlocksOk(text, bs)
    ensures forall i :: 0 <= i < |bs| ==> bs[i].lo < |text| + 1
  {
    forall i | 0 <= i < |bs|
      ensures Within(bs[i], text)
    {
      assert bs[i] in bs;
    }
  }

  lemma {:induction false} OnlyLastIs(text: seq<char>, es: seq<Edit>)
    requires AllWithin(text, es)
    ensures OnlyLastOnes(es) <==> OthersEmpty(es, Merged(es))
  {
    hide Merged, Together, SameBlockFor;
    forall i, j | 0 <= i < j < |es|
      ensures Together(es, i, j) <==> SameBlockFor(es, Merged(es), i, j)
    {
      TogetherIs(text, es, i, j);
    }
  }

  /** One block and an edit that meets it. */
  lemma {:induction false} AbsorbOne(b: Edit, u: Edit)
    requires Touches(b, u)
    ensures Absorbed([b], u)
         == [Edit(if Hits(b, u.lo) then b.lo else u.lo, if Hits(b, u.hi) then b.hi else u.hi, u.text)]
  {
    assert [b][1..] == [];
    assert Rest([b], u) == [];
    assert LeftAt([], u.lo) == u.lo && RightAt([], u.hi) == u.hi;
  }

  lemma {:induction false} MergeThree(a: Edit, b: Edit, c: Edit)
    ensures Merged([a, b, c]) == Absorbed(Absorbed([a], b), c)
  {
    hide Absorbed;
    assert [a, b, c][..2] == [a, b] && [a, b][..1] == [a] && [a][..0] == [];
    assert Merged([a]) == [a] by { AbsorbFirst(a); }
  }

  lemma {:induction false} AbsorbFirst(a: Edit)
    ensures Absorbed([], a) == [a]
  {}

  /** That no edit with a text touches one applied later is not enough: once the
      middle of three is applied, the outer two meet. */
  lemma {:induction false} TouchingIsNotEnough()
    ensures var es := [Edit(1, 2, ""), Edit(0, 1, "x"), Edit(2, 3, "y")];
            && (forall i, j :: 0 <= i < j < |es| && Touches(es[i], es[j]) ==> es[i].text == [])
            && Merged(es) == [Edit(0, 3, "y")]
            && Substituted("abc", Merged(es)) != Substituted("abc", es)
  {
    hide Merged, Absorbed, Substituted;
    var a, b, c := Edit(1, 2, ""), Edit(0, 1, "x"), Edit(2, 3, "y");
    var es := [a, b, c];
    MergeThree(a, b, c);
    AbsorbOne(a, b);
    AbsorbOne(Edit(0, 2, "x"), c);
    assert Together(es, 1, 2) by {
      assert es[0].lo <= 1 < es[0].hi;
    }
    assert AllWithin("abc", es);
    OneByOneExactly("abc", es);
  }
}
