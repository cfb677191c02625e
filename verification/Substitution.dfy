/** Replacing several ranges of a text at once, and one after another. */
module Substitution {

  /** The characters [lo, hi) are to become `text`. */
  datatype Edit = Edit(lo: nat, hi: nat, text: seq<char>)

  ghost predicate Within(e: Edit, text: seq<char>) {
    e.lo <= e.hi <= |text|
  }

  /** An untouched character stands between the two. */
  ghost predicate Apart(a: Edit, b: Edit) {
    a.hi < b.lo || b.hi < a.lo
  }

  ghost predicate ApartFrom(es: seq<Edit>, e: Edit) {
    forall i :: 0 <= i < |es| ==> es[i].lo <= es[i].hi && Apart(es[i], e)
  }

  ghost predicate Separated(es: seq<Edit>) {
    forall i, j :: 0 <= i < j < |es| ==> Apart(es[i], es[j])
  }

  // ----- the simultaneous substitution --------------------------------------------------------

  ghost predicate Covered(es: seq<Edit>, p: nat) {
    exists i :: 0 <= i < |es| && es[i].lo <= p < es[i].hi
  }

  /** What is put in at position p. */
  ghost function PutAt(es: seq<Edit>, p: nat): seq<char> {
    if es == [] then []
    else (if es[0].lo == p then es[0].text else []) + PutAt(es[1..], p)
  }

  /** What position p of the original text becomes. */
  ghost function Piece(text: seq<char>, es: seq<Edit>, p: nat): seq<char>
    requires p <= |text|
  {
    PutAt(es, p) + if p == |text| || Covered(es, p) then [] else [text[p]]
  }

  /** What the positions [a, b) of the original text become. */
  ghost function Pieces(text: seq<char>, es: seq<Edit>, a: nat, b: nat): seq<char>
    requires a <= b <= |text| + 1
    decreases b - a
  {
    if a == b then [] else Piece(text, es, a) + Pieces(text, es, a + 1, b)
  }

  /** Every range replaced at once, each read off the original text. */
  ghost function Substituted(text: seq<char>, es: seq<Edit>): seq<char> {
    Pieces(text, es, 0, |text| + 1)
  }

  lemma {:induction false} PiecesJoin(text: seq<char>, es: seq<Edit>, a: nat, b: nat, c: nat)
    requires a <= b <= c <= |text| + 1
    ensures Pieces(text, es, a, c) == Pieces(text, es, a, b) + Pieces(text, es, b, c)
    decreases b - a
  {
    hide Piece;
    if a < b {
      PiecesJoin(text, es, a + 1, b, c);
    }
  }

  lemma {:induction false} PiecesSame(text: seq<char>, es: seq<Edit>, es': seq<Edit>, a: nat, b: nat)
    requires a <= b <= |text| + 1
    requires forall p {:trigger Piece(text, es, p)} :: a <= p < b ==> Piece(text, es, p) == Piece(text, es', p)
    ensures Pieces(text, es, a, b) == Pieces(text, es', a, b)
    decreases b - a
  {
    hide Piece;
    if a < b {
      assert Piece(text, es, a) == Piece(text, es', a);
      PiecesSame(text, es, es', a + 1, b);
    }
  }

  /** Where no edit reaches, the text stays. */
  lemma {:induction false} PiecesUntouched(text: seq<char>, es: seq<Edit>, a: nat, b: nat)
    requires a <= b <= |text|
    requires forall p :: a <= p < b ==> !Covered(es, p) && PutAt(es, p) == []
    ensures Pieces(text, es, a, b) == text[a..b]
    decreases b - a
  {
    hide Covered, PutAt;
    if a < b {
      PiecesUntouched(text, es, a + 1, b);
      assert text[a..b] == [text[a]] + text[a + 1..b];
    }
  }

  lemma {:induction false} PutAtNone(es: seq<Edit>, p: nat)
    requires forall i :: 0 <= i < |es| ==> es[i].lo != p
    ensures PutAt(es, p) == []
  {
    if es != [] {
      PutAtNone(es[1..], p);
    }
  }

  lemma {:induction false} PutAtConcat(a: seq<Edit>, b: seq<Edit>, p: nat)
    ensures PutAt(a + b, p) == PutAt(a, p) + PutAt(b, p)
  {
    if a == [] {
      assert a + b == b;
    } else {
      assert (a + b)[1..] == a[1..] + b;
      PutAtConcat(a[1..], b, p);
    }
  }

  lemma {:induction false} PutAtOne(e: Edit, p: nat)
    ensures PutAt([e], p) == if e.lo == p then e.text else []
  {
    assert [e][1..] == [];
  }

  lemma {:induction false} CoveredMore(es: seq<Edit>, e: Edit, p: nat)
    ensures Covered(es + [e], p) <==> Covered(es, p) || e.lo <= p < e.hi
  {
    var es' := es + [e];
    assert es'[|es|] == e;
    if Covered(es, p) {
      var i :| 0 <= i < |es| && es[i].lo <= p < es[i].hi;
      assert es'[i].lo <= p < es'[i].hi;
    }
  }

  lemma {:induction false} PiecesStep(text: seq<char>, es: seq<Edit>, a: nat, b: nat)
    requires a < b <= |text| + 1
    ensures Pieces(text, es, a, b) == Piece(text, es, a) + Pieces(text, es, a + 1, b)
  {}

  // ----- the order of the list does not matter --------------------------------------------------

  lemma {:induction false} PutAtOnly(es: seq<Edit>, i: nat, p: nat)
    requires i < |es| && es[i].lo == p && forall j :: 0 <= j < |es| && j != i ==> es[j].lo != p
    ensures PutAt(es, p) == es[i].text
  {
    var rest := es[1..];
    if i == 0 {
      PutAtNone(rest, p);
    } else {
      assert forall j :: 0 <= j < |rest| ==> rest[j] == es[j + 1];
      PutAtOnly(rest, i - 1, p);
    }
  }

  /** Separated edits put in at most one text at a position. */
  lemma {:induction false} PutAtSeparated(text: seq<char>, es: seq<Edit>, p: nat)
    requires Separated(es) && forall e :: e in es ==> Within(e, text)
    ensures if exists e :: e in es && e.lo == p
            then exists e :: e in es && e.lo == p && PutAt(es, p) == e.text
            else PutAt(es, p) == []
  {
    if e :| e in es && e.lo == p {
      var i :| 0 <= i < |es| && es[i] == e;
      forall j | 0 <= j < |es| && j != i
        ensures es[j].lo != p
      {
        assert Within(es[i], text) && Within(es[j], text);
        assert Apart(es[i], es[j]) || Apart(es[j], es[i]);
      }
      PutAtOnly(es, i, p);
    } else {
      PutAtNone(es, p);
    }
  }

  lemma {:induction false} SameStart(text: seq<char>, es: seq<Edit>, a: Edit, b: Edit)
    requires Separated(es) && a in es && b in es && a.lo == b.lo && Within(a, text) && Within(b, text)
    ensures a == b
  {
    var i :| 0 <= i < |es| && es[i] == a;
    var j :| 0 <= j < |es| && es[j] == b;
    assert !Apart(a, b) && !Apart(b, a);
  }

  lemma {:induction false} AnyOrder(text: seq<char>, es: seq<Edit>, es': seq<Edit>)
    requires Separated(es) && Separated(es') && (forall e :: e in es <==> e in es')
    requires forall e :: e in es ==> Within(e, text)
    ensures Substituted(text, es) == Substituted(text, es')
  {
    hide PutAt, Separated, Within;
    forall p: nat | p <= |text|
      ensures Piece(text, es, p) == Piece(text, es', p)
    {
      PutAtSeparated(text, es, p);
      PutAtSeparated(text, es', p);
      if e, e' :| e in es && e' in es && e.lo == p && e'.lo == p && PutAt(es, p) == e.text && PutAt(es', p) == e'.text {
        SameStart(text, es, e, e');
      }
      CoveredMembers(es, es', p);
      CoveredMembers(es', es, p);
    }
    hide Piece;
    PiecesSame(text, es, es', 0, |text| + 1);
  }

  lemma {:induction false} CoveredMembers(es: seq<Edit>, es': seq<Edit>, p: nat)
    requires forall e :: e in es ==> e in es'
    ensures Covered(es, p) ==> Covered(es', p)
  {
    if Covered(es, p) {
      var i :| 0 <= i < |es| && es[i].lo <= p < es[i].hi;
      assert es[i] in es;
      var j :| 0 <= j < |es'| && es'[j] == es[i];
    }
  }

  // ----- where positions move ------------------------------------------------------------------

  /** Where position q of the original text stands once the edits are made. */
  ghost function Moved(text: seq<char>, es: seq<Edit>, q: nat): nat
    requires q <= |text|
  {
    |Pieces(text, es, 0, q)|
  }

  lemma {:induction false} MovedNone(text: seq<char>, q: nat)
    requires q <= |text|
    ensures Moved(text, [], q) == q && Substituted(text, []) == text
  {
    assert Piece(text, [], |text|) == [];
    PiecesJoin(text, [], 0, |text|, |text| + 1);
    assert Pieces(text, [], |text|, |text| + 1) == Piece(text, [], |text|) + [];
    PiecesUntouched(text, [], 0, |text|);
    PiecesUntouched(text, [], 0, q);
    assert text[0..|text|] == text;
  }
}
