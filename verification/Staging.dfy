/** ide_buffer_manager_do_apply_edits: stage every edit of every buffer first,
    then apply them one after another. */
module Staging {
  import opened Substitution
  import opened TextEdits
  import opened Blocks
  import opened Swallowing

  /** The edits of one file, in the order of the list. */
  ghost function EditsOf(rs: seq<Replacement>, f: File, n: nat): (es: seq<Edit>) {
    if rs == [] then []
    else
      var last := rs[|rs| - 1];
      EditsOf(rs[..|rs| - 1], f, n) + if On(last, f) then [AsEdit(last, n)] else []
  }

  lemma {:induction false} EditsOfNext(rs: seq<Replacement>, f: File, n: nat, k: nat)
    requires k < |rs|
    ensures EditsOf(rs[..k + 1], f, n) == EditsOf(rs[..k], f, n) + if On(rs[k], f) then [AsEdit(rs[k], n)] else []
  {
    assert rs[..k + 1][..k] == rs[..k];
  }

  lemma {:induction false} EditsOfPrefix(rs: seq<Replacement>, f: File, n: nat, k: nat, m: nat)
    requires k <= m <= |rs|
    ensures EditsOf(rs[..k], f, n) <= EditsOf(rs[..m], f, n)
    decreases m - k
  {
    if k < m {
      EditsOfPrefix(rs, f, n, k, m - 1);
      EditsOfNext(rs, f, n, m - 1);
    }
  }

  lemma {:induction false} EditsOfWithin(rs: seq<Replacement>, f: File, text: seq<char>)
    ensures forall i :: 0 <= i < |EditsOf(rs, f, |text|)| ==> Within(EditsOf(rs, f, |text|)[i], text)
  {
    if rs != [] {
      EditsOfWithin(rs[..|rs| - 1], f, text);
    }
  }

  /** Of separated edits, those of a prefix of the list keep clear of a later one. */
  lemma {:induction false} PrefixApart(rs: seq<Replacement>, f: File, text: seq<char>, k: nat, j: nat)
    requires k <= j < |rs| && On(rs[j], f) && Separated(EditsOf(rs, f, |text|))
    ensures ApartFrom(EditsOf(rs[..k], f, |text|), AsEdit(rs[j], |text|))
  {
    var n := |text|;
    assert rs[..|rs|] == rs;
    EditsOfPrefix(rs, f, n, k, j);
    EditsOfNext(rs, f, n, j);
    EditsOfPrefix(rs, f, n, j + 1, |rs|);
    EditsOfWithin(rs[..k], f, text);
    var es, e, all := EditsOf(rs[..j], f, n), AsEdit(rs[j], n), EditsOf(rs, f, n);
    assert all[|es|] == e;
    forall i | 0 <= i < |EditsOf(rs[..k], f, n)|
      ensures Apart(EditsOf(rs[..k], f, n)[i], e)
    {
      assert EditsOf(rs[..k], f, n)[i] == es[i] == all[i];
      assert Apart(all[i], all[|es|]);
    }
  }

  /** Two edits of the list keep clear of each other. */
  lemma {:induction false} PairApart(rs: seq<Replacement>, f: File, text: seq<char>, k: nat, j: nat)
    requires k < j < |rs| && On(rs[k], f) && On(rs[j], f) && Separated(EditsOf(rs, f, |text|))
    ensures Apart(AsEdit(rs[k], |text|), AsEdit(rs[j], |text|))
  {
    PrefixApart(rs, f, text, k + 1, j);
    EditsOfNext(rs, f, |text|, k);
    var es := EditsOf(rs[..k + 1], f, |text|);
    assert es[|es| - 1] == AsEdit(rs[k], |text|);
  }

  // ----- the state of one buffer while the edits are applied --------------------------------------

  type Pair = (MarkId, MarkId)

  /** The marks of the edits still to come, and no others of theirs. */
  ghost predicate Marked(rs: seq<Replacement>, f: File, k: nat, marks: map<MarkId, Mark>, others: set<MarkId>,
                         ids: seq<Pair>) {
    && |ids| == |rs|
    && (forall j :: k <= j < |rs| && On(rs[j], f) ==>
          ids[j].0 in marks && ids[j].1 in marks && ids[j].0 != ids[j].1 && ids[j].0 !in others && ids[j].1 !in others)
    && PairsDiffer(rs, f, k, |rs|, ids)
    && others <= marks.Keys
    && (forall id :: id in marks && id !in others ==> Whose(rs, f, k, |rs|, id, ids))
  }

  ghost predicate PairsDiffer(rs: seq<Replacement>, f: File, from: nat, to: nat, ids: seq<Pair>)
    requires to <= |rs| == |ids|
  {
    forall i, j :: from <= i < j < to && On(rs[i], f) && On(rs[j], f) ==>
      ids[i].0 != ids[j].0 && ids[i].0 != ids[j].1 && ids[i].1 != ids[j].0 && ids[i].1 != ids[j].1
  }

  /** The mark belongs to one of these edits. */
  ghost predicate Whose(rs: seq<Replacement>, f: File, from: nat, to: nat, id: MarkId, ids: seq<Pair>)
    requires to <= |rs| == |ids|
  {
    exists j :: from <= j < to && On(rs[j], f) && (id == ids[j].0 || id == ids[j].1)
  }

  /** The range is given with its beginning first, in a text of n characters. */
  predicate Forward(r: Replacement, n: nat)
    requires r.range.Some?
  {
    Min(r.range.value.begin, n) <= Min(r.range.value.end, n)
  }

  /** A range given backwards keeps clear of the other ranges of its file. */
  ghost predicate Orderly(rs: seq<Replacement>, f: File, n: nat) {
    forall i, j :: 0 <= i < |rs| && 0 <= j < |rs| && i != j && On(rs[i], f) && On(rs[j], f) ==>
      Forward(rs[j], n) || Apart(AsEdit(rs[i], n), AsEdit(rs[j], n))
  }

  /** The first k edits are made, as one block for each group of ranges that
      meet, and the marks of the others stand around the blocks they meet. */
  ghost predicate Applied(orig: seq<char>, rs: seq<Replacement>, f: File, k: nat, text: seq<char>,
                          marks: map<MarkId, Mark>, ids: seq<Pair>)
    requires k <= |rs| == |ids|
  {
    var bs := Merged(EditsOf(rs[..k], f, |orig|));
    && text == Substituted(orig, bs)
    && forall j :: k <= j < |rs| && On(rs[j], f) ==> Stands(orig, bs, rs[j], marks, ids[j])
  }

  ghost predicate Stands(orig: seq<char>, bs: seq<Edit>, r: Replacement, marks: map<MarkId, Mark>, id: Pair) {
    && r.range.Some? && id.0 in marks && id.1 in marks
    && StandAt(orig, bs, AsEdit(r, |orig|), Forward(r, |orig|), marks[id.0], marks[id.1])
  }

  /** The marks of e: the first with left gravity, before any block that reaches
      the start of e, the second behind any block at its end; swapped when the
      range was given backwards. */
  ghost predicate StandAt(orig: seq<char>, bs: seq<Edit>, e: Edit, forward: bool, first: Mark, second: Mark) {
    var l, r := LeftAt(bs, e.lo), RightAt(bs, e.hi);
    && l <= |orig| && r <= |orig|
    && first == Mark(if forward then Moved(orig, bs, l) else MovedPast(orig, bs, r), true)
    && second == Mark(if forward then MovedPast(orig, bs, r) else Moved(orig, bs, l), false)
  }

  function Shifted(m: Mark, lo: nat, hi: nat, n: nat): Mark
    requires lo <= hi
  {
    AfterInsert(AfterDelete(m, lo, hi), lo, n)
  }

  /** A mark before the block at q, when u is applied. */
  lemma {:induction false} LowMark(orig: seq<char>, bs: seq<Edit>, u: Edit, q: nat, left: bool)
    requires BlocksOk(orig, bs) && Within(u, orig) && q <= |orig|
    requires left || q < Hull(bs, u).lo || q > Hull(bs, u).hi
    requires !left && q < Hull(bs, u).lo ==> exists p :: q <= p < Hull(bs, u).lo && !Covered(bs, p)
    ensures Hull(bs, u).lo <= Hull(bs, u).hi <= |orig|
    ensures LeftAt(bs, q) <= |orig| && LeftAt(Absorbed(bs, u), q) <= |orig|
    ensures var begin, end := Moved(orig, bs, Hull(bs, u).lo), MovedPast(orig, bs, Hull(bs, u).hi);
            begin <= end &&
            Shifted(Mark(Moved(orig, bs, LeftAt(bs, q)), left), begin, end, |u.text|)
            == Mark(Moved(orig, Absorbed(bs, u), LeftAt(Absorbed(bs, u), q)), left)
  {
    hide Hull, Moved, MovedPast, LeftAt, RightAt, Absorbed, Covered;
    var h, bs', l := Hull(bs, u), Absorbed(bs, u), LeftAt(bs, q);
    AtAfter(orig, bs, u, q);
    BlockEnds(orig, bs, q);
    HullWithin(orig, bs, u);
    AbsorbMoves(orig, bs, u, l);
    EndUncovered(orig, bs, u);
    if l < h.lo {
      MovesInOrder(orig, bs, l, h.lo);
      if !left {
        var p :| q <= p < h.lo && !Covered(bs, p);
        MovesInOrder(orig, bs, l, p);
        MovesInOrder(orig, bs, p, h.lo);
        PastAfter(orig, bs, p);
      }
    } else if l > h.hi {
      MovesInOrder(orig, bs, h.hi, l);
    } else {
      MovesInOrder(orig, bs, h.lo, l);
      MovesInOrder(orig, bs, l, h.hi);
      PastAfter(orig, bs, l);
    }
  }

  lemma {:induction false} PastAfter(orig: seq<char>, bs: seq<Edit>, q: nat)
    requires q <= |orig|
    ensures Moved(orig, bs, q) <= MovedPast(orig, bs, q)
  {}

  lemma {:induction false} EndUncovered(orig: seq<char>, bs: seq<Edit>, u: Edit)
    requires BlocksOk(orig, bs) && Within(u, orig)
    ensures !Covered(bs, Hull(bs, u).hi)
  {
    hide Covered, LeftAt, RightAt;
    BlockEnds(orig, bs, u.hi);
  }

  /** A mark behind the block at q, when u is applied. */
  lemma {:induction false} HighMark(orig: seq<char>, bs: seq<Edit>, u: Edit, q: nat, left: bool)
    requires BlocksOk(orig, bs) && Within(u, orig) && q <= |orig|
    requires !left || q < Hull(bs, u).lo || q > Hull(bs, u).hi
    ensures Hull(bs, u).lo <= Hull(bs, u).hi <= |orig|
    ensures RightAt(bs, q) <= |orig| && RightAt(Absorbed(bs, u), q) <= |orig|
    ensures var begin, end := Moved(orig, bs, Hull(bs, u).lo), MovedPast(orig, bs, Hull(bs, u).hi);
            begin <= end &&
            Shifted(Mark(MovedPast(orig, bs, RightAt(bs, q)), left), begin, end, |u.text|)
            == Mark(MovedPast(orig, Absorbed(bs, u), RightAt(Absorbed(bs, u), q)), left)
  {
    hide Hull, Moved, MovedPast, LeftAt, RightAt, Absorbed, Covered;
    var h, bs', r := Hull(bs, u), Absorbed(bs, u), RightAt(bs, q);
    AtAfter(orig, bs, u, q);
    BlockEnds(orig, bs, q);
    HullWithin(orig, bs, u);
    AbsorbMoves(orig, bs, u, r);
    EndUncovered(orig, bs, u);
    PastAfter(orig, bs, r);
    if r < h.lo {
      MovesInOrder(orig, bs, r, h.lo);
    } else if r > h.hi {
      MovesInOrder(orig, bs, h.hi, r);
    } else {
      MovesInOrder(orig, bs, h.lo, r);
      MovesInOrder(orig, bs, r, h.hi);
    }
  }

  /** Applying u moves the marks of another edit to where they have to stand. */
  lemma {:induction false} StandsOn(orig: seq<char>, bs: seq<Edit>, u: Edit, e: Edit, forward: bool, first: Mark,
                                    second: Mark)
    requires BlocksOk(orig, bs) && Within(u, orig) && Within(e, orig) && StandAt(orig, bs, e, forward, first, second)
    requires !forward ==> Apart(u, e) && forall b :: b in bs ==> Apart(b, e)
    ensures Hull(bs, u).lo <= Hull(bs, u).hi <= |orig|
    ensures var begin, end := Moved(orig, bs, Hull(bs, u).lo), MovedPast(orig, bs, Hull(bs, u).hi);
            && begin <= end
            && StandAt(orig, Absorbed(bs, u), e, forward, Shifted(first, begin, end, |u.text|),
              Shifted(second, begin, end, |u.text|))
  {
    hide Hull, Moved, MovedPast, LeftAt, RightAt, Absorbed, Covered, Shifted;
    if !forward {
      HullApart(orig, bs, u, e);
      HullWithin(orig, bs, u);
      CoveredIs(bs, e.hi);
      assert !Covered(bs, e.hi);
      assert e.lo < Hull(bs, u).lo ==> e.lo <= e.hi < Hull(bs, u).lo;
    }
    LowMark(orig, bs, u, e.lo, forward);
    HighMark(orig, bs, u, e.hi, !forward);
  }

  lemma {:induction false} MergedNext(rs: seq<Replacement>, f: File, n: nat, k: nat)
    requires k < |rs| && On(rs[k], f)
    ensures Merged(EditsOf(rs[..k + 1], f, n)) == Absorbed(Merged(EditsOf(rs[..k], f, n)), AsEdit(rs[k], n))
  {
    EditsOfNext(rs, f, n, k);
    var es, e := EditsOf(rs[..k], f, n), AsEdit(rs[k], n);
    assert (es + [e])[..|es|] == es && (es + [e])[|es|] == e;
  }

  lemma {:induction false} EditsOfMember(rs: seq<Replacement>, f: File, n: nat, e: Edit)
    requires e in EditsOf(rs, f, n)
    ensures exists i :: 0 <= i < |rs| && On(rs[i], f) && e == AsEdit(rs[i], n)
  {
    var k := |rs| - 1;
    if e in EditsOf(rs[..k], f, n) {
      EditsOfMember(rs[..k], f, n, e);
      var i :| 0 <= i < k && On(rs[..k][i], f) && e == AsEdit(rs[..k][i], n);
      assert rs[..k][i] == rs[i];
    }
  }

  /** A later edit given backwards keeps clear of the blocks made before it. */
  lemma {:induction false} BackwardApart(orig: seq<char>, rs: seq<Replacement>, f: File, k: nat, j: nat)
    requires k <= j < |rs| && On(rs[j], f) && Orderly(rs, f, |orig|) && !Forward(rs[j], |orig|)
    ensures forall b :: b in Merged(EditsOf(rs[..k], f, |orig|)) ==> Apart(b, AsEdit(rs[j], |orig|))
  {
    var es, v := EditsOf(rs[..k], f, |orig|), AsEdit(rs[j], |orig|);
    EditsOfWithin(rs[..k], f, orig);
    forall i | 0 <= i < |es|
      ensures Apart(es[i], v)
    {
      assert es[i] in es;
      EditsOfMember(rs[..k], f, |orig|, es[i]);
      var x :| 0 <= x < |rs[..k]| && On(rs[..k][x], f) && es[i] == AsEdit(rs[..k][x], |orig|);
      assert rs[..k][x] == rs[x];
    }
    MergedApart(orig, es, v);
  }

  /** Edit k, applied between its marks, swallows the blocks it meets. */
  lemma {:induction false} ApplyOn(orig: seq<char>, rs: seq<Replacement>, f: File, k: nat, text: seq<char>,
                                   marks: map<MarkId, Mark>,
                                   ids: seq<Pair>, text': seq<char>, marks': map<MarkId, Mark>, others: set<MarkId>)
    requires k < |rs| == |ids| && On(rs[k], f) && Orderly(rs, f, |orig|)
    requires Applied(orig, rs, f, k, text, marks, ids) && Marked(rs, f, k, marks, others, ids)
    requires ids[k].0 in marks && ids[k].1 in marks
    requires var a, b := marks[ids[k].0].offset, marks[ids[k].1].offset;
             var lo, hi := Min(a, b), Max(a, b);
             && hi <= |text| && text' == text[..lo] + rs[k].text + text[hi..]
             && marks' == AppliedMarks(marks, lo, hi, |rs[k].text|) - {ids[k].0, ids[k].1}
    ensures Applied(orig, rs, f, k + 1, text', marks', ids)
  {
    hide Moved, MovedPast, Substituted, LeftAt, RightAt, Merged, Absorbed, StandAt;
    var bs, u := Merged(EditsOf(rs[..k], f, |orig|)), AsEdit(rs[k], |orig|);
    EditsOfWithin(rs[..k], f, orig);
    MergedOk(orig, EditsOf(rs[..k], f, |orig|));
    MergedNext(rs, f, |orig|, k);
    assert Stands(orig, bs, rs[k], marks, ids[k]);
    AbsorbText(orig, bs, u);
    OwnMarksAt(orig, bs, u, Forward(rs[k], |orig|), marks[ids[k].0], marks[ids[k].1]);
    forall j | k + 1 <= j < |rs| && On(rs[j], f)
      ensures Stands(orig, Absorbed(bs, u), rs[j], marks', ids[j])
    {
      LaterStands(orig, rs, f, k, j, bs, marks, marks', ids, others);
    }
  }

  lemma {:induction false} OwnMarksAt(orig: seq<char>, bs: seq<Edit>, u: Edit, forward: bool, first: Mark, second: Mark)
    requires BlocksOk(orig, bs) && Within(u, orig) && StandAt(orig, bs, u, forward, first, second)
    ensures Hull(bs, u).lo <= Hull(bs, u).hi <= |orig|
    ensures Min(first.offset, second.offset) == Moved(orig, bs, Hull(bs, u).lo)
    ensures Max(first.offset, second.offset) == MovedPast(orig, bs, Hull(bs, u).hi)
  {
    hide Moved, MovedPast, LeftAt, RightAt;
    AbsorbText(orig, bs, u);
  }

  lemma {:induction false} LaterStands(orig: seq<char>, rs: seq<Replacement>, f: File, k: nat, j: nat, bs: seq<Edit>,
                                       marks: map<MarkId, Mark>, marks': map<MarkId, Mark>, ids: seq<Pair>,
                                         others: set<MarkId>)
    requires k < j < |rs| == |ids| && On(rs[k], f) && On(rs[j], f) && Orderly(rs, f, |orig|)
    requires bs == Merged(EditsOf(rs[..k], f, |orig|)) && Stands(orig, bs, rs[j], marks, ids[j])
    requires Marked(rs, f, k, marks, others, ids)
    requires Hull(bs, AsEdit(rs[k], |orig|)).lo <= |orig| && Hull(bs, AsEdit(rs[k], |orig|)).hi <= |orig|
    requires var h := Hull(bs, AsEdit(rs[k], |orig|));
             var lo, hi := Moved(orig, bs, h.lo), MovedPast(orig, bs, h.hi);
             lo <= hi && marks' == AppliedMarks(marks, lo, hi, |rs[k].text|) - {ids[k].0, ids[k].1}
    ensures Stands(orig, Absorbed(bs, AsEdit(rs[k], |orig|)), rs[j], marks', ids[j])
  {
    hide Moved, MovedPast, LeftAt, RightAt, Merged, Absorbed, StandAt, Hull;
    var u, e := AsEdit(rs[k], |orig|), AsEdit(rs[j], |orig|);
    EditsOfWithin(rs[..k], f, orig);
    MergedOk(orig, EditsOf(rs[..k], f, |orig|));
    if !Forward(rs[j], |orig|) {
      BackwardApart(orig, rs, f, k, j);
      assert Apart(u, e);
    }
    StandsOn(orig, bs, u, e, Forward(rs[j], |orig|), marks[ids[j].0], marks[ids[j].1]);
  }

  lemma {:induction false} ApplyOff(orig: seq<char>, rs: seq<Replacement>, f: File, k: nat, text: seq<char>,
                                    marks: map<MarkId, Mark>, ids: seq<Pair>, others: set<MarkId>)
    requires k < |rs| == |ids| && !On(rs[k], f)
    ensures Applied(orig, rs, f, k, text, marks, ids) ==> Applied(orig, rs, f, k + 1, text, marks, ids)
    ensures Marked(rs, f, k, marks, others, ids) ==> Marked(rs, f, k + 1, marks, others, ids)
  {
    hide Stands, Whose, PairsDiffer, Substituted;
    EditsOfNext(rs, f, |orig|, k);
    assert EditsOf(rs[..k], f, |orig|) + [] == EditsOf(rs[..k], f, |orig|);
    forall id: MarkId
      ensures Whose(rs, f, k, |rs|, id, ids) ==> Whose(rs, f, k + 1, |rs|, id, ids)
    {
      WhoseLater(rs, f, k, id, ids);
    }
    PairsLater(rs, f, k, ids);
  }

  lemma {:induction false} WhoseLater(rs: seq<Replacement>, f: File, k: nat, id: MarkId, ids: seq<Pair>)
    requires k < |rs| == |ids|
    ensures Whose(rs, f, k, |rs|, id, ids) ==>
              Whose(rs, f, k + 1, |rs|, id, ids) || (On(rs[k], f) && (id == ids[k].0 || id == ids[k].1))
  {
    if Whose(rs, f, k, |rs|, id, ids) {
      var j :| k <= j < |rs| && On(rs[j], f) && (id == ids[j].0 || id == ids[j].1);
    }
  }

  lemma {:induction false} PairsLater(rs: seq<Replacement>, f: File, k: nat, ids: seq<Pair>)
    requires k < |rs| == |ids|
    ensures PairsDiffer(rs, f, k, |rs|, ids) ==> PairsDiffer(rs, f, k + 1, |rs|, ids)
  {}

  lemma {:induction false} MarkedOn(rs: seq<Replacement>, f: File, k: nat, marks: map<MarkId, Mark>,
                                    marks': map<MarkId, Mark>, others: set<MarkId>, ids: seq<Pair>)
    requires k < |rs| && On(rs[k], f) && Marked(rs, f, k, marks, others, ids)
    requires marks'.Keys == marks.Keys - {ids[k].0, ids[k].1}
    ensures Marked(rs, f, k + 1, marks', others, ids)
  {
    hide Whose;
    forall id | id in marks' && id !in others
      ensures Whose(rs, f, k + 1, |rs|, id, ids)
    {
      WhoseLater(rs, f, k, id, ids);
    }
  }

  lemma {:induction false} AllApplied(orig: seq<char>, rs: seq<Replacement>, f: File, text: seq<char>,
                                      marks: map<MarkId, Mark>, ids: seq<Pair>, others: set<MarkId>)
    requires |rs| == |ids|
    ensures Applied(orig, rs, f, |rs|, text, marks, ids) ==> text == Substituted(orig, Merged(EditsOf(rs, f, |orig|)))
    ensures Marked(rs, f, |rs|, marks, others, ids) ==> marks.Keys == others
  {
    hide Substituted, Merged;
    assert rs[..|rs|] == rs;
  }

  // ----- the state of one buffer while the marks are staged ---------------------------------------

  ghost predicate MarksAt(r: Replacement, n: nat, marks: map<MarkId, Mark>, id: Pair) {
    && r.range.Some? && id.0 in marks && id.1 in marks && id.0 != id.1
    && marks[id.0] == Mark(Min(r.range.value.begin, n), true)
    && marks[id.1] == Mark(Min(r.range.value.end, n), false)
  }

  ghost predicate Staged(rs: seq<Replacement>, f: File, k: nat, n: nat, marks: map<MarkId, Mark>, others: set<MarkId>,
                         ids: seq<Pair>)
    requires k <= |rs|
  {
    && |ids| == |rs|
    && OwnMarks(rs, f, k, n, marks, others, ids)
    && PairsDiffer(rs, f, 0, k, ids)
    && others <= marks.Keys
    && (forall id :: id in marks && id !in others ==> Whose(rs, f, 0, k, id, ids))
  }

  ghost predicate OwnMarks(rs: seq<Replacement>, f: File, k: nat, n: nat, marks: map<MarkId, Mark>, others: set<MarkId>,
                           ids: seq<Pair>)
    requires k <= |rs| == |ids|
  {
    forall j :: 0 <= j < k && On(rs[j], f) ==>
      MarksAt(rs[j], n, marks, ids[j]) && ids[j].0 !in others && ids[j].1 !in others
  }

  lemma {:induction false} StageMarks(rs: seq<Replacement>, f: File, k: nat, n: nat, marks: map<MarkId, Mark>,
                                      marks': map<MarkId, Mark>,
                                      others: set<MarkId>, ids: seq<Pair>, ids': seq<Pair>)
    requires k <= |rs| == |ids| == |ids'| && OwnMarks(rs, f, k, n, marks, others, ids)
    requires forall j :: 0 <= j < k ==> ids'[j] == ids[j]
    requires forall id :: id in marks ==> id in marks' && marks'[id] == marks[id]
    ensures OwnMarks(rs, f, k, n, marks', others, ids')
  {
    forall j | 0 <= j < k && On(rs[j], f)
      ensures MarksAt(rs[j], n, marks', ids'[j]) && ids'[j].0 !in others && ids'[j].1 !in others
    {
      assert MarksAt(rs[j], n, marks, ids[j]);
    }
  }

  lemma {:induction false} StageWhose(rs: seq<Replacement>, f: File, k: nat, id: MarkId, ids: seq<Pair>,
                                      ids': seq<Pair>)
    requires k < |rs| == |ids| == |ids'| && forall j :: 0 <= j < k ==> ids'[j] == ids[j]
    ensures Whose(rs, f, 0, k, id, ids) ==> Whose(rs, f, 0, k + 1, id, ids')
    ensures On(rs[k], f) && (id == ids'[k].0 || id == ids'[k].1) ==> Whose(rs, f, 0, k + 1, id, ids')
  {
    if Whose(rs, f, 0, k, id, ids) {
      var j :| 0 <= j < k && On(rs[j], f) && (id == ids[j].0 || id == ids[j].1);
      assert On(rs[j], f) && (id == ids'[j].0 || id == ids'[j].1);
    }
  }

  lemma {:induction false} PairsIn(rs: seq<Replacement>, f: File, k: nat, n: nat, marks: map<MarkId, Mark>,
                                   others: set<MarkId>, ids: seq<Pair>, j: nat)
    requires k <= |rs| == |ids| && j < k && On(rs[j], f) && OwnMarks(rs, f, k, n, marks, others, ids)
    ensures ids[j].0 in marks && ids[j].1 in marks
  {}

  lemma {:induction false} StagePairs(rs: seq<Replacement>, f: File, k: nat, n: nat, marks: map<MarkId, Mark>,
                                      others: set<MarkId>, ids: seq<Pair>, ids': seq<Pair>)
    requires k < |rs| == |ids| == |ids'| && OwnMarks(rs, f, k, n, marks, others, ids) && PairsDiffer(rs, f, 0, k, ids)
    requires forall j :: 0 <= j < k ==> ids'[j] == ids[j]
    requires On(rs[k], f) ==> ids'[k].0 !in marks && ids'[k].1 !in marks
    ensures PairsDiffer(rs, f, 0, k + 1, ids')
  {
    hide OwnMarks;
    forall i, j | 0 <= i < j < k + 1 && On(rs[i], f) && On(rs[j], f)
      ensures ids'[i].0 != ids'[j].0 && ids'[i].0 != ids'[j].1 && ids'[i].1 != ids'[j].0 && ids'[i].1 != ids'[j].1
    {
      if j == k {
        PairsIn(rs, f, k, n, marks, others, ids, i);
      }
    }
  }

  lemma {:induction false} StageOn(rs: seq<Replacement>, f: File, k: nat, n: nat, marks: map<MarkId, Mark>,
                                   marks': map<MarkId, Mark>,
                                   others: set<MarkId>, ids: seq<Pair>, ids': seq<Pair>)
    requires k < |rs| && On(rs[k], f) && Staged(rs, f, k, n, marks, others, ids) && |ids'| == |rs|
    requires ids'[..k] == ids[..k]
    requires var id := ids'[k];
             && id.0 != id.1 && id.0 !in marks && id.1 !in marks
             && marks' ==
               marks[id.0 := Mark(Min(rs[k].range.value.begin, n), true)][id.1 := Mark(Min(rs[k].range.value.end, n),
               false)]
    ensures Staged(rs, f, k + 1, n, marks', others, ids')
  {
    hide OwnMarks, PairsDiffer, Whose;
    SamePrefix(ids, ids', k);
    StageMarks(rs, f, k, n, marks, marks', others, ids, ids');
    StagePairs(rs, f, k, n, marks, others, ids, ids');
    forall id | id in marks' && id !in others
      ensures Whose(rs, f, 0, k + 1, id, ids')
    {
      StageWhose(rs, f, k, id, ids, ids');
    }
    OwnMore(rs, f, k, n, marks', others, ids');
  }

  lemma {:induction false} OwnMore(rs: seq<Replacement>, f: File, k: nat, n: nat, marks: map<MarkId, Mark>,
                                   others: set<MarkId>, ids: seq<Pair>)
    requires k < |rs| == |ids| && OwnMarks(rs, f, k, n, marks, others, ids)
    requires On(rs[k], f) ==> MarksAt(rs[k], n, marks, ids[k]) && ids[k].0 !in others && ids[k].1 !in others
    ensures OwnMarks(rs, f, k + 1, n, marks, others, ids)
  {
    hide MarksAt;
  }

  lemma {:induction false} SamePrefix(ids: seq<Pair>, ids': seq<Pair>, k: nat)
    requires k <= |ids| == |ids'| && ids'[..k] == ids[..k]
    ensures forall j :: 0 <= j < k ==> ids'[j] == ids[j]
  {
    forall j | 0 <= j < k
      ensures ids'[j] == ids[j]
    {
      assert ids'[..k][j] == ids[..k][j];
    }
  }

  lemma {:induction false} StageOff(rs: seq<Replacement>, f: File, k: nat, n: nat, marks: map<MarkId, Mark>,
                                    others: set<MarkId>, ids: seq<Pair>, ids': seq<Pair>)
    requires k < |rs| && !On(rs[k], f) && Staged(rs, f, k, n, marks, others, ids) && |ids'| == |rs|
    requires ids'[..k] == ids[..k]
    ensures Staged(rs, f, k + 1, n, marks, others, ids')
  {
    hide OwnMarks, PairsDiffer, Whose;
    SamePrefix(ids, ids', k);
    StageMarks(rs, f, k, n, marks, marks, others, ids, ids');
    StagePairs(rs, f, k, n, marks, others, ids, ids');
    forall id | id in marks && id !in others
      ensures Whose(rs, f, 0, k + 1, id, ids')
    {
      StageWhose(rs, f, k, id, ids, ids');
    }
    OwnMore(rs, f, k, n, marks, others, ids');
  }

  /** Once all marks are staged, none of the edits is made yet. */
  lemma {:induction false} AllStagedReady(orig: seq<char>, rs: seq<Replacement>, f: File, marks: map<MarkId, Mark>,
                                          others: set<MarkId>, ids: seq<Pair>)
    requires Staged(rs, f, |rs|, |orig|, marks, others, ids)
    ensures Applied(orig, rs, f, 0, orig, marks, ids) && Marked(rs, f, 0, marks, others, ids)
  {
    hide Moved, Substituted;
    assert rs[..0] == [];
    forall q: nat | q <= |orig|
      ensures Moved(orig, [], q) == q && Substituted(orig, []) == orig
    {
      MovedNone(orig, q);
    }
    MovedNone(orig, 0);
    forall j | 0 <= j < |rs| && On(rs[j], f)
      ensures Stands(orig, [], rs[j], marks, ids[j])
    {
      assert MarksAt(rs[j], |orig|, marks, ids[j]);
    }
  }

  // ----- the three loops ----------------------------------------------------------------------------

  ghost function BufferSet(buffers: map<File, TextBuffer?>): set<TextBuffer> {
    set f | f in buffers && buffers[f] != null :: buffers[f]
  }

  ghost function Whats(edits: seq<TextEdit>): seq<Replacement> {
    seq(|edits|, i requires 0 <= i < |edits| => edits[i].what)
  }

  ghost function Ids(edits: seq<TextEdit>): seq<Pair>
    reads edits
  {
    seq(|edits|, i requires 0 <= i < |edits| reads edits => (edits[i].beginMark, edits[i].endMark))
  }

  /** Different files have different buffers. */
  ghost predicate OneBufferEach(buffers: map<File, TextBuffer?>) {
    forall f, g :: f in buffers && g in buffers && f != g && buffers[f] != null ==> buffers[f] != buffers[g]
  }

  ghost predicate Loaded(buffers: map<File, TextBuffer?>, f: File) {
    f in buffers && buffers[f] != null
  }

  ghost function Texts(buffers: map<File, TextBuffer?>): map<File, seq<char>>
    reads BufferSet(buffers)
  {
    map f | f in buffers && buffers[f] != null :: buffers[f].text
  }

  ghost function Others(buffers: map<File, TextBuffer?>): map<File, set<MarkId>>
    reads BufferSet(buffers)
  {
    map f | f in buffers && buffers[f] != null :: buffers[f].marks.Keys
  }

  /** Each text is the simultaneous substitution of the merged edits of its file,
      and so of the edits themselves where they are separated; all marks of the
      edits are gone again. */
  method DoApplyEdits(buffers: map<File, TextBuffer?>, edits: seq<TextEdit>)
    requires forall i, j :: 0 <= i < j < |edits| ==> edits[i] != edits[j]
    requires OneBufferEach(buffers) && forall f :: Loaded(buffers, f) ==> buffers[f].Valid()
    modifies edits, BufferSet(buffers)
    ensures forall f :: Loaded(buffers, f) ==>
              && buffers[f].Valid()
              && buffers[f].marks.Keys == old(buffers[f].marks).Keys
              && Replaced(Whats(edits), f, old(buffers[f].text), buffers[f].text)
  {
    hide Staged, Applied, Marked, Substituted, Orderly, Merged, Replaced;
    ghost var rs, texts, others := Whats(edits), Texts(buffers), Others(buffers);
    forall f | Loaded(buffers, f)
      ensures Staged(rs, f, 0, |texts[f]|, buffers[f].marks, others[f], Ids(edits))
    {
      StageNone(rs, f, |texts[f]|, buffers[f].marks, Ids(edits));
    }
    for i := 0 to |edits|
      invariant forall f :: Loaded(buffers, f) ==> buffers[f].Valid() && buffers[f].text == texts[f]
      invariant forall f :: Loaded(buffers, f) ==> Staged(rs, f, i, |texts[f]|, buffers[f].marks, others[f], Ids(edits))
    {
      StageEdit(buffers, edits, i, texts, others);
    }
    forall f | Loaded(buffers, f)
      ensures Applied(texts[f], rs, f, 0, buffers[f].text, buffers[f].marks, Ids(edits))
      ensures Marked(rs, f, 0, buffers[f].marks, others[f], Ids(edits))
    {
      AllStagedReady(texts[f], rs, f, buffers[f].marks, others[f], Ids(edits));
    }
    for i := 0 to |edits|
      invariant forall f :: Loaded(buffers, f) ==>
                  buffers[f].Valid() && Marked(rs, f, i, buffers[f].marks, others[f], Ids(edits))
      invariant forall f :: Loaded(buffers, f) && Orderly(rs, f, |texts[f]|) ==>
                  Applied(texts[f], rs, f, i, buffers[f].text, buffers[f].marks, Ids(edits))
    {
      ApplyEdit(buffers, edits, i, texts, others);
    }
    forall f | Loaded(buffers, f)
      ensures buffers[f].marks.Keys == others[f]
      ensures Replaced(rs, f, texts[f], buffers[f].text)
    {
      AllApplied(texts[f], rs, f, buffers[f].text, buffers[f].marks, Ids(edits), others[f]);
      AllReplaced(rs, f, texts[f], buffers[f].text);
    }
  }

  /** What becomes of one text: every group of ranges without an untouched
      character between them is replaced by the text applied last. That is the
      simultaneous substitution for separated edits, and otherwise exactly if
      the others of each group put in nothing. */
  ghost predicate Replaced(rs: seq<Replacement>, f: File, before: seq<char>, after: seq<char>) {
    var es := EditsOf(rs, f, |before|);
    && (Separated(es) ==> after == Substituted(before, es))
    && (Orderly(rs, f, |before|) ==>
          && after == Substituted(before, Merged(es))
          && (after == Substituted(before, es) <==> OnlyLastOnes(es)))
  }

  lemma {:induction false} AllReplaced(rs: seq<Replacement>, f: File, before: seq<char>, after: seq<char>)
    requires Orderly(rs, f, |before|) ==> after == Substituted(before, Merged(EditsOf(rs, f, |before|)))
    ensures Replaced(rs, f, before, after)
  {
    hide Orderly, Substituted, Separated, Merged, OnlyLastOnes;
    SeparatedOrderly(rs, f, before);
    EditsOfWithin(rs, f, before);
    OneByOneExactly(before, EditsOf(rs, f, |before|));
  }

  lemma {:induction false} SeparatedOrderly(rs: seq<Replacement>, f: File, text: seq<char>)
    ensures Separated(EditsOf(rs, f, |text|)) ==>
              Orderly(rs, f, |text|) && Merged(EditsOf(rs, f, |text|)) == EditsOf(rs, f, |text|)
  {
    hide Separated, Merged;
    if Separated(EditsOf(rs, f, |text|)) {
      EditsOfWithin(rs, f, text);
      MergedSeparated(text, EditsOf(rs, f, |text|));
      forall i, j | 0 <= i < |rs| && 0 <= j < |rs| && i != j && On(rs[i], f) && On(rs[j], f)
        ensures Apart(AsEdit(rs[i], |text|), AsEdit(rs[j], |text|))
      {
        PairApart(rs, f, text, if i < j then i else j, if i < j then j else i);
      }
    }
  }

  lemma {:induction false} StageNone(rs: seq<Replacement>, f: File, n: nat, marks: map<MarkId, Mark>, ids: seq<Pair>)
    requires |ids| == |rs|
    ensures Staged(rs, f, 0, n, marks, marks.Keys, ids)
  {}

  /** The body of the first loop. */
  method StageEdit(buffers: map<File, TextBuffer?>, edits: seq<TextEdit>, i: nat, ghost texts: map<File, seq<char>>,
                   ghost others: map<File, set<MarkId>>)
    requires i < |edits| && (forall x, y :: 0 <= x < y < |edits| ==> edits[x] != edits[y]) && OneBufferEach(buffers)
    requires forall f :: Loaded(buffers, f) ==>
               f in texts && f in others && buffers[f].Valid() && buffers[f].text == texts[f]
    requires forall f :: Loaded(buffers, f) ==>
               Staged(Whats(edits), f, i, |texts[f]|, buffers[f].marks, others[f], Ids(edits))
    modifies edits[i], BufferSet(buffers)
    ensures forall f :: Loaded(buffers, f) ==> buffers[f].Valid() && buffers[f].text == texts[f]
    ensures forall f :: Loaded(buffers, f) ==>
              Staged(Whats(edits), f, i + 1, |texts[f]|, buffers[f].marks, others[f], Ids(edits))
  {
    hide Staged;
    ghost var rs, ids := Whats(edits), Ids(edits);
    var edit := edits[i];
    var range := edit.what.range;
    if range == None || range.value.file !in buffers || buffers[range.value.file] == null {
      forall f | Loaded(buffers, f)
        ensures Staged(rs, f, i + 1, |texts[f]|, buffers[f].marks, others[f], Ids(edits))
      {
        StageOff(rs, f, i, |texts[f]|, buffers[f].marks, others[f], ids, Ids(edits));
      }
      return;
    }
    var file := range.value.file;
    ghost var marks := buffers[file].marks;
    edit.Prepare(buffers[file]);
    assert Ids(edits)[..i] == ids[..i];
    forall f | Loaded(buffers, f)
      ensures Staged(rs, f, i + 1, |texts[f]|, buffers[f].marks, others[f], Ids(edits))
    {
      if f == file {
        StageOn(rs, f, i, |texts[f]|, marks, buffers[f].marks, others[f], ids, Ids(edits));
      } else {
        StageOff(rs, f, i, |texts[f]|, buffers[f].marks, others[f], ids, Ids(edits));
      }
    }
  }

  /** The body of the second loop. */
  method ApplyEdit(buffers: map<File, TextBuffer?>, edits: seq<TextEdit>, i: nat, ghost texts: map<File, seq<char>>,
                   ghost others: map<File, set<MarkId>>)
    requires i < |edits| && OneBufferEach(buffers)
    requires forall f :: Loaded(buffers, f) ==>
               f in texts && f in others && buffers[f].Valid() &&
                 Marked(Whats(edits), f, i, buffers[f].marks, others[f], Ids(edits))
    requires forall f :: Loaded(buffers, f) && Orderly(Whats(edits), f, |texts[f]|) ==>
               Applied(texts[f], Whats(edits), f, i, buffers[f].text, buffers[f].marks, Ids(edits))
    modifies BufferSet(buffers)
    ensures forall f :: Loaded(buffers, f) ==>
              buffers[f].Valid() && Marked(Whats(edits), f, i + 1, buffers[f].marks, others[f], Ids(edits))
    ensures forall f :: Loaded(buffers, f) && Orderly(Whats(edits), f, |texts[f]|) ==>
              Applied(texts[f], Whats(edits), f, i + 1, buffers[f].text, buffers[f].marks, Ids(edits))
  {
    hide Applied, Marked, Orderly;
    ghost var rs, ids := Whats(edits), Ids(edits);
    var edit := edits[i];
    var range := edit.what.range;
    if range == None || range.value.file !in buffers || buffers[range.value.file] == null {
      forall f | Loaded(buffers, f)
        ensures Marked(rs, f, i, buffers[f].marks, others[f], ids) ==>
                  Marked(rs, f, i + 1, buffers[f].marks, others[f], ids)
        ensures Applied(texts[f], rs, f, i, buffers[f].text, buffers[f].marks, ids) ==>
                  Applied(texts[f], rs, f, i + 1, buffers[f].text, buffers[f].marks, ids)
      {
        ApplyOff(texts[f], rs, f, i, buffers[f].text, buffers[f].marks, ids, others[f]);
      }
      return;
    }
    var file := range.value.file;
    ghost var text, marks := buffers[file].text, buffers[file].marks;
    MarkedHas(rs, file, i, marks, others[file], ids);
    edit.Apply(buffers[file]);
    forall f | Loaded(buffers, f)
      ensures Marked(rs, f, i + 1, buffers[f].marks, others[f], ids)
      ensures Orderly(rs, f, |texts[f]|) ==> Applied(texts[f], rs, f, i + 1, buffers[f].text, buffers[f].marks, ids)
    {
      if f == file {
        MarkedOn(rs, f, i, marks, buffers[f].marks, others[f], ids);
        if Orderly(rs, f, |texts[f]|) {
          ApplyOn(texts[f], rs, f, i, text, marks, ids, buffers[f].text, buffers[f].marks, others[f]);
        }
      } else {
        ApplyOff(texts[f], rs, f, i, buffers[f].text, buffers[f].marks, ids, others[f]);
      }
    }
  }

  lemma {:induction false} MarkedHas(rs: seq<Replacement>, f: File, k: nat, marks: map<MarkId, Mark>,
                                     others: set<MarkId>, ids: seq<Pair>)
    requires k < |rs| && On(rs[k], f) && Marked(rs, f, k, marks, others, ids)
    ensures |ids| == |rs| && ids[k].0 in marks && ids[k].1 in marks
  {}
}
