/** IdeTextEdit: edits staged with marks and then applied one by one to texts
    that keep moving. */
module TextEdits {
  import opened Substitution

  datatype Option<T> = None | Some(value: T)

  // ----- marks -----------------------------------------------------------------------------

  type MarkId = nat

  /** A mark with left gravity stays before text inserted at its place. */
  datatype Mark = Mark(offset: nat, left: bool)

  function AfterInsert(m: Mark, at: nat, n: nat): Mark {
    if m.offset > at || (m.offset == at && !m.left) then m.(offset := m.offset + n) else m
  }

  function AfterDelete(m: Mark, lo: nat, hi: nat): Mark
    requires lo <= hi
  {
    if m.offset <= lo then m
    else if m.offset < hi then m.(offset := lo)
    else m.(offset := m.offset - (hi - lo))
  }

  /** GtkTextBuffer, as far as text and marks go. */
  class TextBuffer {
    var text: seq<char>
    var marks: map<MarkId, Mark>
    var nextMark: MarkId

    predicate Valid()
      reads this
    {
      forall id :: id in marks ==> id < nextMark && marks[id].offset <= |text|
    }

    constructor (text: seq<char>)
      ensures Valid() && this.text == text && marks == map[]
    {
      this.text, marks, nextMark := text, map[], 0;
    }

    method CreateMark(offset: nat, left: bool) returns (id: MarkId)
      requires Valid() && offset <= |text|
      modifies `marks, `nextMark
      ensures Valid() && id !in old(marks) && marks == old(marks)[id := Mark(offset, left)]
    {
      id := nextMark;
      nextMark := nextMark + 1;
      marks := marks[id := Mark(offset, left)];
    }

    method DeleteMark(id: MarkId)
      requires Valid()
      modifies `marks
      ensures Valid() && marks == old(marks) - {id}
    {
      marks := marks - {id};
    }

    /** The two positions may come in either order. */
    method Delete(a: nat, b: nat)
      requires Valid() && a <= |text| && b <= |text|
      modifies `text, `marks
      ensures var lo, hi := Min(a, b), Max(a, b);
              && Valid() && text == old(text)[..lo] + old(text)[hi..]
              && marks == map id | id in old(marks) :: AfterDelete(old(marks)[id], lo, hi)
    {
      var lo, hi := Min(a, b), Max(a, b);
      text := text[..lo] + text[hi..];
      marks := map id | id in marks :: AfterDelete(marks[id], lo, hi);
    }

    method Insert(at: nat, ins: seq<char>)
      requires Valid() && at <= |text|
      modifies `text, `marks
      ensures Valid() && text == old(text)[..at] + ins + old(text)[at..]
      ensures marks == map id | id in old(marks) :: AfterInsert(old(marks)[id], at, |ins|)
    {
      text := text[..at] + ins + text[at..];
      marks := map id | id in marks :: AfterInsert(marks[id], at, |ins|);
    }
  }

  function Min(a: nat, b: nat): nat {
    if a <= b then a else b
  }

  function Max(a: nat, b: nat): nat {
    if a <= b then b else a
  }

  // ----- edits -----------------------------------------------------------------------------

  /** A GFile, up to g_file_equal. */
  type File = int

  /** Locations are character offsets; past the end they mean the end. */
  datatype Range = Range(file: File, begin: nat, end: nat)

  /** A range, a location or a file that is NULL makes the whole None. */
  datatype Replacement = Replacement(range: Option<Range>, text: seq<char>)

  predicate On(r: Replacement, f: File) {
    r.range.Some? && r.range.value.file == f
  }

  /** The edit a replacement asks for in a text of `n` characters. */
  function AsEdit(r: Replacement, n: nat): (e: Edit)
    requires r.range.Some?
    ensures e.lo <= e.hi <= n
  {
    var a, b := Min(r.range.value.begin, n), Min(r.range.value.end, n);
    Edit(Min(a, b), Max(a, b), r.text)
  }

  class TextEdit {
    const what: Replacement
    var beginMark: MarkId
    var endMark: MarkId

    constructor (what: Replacement)
      ensures this.what == what
    {
      this.what := what;
      beginMark, endMark := 0, 0;
    }

    /** _ide_text_edit_prepare */
    method Prepare(buffer: TextBuffer)
      requires what.range.Some? && buffer.Valid()
      modifies this, buffer`marks, buffer`nextMark
      ensures buffer.Valid() && beginMark != endMark && beginMark !in old(buffer.marks) && endMark !in old(buffer.marks)
      ensures var n := |buffer.text|;
              buffer.marks == old(buffer.marks)[beginMark := Mark(Min(what.range.value.begin, n), true)]
                                               [endMark := Mark(Min(what.range.value.end, n), false)]
    {
      var begin, end := what.range.value.begin, what.range.value.end;
      beginMark := buffer.CreateMark(Min(begin, |buffer.text|), true);
      endMark := buffer.CreateMark(Min(end, |buffer.text|), false);
    }

    /** _ide_text_edit_apply */
    method Apply(buffer: TextBuffer)
      requires buffer.Valid() && beginMark in buffer.marks && endMark in buffer.marks
      modifies buffer`text, buffer`marks
      ensures buffer.Valid()
      ensures var a, b := old(buffer.marks)[beginMark].offset, old(buffer.marks)[endMark].offset;
              var lo, hi := Min(a, b), Max(a, b);
              && hi <= |old(buffer.text)|
              && buffer.text == old(buffer.text)[..lo] + what.text + old(buffer.text)[hi..]
              && buffer.marks == AppliedMarks(old(buffer.marks), lo, hi, |what.text|) - {beginMark, endMark}
    {
      ghost var marks := buffer.marks;
      buffer.Delete(buffer.marks[beginMark].offset, buffer.marks[endMark].offset);
      buffer.Insert(buffer.marks[beginMark].offset, what.text);
      ghost var moved := buffer.marks;
      assert moved == AppliedMarks(marks, Min(marks[beginMark].offset, marks[endMark].offset),
                                   Max(marks[beginMark].offset, marks[endMark].offset), |what.text|);
      hide AppliedMarks, AfterInsert, AfterDelete, TextBuffer.Valid;
      buffer.DeleteMark(beginMark);
      buffer.DeleteMark(endMark);
      assert buffer.marks == moved - {beginMark, endMark};
    }
  }

  ghost function AppliedMarks(marks: map<MarkId, Mark>, lo: nat, hi: nat, n: nat): map<MarkId, Mark>
    requires lo <= hi
  {
    map id | id in marks :: AfterInsert(AfterDelete(marks[id], lo, hi), lo, n)
  }
}
