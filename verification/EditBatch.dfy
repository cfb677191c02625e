/** ide_buffer_manager_apply_edits_async: the buffers that are not open are
    loaded first, in any order; the edits are applied once all have arrived. */
module EditBatches {
  import opened TextEdits
  import opened Staging

  ghost function FilesOf(rs: seq<Replacement>): set<File> {
    set r | r in rs && r.range.Some? :: r.range.value.file
  }

  /** One request to apply edits: EditState and the IdeTask it belongs to. */
  class EditBatch {
    const edits: seq<TextEdit>
    var buffers: map<File, TextBuffer?>
    var toClose: map<File, TextBuffer>
    var nActive: nat
    var failed: bool

    /** How often the edits were applied, and how many errors were returned. */
    var applications: nat
    var errors: nat

    /** Files being loaded, and files whose load has failed. */
    ghost var pending: set<File>
    ghost var lost: set<File>
    /** The texts just before the edits were applied. */
    ghost var texts: map<File, seq<char>>

    ghost predicate Usable()
      reads this, BufferSet(buffers)
    {
      && (forall i, j :: 0 <= i < j < |edits| ==> edits[i] != edits[j])
      && AllReady(buffers)
    }

    /** Once the loads have been requested. */
    ghost predicate Valid()
      reads this
    {
      && InProgress(FilesOf(Whats(edits)), buffers, toClose, pending, lost, nActive, failed)
      && applications == (if pending == {} && lost == {} then 1 else 0)
      && errors == (if failed then 1 else 0)
    }

    ghost function State(): Progress
      reads this
    {
      Progress(pending, lost, applications)
    }

    constructor (edits: seq<TextEdit>)
      ensures this.edits == edits && buffers == map[] && toClose == map[] && nActive == 0 && !failed
      ensures applications == 0 && errors == 0 && pending == {} && lost == {}
    {
      this.edits := edits;
      buffers, toClose, nActive, failed := map[], map[], 0, false;
      applications, errors, pending, lost, texts := 0, 0, {}, {}, map[];
    }

    /** Finds or requests every buffer; `open` holds those the manager has.
        Without anything to load the edits are applied at once. */
    method Start(open: map<File, TextBuffer>) returns (loads: seq<File>)
      requires buffers == map[] && toClose == map[] && nActive == 0 && !failed && applications == 0 && errors == 0
      requires pending == {} && lost == {}
      requires (forall i, j :: 0 <= i < j < |edits| ==> edits[i] != edits[j])
      requires (forall f, g :: f in open && g in open && f != g ==> open[f] != open[g])
      requires forall f :: f in open ==> open[f].Valid()
      modifies this, edits, open.Values
      ensures Valid() && Usable()
      ensures pending == FilesOf(Whats(edits)) - open.Keys && lost == {}
      ensures Lists(loads, pending) && toClose == map[] && !failed
      ensures Found(open, buffers)
      ensures applications == 1 ==> Done()
      ensures applications == 1 ==> forall f :: f in texts ==> f in open && texts[f] == old(open[f].text)
      ensures applications == 0 ==> forall b :: b in open.Values ==> unchanged(b)
      ensures forall f :: f in open && f !in buffers ==> unchanged(open[f])
    {
      hide Whats, FilesOf, Replaced, InProgress, Lists, TextBuffer.Valid, Found, AllReady, Loaded, Done, Texts,
        BufferSet, Usable;
      loads := RequestBuffers(open);
      BuffersUsable(open);
      if nActive == 0 {
        ApplyOpen(open);
      }
    }

    lemma {:induction false} BuffersUsable(open: map<File, TextBuffer>)
      requires (forall i, j :: 0 <= i < j < |edits| ==> edits[i] != edits[j]) && Found(open, buffers)
      requires (forall f, g :: f in open && g in open && f != g ==> open[f] != open[g])
      requires forall f :: f in open ==> open[f].Valid()
      ensures Usable() && BufferSet(buffers) <= open.Values
      ensures forall f :: f in Texts(buffers) ==> f in open && Texts(buffers)[f] == open[f].text
      ensures forall f :: f in open && f !in buffers ==> open[f] !in BufferSet(buffers)
    {
      hide TextBuffer.Valid, Found, AllReady, Texts, BufferSet;
      UsableOpen(open, buffers);
      OthersApart(open, buffers);
    }

    /** Nothing had to be loaded. */
    method ApplyOpen(ghost open: map<File, TextBuffer>)
      requires Usable() && nActive == 0 && !failed && applications == 0 && errors == 0
      requires InProgress(FilesOf(Whats(edits)), buffers, toClose, pending, lost, nActive, false)
      modifies edits, BufferSet(buffers), `applications, `texts
      ensures Valid() && Usable() && applications == 1 && Done() && texts == old(Texts(buffers))
    {
      hide Whats, FilesOf, Replaced, InProgress, TextBuffer.Valid, AllReady, Loaded, Done, Texts, BufferSet;
      AllOpen(FilesOf(Whats(edits)), open, buffers, toClose, pending, lost, nActive);
      Apply();
    }

    method RequestBuffers(open: map<File, TextBuffer>) returns (loads: seq<File>)
      requires buffers == map[] && toClose == map[] && nActive == 0 && pending == {} && lost == {}
      modifies `buffers, `nActive, `pending
      ensures InProgress(FilesOf(Whats(edits)), buffers, toClose, pending, lost, nActive, false)
      ensures pending == FilesOf(Whats(edits)) - open.Keys && Lists(loads, pending) && Found(open, buffers)
      ensures nActive == |pending|
    {
      hide FilesOf, Requested, InProgress, Lists, Found;
      loads := [];
      RequestedNone(open);
      assert Whats(edits)[..0] == [];
      for i := 0 to |edits|
        invariant Requested(FilesOf(Whats(edits)[..i]), open, buffers, pending, nActive, loads)
      {
        loads := Request(open, i, loads);
      }
      assert Whats(edits)[..|edits|] == Whats(edits);
      RequestedAll(FilesOf(Whats(edits)), open, buffers, pending, nActive, loads);
    }

    /** The body of the loop over the edits. */
    method Request(open: map<File, TextBuffer>, i: nat, loads: seq<File>) returns (loads': seq<File>)
      requires i < |edits| && Requested(FilesOf(Whats(edits)[..i]), open, buffers, pending, nActive, loads)
      modifies `buffers, `nActive, `pending
      ensures Requested(FilesOf(Whats(edits)[..i + 1]), open, buffers, pending, nActive, loads')
    {
      hide FilesOf, Requested;
      loads' := loads;
      FilesOfNext(Whats(edits), i);
      var range := edits[i].what.range;
      if range == None {
        return;
      }
      var file := range.value.file;
      RequestedNext(FilesOf(Whats(edits)[..i]), open, buffers, pending, nActive, loads, file);
      if file in buffers {
        return;
      }
      if file in open {
        buffers := buffers[file := open[file]];
        return;
      }
      buffers := buffers[file := null];
      nActive := nActive + 1;
      loads' := loads + [file];
      pending := pending + {file};
    }

    /** Every file has its buffer, and its text is as the edits say. */
    ghost predicate Done()
      reads this, BufferSet(buffers)
    {
      forall f :: f in FilesOf(Whats(edits)) ==>
        Loaded(buffers, f) && f in texts && Replaced(Whats(edits), f, texts[f], buffers[f].text)
    }

    method Apply()
      requires Usable() && buffers.Keys == FilesOf(Whats(edits)) && forall f :: f in buffers ==> buffers[f] != null
      modifies edits, BufferSet(buffers), `applications, `texts
      ensures applications == old(applications) + 1 && Usable() && Done()
      ensures texts == old(Texts(buffers))
    {
      hide FilesOf;
      applications := applications + 1;
      texts := Texts(buffers);
      DoApplyEdits(buffers, edits);
    }

    /** One load completes, with its buffer or, on failure, without. */
    method BufferLoaded(file: File, buffer: TextBuffer?)
      requires Valid() && Usable() && file in pending
      requires buffer != null ==> buffer.Valid() && buffer !in BufferSet(buffers)
      modifies this, edits, BufferSet(buffers), buffer
      ensures Valid() && Usable()
      ensures pending == old(pending) - {file} && lost == old(lost) + if buffer == null then {file} else {}
      ensures State() == AfterLoad(old(State()), file, buffer != null)
      ensures old(failed) ==> failed
      ensures failed ==> buffers == old(buffers) && toClose == old(toClose)
      ensures !failed ==> buffers == old(buffers)[file := buffer] && toClose == old(toClose)[file := buffer]
      ensures applications != old(applications) ==>
                && old(applications) == 0 && applications == 1 && !failed && pending == {}
                && Done() && texts == old(Texts(buffers))[file := old(if buffer == null then [] else buffer.text)]
      ensures applications == old(applications) ==> forall b :: b in old(BufferSet(buffers)) ==> unchanged(b)
    {
      hide FilesOf, Replaced, InProgress, Whats, TextBuffer.Valid, AllReady, Loaded, Done, Texts, BufferSet;
      LoadEnds(FilesOf(Whats(edits)), buffers, toClose, pending, lost, nActive, failed, file);
      if buffer != null && !failed {
        LoadSucceeds(FilesOf(Whats(edits)), buffers, toClose, pending, lost, nActive, failed, file, buffer);
      }
      nActive := nActive - 1;
      pending := pending - {file};
      if buffer == null {
        if !failed {
          failed := true;
          errors := errors + 1;
        }
        lost := lost + {file};
      }
      if failed {
        return;
      }
      KeepBuffer(file, buffer);
    }

    /** Saves the buffer, and applies the edits if it was the last to load. */
    method KeepBuffer(file: File, buffer: TextBuffer)
      requires Usable() && buffer.Valid() && buffer !in BufferSet(buffers) && file in buffers && buffers[file] == null
      requires InProgress(FilesOf(Whats(edits)), buffers[file := buffer], toClose[file := buffer], pending, lost,
                 nActive, false)
      requires (nActive == 0 <==> pending == {}) && lost == {}
      requires (nActive == 0 ==> forall f :: f in buffers && f != file ==> buffers[f] != null)
      modifies edits, BufferSet(buffers), buffer, `buffers, `toClose, `applications, `texts
      ensures Usable() && buffers == old(buffers)[file := buffer] && toClose == old(toClose)[file := buffer]
      ensures applications == old(applications) + if nActive == 0 then 1 else 0
      ensures nActive == 0 ==> Done() && texts == old(Texts(buffers))[file := old(buffer.text)]
      ensures nActive != 0 ==> unchanged(buffer) && forall b :: b in old(BufferSet(buffers)) ==> unchanged(b)
    {
      hide FilesOf, Replaced, InProgress, Whats, TextBuffer.Valid, AllReady, Loaded, Done, Texts, BufferSet;
      UsableMore(buffers, file, buffer);
      KeysOf(FilesOf(Whats(edits)), buffers[file := buffer], toClose[file := buffer], pending, lost, nActive);
      buffers := buffers[file := buffer];
      toClose := toClose[file := buffer];
      if nActive == 0 {
        Apply();
      }
    }
  }

  // ----- every order of completions -----------------------------------------------------------

  datatype Progress = Progress(pending: set<File>, lost: set<File>, applications: nat)

  ghost function AfterLoad(s: Progress, file: File, ok: bool): Progress {
    var pending := s.pending - {file};
    var lost := if ok then s.lost else s.lost + {file};
    Progress(pending, lost, if pending == {} && lost == {} then s.applications + 1 else s.applications)
  }

  ghost function AfterLoads(s: Progress, order: seq<(File, bool)>): Progress {
    if order == [] then s
    else
      var last := order[|order| - 1];
      AfterLoad(AfterLoads(s, order[..|order| - 1]), last.0, last.1)
  }

  /** Loads of these files complete one after another, each at most once. */
  ghost predicate Completions(files: set<File>, order: seq<(File, bool)>) {
    && (forall i :: 0 <= i < |order| ==> order[i].0 in files)
    && (forall i, j :: 0 <= i < j < |order| ==> order[i].0 != order[j].0)
  }

  lemma {:induction false} LoadsOutstanding(files: set<File>, order: seq<(File, bool)>)
    requires Completions(files, order)
    ensures var s := AfterLoads(Progress(files, {}, 0), order);
            && (forall f :: f in s.pending <==> f in files && (f, true) !in order && (f, false) !in order)
            && (forall f :: f in s.lost <==> (f, false) in order)
  {
    if order != [] {
      var k := |order| - 1;
      assert order == order[..k] + [order[k]];
      LoadsOutstanding(files, order[..k]);
    }
  }

  lemma {:induction false} LoadsCount(files: set<File>, order: seq<(File, bool)>)
    requires files != {} && Completions(files, order)
    ensures var s := AfterLoads(Progress(files, {}, 0), order);
            s.applications == if s.pending == {} && s.lost == {} then 1 else 0
  {
    if order != [] {
      var k := |order| - 1;
      var before := order[..k];
      LoadsCount(files, before);
      LoadsOutstanding(files, before);
      StillPending(files, order, k);
      assert order[k].0 in AfterLoads(Progress(files, {}, 0), before).pending;
    }
  }

  lemma {:induction false} StillPending(files: set<File>, order: seq<(File, bool)>, k: nat)
    requires Completions(files, order) && k < |order|
    ensures (order[k].0, true) !in order[..k] && (order[k].0, false) !in order[..k]
  {}

  /** In whatever order the loads complete, the edits are applied exactly when
      all have completed with success, and then once. */
  lemma {:induction false} AppliedExactlyOnce(files: set<File>, order: seq<(File, bool)>)
    requires files != {} && Completions(files, order)
    ensures AfterLoads(Progress(files, {}, 0), order).applications ==
              if forall f :: f in files ==> (f, true) in order then 1 else 0
  {
    hide AfterLoads;
    LoadsOutstanding(files, order);
    LoadsCount(files, order);
    var s := AfterLoads(Progress(files, {}, 0), order);
    if forall f :: f in files ==> (f, true) in order {
      NotBoth(files, order);
      assert forall f :: f !in s.pending && f !in s.lost;
      assert s.pending == {} && s.lost == {};
    } else {
      var f :| f in files && (f, true) !in order;
      assert f in s.pending || f in s.lost;
    }
  }

  lemma {:induction false} NotBoth(files: set<File>, order: seq<(File, bool)>)
    requires Completions(files, order)
    ensures forall f :: (f, false) in order ==> f in files && (f, true) !in order
  {}

  // ----- the state as values -------------------------------------------------------------------

  /** While the edits are looked through: `files` are those met so far. */
  ghost predicate Requested(files: set<File>, open: map<File, TextBuffer>, buffers: map<File, TextBuffer?>,
                            pending: set<File>, nActive: int, loads: seq<File>) {
    && buffers.Keys == files
    && Found(open, buffers)
    && pending == files - open.Keys && nActive == |pending|
    && Lists(loads, pending)
  }

  /** Open buffers are used, the others not there yet. */
  ghost predicate Found(open: map<File, TextBuffer>, buffers: map<File, TextBuffer?>) {
    forall f :: f in buffers ==> buffers[f] == if f in open then open[f] else null
  }

  /** Each of the files exactly once. */
  ghost predicate Lists(loads: seq<File>, files: set<File>) {
    && (forall f :: f in files <==> f in loads)
    && (forall x, y :: 0 <= x < y < |loads| ==> loads[x] != loads[y])
  }

  lemma {:induction false} ListsMore(loads: seq<File>, files: set<File>, file: File)
    requires Lists(loads, files) && file !in files
    ensures Lists(loads + [file], files + {file})
  {
    assert file !in loads;
  }

  lemma {:induction false} RequestedNone(open: map<File, TextBuffer>)
    ensures Requested(FilesOf([]), open, map[], {}, 0, [])
  {}

  lemma {:induction false} RequestedNext(files: set<File>, open: map<File, TextBuffer>, buffers: map<File, TextBuffer?>,
                                         pending: set<File>, nActive: int, loads: seq<File>, file: File)
    requires Requested(files, open, buffers, pending, nActive, loads)
    ensures file in buffers ==> Requested(files + {file}, open, buffers, pending, nActive, loads)
    ensures file !in buffers && file in open ==>
              Requested(files + {file}, open, buffers[file := open[file]], pending, nActive, loads)
    ensures file !in buffers && file !in open ==>
              Requested(files + {file}, open, buffers[file := null], pending + {file}, nActive + 1, loads + [file])
  {
    hide Lists;
    OneFileMore(files, open.Keys, file);
    if file !in buffers && file in open {
      FoundMore(open, buffers, file, open[file]);
    } else if file !in buffers {
      FoundMore(open, buffers, file, null);
      ListsMore(loads, pending, file);
    }
  }

  lemma {:induction false} OneFileMore(files: set<File>, known: set<File>, file: File)
    ensures file in files ==> files + {file} == files
    ensures file in known ==> (files + {file}) - known == files - known
    ensures file !in known ==> (files + {file}) - known == (files - known) + {file}
    ensures file !in known && file !in files ==> |(files + {file}) - known| == |files - known| + 1
  {
    if file !in known {
      assert (files + {file}) - known == (files - known) + {file};
    }
  }

  lemma {:induction false} FoundMore(open: map<File, TextBuffer>, buffers: map<File, TextBuffer?>, file: File,
                                     buffer: TextBuffer?)
    requires Found(open, buffers) && buffer == if file in open then open[file] else null
    ensures Found(open, buffers[file := buffer]) && buffers[file := buffer].Keys == buffers.Keys + {file}
  {}

  lemma {:induction false} RequestedAll(files: set<File>, open: map<File, TextBuffer>, buffers: map<File, TextBuffer?>,
                                        pending: set<File>, nActive: int, loads: seq<File>)
    requires Requested(files, open, buffers, pending, nActive, loads)
    ensures InProgress(files, buffers, map[], pending, {}, nActive, false)
    ensures pending == files - open.Keys && (nActive == 0 <==> pending == {})
    ensures Lists(loads, pending) && nActive == |pending|
    ensures Found(open, buffers) && buffers.Keys == files
  {
    hide Lists;
  }

  /** While loads are running: a buffer is missing exactly for those, unless a
      load has failed. */
  ghost predicate InProgress(files: set<File>, buffers: map<File, TextBuffer?>, toClose: map<File, TextBuffer>,
                             pending: set<File>, lost: set<File>, nActive: int, failed: bool) {
    && buffers.Keys == files && toClose.Keys <= files
    && pending <= files && lost <= files && pending !! lost
    && nActive == |pending| && failed == (lost != {})
    && (!failed ==> forall f :: f in buffers ==> (buffers[f] == null <==> f in pending))
  }

  lemma {:induction false} LoadEnds(files: set<File>, buffers: map<File, TextBuffer?>, toClose: map<File, TextBuffer>,
                                    pending: set<File>, lost: set<File>, nActive: int, failed: bool, file: File)
    requires InProgress(files, buffers, toClose, pending, lost, nActive, failed) && file in pending
    ensures nActive > 0 && failed == (lost != {}) && pending != {}
    ensures failed ==> InProgress(files, buffers, toClose, pending - {file}, lost, nActive - 1, true)
    ensures InProgress(files, buffers, toClose, pending - {file}, lost + {file}, nActive - 1, true)
  {
    assert |pending - {file}| == |pending| - 1;
  }

  lemma {:induction false} LoadSucceeds(files: set<File>, buffers: map<File, TextBuffer?>,
                                        toClose: map<File, TextBuffer>,
                                        pending: set<File>, lost: set<File>, nActive: int, failed: bool, file: File,
                                          buffer: TextBuffer)
    requires InProgress(files, buffers, toClose, pending, lost, nActive, failed) && file in pending && !failed
    ensures file in buffers && buffers[file] == null
    ensures InProgress(files, buffers[file := buffer], toClose[file := buffer], pending - {file}, lost, nActive - 1,
              false)
    ensures nActive - 1 == 0 <==> pending - {file} == {}
    ensures nActive - 1 == 0 ==> forall f :: f in buffers && f != file ==> buffers[f] != null
  {
    assert |pending - {file}| == |pending| - 1;
  }

  lemma {:induction false} KeysOf(files: set<File>, buffers: map<File, TextBuffer?>, toClose: map<File, TextBuffer>,
                                  pending: set<File>, lost: set<File>, nActive: int)
    requires InProgress(files, buffers, toClose, pending, lost, nActive, false)
    ensures buffers.Keys == files
  {}

  // ----- the buffers ---------------------------------------------------------------------------

  lemma {:induction false} UsableOpen(open: map<File, TextBuffer>, buffers: map<File, TextBuffer?>)
    requires Found(open, buffers)
    requires (forall f, g :: f in open && g in open && f != g ==> open[f] != open[g])
    requires forall f :: f in open ==> open[f].Valid()
    ensures AllReady(buffers) && BufferSet(buffers) <= open.Values
    ensures forall f :: f in Texts(buffers) ==> f in open && Texts(buffers)[f] == open[f].text
  {
    hide TextBuffer.Valid;
  }

  /** Open buffers of other files are not among them. */
  lemma {:induction false} OthersApart(open: map<File, TextBuffer>, buffers: map<File, TextBuffer?>)
    requires Found(open, buffers) && forall f, g :: f in open && g in open && f != g ==> open[f] != open[g]
    ensures forall f :: f in open && f !in buffers ==> open[f] !in BufferSet(buffers)
  {}

  lemma {:induction false} AllOpen(files: set<File>, open: map<File, TextBuffer>, buffers: map<File, TextBuffer?>,
                                   toClose: map<File, TextBuffer>,
                                   pending: set<File>, lost: set<File>, nActive: int)
    requires InProgress(files, buffers, toClose, pending, lost, nActive, false) && nActive == 0
    ensures pending == {} && lost == {} && buffers.Keys == files && (forall f :: f in buffers ==> buffers[f] != null)
    ensures Texts(buffers).Keys == files
  {}

  ghost predicate AllReady(buffers: map<File, TextBuffer?>)
    reads BufferSet(buffers)
  {
    OneBufferEach(buffers) && forall f :: Loaded(buffers, f) ==> buffers[f].Valid()
  }

  /** A buffer of its own joins the others. */
  lemma {:induction false} UsableMore(buffers: map<File, TextBuffer?>, file: File, buffer: TextBuffer)
    requires AllReady(buffers) && buffer !in BufferSet(buffers) && file in buffers && buffers[file] == null
    requires buffer.Valid()
    ensures AllReady(buffers[file := buffer]) && BufferSet(buffers[file := buffer]) == BufferSet(buffers) + {buffer}
    ensures Texts(buffers[file := buffer]) == Texts(buffers)[file := buffer.text]
  {
    hide TextBuffer.Valid;
    var buffers' := buffers[file := buffer];
    forall b: TextBuffer
      ensures b in BufferSet(buffers') <==> b in BufferSet(buffers) || b == buffer
    {
      if b in BufferSet(buffers) {
        var f :| f in buffers && buffers[f] == b;
        assert f in buffers' && buffers'[f] == b;
      }
      assert buffers'[file] == buffer;
    }
  }

  lemma {:induction false} FilesOfNext(rs: seq<Replacement>, i: nat)
    requires i < |rs|
    ensures FilesOf(rs[..i + 1]) ==
              if rs[i].range.Some? then FilesOf(rs[..i]) + {rs[i].range.value.file} else FilesOf(rs[..i])
  {
    assert rs[..i + 1] == rs[..i] + [rs[i]];
  }
}
