/** IdeDiagnosticsManager: the event handlers, proved to take the steps of the
    state machine. */
module Diagnostics {
  import opened TextEdits
  import opened Diagnosing
  import opened Outcomes

  class DiagnosticsManager {
    /** groups_by_file */
    var groups: map<File, Group>
    /** The group a provider carries as object data. */
    var owner: map<Provider, File>
    var queuedDiagnoseSource: bool

    /** Providers whose call has been started and has not completed. */
    var calls: set<Provider>

    ghost var leaked: map<File, nat>

    ghost function Snap(): State
      reads this
    {
      State(groups, owner, calls, queuedDiagnoseSource, leaked)
    }

    ghost predicate Valid()
      reads this
    {
      Inv(Snap())
    }

    constructor ()
      ensures Valid() && Snap() == START
    {
      groups, owner, queuedDiagnoseSource, calls, leaked := map[], map[], false, {}, map[];
      new;
      StartOk();
    }

    method FindGroup(file: File)
      modifies `groups, `leaked
      ensures Snap() == Diagnosing.FindGroup(old(Snap()), file)
    {
      if file !in groups {
        groups := groups[file := NEW_GROUP];
        leaked := leaked[file := 0];
      }
    }

    /** Notes that the file wants a diagnosis; the timer is queued unless calls
        are counted, whose completion then looks at the wish. */
    method QueueDiagnose(file: File)
      requires file in groups
      modifies `groups, `queuedDiagnoseSource
      ensures Snap() == Diagnosing.QueueDiagnose(old(Snap()), file)
      ensures old(Valid()) ==> Valid()
      ensures Wished(old(Snap()), Snap(), file) && SameEntries(old(groups), groups)
      ensures groups[file] == old(groups[file]).(needs := true) && owner == old(owner) && calls == old(calls)
    {
      hide Inv, Wished, SameEntries;
      QueueMeans(Snap(), file);
      groups := groups[file := groups[file].(needs := true)];
      if groups[file].inDiagnose == 0 && !queuedDiagnoseSource {
        queuedDiagnoseSource := true;
      }
    }

    // ----- what providers report ---------------------------------------------------------------

    /** Removes all that a provider has reported, from every group. */
    method ClearByProvider(provider: Provider) returns (changed: bool)
      modifies `groups
      ensures groups == Clear(old(groups), provider)
      ensures changed <==> SomeTable(old(groups), old(groups).Keys)
    {
      changed := false;
      var todo: set<File> := groups.Keys;
      ghost var before := groups;
      while todo != {}
        invariant todo <= groups.Keys == before.Keys
        invariant ClearedOutside(before, groups, provider, todo)
        invariant changed <==> SomeTable(before, before.Keys - todo)
        decreases |todo|
      {
        Nonempty(todo);
        var file :| file in todo;
        var group := groups[file];
        ClearOne(before, groups, provider, todo, file);
        if group.table.Some? {
          var table := group.table.value - {provider};
          groups := groups[file := group.(table := if table == map[] then None else Some(table))];
          changed := true;
        }
        todo := todo - {file};
      }
      ClearedAll(before, groups, provider, todo);
    }

    /** The diagnostic goes to the end of what the provider has reported for its
        file; nothing else that was reported changes, and no schedule. */
    method AddDiagnostic(provider: Provider, diagnostic: Diagnostic)
      requires leaked.Keys == groups.Keys
      modifies `groups, `leaked
      ensures groups == AddOne(old(groups), provider, diagnostic)
      ensures leaked == Extended(old(leaked), groups)
      ensures old(Valid()) ==> Valid()
      ensures forall f: File, q: Provider :: Entries(groups, f, q) ==
                old(Entries(groups, f, q)) + if q == provider && diagnostic.file == Some(f) then [diagnostic] else []
      ensures forall f :: f in old(groups) ==> f in groups && SameSchedule(old(groups)[f], groups[f])
      ensures forall f :: f in old(groups) && diagnostic.file != Some(f) ==> groups[f] == old(groups)[f]
    {
      hide Inv, Entries, GroupAdd, SameSchedule;
      AddOneMeans(Snap(), provider, diagnostic);
      SameLeaks(leaked, groups);
      if diagnostic.file == None {
        return;
      }
      var file := diagnostic.file.value;
      FindGroup(file);
      groups := groups[file := GroupAdd(groups[file], provider, diagnostic)];
    }

    /** ide_diagnostics_group_diagnose_cb.  `changed` tells whether the signal is
        emitted. */
    method DiagnoseCb(provider: Provider, result: Option<seq<Diagnostic>>) returns (changed: bool)
      requires provider in calls && leaked.Keys == groups.Keys && (provider in owner ==> owner[provider] in groups)
      modifies this
      ensures Snap() == Completed(old(Snap()), provider, result)
      ensures old(provider !in owner) ==> Snap() == old(Snap()).(flights := old(calls) - {provider})
      ensures old(Valid() && provider in owner) ==>
                ReportedTo(old(Snap()), Snap(), provider, if result.Some? then result.value else [])
      ensures changed <==>
                provider in owner && (SomeTable(old(groups), old(groups).Keys) || (result.Some? && result.value != []))
    {
      hide SomeTable, Clear, AddAll, Extended, Completed, CanDispose, Diagnosing.QueueDiagnose, Inv, Wished,
        SameEntries, ReportedTo;
      ghost var s0 := Snap();
      ReportMeans(s0, provider, result);
      ghost var ds := if result.Some? then result.value else [];
      calls := calls - {provider};
      changed := false;
      CompletedUnowned(s0, provider, result);
      if provider !in owner {
        return;
      }
      var file := owner[provider];
      ClearSchedule(s0.groups, provider);
      changed := ClearByProvider(provider);
      SameLeaks(leaked, groups);
      if result.Some? {
        AddDiagnostics(provider, result.value);
        if result.value != [] {
          changed := true;
        }
      } else {
        AddAllNone(groups, provider);
      }
      AddAllKeys(Clear(s0.groups, provider), provider, ds);
      ghost var all := groups;
      groups := groups[file := groups[file].(inDiagnose := groups[file].inDiagnose - 1,
        sequence := groups[file].sequence + 1)];
      CompletedOwned(s0, provider, result, all, groups, leaked);
      NextDiagnosis(file);
    }

    /** The last call queues the next diagnosis, if one is wanted; a group without
        adapter and diagnostics goes. */
    method NextDiagnosis(file: File)
      requires file in groups
      modifies `groups, `queuedDiagnoseSource, `leaked
      ensures var s, g := old(Snap()), old(groups[file]);
              Snap() ==
                if !g.wasRemoved && g.inDiagnose == 0 && g.needs then Diagnosing.QueueDiagnose(s, file)
                else if CanDispose(g) then s.(groups := s.groups - {file}, leaked := s.leaked - {file})
                else s
    {
      hide Inv, Wished, SameEntries, CanDispose, Diagnosing.QueueDiagnose;
      var group := groups[file];
      if !group.wasRemoved && group.inDiagnose == 0 && group.needs {
        QueueDiagnose(file);
      } else if CanDispose(group) {
        groups := groups - {file};
        leaked := leaked - {file};
      }
    }

    method AddDiagnostics(provider: Provider, diagnostics: seq<Diagnostic>)
      requires leaked.Keys == groups.Keys
      modifies `groups, `leaked
      ensures groups == AddAll(old(groups), provider, diagnostics) && leaked == Extended(old(leaked), groups)
    {
      hide Inv, Entries, SameSchedule;
      ghost var before := groups;
      SameLeaks(leaked, groups);
      for i := 0 to |diagnostics|
        invariant groups == AddAll(before, provider, diagnostics[..i])
        invariant leaked == Extended(old(leaked), groups) && before.Keys <= groups.Keys
      {
        assert diagnostics[..i + 1][..i] == diagnostics[..i];
        MoreLeaks(old(leaked), groups, provider, diagnostics[i]);
        AddDiagnostic(provider, diagnostics[i]);
      }
      assert diagnostics[..|diagnostics|] == diagnostics;
    }

    // ----- the schedule ----------------------------------------------------------------------------

    /** ide_diagnostics_group_diagnose_foreach */
    method DiagnoseForeach(provider: Provider)
      requires provider in owner && owner[provider] in groups
      modifies `groups, `calls
      ensures groups == Counting(old(groups), owner[provider]) && calls == old(calls) + {provider}
    {
      var own := owner[provider];
      groups := groups[own := groups[own].(inDiagnose := groups[own].inDiagnose + 1)];
      calls := calls + {provider};
    }

    /** Every extension of the group starts a call. */
    method GroupDiagnose(file: File)
      requires file in groups && Begins(groups[file])
      requires forall p :: p in Extensions(groups[file]) ==> p in owner && owner[p] == file
      modifies `groups, `calls
      ensures groups == old(groups)[file := Begun(old(groups)[file])]
      ensures calls == old(calls) + Extensions(old(groups)[file])
    {
      ghost var before, all := groups, Extensions(groups[file]);
      hide Starting, Begins, Begun, Counting;
      StartingNone(before, file);
      groups := groups[file := groups[file].(needs := false)];
      groups := groups[file := groups[file].(hasDiagnostics := false)];
      var todo := Extensions(groups[file]);
      ghost var n := 0;
      while todo != {}
        invariant todo <= all && n == |all| - |todo|
        invariant groups == Starting(before, file, n)
        invariant calls == old(calls) + (all - todo)
        decreases |todo|
      {
        Nonempty(todo);
        var provider :| provider in todo;
        StartingMore(before, file, n);
        OneLess(all, todo, provider);
        n := n + 1;
        DiagnoseForeach(provider);
        todo := todo - {provider};
      }
      StartingAll(before, file, all, todo);
    }

    /** One group of those still to do. */
    method BeginOne(file: File, ghost s0: State, ghost todo: set<File>)
      requires Inv(s0) && file in todo && todo <= s0.groups.Keys && owner == s0.owner
      requires groups == PartFired(s0.groups, todo) && calls == s0.flights + StartedIn(s0.groups, s0.groups.Keys - todo)
      modifies `groups, `calls
      ensures groups == PartFired(s0.groups, todo - {file})
      ensures calls == s0.flights + StartedIn(s0.groups, s0.groups.Keys - (todo - {file}))
      ensures todo - {file} <= s0.groups.Keys && |todo - {file}| < |todo|
    {
      hide Inv, PartFired, StartedIn, Begun, Extensions;
      FiredMore(s0.groups, todo, file);
      if groups[file].needs && groups[file].adapter.Some? && groups[file].inDiagnose == 0 {
        OwnersOf(s0, file);
        GroupDiagnose(file);
      }
    }

    /** The timer fires: every group that wants a diagnosis and has none under
        way starts one. */
    method BeginDiagnose()
      requires Valid() && queuedDiagnoseSource
      modifies `groups, `calls, `queuedDiagnoseSource
      ensures Snap() == TimerFired(old(Snap()))
      ensures FiredTo(old(Snap()), Snap())
    {
      hide Inv, PartFired, StartedIn, Begun, Started, TimerFired, Extensions, FiredTo;
      FiredMeans(Snap());
      ghost var s0 := Snap();
      queuedDiagnoseSource := false;
      var todo := groups.Keys;
      FiredNone(groups);
      while todo != {}
        invariant todo <= s0.groups.Keys && !queuedDiagnoseSource
        invariant groups == PartFired(s0.groups, todo)
        invariant calls == s0.flights + StartedIn(s0.groups, s0.groups.Keys - todo)
        decreases |todo|
      {
        Nonempty(todo);
        var file :| file in todo;
        BeginOne(file, s0, todo);
        todo := todo - {file};
      }
      FiredAll(s0, todo);
    }

    // ----- providers come and go -----------------------------------------------------------------

    /** A new extension of the adapter of `file`: the provider is attached to the
        group, with nothing reported, and a diagnosis is wished for. */
    method ExtensionAdded(file: File, provider: Provider)
      requires file in groups
      modifies `groups, `owner, `queuedDiagnoseSource
      ensures Snap() == Diagnosing.ExtensionAdded(old(Snap()), file, provider)
      ensures old(Valid() && Enabled(Snap(), Added(file, provider))) ==> Valid()
      ensures Attached(old(Snap()), Snap(), file, provider)
    {
      hide Inv, Attached, Enabled;
      AddedMeans(Snap(), file, provider);
      var group := groups[file];
      owner := owner[provider := file];
      group := group.(adapter := Some(Extensions(group) + {provider}));
      if group.table.Some? {
        group := group.(table := Some(group.table.value[provider := None]));
      }
      groups := groups[file := group];
      QueueDiagnose(file);
    }

    /** An extension that its adapter unloads. */
    method ExtensionRemoved(provider: Provider)
      requires provider in owner && owner[provider] in groups && leaked.Keys == groups.Keys
      modifies `groups, `owner, `leaked
      ensures Snap() == Diagnosing.ExtensionRemoved(old(Snap()), provider)
      ensures Detached(old(Snap()), Snap(), provider)
    {
      hide Clear, Detached;
      RemovedMeans(Snap(), provider);
      var file := owner[provider];
      var group := groups[file];
      if group.adapter.Some? {
        groups := groups[file := group.(adapter := Some(group.adapter.value - {provider}))];
      } else {
        assert groups[file := group.(adapter := None)] == groups;
      }
      var _ := ClearByProvider(provider);
      owner := owner - {provider};
      if provider in calls {
        leaked := leaked[file := leaked[file] + 1];
      }
    }

    method ProviderInvalidated(provider: Provider)
      requires provider in owner && owner[provider] in groups
      modifies `groups, `queuedDiagnoseSource
      ensures Snap() == Diagnosing.QueueDiagnose(old(Snap()), owner[provider])
      ensures Wished(old(Snap()), Snap(), owner[provider])
    {
      QueueDiagnose(owner[provider]);
    }

    // ----- files -----------------------------------------------------------------------------------

    /** `extensions` are those a new adapter finds. */
    method FileOpened(file: File, extensions: seq<Provider>)
      modifies `groups, `owner, `queuedDiagnoseSource, `leaked
      ensures Snap() == Diagnosing.FileOpened(old(Snap()), file, extensions)
      ensures OpenedTo(old(Snap()), Snap(), file, extensions)
    {
      hide Diagnosing.ExtensionAdded, Diagnosing.QueueDiagnose, AddExtensions, Inv, Wished, SameEntries, Attached,
        OpenedTo, Enabled, Entries, Extensions;
      OpenedMeans(Snap(), file, extensions);
      FindGroup(file);
      ghost var s0 := Snap();
      ghost var g := groups[file];
      if groups[file].table == None {
        groups := groups[file := groups[file].(table := Some(map[]))];
      }
      if groups[file].adapter == None {
        groups := groups[file := groups[file].(adapter := Some({}))];
        assert groups ==
          s0.groups[file := g.(table := if g.table == None then Some(map[]) else g.table, adapter := Some({}))];
        ExtensionsAdded(file, extensions);
      } else {
        assert groups ==
          s0.groups[file := g.(table := if g.table == None then Some(map[]) else g.table, adapter := g.adapter)];
      }
      QueueDiagnose(file);
    }

    /** The loop over the extensions of a new adapter. */
    method ExtensionsAdded(file: File, extensions: seq<Provider>)
      requires file in groups
      modifies `groups, `owner, `queuedDiagnoseSource
      ensures file in groups && Snap() == AddExtensions(old(Snap()), file, extensions)
    {
      hide Diagnosing.ExtensionAdded, AddExtensions, Inv, Attached, Enabled;
      ghost var s1 := Snap();
      AddNone(s1, file);
      for i := 0 to |extensions|
        invariant file in groups && Snap() == AddExtensions(s1, file, extensions[..i])
      {
        AddNext(s1, file, extensions, i);
        ExtensionAdded(file, extensions[i]);
      }
      assert extensions[..|extensions|] == extensions;
    }

    /** Whatever changed, the file has a group, which wants a diagnosis. */
    method FileChanged(file: File)
      modifies `groups, `queuedDiagnoseSource, `leaked
      ensures Snap() == Diagnosing.FileChanged(old(Snap()), file)
      ensures old(Valid()) ==> Valid()
      ensures Wished(old(Snap()), Snap(), file) && SameEntries(old(groups), groups)
      ensures groups[file] == GroupOf(old(Snap()), file).(needs := true) && owner == old(owner) && calls == old(calls)
    {
      hide Inv, Wished, SameEntries;
      ChangedMeans(Snap(), file);
      FindGroup(file);
      QueueDiagnose(file);
    }

    method GroupHasDiagnostics(group: Group) returns (has: bool)
      ensures has == HasDiagnostics(group)
    {
      if group.table == None {
        return false;
      }
      var table := group.table.value;
      var todo := table.Keys;
      while todo != {}
        invariant todo <= table.Keys
        invariant forall p :: p in table && p !in todo ==> !(table[p].Some? && table[p].value != [])
        decreases |todo|
      {
        Nonempty(todo);
        var provider :| provider in todo;
        if table[provider].Some? && table[provider].value != [] {
          return true;
        }
        todo := todo - {provider};
      }
      NothingTodo(todo);
      has := false;
    }

    /** `extensions` are those of the adapter, in the order they are unloaded. */
    method FileClosed(file: File, extensions: seq<Provider>)
      requires Valid() && Enabled(Snap(), Closed(file, extensions))
      modifies `groups, `owner, `leaked
      ensures Snap() == Diagnosing.FileClosed(old(Snap()), file, extensions)
      ensures ClosedTo(old(Snap()), Snap(), file, extensions)
    {
      hide Diagnosing.ExtensionRemoved, RemoveExtensions, HasDiagnostics, Inv, GroupsOk, NoRepeats, Extensions,
        ClosedTo,
        Detached;
      ClosedMeans(Snap(), file, extensions);
      ClosingOwners(Snap(), file, extensions);
      FindGroup(file);
      ghost var s0 := Snap();
      ghost var g := groups[file];
      groups := groups[file := groups[file].(needs := false)];
      var has := GroupHasDiagnostics(groups[file]);
      SameHas(g);
      TwoUpdates(s0.groups, file, g.(needs := false), g.(needs := false, adapter := None));
      UnloadExtensions(file, extensions);
      groups := groups[file := groups[file].(table := if groups[file].table == Some(map[]) then None
        else groups[file].table, hasDiagnostics := has)];
    }

    /** ide_clear_and_destroy_object (&group->adapter) */
    method UnloadExtensions(file: File, extensions: seq<Provider>)
      requires file in groups && NoRepeats(extensions) && leaked.Keys == groups.Keys
      requires forall p :: p in extensions ==> p in owner && owner[p] == file
      modifies `groups, `owner, `leaked
      ensures var s := old(Snap());
              Snap() == RemoveExtensions(s.(groups := s.groups[file := s.groups[file].(adapter := None)]), extensions)
      ensures file in groups
    {
      hide Diagnosing.ExtensionRemoved, RemoveExtensions, NoRepeats, Detached;
      ghost var s := Snap();
      groups := groups[file := groups[file].(adapter := None)];
      ghost var s1 := Snap();
      RemoveNone(s1);
      for i := 0 to |extensions|
        invariant Snap() == RemoveExtensions(s1, extensions[..i])
      {
        RemoveNext(s, file, s1, extensions, i);
        ExtensionRemoved(extensions[i]);
      }
      assert extensions[..|extensions|] == extensions;
    }

    // ----- every event --------------------------------------------------------------------------------

    /** Whatever happens, the manager takes the step of the state machine, and so
        keeps all that is proved of its runs. */
    method Handle(e: Event)
      requires Valid() && Enabled(Snap(), e)
      modifies this
      ensures Valid() && Snap() == Step(old(Snap()), e)
    {
      hide NoRepeats, Diagnosing.FileOpened, Diagnosing.FileClosed, Diagnosing.FileChanged, Diagnosing.ExtensionAdded,
        Diagnosing.ExtensionRemoved, Diagnosing.QueueDiagnose, TimerFired, Completed, GroupOk, Owned, Fresh, Wished,
        SameEntries, Attached, OpenedTo, Detached, ClosedTo, FiredTo, ReportedTo;
      StepOk(Snap(), e);
      match e {
        case Opened(file, added) => FileOpened(file, added);
        case Closed(file, removed) => FileClosed(file, removed);
        case Changed(file) => FileChanged(file);
        case Added(file, provider) => ExtensionAdded(file, provider);
        case Removed(provider) => ExtensionRemoved(provider);
        case Invalidated(provider) => ProviderInvalidated(provider);
        case Fired => BeginDiagnose();
        case Reported(provider, result) => var _ := DiagnoseCb(provider, result);
      }
    }
  }

  // ----- loops over hash tables -----------------------------------------------------------------

  /** The groups but those still to do have begun, where they begin. */
  ghost function PartFired(before: map<File, Group>, todo: set<File>): map<File, Group> {
    map f | f in before :: if f !in todo && Begins(before[f]) then Begun(before[f]) else before[f]
  }

  ghost function StartedIn(groups: map<File, Group>, files: set<File>): set<Provider> {
    set f, p | f in files && f in groups && Begins(groups[f]) && p in Extensions(groups[f]) :: p
  }

  lemma {:induction false} FiredNone(groups: map<File, Group>)
    ensures PartFired(groups, groups.Keys) == groups && StartedIn(groups, groups.Keys - groups.Keys) == {}
  {}

  lemma {:induction false} FiredMore(before: map<File, Group>, todo: set<File>, f: File)
    requires f in todo && todo <= before.Keys
    ensures PartFired(before, todo).Keys == before.Keys && PartFired(before, todo)[f] == before[f]
    ensures todo - {f} <= before.Keys && |todo - {f}| < |todo|
    ensures Begins(before[f]) ==> PartFired(before, todo - {f}) == PartFired(before, todo)[f := Begun(before[f])]
    ensures !Begins(before[f]) ==> PartFired(before, todo - {f}) == PartFired(before, todo)
    ensures StartedIn(before, before.Keys - (todo - {f})) ==
            if Begins(before[f]) then StartedIn(before, before.Keys - todo) + Extensions(before[f])
              else StartedIn(before, before.Keys - todo)
  {
    assert before.Keys - (todo - {f}) == before.Keys - todo + {f};
    forall p
      ensures p in StartedIn(before, before.Keys - todo + {f}) <==>
              p in StartedIn(before, before.Keys - todo) || (Begins(before[f]) && p in Extensions(before[f]))
    {
      if p in StartedIn(before, before.Keys - todo) {
        var x :| x in before.Keys - todo && x in before && Begins(before[x]) && p in Extensions(before[x]);
        assert x in before.Keys - todo + {f};
      }
      if Begins(before[f]) && p in Extensions(before[f]) {
        assert f in before.Keys - todo + {f};
      }
    }
  }

  lemma {:induction false} FiredAll(s: State, todo: set<File>)
    requires todo == {}
    ensures s.(groups := PartFired(s.groups, todo), flights := s.flights + StartedIn(s.groups, s.groups.Keys - todo),
              timer := false) == TimerFired(s)
  {
    assert forall f :: f !in todo;
    assert s.groups.Keys - todo == s.groups.Keys;
    assert StartedIn(s.groups, s.groups.Keys) == Started(s.groups);
  }

  /** A group of which n extensions have started. */
  ghost function Starting(before: map<File, Group>, f: File, n: int): map<File, Group>
    requires f in before
  {
    before[f := before[f].(needs := false, hasDiagnostics := false, inDiagnose := before[f].inDiagnose + n)]
  }

  lemma {:induction false} StartingNone(before: map<File, Group>, f: File)
    requires f in before
    ensures before[f := before[f].(needs := false)][f := before[f].(needs := false, hasDiagnostics := false)] ==
              Starting(before, f, 0)
  {}

  lemma {:induction false} StartingMore(before: map<File, Group>, f: File, n: int)
    requires f in before
    ensures f in Starting(before, f, n)
    ensures Counting(Starting(before, f, n), f) == Starting(before, f, n + 1)
  {}

  ghost function Counting(groups: map<File, Group>, f: File): map<File, Group>
    requires f in groups
  {
    groups[f := groups[f].(inDiagnose := groups[f].inDiagnose + 1)]
  }

  lemma {:induction false} OneLess(all: set<Provider>, todo: set<Provider>, p: Provider)
    requires p in todo && todo <= all
    ensures (all - todo) + {p} == all - (todo - {p}) && |todo - {p}| == |todo| - 1 && todo - {p} <= all && p in all
  {}

  lemma {:induction false} StartingAll(before: map<File, Group>, f: File, all: set<Provider>, todo: set<Provider>)
    requires f in before && todo == {} && all == Extensions(before[f])
    ensures Starting(before, f, |all| - |todo|) == before[f := Begun(before[f])] && all - todo == all
  {
    assert forall p :: p !in todo;
  }

  // ----- completion --------------------------------------------------------------------------------

  lemma {:induction false} ReportMeans(s: State, p: Provider, result: Option<seq<Diagnostic>>)
    requires p in s.flights && (p in s.owner ==> s.owner[p] in s.groups)
    ensures Inv(s) && p in s.owner ==>
              ReportedTo(s, Completed(s, p, result), p, if result.Some? then result.value else [])
  {
    hide Inv, Completed, ReportedTo;
    if Inv(s) && p in s.owner {
      ReportedMeans(s, p, result);
    }
  }

  lemma {:induction false} CompletedUnowned(s: State, p: Provider, result: Option<seq<Diagnostic>>)
    ensures p !in s.owner ==> Completed(s, p, result) == s.(flights := s.flights - {p})
  {}

  lemma {:induction false} AddAllNone(groups: map<File, Group>, p: Provider)
    ensures AddAll(groups, p, []) == groups
  {}

  lemma {:induction false} CompletedOwned(s: State, p: Provider, result: Option<seq<Diagnostic>>, all: map<File, Group>,
                                          groups: map<File, Group>, leaked: map<File, nat>)
    requires p in s.owner && s.owner[p] in s.groups && s.owner[p] in all
    requires all == AddAll(Clear(s.groups, p), p, if result.Some? then result.value else [])
    requires leaked == Extended(s.leaked, all)
    requires var x := s.owner[p];
             groups == all[x := all[x].(inDiagnose := all[x].inDiagnose - 1, sequence := all[x].sequence + 1)]
    ensures var f := s.owner[p];
            var g := groups[f];
            var s1 := State(groups, s.owner, s.flights - {p}, s.timer, leaked);
            Completed(s, p, result) ==
              if !g.wasRemoved && g.inDiagnose == 0 && g.needs then Diagnosing.QueueDiagnose(s1, f)
              else if CanDispose(g) then s1.(groups := s1.groups - {f}, leaked := s1.leaked - {f})
              else s1
  {
    hide Clear, AddAll;
    SameKeysLeaks(s.leaked, all, groups);
  }

  ghost predicate SomeTable(groups: map<File, Group>, files: set<File>) {
    exists f :: f in files && f in groups && groups[f].table.Some?
  }

  /** The groups but those still to do are cleared. */
  ghost predicate ClearedOutside(before: map<File, Group>, groups: map<File, Group>, p: Provider, todo: set<File>) {
    && groups.Keys == before.Keys
    && forall f :: f in groups ==> groups[f] == if f in todo then before[f] else ClearGroup(before[f], p)
  }

  lemma {:induction false} ClearOne(before: map<File, Group>, groups: map<File, Group>, p: Provider, todo: set<File>,
                                    f: File)
    requires ClearedOutside(before, groups, p, todo) && f in todo && todo <= groups.Keys
    ensures groups[f] == before[f]
    ensures ClearedOutside(before, groups[f := ClearGroup(groups[f], p)], p, todo - {f})
    ensures groups[f].table == None ==> groups[f := ClearGroup(groups[f], p)] == groups
    ensures SomeTable(before, before.Keys - (todo - {f})) <==>
              SomeTable(before, before.Keys - todo) || groups[f].table.Some?
  {
    if SomeTable(before, before.Keys - todo) {
      var x :| x in before.Keys - todo && x in before && before[x].table.Some?;
      assert x in before.Keys - (todo - {f});
    }
    assert f in before.Keys - (todo - {f});
  }

  lemma {:induction false} ClearedAll(before: map<File, Group>, groups: map<File, Group>, p: Provider, todo: set<File>)
    requires ClearedOutside(before, groups, p, todo) && todo == {}
    ensures groups == Clear(before, p) && before.Keys - todo == before.Keys
  {
    assert forall f :: f !in todo;
    assert groups.Keys == Clear(before, p).Keys;
    forall f | f in groups
      ensures groups[f] == Clear(before, p)[f]
    {}
  }

  lemma {:induction false} SameLeaks(leaked: map<File, nat>, groups: map<File, Group>)
    requires leaked.Keys == groups.Keys
    ensures Extended(leaked, groups) == leaked
  {}

  lemma {:induction false} MoreLeaks(leaked: map<File, nat>, groups: map<File, Group>, p: Provider, d: Diagnostic)
    requires leaked.Keys <= groups.Keys
    ensures Extended(Extended(leaked, groups), AddOne(groups, p, d)) == Extended(leaked, AddOne(groups, p, d))
    ensures Extended(leaked, groups).Keys == groups.Keys <= AddOne(groups, p, d).Keys
  {}

  lemma {:induction false} SameKeysLeaks(leaked: map<File, nat>, groups: map<File, Group>, groups': map<File, Group>)
    requires groups.Keys == groups'.Keys
    ensures Extended(leaked, groups) == Extended(leaked, groups')
  {}

  /** The extensions of a group carry it as their data. */
  lemma {:induction false} OwnersOf(s: State, f: File)
    requires Inv(s) && f in s.groups
    ensures forall p :: p in Extensions(s.groups[f]) ==> p in s.owner && s.owner[p] == f
  {
    assert GroupOk(s.groups[f], Owned(s, f), s.flights, s.timer, s.leaked[f]);
  }

  // ----- opening and closing -------------------------------------------------------------------------

  lemma {:induction false} AddNone(s: State, f: File)
    requires f in s.groups
    ensures AddExtensions(s, f, []) == s
  {}

  lemma {:induction false} AddNext(s: State, f: File, ps: seq<Provider>, i: nat)
    requires f in s.groups && i < |ps|
    ensures AddExtensions(s, f, ps[..i + 1]) == Diagnosing.ExtensionAdded(AddExtensions(s, f, ps[..i]), f, ps[i])
  {
    assert ps[..i + 1][..i] == ps[..i];
  }

  lemma {:induction false} RemoveNone(s: State)
    ensures RemoveExtensions(s, []) == s
  {}

  lemma {:induction false} RemoveNext(s: State, f: File, s1: State, ps: seq<Provider>, i: nat)
    requires i < |ps| && NoRepeats(ps) && s1.owner == s.owner && s1.leaked.Keys == s1.groups.Keys
    requires forall p :: p in ps ==> p in s.owner && s.owner[p] in s1.groups
    ensures RemoveExtensions(s1, ps[..i + 1]) == Diagnosing.ExtensionRemoved(RemoveExtensions(s1, ps[..i]), ps[i])
    ensures var s2 := RemoveExtensions(s1, ps[..i]);
            ps[i] in s2.owner && s2.owner[ps[i]] in s2.groups && s2.leaked.Keys == s2.groups.Keys
  {
    assert ps[..i + 1][..i] == ps[..i];
    RemovedOwners(s1, ps[..i]);
  }

  lemma {:induction false} RemovedOwners(s: State, ps: seq<Provider>)
    requires s.leaked.Keys == s.groups.Keys
    ensures var s' := RemoveExtensions(s, ps);
            && (forall p :: p in s.owner && p !in ps ==> p in s'.owner && s'.owner[p] == s.owner[p])
            && s'.leaked.Keys == s'.groups.Keys == s.groups.Keys
  {
    if ps != [] {
      assert ps == ps[..|ps| - 1] + [ps[|ps| - 1]];
      RemovedOwners(s, ps[..|ps| - 1]);
    }
  }

  lemma {:induction false} ClosingOwners(s: State, f: File, ps: seq<Provider>)
    requires Inv(s) && Enabled(s, Closed(f, ps))
    ensures forall p :: p in ps ==> p in s.owner && s.owner[p] == f
    ensures NoRepeats(ps) && s.leaked.Keys == s.groups.Keys
  {
    forall p | p in ps
      ensures p in s.owner && s.owner[p] == f
    {
      OwnerOf(s, f, p);
    }
  }

  lemma {:induction false} TwoUpdates(groups: map<File, Group>, f: File, a: Group, b: Group)
    ensures groups[f := a][f := b] == groups[f := b]
  {}

  lemma {:induction false} SameHas(g: Group)
    ensures HasDiagnostics(g.(needs := false)) == HasDiagnostics(g)
  {}

  lemma {:induction false} NothingTodo(todo: set<int>)
    requires todo == {}
    ensures forall p :: p !in todo
  {}
}
