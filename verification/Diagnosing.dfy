/** The scheduling of diagnoses as a state machine: what each event does to the
    groups, the shared timer and the calls under way. */
module Diagnosing {
  import opened TextEdits

  type Provider = int

  datatype Diagnostic = Diagnostic(file: Option<File>, text: string)

  /** IdeDiagnosticsGroup; NULL tables, adapters and lists are None.  A key with
      None is the dummy entry of a provider that has reported nothing. */
  datatype Group = Group(
    table: Option<map<Provider, Option<seq<Diagnostic>>>>,
    adapter: Option<set<Provider>>,
    inDiagnose: int,
    needs: bool,
    hasDiagnostics: bool,
    wasRemoved: bool,
    sequence: nat)

  const NEW_GROUP := Group(None, None, 0, false, false, false, 0)

  /** `owner` is the group attached to a provider, `flights` the calls that have
      not completed, and `leaked` counts, for each group, the calls whose
      provider was removed before they completed. */
  datatype State = State(
    groups: map<File, Group>,
    owner: map<Provider, File>,
    flights: set<Provider>,
    timer: bool,
    leaked: map<File, nat>)

  function Extensions(g: Group): set<Provider> {
    if g.adapter.Some? then g.adapter.value else {}
  }

  ghost function Owned(s: State, f: File): set<Provider> {
    set p | p in s.owner && s.owner[p] == f
  }

  /** The calls under way that will find their group when they complete. */
  ghost function Active(s: State, f: File): set<Provider> {
    Owned(s, f) * s.flights
  }

  // ----- the events --------------------------------------------------------------------------

  /** ide_diagnostics_manager_find_group */
  ghost function FindGroup(s: State, f: File): (s': State)
    ensures f in s'.groups
  {
    if f in s.groups then s else s.(groups := s.groups[f := NEW_GROUP], leaked := s.leaked[f := 0])
  }

  ghost function QueueDiagnose(s: State, f: File): State
    requires f in s.groups
  {
    var g := s.groups[f];
    s.(groups := s.groups[f := g.(needs := true)], timer := s.timer || g.inDiagnose == 0)
  }

  ghost function ClearGroup(g: Group, p: Provider): Group {
    match g.table
    case None => g
    case Some(t) =>
      var t' := t - {p};
      g.(table := if t' == map[] then None else Some(t'))
  }

  /** ide_diagnostics_manager_clear_by_provider */
  ghost function Clear(groups: map<File, Group>, p: Provider): map<File, Group> {
    map f | f in groups :: ClearGroup(groups[f], p)
  }

  /** ide_diagnostics_group_add */
  function GroupAdd(g: Group, p: Provider, d: Diagnostic): Group {
    var t := if g.table.Some? then g.table.value else map[];
    var ds := if p in t && t[p].Some? then t[p].value else [];
    g.(table := Some(t[p := Some(ds + [d])]), hasDiagnostics := true, sequence := g.sequence + 1)
  }

  ghost function AddOne(groups: map<File, Group>, p: Provider, d: Diagnostic): map<File, Group> {
    match d.file
    case None => groups
    case Some(f) => groups[f := GroupAdd(if f in groups then groups[f] else NEW_GROUP, p, d)]
  }

  ghost function AddAll(groups: map<File, Group>, p: Provider, ds: seq<Diagnostic>): map<File, Group> {
    if ds == [] then groups else AddOne(AddAll(groups, p, ds[..|ds| - 1]), p, ds[|ds| - 1])
  }

  /** New groups have lost no call. */
  ghost function Extended(leaked: map<File, nat>, groups: map<File, Group>): map<File, nat> {
    map f | f in groups :: if f in leaked then leaked[f] else 0
  }

  ghost function WithNewGroups(s: State, groups: map<File, Group>): State {
    s.(groups := groups, leaked := Extended(s.leaked, groups))
  }

  predicate CanDispose(g: Group) {
    g.adapter == None && !g.hasDiagnostics
  }

  /** ide_diagnostics_group_diagnose_cb */
  ghost function Completed(s: State, p: Provider, result: Option<seq<Diagnostic>>): State {
    var s0 := s.(flights := s.flights - {p});
    if p !in s.owner || s.owner[p] !in s.groups then s0
    else
      var f := s.owner[p];
      var groups := AddAll(Clear(s.groups, p), p, if result.Some? then result.value else []);
      AddAllKeys(Clear(s.groups, p), p, if result.Some? then result.value else []);
      var g := groups[f].(inDiagnose := groups[f].inDiagnose - 1, sequence := groups[f].sequence + 1);
      var s1 := WithNewGroups(s0, groups[f := g]);
      if !g.wasRemoved && g.inDiagnose == 0 && g.needs then QueueDiagnose(s1, f)
      else if CanDispose(g) then s1.(groups := s1.groups - {f}, leaked := s1.leaked - {f})
      else s1
  }

  lemma {:induction false} AddAllKeys(groups: map<File, Group>, p: Provider, ds: seq<Diagnostic>)
    ensures groups.Keys <= AddAll(groups, p, ds).Keys
  {
    if ds != [] {
      AddAllKeys(groups, p, ds[..|ds| - 1]);
    }
  }

  /** ide_diagnostics_group_diagnose: every extension starts a call. */
  ghost function Begun(g: Group): Group {
    g.(needs := false, hasDiagnostics := false, inDiagnose := g.inDiagnose + |Extensions(g)|)
  }

  ghost predicate Begins(g: Group) {
    g.needs && g.adapter.Some? && g.inDiagnose == 0
  }

  /** The extensions of every group that begins. */
  ghost function Started(groups: map<File, Group>): set<Provider> {
    set f, p | f in groups && Begins(groups[f]) && p in Extensions(groups[f]) :: p
  }

  /** ide_diagnostics_manager_begin_diagnose, when the timer fires. */
  ghost function TimerFired(s: State): State {
    s.(groups := map f | f in s.groups :: if Begins(s.groups[f]) then Begun(s.groups[f]) else s.groups[f],
       flights := s.flights + Started(s.groups),
       timer := false)
  }

  /** The group with one extension more, which has reported nothing yet. */
  ghost function Joined(g: Group, p: Provider): Group {
    g.(adapter := Some(Extensions(g) + {p}), table := if g.table.Some? then Some(g.table.value[p := None]) else None)
  }

  ghost function ExtensionAdded(s: State, f: File, p: Provider): State
    requires f in s.groups
  {
    QueueDiagnose(s.(groups := s.groups[f := Joined(s.groups[f], p)], owner := s.owner[p := f]), f)
  }

  /** A provider leaves its group.  When its call is still under way, the
      completion will not find the group, and the count is never taken back. */
  ghost function ExtensionRemoved(s: State, p: Provider): State {
    if p !in s.owner || s.owner[p] !in s.groups then s
    else
      var f := s.owner[p];
      var g := s.groups[f];
      var g' := g.(adapter := if g.adapter.Some? then Some(g.adapter.value - {p}) else None);
      State(Clear(s.groups[f := g'], p), s.owner - {p}, s.flights, s.timer,
            if p in s.flights && f in s.leaked then s.leaked[f := s.leaked[f] + 1] else s.leaked)
  }

  ghost function AddExtensions(s: State, f: File, ps: seq<Provider>): (s': State)
    requires f in s.groups
    ensures f in s'.groups
  {
    if ps == [] then s else ExtensionAdded(AddExtensions(s, f, ps[..|ps| - 1]), f, ps[|ps| - 1])
  }

  ghost function RemoveExtensions(s: State, ps: seq<Provider>): (s': State)
    ensures s'.groups.Keys == s.groups.Keys
  {
    if ps == [] then s else ExtensionRemoved(RemoveExtensions(s, ps[..|ps| - 1]), ps[|ps| - 1])
  }

  /** _ide_diagnostics_manager_file_opened; `ps` are the extensions of a new adapter. */
  ghost function FileOpened(s: State, f: File, ps: seq<Provider>): State {
    var s0 := FindGroup(s, f);
    var g := s0.groups[f];
    var g' := g.(table := if g.table == None then Some(map[]) else g.table,
      adapter := if g.adapter == None then Some({}) else g.adapter);
    var s1 := s0.(groups := s0.groups[f := g']);
    QueueDiagnose(if g.adapter == None then AddExtensions(s1, f, ps) else s1, f)
  }

  ghost predicate HasDiagnostics(g: Group) {
    g.table.Some? && exists p :: p in g.table.value && g.table.value[p].Some? && g.table.value[p].value != []
  }

  /** _ide_diagnostics_manager_file_closed; `ps` are the extensions that are unloaded. */
  ghost function FileClosed(s: State, f: File, ps: seq<Provider>): State {
    var s0 := FindGroup(s, f);
    var g := s0.groups[f];
    var s1 := RemoveExtensions(s0.(groups := s0.groups[f := g.(needs := false, adapter := None)]), ps);
    var g1 := s1.groups[f];
    s1.(groups := s1.groups[f := g1.(table := if g1.table == Some(map[]) then None else g1.table,
      hasDiagnostics := HasDiagnostics(g))])
  }

  /** Contents, language or the wish of the user have changed. */
  ghost function FileChanged(s: State, f: File): State {
    QueueDiagnose(FindGroup(s, f), f)
  }

  datatype Event =
    | Opened(file: File, added: seq<Provider>)
    | Closed(file: File, removed: seq<Provider>)
    | Changed(file: File)
    | Added(file: File, provider: Provider)
    | Removed(provider: Provider)
    | Invalidated(provider: Provider)
    | Fired
    | Reported(provider: Provider, result: Option<seq<Diagnostic>>)

  /** Extensions are new objects, in no call yet. */
  ghost predicate Fresh(s: State, p: Provider) {
    p !in s.owner && p !in s.flights
  }

  ghost predicate NoRepeats(ps: seq<Provider>) {
    forall i, j :: 0 <= i < j < |ps| ==> ps[i] != ps[j]
  }

  ghost predicate Enabled(s: State, e: Event) {
    match e
    case Opened(f, ps) => NoRepeats(ps) && forall i :: 0 <= i < |ps| ==> Fresh(s, ps[i])
    case Closed(f, ps) => NoRepeats(ps) && forall p :: p in ps <==> p in Extensions(FindGroup(s, f).groups[f])
    case Changed(_) => true
    case Added(f, p) => f in s.groups && s.groups[f].adapter.Some? && Fresh(s, p)
    case Removed(p) => p in s.owner
    case Invalidated(p) => p in s.owner && s.owner[p] in s.groups
    case Fired => s.timer
    case Reported(p, _) => p in s.flights
  }

  ghost function Step(s: State, e: Event): State
    requires Enabled(s, e)
  {
    match e
    case Opened(f, ps) => FileOpened(s, f, ps)
    case Closed(f, ps) => FileClosed(s, f, ps)
    case Changed(f) => FileChanged(s, f)
    case Added(f, p) => ExtensionAdded(s, f, p)
    case Removed(p) => ExtensionRemoved(s, p)
    case Invalidated(p) => QueueDiagnose(s, s.owner[p])
    case Fired => TimerFired(s)
    case Reported(p, result) => Completed(s, p, result)
  }

  // ----- what every event keeps ---------------------------------------------------------------------

  /** The counter of a group is the number of its calls under way and of the
      calls it has lost; and a wish for a diagnosis is never forgotten: the timer
      is queued or the counter is not zero. */
  ghost predicate GroupOk(g: Group, owned: set<Provider>, flights: set<Provider>, timer: bool, leaked: nat) {
    && !g.wasRemoved
    && g.inDiagnose == |owned * flights| + leaked
    && (g.needs && g.adapter.Some? ==> timer || g.inDiagnose > 0)
    && (g.adapter.Some? ==> g.adapter.value == owned)
  }

  ghost predicate GroupsOk(s: State) {
    && s.leaked.Keys == s.groups.Keys
    && (forall f :: f in s.groups ==> GroupOk(s.groups[f], Owned(s, f), s.flights, s.timer, s.leaked[f]))
    && (forall p :: p in s.owner ==> s.owner[p] in s.groups)
  }

  ghost predicate Inv(s: State) {
    GroupsOk(s) && forall p :: p in s.owner ==> s.groups[s.owner[p]].adapter.Some?
  }

  const START := State(map[], map[], {}, false, map[])

  lemma {:induction false} StartOk()
    ensures Inv(START)
  {}

  lemma {:induction false} OwnedMore(s: State, s': State, f: File, p: Provider, x: File)
    requires p !in s.owner && s'.owner == s.owner[p := f]
    ensures Owned(s', x) == if x == f then Owned(s, x) + {p} else Owned(s, x)
  {
    var less, more := Owned(s, x), Owned(s', x);
    if x == f {
      assert forall q :: q in more <==> q in less || q == p;
    } else {
      assert forall q :: q in more <==> q in less;
    }
  }

  lemma {:induction false} OwnedLess(s: State, s': State, p: Provider, x: File)
    requires s'.owner == s.owner - {p}
    ensures Owned(s', x) == Owned(s, x) - {p}
  {
    assert forall q :: q in Owned(s', x) <==> q in Owned(s, x) && q != p;
  }

  lemma {:induction false} OwnedNone(s: State, f: File)
    requires f !in s.groups && forall p :: p in s.owner ==> s.owner[p] in s.groups
    ensures Owned(s, f) == {}
  {
    assert forall p :: p !in Owned(s, f);
  }

  lemma {:induction false} ActiveMore(owned: set<Provider>, flights: set<Provider>, p: Provider)
    requires p !in flights
    ensures (owned + {p}) * flights == owned * flights
  {}

  lemma {:induction false} ActiveLess(owned: set<Provider>, flights: set<Provider>, p: Provider)
    requires p in owned
    ensures p !in flights ==> (owned - {p}) * flights == owned * flights
    ensures p in flights ==> |(owned - {p}) * flights| == |owned * flights| - 1
    ensures p in flights ==> |owned * (flights - {p})| == |owned * flights| - 1
  {
    if p in flights {
      assert (owned - {p}) * flights == owned * flights - {p} == owned * (flights - {p});
    }
  }

  lemma {:induction false} FindGroupOk(s: State, f: File)
    requires GroupsOk(s)
    ensures var s' := FindGroup(s, f);
            && GroupsOk(s') && s'.owner == s.owner && s'.flights == s.flights && s'.timer == s.timer
            && s.groups.Keys <= s'.groups.Keys
            && (forall x :: x in s.groups ==> s'.groups[x] == s.groups[x])
            && (f !in s.groups ==> Owned(s, f) == {})
  {
    hide Owned;
    var s' := FindGroup(s, f);
    if f !in s.groups {
      OwnedNone(s, f);
      assert {} * s.flights == {};
    }
    forall x | x in s'.groups
      ensures GroupOk(s'.groups[x], Owned(s', x), s'.flights, s'.timer, s'.leaked[x])
    {
      OwnedSame(s, s', x);
      if x in s.groups {
        assert GroupOk(s.groups[x], Owned(s, x), s.flights, s.timer, s.leaked[x]);
      }
    }
  }

  /** Groups may change in what scheduling does not look at. */
  ghost predicate SameSchedule(g: Group, g': Group) {
    g'.adapter == g.adapter && g'.inDiagnose == g.inDiagnose && g'.needs == g.needs && g'.wasRemoved == g.wasRemoved
  }

  lemma {:induction false} ReplaceGroup(s: State, f: File, g: Group, timer: bool)
    requires GroupsOk(s) && f in s.groups && (s.timer ==> timer)
    requires GroupOk(g, Owned(s, f), s.flights, timer, s.leaked[f])
    ensures GroupsOk(s.(groups := s.groups[f := g], timer := timer))
  {
    hide Owned, GroupOk;
    var s' := s.(groups := s.groups[f := g], timer := timer);
    forall x | x in s'.groups
      ensures GroupOk(s'.groups[x], Owned(s', x), s'.flights, s'.timer, s'.leaked[x])
    {
      OwnedSame(s, s', x);
      assert GroupOk(s.groups[x], Owned(s, x), s.flights, s.timer, s.leaked[x]);
      TimerHelps(s.groups[x], Owned(s, x), s.flights, s.timer, timer, s.leaked[x]);
    }
  }

  lemma {:induction false} QueueOk(s: State, f: File)
    requires GroupsOk(s) && f in s.groups
    ensures GroupsOk(QueueDiagnose(s, f))
  {
    hide Owned;
    assert GroupOk(s.groups[f], Owned(s, f), s.flights, s.timer, s.leaked[f]);
    ReplaceGroup(s, f, s.groups[f].(needs := true), s.timer || s.groups[f].inDiagnose == 0);
  }

  lemma {:induction false} OwnedSame(s: State, s': State, f: File)
    requires s'.owner == s.owner
    ensures Owned(s', f) == Owned(s, f)
  {}

  lemma {:induction false} AddedOk(s: State, f: File, p: Provider)
    requires GroupsOk(s) && f in s.groups && s.groups[f].adapter.Some? && Fresh(s, p)
    ensures GroupsOk(ExtensionAdded(s, f, p))
  {
    hide Owned, GroupOk;
    var g := s.groups[f];
    var g' := Joined(g, p);
    var s' := s.(groups := s.groups[f := g'], owner := s.owner[p := f]);
    forall x | x in s'.groups
      ensures GroupOk(s'.groups[x], Owned(s', x), s'.flights, s'.timer, s'.leaked[x])
    {
      assert GroupOk(s.groups[x], Owned(s, x), s.flights, s.timer, s.leaked[x]);
      OwnedMore(s, s', f, p, x);
      if x == f {
        AddedGroup(g, g', Owned(s, f), s.flights, p, s.timer, s.leaked[f]);
      }
    }
    QueueOk(s', f);
  }

  /** The group before it is queued, so that a wish may still be unanswered. */
  lemma {:induction false} AddedGroup(g: Group, g': Group, owned: set<Provider>, flights: set<Provider>, p: Provider,
                                      timer: bool, leaked: nat)
    requires GroupOk(g, owned, flights, timer, leaked) && g.adapter.Some? && p !in flights
    requires SameSchedule(g, g'.(adapter := g.adapter)) && g'.adapter == Some(g.adapter.value + {p})
    ensures GroupOk(g', owned + {p}, flights, timer, leaked)
  {
    ActiveMore(owned, flights, p);
  }

  lemma {:induction false} RemovedOk(s: State, p: Provider)
    requires GroupsOk(s)
    ensures GroupsOk(ExtensionRemoved(s, p)) && ExtensionRemoved(s, p).owner == s.owner - {p}
    ensures forall f :: f in s.groups ==> Rescheduled(s.groups[f], ExtensionRemoved(s, p).groups[f])
  {
    hide Owned, GroupOk, ExtensionRemoved, Rescheduled;
    RemovedGroups(s, p);
    if p in s.owner {
      var s' := ExtensionRemoved(s, p);
      forall x | x in s'.groups
        ensures GroupOk(s'.groups[x], Owned(s', x), s'.flights, s'.timer, s'.leaked[x])
      {
        assert GroupOk(s.groups[x], Owned(s, x), s.flights, s.timer, s.leaked[x]);
        OwnedLess(s, s', p, x);
        OwnedHas(s, p, x);
        RemovedGroup(s.groups[x], s'.groups[x], Owned(s, x), s.flights, p, s.timer, s.leaked[x], s'.leaked[x]);
      }
    }
  }

  lemma {:induction false} RemovedGroups(s: State, p: Provider)
    requires s.leaked.Keys == s.groups.Keys && (p in s.owner ==> s.owner[p] in s.groups)
    ensures var s' := ExtensionRemoved(s, p);
            && s'.groups.Keys == s'.leaked.Keys == s.groups.Keys && s'.owner == s.owner - {p}
            && s'.flights == s.flights && s'.timer == s.timer && (p !in s.owner ==> s' == s)
            && forall x :: x in s.groups ==>
                 && Rescheduled(s.groups[x], s'.groups[x])
                 && s'.groups[x].adapter == (if p in s.owner && s.owner[p] == x && s.groups[x].adapter.Some?
                                             then Some(s.groups[x].adapter.value - {p}) else s.groups[x].adapter)
                 && s'.leaked[x] == s.leaked[x] + if p in s.owner && s.owner[p] == x && p in s.flights then 1 else 0
  {}

  /** Only the table and the extensions change. */
  ghost predicate Rescheduled(g: Group, g': Group) {
    SameSchedule(g, g'.(adapter := g.adapter)) && (g'.adapter.Some? <==> g.adapter.Some?)
  }

  lemma {:induction false} OwnedHas(s: State, p: Provider, f: File)
    requires p in s.owner
    ensures p in Owned(s, f) <==> s.owner[p] == f
  {}

  lemma {:induction false} RemovedGroup(g: Group, g': Group, owned: set<Provider>, flights: set<Provider>, p: Provider,
                                        timer: bool, leaked: nat, leaked': nat)
    requires GroupOk(g, owned, flights, timer, leaked) && Rescheduled(g, g')
    requires g.adapter.Some? && p in owned ==> g'.adapter.value == g.adapter.value - {p}
    requires p !in owned ==> g'.adapter == g.adapter
    requires leaked' == if p in owned && p in flights then leaked + 1 else leaked
    ensures GroupOk(g', owned - {p}, flights, timer, leaked')
  {
    if p in owned {
      ActiveLess(owned, flights, p);
    } else {
      assert owned - {p} == owned;
    }
  }

  lemma {:induction false} FiredOk(s: State)
    requires GroupsOk(s)
    ensures GroupsOk(TimerFired(s))
  {
    hide Owned, GroupOk;
    var s' := TimerFired(s);
    forall x | x in s'.groups
      ensures GroupOk(s'.groups[x], Owned(s', x), s'.flights, s'.timer, s'.leaked[x])
    {
      assert GroupOk(s.groups[x], Owned(s, x), s.flights, s.timer, s.leaked[x]);
      OwnedSame(s, s', x);
      FiredFlights(s, x);
      FiredGroup(s.groups[x], Owned(s, x), s.flights, s'.flights, s.timer, s.leaked[x]);
    }
  }

  lemma {:induction false} FiredInv(s: State)
    requires Inv(s) && GroupsOk(TimerFired(s))
    ensures Inv(TimerFired(s))
  {
    hide GroupOk, Owned, Started;
    var s' := TimerFired(s);
    forall p | p in s'.owner
      ensures s'.groups[s'.owner[p]].adapter.Some?
    {
      var x := s.owner[p];
      assert x in s.groups && s.groups[x].adapter.Some?;
      assert s'.groups[x] == if Begins(s.groups[x]) then Begun(s.groups[x]) else s.groups[x];
    }
  }

  lemma {:induction false} RemovedInv(s: State, p: Provider)
    requires Inv(s)
    ensures Inv(ExtensionRemoved(s, p))
  {
    hide GroupOk, Owned;
    RemovedOk(s, p);
    var s' := ExtensionRemoved(s, p);
    forall q | q in s'.owner
      ensures s'.groups[s'.owner[q]].adapter.Some?
    {
      var x := s.owner[q];
      assert x in s.groups && s.groups[x].adapter.Some?;
      assert Rescheduled(s.groups[x], ExtensionRemoved(s, p).groups[x]);
    }
  }

  lemma {:induction false} StartedOwned(s: State, f: File, p: Provider)
    requires GroupsOk(s) && f in s.groups && p in Owned(s, f)
    ensures p in Started(s.groups) <==> Begins(s.groups[f])
  {
    hide Owned;
    OwnedIn(s, p, f);
    assert GroupOk(s.groups[f], Owned(s, f), s.flights, s.timer, s.leaked[f]);
    assert f in s.groups && (s.groups[f].adapter.Some? ==> p in Extensions(s.groups[f]));
    if p in Started(s.groups) {
      var x :| x in s.groups && Begins(s.groups[x]) && p in Extensions(s.groups[x]);
      assert GroupOk(s.groups[x], Owned(s, x), s.flights, s.timer, s.leaked[x]);
      OwnedIn(s, p, x);
    }
  }

  lemma {:induction false} OwnedIn(s: State, p: Provider, f: File)
    requires p in Owned(s, f)
    ensures p in s.owner && s.owner[p] == f
  {}

  lemma {:induction false} FiredFlights(s: State, f: File)
    requires GroupsOk(s) && f in s.groups
    ensures var flights := TimerFired(s).flights;
            && (Begins(s.groups[f]) ==> Owned(s, f) <= flights)
            && (!Begins(s.groups[f]) ==> Owned(s, f) * flights == Owned(s, f) * s.flights)
  {
    hide Owned, GroupsOk, Started;
    var flights := TimerFired(s).flights;
    forall p | p in Owned(s, f)
      ensures p in Started(s.groups) <==> Begins(s.groups[f])
    {
      StartedOwned(s, f, p);
    }
    if !Begins(s.groups[f]) {
      assert forall p :: p in Owned(s, f) * flights <==> p in Owned(s, f) * s.flights;
    }
  }

  lemma {:induction false} FiredGroup(g: Group, owned: set<Provider>, flights: set<Provider>, flights': set<Provider>,
                                      timer: bool, leaked: nat)
    requires GroupOk(g, owned, flights, timer, leaked)
    requires Begins(g) ==> owned <= flights'
    requires !Begins(g) ==> owned * flights' == owned * flights
    ensures GroupOk(if Begins(g) then Begun(g) else g, owned, flights', false, leaked)
  {
    if Begins(g) {
      assert owned * flights' == owned;
    }
  }

  // ----- completion -----------------------------------------------------------------------------------

  lemma {:induction false} ClearSchedule(groups: map<File, Group>, p: Provider)
    ensures Clear(groups, p).Keys == groups.Keys
    ensures forall f :: f in groups ==> SameSchedule(groups[f], Clear(groups, p)[f])
  {}

  lemma {:induction false} AddAllSchedule(groups: map<File, Group>, p: Provider, ds: seq<Diagnostic>)
    ensures groups.Keys <= AddAll(groups, p, ds).Keys
    ensures forall f :: f in AddAll(groups, p, ds) ==>
              SameSchedule(if f in groups then groups[f] else NEW_GROUP, AddAll(groups, p, ds)[f])
  {
    if ds != [] {
      AddAllSchedule(groups, p, ds[..|ds| - 1]);
    }
  }

  /** The state after the reports are added and the counter is taken down. */
  ghost function Counted(s: State, p: Provider, ds: seq<Diagnostic>): State
    requires p in s.owner && s.owner[p] in s.groups
  {
    var f := s.owner[p];
    var groups := AddAll(Clear(s.groups, p), p, ds);
    AddAllKeys(Clear(s.groups, p), p, ds);
    var g := groups[f].(inDiagnose := groups[f].inDiagnose - 1, sequence := groups[f].sequence + 1);
    WithNewGroups(s.(flights := s.flights - {p}), groups[f := g])
  }

  lemma {:induction false} CountedSchedule(s: State, p: Provider, ds: seq<Diagnostic>)
    requires GroupsOk(s) && p in s.owner && s.owner[p] in s.groups
    ensures var s1 := Counted(s, p, ds);
            && s1.owner == s.owner && s1.timer == s.timer && s1.flights == s.flights - {p}
            && s.groups.Keys <= s1.groups.Keys == s1.leaked.Keys
            && (forall f :: f in s.groups ==> s1.leaked[f] == s.leaked[f])
            && (forall f :: f in s1.groups && f !in s.groups ==>
                  s1.leaked[f] == 0 && SameSchedule(NEW_GROUP, s1.groups[f]))
            && (forall f :: f in s.groups && f != s.owner[p] ==> SameSchedule(s.groups[f], s1.groups[f]))
            && SameSchedule(s.groups[s.owner[p]].(inDiagnose := s.groups[s.owner[p]].inDiagnose - 1),
              s1.groups[s.owner[p]])
  {
    hide Clear, AddAll, GroupOk, Owned;
    ClearSchedule(s.groups, p);
    AddAllSchedule(Clear(s.groups, p), p, ds);
  }

  lemma {:induction false} CompletedOwn(s: State, p: Provider, result: Option<seq<Diagnostic>>)
    requires Inv(s) && p in s.flights && p in s.owner
    ensures GroupsOk(Completed(s, p, result)) && Completed(s, p, result).owner == s.owner
    ensures s.groups.Keys <= Completed(s, p, result).groups.Keys
    ensures forall f :: f in Completed(s, p, result).groups ==>
              Completed(s, p, result).groups[f].adapter == if f in s.groups then s.groups[f].adapter else None
    ensures s.groups[s.owner[p]].inDiagnose > 0
    ensures Completed(s, p, result).groups == Counted(s, p, if result.Some? then result.value else []).groups
  {
    hide Owned, GroupOk, Clear, AddAll, Counted;
    var f, ds := s.owner[p], if result.Some? then result.value else [];
    CountedSchedule(s, p, ds);
    var s1 := Counted(s, p, ds);
    var g := s1.groups[f];
    OwnedHas(s, p, f);
    assert GroupOk(s.groups[f], Owned(s, f), s.flights, s.timer, s.leaked[f]);
    OwnGroup(s.groups[f], g, Owned(s, f), s.flights, p, s.timer, s.leaked[f]);
    var timer := s.timer || (g.inDiagnose == 0 && g.needs);
    CompletedIs(s, p, result, s1, timer);
    var s' := s1.(timer := timer);
    forall x | x in s'.groups
      ensures GroupOk(s'.groups[x], Owned(s', x), s'.flights, s'.timer, s'.leaked[x])
    {
      OwnedSame(s, s', x);
      if x !in s.groups {
        OwnedNone(s, x);
        NewGroup(s'.groups[x], s'.flights, timer);
      } else if x != f {
        assert GroupOk(s.groups[x], Owned(s, x), s.flights, s.timer, s.leaked[x]);
        OwnedHas(s, p, x);
        OtherGroup(s.groups[x], s'.groups[x], Owned(s, x), s.flights, p, s.timer, s.leaked[x]);
        TimerHelps(s'.groups[x], Owned(s, x), s'.flights, s.timer, timer, s.leaked[x]);
      }
    }
  }

  /** The group is never disposed of here: its provider is still attached, so
      that it has an adapter. */
  lemma {:induction false} CompletedIs(s: State, p: Provider, result: Option<seq<Diagnostic>>, s1: State, timer: bool)
    requires Inv(s) && p in s.owner && s1 == Counted(s, p, if result.Some? then result.value else [])
    requires var g := s1.groups[s.owner[p]];
             g.adapter.Some? && !g.wasRemoved && timer == (s.timer || (g.inDiagnose == 0 && g.needs))
    ensures Completed(s, p, result) == s1.(timer := timer)
  {
    hide Clear, AddAll, GroupOk, Owned;
    var f := s.owner[p];
    assert s1.groups[f := s1.groups[f].(needs := s1.groups[f].needs)] == s1.groups;
  }

  lemma {:induction false} NewGroup(g: Group, flights: set<Provider>, timer: bool)
    requires SameSchedule(NEW_GROUP, g)
    ensures GroupOk(g, {}, flights, timer, 0)
  {
    assert {} * flights == {};
  }

  lemma {:induction false} TimerHelps(g: Group, owned: set<Provider>, flights: set<Provider>, timer: bool, timer': bool,
                                      leaked: nat)
    requires GroupOk(g, owned, flights, timer, leaked) && (timer ==> timer')
    ensures GroupOk(g, owned, flights, timer', leaked)
  {}

  lemma {:induction false} CompletedOk(s: State, p: Provider, result: Option<seq<Diagnostic>>)
    requires Inv(s) && p in s.flights
    ensures GroupsOk(Completed(s, p, result)) && Completed(s, p, result).owner == s.owner
    ensures s.groups.Keys <= Completed(s, p, result).groups.Keys
    ensures forall f :: f in Completed(s, p, result).groups ==>
              Completed(s, p, result).groups[f].adapter == if f in s.groups then s.groups[f].adapter else None
    ensures p in s.owner ==> s.groups[s.owner[p]].inDiagnose > 0
    ensures Inv(Completed(s, p, result))
  {
    hide Owned, GroupOk, Clear, AddAll;
    var s0 := s.(flights := s.flights - {p});
    if p !in s.owner {
      forall x | x in s.groups
        ensures GroupOk(s0.groups[x], Owned(s0, x), s0.flights, s0.timer, s0.leaked[x])
      {
        assert GroupOk(s.groups[x], Owned(s, x), s.flights, s.timer, s.leaked[x]);
        OwnedSame(s, s0, x);
        NotOwned(s, p, x);
        OtherGroup(s.groups[x], s.groups[x], Owned(s, x), s.flights, p, s.timer, s.leaked[x]);
      }
    } else {
      CompletedOwn(s, p, result);
    }
  }

  lemma {:induction false} NotOwned(s: State, p: Provider, f: File)
    requires p !in s.owner
    ensures p !in Owned(s, f)
  {}

  lemma {:induction false} OtherGroup(g: Group, g': Group, owned: set<Provider>, flights: set<Provider>, p: Provider,
                                      timer: bool, leaked: nat)
    requires GroupOk(g, owned, flights, timer, leaked) && SameSchedule(g, g') && p !in owned
    ensures GroupOk(g', owned, flights - {p}, timer, leaked)
  {
    assert owned * (flights - {p}) == owned * flights;
  }

  lemma {:induction false} OwnGroup(g: Group, g': Group, owned: set<Provider>, flights: set<Provider>, p: Provider,
                                    timer: bool, leaked: nat)
    requires GroupOk(g, owned, flights, timer, leaked) && p in owned && p in flights
    requires SameSchedule(g.(inDiagnose := g.inDiagnose - 1), g')
    ensures g.inDiagnose > 0
    ensures GroupOk(g', owned, flights - {p}, timer || (g'.inDiagnose == 0 && g'.needs), leaked)
  {
    ActiveLess(owned, flights, p);
  }

  // ----- opening and closing ------------------------------------------------------------------------

  lemma {:induction false} AddExtensionsOk(s: State, f: File, ps: seq<Provider>)
    requires Inv(s) && f in s.groups && s.groups[f].adapter.Some? && NoRepeats(ps)
    requires forall i :: 0 <= i < |ps| ==> Fresh(s, ps[i])
    ensures var s' := AddExtensions(s, f, ps);
            && Inv(s') && s'.flights == s.flights && s'.groups[f].adapter.Some? && s'.leaked == s.leaked
            && (forall p :: p in s'.owner <==> p in s.owner || p in ps)
            && forall p :: p in s.owner ==> s'.owner[p] == s.owner[p]
  {
    hide GroupsOk, Owned;
    if ps != [] {
      var before, last := ps[..|ps| - 1], ps[|ps| - 1];
      assert ps == before + [last];
      assert forall i :: 0 <= i < |before| ==> before[i] == ps[i] && Fresh(s, ps[i]);
      AddExtensionsOk(s, f, before);
      assert Fresh(s, ps[|ps| - 1]);
      assert last !in before;
      AddedOk(AddExtensions(s, f, before), f, last);
      AddedInv(AddExtensions(s, f, before), f, last);
    }
  }

  lemma {:induction false} AddedInv(s: State, f: File, p: Provider)
    requires Inv(s) && f in s.groups && s.groups[f].adapter.Some? && GroupsOk(ExtensionAdded(s, f, p))
    ensures Inv(ExtensionAdded(s, f, p))
  {
    hide GroupOk, Owned;
  }

  /** Queueing may as well come first. */
  lemma {:induction false} QueueFirst(s: State, f: File, ps: seq<Provider>)
    requires f in s.groups
    ensures QueueDiagnose(AddExtensions(s, f, ps), f) == AddExtensions(QueueDiagnose(s, f), f, ps)
  {
    if ps != [] {
      var before, last := ps[..|ps| - 1], ps[|ps| - 1];
      QueueFirst(s, f, before);
      QueueCommutes(AddExtensions(s, f, before), f, last);
    }
  }

  lemma {:induction false} QueueCommutes(s: State, f: File, p: Provider)
    requires f in s.groups
    ensures QueueDiagnose(ExtensionAdded(s, f, p), f) == ExtensionAdded(QueueDiagnose(s, f), f, p)
  {
    AddThenQueue(s, f, p);
    QueueThenAdd(s, f, p);
  }

  lemma {:induction false} AddThenQueue(s: State, f: File, p: Provider)
    requires f in s.groups
    ensures QueueDiagnose(ExtensionAdded(s, f, p), f).groups == s.groups[f := Joined(s.groups[f], p).(needs := true)]
  {
    hide Joined;
  }

  lemma {:induction false} QueueThenAdd(s: State, f: File, p: Provider)
    requires f in s.groups
    ensures ExtensionAdded(QueueDiagnose(s, f), f, p).groups == s.groups[f := Joined(s.groups[f], p).(needs := true)]
  {}

  /** The adapter is made, and a first diagnosis queued. */
  ghost function Adapted(s: State, f: File): (s': State)
    ensures f in s'.groups
  {
    var s0 := FindGroup(s, f);
    var g := s0.groups[f];
    var g' := g.(table := if g.table == None then Some(map[]) else g.table,
      adapter := if g.adapter == None then Some({}) else g.adapter);
    QueueDiagnose(s0.(groups := s0.groups[f := g']), f)
  }

  lemma {:induction false} AdaptedOk(s: State, f: File)
    requires Inv(s)
    ensures var s2 := Adapted(s, f);
            Inv(s2) && s2.groups[f].adapter.Some? && s2.leaked == FindGroup(s, f).leaked && s2.flights == s.flights &&
              s2.owner == s.owner
  {
    hide Owned, GroupOk, Inv;
    FindGroupOk(s, f) by { InvGroups(s); }
    NoneOwned(s, FindGroup(s, f), f);
    var s0, s2 := FindGroup(s, f), Adapted(s, f);
    var g := s0.groups[f];
    assert GroupOk(g, Owned(s0, f), s0.flights, s0.timer, s0.leaked[f]);
    OpenedGroup(g, s2.groups[f], Owned(s0, f), s0.flights, s0.timer, s0.leaked[f]);
    ReplaceGroup(s0, f, s2.groups[f], s2.timer);
    assert s2 == s0.(groups := s0.groups[f := s2.groups[f]], timer := s2.timer);
    OpenedInv(s, s0, s2, f);
  }

  lemma {:induction false} OpenedOk(s: State, f: File, ps: seq<Provider>)
    requires Inv(s) && NoRepeats(ps) && forall i :: 0 <= i < |ps| ==> Fresh(s, ps[i])
    ensures var s' := FileOpened(s, f, ps);
            && Inv(s') && s'.leaked == FindGroup(s, f).leaked && s'.flights == s.flights
            && (forall p :: p in s'.owner ==> p in s.owner || p in ps)
            && forall p :: p in s.owner ==> p in s'.owner && s'.owner[p] == s.owner[p]
  {
    hide Inv, AddExtensions, NoRepeats, GroupsOk, QueueDiagnose, ExtensionAdded, NEW_GROUP;
    AdaptedOk(s, f);
    var s0 := FindGroup(s, f);
    var g := s0.groups[f];
    if g.adapter == None {
      var g' := g.(table := if g.table == None then Some(map[]) else g.table, adapter := Some({}));
      QueueFirst(s0.(groups := s0.groups[f := g']), f, ps);
      AddExtensionsOk(Adapted(s, f), f, ps);
    }
  }

  lemma {:induction false} InvGroups(s: State)
    requires Inv(s)
    ensures GroupsOk(s)
  {}

  lemma {:induction false} OpenedInv(s: State, s0: State, s2: State, f: File)
    requires Inv(s) && s0 == FindGroup(s, f) && GroupsOk(s2) && s2.owner == s.owner
    requires s2.groups.Keys == s0.groups.Keys && s2.groups[f].adapter.Some?
    requires forall x :: x in s0.groups && x != f ==> s2.groups[x] == s0.groups[x]
    ensures Inv(s2)
  {
    hide GroupOk, Owned;
  }

  /** A group without an adapter owns no provider. */
  lemma {:induction false} NoneOwned(s: State, s0: State, f: File)
    requires Inv(s) && s0 == FindGroup(s, f)
    ensures s0.groups[f].adapter == None ==> Owned(s0, f) == {}
  {
    hide GroupOk;
    if s0.groups[f].adapter == None {
      assert forall p :: p !in Owned(s0, f);
    }
  }

  lemma {:induction false} OpenedGroup(g: Group, g': Group, owned: set<Provider>, flights: set<Provider>, timer: bool,
                                       leaked: nat)
    requires GroupOk(g, owned, flights, timer, leaked) && (g.adapter == None ==> owned == {})
    requires SameSchedule(g.(adapter := if g.adapter == None then Some({}) else g.adapter, needs := true), g')
    ensures GroupOk(g', owned, flights, timer || g.inDiagnose == 0, leaked)
  {}

  lemma {:induction false} RemoveExtensionsOk(s: State, ps: seq<Provider>)
    requires GroupsOk(s)
    ensures var s' := RemoveExtensions(s, ps);
            && GroupsOk(s') && s'.flights == s.flights && s'.timer == s.timer
            && (forall p :: p in s'.owner <==> p in s.owner && p !in ps)
            && (forall p :: p in s'.owner ==> s'.owner[p] == s.owner[p])
            && forall f :: f in s.groups ==> Rescheduled(s.groups[f], s'.groups[f])
  {
    hide GroupsOk, Owned;
    if ps != [] {
      var before, last := ps[..|ps| - 1], ps[|ps| - 1];
      assert ps == before + [last];
      RemoveExtensionsOk(s, before);
      RemovedOk(RemoveExtensions(s, before), last);
    }
  }

  lemma {:induction false} ClosedOk(s: State, f: File, ps: seq<Provider>)
    requires Inv(s) && forall p :: p in ps <==> p in Extensions(FindGroup(s, f).groups[f])
    ensures var s' := FileClosed(s, f, ps);
            && Inv(s') && s'.flights == s.flights
            && (forall p :: p in s'.owner <==> p in s.owner && p !in ps)
            && (forall p :: p in s'.owner ==> s'.owner[p] == s.owner[p])
            && (forall x :: x in s.groups ==> x in s'.groups && s'.groups[x].inDiagnose == s.groups[x].inDiagnose)
  {
    hide Owned, GroupOk, HasDiagnostics, RemoveExtensions;
    FindGroupOk(s, f);
    var s0 := FindGroup(s, f);
    var g := s0.groups[f];
    var g' := g.(needs := false, adapter := None);
    var s1 := s0.(groups := s0.groups[f := g']);
    assert GroupOk(g, Owned(s0, f), s0.flights, s0.timer, s0.leaked[f]);
    ClosedGroup(g, Owned(s0, f), s0.flights, s0.timer, s0.leaked[f]);
    ReplaceGroup(s0, f, g', s0.timer);
    assert s0.(groups := s0.groups[f := g'], timer := s0.timer) == s1;
    RemoveExtensionsOk(s1, ps);
    var s2, s3 := RemoveExtensions(s1, ps), FileClosed(s, f, ps);
    ClosedLast(s2, f, s3.groups[f]);
    assert s2.(groups := s2.groups[f := s3.groups[f]]) == s3;
    forall p | p in s3.owner
      ensures s3.groups[s3.owner[p]].adapter.Some?
    {
      ClosedOwners(s, f, ps, p);
    }
  }

  lemma {:induction false} ClosedLast(s: State, f: File, g: Group)
    requires GroupsOk(s) && f in s.groups && SameSchedule(s.groups[f], g)
    ensures GroupsOk(s.(groups := s.groups[f := g]))
  {
    hide Owned, GroupOk;
    assert GroupOk(s.groups[f], Owned(s, f), s.flights, s.timer, s.leaked[f]);
    SameOk(s.groups[f], g, Owned(s, f), s.flights, s.timer, s.leaked[f]);
    ReplaceGroup(s, f, g, s.timer);
    assert s.(groups := s.groups[f := g], timer := s.timer) == s.(groups := s.groups[f := g]);
  }

  lemma {:induction false} SameOk(g: Group, g': Group, owned: set<Provider>, flights: set<Provider>, timer: bool,
                                  leaked: nat)
    requires GroupOk(g, owned, flights, timer, leaked) && SameSchedule(g, g')
    ensures GroupOk(g', owned, flights, timer, leaked)
  {}

  lemma {:induction false} ClosedGroup(g: Group, owned: set<Provider>, flights: set<Provider>, timer: bool, leaked: nat)
    requires GroupOk(g, owned, flights, timer, leaked)
    ensures GroupOk(g.(needs := false, adapter := None), owned, flights, timer, leaked)
  {}

  lemma {:induction false} ClosedOwners(s: State, f: File, ps: seq<Provider>, p: Provider)
    requires Inv(s) && (forall p :: p in ps <==> p in Extensions(FindGroup(s, f).groups[f])) && p in s.owner && p !in ps
    ensures s.owner[p] != f && s.groups[s.owner[p]].adapter.Some?
  {
    var x := s.owner[p];
    assert GroupOk(s.groups[x], Owned(s, x), s.flights, s.timer, s.leaked[x]);
    OwnedHas(s, p, x);
  }

  lemma {:induction false} ChangedInv(s: State, f: File)
    requires Inv(s) && GroupsOk(FileChanged(s, f))
    ensures Inv(FileChanged(s, f))
  {
    hide GroupOk, Owned;
    var s' := FileChanged(s, f);
    forall p | p in s'.owner
      ensures s'.groups[s'.owner[p]].adapter.Some?
    {
      assert s.owner[p] in s.groups && s.groups[s.owner[p]].adapter.Some?;
    }
  }

  // ----- whole runs -----------------------------------------------------------------------------------

  /** Every event keeps the invariant; in particular no wake-up is forgotten. */
  lemma {:induction false} StepOk(s: State, e: Event)
    requires Inv(s) && Enabled(s, e)
    ensures Inv(Step(s, e))
  {
    hide GroupsOk, Owned, NoRepeats;
    match e
    case Opened(f, ps) => OpenedOk(s, f, ps);
    case Closed(f, ps) => ClosedOk(s, f, ps);
    case Changed(f) =>
      FindGroupOk(s, f);
      QueueOk(FindGroup(s, f), f);
      ChangedInv(s, f);
    case Added(f, p) =>
      AddedOk(s, f, p);
      AddedInv(s, f, p);
    case Removed(p) => RemovedInv(s, p);
    case Invalidated(p) => QueueOk(s, s.owner[p]);
    case Fired =>
      FiredOk(s);
      FiredInv(s);
    case Reported(p, result) => CompletedOk(s, p, result);
  }

  /** The events can happen one after another, and lead from `s` to the result. */
  ghost predicate CanRun(s: State, es: seq<Event>)
    decreases |es|
  {
    es == [] || (Enabled(s, es[0]) && CanRun(Step(s, es[0]), es[1..]))
  }

  ghost function Run(s: State, es: seq<Event>): State
    requires CanRun(s, es)
    decreases |es|
  {
    if es == [] then s else Run(Step(s, es[0]), es[1..])
  }

  lemma {:induction false} RunOk(s: State, es: seq<Event>)
    requires Inv(s) && CanRun(s, es)
    ensures Inv(Run(s, es))
    decreases |es|
  {
    hide Inv, Step, Enabled;
    if es != [] {
      StepOk(s, es[0]);
      RunOk(Step(s, es[0]), es[1..]);
    }
  }

  /** No lost wake-up: a group that wants a diagnosis and has an adapter has the
      timer queued or a diagnosis counted as under way. */
  lemma {:induction false} NoLostWakeUp(es: seq<Event>, f: File)
    requires CanRun(START, es) && f in Run(START, es).groups
    ensures var s := Run(START, es);
            s.groups[f].needs && s.groups[f].adapter.Some? ==> s.timer || s.groups[f].inDiagnose > 0
  {
    StartOk();
    RunOk(START, es);
    var s := Run(START, es);
    assert GroupOk(s.groups[f], Owned(s, f), s.flights, s.timer, s.leaked[f]);
  }

  /** No event takes a group out of the table: where a completion could dispose
      of its group, the group still has its adapter. */
  lemma {:induction false} GroupsStay(s: State, e: Event)
    requires Inv(s) && Enabled(s, e)
    ensures s.groups.Keys <= Step(s, e).groups.Keys
  {
    hide Inv, GroupsOk, Owned, NoRepeats, Started, Completed, FileOpened, FileClosed, Fresh;
    match e
    case Opened(f, ps) => OpenedKeys(s, f, ps);
    case Closed(f, ps) => ClosedKeys(s, f, ps);
    case Reported(p, result) => CompletedOk(s, p, result);
    case _ =>
  }

  lemma {:induction false} OpenedKeys(s: State, f: File, ps: seq<Provider>)
    ensures s.groups.Keys <= FileOpened(s, f, ps).groups.Keys
  {
    var s0 := FindGroup(s, f);
    var g := s0.groups[f];
    var g' := g.(table := if g.table == None then Some(map[]) else g.table,
      adapter := if g.adapter == None then Some({}) else g.adapter);
    AddExtensionsKeys(s0.(groups := s0.groups[f := g']), f, ps);
  }

  lemma {:induction false} ClosedKeys(s: State, f: File, ps: seq<Provider>)
    ensures s.groups.Keys <= FileClosed(s, f, ps).groups.Keys
  {}

  lemma {:induction false} AddExtensionsKeys(s: State, f: File, ps: seq<Provider>)
    requires f in s.groups
    ensures s.groups.Keys <= AddExtensions(s, f, ps).groups.Keys
  {
    if ps != [] {
      AddExtensionsKeys(s, f, ps[..|ps| - 1]);
    }
  }

  // ----- calls that are never taken back ---------------------------------------------------------------

  /** Wanting a diagnosis, with providers to ask, but with nothing under way
      that could bring one about. */
  ghost predicate Stuck(s: State, f: File) {
    f in s.groups && s.groups[f].needs && s.groups[f].adapter.Some? && !s.timer && Active(s, f) == {}
  }

  /** A group gets stuck only after losing calls. */
  lemma {:induction false} StuckOnlyByLeak(s: State, f: File)
    requires Inv(s) && Stuck(s, f)
    ensures s.leaked[f] > 0
  {
    assert GroupOk(s.groups[f], Owned(s, f), s.flights, s.timer, s.leaked[f]);
    hide Owned;
    assert |Active(s, f)| == 0;
  }

  /** The run that gets a group stuck: its only provider is replaced while its
      call is under way. */
  lemma {:induction false} ReplacedProviderSticks()
    ensures var es := [Opened(0, [1]), Fired, Removed(1), Added(0, 2), Reported(1, None)];
            CanRun(START, es) && Stuck(Run(START, es), 0)
  {
    hide Step, Enabled, Stuck;
    var e1, e2, e3, e4, e5 := Opened(0, [1]), Fired, Removed(1), Added(0, 2), Reported(1, None);
    FirstOpened();
    var s1 := Step(START, e1);
    FirstFired(s1);
    var s2 := Step(s1, e2);
    FirstRemoved(s2);
    var s3 := Step(s2, e3);
    SecondAdded(s3);
    var s4 := Step(s3, e4);
    FirstReported(s4);
    var s5 := Step(s4, e5);
    RunOne(s4, e5, []);
    RunOne(s3, e4, [e5]);
    RunOne(s2, e3, [e4, e5]);
    RunOne(s1, e2, [e3, e4, e5]);
    RunOne(START, e1, [e2, e3, e4, e5]);
    assert [e1] + ([e2] + ([e3] + ([e4] + ([e5] + [])))) == [e1, e2, e3, e4, e5];
    assert [e2] + [e3, e4, e5] == [e2, e3, e4, e5] && [e3] + [e4, e5] == [e3, e4, e5] && [e4] + [e5] == [e4, e5] &&
      [e5] + [] == [e5];
  }

  lemma {:induction false} RunOne(s: State, e: Event, es: seq<Event>)
    requires Enabled(s, e) && CanRun(Step(s, e), es)
    ensures CanRun(s, [e] + es) && Run(s, [e] + es) == Run(Step(s, e), es)
  {
    assert ([e] + es)[1..] == es;
  }

  lemma {:induction false} FirstOpened()
    ensures Enabled(START, Opened(0, [1]))
    ensures Step(START, Opened(0, [1])) ==
              State(map[0 := Group(Some(map[1 := None]), Some({1}), 0, true, false, false, 0)], map[1 := 0], {}, true,
              map[0 := 0])
  {
    var s := State(map[0 := Group(Some(map[]), Some({}), 0, false, false, false, 0)], map[], {}, false, map[0 := 0]);
    var s' := State(map[0 := Group(Some(map[1 := None]), Some({1}), 0, true, false, false, 0)], map[1 := 0], {}, true,
      map[0 := 0]);
    assert FindGroup(START, 0).(groups := FindGroup(START, 0).groups[0 := s.groups[0]]) == s;
    FirstAdded(s);
    assert AddExtensions(s, 0, [1]) == s' by {
      assert [1][..0] == [];
      assert AddExtensions(s, 0, []) == s;
    }
    assert QueueDiagnose(s', 0) == s';
  }

  lemma {:induction false} FirstAdded(s: State)
    requires s == State(map[0 := Group(Some(map[]), Some({}), 0, false, false, false, 0)], map[], {}, false,
               map[0 := 0])
    ensures ExtensionAdded(s, 0, 1) ==
              State(map[0 := Group(Some(map[1 := None]), Some({1}), 0, true, false, false, 0)], map[1 := 0], {}, true,
              map[0 := 0])
  {
    assert Extensions(s.groups[0]) + {1} == {1};
  }

  lemma {:induction false} FirstRemoved(s: State)
    requires s == State(map[0 := Group(Some(map[1 := None]), Some({1}), 1, false, false, false, 0)], map[1 := 0], {1},
               false, map[0 := 0])
    ensures Enabled(s, Removed(1))
    ensures Step(s, Removed(1)) ==
              State(map[0 := Group(None, Some({}), 1, false, false, false, 0)], map[], {1}, false, map[0 := 1])
  {
    var g := s.groups[0].(adapter := Some({}));
    assert {1} - {1} == {};
    assert ClearGroup(g, 1) == g.(table := None) by {
      assert g.table.value - {1} == map[];
    }
    assert Clear(s.groups[0 := g], 1) == map[0 := g.(table := None)];
    assert s.owner - {1} == map[];
  }

  lemma {:induction false} SecondAdded(s: State)
    requires s == State(map[0 := Group(None, Some({}), 1, false, false, false, 0)], map[], {1}, false, map[0 := 1])
    ensures Enabled(s, Added(0, 2))
    ensures Step(s, Added(0, 2)) ==
              State(map[0 := Group(None, Some({2}), 1, true, false, false, 0)], map[2 := 0], {1}, false, map[0 := 1])
  {
    assert Extensions(s.groups[0]) + {2} == {2};
  }

  lemma {:induction false} FirstReported(s: State)
    requires s == State(map[0 := Group(None, Some({2}), 1, true, false, false, 0)], map[2 := 0], {1}, false,
               map[0 := 1])
    ensures Enabled(s, Reported(1, None)) && Step(s, Reported(1, None)) == s.(flights := {})
    ensures Stuck(s.(flights := {}), 0)
  {
    assert {1} - {1} == {};
  }

  lemma {:induction false} FirstFired(s: State)
    requires s == State(map[0 := Group(Some(map[1 := None]), Some({1}), 0, true, false, false, 0)], map[1 := 0], {},
               true, map[0 := 0])
    ensures Enabled(s, Fired)
    ensures Step(s, Fired) ==
              State(map[0 := Group(Some(map[1 := None]), Some({1}), 1, false, false, false, 0)], map[1 := 0], {1},
              false, map[0 := 0])
  {
    assert Begins(s.groups[0]) && 1 in Extensions(s.groups[0]);
    assert Started(s.groups) == {1};
    assert Begun(s.groups[0]).inDiagnose == 1;
  }

  /** The calls of a group that an event loses: those under way whose providers
      the event takes away. */
  ghost function Loses(s: State, e: Event, f: File): nat {
    match e
    case Removed(p) => if p in Active(s, f) then 1 else 0
    case Closed(x, _) => if x == f then |Active(s, f)| else 0
    case _ => 0
  }

  /** Where the counter of a group stays, what is lost and what is under way
      stay the same in sum. */
  lemma {:induction false} LeakBalance(s: State, s': State, f: File)
    requires GroupsOk(s) && GroupsOk(s') && f in s.groups && f in s'.groups
    requires s'.groups[f].inDiagnose == s.groups[f].inDiagnose
    ensures s'.leaked[f] + |Active(s', f)| == s.leaked[f] + |Active(s, f)|
  {
    hide Owned;
    assert GroupOk(s.groups[f], Owned(s, f), s.flights, s.timer, s.leaked[f]);
    assert GroupOk(s'.groups[f], Owned(s', f), s'.flights, s'.timer, s'.leaked[f]);
  }

  lemma {:induction false} ClosedLeak(s: State, x: File, ps: seq<Provider>, f: File)
    requires Inv(s) && (forall p :: p in ps <==> p in Extensions(FindGroup(s, x).groups[x])) && f in s.groups
    ensures f in FileClosed(s, x, ps).leaked
    ensures FileClosed(s, x, ps).leaked[f] == s.leaked[f] + if x == f then |Active(s, f)| else 0
  {
    hide GroupOk;
    ClosedOk(s, x, ps);
    var s' := FileClosed(s, x, ps);
    LeakBalance(s, s', f);
    if x == f {
      forall p
        ensures p !in Active(s', f)
      {
        if p in s'.owner {
          ClosedOwners(s, f, ps, p);
        }
      }
      assert Active(s', f) == {};
    } else {
      forall p
        ensures p in Active(s', f) <==> p in Active(s, f)
      {
        if p in s.owner && s.owner[p] == f && p in ps {
          OwnerOf(s, x, p);
        }
      }
      assert Active(s', f) == Active(s, f);
    }
  }

  lemma {:induction false} OwnerOf(s: State, x: File, p: Provider)
    requires Inv(s) && p in Extensions(FindGroup(s, x).groups[x])
    ensures p in s.owner && s.owner[p] == x
  {
    assert x in s.groups;
    assert GroupOk(s.groups[x], Owned(s, x), s.flights, s.timer, s.leaked[x]);
    OwnedIn(s, p, x);
  }

  /** Calls are lost exactly when a provider is taken away while its call is
      under way. */
  lemma {:induction false} LeakStep(s: State, e: Event, f: File)
    requires Inv(s) && Enabled(s, e) && f in s.groups
    ensures f in Step(s, e).leaked && Step(s, e).leaked[f] == s.leaked[f] + Loses(s, e, f)
  {
    hide Owned, NoRepeats, Started, FileClosed, FileOpened, GroupOk, Completed;
    match e
    case Opened(x, ps) => OpenedOk(s, x, ps);
    case Closed(x, ps) => ClosedLeak(s, x, ps, f);
    case Reported(p, result) => CompletedLeak(s, p, result, f);
    case Removed(p) => OwnedHas(s, p, f);
    case _ =>
  }

  lemma {:induction false} CompletedLeak(s: State, p: Provider, result: Option<seq<Diagnostic>>, f: File)
    requires Inv(s) && p in s.flights && f in s.groups
    ensures f in Completed(s, p, result).leaked && Completed(s, p, result).leaked[f] == s.leaked[f]
  {
    hide Owned, GroupOk, Clear, AddAll;
    CompletedOk(s, p, result);
    if p in s.owner {
      CountedSchedule(s, p, if result.Some? then result.value else []);
      assert f in Completed(s, p, result).groups;
    }
  }

  // ----- with and without losses --------------------------------------------------------------------

  /** No event of the run loses a call of the group. */
  ghost predicate LosesNone(s: State, es: seq<Event>, f: File)
    requires CanRun(s, es)
    decreases |es|
  {
    es == [] || (Loses(s, es[0], f) == 0 && LosesNone(Step(s, es[0]), es[1..], f))
  }

  lemma {:induction false} NothingLost(s: State, es: seq<Event>, f: File)
    requires Inv(s) && CanRun(s, es) && LosesNone(s, es, f) && (f in s.groups ==> s.leaked[f] == 0)
    ensures f in Run(s, es).groups ==> f in Run(s, es).leaked && Run(s, es).leaked[f] == 0
    decreases |es|
  {
    hide Step, Enabled, Loses, GroupOk, Owned;
    if es == [] {
      InvGroups(s);
    } else {
      StepOk(s, es[0]);
      if f in s.groups {
        LeakStep(s, es[0], f);
      } else {
        NewLeak(s, es[0], f);
      }
      NothingLost(Step(s, es[0]), es[1..], f);
    }
  }

  lemma {:induction false} NewLeak(s: State, e: Event, f: File)
    requires Inv(s) && Enabled(s, e) && f !in s.groups
    ensures f in Step(s, e).groups ==> f in Step(s, e).leaked && Step(s, e).leaked[f] == 0
  {
    hide Owned, NoRepeats, Started, FileClosed, FileOpened, GroupOk, Completed;
    match e
    case Opened(x, ps) => OpenedOk(s, x, ps);
    case Closed(x, ps) => NewClosed(s, x, ps, f);
    case Reported(p, result) => NewCompleted(s, p, result, f);
    case _ =>
  }

  lemma {:induction false} NewClosed(s: State, x: File, ps: seq<Provider>, f: File)
    requires Inv(s) && f !in s.groups && forall p :: p in ps <==> p in Extensions(FindGroup(s, x).groups[x])
    ensures f in FileClosed(s, x, ps).groups ==> f in FileClosed(s, x, ps).leaked && FileClosed(s, x, ps).leaked[f] == 0
  {
    hide Owned, GroupOk, HasDiagnostics;
    if x == f {
      assert Extensions(FindGroup(s, x).groups[x]) == {};
      if ps != [] {
        var p := SomeMember(ps);
      }
    } else {
      ClosedOk(s, x, ps);
    }
  }

  lemma {:induction false} SomeMember(ps: seq<Provider>) returns (p: Provider)
    requires ps != []
    ensures p in ps
  {
    p := ps[0];
  }

  lemma {:induction false} NewCompleted(s: State, p: Provider, result: Option<seq<Diagnostic>>, f: File)
    requires Inv(s) && p in s.flights && f !in s.groups
    ensures f in Completed(s, p, result).groups ==>
              f in Completed(s, p, result).leaked && Completed(s, p, result).leaked[f] == 0
  {
    hide Owned, GroupOk, Clear, AddAll;
    CompletedOk(s, p, result);
    if p in s.owner {
      CountedSchedule(s, p, if result.Some? then result.value else []);
    }
  }

  /** Without losses, a group that wants a diagnosis really has the timer queued
      or a call under way. */
  lemma {:induction false} NeverStuckWithoutLoss(es: seq<Event>, f: File)
    requires CanRun(START, es) && LosesNone(START, es, f)
    ensures !Stuck(Run(START, es), f)
  {
    StartOk();
    RunOk(START, es);
    NothingLost(START, es, f);
    if Stuck(Run(START, es), f) {
      StuckOnlyByLeak(Run(START, es), f);
    }
  }

  /** After a loss, no call for the group is ever started again. */
  lemma {:induction false} LossIsForGood(s: State, es: seq<Event>, f: File)
    requires Inv(s) && CanRun(s, es) && f in s.groups && s.leaked[f] > 0
    ensures f in Run(s, es).groups && Active(Run(s, es), f) <= Active(s, f)
    decreases |es|
  {
    hide Step, Enabled, GroupOk, Owned;
    if es != [] {
      StepOk(s, es[0]);
      LeakStep(s, es[0], f);
      GroupsStay(s, es[0]);
      NoCallStarts(s, es[0], f);
      LossIsForGood(Step(s, es[0]), es[1..], f);
    }
  }

  lemma {:induction false} NoCallStarts(s: State, e: Event, f: File)
    requires Inv(s) && Enabled(s, e) && f in s.groups && s.leaked[f] > 0
    ensures Active(Step(s, e), f) <= Active(s, f)
  {
    var s' := Step(s, e);
    if e == Fired {
      assert GroupOk(s.groups[f], Owned(s, f), s.flights, s.timer, s.leaked[f]);
      hide Owned, Started;
      FiredFlights(s, f);
      OwnedSame(s, s', f);
    } else {
      CallsOnlyEnd(s, e);
      forall p | p in Active(s', f)
        ensures p in Active(s, f)
      {}
    }
  }

  /** Only the timer starts calls. */
  lemma {:induction false} CallsOnlyEnd(s: State, e: Event)
    requires Inv(s) && Enabled(s, e) && e != Fired
    ensures var s' := Step(s, e);
            forall p :: p in s'.flights && p in s'.owner ==> p in s.flights && p in s.owner && s'.owner[p] == s.owner[p]
  {
    hide Owned, Started, FileClosed, FileOpened, GroupOk, Completed, GroupsOk;
    match e
    case Opened(x, ps) => OpenedOk(s, x, ps);
    case Closed(x, ps) => ClosedOk(s, x, ps);
    case Reported(p, result) => CompletedOk(s, p, result); CompletedFlights(s, p, result);
    case _ =>
  }

  lemma {:induction false} CompletedFlights(s: State, p: Provider, result: Option<seq<Diagnostic>>)
    ensures Completed(s, p, result).flights == s.flights - {p}
  {
    hide Clear, AddAll;
    AddAllKeys(Clear(s.groups, p), p, if result.Some? then result.value else []);
  }

  // ----- what a completion does to the diagnostics -----------------------------------------------------

  /** What provider q has reported for a file. */
  ghost function Entries(groups: map<File, Group>, f: File, q: Provider): seq<Diagnostic> {
    if f in groups && groups[f].table.Some? && q in groups[f].table.value && groups[f].table.value[q].Some?
    then groups[f].table.value[q].value else []
  }

  /** The diagnostics of one file, in order. */
  ghost function ForFile(ds: seq<Diagnostic>, f: File): seq<Diagnostic> {
    if ds == [] then []
    else
      var last := ds[|ds| - 1];
      ForFile(ds[..|ds| - 1], f) + if last.file == Some(f) then [last] else []
  }

  lemma {:induction false} ClearEntries(groups: map<File, Group>, p: Provider, f: File, q: Provider)
    ensures Entries(Clear(groups, p), f, q) == if q == p then [] else Entries(groups, f, q)
  {
    if f in groups && groups[f].table.Some? {
      var t := groups[f].table.value;
      assert q in t - {p} <==> q in t && q != p;
    }
  }

  lemma {:induction false} AddEntries(groups: map<File, Group>, p: Provider, ds: seq<Diagnostic>, f: File, q: Provider)
    ensures Entries(AddAll(groups, p, ds), f, q) == Entries(groups, f, q) + if q == p then ForFile(ds, f) else []
  {
    if ds != [] {
      AddEntries(groups, p, ds[..|ds| - 1], f, q);
      AddOneEntries(AddAll(groups, p, ds[..|ds| - 1]), p, ds[|ds| - 1], f, q);
    }
  }

  lemma {:induction false} AddOneEntries(groups: map<File, Group>, p: Provider, d: Diagnostic, f: File, q: Provider)
    ensures Entries(AddOne(groups, p, d), f, q) ==
              Entries(groups, f, q) + if q == p && d.file == Some(f) then [d] else []
  {}

  /** A completion replaces all that its provider has reported, for every file,
      by what it reports now, in order; other providers are untouched. */
  lemma {:induction false} ReportReplaces(s: State, p: Provider, result: Option<seq<Diagnostic>>, f: File, q: Provider)
    requires Inv(s) && p in s.flights && p in s.owner
    ensures Entries(Completed(s, p, result).groups, f, q) ==
            if q == p then ForFile(if result.Some? then result.value else [], f) else Entries(s.groups, f, q)
  {
    hide GroupOk, Owned, Clear, AddAll, Entries;
    var ds := if result.Some? then result.value else [];
    CompletedTables(s, p, result, f, q);
    ClearEntries(s.groups, p, f, q);
    AddEntries(Clear(s.groups, p), p, ds, f, q);
  }

  lemma {:induction false} CompletedTables(s: State, p: Provider, result: Option<seq<Diagnostic>>, f: File, q: Provider)
    requires Inv(s) && p in s.flights && p in s.owner
    ensures Entries(Completed(s, p, result).groups, f, q) ==
              Entries(AddAll(Clear(s.groups, p), p, if result.Some? then result.value else []), f, q)
  {
    hide GroupOk, Owned, Clear, AddAll, Completed;
    var ds, x := if result.Some? then result.value else [], s.owner[p];
    CompletedOwn(s, p, result);
    ClearSchedule(s.groups, p);
    AddAllKeys(Clear(s.groups, p), p, ds);
    var all := AddAll(Clear(s.groups, p), p, ds);
    assert Counted(s, p, ds).groups ==
      all[x := all[x].(inDiagnose := all[x].inDiagnose - 1, sequence := all[x].sequence + 1)];
  }

  /** A provider that has been removed when its call completes changes nothing;
      its diagnostics went with it. */
  lemma {:induction false} RemovalClears(s: State, p: Provider, f: File, q: Provider)
    requires Inv(s) && p in s.owner
    ensures Entries(ExtensionRemoved(s, p).groups, f, q) == if q == p then [] else Entries(s.groups, f, q)
    ensures forall result :: Completed(ExtensionRemoved(s, p), p, result).groups == ExtensionRemoved(s, p).groups
  {
    hide GroupOk, Owned, Clear;
    var x := s.owner[p];
    var g := s.groups[x];
    var groups := s.groups[x := g.(adapter := if g.adapter.Some? then Some(g.adapter.value - {p}) else None)];
    ClearEntries(groups, p, f, q);
    assert Entries(groups, f, q) == Entries(s.groups, f, q);
  }

  // ----- how a wish ends -----------------------------------------------------------------------------------

  /** The event starts a call of every provider of the group. */
  ghost predicate Answers(s: State, e: Event, f: File)
    requires Enabled(s, e)
  {
    e == Fired && f in s.groups && s.groups[f].inDiagnose == 0 && Active(Step(s, e), f) == Owned(s, f)
  }

  /** Some event of the run answers the wish, or closes the file. */
  ghost predicate Settled(s: State, es: seq<Event>, f: File)
    requires CanRun(s, es)
    decreases |es|
  {
    es != [] && ((es[0].Closed? && es[0].file == f) || Answers(s, es[0], f) || Settled(Step(s, es[0]), es[1..], f))
  }

  /** A wish for a diagnosis stays until every provider of the file has been
      asked, or the file is closed. */
  lemma {:induction false} WishStays(s: State, es: seq<Event>, f: File)
    requires Inv(s) && CanRun(s, es) && f in s.groups && s.groups[f].needs
    ensures Settled(s, es, f) || (f in Run(s, es).groups && Run(s, es).groups[f].needs)
    decreases |es|
  {
    hide Step, Enabled, GroupOk, Owned, Answers;
    if es != [] && !(es[0].Closed? && es[0].file == f) && !Answers(s, es[0], f) {
      StepOk(s, es[0]);
      WishKept(s, es[0], f);
      WishStays(Step(s, es[0]), es[1..], f);
    }
  }

  lemma {:induction false} WishKept(s: State, e: Event, f: File)
    requires Inv(s) && Enabled(s, e) && f in s.groups && s.groups[f].needs && !(e.Closed? && e.file == f)
    ensures Answers(s, e, f) || (f in Step(s, e).groups && Step(s, e).groups[f].needs)
  {
    hide Owned, NoRepeats, Started, FileClosed, FileOpened, GroupOk, Completed, ClearGroup;
    match e
    case Opened(x, ps) => OpenedWish(s, x, ps, f);
    case Closed(x, ps) => ClosedWish(s, x, ps, f);
    case Reported(p, result) => CompletedWish(s, p, result, f);
    case Fired => FiredWish(s, f);
    case Removed(p) => RemovedOk(s, p);
    case _ =>
  }

  lemma {:induction false} FiredWish(s: State, f: File)
    requires Inv(s) && s.timer && f in s.groups && s.groups[f].needs
    ensures Answers(s, Fired, f) || TimerFired(s).groups[f].needs
  {
    hide GroupOk, Owned, Started;
    if Begins(s.groups[f]) {
      FiredFlights(s, f);
      OwnedSame(s, TimerFired(s), f);
      assert Owned(s, f) * TimerFired(s).flights == Owned(s, f);
    }
  }

  lemma {:induction false} OpenedWish(s: State, x: File, ps: seq<Provider>, f: File)
    requires f in s.groups && s.groups[f].needs
    ensures f in FileOpened(s, x, ps).groups && FileOpened(s, x, ps).groups[f].needs
  {
    var s0 := FindGroup(s, x);
    var g := s0.groups[x];
    var g' := g.(table := if g.table == None then Some(map[]) else g.table,
      adapter := if g.adapter == None then Some({}) else g.adapter);
    AddExtensionsWish(s0.(groups := s0.groups[x := g']), x, ps, f);
  }

  lemma {:induction false} AddExtensionsWish(s: State, x: File, ps: seq<Provider>, f: File)
    requires x in s.groups && f in s.groups && s.groups[f].needs
    ensures f in AddExtensions(s, x, ps).groups && AddExtensions(s, x, ps).groups[f].needs
  {
    if ps != [] {
      AddExtensionsWish(s, x, ps[..|ps| - 1], f);
    }
  }

  lemma {:induction false} ClosedWish(s: State, x: File, ps: seq<Provider>, f: File)
    requires Inv(s) && Enabled(s, Closed(x, ps)) && f in s.groups && s.groups[f].needs && x != f
    ensures f in FileClosed(s, x, ps).groups && FileClosed(s, x, ps).groups[f].needs
  {
    hide GroupOk, Owned;
    FindGroupOk(s, x);
    var s0 := FindGroup(s, x);
    RemoveExtensionsWish(s0.(groups := s0.groups[x := s0.groups[x].(needs := false, adapter := None)]), ps, f);
  }

  lemma {:induction false} RemoveExtensionsWish(s: State, ps: seq<Provider>, f: File)
    requires f in s.groups && s.groups[f].needs
    ensures f in RemoveExtensions(s, ps).groups && RemoveExtensions(s, ps).groups[f].needs
  {
    hide ClearGroup;
    if ps != [] {
      RemoveExtensionsWish(s, ps[..|ps| - 1], f);
      var s1, p := RemoveExtensions(s, ps[..|ps| - 1]), ps[|ps| - 1];
      RemovedNeeds(s1, p, f);
    }
  }

  lemma {:induction false} RemovedNeeds(s: State, p: Provider, f: File)
    requires f in s.groups && s.groups[f].needs
    ensures f in ExtensionRemoved(s, p).groups && ExtensionRemoved(s, p).groups[f].needs
  {}

  lemma {:induction false} CompletedWish(s: State, p: Provider, result: Option<seq<Diagnostic>>, f: File)
    requires Inv(s) && p in s.flights && f in s.groups && s.groups[f].needs
    ensures f in Completed(s, p, result).groups && Completed(s, p, result).groups[f].needs
  {
    hide GroupOk, Owned, Clear, AddAll, Completed, Counted;
    CompletedOk(s, p, result);
    if p in s.owner {
      CompletedOwn(s, p, result);
      CountedSchedule(s, p, if result.Some? then result.value else []);
    } else {
      CompletedAway(s, p, result);
    }
  }

  lemma {:induction false} CompletedAway(s: State, p: Provider, result: Option<seq<Diagnostic>>)
    requires p !in s.owner
    ensures Completed(s, p, result) == s.(flights := s.flights - {p})
  {}

  // ----- losses and getting stuck -----------------------------------------------------------------------------

  /** A group has lost a call exactly if it can get stuck without losing another. */
  lemma {:induction false} LossMeansStuck(s: State, f: File)
    requires Inv(s) && f in s.groups
    ensures s.leaked[f] > 0 <==> exists es :: CanRun(s, es) && LosesNone(s, es, f) && Stuck(Run(s, es), f)
  {
    hide GroupOk, Owned, Step, Enabled, Stuck, LosesNone;
    InvGroups(s);
    if s.leaked[f] > 0 {
      var es := GetsStuck(s, f);
    } else {
      forall es | CanRun(s, es) && LosesNone(s, es, f)
        ensures !Stuck(Run(s, es), f)
      {
        RunOk(s, es);
        NothingLost(s, es, f);
        StuckHasLost(Run(s, es), f);
      }
    }
  }

  lemma {:induction false} StuckHasLost(s: State, f: File)
    requires Inv(s)
    ensures Stuck(s, f) ==> f in s.groups && f in s.leaked && s.leaked[f] > 0
  {
    if Stuck(s, f) {
      StuckOnlyByLeak(s, f);
    }
  }

  /** After a loss: the calls under way report, and the file is opened again. */
  lemma {:induction false} GetsStuck(s: State, f: File) returns (es: seq<Event>)
    requires Inv(s) && f in s.groups && s.leaked[f] > 0
    ensures CanRun(s, es) && LosesNone(s, es, f) && Stuck(Run(s, es), f)
    decreases |Active(s, f)|
  {
    hide GroupOk, Owned, Step, Enabled, Stuck, Loses, LosesNone, Active;
    if Active(s, f) == {} {
      es := SticksNow(s, f);
    } else {
      Nonempty(Active(s, f));
      var p :| p in Active(s, f);
      var e := Reported(p, None);
      ActiveEnds(s, f, p);
      StepOk(s, e);
      LeakStep(s, e, f);
      GroupsStay(s, e);
      var rest := GetsStuck(Step(s, e), f);
      es := [e] + rest;
      RunOne(s, e, rest);
      LosesOne(s, e, rest, f);
    }
  }

  lemma {:induction false} Nonempty(todo: set<int>)
    ensures todo == {} || exists f :: f in todo
  {
    if forall f :: f !in todo {
      assert todo == {};
    }
  }

  lemma {:induction false} ActiveEnds(s: State, f: File, p: Provider)
    requires Inv(s) && p in Active(s, f)
    ensures Enabled(s, Reported(p, None)) && Loses(s, Reported(p, None), f) == 0
    ensures Active(Step(s, Reported(p, None)), f) == Active(s, f) - {p}
  {
    hide Completed, GroupOk;
    CompletedOk(s, p, None);
    CompletedFlights(s, p, None);
    OwnedSame(s, Completed(s, p, None), f);
  }

  lemma {:induction false} LosesOne(s: State, e: Event, es: seq<Event>, f: File)
    requires Enabled(s, e) && CanRun(Step(s, e), es) && Loses(s, e, f) == 0 && LosesNone(Step(s, e), es, f)
    ensures CanRun(s, [e] + es) && LosesNone(s, [e] + es, f)
  {
    RunOne(s, e, es);
    assert ([e] + es)[1..] == es;
  }

  lemma {:induction false} SticksNow(s: State, f: File) returns (es: seq<Event>)
    requires Inv(s) && f in s.groups && s.leaked[f] > 0 && Active(s, f) == {}
    ensures CanRun(s, es) && LosesNone(s, es, f) && Stuck(Run(s, es), f)
  {
    hide GroupOk, Owned, Step, Enabled, Stuck, Loses, LosesNone, Active;
    var e := Opened(f, []);
    OpenedAgain(s, f);
    StepOk(s, e);
    var s1 := Step(s, e);
    LeakStep(s, e, f);
    var rest := [];
    if s1.timer {
      FiredAgain(s1, f);
      rest := [Fired] + [];
      NoneLost(Step(s1, Fired), f);
      RunOne(s1, Fired, []);
      LosesOne(s1, Fired, [], f);
    } else {
      StuckIs(s1, f);
      NoneLost(s1, f);
    }
    es := [e] + rest;
    RunOne(s, e, rest);
    LosesOne(s, e, rest, f);
  }

  lemma {:induction false} NoneLost(s: State, f: File)
    ensures CanRun(s, []) && LosesNone(s, [], f) && Run(s, []) == s
  {}

  lemma {:induction false} StuckIs(s: State, f: File)
    requires f in s.groups && s.groups[f].needs && s.groups[f].adapter.Some? && !s.timer && Active(s, f) == {}
    ensures Stuck(s, f)
  {}

  /** Opening a file again asks for a diagnosis and starts none. */
  lemma {:induction false} OpenedAgain(s: State, f: File)
    requires Inv(s) && f in s.groups && Active(s, f) == {}
    ensures Enabled(s, Opened(f, [])) && Loses(s, Opened(f, []), f) == 0
    ensures var s' := Step(s, Opened(f, []));
            f in s'.groups && s'.groups[f].needs && s'.groups[f].adapter.Some? && Active(s', f) == {}
  {
    hide GroupOk;
    OpenedOk(s, f, []);
    var s' := FileOpened(s, f, []);
    forall p
      ensures p !in Active(s', f)
    {
      assert p in s'.owner && p in s'.flights && s'.owner[p] == f ==> p in Active(s, f);
    }
  }

  /** The timer passes over a group that counts a lost call. */
  lemma {:induction false} FiredAgain(s: State, f: File)
    requires Inv(s) && s.timer && f in s.groups && s.leaked[f] > 0
    requires s.groups[f].needs && s.groups[f].adapter.Some? && Active(s, f) == {}
    ensures Enabled(s, Fired) && Loses(s, Fired, f) == 0 && Stuck(Step(s, Fired), f)
  {
    assert GroupOk(s.groups[f], Owned(s, f), s.flights, s.timer, s.leaked[f]);
    hide GroupOk, Owned, Started;
    FiredFlights(s, f);
    OwnedSame(s, TimerFired(s), f);
  }
}
