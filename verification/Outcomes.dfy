/** What each event does to all that can be seen of the groups: who is asked,
    what is reported, which diagnosis will come. */
module Outcomes {
  import opened TextEdits
  import opened Diagnosing

  // ----- what can be seen of a group -----------------------------------------------------------------

  /** The providers with a list for the group, be it the dummy one. */
  ghost function Keys(g: Group): set<Provider> {
    if g.table.Some? then g.table.value.Keys else {}
  }

  ghost function Members(ps: seq<Provider>): (r: set<Provider>)
    ensures forall p :: p in r <==> p in ps
  {
    set p | p in ps
  }

  /** The group of the file, if need be a new one. */
  ghost function GroupOf(s: State, f: File): Group {
    if f in s.groups then s.groups[f] else NEW_GROUP
  }

  /** What neither a provider nor a wish changes. */
  ghost predicate SameMarks(g: Group, g': Group) {
    && g'.inDiagnose == g.inDiagnose && g'.wasRemoved == g.wasRemoved
    && g'.hasDiagnostics == g.hasDiagnostics && g'.sequence == g.sequence
  }

  // ----- wishes and reports ---------------------------------------------------------------------------

  /** Nothing has been reported or taken back. */
  ghost predicate SameEntries(groups: map<File, Group>, groups': map<File, Group>) {
    forall f: File, q: Provider :: Entries(groups', f, q) == Entries(groups, f, q)
  }

  /** The file has its group, which wants a diagnosis; the timer is queued unless
      calls are counted, and only for that; no other group is touched. */
  ghost predicate Wished(s: State, s': State, f: File) {
    && f in s'.groups && s'.groups[f].needs && (s'.timer || s'.groups[f].inDiagnose != 0)
    && (s'.timer ==> s.timer || s'.groups[f].inDiagnose == 0) && (s.timer ==> s'.timer)
    && s'.groups.Keys == s.groups.Keys + {f} && forall x :: x in s.groups && x != f ==> s'.groups[x] == s.groups[x]
  }

  lemma {:induction false} QueueMeans(s: State, f: File)
    requires f in s.groups
    ensures var s' := QueueDiagnose(s, f);
            && (Inv(s) ==> Inv(s')) && Wished(s, s', f) && SameEntries(s.groups, s'.groups)
            && s'.groups[f] == s.groups[f].(needs := true) && s'.owner == s.owner && s'.flights == s.flights
  {
    hide GroupOk, Owned;
    if Inv(s) {
      QueueOk(s, f);
    }
  }

  lemma {:induction false} ChangedMeans(s: State, f: File)
    ensures var s' := FileChanged(s, f);
            && (Inv(s) ==> Inv(s')) && Wished(s, s', f) && SameEntries(s.groups, s'.groups)
            && s'.groups[f] == GroupOf(s, f).(needs := true) && s'.owner == s.owner && s'.flights == s.flights
  {
    hide GroupOk, Owned, Entries, QueueDiagnose;
    QueueMeans(FindGroup(s, f), f);
    FoundEntries(s, f);
    if Inv(s) {
      StepOk(s, Changed(f));
    }
  }

  lemma {:induction false} FoundEntries(s: State, f: File)
    ensures SameEntries(s.groups, FindGroup(s, f).groups)
  {}

  /** The provider is one of the extensions of the file, with nothing reported;
      and a diagnosis is wished for. */
  ghost predicate Attached(s: State, s': State, f: File, p: Provider)
    requires f in s.groups
  {
    && Wished(s, s', f) && SameMarks(s.groups[f], s'.groups[f]) && s'.flights == s.flights
    && s'.owner == s.owner[p := f] && s'.groups[f].adapter == Some(Extensions(s.groups[f]) + {p})
    && (s'.groups[f].table.Some? <==> s.groups[f].table.Some?)
    && Keys(s'.groups[f]) == Keys(s.groups[f]) + (if s.groups[f].table.Some? then {p} else {})
    && forall x: File, q: Provider ::
         Entries(s'.groups, x, q) == if x == f && q == p then [] else Entries(s.groups, x, q)
  }

  lemma {:induction false} AddedMeans(s: State, f: File, p: Provider)
    requires f in s.groups
    ensures Attached(s, ExtensionAdded(s, f, p), f, p)
    ensures Inv(s) && Enabled(s, Added(f, p)) ==> Inv(ExtensionAdded(s, f, p))
  {
    hide GroupOk, Owned;
    if Inv(s) && Enabled(s, Added(f, p)) {
      StepOk(s, Added(f, p));
    }
  }

  /** A report of p changes no list but that of p for its file, and no schedule. */
  lemma {:induction false} AddOneMeans(s: State, p: Provider, d: Diagnostic)
    ensures var s' := WithNewGroups(s, AddOne(s.groups, p, d));
            && (Inv(s) ==> Inv(s'))
            && (forall f: File, q: Provider ::
                  Entries(s'.groups, f, q) == Entries(s.groups, f, q) + if q == p && d.file == Some(f) then [d] else [])
            && (forall f :: f in s.groups ==> f in s'.groups && SameSchedule(s.groups[f], s'.groups[f]))
            && (forall f :: f in s.groups && d.file != Some(f) ==> s'.groups[f] == s.groups[f])
  {
    hide GroupOk, Owned, Entries;
    forall f: File, q: Provider
      ensures Entries(AddOne(s.groups, p, d), f, q) ==
                Entries(s.groups, f, q) + if q == p && d.file == Some(f) then [d] else []
    {
      AddOneEntries(s.groups, p, d, f, q);
    }
    if Inv(s) {
      AddOneOk(s, p, d);
    }
  }

  lemma {:induction false} AddOneOk(s: State, p: Provider, d: Diagnostic)
    requires Inv(s)
    ensures Inv(WithNewGroups(s, AddOne(s.groups, p, d)))
  {
    hide GroupOk, Owned;
    var s' := WithNewGroups(s, AddOne(s.groups, p, d));
    forall x | x in s'.groups
      ensures GroupOk(s'.groups[x], Owned(s', x), s'.flights, s'.timer, s'.leaked[x])
    {
      OwnedSame(s, s', x);
      if x in s.groups {
        SameOk(s.groups[x], s'.groups[x], Owned(s, x), s.flights, s.timer, s.leaked[x]);
      } else {
        OwnedNone(s, x);
        NewGroup(s'.groups[x], s'.flights, s'.timer);
      }
    }
  }

  // ----- opening -----------------------------------------------------------------------------------------

  /** With a new adapter all its extensions are attached, with nothing reported;
      an old one stays as it is.  A diagnosis is wished for, and nothing else
      changes. */
  ghost predicate OpenedTo(s: State, s': State, f: File, ps: seq<Provider>) {
    && Wished(s, s', f) && s'.groups[f].table.Some? && SameMarks(GroupOf(s, f), s'.groups[f]) && s'.flights == s.flights
    && if GroupOf(s, f).adapter == None then
         && s'.groups[f].adapter == Some(Members(ps))
         && (forall p :: p in ps ==> p in s'.owner && s'.owner[p] == f)
         && (forall p :: p !in ps ==> (p in s'.owner <==> p in s.owner))
         && (forall p :: p !in ps && p in s.owner ==> s'.owner[p] == s.owner[p])
         && Keys(s'.groups[f]) == Keys(GroupOf(s, f)) + Members(ps)
         && forall x: File, q: Provider ::
              Entries(s'.groups, x, q) == if x == f && q in ps then [] else Entries(s.groups, x, q)
       else
         && s'.groups[f].adapter == GroupOf(s, f).adapter && s'.owner == s.owner
         && Keys(s'.groups[f]) == Keys(GroupOf(s, f)) && SameEntries(s.groups, s'.groups)
  }

  /** After the loop over the extensions of a new adapter. */
  ghost predicate AllAttached(s: State, s': State, f: File, ps: seq<Provider>)
    requires f in s.groups
  {
    && s'.groups.Keys == s.groups.Keys && (forall x :: x in s.groups && x != f ==> s'.groups[x] == s.groups[x])
    && SameMarks(s.groups[f], s'.groups[f]) && s'.flights == s.flights
    && (s'.timer ==> s.timer || s.groups[f].inDiagnose == 0) && (s.timer ==> s'.timer)
    && s'.groups[f].adapter == Some(Extensions(s.groups[f]) + Members(ps))
    && (forall p :: p in ps ==> p in s'.owner && s'.owner[p] == f)
    && (forall p :: p !in ps ==> (p in s'.owner <==> p in s.owner))
    && (forall p :: p !in ps && p in s.owner ==> s'.owner[p] == s.owner[p])
    && s'.groups[f].table.Some? && Keys(s'.groups[f]) == Keys(s.groups[f]) + Members(ps)
    && forall x: File, q: Provider ::
         Entries(s'.groups, x, q) == if x == f && q in ps then [] else Entries(s.groups, x, q)
  }

  lemma {:induction false} NoneAttached(s: State, f: File)
    requires f in s.groups && s.groups[f].table.Some? && s.groups[f].adapter.Some?
    ensures AllAttached(s, s, f, [])
  {
    var g := s.groups[f];
    assert Extensions(g) + Members([]) == Extensions(g) && Keys(g) + Members([]) == Keys(g);
  }

  lemma {:induction false} ManyAdded(s: State, f: File, ps: seq<Provider>)
    requires f in s.groups && s.groups[f].table.Some? && s.groups[f].adapter.Some?
    ensures AllAttached(s, AddExtensions(s, f, ps), f, ps)
  {
    hide AllAttached, ExtensionAdded;
    if ps == [] {
      NoneAttached(s, f);
    } else {
      var before, p := ps[..|ps| - 1], ps[|ps| - 1];
      assert ps == before + [p];
      ManyAdded(s, f, before);
      var s1 := AddExtensions(s, f, before);
      AddedMeans(s1, f, p);
      OneMoreAttached(s, s1, ExtensionAdded(s1, f, p), f, before, p);
    }
  }

  lemma {:induction false} OneMoreAttached(s: State, s1: State, s2: State, f: File, before: seq<Provider>, p: Provider)
    requires f in s.groups && f in s1.groups && AllAttached(s, s1, f, before) && Attached(s1, s2, f, p)
    ensures AllAttached(s, s2, f, before + [p])
  {
    hide Entries, Members;
    var ps := before + [p];
    MembersMore(before, p);
    assert Extensions(s2.groups[f]) == Extensions(s.groups[f]) + Members(ps);
    assert Keys(s2.groups[f]) == Keys(s.groups[f]) + Members(ps);
    assert s2.groups.Keys == s.groups.Keys;
  }

  lemma {:induction false} MembersMore(before: seq<Provider>, p: Provider)
    ensures Members(before + [p]) == Members(before) + {p}
    ensures forall q :: q in before + [p] <==> q in before || q == p
  {}

  /** The group of the file with table and adapter, but as it was otherwise. */
  ghost predicate Readied(s: State, s1: State, f: File) {
    && f in s1.groups && s1.groups == s.groups[f := s1.groups[f]]
    && s1.owner == s.owner && s1.flights == s.flights && s1.timer == s.timer
    && SameMarks(GroupOf(s, f), s1.groups[f]) && Keys(s1.groups[f]) == Keys(GroupOf(s, f))
    && s1.groups[f].table.Some? && SameEntries(s.groups, s1.groups)
    && s1.groups[f].adapter == if GroupOf(s, f).adapter == None then Some({}) else GroupOf(s, f).adapter
  }

  ghost function Ready(g: Group): Group {
    g.(table := if g.table == None then Some(map[]) else g.table,
       adapter := if g.adapter == None then Some({}) else g.adapter)
  }

  lemma {:induction false} ReadyMeans(s: State, f: File)
    ensures var s0 := FindGroup(s, f); Readied(s, s0.(groups := s0.groups[f := Ready(s0.groups[f])]), f)
  {}

  lemma {:induction false} OpenedMeans(s: State, f: File, ps: seq<Provider>)
    ensures OpenedTo(s, FileOpened(s, f, ps), f, ps)
  {
    hide Members, AddExtensions, QueueDiagnose, SameEntries, Wished, AllAttached, OpenedTo, Readied;
    var s0 := FindGroup(s, f);
    var s1 := s0.(groups := s0.groups[f := Ready(s0.groups[f])]);
    ReadyMeans(s, f);
    if s0.groups[f].adapter == None {
      ManyAdded(s1, f, ps);
      QueueMeans(AddExtensions(s1, f, ps), f);
      OpenedNew(s, s1, AddExtensions(s1, f, ps), FileOpened(s, f, ps), f, ps);
    } else {
      OpenedOld(s, s1, f, ps);
    }
  }

  lemma {:induction false} OpenedNew(s: State, s1: State, s2: State, s': State, f: File, ps: seq<Provider>)
    requires GroupOf(s, f).adapter == None && Readied(s, s1, f) && AllAttached(s1, s2, f, ps)
    requires Wished(s2, s', f) && SameEntries(s2.groups, s'.groups) && f in s2.groups
    requires s'.groups[f] == s2.groups[f].(needs := true) && s'.owner == s2.owner && s'.flights == s2.flights
    ensures OpenedTo(s, s', f, ps)
  {
    hide Members, Entries, SameMarks, Keys;
    SameMarksAfter(GroupOf(s, f), s1.groups[f], s2.groups[f]);
    assert {} + Members(ps) == Members(ps) && Extensions(s1.groups[f]) == {};
    assert s'.groups.Keys == s.groups.Keys + {f};
  }

  lemma {:induction false} SameMarksAfter(g: Group, g1: Group, g2: Group)
    requires SameMarks(g, g1) && SameMarks(g1, g2)
    ensures SameMarks(g, g2.(needs := true)) && Keys(g2.(needs := true)) == Keys(g2)
    ensures g2.inDiagnose == g1.inDiagnose == g.inDiagnose
  {}

  lemma {:induction false} OpenedOld(s: State, s1: State, f: File, ps: seq<Provider>)
    requires GroupOf(s, f).adapter.Some? && Readied(s, s1, f)
    ensures OpenedTo(s, QueueDiagnose(s1, f), f, ps)
  {
    hide Members, Entries, QueueDiagnose;
    QueueMeans(s1, f);
    assert QueueDiagnose(s1, f).groups.Keys == s.groups.Keys + {f};
  }

  // ----- providers that leave ------------------------------------------------------------------------------

  /** A group when a provider leaves, which may be an extension of its own. */
  ghost predicate Left(g: Group, g': Group, p: Provider, own: bool) {
    && SameMarks(g, g') && g'.needs == g.needs && (g'.adapter.Some? <==> g.adapter.Some?)
    && Extensions(g') == Extensions(g) - (if own then {p} else {})
    && Keys(g') == Keys(g) - {p} && (g'.table.Some? <==> Keys(g') != {})
  }

  /** What a provider has reported is gone from every file, and it is no longer
      an extension; its call stays under way. */
  ghost predicate Detached(s: State, s': State, p: Provider)
    requires p in s.owner
  {
    && s'.owner == s.owner - {p} && s'.flights == s.flights && s'.timer == s.timer && s'.groups.Keys == s.groups.Keys
    && (forall x :: x in s.groups ==> Left(s.groups[x], s'.groups[x], p, x == s.owner[p]))
    && forall x: File, q: Provider :: Entries(s'.groups, x, q) == if q == p then [] else Entries(s.groups, x, q)
  }

  lemma {:induction false} RemovedMeans(s: State, p: Provider)
    requires p in s.owner && s.owner[p] in s.groups
    ensures Detached(s, ExtensionRemoved(s, p), p)
  {
    hide ClearGroup, Left, Entries;
    var f := s.owner[p];
    var g := s.groups[f];
    var g1 := g.(adapter := if g.adapter.Some? then Some(g.adapter.value - {p}) else None);
    var groups := s.groups[f := g1];
    forall x | x in s.groups
      ensures Left(s.groups[x], ClearGroup(groups[x], p), p, x == f)
    {
      LeftGroup(s.groups[x], p, x == f);
    }
    forall x: File, q: Provider
      ensures Entries(Clear(groups, p), x, q) == if q == p then [] else Entries(s.groups, x, q)
    {
      ClearEntries(groups, p, x, q);
      OtherAdapter(s.groups, f, g1, x, q);
    }
  }

  lemma {:induction false} OtherAdapter(groups: map<File, Group>, f: File, g: Group, x: File, q: Provider)
    requires f in groups && g.table == groups[f].table
    ensures Entries(groups[f := g], x, q) == Entries(groups, x, q)
  {}

  lemma {:induction false} LeftGroup(g: Group, p: Provider, own: bool)
    ensures var g1 := if own then g.(adapter := if g.adapter.Some? then Some(g.adapter.value - {p}) else None) else g;
            Left(g, ClearGroup(g1, p), p, own)
  {
    if g.table.Some? {
      var t := g.table.value;
      assert (t - {p}).Keys == t.Keys - {p};
      NoKeys(t - {p});
    }
  }

  lemma {:induction false} NoKeys<X>(m: map<Provider, X>)
    ensures m == map[] <==> m.Keys == {}
  {
    if m.Keys == {} {
      assert forall p :: p !in m;
    }
  }

  // ----- closing -------------------------------------------------------------------------------------------

  /** A group when providers leave of which none is an extension of its own. */
  ghost predicate LeftBy(g: Group, g': Group, ps: seq<Provider>) {
    && SameMarks(g, g') && SameSchedule(g, g') && Keys(g') == Keys(g) - Members(ps)
    && (g'.table.Some? <==> if ps == [] then g.table.Some? else Keys(g') != {})
  }

  /** The extensions of the file are gone, with all they have reported, and so is
      the wish; what other providers have reported stays, also for the file. */
  ghost predicate ClosedTo(s: State, s': State, f: File, ps: seq<Provider>) {
    && f in s'.groups && s'.groups[f].adapter == None && !s'.groups[f].needs
    && s'.groups.Keys == s.groups.Keys + {f} && s'.flights == s.flights && s'.timer == s.timer
    && s'.owner == s.owner - Members(ps)
    && SameMarks(GroupOf(s, f), s'.groups[f].(hasDiagnostics := GroupOf(s, f).hasDiagnostics))
    && (s'.groups[f].hasDiagnostics <==> exists q :: Entries(s.groups, f, q) != [])
    && Keys(s'.groups[f]) == Keys(GroupOf(s, f)) - Members(ps)
    && (s'.groups[f].table.Some? <==> Keys(s'.groups[f]) != {})
    && (forall x :: x in s.groups && x != f ==> LeftBy(s.groups[x], s'.groups[x], ps))
    && forall x: File, q: Provider :: Entries(s'.groups, x, q) == if q in ps then [] else Entries(s.groups, x, q)
  }

  /** After the loop that unloads the extensions of a group whose adapter is gone. */
  ghost predicate AllDetached(s: State, s': State, ps: seq<Provider>) {
    && s'.owner == s.owner - Members(ps) && s'.flights == s.flights && s'.timer == s.timer
    && s'.groups.Keys == s.groups.Keys
    && (forall x :: x in s.groups ==> LeftBy(s.groups[x], s'.groups[x], ps))
    && forall x: File, q: Provider :: Entries(s'.groups, x, q) == if q in ps then [] else Entries(s.groups, x, q)
  }

  lemma {:induction false} ManyRemoved(s: State, f: File, ps: seq<Provider>)
    requires f in s.groups && s.groups[f].adapter == None && NoRepeats(ps)
    requires forall p :: p in ps ==> p in s.owner && s.owner[p] == f
    ensures AllDetached(s, RemoveExtensions(s, ps), ps)
  {
    if ps == [] {
      NoneDetached(s);
    } else {
      hide ExtensionRemoved, Entries, LeftBy, Detached;
      var before, p := ps[..|ps| - 1], ps[|ps| - 1];
      assert ps == before + [p] && p !in before;
      ManyRemoved(s, f, before);
      var s1 := RemoveExtensions(s, before);
      assert p in s1.owner && s1.owner[p] == f;
      LeftAdapter(s.groups[f], s1.groups[f], before);
      RemovedMeans(s1, p);
      OneMoreDetached(s, s1, ExtensionRemoved(s1, p), f, before, p);
    }
  }

  lemma {:induction false} LeftAdapter(g: Group, g': Group, ps: seq<Provider>)
    requires LeftBy(g, g', ps)
    ensures g'.adapter == g.adapter
  {}

  lemma {:induction false} NoneDetached(s: State)
    ensures AllDetached(s, s, [])
  {
    assert s.owner - Members([]) == s.owner;
    assert forall x :: x in s.groups ==> Keys(s.groups[x]) - Members([]) == Keys(s.groups[x]);
  }

  lemma {:induction false} OneMoreDetached(s: State, s1: State, s2: State, f: File, before: seq<Provider>, p: Provider)
    requires f in s1.groups && s1.groups[f].adapter == None && p in s1.owner && s1.owner[p] == f
    requires AllDetached(s, s1, before) && Detached(s1, s2, p)
    ensures AllDetached(s, s2, before + [p])
  {
    hide Entries, Members, Left, LeftBy;
    MembersMore(before, p);
    assert s2.owner == s.owner - Members(before + [p]);
    forall x | x in s.groups
      ensures LeftBy(s.groups[x], s2.groups[x], before + [p])
    {
      LeftMore(s.groups[x], s1.groups[x], s2.groups[x], before, p, x == f);
    }
  }

  lemma {:induction false} LeftMore(g: Group, g1: Group, g2: Group, before: seq<Provider>, p: Provider, own: bool)
    requires LeftBy(g, g1, before) && Left(g1, g2, p, own) && (own ==> g1.adapter == None)
    ensures LeftBy(g, g2, before + [p])
  {
    MembersMore(before, p);
    assert Keys(g2) == Keys(g) - Members(before + [p]);
    assert !own ==> Extensions(g1) - {} == Extensions(g1);
  }

  lemma {:induction false} ClosedMeans(s: State, f: File, ps: seq<Provider>)
    requires Inv(s) && Enabled(s, Closed(f, ps))
    ensures ClosedTo(s, FileClosed(s, f, ps), f, ps)
  {
    hide GroupOk, Owned, AllDetached, ClosedTo;
    forall p | p in ps
      ensures p in s.owner && s.owner[p] == f
    {
      OwnerOf(s, f, p);
    }
    var s0 := FindGroup(s, f);
    var s1 := s0.(groups := s0.groups[f := s0.groups[f].(needs := false, adapter := None)]);
    ManyRemoved(s1, f, ps);
    var s2 := RemoveExtensions(s1, ps);
    CloseUp(s, s1, s2, FileClosed(s, f, ps), f, ps);
  }

  lemma {:induction false} CloseUp(s: State, s1: State, s2: State, s': State, f: File, ps: seq<Provider>)
    requires s1.groups == s.groups[f := GroupOf(s, f).(needs := false, adapter := None)]
    requires s1.owner == s.owner && s1.flights == s.flights && s1.timer == s.timer && AllDetached(s1, s2, ps)
    requires f in s2.groups
    requires var g := s2.groups[f];
             s' == s2.(groups := s2.groups[f := g.(table := if g.table == Some(map[]) then None else g.table,
                                                   hasDiagnostics := HasDiagnostics(GroupOf(s, f)))])
    ensures ClosedTo(s, s', f, ps)
  {
    hide Entries, LeftBy, HasDiagnostics, Members;
    HadEntries(s.groups, f);
    assert LeftBy(s1.groups[f], s2.groups[f], ps);
    ClosedGroupMeans(GroupOf(s, f), s2.groups[f], ps);
    assert s1.groups.Keys == s.groups.Keys + {f};
    forall x: File, q: Provider
      ensures Entries(s'.groups, x, q) == if q in ps then [] else Entries(s.groups, x, q)
    {
      OtherMarks(s.groups, f, s1.groups[f], x, q);
      NoDummies(s2.groups, f, s'.groups[f], x, q);
    }
  }

  lemma {:induction false} ClosedGroupMeans(g: Group, g2: Group, ps: seq<Provider>)
    requires LeftBy(g.(needs := false, adapter := None), g2, ps)
    ensures g2.adapter == None && !g2.needs && SameMarks(g, g2) && Keys(g2) == Keys(g) - Members(ps)
    ensures g2.table.Some? ==> (g2.table == Some(map[]) <==> Keys(g2) == {})
  {
    if g2.table.Some? {
      NoKeys(g2.table.value);
    }
  }

  lemma {:induction false} OtherMarks(groups: map<File, Group>, f: File, g: Group, x: File, q: Provider)
    requires g.table == if f in groups then groups[f].table else None
    ensures Entries(groups[f := g], x, q) == Entries(groups, x, q)
  {}

  lemma {:induction false} NoDummies(groups: map<File, Group>, f: File, g: Group, x: File, q: Provider)
    requires f in groups && g.table == if groups[f].table == Some(map[]) then None else groups[f].table
    ensures Entries(groups[f := g], x, q) == Entries(groups, x, q)
  {}

  lemma {:induction false} HadEntries(groups: map<File, Group>, f: File)
    ensures HasDiagnostics(if f in groups then groups[f] else NEW_GROUP) <==> exists q :: Entries(groups, f, q) != []
  {
    if f in groups && HasDiagnostics(groups[f]) {
      var q :| q in groups[f].table.value && groups[f].table.value[q].Some? && groups[f].table.value[q].value != [];
      assert Entries(groups, f, q) != [];
    }
  }

  // ----- the timer -------------------------------------------------------------------------------------------

  /** Exactly the groups that want a diagnosis, have an adapter and count no call
      are asked: then every provider of theirs has a call under way, and these
      calls are counted.  All other groups stay as they are, and so do their calls. */
  ghost predicate FiredTo(s: State, s': State) {
    && !s'.timer && s'.owner == s.owner && s'.groups.Keys == s.groups.Keys
    && (forall f :: f in s.groups ==>
          if s.groups[f].needs && s.groups[f].adapter.Some? && s.groups[f].inDiagnose == 0 then
            && s'.groups[f] == s.groups[f].(needs := false, hasDiagnostics := false, inDiagnose := |Owned(s, f)|)
            && Active(s', f) == Owned(s, f)
          else
            s'.groups[f] == s.groups[f] && Active(s', f) == Active(s, f))
    && s.flights <= s'.flights
    && (forall p :: p in s'.flights && p !in s.flights ==> AskedFor(s, p))
  }

  /** The provider belongs to a group that wants a diagnosis and counts no call. */
  ghost predicate AskedFor(s: State, p: Provider) {
    && p in s.owner && s.owner[p] in s.groups
    && s.groups[s.owner[p]].needs && s.groups[s.owner[p]].adapter.Some? && s.groups[s.owner[p]].inDiagnose == 0
  }

  lemma {:induction false} FiredMeans(s: State)
    requires Inv(s)
    ensures FiredTo(s, TimerFired(s))
  {
    hide GroupOk, Owned, Started;
    var s' := TimerFired(s);
    forall f | f in s.groups
      ensures if Begins(s.groups[f]) then
                s'.groups[f].inDiagnose == |Owned(s, f)| && Active(s', f) == Owned(s, f)
              else Active(s', f) == Active(s, f)
    {
      FiredFlights(s, f);
      OwnedSame(s, s', f);
      ExtensionsOwned(s, f);
      if Begins(s.groups[f]) {
        assert Owned(s, f) * s'.flights == Owned(s, f);
      }
    }
    forall p | p in Started(s.groups)
      ensures AskedFor(s, p)
    {
      StartedAsked(s, p);
    }
  }

  lemma {:induction false} ExtensionsOwned(s: State, f: File)
    requires Inv(s) && f in s.groups
    ensures s.groups[f].adapter.Some? ==> s.groups[f].adapter.value == Owned(s, f)
  {
    hide Owned;
    assert GroupOk(s.groups[f], Owned(s, f), s.flights, s.timer, s.leaked[f]);
  }

  lemma {:induction false} StartedAsked(s: State, p: Provider)
    requires Inv(s) && p in Started(s.groups)
    ensures AskedFor(s, p)
  {
    hide GroupOk;
    var f :| f in s.groups && Begins(s.groups[f]) && p in Extensions(s.groups[f]);
    ExtensionsOwned(s, f);
    OwnedIn(s, p, f);
  }

  /** Whatever happens, a call is only started for a group that wants a diagnosis
      and counts no call, and only by the timer. */
  lemma {:induction false} CallsOnlyWhenWished(s: State, e: Event, p: Provider)
    requires Inv(s) && Enabled(s, e) && p in Step(s, e).flights && p !in s.flights
    ensures e == Fired && AskedFor(s, p)
  {
    hide Owned, Started, FileClosed, FileOpened, GroupOk, Completed, AskedFor;
    match e
    case Opened(x, ps) => OpenedOk(s, x, ps);
    case Closed(x, ps) => ClosedOk(s, x, ps);
    case Reported(q, result) => CompletedFlights(s, q, result);
    case Fired => FiredMeans(s);
    case _ =>
  }

  // ----- completion ----------------------------------------------------------------------------------------------

  /** A group before its provider reports, and after. */
  ghost predicate Relisted(g: Group, g': Group, p: Provider, ds: seq<Diagnostic>) {
    && SameSchedule(g, g') && g'.hasDiagnostics == (g.hasDiagnostics || ds != []) && g'.sequence == g.sequence + |ds|
    && Keys(g') == Keys(g) - {p} + (if ds != [] then {p} else {})
    && (g'.table.Some? <==> Keys(g') != {})
  }

  /** A call has completed: its provider has for every file what it reports now;
      the next diagnosis is queued if the group wants one and this was the last
      call counted. */
  ghost predicate ReportedTo(s: State, s': State, p: Provider, ds: seq<Diagnostic>)
    requires p in s.owner && s.owner[p] in s.groups
  {
    var own := s.owner[p];
    && s'.owner == s.owner && s'.flights == s.flights - {p}
    && (s'.timer <==> s.timer || (s.groups[own].needs && s.groups[own].inDiagnose == 1))
    && (forall x :: x in s'.groups <==> x in s.groups || ForFile(ds, x) != [])
    && (forall x :: x in s'.groups ==>
          Relisted(GroupOf(s, x).(inDiagnose := GroupOf(s, x).inDiagnose - if x == own then 1 else 0,
                                  sequence := GroupOf(s, x).sequence + if x == own then 1 else 0),
                   s'.groups[x], p, ForFile(ds, x)))
    && forall x: File, q: Provider ::
         Entries(s'.groups, x, q) == if q == p then ForFile(ds, x) else Entries(s.groups, x, q)
  }

  /** After the loop over the reported diagnostics. */
  ghost predicate AllAdded(groups: map<File, Group>, groups': map<File, Group>, p: Provider, ds: seq<Diagnostic>) {
    && (forall x :: x in groups' <==> x in groups || ForFile(ds, x) != [])
    && forall x :: x in groups' ==> AddedTo(if x in groups then groups[x] else NEW_GROUP, groups'[x], p, ForFile(ds, x))
  }

  ghost predicate AddedTo(g: Group, g': Group, p: Provider, ds: seq<Diagnostic>) {
    && SameSchedule(g, g') && g'.hasDiagnostics == (g.hasDiagnostics || ds != []) && g'.sequence == g.sequence + |ds|
    && g'.table == if ds == [] then g.table
                   else Some((if g.table.Some? then g.table.value else map[])[p := Some(Reports(g, p) + ds)])
  }

  ghost function Reports(g: Group, p: Provider): seq<Diagnostic> {
    if g.table.Some? && p in g.table.value && g.table.value[p].Some? then g.table.value[p].value else []
  }

  lemma {:induction false} ManyReported(groups: map<File, Group>, p: Provider, ds: seq<Diagnostic>)
    ensures AllAdded(groups, AddAll(groups, p, ds), p, ds)
  {
    if ds == [] {
      forall x | x in groups
        ensures AddedTo(groups[x], groups[x], p, [])
      {
        NothingAdded(groups[x], p);
      }
    } else {
      hide AddedTo, GroupAdd, AddOne;
      var before, d := ds[..|ds| - 1], ds[|ds| - 1];
      ManyReported(groups, p, before);
      OneMoreAdded(groups, AddAll(groups, p, before), p, before, d);
      assert ds == before + [d];
    }
  }

  lemma {:induction false} OneMoreAdded(groups: map<File, Group>, groups1: map<File, Group>, p: Provider,
                                        before: seq<Diagnostic>, d: Diagnostic)
    requires AllAdded(groups, groups1, p, before)
    ensures AllAdded(groups, AddOne(groups1, p, d), p, before + [d])
  {
    hide AddedTo, GroupAdd, ForFile;
    var groups2 := AddOne(groups1, p, d);
    forall x: File
      ensures ForFile(before + [d], x) == ForFile(before, x) + if d.file == Some(x) then [d] else []
    {
      ForFileMore(before, d, x);
    }
    forall x | x in groups2
      ensures AddedTo(if x in groups then groups[x] else NEW_GROUP, groups2[x], p, ForFile(before + [d], x))
    {
      var g := if x in groups then groups[x] else NEW_GROUP;
      var g1 := if x in groups1 then groups1[x] else NEW_GROUP;
      NothingAdded(g, p);
      assert AddedTo(g, g1, p, ForFile(before, x));
      assert ForFile(before, x) + [] == ForFile(before, x);
      if d.file == Some(x) {
        OneAdded(g, g1, p, ForFile(before, x), d);
      }
    }
  }

  lemma {:induction false} ForFileMore(before: seq<Diagnostic>, d: Diagnostic, x: File)
    ensures ForFile(before + [d], x) == ForFile(before, x) + if d.file == Some(x) then [d] else []
  {
    assert (before + [d])[..|before|] == before;
  }

  lemma {:induction false} NothingAdded(g: Group, p: Provider)
    ensures AddedTo(g, g, p, [])
  {}

  lemma {:induction false} OneAdded(g: Group, g1: Group, p: Provider, ds: seq<Diagnostic>, d: Diagnostic)
    requires AddedTo(g, g1, p, ds)
    ensures AddedTo(g, GroupAdd(g1, p, d), p, ds + [d])
  {
    var t := if g.table.Some? then g.table.value else map[];
    assert Reports(g1, p) == Reports(g, p) + ds;
    assert (Reports(g, p) + ds) + [d] == Reports(g, p) + (ds + [d]);
    assert t[p := Some(Reports(g, p) + ds)][p := Some(Reports(g, p) + (ds + [d]))] ==
      t[p := Some(Reports(g, p) + (ds + [d]))];
  }

  lemma {:induction false} CompletedIsCounted(s: State, p: Provider, result: Option<seq<Diagnostic>>)
    requires Inv(s) && p in s.flights && p in s.owner
    ensures s.owner[p] in s.groups
    ensures var g := s.groups[s.owner[p]];
            Completed(s, p, result) ==
              Counted(s, p, if result.Some? then result.value else []).(
                timer := s.timer || (g.needs && g.inDiagnose == 1))
  {
    hide Owned, Completed, Counted;
    var f, ds := s.owner[p], if result.Some? then result.value else [];
    assert GroupOk(s.groups[f], Owned(s, f), s.flights, s.timer, s.leaked[f]);
    hide GroupOk;
    CountedSchedule(s, p, ds);
    CompletedIs(s, p, result, Counted(s, p, ds), s.timer || (s.groups[f].needs && s.groups[f].inDiagnose == 1));
  }

  lemma {:induction false} ClearThenAdd(g: Group, g': Group, p: Provider, ds: seq<Diagnostic>)
    requires AddedTo(ClearGroup(g, p), g', p, ds)
    ensures Relisted(g, g', p, ds)
  {
    if g.table.Some? {
      var t := g.table.value;
      assert (t - {p}).Keys == t.Keys - {p};
      NoKeys(t - {p});
    }
    if ds != [] {
      assert p in g'.table.value;
    }
  }

  lemma {:induction false} ListedAgain(s: State, p: Provider, ds: seq<Diagnostic>, x: File)
    requires p in s.owner && s.owner[p] in s.groups
    ensures x in Counted(s, p, ds).groups <==> x in s.groups || ForFile(ds, x) != []
    ensures x in Counted(s, p, ds).groups ==>
              Relisted(GroupOf(s, x).(inDiagnose := GroupOf(s, x).inDiagnose - if x == s.owner[p] then 1 else 0,
                                      sequence := GroupOf(s, x).sequence + if x == s.owner[p] then 1 else 0),
                       Counted(s, p, ds).groups[x], p, ForFile(ds, x))
  {
    hide AddAll, AddedTo, Relisted, ClearGroup, ForFile;
    var all, own := AddAll(Clear(s.groups, p), p, ds), s.owner[p];
    ManyReported(Clear(s.groups, p), p, ds);
    if x in all {
      ClearNew(p);
      ClearThenAdd(GroupOf(s, x), all[x], p, ForFile(ds, x));
      if x == own {
        RelistedOwn(GroupOf(s, x), all[x], p, ForFile(ds, x));
      }
    }
  }

  lemma {:induction false} ClearNew(p: Provider)
    ensures ClearGroup(NEW_GROUP, p) == NEW_GROUP
  {}

  lemma {:induction false} RelistedOwn(g: Group, g': Group, p: Provider, ds: seq<Diagnostic>)
    requires Relisted(g, g', p, ds)
    ensures Relisted(g.(inDiagnose := g.inDiagnose - 1, sequence := g.sequence + 1),
                     g'.(inDiagnose := g'.inDiagnose - 1, sequence := g'.sequence + 1), p, ds)
  {}

  lemma {:induction false} ReportedMeans(s: State, p: Provider, result: Option<seq<Diagnostic>>)
    requires Inv(s) && p in s.flights && p in s.owner
    ensures s.owner[p] in s.groups
    ensures ReportedTo(s, Completed(s, p, result), p, if result.Some? then result.value else [])
  {
    hide GroupOk, Owned, Completed, Counted, Entries, ForFile, Relisted;
    var ds, s' := if result.Some? then result.value else [], Completed(s, p, result);
    CompletedIsCounted(s, p, result);
    CompletedFlights(s, p, result);
    CompletedOwn(s, p, result);
    forall x: File
      ensures x in s'.groups <==> x in s.groups || ForFile(ds, x) != []
      ensures x in s'.groups ==>
                Relisted(GroupOf(s, x).(inDiagnose := GroupOf(s, x).inDiagnose - if x == s.owner[p] then 1 else 0,
                                        sequence := GroupOf(s, x).sequence + if x == s.owner[p] then 1 else 0),
                         s'.groups[x], p, ForFile(ds, x))
    {
      ListedAgain(s, p, ds, x);
    }
    forall x: File, q: Provider
      ensures Entries(s'.groups, x, q) == if q == p then ForFile(ds, x) else Entries(s.groups, x, q)
    {
      ReportReplaces(s, p, result, x, q);
    }
  }
}
