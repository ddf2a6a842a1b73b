/**
 Nothing is kept for ever (the `Drop` impls of src/providers.rs and src/rdma/verbs.rs): once the
 provider is gone every protection domain it ever made has been deallocated, and every buffer whose
 handle is gone has been freed, each exactly once.
 */
module Releases {
  import opened Common
  import opened Registry
  import opened Interleaving
  import opened ProviderRuns

  function Deallocations(log: seq<Event>): (pds: set<nat>) {
    if log == [] then {}
    else Deallocations(log[..|log| - 1]) + if log[|log| - 1].Deallocated? then log[|log| - 1].pds else {}
  }

  function Frees(log: seq<Event>): (regions: set<u32>) {
    if log == [] then {}
    else Frees(log[..|log| - 1]) + if log[|log| - 1].Freed? then log[|log| - 1].regions else {}
  }

  /** Some group's domain, or that of a connection about to join one. */
  ghost predicate Held(s: State, p: nat) {
    (exists g :: g in s.tabs.groups && s.tabs.groups[g].pd == p) ||
    (SERVICE in s.pcs && s.pcs[SERVICE].Accepted? && s.pcs[SERVICE].connection.pd == p)
  }

  /** Every domain ever made is held, or has been deallocated, once. */
  ghost predicate DomainsFit(s: State) {
    && (forall p: nat :: p < s.nextPd <==> Held(s, p) || p in Deallocations(s.log))
    && (forall p :: p in Deallocations(s.log) ==> !Held(s, p))
    && (forall j :: 0 <= j < |s.log| && s.log[j].Deallocated? ==> s.log[j].pds !! Deallocations(s.log[..j]))
  }

  /** Every buffer ever shared is there, or has been freed, once; what is left at the end is what handles are left. */
  ghost predicate BuffersFit(s: State) {
    && (forall id: u32 :: id < s.nextId <==> id in s.buffers || id in Frees(s.log))
    && s.buffers !! Frees(s.log) && s.handles <= s.buffers && (s.phase == Gone ==> s.buffers == s.handles)
    && (forall j :: 0 <= j < |s.log| && s.log[j].Freed? ==> s.log[j].regions !! Frees(s.log[..j]))
  }

  lemma OneMore(log: seq<Event>, e: Event)
    ensures Deallocations(log + [e]) == Deallocations(log) + if e.Deallocated? then e.pds else {}
    ensures Frees(log + [e]) == Frees(log) + if e.Freed? then e.regions else {}
    ensures forall j :: 0 <= j <= |log| ==> (log + [e])[..j] == log[..j]
    ensures log[..|log|] == log
  {
    assert (log + [e])[..|log|] == log;
  }

  /** A step that logs nothing, or a deregistration, and holds the domains it held. */
  lemma DomainsSame(s: State, t: State)
    requires DomainsFit(s) && t.nextPd == s.nextPd && (forall p: nat :: Held(t, p) <==> Held(s, p))
    requires t.log == s.log || exists m :: t.log == s.log + [Deregistered(m)]
    ensures DomainsFit(t)
  {
    hide Held, Deallocations;
    if m :| t.log == s.log + [Deregistered(m)] { OneMore(s.log, Deregistered(m)); }
  }

  lemma DomainMade(s: State, t: State)
    requires DomainsFit(s) && t.nextPd == s.nextPd + 1 && t.log == s.log
    requires forall p: nat :: Held(t, p) <==> Held(s, p) || p == s.nextPd
    ensures DomainsFit(t)
  {
    hide Held, Deallocations;
  }

  lemma DomainLost(s: State, t: State)
    requires DomainsFit(s) && t.nextPd == s.nextPd + 1 && t.log == s.log + [Deallocated({s.nextPd})]
    requires forall p: nat :: Held(t, p) <==> Held(s, p)
    ensures DomainsFit(t)
  {
    OneMore(s.log, Deallocated({s.nextPd}));
    hide Held, Deallocations;
  }

  lemma DomainGone(s: State, t: State, pd: nat)
    requires DomainsFit(s) && t.nextPd == s.nextPd && t.log == s.log + [Deallocated({pd})] && Held(s, pd)
    requires forall p: nat :: Held(t, p) <==> Held(s, p) && p != pd
    ensures DomainsFit(t)
  {
    OneMore(s.log, Deallocated({pd}));
    hide Held, Deallocations;
  }

  lemma NoDomainGone(s: State, t: State, e: Event)
    requires DomainsFit(s) && t.nextPd == s.nextPd && t.log == s.log + [e] && !e.Deallocated?
    requires forall p: nat :: Held(t, p) <==> Held(s, p)
    ensures DomainsFit(t)
  {
    OneMore(s.log, e);
    hide Held, Deallocations;
  }

  lemma CallDomains(s: State, a: Action)
    requires Interleaving.Inv(s) && DomainsFit(s) && Can(s, a) && CallAction(a)
    ensures DomainsFit(Do(s, a))
  {
    hide Interleaving.Inv, DomainsFit;
    var t := Do(s, a);
    CallHolds(s, a);
    CallLogs(s, a);
    DomainsSame(s, t);
  }

  lemma CallHolds(s: State, a: Action)
    requires Can(s, a) && CallAction(a)
    ensures var t := Do(s, a); t.nextPd == s.nextPd && forall p: nat :: Held(t, p) <==> Held(s, p)
  {
    CallServes(s, a);
    CallFrame(s, a);
    hide Do, Can, CallAct;
  }

  lemma CallServes(s: State, a: Action)
    requires Can(s, a) && CallAction(a)
    ensures a.th in s.pcs && !s.pcs[a.th].Accepted? && a.th in Do(s, a).pcs && !Do(s, a).pcs[a.th].Accepted?
  {
    hide RendezvousAct, ThreadAct, AppAct;
  }

  lemma CallLogs(s: State, a: Action)
    requires Can(s, a) && CallAction(a)
    ensures var t := Do(s, a); t.log == s.log || exists m :: t.log == s.log + [Deregistered(m)]
  {
    hide RendezvousAct, ThreadAct, AppAct;
  }

  lemma RendezvousDomains(s: State, a: Action)
    requires Interleaving.Inv(s) && DomainsFit(s) && Can(s, a) && RendezvousAction(a)
    ensures DomainsFit(Do(s, a))
  {
    ServiceRuns(s, a);
    AboutThread(s, SERVICE);
    hide Interleaving.Inv, DomainsFit, Do, RendezvousAct;
    match a
    case ReadGroup(g) => ReadGroupDomains(s, g);
    case Accept(conn) => AcceptDomains(s, conn);
    case AcceptFails(domainMade) => AcceptFailsDomains(s, domainMade);
    case JoinGroup =>
      JoinHolds(s);
      DomainsSame(s, Do(s, a));
  }

  lemma ReadGroupDomains(s: State, g: u32)
    requires DomainsFit(s) && Can(s, ReadGroup(g))
    ensures DomainsFit(Do(s, ReadGroup(g)))
  {
    hide DomainsFit, CallAct, ThreadAct, AppAct;
    DomainsSame(s, Do(s, ReadGroup(g)));
  }

  lemma AcceptDomains(s: State, conn: nat)
    requires Interleaving.Inv(s) && DomainsFit(s) && Can(s, Accept(conn)) && PcFits(s, SERVICE, s.pcs[SERVICE])
    ensures DomainsFit(Do(s, Accept(conn)))
  {
    hide Interleaving.Inv, DomainsFit, CallAct, ThreadAct, AppAct;
    if s.pcs[SERVICE].offered.None? {
      DomainMade(s, Do(s, Accept(conn)));
    } else {
      AcceptHolds(s, conn);
      DomainsSame(s, Do(s, Accept(conn)));
    }
  }

  lemma AcceptFailsDomains(s: State, domainMade: bool)
    requires Interleaving.Inv(s) && DomainsFit(s) && Can(s, AcceptFails(domainMade))
    ensures DomainsFit(Do(s, AcceptFails(domainMade)))
  {
    hide Interleaving.Inv, DomainsFit, CallAct, ThreadAct, AppAct;
    if s.pcs[SERVICE].offered.None? && domainMade {
      DomainLost(s, Do(s, AcceptFails(domainMade)));
    } else {
      DomainsSame(s, Do(s, AcceptFails(domainMade)));
    }
  }

  lemma ServiceRuns(s: State, a: Action)
    requires Can(s, a) && RendezvousAction(a)
    ensures SERVICE in s.pcs
  {}

  /** An offered domain is already its group's. */
  lemma AcceptHolds(s: State, conn: nat)
    requires Can(s, Accept(conn)) && s.pcs[SERVICE].offered.Some? && PcFits(s, SERVICE, s.pcs[SERVICE])
    ensures var t := Do(s, Accept(conn));
      t.nextPd == s.nextPd && t.log == s.log && forall p: nat :: Held(t, p) <==> Held(s, p)
  {
    hide CallAct, ThreadAct, AppAct;
  }

  lemma JoinHolds(s: State)
    requires Can(s, JoinGroup) && PcFits(s, SERVICE, s.pcs[SERVICE])
    ensures var t := Do(s, JoinGroup);
      t.nextPd == s.nextPd && t.log == s.log && forall p: nat :: Held(t, p) <==> Held(s, p)
  {
    hide CallAct, ThreadAct, AppAct;
    var t, pc := Do(s, JoinGroup), s.pcs[SERVICE];
    forall p: nat ensures Held(t, p) <==> Held(s, p) {
      if Held(s, p) {
        if g :| g in s.tabs.groups && s.tabs.groups[g].pd == p {
          assert t.tabs.groups[g].pd == p;
        } else {
          assert t.tabs.groups[pc.g].pd == p;
        }
      }
    }
  }

  lemma ThreadDomains(s: State, a: Action)
    requires Interleaving.Inv(s) && DomainsFit(s) && Can(s, a) && ThreadAction(a)
    ensures DomainsFit(Do(s, a))
  {
    hide Interleaving.Inv, DomainsFit, CallAct, RendezvousAct, AppAct;
    DomainsSame(s, Do(s, a));
  }

  /** A group's connections hold the group's domain, which is no other group's. */
  lemma ReleasesOwn(s: State, g: u32)
    requires Registry.Inv(s.tabs) && DomainsDistinct(s) && g in s.tabs.groups
    ensures Released(s.tabs.groups, g) == {s.tabs.groups[g].pd}
  {
    assert forall h :: h in s.tabs.groups ==> DomainsOf(s.tabs.groups[h]) == {s.tabs.groups[h].pd};
  }

  lemma DropDomains(s: State, g: u32)
    requires Interleaving.Inv(s) && DomainsFit(s) && Can(s, DropGroup(g))
    ensures DomainsFit(Do(s, DropGroup(g)))
  {
    ReleasesOwn(s, g);
    OnlyApp(s);
    var t, pd := Do(s, DropGroup(g)), s.tabs.groups[g].pd;
    DropHolds(s, g);
    assert Held(s, pd);
    hide Interleaving.Inv, DomainsFit, CallAct, RendezvousAct, ThreadAct, Held, Released;
    DomainGone(s, t, pd);
  }

  lemma DropHolds(s: State, g: u32)
    requires DomainsDistinct(s) && Can(s, DropGroup(g)) && SERVICE !in s.pcs
    ensures var t := Do(s, DropGroup(g)); forall p: nat :: Held(t, p) <==> Held(s, p) && p != s.tabs.groups[g].pd
  {
    hide CallAct, RendezvousAct, ThreadAct, Released;
    var t := Do(s, DropGroup(g));
    forall p: nat ensures Held(t, p) <==> Held(s, p) && p != s.tabs.groups[g].pd {
      if Held(s, p) && p != s.tabs.groups[g].pd {
        var h :| h in s.tabs.groups && s.tabs.groups[h].pd == p;
        assert h in t.tabs.groups;
      }
    }
  }

  lemma AppDomains(s: State, a: Action)
    requires Interleaving.Inv(s) && DomainsFit(s) && Can(s, a) && AppAction(a)
    ensures DomainsFit(Do(s, a))
  {
    hide Interleaving.Inv, DomainsFit, CallAct, RendezvousAct, ThreadAct, Released;
    var t := Do(s, a);
    if a.DropGroup? {
      DropDomains(s, a.g);
    } else if t.log != s.log {
      NoDomainGone(s, t, t.log[|s.log|]);
    } else {
      DomainsSame(s, t);
    }
  }

  // ----- Buffers -----

  lemma BuffersSame(s: State, t: State)
    requires BuffersFit(s) && t.nextId == s.nextId && t.buffers == s.buffers && t.handles == s.handles
    requires s.phase == Gone <==> t.phase == Gone
    requires t.log == s.log || exists e :: t.log == s.log + [e] && !e.Freed?
    ensures BuffersFit(t)
  {
    hide Frees;
    if e :| t.log == s.log + [e] && !e.Freed? { OneMore(s.log, e); }
  }

  lemma NotAppBuffers(s: State, a: Action)
    requires Can(s, a) && !AppAction(a)
    ensures var t := Do(s, a);
      && t.nextId == s.nextId && t.buffers == s.buffers && t.handles == s.handles && t.phase == s.phase
      && (t.log == s.log || exists e :: t.log == s.log + [e] && !e.Freed?)
  {
    hide Can, Do, CallAct, RendezvousAct, ThreadAct;
    if CallAction(a) { CallNoBuffers(s, a); }
    else if RendezvousAction(a) { RendezvousNoBuffers(s, a); }
    else { ThreadNoBuffers(s, a); }
  }

  lemma CallNoBuffers(s: State, a: Action)
    requires Can(s, a) && CallAction(a)
    ensures var t := Do(s, a);
      && t.nextId == s.nextId && t.buffers == s.buffers && t.handles == s.handles && t.phase == s.phase
      && (t.log == s.log || exists e :: t.log == s.log + [e] && !e.Freed?)
  {
    CallLogs(s, a);
    hide RendezvousAct, ThreadAct, AppAct;
  }

  lemma RendezvousNoBuffers(s: State, a: Action)
    requires Can(s, a) && RendezvousAction(a)
    ensures var t := Do(s, a);
      && t.nextId == s.nextId && t.buffers == s.buffers && t.handles == s.handles && t.phase == s.phase
      && (t.log == s.log || exists e :: t.log == s.log + [e] && !e.Freed?)
  {
    hide CallAct, ThreadAct, AppAct;
  }

  lemma ThreadNoBuffers(s: State, a: Action)
    requires Can(s, a) && ThreadAction(a)
    ensures var t := Do(s, a);
      t.nextId == s.nextId && t.buffers == s.buffers && t.handles == s.handles && t.phase == s.phase && t.log == s.log
  {
    hide CallAct, RendezvousAct, AppAct;
  }

  lemma AppBuffers(s: State, a: Action)
    requires BuffersFit(s) && Can(s, a) && AppAction(a) && (s.phase == Gone ==> !a.Register?)
    ensures BuffersFit(Do(s, a))
  {
    hide BuffersFit, Released, CallAct, RendezvousAct, ThreadAct;
    var t := Do(s, a);
    if a.Register? {
      RegisterBuffers(s, t);
    } else if a.DropOwners? {
      HandlesHold(s);
      BuffersFreed(s, t, s.buffers - s.handles);
    } else if a.DropHandle? && s.phase == Gone {
      HandleGone(s, t, a.id);
    } else if a.DropHandle? {
      HandleDropped(s, t);
    } else {
      BuffersSame(s, t);
    }
  }

  lemma HandlesHold(s: State)
    requires BuffersFit(s)
    ensures s.buffers * s.handles == s.handles == s.buffers - (s.buffers - s.handles)
  {}

  lemma RegisterBuffers(s: State, t: State)
    requires BuffersFit(s) && s.phase != Gone && s.nextId + 1 < U32_LIMIT && t.nextId == s.nextId + 1
    requires t.log == s.log && t.phase == s.phase
    requires t.buffers == s.buffers + {s.nextId} && t.handles == s.handles + {s.nextId}
    ensures BuffersFit(t)
  {
    hide Frees;
  }

  lemma BuffersFreed(s: State, t: State, freed: set<u32>)
    requires BuffersFit(s) && freed <= s.buffers && t.nextId == s.nextId
    requires t.log == s.log + [Freed(freed)] && t.handles == t.buffers == s.buffers - freed
    ensures BuffersFit(t)
  {
    hide Frees;
    OneMore(s.log, Freed(freed));
  }

  lemma HandleGone(s: State, t: State, id: u32)
    requires BuffersFit(s) && s.phase == Gone && id in s.handles && t.nextId == s.nextId
    requires t.log == s.log + [Freed({id})] && t.handles == s.handles - {id} && t.buffers == s.buffers - {id}
    ensures BuffersFit(t)
  {
    BuffersFreed(s, t, {id});
  }

  lemma HandleDropped(s: State, t: State)
    requires BuffersFit(s) && s.phase != Gone && t.phase == s.phase && t.nextId == s.nextId
    requires t.log == s.log && t.handles <= s.handles && t.buffers == s.buffers
    ensures BuffersFit(t)
  {
    hide Frees;
  }

  // ----- Runs -----

  ghost predicate ReleasesFit(s: State) { DomainsFit(s) && BuffersFit(s) }

  lemma ReleaseStep(s: State, a: Action)
    requires Interleaving.Inv(s) && ReleasesFit(s) && Can(s, a)
    ensures ReleasesFit(Do(s, a))
  {
    hide Interleaving.Inv, DomainsFit, BuffersFit, Do;
    if CallAction(a) { CallDomains(s, a); }
    else if RendezvousAction(a) { RendezvousDomains(s, a); }
    else if ThreadAction(a) { ThreadDomains(s, a); }
    else { AppDomains(s, a); }
    if AppAction(a) {
      AppBuffers(s, a);
    } else {
      NotAppBuffers(s, a);
      BuffersSame(s, Do(s, a));
    }
  }

  lemma StartReleases()
    ensures ReleasesFit(INITIAL)
  {}

  lemma {:induction false} RunReleases(states: seq<State>, actions: seq<Action>, i: nat)
    requires Run(states, actions) && i < |states|
    ensures ReleasesFit(states[i])
  {
    hide Interleaving.Inv, ReleasesFit, Can, Do;
    if i == 0 {
      StartReleases();
    } else {
      RunKeeps(states, actions, i - 1);
      RunReleases(states, actions, i - 1);
      ReleaseStep(states[i - 1], actions[i - 1]);
    }
  }

  /** Domain `pd` is deallocated by event `k` and no other. */
  ghost predicate DeallocatedOnce(log: seq<Event>, pd: nat, k: nat) {
    && k < |log| && log[k].Deallocated? && pd in log[k].pds
    && forall j :: 0 <= j < |log| && j != k && log[j].Deallocated? ==> pd !in log[j].pds
  }

  /** Buffer `id` is freed by event `k` and no other. */
  ghost predicate FreedOnce(log: seq<Event>, id: u32, k: nat) {
    && k < |log| && log[k].Freed? && id in log[k].regions
    && forall j :: 0 <= j < |log| && j != k && log[j].Freed? ==> id !in log[j].regions
  }

  lemma {:induction false} DeallocationAt(log: seq<Event>, pd: nat)
    ensures pd in Deallocations(log) <==> exists k :: 0 <= k < |log| && log[k].Deallocated? && pd in log[k].pds
  {
    if log != [] {
      var n := |log| - 1;
      DeallocationAt(log[..n], pd);
      if k :| 0 <= k < n && log[k].Deallocated? && pd in log[k].pds { assert log[..n][k] == log[k]; }
      if k :| 0 <= k < n && log[..n][k].Deallocated? && pd in log[..n][k].pds { assert log[k] == log[..n][k]; }
    }
  }

  lemma {:induction false} FreeAt(log: seq<Event>, id: u32)
    ensures id in Frees(log) <==> exists k :: 0 <= k < |log| && log[k].Freed? && id in log[k].regions
  {
    if log != [] {
      var n := |log| - 1;
      FreeAt(log[..n], id);
      if k :| 0 <= k < n && log[k].Freed? && id in log[k].regions { assert log[..n][k] == log[k]; }
      if k :| 0 <= k < n && log[..n][k].Freed? && id in log[..n][k].regions { assert log[k] == log[..n][k]; }
    }
  }

  /**
   In every run that ends with the provider gone: every domain it ever made, for a group, for a failed
   accept, was deallocated exactly once.
   */
  lemma EveryDomainIsDeallocated(states: seq<State>, actions: seq<Action>, i: nat, pd: nat)
    requires Run(states, actions) && i < |states| && states[i].phase == Gone && pd < states[i].nextPd
    ensures exists k: nat :: DeallocatedOnce(states[i].log, pd, k)
  {
    hide Can, Do, Deallocations;
    var s := states[i];
    RunKeeps(states, actions, i);
    RunReleases(states, actions, i);
    OnlyApp(s);
    assert !Held(s, pd);
    DeallocationAt(s.log, pd);
    var k: nat :| k < |s.log| && s.log[k].Deallocated? && pd in s.log[k].pds;
    forall j | 0 <= j < |s.log| && j != k && s.log[j].Deallocated? ensures pd !in s.log[j].pds {
      var lo, hi := if j < k then j else k, if j < k then k else j;
      DeallocationAt(s.log[..hi], pd);
      assert s.log[..hi][lo] == s.log[lo];
    }
    assert DeallocatedOnce(s.log, pd, k);
  }

  /** And every buffer ever shared was freed exactly once if its handle is gone, and not at all if it is not. */
  lemma EveryBufferIsFreed(states: seq<State>, actions: seq<Action>, i: nat, id: u32)
    requires Run(states, actions) && i < |states| && states[i].phase == Gone && id < states[i].nextId
    ensures id !in states[i].handles <==> exists k: nat :: FreedOnce(states[i].log, id, k)
    ensures id in states[i].handles ==>
      forall j :: 0 <= j < |states[i].log| && states[i].log[j].Freed? ==> id !in states[i].log[j].regions
  {
    hide Can, Do, Frees;
    var s := states[i];
    RunReleases(states, actions, i);
    FreeAt(s.log, id);
    if id !in s.handles {
      var k: nat :| k < |s.log| && s.log[k].Freed? && id in s.log[k].regions;
      forall j | 0 <= j < |s.log| && j != k && s.log[j].Freed? ensures id !in s.log[j].regions {
        var lo, hi := if j < k then j else k, if j < k then k else j;
        FreeAt(s.log[..hi], id);
        assert s.log[..hi][lo] == s.log[lo];
      }
      assert FreedOnce(s.log, id, k);
    }
  }
}
