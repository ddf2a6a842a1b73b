/**
 The order in which a provider's resources go away (the `Drop` impls of src/providers.rs and
 src/rdma/verbs.rs): registrations first, then protection domains, then buffers.
 */
module Lifetime {
  import opened Common
  import opened Registry
  import opened Interleaving
  import opened ProviderRuns

  /** The registrations deregistered by the events of `log`. */
  function Deregistrations(log: seq<Event>): (r: set<nat>) {
    if log == [] then {} else Deregistrations(log[..|log| - 1]) + Ended(log[|log| - 1])
  }

  function Ended(e: Event): (r: set<nat>) {
    if e.Deregistered? then {e.mr} else {}
  }

  /** No registration outlives its domain or its buffer: what `e` takes away, `before` has deregistered from. */
  ghost predicate TakesNothingLive(regs: map<nat, Mr>, e: Event, before: seq<Event>) {
    match e
    case Deregistered(m) => m !in Deregistrations(before)
    case Deallocated(pds) => forall m :: m in regs && regs[m].pd in pds ==> m in Deregistrations(before)
    case Freed(regions) => forall m :: m in regs && regs[m].region in regions ==> m in Deregistrations(before)
  }

  ghost predicate LogFits(s: State) {
    forall j :: 0 <= j < |s.log| ==> TakesNothingLive(s.regs, s.log[j], s.log[..j])
  }

  /** Every registration ever made is known, and is live until its deregistration is logged. */
  ghost predicate RegsFit(s: State) {
    && (forall m: nat :: m in s.regs <==> m < s.tabs.nextMr)
    && (forall m :: m in s.tabs.mrs ==> m in s.regs && s.regs[m] == s.tabs.mrs[m])
    && (forall m :: m in s.regs ==> (m in s.tabs.mrs <==> m !in Deregistrations(s.log)))
    && (forall m :: m in Deregistrations(s.log) ==> m < s.tabs.nextMr)
    && (forall m :: m in s.regs ==> s.regs[m].pd < s.nextPd)
  }

  /** Until the drop releases the groups, a deallocated domain is nobody's. */
  ghost predicate DeadDomains(s: State) {
    && (s.phase != Gone ==> forall j :: 0 <= j < |s.log| ==> !s.log[j].Freed?)
    && (s.phase != Gone && s.phase != DroppingGroups ==>
          forall j, p :: 0 <= j < |s.log| && s.log[j].Deallocated? && p in s.log[j].pds ==>
            p < s.nextPd && (forall g :: g in s.tabs.groups ==> s.tabs.groups[g].pd != p) &&
            (SERVICE in s.pcs && s.pcs[SERVICE].Accepted? ==> s.pcs[SERVICE].connection.pd != p))
  }

  ghost predicate LifeInv(s: State) { LogFits(s) && RegsFit(s) && DeadDomains(s) }

  lemma LogOneMore(log: seq<Event>, e: Event)
    ensures Deregistrations(log + [e]) == Deregistrations(log) + Ended(e)
    ensures forall j :: 0 <= j <= |log| ==> (log + [e])[..j] == log[..j]
  {
    assert (log + [e])[..|log|] == log;
  }

  lemma LogExtends(s: State, t: State, e: Event)
    requires LogFits(s) && t.regs == s.regs && t.log == s.log + [e] && TakesNothingLive(s.regs, e, s.log)
    ensures LogFits(t)
  {
    LogOneMore(s.log, e);
    assert s.log[..|s.log|] == s.log;
    hide TakesNothingLive, Deregistrations;
    forall j | 0 <= j < |t.log| ensures TakesNothingLive(t.regs, t.log[j], t.log[..j]) {
      if j < |s.log| { assert t.log[j] == s.log[j]; }
    }
  }

  // ----- Calls -----

  lemma RegistrationRegs(s: State, th: nat, luck: Luck)
    requires RegsFit(s) && DomainsDistinct(s) && Can(s, Registration(th, luck)) && PcFits(s, th, s.pcs[th])
    ensures RegsFit(CallAct(s, Registration(th, luck)))
  {
    hide Deregistrations;
  }

  lemma InsertRegs(s: State, th: nat)
    requires RegsFit(s) && Registry.Inv(s.tabs) && Can(s, Insert(th)) && PcFits(s, th, s.pcs[th])
    ensures RegsFit(CallAct(s, Insert(th)))
  {
    var pair := s.pcs[th].pair;
    if pair in s.tabs.tuples {
      EntryLive(s.tabs, pair);
      LogOneMore(s.log, Deregistered(s.tabs.tuples[pair]));
    }
    hide Deregistrations, Registry.Inv, Matches;
  }

  lemma LookupRegs(s: State, a: Action)
    requires RegsFit(s) && Can(s, a) && (a.Lookup? || a.GetPd? || a.GetAddr?)
    ensures RegsFit(CallAct(s, a))
  {
    hide Deregistrations;
  }

  lemma CallRegs(s: State, a: Action)
    requires RegsFit(s) && Registry.Inv(s.tabs) && DomainsDistinct(s) && Can(s, a) && CallAction(a)
    requires PcFits(s, a.th, s.pcs[a.th])
    ensures RegsFit(CallAct(s, a))
  {
    hide CallAct, RegsFit, Registry.Inv, DomainsDistinct, PcFits;
    if a.Registration? { RegistrationRegs(s, a.th, a.luck); }
    else if a.Insert? { InsertRegs(s, a.th); }
    else { LookupRegs(s, a); }
  }

  lemma CallLog(s: State, a: Action)
    requires LogFits(s) && RegsFit(s) && DeadDomains(s) && Registry.Inv(s.tabs) && Can(s, a) && CallAction(a) && Live(s)
    requires PcFits(s, a.th, s.pcs[a.th])
    ensures LogFits(CallAct(s, a))
  {
    var t := CallAct(s, a);
    if a.Insert? && s.pcs[a.th].pair in s.tabs.tuples {
      LogExtends(s, t, Deregistered(s.tabs.tuples[s.pcs[a.th].pair]));
    } else {
      assert t.log == s.log;
      hide Deregistrations;
      forall j | 0 <= j < |t.log| ensures TakesNothingLive(t.regs, t.log[j], t.log[..j]) {
        assert TakesNothingLive(s.regs, s.log[j], s.log[..j]);
      }
    }
  }

  lemma CallDomains(s: State, a: Action)
    requires DeadDomains(s) && Can(s, a) && CallAction(a)
    ensures DeadDomains(CallAct(s, a))
  {
    assert CallAct(s, a).log == s.log || exists m :: CallAct(s, a).log == s.log + [Deregistered(m)];
  }

  // ----- The rendezvous -----

  /** A failed accept may deallocate the domain it made, which nothing was ever registered in. */
  lemma RendezvousEvents(s: State, a: Action)
    requires Can(s, a) && RendezvousAction(a)
    ensures var t := RendezvousAct(s, a);
      && t.regs == s.regs && t.tabs.mrs == s.tabs.mrs && t.tabs.nextMr == s.tabs.nextMr && s.nextPd <= t.nextPd
      && (t.log == s.log || t.log == s.log + [Deallocated({s.nextPd})])
  {}

  lemma RegsQuiet(s: State, t: State)
    requires RegsFit(s) && t.regs == s.regs && t.tabs.mrs == s.tabs.mrs && t.tabs.nextMr == s.tabs.nextMr
    requires s.nextPd <= t.nextPd && Deregistrations(t.log) == Deregistrations(s.log)
    ensures RegsFit(t)
  {
    hide Deregistrations;
  }

  lemma RendezvousLog(s: State, a: Action)
    requires LogFits(s) && RegsFit(s) && Can(s, a) && RendezvousAction(a)
    ensures LogFits(RendezvousAct(s, a)) && RegsFit(RendezvousAct(s, a))
  {
    hide RendezvousAct, Can, LogFits, Deregistrations;
    var t, e := RendezvousAct(s, a), Deallocated({s.nextPd});
    RendezvousEvents(s, a);
    LogOneMore(s.log, e);
    RegsQuiet(s, t);
    if t.log == s.log { LogSame(s, t); } else { LogExtends(s, t, e); }
  }

  lemma LogSame(s: State, t: State)
    requires LogFits(s) && t.regs == s.regs && t.log == s.log
    ensures LogFits(t)
  {}

  lemma RendezvousDomains(s: State, a: Action)
    requires DeadDomains(s) && DomainsDistinct(s) && Can(s, a) && RendezvousAction(a)
    requires PcFits(s, SERVICE, s.pcs[SERVICE])
    ensures DeadDomains(RendezvousAct(s, a))
  {}

  lemma RendezvousLife(s: State, a: Action)
    requires LifeInv(s) && DomainsDistinct(s) && Can(s, a) && RendezvousAction(a)
    requires PcFits(s, SERVICE, s.pcs[SERVICE])
    ensures LifeInv(RendezvousAct(s, a))
  {
    hide LogFits, RegsFit, DeadDomains, DomainsDistinct, PcFits, RendezvousAct;
    RendezvousLog(s, a);
    RendezvousDomains(s, a);
  }

  // ----- The drop -----

  lemma NothingLive(s: State)
    requires Interleaving.Inv(s) && (s.phase == DroppingGroups || s.phase == Gone)
    ensures s.tabs.mrs == map[]
  {
    OnlyApp(s);
    assert forall m :: m in s.tabs.mrs ==> InTable(s, m) || Carried(s, m);
    assert forall m :: !InTable(s, m);
    assert forall m :: !Carried(s, m);
  }

  lemma RegsCleared(s: State, t: State, m: nat)
    requires RegsFit(s) && m in s.tabs.mrs && t.regs == s.regs && t.nextPd == s.nextPd
    requires t.tabs.mrs == s.tabs.mrs - {m} && t.tabs.nextMr == s.tabs.nextMr
    requires Deregistrations(t.log) == Deregistrations(s.log) + {m}
    ensures RegsFit(t) && m !in Deregistrations(s.log)
  {
    hide Deregistrations;
  }

  lemma ClearEvent(s: State, pair: Pair)
    requires Can(s, ClearOne(pair))
    ensures var t, m := AppAct(s, ClearOne(pair)), s.tabs.tuples[pair];
      && t.regs == s.regs && t.nextPd == s.nextPd && t.tabs.nextMr == s.tabs.nextMr
      && t.tabs.mrs == s.tabs.mrs - {m} && t.log == s.log + [Deregistered(m)]
  {}

  lemma EntryLive(t: Tables, pair: Pair)
    requires Registry.Inv(t) && pair in t.tuples
    ensures t.tuples[pair] in t.mrs
  {}

  lemma ClearRegs(s: State, pair: Pair)
    requires RegsFit(s) && Registry.Inv(s.tabs) && Can(s, ClearOne(pair))
    ensures RegsFit(AppAct(s, ClearOne(pair))) && s.tabs.tuples[pair] !in Deregistrations(s.log)
  {
    hide Deregistrations, RegsFit, Registry.Inv, AppAct;
    ClearEvent(s, pair);
    EntryLive(s.tabs, pair);
    LogOneMore(s.log, Deregistered(s.tabs.tuples[pair]));
    RegsCleared(s, AppAct(s, ClearOne(pair)), s.tabs.tuples[pair]);
  }

  lemma ClearDomains(s: State, pair: Pair)
    requires DeadDomains(s) && Can(s, ClearOne(pair))
    ensures DeadDomains(AppAct(s, ClearOne(pair)))
  {}

  lemma ClearLife(s: State, pair: Pair)
    requires LifeInv(s) && Registry.Inv(s.tabs) && Can(s, ClearOne(pair))
    ensures LifeInv(AppAct(s, ClearOne(pair)))
  {
    hide LogFits, RegsFit, DeadDomains, Registry.Inv, Deregistrations, AppAct;
    ClearEvent(s, pair);
    ClearRegs(s, pair);
    ClearDomains(s, pair);
    LogExtends(s, AppAct(s, ClearOne(pair)), Deregistered(s.tabs.tuples[pair]));
  }

  /** With nothing live, any domain or buffer may go. */
  lemma TakeLife(s: State, t: State, e: Event)
    requires LifeInv(s) && s.tabs.mrs == map[] && !e.Deregistered?
    requires t.log == s.log + [e] && t.regs == s.regs && t.nextPd == s.nextPd
    requires t.tabs.mrs == s.tabs.mrs && t.tabs.nextMr == s.tabs.nextMr
    requires t.phase == Gone || (t.phase == DroppingGroups && e.Deallocated? && s.phase == DroppingGroups)
    ensures LifeInv(t)
  {
    LogOneMore(s.log, e);
    LogExtends(s, t, e);
    hide Deregistrations, LogFits;
  }

  lemma QuietLife(s: State, t: State)
    requires LifeInv(s) && t.log == s.log && t.regs == s.regs && t.nextPd == s.nextPd
    requires t.tabs.mrs == s.tabs.mrs && t.tabs.nextMr == s.tabs.nextMr && t.tabs.groups == s.tabs.groups
    requires SERVICE in t.pcs && t.pcs[SERVICE].Accepted? ==> SERVICE in s.pcs && s.pcs[SERVICE] == t.pcs[SERVICE]
    requires Rank(t.phase) >= Rank(s.phase)
    ensures LifeInv(t)
  {
    hide Deregistrations, TakesNothingLive;
  }

  lemma AppLife(s: State, a: Action)
    requires Interleaving.Inv(s) && LifeInv(s) && Can(s, a) && AppAction(a)
    ensures LifeInv(Do(s, a))
  {
    hide LifeInv, Registry.Inv, PcsFit, MrsOwned, DomainsDistinct, ThreadsFit, TimesFit, Interleaving.Inv;
    var t := Do(s, a);
    if a.ClearOne? {
      TablesFit(s);
      ClearLife(s, a.pair);
      Clocked(AppAct(s, a), t);
    } else if a.DropGroup? {
      NothingLive(s);
      TakeLife(s, t, Deallocated(Released(s.tabs.groups, a.g)));
    } else if a.DropOwners? {
      NothingLive(s);
      TakeLife(s, t, Freed(s.buffers - s.handles));
    } else if a.DropHandle? && s.phase == Gone {
      NothingLive(s);
      TakeLife(s, t, Freed({a.id}));
    } else {
      QuietLife(s, t);
    }
  }

  lemma Clocked(s: State, t: State)
    requires LifeInv(s) && t == s.(clock := t.clock)
    ensures LifeInv(t)
  {
    hide Deregistrations, TakesNothingLive;
  }

  lemma ServiceFits(s: State)
    requires Interleaving.Inv(s)
    ensures DomainsDistinct(s) && Registry.Inv(s.tabs)
  {}

  lemma LifeStep(s: State, a: Action)
    requires Interleaving.Inv(s) && LifeInv(s) && Can(s, a)
    ensures LifeInv(Do(s, a))
  {
    ServiceFits(s);
    hide Interleaving.Inv, Registry.Inv, DomainsDistinct, CallAct, RendezvousAct, ThreadAct, AppAct,
      LogFits, RegsFit, DeadDomains, Can, PcFits;
    if CallAction(a) {
      CallThread(s, a);
      AboutThread(s, a.th);
      CallsAreLive(s, a);
      CallRegs(s, a);
      CallLog(s, a);
      CallDomains(s, a);
      Clocked(CallAct(s, a), Do(s, a));
    } else if RendezvousAction(a) {
      ServiceThere(s, a);
      AboutThread(s, SERVICE);
      RendezvousLife(s, a);
      Clocked(RendezvousAct(s, a), Do(s, a));
    } else if ThreadAction(a) {
      ThreadFrame(s, a);
      QuietLife(s, Do(s, a));
    } else {
      AppLife(s, a);
    }
  }

  lemma ServiceThere(s: State, a: Action)
    requires Can(s, a) && RendezvousAction(a)
    ensures SERVICE in s.pcs
  {}

  lemma StartLife()
    ensures LifeInv(INITIAL)
  {}

  lemma {:induction false} RunLife(states: seq<State>, actions: seq<Action>, i: nat)
    requires Run(states, actions) && i < |states|
    ensures LifeInv(states[i])
  {
    hide Interleaving.Inv, Can, Do, LifeInv;
    if i > 0 {
      RunKeeps(states, actions, i - 1);
      RunLife(states, actions, i - 1);
      LifeStep(states[i - 1], actions[i - 1]);
    } else {
      StartLife();
    }
  }

  // ----- The theorems -----

  lemma {:induction false} DeregistrationIndex(log: seq<Event>, m: nat)
    requires m in Deregistrations(log)
    ensures exists i :: 0 <= i < |log| && log[i] == Deregistered(m)
  {
    var n := |log| - 1;
    if log[n] != Deregistered(m) {
      DeregistrationIndex(log[..n], m);
      var i :| 0 <= i < n && log[..n][i] == Deregistered(m);
      assert log[i] == Deregistered(m);
    }
  }

  lemma {:induction false} IndexDeregisters(log: seq<Event>, i: nat, m: nat)
    requires i < |log| && log[i] == Deregistered(m)
    ensures m in Deregistrations(log)
  {
    if i < |log| - 1 { IndexDeregisters(log[..|log| - 1], i, m); }
  }

  /** `m` is deregistered at event `i` and no other, before its domain or its buffer goes. */
  ghost predicate GoesInOrder(s: State, m: nat, i: nat)
    requires m in s.regs
  {
    && i < |s.log| && s.log[i] == Deregistered(m)
    && forall j :: 0 <= j < |s.log| && j != i ==>
         s.log[j] != Deregistered(m) &&
         (s.log[j].Deallocated? && s.regs[m].pd in s.log[j].pds ==> i < j) &&
         (s.log[j].Freed? && s.regs[m].region in s.log[j].regions ==> i < j)
  }

  /** In every run that ends with the provider gone, every registration ever made went once and in order. */
  lemma EveryRegistrationGoesInOrder(states: seq<State>, actions: seq<Action>, i: nat, m: nat)
    requires Run(states, actions) && i < |states| && states[i].phase == Gone && m in states[i].regs
    ensures exists k: nat :: GoesInOrder(states[i], m, k)
  {
    var s := states[i];
    hide Interleaving.Inv, Can, Do;
    RunKeeps(states, actions, i);
    RunLife(states, actions, i);
    NothingLive(s);
    DeregistrationIndex(s.log, m);
    var k :| 0 <= k < |s.log| && s.log[k] == Deregistered(m);
    forall j | 0 <= j < |s.log| && j != k
      ensures s.log[j] != Deregistered(m)
      ensures s.log[j].Deallocated? && s.regs[m].pd in s.log[j].pds ==> k < j
      ensures s.log[j].Freed? && s.regs[m].region in s.log[j].regions ==> k < j
    {
      OrderedPair(s, m, k, j);
    }
    assert GoesInOrder(s, m, k);
  }

  lemma OrderedPair(s: State, m: nat, k: nat, j: nat)
    requires LogFits(s) && m in s.regs && k < |s.log| && j < |s.log| && j != k && s.log[k] == Deregistered(m)
    ensures s.log[j] != Deregistered(m)
    ensures s.log[j].Deallocated? && s.regs[m].pd in s.log[j].pds ==> k < j
    ensures s.log[j].Freed? && s.regs[m].region in s.log[j].regions ==> k < j
  {
    assert TakesNothingLive(s.regs, s.log[j], s.log[..j]) && TakesNothingLive(s.regs, s.log[k], s.log[..k]);
    if k < j {
      IndexDeregisters(s.log[..j], k, m);
    } else {
      if m in Deregistrations(s.log[..j]) {
        DeregistrationIndex(s.log[..j], m);
        var i :| 0 <= i < j && s.log[..j][i] == Deregistered(m);
        IndexDeregisters(s.log[..k], i, m);
      }
      if s.log[j] == Deregistered(m) { IndexDeregisters(s.log[..k], j, m); }
    }
  }

  /** At no point of any run, finished or not, has a domain or a buffer gone under a live registration. */
  lemma NothingLiveLosesItsGround(states: seq<State>, actions: seq<Action>, i: nat, j: nat, m: nat)
    requires Run(states, actions) && i < |states| && j < |states[i].log| && m in states[i].tabs.mrs
    ensures var e := states[i].log[j];
      (e.Deallocated? ==> states[i].tabs.mrs[m].pd !in e.pds) &&
        (e.Freed? ==> states[i].tabs.mrs[m].region !in e.regions)
  {
    hide Interleaving.Inv, Can, Do;
    RunLife(states, actions, i);
    var s := states[i];
    assert TakesNothingLive(s.regs, s.log[j], s.log[..j]);
    if m in Deregistrations(s.log[..j]) {
      DeregistrationIndex(s.log[..j], m);
      var k :| 0 <= k < j && s.log[..j][k] == Deregistered(m);
      IndexDeregisters(s.log, k, m);
    }
  }

  lemma AppShrinks(s: State, a: Action)
    requires Can(s, a) && AppAction(a) && !Live(s)
    ensures var t := Do(s, a);
      !Live(t) && t.tabs.tuples.Keys <= s.tabs.tuples.Keys && t.tabs.mrs.Keys <= s.tabs.mrs.Keys
  {}

  /** Once the threads are joined the table only shrinks: no tuple is created, no memory registered. */
  lemma {:induction false} NoTupleAfterJoin(states: seq<State>, actions: seq<Action>, i: nat, j: nat)
    requires Run(states, actions) && i <= j < |states| && !Live(states[i])
    ensures !Live(states[j])
    ensures states[j].tabs.tuples.Keys <= states[i].tabs.tuples.Keys &&
      states[j].tabs.mrs.Keys <= states[i].tabs.mrs.Keys
    ensures j < |actions| ==> AppAction(actions[j])
  {
    hide Interleaving.Inv, Can, Do;
    if i < j {
      NoTupleAfterJoin(states, actions, i, j - 1);
      AppShrinks(states[j - 1], actions[j - 1]);
    }
    if j < |actions| {
      RunKeeps(states, actions, j);
      OnlyAppActs(states[j], actions[j]);
    }
  }

  lemma OnlyAppActs(s: State, a: Action)
    requires Interleaving.Inv(s) && !Live(s) && Can(s, a)
    ensures AppAction(a)
  {
    OnlyApp(s);
  }
}
