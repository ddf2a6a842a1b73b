/**
 The provider's threads over its shared tables (src/providers.rs): the application, one
 service thread, and any number of session threads.  Locks are taken one at a time, so
 `tuple_of` is five atomic steps that anything may come between, and so is the joining of
 a group.  The run goes on through the provider's drop, until buffers are freed.
 */
module Interleaving {
  import opened Common
  import opened Registry

  const APP: nat := 0
  const SERVICE: nat := 1

  /** Where a thread stands; `since` is when a `tuple_of` call looked the pair up and missed. */
  datatype Pc =
    | Idle
    | Missed(pair: Pair, since: nat)
    | HavePd(pair: Pair, since: nat, pd: nat)
    | HaveAddr(pair: Pair, since: nat, pd: nat, addr: u64, size: u64)
    | HaveMr(pair: Pair, since: nat, mr: nat)
    | Accepting(g: u32, offered: Option<nat>)
    | Accepted(g: u32, connection: RdmaConnection)
  {
    /** Inside a `tuple_of` call that missed. */
    predicate Asking() { Missed? || HavePd? || HaveAddr? || HaveMr? }
  }

  datatype Phase = Running | Stopping | Clearing | DroppingGroups | Gone

  datatype Event =
    | Deregistered(mr: nat)
    | Deallocated(pds: set<nat>)
    | Freed(regions: set<u32>)

  /** A tuple handed back by `tuple_of`. */
  datatype Reply = Reply(pair: Pair, mr: nat)

  /** Why a call ended without a tuple: no such group or region, or the device refused. */
  datatype Refusal = NoSuch(pair: Pair) | NotRegistered(pair: Pair)

  datatype State = State(
    tabs: Tables, nextId: nat, phase: Phase, pcs: map<nat, Pc>, nextPd: nat,
    handles: set<u32>, buffers: set<u32>,
    // history
    clock: nat, firstAt: map<Pair, nat>, regs: map<nat, Mr>, replies: seq<Reply>, refusals: seq<Refusal>,
    log: seq<Event>)

  const INITIAL: State :=
    State(NO_TABLES, 0, Running, map[APP := Idle], 0, {}, {}, 0, map[], map[], [], [], [])

  datatype Action =
    | Register(info: RegionInfo)
    | Serve
    | Lookup(th: nat, pair: Pair)
    | GetPd(th: nat)
    | GetAddr(th: nat)
    | Registration(th: nat, luck: Luck)
    | Insert(th: nat)
    | ReadGroup(g: u32)
    | Accept(conn: nat)
    | AcceptFails(domainMade: bool)
    | JoinGroup
    | Spawn(th: nat)
    | SessionEnds(th: nat)
    | Shutdown
    | ServiceEnds
    | JoinThreads
    | ClearOne(pair: Pair)
    | ClearDone
    | DropGroup(g: u32)
    | DropOwners
    | DropHandle(id: u32)

  predicate At(s: State, th: nat, pc: Pc) { th in s.pcs && s.pcs[th] == pc }

  ghost predicate Can(s: State, a: Action) {
    match a
    case Register(_) => At(s, APP, Idle) && s.phase == Running && s.nextId + 1 < U32_LIMIT
    case Serve => At(s, APP, Idle) && s.phase == Running && SERVICE !in s.pcs
    case Lookup(th, _) => At(s, th, Idle) && (th == APP ==> s.phase == Running)
    case GetPd(th) => th in s.pcs && s.pcs[th].Missed?
    case GetAddr(th) => th in s.pcs && s.pcs[th].HavePd?
    case Registration(th, _) => th in s.pcs && s.pcs[th].HaveAddr?
    case Insert(th) => th in s.pcs && s.pcs[th].HaveMr?
    case ReadGroup(_) => At(s, SERVICE, Idle)
    case Accept(_) => SERVICE in s.pcs && s.pcs[SERVICE].Accepting?
    case AcceptFails(_) => SERVICE in s.pcs && s.pcs[SERVICE].Accepting?
    case JoinGroup => SERVICE in s.pcs && s.pcs[SERVICE].Accepted?
    case Spawn(th) => At(s, SERVICE, Idle) && th !in s.pcs && th != APP
    case SessionEnds(th) => At(s, th, Idle) && th != APP && th != SERVICE
    case Shutdown => At(s, APP, Idle) && s.phase == Running
    case ServiceEnds => At(s, SERVICE, Idle) && s.phase == Stopping && s.pcs.Keys <= {APP, SERVICE}
    case JoinThreads => s.phase == Stopping && SERVICE !in s.pcs
    case ClearOne(pair) => s.phase == Clearing && pair in s.tabs.tuples
    case ClearDone => s.phase == Clearing && s.tabs.tuples == map[]
    case DropGroup(g) => s.phase == DroppingGroups && g in s.tabs.groups
    case DropOwners => s.phase == DroppingGroups && s.tabs.groups == map[]
    case DropHandle(id) => At(s, APP, Idle) && id in s.handles
  }

  function Go(s: State, th: nat, pc: Pc): (r: State) { s.(pcs := s.pcs[th := pc]) }

  function Refuse(s: State, th: nat, refusal: Refusal): (r: State) {
    s.(pcs := s.pcs[th := Idle], refusals := s.refusals + [refusal])
  }

  /** The domains a group entry and its connections hold handles of. */
  ghost function DomainsOf(entry: GroupEntry): (r: set<nat>) {
    {entry.pd} + set i | 0 <= i < |entry.connections| :: entry.connections[i].pd
  }

  /** The domains whose last handle goes with group `g`. */
  ghost function Released(groups: map<u32, GroupEntry>, g: u32): (r: set<nat>)
    requires g in groups
  {
    set p | p in DomainsOf(groups[g]) && forall h :: h in groups && h != g ==> p !in DomainsOf(groups[h])
  }

  predicate CallAction(a: Action) { a.Lookup? || a.GetPd? || a.GetAddr? || a.Registration? || a.Insert? }

  /** The steps of `tuple_of`. */
  ghost function CallAct(s: State, a: Action): (r: State)
    requires Can(s, a) && CallAction(a)
  {
    match a
    case Lookup(th, pair) =>
      if pair in s.tabs.tuples then
        s.(pcs := s.pcs[th := Idle], replies := s.replies + [Reply(pair, s.tabs.tuples[pair])])
      else Go(s, th, Missed(pair, s.clock))
    case GetPd(th) =>
      var pc := s.pcs[th];
      if pc.pair.1 in s.tabs.groups then Go(s, th, HavePd(pc.pair, pc.since, s.tabs.groups[pc.pair.1].pd))
      else Refuse(s, th, NoSuch(pc.pair))
    case GetAddr(th) =>
      var pc := s.pcs[th];
      if pc.pair.0 in s.tabs.catalog then
        var info := s.tabs.catalog[pc.pair.0];
        Go(s, th, HaveAddr(pc.pair, pc.since, pc.pd, info.remoteAddr, info.size))
      else Refuse(s, th, NoSuch(pc.pair))
    case Registration(th, luck) =>
      var pc := s.pcs[th];
      if !Registrable(pc.size, luck) then Refuse(s, th, NotRegistered(pc.pair))
      else
        var m := s.tabs.nextMr;
        s.(pcs := s.pcs[th := HaveMr(pc.pair, pc.since, m)],
          tabs := Registered(s.tabs, pc.pair.0, pc.pd, pc.addr, pc.size, luck.value),
          regs := s.regs[m := Mr(pc.pair.0, pc.pd, pc.addr, pc.size, luck.value)])
    case Insert(th) =>
      var pc := s.pcs[th];
      s.(pcs := s.pcs[th := Idle], replies := s.replies + [Reply(pc.pair, pc.mr)],
         tabs := Inserted(s.tabs, pc.pair, pc.mr),
         firstAt := if pc.pair in s.firstAt then s.firstAt else s.firstAt[pc.pair := s.clock],
         log := if pc.pair in s.tabs.tuples then s.log + [Deregistered(s.tabs.tuples[pc.pair])] else s.log)
  }

  predicate RendezvousAction(a: Action) { a.ReadGroup? || a.Accept? || a.AcceptFails? || a.JoinGroup? }

  /** The service's rendezvous: read the group, accept, join. */
  ghost function RendezvousAct(s: State, a: Action): (r: State)
    requires Can(s, a) && RendezvousAction(a)
  {
    match a
    case ReadGroup(g) =>
      Go(s, SERVICE, Accepting(g, if g in s.tabs.groups then Some(s.tabs.groups[g].pd) else None))
    case Accept(id) =>
      var pc := s.pcs[SERVICE];
      if pc.offered.Some? then Go(s, SERVICE, Accepted(pc.g, RdmaConnection(id, pc.offered.value)))
      else s.(pcs := s.pcs[SERVICE := Accepted(pc.g, RdmaConnection(id, s.nextPd))], nextPd := s.nextPd + 1)
    case AcceptFails(domainMade) =>
      if s.pcs[SERVICE].offered.None? && domainMade then
        s.(pcs := s.pcs[SERVICE := Idle], log := s.log + [Deallocated({s.nextPd})], nextPd := s.nextPd + 1)
      else Go(s, SERVICE, Idle)
    case JoinGroup =>
      var pc := s.pcs[SERVICE];
      s.(pcs := s.pcs[SERVICE := Idle], tabs := Joined(s.tabs, pc.g, pc.connection))
  }

  predicate ThreadAction(a: Action) { a.Serve? || a.Spawn? || a.SessionEnds? || a.ServiceEnds? }

  /** Threads start and end idle. */
  ghost function ThreadAct(s: State, a: Action): (r: State)
    requires Can(s, a) && ThreadAction(a)
  {
    match a
    case Serve => Go(s, SERVICE, Idle)
    case Spawn(th) => Go(s, th, Idle)
    case SessionEnds(th) => s.(pcs := s.pcs - {th})
    case ServiceEnds => s.(pcs := s.pcs - {SERVICE})
  }

  predicate AppAction(a: Action) {
    a.Register? || a.Shutdown? || a.JoinThreads? || a.ClearOne? || a.ClearDone? || a.DropGroup? || a.DropOwners? ||
      a.DropHandle?
  }

  /** The application registers regions, drops handles, and finally drops the provider. */
  ghost function AppAct(s: State, a: Action): (r: State)
    requires Can(s, a) && AppAction(a)
  {
    match a
    case Register(info) =>
      s.(tabs := s.tabs.(catalog := s.tabs.catalog[s.nextId := info]), nextId := s.nextId + 1,
         handles := s.handles + {s.nextId}, buffers := s.buffers + {s.nextId})
    case Shutdown => s.(phase := Stopping)
    case JoinThreads => s.(phase := Clearing)
    case ClearOne(pair) =>
      var m := s.tabs.tuples[pair];
      s.(tabs := s.tabs.(tuples := s.tabs.tuples - {pair}, mrs := s.tabs.mrs - {m}), log := s.log + [Deregistered(m)])
    case ClearDone => s.(phase := DroppingGroups)
    case DropGroup(g) =>
      s.(tabs := s.tabs.(groups := s.tabs.groups - {g}), log := s.log + [Deallocated(Released(s.tabs.groups, g))])
    case DropOwners =>
      s.(phase := Gone, buffers := s.buffers * s.handles, log := s.log + [Freed(s.buffers - s.handles)])
    case DropHandle(id) =>
      if s.phase == Gone then
        s.(handles := s.handles - {id}, buffers := s.buffers - {id}, log := s.log + [Freed({id})])
      else s.(handles := s.handles - {id})
  }

  ghost function Act(s: State, a: Action): (r: State)
    requires Can(s, a)
  {
    if CallAction(a) then CallAct(s, a)
    else if RendezvousAction(a) then RendezvousAct(s, a)
    else if ThreadAction(a) then ThreadAct(s, a)
    else AppAct(s, a)
  }

  ghost function Do(s: State, a: Action): (r: State)
    requires Can(s, a)
  {
    Act(s, a).(clock := s.clock + 1)
  }

  // ----- The invariant -----

  /** What a thread holds between its steps still agrees with the tables. */
  ghost predicate PcFits(s: State, th: nat, pc: Pc) {
    match pc
    case Idle => true
    case Missed(_, _) => true
    case HavePd(pair, _, pd) => pair.1 in s.tabs.groups && pd == s.tabs.groups[pair.1].pd
    case HaveAddr(pair, _, pd, addr, size) =>
      pair.1 in s.tabs.groups && pd == s.tabs.groups[pair.1].pd && pair.0 in s.tabs.catalog &&
      addr == s.tabs.catalog[pair.0].remoteAddr && size == s.tabs.catalog[pair.0].size
    case HaveMr(pair, _, mr) =>
      pair.1 in s.tabs.groups && pair.0 in s.tabs.catalog &&
      mr in s.tabs.mrs && Matches(s.tabs, s.tabs.mrs[mr], pair) &&
      forall p :: p in s.tabs.tuples ==> s.tabs.tuples[p] != mr
    case Accepting(g, offered) =>
      th == SERVICE && offered == if g in s.tabs.groups then Some(s.tabs.groups[g].pd) else None
    case Accepted(g, c) =>
      th == SERVICE && c.pd < s.nextPd &&
      if g in s.tabs.groups then c.pd == s.tabs.groups[g].pd
      else forall h :: h in s.tabs.groups ==> s.tabs.groups[h].pd != c.pd
  }

  ghost predicate PcsFit(s: State) { forall th :: th in s.pcs ==> PcFits(s, th, s.pcs[th]) }

  /** Every live registration is in the table or on its way there, held by one thread. */
  ghost predicate MrsOwned(s: State) {
    && (forall m :: m in s.tabs.mrs ==> InTable(s, m) || Carried(s, m))
    && (forall x, y :: x in s.pcs && y in s.pcs && x != y && s.pcs[x].HaveMr? && s.pcs[y].HaveMr? ==>
          s.pcs[x].mr != s.pcs[y].mr)
  }

  ghost predicate InTable(s: State, m: nat) { exists p :: p in s.tabs.tuples && s.tabs.tuples[p] == m }

  ghost predicate Carried(s: State, m: nat) { exists th :: th in s.pcs && s.pcs[th].HaveMr? && s.pcs[th].mr == m }

  /** Domains are never shared by two groups. */
  ghost predicate DomainsDistinct(s: State) {
    && (forall g :: g in s.tabs.groups ==> s.tabs.groups[g].pd < s.nextPd)
    && (forall g, h :: g in s.tabs.groups && h in s.tabs.groups && g != h ==>
          s.tabs.groups[g].pd != s.tabs.groups[h].pd)
  }

  /** Which threads can still run. */
  ghost predicate ThreadsFit(s: State) {
    && APP in s.pcs
    && (s.phase != Running ==> s.pcs[APP] == Idle)
    && (SERVICE !in s.pcs ==> s.pcs.Keys == {APP})
    && (s.phase != Running && s.phase != Stopping ==> SERVICE !in s.pcs)
    && (s.phase == DroppingGroups || s.phase == Gone ==> s.tabs.tuples == map[])
    && (s.phase == Gone ==> s.tabs.groups == map[])
  }

  /** A pending miss is older than the pair's first insertion. */
  ghost predicate TimesFit(s: State) {
    && (forall p :: p in s.tabs.tuples ==> p in s.firstAt)
    && (forall p :: p in s.firstAt ==> s.firstAt[p] < s.clock)
    && (forall th :: th in s.pcs && s.pcs[th].Asking() ==>
          s.pcs[th].since < s.clock &&
          (s.pcs[th].pair in s.firstAt ==> s.pcs[th].since < s.firstAt[s.pcs[th].pair]))
    && (s.phase == Running || s.phase == Stopping ==> forall p :: p in s.firstAt ==> p in s.tabs.tuples)
  }

  ghost predicate Inv(s: State) {
    && Registry.Inv(s.tabs) && (forall id :: id in s.tabs.catalog ==> id < s.nextId)
    && PcsFit(s) && MrsOwned(s) && DomainsDistinct(s) && ThreadsFit(s) && TimesFit(s)
  }

  lemma StartFits()
    ensures Inv(INITIAL)
  {}

  /** A step that only moves one thread (and may take a fresh domain, answer, or log). */
  ghost predicate Moved(s: State, t: State, th: nat, pc: Pc) {
    && t == s.(pcs := s.pcs[th := pc], replies := t.replies, refusals := t.refusals, log := t.log, nextPd := t.nextPd,
               clock := s.clock + 1)
    && s.nextPd <= t.nextPd
  }

  lemma MovePcs(s: State, t: State, th: nat, pc: Pc)
    requires PcsFit(s) && Moved(s, t, th, pc) && PcFits(t, th, pc)
    ensures PcsFit(t)
  {
    forall x | x in t.pcs ensures PcFits(t, x, t.pcs[x]) {
      if x != th { assert PcFits(s, x, s.pcs[x]); }
    }
  }

  lemma MoveMrs(s: State, t: State, th: nat, pc: Pc)
    requires MrsOwned(s) && Moved(s, t, th, pc) && th in s.pcs && !s.pcs[th].HaveMr? && !pc.HaveMr?
    ensures MrsOwned(t)
  {
    forall m | m in t.tabs.mrs ensures InTable(t, m) || Carried(t, m) {
      if InTable(s, m) {
        var p :| p in s.tabs.tuples && s.tabs.tuples[p] == m;
        assert p in t.tabs.tuples;
      } else {
        OthersCarry(s, t, th, m);
      }
    }
  }

  lemma OthersCarry(s: State, t: State, th: nat, m: nat)
    requires Carried(s, m) && (th in s.pcs ==> !(s.pcs[th].HaveMr? && s.pcs[th].mr == m))
    requires forall x :: x in s.pcs && x != th ==> x in t.pcs && t.pcs[x] == s.pcs[x]
    ensures Carried(t, m)
  {}

  lemma MoveRest(s: State, t: State, th: nat, pc: Pc)
    requires DomainsDistinct(s) && ThreadsFit(s) && TimesFit(s) && Moved(s, t, th, pc) && th in s.pcs
    requires th == APP && s.phase != Running ==> pc == Idle
    requires pc.Asking() ==> pc.since <= s.clock && (pc.pair in s.firstAt ==> pc.since < s.firstAt[pc.pair])
    ensures DomainsDistinct(t) && ThreadsFit(t) && TimesFit(t)
  {
    assert t.pcs.Keys == s.pcs.Keys;
  }

  lemma MoveKeeps(s: State, t: State, th: nat, pc: Pc)
    requires Inv(s) && Moved(s, t, th, pc) && th in s.pcs
    requires !s.pcs[th].HaveMr? && !pc.HaveMr? && PcFits(t, th, pc)
    requires th == APP && s.phase != Running ==> pc == Idle
    requires pc.Asking() ==> pc.since <= s.clock && (pc.pair in s.firstAt ==> pc.since < s.firstAt[pc.pair])
    ensures Inv(t)
  {
    hide Registry.Inv, PcsFit, MrsOwned, DomainsDistinct, ThreadsFit, TimesFit, PcFits;
    MovePcs(s, t, th, pc);
    MoveMrs(s, t, th, pc);
    MoveRest(s, t, th, pc);
  }

  /** The facts about one thread that its next step needs. */
  lemma AboutThread(s: State, th: nat)
    requires Inv(s) && th in s.pcs
    ensures PcFits(s, th, s.pcs[th])
    ensures th == APP && s.phase != Running ==> s.pcs[th] == Idle
    ensures var pc := s.pcs[th]; pc.Asking() ==>
      pc.since < s.clock && (pc.pair in s.firstAt ==> pc.since < s.firstAt[pc.pair])
  {}

  /** A miss that happens now is of a pair never inserted so far. */
  lemma MissIsFirst(s: State, pair: Pair)
    requires ThreadsFit(s) && TimesFit(s) && pair !in s.tabs.tuples && (SERVICE in s.pcs || s.phase == Running)
    ensures pair !in s.firstAt
  {}

  lemma CallStepKeeps(s: State, a: Action)
    requires Inv(s) && Can(s, a) && (a.Lookup? || a.GetPd? || a.GetAddr?)
    ensures Inv(Do(s, a))
  {
    AboutThread(s, a.th);
    if a.Lookup? && a.pair !in s.tabs.tuples { MissIsFirst(s, a.pair); }
    hide Registry.Inv, PcsFit, MrsOwned, DomainsDistinct, ThreadsFit, TimesFit;
    MoveKeeps(s, Do(s, a), a.th, Do(s, a).pcs[a.th]);
  }

  lemma ReadGroupKeeps(s: State, g: u32)
    requires Inv(s) && Can(s, ReadGroup(g))
    ensures Inv(Do(s, ReadGroup(g)))
  {
    hide Registry.Inv, PcsFit, MrsOwned, DomainsDistinct, ThreadsFit, TimesFit;
    MoveKeeps(s, Do(s, ReadGroup(g)), SERVICE, Do(s, ReadGroup(g)).pcs[SERVICE]);
  }

  lemma AcceptKeeps(s: State, conn: nat)
    requires Inv(s) && Can(s, Accept(conn))
    ensures Inv(Do(s, Accept(conn)))
  {
    AboutThread(s, SERVICE);
    hide Registry.Inv, PcsFit, MrsOwned, ThreadsFit, TimesFit;
    MoveKeeps(s, Do(s, Accept(conn)), SERVICE, Do(s, Accept(conn)).pcs[SERVICE]);
  }

  lemma AcceptFailsKeeps(s: State, domainMade: bool)
    requires Inv(s) && Can(s, AcceptFails(domainMade))
    ensures Inv(Do(s, AcceptFails(domainMade)))
  {
    hide Registry.Inv, PcsFit, MrsOwned, DomainsDistinct, ThreadsFit, TimesFit;
    MoveKeeps(s, Do(s, AcceptFails(domainMade)), SERVICE, Idle);
  }

  // A granted registration: live, and held by the thread that asked.

  lemma GrantPcs(s: State, th: nat, luck: Luck)
    requires PcsFit(s) && Registry.Inv(s.tabs) && Can(s, Registration(th, luck)) && Registrable(s.pcs[th].size, luck)
    ensures PcsFit(Do(s, Registration(th, luck)))
  {
    var t := Do(s, Registration(th, luck));
    assert PcFits(s, th, s.pcs[th]);
    forall x | x in t.pcs ensures PcFits(t, x, t.pcs[x]) {
      if x != th { assert PcFits(s, x, s.pcs[x]); }
    }
  }

  lemma GrantMrs(s: State, th: nat, luck: Luck)
    requires PcsFit(s) && Registry.Inv(s.tabs) && MrsOwned(s)
    requires Can(s, Registration(th, luck)) && Registrable(s.pcs[th].size, luck)
    ensures MrsOwned(Do(s, Registration(th, luck)))
  {
    var t, m := Do(s, Registration(th, luck)), s.tabs.nextMr;
    forall k | k in t.tabs.mrs ensures InTable(t, k) || Carried(t, k) {
      if k == m {
        assert t.pcs[th].HaveMr? && t.pcs[th].mr == m;
      } else if InTable(s, k) {
        var p :| p in s.tabs.tuples && s.tabs.tuples[p] == k;
        assert p in t.tabs.tuples;
      } else {
        OthersCarry(s, t, th, k);
      }
    }
    forall x | x in s.pcs && s.pcs[x].HaveMr? ensures s.pcs[x].mr != m { assert PcFits(s, x, s.pcs[x]); }
  }

  lemma GrantTables(s: State, id: u32, pd: nat, addr: u64, size: u64, rkey: u32)
    requires Registry.Inv(s.tabs)
    ensures Registry.Inv(Registered(s.tabs, id, pd, addr, size, rkey))
  {}

  lemma GrantRest(s: State, th: nat, luck: Luck)
    requires DomainsDistinct(s) && ThreadsFit(s) && TimesFit(s)
    requires Can(s, Registration(th, luck)) && Registrable(s.pcs[th].size, luck)
    ensures var t := Do(s, Registration(th, luck)); DomainsDistinct(t) && ThreadsFit(t) && TimesFit(t)
  {
    assert Do(s, Registration(th, luck)).pcs.Keys == s.pcs.Keys;
  }

  lemma RegistrationKeeps(s: State, th: nat, luck: Luck)
    requires Inv(s) && Can(s, Registration(th, luck))
    ensures Inv(Do(s, Registration(th, luck)))
  {
    var pc := s.pcs[th];
    hide Registry.Inv, PcsFit, MrsOwned, DomainsDistinct, ThreadsFit, TimesFit;
    if Registrable(pc.size, luck) {
      GrantPcs(s, th, luck);
      GrantMrs(s, th, luck);
      GrantRest(s, th, luck);
      GrantTables(s, pc.pair.0, pc.pd, pc.addr, pc.size, luck.value);
    } else {
      MoveKeeps(s, Do(s, Registration(th, luck)), th, Idle);
    }
  }

  // Inserting hands the registration to the table, and deregisters the one replaced.

  lemma InsertTables(t: Tables, pair: Pair, mr: nat)
    requires Registry.Inv(t) && pair.0 in t.catalog && pair.1 in t.groups && mr in t.mrs && Matches(t, t.mrs[mr], pair)
    requires forall p :: p in t.tuples ==> t.tuples[p] != mr
    ensures Registry.Inv(Inserted(t, pair, mr))
  {}

  lemma FitsAfterInsert(s: State, t: State, th: nat, pc: Pc, pair: Pair, mr: nat)
    requires PcFits(s, th, pc) && t.tabs == Inserted(s.tabs, pair, mr) && t.nextPd == s.nextPd
    requires pc.HaveMr? ==> pc.mr != mr
    ensures PcFits(t, th, pc)
  {}

  lemma InsertPcs(s: State, th: nat)
    requires PcsFit(s) && MrsOwned(s) && Can(s, Insert(th))
    ensures PcsFit(Do(s, Insert(th)))
  {
    var t := Do(s, Insert(th));
    hide PcFits;
    forall x | x in t.pcs ensures PcFits(t, x, t.pcs[x]) {
      if x == th { FitsIdle(t, th); } else { FitsAfterInsert(s, t, x, s.pcs[x], s.pcs[th].pair, s.pcs[th].mr); }
    }
  }

  lemma FitsIdle(s: State, th: nat)
    ensures PcFits(s, th, Idle)
  {}

  lemma InsertMrs(s: State, th: nat)
    requires MrsOwned(s) && Can(s, Insert(th))
    ensures MrsOwned(Do(s, Insert(th)))
  {
    var t, pc := Do(s, Insert(th)), s.pcs[th];
    forall k | k in t.tabs.mrs ensures InTable(t, k) || Carried(t, k) {
      if k == pc.mr {
        assert pc.pair in t.tabs.tuples && t.tabs.tuples[pc.pair] == k;
      } else if InTable(s, k) {
        var p :| p in s.tabs.tuples && s.tabs.tuples[p] == k;
        assert p in t.tabs.tuples && t.tabs.tuples[p] == k;
      } else {
        OthersCarry(s, t, th, k);
      }
    }
  }

  lemma InsertRest(s: State, th: nat)
    requires DomainsDistinct(s) && ThreadsFit(s) && TimesFit(s) && Can(s, Insert(th))
    ensures var t := Do(s, Insert(th)); DomainsDistinct(t) && ThreadsFit(t) && TimesFit(t)
  {
    var t := Do(s, Insert(th));
    assert t.pcs.Keys == s.pcs.Keys;
    assert th != APP ==> s.phase == Running || s.phase == Stopping;
  }

  lemma InsertKeeps(s: State, th: nat)
    requires Inv(s) && Can(s, Insert(th))
    ensures Inv(Do(s, Insert(th)))
  {
    AboutThread(s, th);
    hide Registry.Inv, PcsFit, MrsOwned, DomainsDistinct, ThreadsFit, TimesFit;
    InsertTables(s.tabs, s.pcs[th].pair, s.pcs[th].mr);
    InsertPcs(s, th);
    InsertMrs(s, th);
    InsertRest(s, th);
  }

  // Joining a group: only the service thread does, so what it read of the group still holds.

  lemma JoinTables(t: Tables, g: u32, c: RdmaConnection)
    requires Registry.Inv(t) && (g in t.groups ==> c.pd == t.groups[g].pd)
    ensures Registry.Inv(Joined(t, g, c))
  {}

  lemma JoinPcs(s: State)
    requires PcsFit(s) && Can(s, JoinGroup)
    ensures PcsFit(Do(s, JoinGroup))
  {
    var t := Do(s, JoinGroup);
    forall x | x in t.pcs ensures PcFits(t, x, t.pcs[x]) {
      assert PcFits(s, x, s.pcs[x]);
    }
  }

  lemma JoinRest(s: State)
    requires Can(s, JoinGroup) && PcFits(s, SERVICE, s.pcs[SERVICE])
    requires MrsOwned(s) && DomainsDistinct(s) && ThreadsFit(s) && TimesFit(s)
    ensures var t := Do(s, JoinGroup); MrsOwned(t) && DomainsDistinct(t) && ThreadsFit(t) && TimesFit(t)
  {
    var t := Do(s, JoinGroup);
    assert t.pcs.Keys == s.pcs.Keys;
    forall m | m in t.tabs.mrs ensures InTable(t, m) || Carried(t, m) {
      if InTable(s, m) {
        var p :| p in s.tabs.tuples && s.tabs.tuples[p] == m;
        assert p in t.tabs.tuples;
      } else {
        OthersCarry(s, t, SERVICE, m);
      }
    }
  }

  lemma JoinGroupKeeps(s: State)
    requires Inv(s) && Can(s, JoinGroup)
    ensures Inv(Do(s, JoinGroup))
  {
    AboutThread(s, SERVICE);
    hide Registry.Inv, PcsFit, MrsOwned, DomainsDistinct, ThreadsFit, TimesFit;
    JoinTables(s.tabs, s.pcs[SERVICE].g, s.pcs[SERVICE].connection);
    JoinPcs(s);
    JoinRest(s);
  }

  // Everything else leaves groups, tuples and registrations alone, until the drop clears them.

  /** The tables stay (the catalog may grow); at most thread `th` comes, goes, or idles. */
  ghost predicate Quiet(s: State, t: State, th: nat) {
    && t.tabs == s.tabs.(catalog := t.tabs.catalog) && t.nextPd == s.nextPd
    && (forall id :: id in s.tabs.catalog ==> id in t.tabs.catalog && t.tabs.catalog[id] == s.tabs.catalog[id])
    && (forall id :: id in t.tabs.catalog ==> id < t.nextId)
    && (forall x :: x != th ==> (x in s.pcs <==> x in t.pcs) && (x in s.pcs ==> t.pcs[x] == s.pcs[x]))
    && (th in s.pcs ==> s.pcs[th] == Idle) && (th in t.pcs ==> t.pcs[th] == Idle)
    && t.firstAt == s.firstAt && t.clock == s.clock + 1
    && (t.phase == Running || t.phase == Stopping ==> s.phase == Running || s.phase == Stopping)
  }

  lemma QuietTables(s: State, t: State, th: nat)
    requires Registry.Inv(s.tabs) && Quiet(s, t, th)
    ensures Registry.Inv(t.tabs)
  {}

  lemma QuietPcs(s: State, t: State, th: nat)
    requires PcsFit(s) && Quiet(s, t, th)
    ensures PcsFit(t)
  {
    forall x | x in t.pcs ensures PcFits(t, x, t.pcs[x]) { if x != th { assert PcFits(s, x, s.pcs[x]); } }
  }

  lemma QuietMrs(s: State, t: State, th: nat)
    requires MrsOwned(s) && Quiet(s, t, th)
    ensures MrsOwned(t)
  {
    forall m | m in t.tabs.mrs ensures InTable(t, m) || Carried(t, m) {
      if InTable(s, m) {
        var p :| p in s.tabs.tuples && s.tabs.tuples[p] == m;
        assert p in t.tabs.tuples;
      } else {
        OthersCarry(s, t, th, m);
      }
    }
  }

  lemma QuietTimes(s: State, t: State, th: nat)
    requires TimesFit(s) && DomainsDistinct(s) && Quiet(s, t, th)
    ensures TimesFit(t) && DomainsDistinct(t)
  {}

  lemma QuietKeeps(s: State, t: State, th: nat)
    requires Inv(s) && Quiet(s, t, th) && ThreadsFit(t)
    ensures Inv(t)
  {
    hide Registry.Inv, PcsFit, MrsOwned, DomainsDistinct, ThreadsFit, TimesFit;
    QuietTables(s, t, th);
    QuietPcs(s, t, th);
    QuietMrs(s, t, th);
    QuietTimes(s, t, th);
  }

  lemma RegisterKeeps(s: State, info: RegionInfo)
    requires Inv(s) && Can(s, Register(info))
    ensures Inv(Do(s, Register(info)))
  {
    hide Registry.Inv, PcsFit, MrsOwned, DomainsDistinct, TimesFit;
    QuietKeeps(s, Do(s, Register(info)), APP);
  }

  lemma ThreadsOfThreads(s: State, a: Action)
    requires ThreadsFit(s) && Can(s, a) && ThreadAction(a)
    ensures ThreadsFit(Do(s, a))
  {
    if a.ServiceEnds? { assert Do(s, a).pcs.Keys == {APP}; }
  }

  /** A thread that appears idle or ends idle. */
  lemma ThreadKeeps(s: State, a: Action)
    requires Inv(s) && Can(s, a) && ThreadAction(a)
    ensures Inv(Do(s, a))
  {
    hide Registry.Inv, PcsFit, MrsOwned, DomainsDistinct, TimesFit, ThreadsFit;
    ThreadsOfThreads(s, a);
    QuietKeeps(s, Do(s, a), if a.Spawn? || a.SessionEnds? then a.th else SERVICE);
  }

  predicate PhaseAction(a: Action) { a.Shutdown? || a.JoinThreads? || a.ClearDone? || a.DropOwners? || a.DropHandle? }

  lemma ThreadsOfPhases(s: State, a: Action)
    requires ThreadsFit(s) && Can(s, a) && PhaseAction(a)
    ensures ThreadsFit(Do(s, a)) && s.pcs[APP] == Idle
  {}

  lemma PhaseKeeps(s: State, a: Action)
    requires Inv(s) && Can(s, a) && PhaseAction(a)
    ensures Inv(Do(s, a))
  {
    hide Registry.Inv, PcsFit, MrsOwned, DomainsDistinct, TimesFit, ThreadsFit;
    ThreadsOfPhases(s, a);
    QuietKeeps(s, Do(s, a), APP);
  }

  /** Once the threads are joined only the application is left, idle in the provider's drop. */
  lemma OnlyApp(s: State)
    requires ThreadsFit(s) && s.phase != Running && s.phase != Stopping
    ensures s.pcs.Keys == {APP} && s.pcs[APP] == Idle
  {}

  lemma PcsOfApp(t: State)
    requires t.pcs.Keys == {APP} && t.pcs[APP] == Idle
    ensures PcsFit(t)
  {}

  lemma ClearTables(s: State, pair: Pair)
    requires Registry.Inv(s.tabs) && Can(s, ClearOne(pair))
    ensures Registry.Inv(Do(s, ClearOne(pair)).tabs)
  {
    EntryCleared(s.tabs, pair);
    hide Registry.Inv, CallAct, RendezvousAct, ThreadAct;
  }

  lemma EntryCleared(t: Tables, pair: Pair)
    requires Registry.Inv(t) && pair in t.tuples
    ensures Registry.Inv(t.(tuples := t.tuples - {pair}, mrs := t.mrs - {t.tuples[pair]}))
  {}

  lemma ClearMrs(s: State, pair: Pair)
    requires MrsOwned(s) && Can(s, ClearOne(pair))
    ensures MrsOwned(Do(s, ClearOne(pair)))
  {
    var t := Do(s, ClearOne(pair));
    forall m | m in t.tabs.mrs ensures InTable(t, m) || Carried(t, m) {
      if InTable(s, m) {
        var p :| p in s.tabs.tuples && s.tabs.tuples[p] == m;
        assert p in t.tabs.tuples;
      } else {
        var th :| th in s.pcs && s.pcs[th].HaveMr? && s.pcs[th].mr == m;
        assert th in t.pcs;
      }
    }
  }

  lemma ClearRest(s: State, pair: Pair)
    requires DomainsDistinct(s) && ThreadsFit(s) && TimesFit(s) && Can(s, ClearOne(pair))
    ensures var t := Do(s, ClearOne(pair)); DomainsDistinct(t) && ThreadsFit(t) && TimesFit(t)
  {}

  /** Clearing one entry deregisters its registration. */
  lemma ClearKeeps(s: State, pair: Pair)
    requires Inv(s) && Can(s, ClearOne(pair))
    ensures Inv(Do(s, ClearOne(pair)))
  {
    OnlyApp(s);
    hide Registry.Inv, PcsFit, MrsOwned, DomainsDistinct, TimesFit, ThreadsFit;
    ClearTables(s, pair);
    ClearMrs(s, pair);
    ClearRest(s, pair);
    PcsOfApp(Do(s, ClearOne(pair)));
  }

  /** Dropping a group's entry, when nothing is registered any more. */
  lemma DropGroupKeeps(s: State, g: u32)
    requires Inv(s) && Can(s, DropGroup(g))
    ensures Inv(Do(s, DropGroup(g)))
  {
    OnlyApp(s);
  }

  /** Every step of every thread keeps the invariant. */
  lemma StepKeeps(s: State, a: Action)
    requires Inv(s) && Can(s, a)
    ensures Inv(Do(s, a))
  {
    hide Inv, Can, Do;
    match a
    case Register(info) => RegisterKeeps(s, info);
    case Serve => ThreadKeeps(s, a);
    case Lookup(th, pair) => CallStepKeeps(s, a);
    case GetPd(th) => CallStepKeeps(s, a);
    case GetAddr(th) => CallStepKeeps(s, a);
    case Registration(th, luck) => RegistrationKeeps(s, th, luck);
    case Insert(th) => InsertKeeps(s, th);
    case ReadGroup(g) => ReadGroupKeeps(s, g);
    case Accept(conn) => AcceptKeeps(s, conn);
    case AcceptFails(domainMade) => AcceptFailsKeeps(s, domainMade);
    case JoinGroup => JoinGroupKeeps(s);
    case Spawn(th) => ThreadKeeps(s, a);
    case SessionEnds(th) => ThreadKeeps(s, a);
    case Shutdown => PhaseKeeps(s, a);
    case ServiceEnds => ThreadKeeps(s, a);
    case JoinThreads => PhaseKeeps(s, a);
    case ClearOne(pair) => ClearKeeps(s, pair);
    case ClearDone => PhaseKeeps(s, a);
    case DropGroup(g) => DropGroupKeeps(s, g);
    case DropOwners => PhaseKeeps(s, a);
    case DropHandle(id) => PhaseKeeps(s, a);
  }

  // ----- What each kind of step leaves alone -----

  lemma CallActFrame(s: State, a: Action)
    requires Can(s, a) && CallAction(a)
    ensures var t := CallAct(s, a);
      && t.phase == s.phase && t.tabs.groups == s.tabs.groups && t.tabs.catalog == s.tabs.catalog
      && (forall x :: x in t.pcs <==> x in s.pcs) && (forall x :: x in s.pcs && x != a.th ==> t.pcs[x] == s.pcs[x])
      && t.buffers == s.buffers && t.nextPd == s.nextPd
  {
    hide Registered, Inserted, Registrable;
    if a.Registration? {
      RegistrationFrame(s, a.th, a.luck);
    } else if a.Insert? {
      InsertFrame(s, a.th);
    }
  }

  lemma RegistrationFrame(s: State, th: nat, luck: Luck)
    requires Can(s, Registration(th, luck))
    ensures var t := CallAct(s, Registration(th, luck));
      && t.phase == s.phase && t.tabs.groups == s.tabs.groups && t.tabs.catalog == s.tabs.catalog
      && (forall x :: x in t.pcs <==> x in s.pcs) && (forall x :: x in s.pcs && x != th ==> t.pcs[x] == s.pcs[x])
      && t.buffers == s.buffers && t.nextPd == s.nextPd
  {}

  lemma InsertFrame(s: State, th: nat)
    requires Can(s, Insert(th))
    ensures var t := CallAct(s, Insert(th));
      && t.phase == s.phase && t.tabs.groups == s.tabs.groups && t.tabs.catalog == s.tabs.catalog
      && (forall x :: x in t.pcs <==> x in s.pcs) && (forall x :: x in s.pcs && x != th ==> t.pcs[x] == s.pcs[x])
      && t.buffers == s.buffers && t.nextPd == s.nextPd
  {}

  lemma CallFrame(s: State, a: Action)
    requires Can(s, a) && CallAction(a)
    ensures var t := Do(s, a);
      && t == CallAct(s, a).(clock := s.clock + 1)
      && t.phase == s.phase && t.tabs.groups == s.tabs.groups && t.tabs.catalog == s.tabs.catalog
      && (forall x :: x in t.pcs <==> x in s.pcs) && (forall x :: x in s.pcs && x != a.th ==> t.pcs[x] == s.pcs[x])
      && t.buffers == s.buffers && t.nextPd == s.nextPd
  {
    hide CallAct, RendezvousAct, ThreadAct, AppAct;
    CallActFrame(s, a);
  }

  lemma RendezvousFrame(s: State, a: Action)
    requires Can(s, a) && RendezvousAction(a)
    ensures var t := Do(s, a);
      && t == s.(tabs := s.tabs.(groups := t.tabs.groups), pcs := s.pcs[SERVICE := t.pcs[SERVICE]],
                 nextPd := t.nextPd, log := t.log, clock := s.clock + 1)
      && !t.pcs[SERVICE].Asking() && !s.pcs[SERVICE].Asking()
      && (forall g :: g in s.tabs.groups ==> g in t.tabs.groups && t.tabs.groups[g].pd == s.tabs.groups[g].pd)
      && s.nextPd <= t.nextPd
  {}

  lemma ThreadFrame(s: State, a: Action)
    requires Can(s, a) && ThreadAction(a)
    ensures var t := Do(s, a);
      && t == s.(pcs := t.pcs, clock := s.clock + 1)
      && (forall x :: x in t.pcs && t.pcs[x] != Idle ==> x in s.pcs && s.pcs[x] == t.pcs[x])
  {}

  lemma AppFrame(s: State, a: Action)
    requires Can(s, a) && AppAction(a)
    ensures var t := Do(s, a);
      && t.pcs == s.pcs && t.replies == s.replies && t.firstAt == s.firstAt && t.regs == s.regs && t.nextPd == s.nextPd
      && t.clock == s.clock + 1 && t.tabs.nextMr == s.tabs.nextMr
      && (Live(t) ==> Live(s) && t.tabs == s.tabs.(catalog := t.tabs.catalog) && t.log == s.log)
      && Rank(t.phase) >= Rank(s.phase)
  {}

  /** Before the drop starts clearing. */
  predicate Live(s: State) { s.phase == Running || s.phase == Stopping }

  function Rank(p: Phase): (r: nat) {
    match p case Running => 0 case Stopping => 1 case Clearing => 2 case DroppingGroups => 3 case Gone => 4
  }
}
