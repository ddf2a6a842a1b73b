/**
 The reader's provider handle (src/readers.rs): sessions by group, each with a
 connection slot shared with the regions handed out, and the cache that `update`
 fills.  What the network does during one `update` is its parameter.
 */
module Reader {
  import opened Common
  import opened Codec
  import opened Cache

  /** The shared slot: a session fills it, regions read through it. */
  class GroupConnection {
    var connection: Option<nat>

    constructor ()
      ensures connection == None
    {
      connection := None;
    }
  }

  datatype GroupSession = GroupSession(channel: Option<nat>, slot: GroupConnection)

  /** Outcomes of the network calls of one `update`, in call order; each may fail. */
  datatype Net = Net(
    connected: Option<nat>, helloSent: bool, greeting: Option<Message>, wantSent: bool, rdma: Option<nat>,
    updateSent: bool, first: Option<Message>, second: Option<Message>)
  {
    /** A fresh session got as far as its RDMA connection. */
    predicate Joined() {
      connected.Some? && helloSent && greeting == Some(Welcome(PROTOCOL_VERSION)) && wantSent && rdma.Some?
    }

    /** The catalog and tuples of the group came in. */
    predicate Replied(group: u32) {
      first.Some? && first.value.Metadata? && second.Some? && second.value.Tuples? && second.value.served == group
    }

    /** The exchange received, over an open channel or by a fresh session. */
    function Exchange(open: bool): (r: Option<(Message, Message)>) {
      if (if open then updateSent else Joined()) && first.Some? && second.Some?
      then Some((first.value, second.value))
      else None
    }
  }

  datatype RemoteMemoryRegion = RemoteMemoryRegion(slot: GroupConnection, cached: CachedRegion)

  class RemoteMemoryProvider {
    var sessions: map<u32, GroupSession>
    var metadata: seq<RegionMetadata>
    var regions: map<Key, seq<CachedRegion>>
    /** Every call of `ingest` so far. */
    ghost var history: seq<Call>

    ghost function Slots(): (r: set<object>)
      reads this
    {
      set g | g in sessions :: sessions[g].slot
    }

    ghost predicate Filled(g: u32)
      reads this, Slots()
    {
      g in sessions && sessions[g].slot.connection.Some?
    }

    /** An open channel has a filled slot; groups do not share slots. */
    ghost predicate SessionsValid()
      reads this, Slots()
    {
      && (forall g :: g in sessions && sessions[g].channel.Some? ==> Filled(g))
      && (forall g, h :: g in sessions && h in sessions && g != h ==> sessions[g].slot != sessions[h].slot)
    }

    /** What every reachable state satisfies. */
    ghost predicate Valid()
      reads this, Slots()
    {
      && SessionsValid()
      && (forall key, e :: key in regions && e in regions[key] ==> Filled(e.group))
      && Cache(metadata, regions) == After(history)
    }

    constructor ()
      ensures Valid() && sessions == map[] && history == []
    {
      sessions, metadata, regions, history := map[], [], map[], [];
    }

    /** `ingest`: the loops compute the closed form; a refused exchange changes nothing. */
    method Ingest(group: u32, first: Message, second: Message) returns (ok: bool)
      modifies this`metadata, this`regions, this`history
      ensures ok == Call(group, first, second).Accepted()
      ensures Cache(metadata, regions) == Apply(Cache(old(metadata), old(regions)), Call(group, first, second))
      ensures history == old(history) + [Call(group, first, second)]
      ensures ok <==> first.Metadata? && second.Tuples? && second.served == group
      ensures ok ==> Lists(metadata, first.regions)
      ensures !ok ==> metadata == old(metadata) && regions == old(regions)
    {
      history := history + [Call(group, first, second)];
      if !first.Metadata? || !second.Tuples? || second.served != group { return false; }
      metadata, regions := FillCaches(regions, group, first.regions, second.tuples);
      ok := true;
    }

    /** The group's session, with an empty slot when there is none yet. */
    method OpenSession(group: u32)
      requires SessionsValid()
      modifies this`sessions
      ensures SessionsValid() && group in sessions
      ensures group in old(sessions) ==> sessions == old(sessions)
      ensures group !in old(sessions) ==>
        sessions == old(sessions)[group := sessions[group]] && sessions[group].channel == None &&
        fresh(sessions[group].slot) && sessions[group].slot.connection == None
    {
      if group !in sessions {
        var slot := new GroupConnection();
        sessions := sessions[group := GroupSession(None, slot)];
      }
    }

    /** Re-request over the open channel; a failed exchange drops the channel. */
    method Refresh(group: u32, net: Net) returns (exchange: Option<(Message, Message)>)
      requires SessionsValid() && group in sessions && sessions[group].channel.Some?
      modifies this`sessions
      ensures exchange == net.Exchange(true)
      ensures sessions == if exchange == None then old(sessions)[group := old(sessions[group]).(channel := None)]
                          else old(sessions)
      ensures SessionsValid()
    {
      if !net.updateSent || net.first.None? || net.second.None? {
        sessions := sessions[group := sessions[group].(channel := None)];
        return None;
      }
      exchange := Some((net.first.value, net.second.value));
    }

    /** Greet, join and connect; the slot is filled before the exchange, the channel kept only after it. */
    method RunFresh(group: u32, net: Net) returns (exchange: Option<(Message, Message)>)
      requires SessionsValid() && group in sessions && sessions[group].channel.None?
      modifies this`sessions, sessions[group].slot
      ensures exchange == net.Exchange(false)
      ensures sessions == if exchange == None then old(sessions)
                          else old(sessions)[group := old(sessions[group]).(channel := net.connected)]
      ensures sessions[group].slot.connection ==
        if net.Joined() then net.rdma else old(sessions[group].slot.connection)
      ensures SessionsValid()
    {
      var joined := Join(net);
      if !joined { return None; }
      sessions[group].slot.connection := net.rdma;
      if net.first.None? || net.second.None? { return None; }
      sessions := sessions[group := sessions[group].(channel := net.connected)];
      exchange := Some((net.first.value, net.second.value));
    }

    /** The part of `update` before the ingest. */
    method RunSession(group: u32, net: Net) returns (exchange: Option<(Message, Message)>)
      requires SessionsValid()
      modifies this`sessions, Slots()
      ensures SessionsValid()
      ensures sessions.Keys == old(sessions).Keys + {group}
      ensures forall g :: g in old(sessions) ==>
        sessions[g].slot == old(sessions[g].slot) && (old(Filled(g)) ==> Filled(g))
      ensures forall g :: g in old(sessions) && g != group ==>
        sessions[g] == old(sessions[g]) && sessions[g].slot.connection == old(sessions[g].slot.connection)
      ensures group !in old(sessions) ==> fresh(sessions[group].slot)
      ensures exchange == net.Exchange(group in old(sessions) && old(sessions[group].channel).Some?)
      ensures sessions[group].channel ==
        if exchange == None then None
        else if group in old(sessions) && old(sessions[group].channel).Some? then old(sessions[group].channel)
        else net.connected
      ensures exchange.Some? ==> Filled(group)
      ensures sessions[group].slot.connection ==
        if net.Joined() && !(group in old(sessions) && old(sessions[group].channel).Some?) then net.rdma
        else if group in old(sessions) then old(sessions[group].slot.connection)
        else None
    {
      OpenSession(group);
      if sessions[group].channel.Some? {
        exchange := Refresh(group, net);
      } else {
        exchange := RunFresh(group, net);
      }
    }

    /**
     `update`: reuse the open channel or run a fresh session, then ingest.
     A slot is never replaced and never emptied, whatever fails.
     */
    method Update(group: u32, net: Net) returns (ok: bool)
      requires Valid()
      modifies this, Slots()
      ensures Valid()
      ensures sessions.Keys == old(sessions).Keys + {group}
      ensures forall g :: g in old(sessions) ==>
        sessions[g].slot == old(sessions[g].slot) && (old(Filled(g)) ==> Filled(g))
      ensures forall g :: g in old(sessions) && g != group ==>
        sessions[g] == old(sessions[g]) && sessions[g].slot.connection == old(sessions[g].slot.connection)
      ensures sessions[group].slot.connection ==
        if net.Joined() && !(group in old(sessions) && old(sessions[group].channel).Some?) then net.rdma
        else if group in old(sessions) then old(sessions[group].slot.connection)
        else None
      ensures
        var open := group in old(sessions) && old(sessions[group].channel).Some?;
        match net.Exchange(open)
        case None => !ok && history == old(history) && sessions[group].channel == None
        case Some((a, b)) =>
          ok == Call(group, a, b).Accepted() && history == old(history) + [Call(group, a, b)] &&
          sessions[group].channel == if open then old(sessions[group].channel) else net.connected
      ensures var open := group in old(sessions) && old(sessions[group].channel).Some?;
        ok <==> net.Replied(group) && (open ==> net.updateSent) && (!open ==>
          net.connected.Some? && net.helloSent && net.greeting == Some(Welcome(1)) && net.wantSent && net.rdma.Some?)
      ensures ok ==> net.first.Some? && net.first.value.Metadata? && Lists(metadata, net.first.value.regions)
      ensures !ok ==> metadata == old(metadata) && regions == old(regions)
      ensures
        !(group in old(sessions) && old(sessions[group].channel).Some?) && net.greeting != Some(Welcome(1)) ==>
          !ok && sessions[group].channel == None &&
          sessions[group].slot.connection ==
          if group in old(sessions) then old(sessions[group].slot.connection) else None
    {
      hide After, Apply, Ingested, Known, Lists;
      ghost var c, h := Cache(metadata, regions), history;
      var exchange := RunSession(group, net);
      if exchange == None { return false; }
      var (a, b) := exchange.value;
      ok := Ingest(group, a, b);
      AfterOneMore(h, Call(group, a, b));
      KnownGroups(c, Call(group, a, b));
    }

    /**
     `get_remote_mr`: the group's cached tuple with the session's own slot; for a given
     group it is what the whole history of ingests promises.
     */
    method GetRemoteMr(name: Utf8, id: u32, group: Option<u32>) returns (r: Option<RemoteMemoryRegion>)
      ensures r.Some? <==> (exists e :: e in Known(regions, (name, id)) && (group == None || e.group == group.value))
      ensures r.Some? ==> r.value.cached in Known(regions, (name, id))
      ensures r.Some? && group == None ==> r.value.cached == Known(regions, (name, id))[0]
      ensures Valid() && r.Some? ==>
        var g := r.value.cached.group;
        Filled(g) && r.value.slot == sessions[g].slot && r.value.slot.connection.Some?
      ensures Valid() && group == None ==>
        forall g: u32 :: Expected(history, (name, id), g).Some? ==>
          r.Some? && LastServed(history, r.value.cached.group) <= LastServed(history, g)
      ensures Valid() && group.Some? ==>
        (if r.Some? then Some(r.value.cached) else None) == Expected(history, (name, id), group.value)
    {
      var entries := Known(regions, (name, id));
      if Valid() {
        forall g: u32 | Expected(history, (name, id), g).Some?
          ensures entries != [] && LastServed(history, entries[0].group) <= LastServed(history, g)
        {
          FirstIsOldest(history, (name, id), g);
        }
      }
      var i := 0;
      while i < |entries| && group.Some? && entries[i].group != group.value
        invariant 0 <= i <= |entries|
        invariant group.Some? ==> Find(entries, group.value) == Find(entries[i..], group.value)
        invariant group == None ==> i == 0
        invariant forall j :: 0 <= j < i ==> group.Some? && entries[j].group != group.value
        decreases |entries| - i
      {
        i := i + 1;
      }
      if Valid() && group.Some? { CacheRefinesHistory(history, (name, id), group.value); }
      if i == |entries| { return None; }
      var cached := entries[i];
      if cached.group in sessions {
        r := Some(RemoteMemoryRegion(sessions[cached.group].slot, cached));
      } else {
        var slot := new GroupConnection();
        r := Some(RemoteMemoryRegion(slot, cached));
      }
    }
  }

  /** Greet the remote, check its reply, join the group and connect over RDMA. */
  method Join(net: Net) returns (joined: bool)
    ensures joined == net.Joined()
  {
    if net.connected.None? || !net.helloSent || net.greeting.None? { return false; }
    match net.greeting.value {
      case Welcome(v) => if v != PROTOCOL_VERSION { return false; }
      case _ => return false;
    }
    joined := net.wantSent && net.rdma.Some?;
  }

  /** Both caches from an accepted catalog and its tuples. */
  method FillCaches(was: map<Key, seq<CachedRegion>>, group: u32, rs: seq<RegionDesc>, ts: seq<TupleDesc>)
    returns (metadata: seq<RegionMetadata>, regions: map<Key, seq<CachedRegion>>)
    ensures metadata == Catalog(rs) && regions == Ingested(Cache([], was), group, rs, ts).regions
    ensures Lists(metadata, rs)
  {
    hide Others, TupleFor, Keys, Known, Lists, Describe, Fresh;
    CatalogLists(rs);
    metadata := seq(|rs|, i requires 0 <= i < |rs| => Describe(rs[i]));
    var byId := CollectById(ts);
    var active := Refill(was, group, rs, ts, byId);
    var live := seq(|rs|, i requires 0 <= i < |rs| => KeyOf(rs[i]));
    LiveKeys(rs, live);
    regions := map key | key in active && key in live :: active[key];
    assert regions.Keys == Keys(rs);
  }

  method CollectById(ts: seq<TupleDesc>) returns (byId: map<u32, TupleDesc>)
    ensures forall id: u32 :: (if id in byId then Some(byId[id]) else None) == TupleFor(ts, id)
  {
    byId := map[];
    for i := 0 to |ts|
      invariant forall id: u32 :: (if id in byId then Some(byId[id]) else None) == TupleFor(ts[..i], id)
    {
      assert ts[..i + 1][..i] == ts[..i];
      byId := byId[ts[i].regionId := ts[i]];
    }
    assert ts[..|ts|] == ts;
  }

  /** The entries `key` should have once the catalog prefix `rs` has been walked. */
  ghost function Wanted(was: map<Key, seq<CachedRegion>>, rs: seq<RegionDesc>, ts: seq<TupleDesc>, key: Key, g: u32)
    : (r: seq<CachedRegion>)
  {
    if key in Keys(rs) then Others(Known(was, key), g) + Fresh(rs, ts, key, g) else Known(was, key)
  }

  /** The loop over the catalog: drop the group's entry, push the new one. */
  method Refill(was: map<Key, seq<CachedRegion>>, group: u32, rs: seq<RegionDesc>, ghost ts: seq<TupleDesc>,
                byId: map<u32, TupleDesc>) returns (active: map<Key, seq<CachedRegion>>)
    requires forall id: u32 :: (if id in byId then Some(byId[id]) else None) == TupleFor(ts, id)
    ensures active.Keys == was.Keys + Keys(rs)
    ensures forall key :: key in active ==> active[key] == Wanted(was, rs, ts, key, group)
  {
    hide Wanted, Others, TupleFor, Keys;
    active := was;
    assert Keys(rs[..0]) == {} by { NoKeys(rs[..0]); }
    forall key ensures Wanted(was, rs[..0], ts, key, group) == Known(was, key) {
      WantedAtFirst(was, rs[..0], ts, key, group);
    }
    for i := 0 to |rs|
      invariant active.Keys == was.Keys + Keys(rs[..i])
      invariant forall key :: key in active ==> active[key] == Wanted(was, rs[..i], ts, key, group)
    {
      var key := KeyOf(rs[i]);
      KeysExtend(rs, i);
      forall k | k != key ensures Wanted(was, rs[..i + 1], ts, k, group) == Wanted(was, rs[..i], ts, k, group) {
        WantedElsewhere(was, rs, i, ts, k, group);
      }
      WantedHere(was, rs, i, ts, group);
      if key !in active { WantedUnlisted(was, rs[..i], ts, key, group); }
      var entry := Others(Known(active, key), group);
      if rs[i].id in byId { entry := entry + [MakeEntry(rs[i], byId[rs[i].id], group)]; }
      active := active[key := entry];
    }
    assert rs[..|rs|] == rs;
  }

  lemma NoKeys(rs: seq<RegionDesc>)
    requires rs == []
    ensures Keys(rs) == {}
  {}

  lemma WantedAtFirst(was: map<Key, seq<CachedRegion>>, rs: seq<RegionDesc>, ts: seq<TupleDesc>, key: Key, g: u32)
    requires rs == []
    ensures Wanted(was, rs, ts, key, g) == Known(was, key)
  {}

  lemma WantedUnlisted(was: map<Key, seq<CachedRegion>>, rs: seq<RegionDesc>, ts: seq<TupleDesc>, key: Key, g: u32)
    requires key !in Keys(rs)
    ensures Wanted(was, rs, ts, key, g) == Known(was, key)
  {}

  lemma WantedElsewhere(was: map<Key, seq<CachedRegion>>, rs: seq<RegionDesc>, i: nat, ts: seq<TupleDesc>, key: Key,
                      g: u32)
    requires i < |rs| && key != KeyOf(rs[i])
    ensures Wanted(was, rs[..i + 1], ts, key, g) == Wanted(was, rs[..i], ts, key, g)
  {
    hide Others, TupleFor;
    KeysExtend(rs, i);
  }

  lemma WantedHere(was: map<Key, seq<CachedRegion>>, rs: seq<RegionDesc>, i: nat, ts: seq<TupleDesc>, g: u32)
    requires i < |rs|
    ensures Wanted(was, rs[..i + 1], ts, KeyOf(rs[i]), g) ==
      Others(Wanted(was, rs[..i], ts, KeyOf(rs[i]), g), g) +
      (match TupleFor(ts, rs[i].id) case None => [] case Some(t) => [MakeEntry(rs[i], t, g)])
  {
    var key := KeyOf(rs[i]);
    var kept := Others(Known(was, key), g);
    KeysExtend(rs, i);
    assert Others(Wanted(was, rs[..i], ts, key, g), g) == kept by {
      if key in Keys(rs[..i]) {
        OthersAppend(kept, Fresh(rs[..i], ts, key, g), g);
        OthersTwice(Known(was, key), g);
        assert Others(Fresh(rs[..i], ts, key, g), g) == [];
      }
    }
    hide Others, TupleFor;
    assert rs[..i + 1][i] == rs[i];
    assert DescFor(rs[..i + 1], key) == rs[i];
  }

  lemma LiveKeys(rs: seq<RegionDesc>, live: seq<Key>)
    requires |live| == |rs| && forall i :: 0 <= i < |rs| ==> live[i] == KeyOf(rs[i])
    ensures forall key :: key in live <==> key in Keys(rs)
  {}

  lemma KeysExtend(rs: seq<RegionDesc>, i: nat)
    requires i < |rs|
    ensures rs[..i + 1][..i] == rs[..i] && Keys(rs[..i + 1]) == Keys(rs[..i]) + {KeyOf(rs[i])}
  {
    assert rs[..i + 1][..i] == rs[..i];
    forall key | key in Keys(rs[..i]) ensures key in Keys(rs[..i + 1]) {
      var j :| 0 <= j < i && KeyOf(rs[..i][j]) == key;
      assert KeyOf(rs[..i + 1][j]) == key;
    }
    assert KeyOf(rs[..i + 1][i]) in Keys(rs[..i + 1]);
  }

  lemma {:induction false} OthersAppend(a: seq<CachedRegion>, b: seq<CachedRegion>, g: u32)
    ensures Others(a + b, g) == Others(a, g) + Others(b, g)
  {
    if a == [] {
      assert a + b == b;
    } else {
      assert (a + b)[1..] == a[1..] + b;
      OthersAppend(a[1..], b, g);
    }
  }

  lemma {:induction false} OthersTwice(s: seq<CachedRegion>, g: u32)
    ensures Others(Others(s, g), g) == Others(s, g)
  {
    if s != [] {
      OthersTwice(s[1..], g);
      if s[0].group != g { assert Others(s, g)[1..] == Others(s[1..], g); }
    }
  }

  lemma AfterOneMore(h: seq<Call>, call: Call)
    ensures After(h + [call]) == Apply(After(h), call)
  {
    assert (h + [call])[..|h|] == h;
  }

  /** An ingest introduces no group but its own. */
  lemma KnownGroups(c: Cache, call: Call)
    ensures forall key, e :: key in Apply(c, call).regions && e in Apply(c, call).regions[key] ==>
      e.group == call.group || (key in c.regions && e in c.regions[key])
  {
    if call.Accepted() {
      hide Apply, Ingested;
      forall key, e | key in Apply(c, call).regions && e in Apply(c, call).regions[key]
        ensures e.group == call.group || (key in c.regions && e in c.regions[key])
      {
        EntryAfter(c, call, key);
        OthersAreOld(Known(c.regions, key), call.group);
      }
    }
  }

  /** A key's entries after an ingest: the other groups' as they were, and the group's own. */
  lemma EntryAfter(c: Cache, call: Call, key: Key)
    requires call.Accepted() && key in Apply(c, call).regions
    ensures exists own: seq<CachedRegion> ::
      Apply(c, call).regions[key] == Others(Known(c.regions, key), call.group) + own &&
      forall e :: e in own ==> e.group == call.group
  {
    hide Others, Keys, TupleFor, DescFor;
    var rs, ts := call.first.regions, call.second.tuples;
    assert Apply(c, call).regions[key] == Others(Known(c.regions, key), call.group) + Fresh(rs, ts, key, call.group);
  }

  lemma {:induction false} OthersAreOld(s: seq<CachedRegion>, g: u32)
    ensures forall x :: x in Others(s, g) ==> x in s
  {
    if s != [] { OthersAreOld(s[1..], g); }
  }
}
