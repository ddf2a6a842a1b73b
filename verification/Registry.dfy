/**
 The provider's shared tables (src/providers.rs): the region catalog, the reader groups
 and the tuple table, with the device that registers memory.  Every operation is here as
 it runs when nothing interleaves with it; module Interleaving takes the steps apart.
 */
module Registry {
  import opened Common
  import opened Codec

  datatype RegionInfo = RegionInfo(
    name: Utf8, remoteAddr: u64, size: u64, elemSize: u32, elemAlign: u32, elemType: Utf8)

  /** An accepted RDMA connection, whose queue pair lives in `pd`. */
  datatype RdmaConnection = RdmaConnection(id: nat, pd: nat)

  datatype GroupEntry = GroupEntry(pd: nat, connections: seq<RdmaConnection>)

  /** A live registration of `region`'s buffer in `pd`. */
  datatype Mr = Mr(region: u32, pd: nat, addr: u64, size: u64, rkey: u32)

  type Pair = (u32, u32)

  datatype Tables = Tables(
    catalog: map<u32, RegionInfo>, groups: map<u32, GroupEntry>, tuples: map<Pair, nat>,
    mrs: map<nat, Mr>, nextMr: nat)

  const NO_TABLES: Tables := Tables(map[], map[], map[], map[], 0)

  /** A connection of the group joins it; the first one brings the group's domain. */
  function Joined(t: Tables, g: u32, c: RdmaConnection): (r: Tables) {
    var entry := if g in t.groups then t.groups[g] else GroupEntry(c.pd, []);
    t.(groups := t.groups[g := entry.(connections := entry.connections + [c])])
  }

  /** The device's answer to a registration: a remote key, or a refusal. */
  type Luck = Option<u32>

  predicate Registrable(size: nat, luck: Luck) { size > 0 && luck.Some? }

  /** A fresh registration, live but in no table yet. */
  function Registered(t: Tables, id: u32, pd: nat, addr: u64, size: u64, rkey: u32): (r: Tables) {
    t.(mrs := t.mrs[t.nextMr := Mr(id, pd, addr, size, rkey)], nextMr := t.nextMr + 1)
  }

  /** Inserting a registration drops, and so deregisters, the one it replaces. */
  function Inserted(t: Tables, pair: Pair, mr: nat): (r: Tables) {
    t.(tuples := t.tuples[pair := mr], mrs := if pair in t.tuples then t.mrs - {t.tuples[pair]} else t.mrs)
  }

  datatype Answer = Hit(mr: nat) | Unknown | RegistrationFailed

  /** `tuple_of`, uninterrupted. */
  function AskTuple(t: Tables, pair: Pair, luck: Luck): (r: (Tables, Answer)) {
    if pair in t.tuples then (t, Hit(t.tuples[pair]))
    else if pair.1 !in t.groups || pair.0 !in t.catalog then (t, Unknown)
    else
      var info := t.catalog[pair.0];
      if !Registrable(info.size, luck) then (t, RegistrationFailed)
      else
        var granted := Registered(t, pair.0, t.groups[pair.1].pd, info.remoteAddr, info.size, luck.value);
        (Inserted(granted, pair, t.nextMr), Hit(t.nextMr))
  }

  function Advertise(id: u32, info: RegionInfo): (r: RegionDesc) {
    RegionDesc(id, info.name, info.size, info.elemSize, info.elemAlign, info.elemType)
  }

  /** The tables after the tuples of `ids` were asked for, in order. */
  function AfterAsking(t: Tables, ids: seq<u32>, g: u32, luck: seq<Luck>): (r: Tables)
    requires |luck| == |ids|
  {
    if ids == [] then t
    else
      var n := |ids| - 1;
      AskTuple(AfterAsking(t, ids[..n], g, luck[..n]), (ids[n], g), luck[n]).0
  }

  /** The tuples served for `ids`: one for each that has a registration by then. */
  function Served(t: Tables, ids: seq<u32>, g: u32, luck: seq<Luck>): (r: seq<TupleDesc>)
    requires |luck| == |ids| && Inv(t)
  {
    if ids == [] then []
    else
      var n := |ids| - 1;
      AskingKeeps(t, ids[..n], g, luck[..n]);
      var before := AfterAsking(t, ids[..n], g, luck[..n]);
      TupleOfKeeps(before, (ids[n], g), luck[n]);
      var (after, answer) := AskTuple(before, (ids[n], g), luck[n]);
      Served(t, ids[..n], g, luck[..n]) +
        if answer.Hit? then
          [TupleDesc(ids[n], after.mrs[answer.mr].addr, after.mrs[answer.mr].size, after.mrs[answer.mr].rkey)]
        else []
  }

  /** What every reachable state of the tables satisfies. */
  ghost predicate Inv(t: Tables) {
    && (forall pair :: pair in t.tuples ==>
          pair.0 in t.catalog && pair.1 in t.groups && t.tuples[pair] in t.mrs &&
            Matches(t, t.mrs[t.tuples[pair]], pair))
    && (forall g, i :: g in t.groups && 0 <= i < |t.groups[g].connections| ==>
          t.groups[g].connections[i].pd == t.groups[g].pd)
    && (forall m :: m in t.mrs ==> m < t.nextMr)
    && (forall p, q :: p in t.tuples && q in t.tuples && p != q ==> t.tuples[p] != t.tuples[q])
  }

  /** The registration is of exactly the catalog's address and size, in the group's domain. */
  predicate Matches(t: Tables, mr: Mr, pair: Pair)
    requires pair.0 in t.catalog && pair.1 in t.groups
  {
    mr.region == pair.0 && mr.pd == t.groups[pair.1].pd &&
    mr.addr == t.catalog[pair.0].remoteAddr && mr.size == t.catalog[pair.0].size && mr.size > 0
  }

  lemma TupleOfKeeps(t: Tables, pair: Pair, luck: Luck)
    requires Inv(t)
    ensures var (u, answer) := AskTuple(t, pair, luck);
      && Inv(u) && Extends(t, u)
      && (answer.Hit? <==> pair in u.tuples) && (answer.Hit? ==> answer.mr == u.tuples[pair] && answer.mr in u.mrs)
  {
    if pair !in t.tuples && pair.1 in t.groups && pair.0 in t.catalog && Registrable(t.catalog[pair.0].size, luck) {
      NewEntryKeeps(t, pair, luck.value);
    }
    hide Registered, Inserted;
  }

  lemma NewEntryKeeps(t: Tables, pair: Pair, rkey: u32)
    requires Inv(t) && pair !in t.tuples && pair.1 in t.groups && pair.0 in t.catalog && t.catalog[pair.0].size > 0
    ensures var info := t.catalog[pair.0];
      var u := Inserted(Registered(t, pair.0, t.groups[pair.1].pd, info.remoteAddr, info.size, rkey), pair, t.nextMr);
      Inv(u) && Extends(t, u) && pair in u.tuples && u.tuples[pair] == t.nextMr && t.nextMr in u.mrs
  {}

  /** Nothing known is lost or changed. */
  ghost predicate Extends(t: Tables, u: Tables) {
    && u.catalog == t.catalog && u.groups == t.groups
    && (forall p :: p in t.tuples ==> p in u.tuples && u.tuples[p] == t.tuples[p])
    && (forall m :: m in t.mrs ==> m in u.mrs && u.mrs[m] == t.mrs[m])
  }

  lemma {:induction false} AskingKeeps(t: Tables, ids: seq<u32>, g: u32, luck: seq<Luck>)
    requires |luck| == |ids| && Inv(t)
    ensures Inv(AfterAsking(t, ids, g, luck)) && Extends(t, AfterAsking(t, ids, g, luck))
    decreases |ids|
  {
    hide Inv, AskTuple;
    if ids != [] {
      var n := |ids| - 1;
      AskingKeeps(t, ids[..n], g, luck[..n]);
      TupleOfKeeps(AfterAsking(t, ids[..n], g, luck[..n]), (ids[n], g), luck[n]);
    }
  }

  /** The state shared by the application and the service, as the program holds it. */
  class Shared {
    var catalog: map<u32, RegionInfo>
    var groups: map<u32, GroupEntry>
    var tuples: map<Pair, nat>
    /** The device's side: live registrations, and the next handle. */
    var mrs: map<nat, Mr>
    var nextMr: nat
    var nextId: u32

    ghost function View(): (r: Tables)
      reads this
    {
      Tables(catalog, groups, tuples, mrs, nextMr)
    }

    ghost predicate Valid()
      reads this
    {
      Inv(View()) && forall id :: id in catalog ==> id < nextId
    }

    constructor ()
      ensures Valid() && View() == NO_TABLES
    {
      catalog, groups, tuples, mrs, nextMr, nextId := map[], map[], map[], map[], 0, 0;
    }

    /** `register_typed` of a buffer of `count` elements at `addr`: a fresh id, its address and size captured. */
    method Register(name: Utf8, addr: u64, count: nat, elemSize: nat, elemAlign: nat, elemType: Utf8) returns (id: u32)
      requires Valid() && nextId + 1 < U32_LIMIT
      requires elemSize > 0 && count * elemSize < U64_LIMIT
      modifies this`nextId, this`catalog
      ensures Valid() && id !in old(catalog) && nextId == old(nextId) + 1
      ensures catalog == old(catalog)[id :=
        RegionInfo(name, addr, count * elemSize, elemSize % U32_LIMIT, elemAlign % U32_LIMIT, elemType)]
    {
      id := nextId;
      nextId := nextId + 1;
      var size: u64 := count * elemSize;
      catalog := catalog[id := RegionInfo(name, addr, size, elemSize % U32_LIMIT, elemAlign % U32_LIMIT, elemType)];
    }

    /** The end of a rendezvous: the accepted connection joins its group. */
    method Join(g: u32, c: RdmaConnection)
      requires Valid() && (g in groups ==> c.pd == groups[g].pd)
      modifies this`groups
      ensures Valid() && View() == Joined(old(View()), g, c)
      ensures groups.Keys == old(groups).Keys + {g}
      ensures forall h :: h in old(groups) ==>
        groups[h].pd == old(groups)[h].pd && (h != g ==> groups[h].connections == old(groups)[h].connections)
      ensures groups[g].pd == c.pd
      ensures groups[g].connections == (if g in old(groups) then old(groups)[g].connections else []) + [c]
    {
      if g !in groups { groups := groups[g := GroupEntry(c.pd, [])]; }
      groups := groups[g := groups[g].(connections := groups[g].connections + [c])];
    }

    /** `tuple_of`: the answer with its address, size and key. */
    method TupleOf(id: u32, g: u32, luck: Luck) returns (r: Result<Option<(u64, u64, u32)>, ()>)
      requires Valid()
      modifies this`tuples, this`mrs, this`nextMr
      ensures Valid()
      ensures View() == AskTuple(old(View()), (id, g), luck).0
      ensures match AskTuple(old(View()), (id, g), luck).1
              case Hit(m) => m in mrs && r == Ok(Some((mrs[m].addr, mrs[m].size, mrs[m].rkey)))
              case Unknown => r == Ok(None)
              case RegistrationFailed => r == Err(())
      ensures r == Ok(None) <==> (id, g) !in old(tuples) && (g !in groups || id !in catalog)
      ensures r == Err(()) <==>
        (id, g) !in old(tuples) && g in groups && id in catalog && (catalog[id].size == 0 || luck.None?)
      ensures r.Ok? && r.value.Some? && (id, g) !in old(tuples) ==>
        r.value.value == (catalog[id].remoteAddr, catalog[id].size, luck.value)
      ensures r.Ok? && r.value.Some? ==>
        (id, g) in tuples && tuples[(id, g)] in mrs &&
        mrs[tuples[(id, g)]] == Mr(id, groups[g].pd, catalog[id].remoteAddr, catalog[id].size, r.value.value.2)
    {
      TupleOfKeeps(View(), (id, g), luck);
      if (id, g) in tuples {
        var mr := mrs[tuples[(id, g)]];
        return Ok(Some((mr.addr, mr.size, mr.rkey)));
      }
      if g !in groups { return Ok(None); }
      var pd := groups[g].pd;
      if id !in catalog { return Ok(None); }
      var addr, size := catalog[id].remoteAddr, catalog[id].size;
      if size == 0 || luck.None? { return Err(()); }
      var handle := nextMr;
      mrs, nextMr := mrs[handle := Mr(id, pd, addr, size, luck.value)], nextMr + 1;
      tuples := tuples[(id, g) := handle];
      r := Ok(Some((addr, size, luck.value)));
    }

    /** `catalog_and_tuples`: the two messages of an exchange, for whatever order the catalog iterates in. */
    method CatalogAndTuples(g: u32, order: seq<u32>, luck: seq<Luck>)
      returns (metadata: Message, tuplesMessage: Message)
      requires Valid() && |luck| == |order| && Enumerates(order, catalog)
      modifies this`tuples, this`mrs, this`nextMr
      ensures Valid() && View() == AfterAsking(old(View()), order, g, luck)
      ensures metadata == Metadata(Advertised(order, old(catalog)))
      ensures tuplesMessage == Tuples(g, Served(old(View()), order, g, luck))
    {
      hide Inv, AskTuple, Served, AfterAsking, Advertise;
      ghost var t := View();
      AskNone(t, order, g, luck);
      var regions: seq<RegionDesc>, served: seq<TupleDesc> := [], [];
      var snapshot := catalog;
      for i := 0 to |order|
        invariant Valid() && catalog == snapshot == old(catalog)
        invariant View() == AfterAsking(t, order[..i], g, luck[..i])
        invariant |regions| == i && forall j :: 0 <= j < i ==> regions[j] == Advertise(order[j], snapshot[order[j]])
        invariant served == Served(t, order[..i], g, luck[..i])
      {
        var id := order[i];
        regions := regions + [Advertise(id, snapshot[id])];
        AskOneMore(t, order, i, g, luck);
        var answer := TupleOf(id, g, luck[i]);
        if answer.Ok? && answer.value.Some? {
          var (addr, size, rkey) := answer.value.value;
          served := served + [TupleDesc(id, addr, size, rkey)];
        }
      }
      assert order[..|order|] == order && luck[..|luck|] == luck;
      metadata, tuplesMessage := Metadata(regions), Tuples(g, served);
    }
  }

  /** `order` visits every key of the catalog once. */
  ghost predicate Enumerates(order: seq<u32>, catalog: map<u32, RegionInfo>) {
    && (forall i :: 0 <= i < |order| ==> order[i] in catalog)
    && (forall id :: id in catalog ==> id in order)
    && (forall i, j :: 0 <= i < j < |order| ==> order[i] != order[j])
  }

  ghost function Advertised(order: seq<u32>, catalog: map<u32, RegionInfo>): (rs: seq<RegionDesc>)
    requires Enumerates(order, catalog)
    ensures |rs| == |order| && forall i :: 0 <= i < |order| ==> rs[i] == Advertise(order[i], catalog[order[i]])
  {
    seq(|order|, i requires 0 <= i < |order| => Advertise(order[i], catalog[order[i]]))
  }

  lemma AskNone(t: Tables, ids: seq<u32>, g: u32, luck: seq<Luck>)
    requires |luck| == |ids| && Inv(t)
    ensures AfterAsking(t, ids[..0], g, luck[..0]) == t && Served(t, ids[..0], g, luck[..0]) == []
  {}

  lemma AskOneMore(t: Tables, ids: seq<u32>, i: nat, g: u32, luck: seq<Luck>)
    requires |luck| == |ids| && Inv(t) && i < |ids|
    ensures var before := AfterAsking(t, ids[..i], g, luck[..i]);
      var (after, answer) := AskTuple(before, (ids[i], g), luck[i]);
      && Inv(before) && Inv(after)
      && AfterAsking(t, ids[..i + 1], g, luck[..i + 1]) == after
      && (answer.Hit? ==> answer.mr in after.mrs)
      && Served(t, ids[..i + 1], g, luck[..i + 1]) == Served(t, ids[..i], g, luck[..i]) +
           if answer.Hit? then
             [TupleDesc(ids[i], after.mrs[answer.mr].addr, after.mrs[answer.mr].size, after.mrs[answer.mr].rkey)]
           else []
  {
    assert ids[..i + 1][..i] == ids[..i] && luck[..i + 1][..i] == luck[..i];
    AskingKeeps(t, ids[..i], g, luck[..i]);
    TupleOfKeeps(AfterAsking(t, ids[..i], g, luck[..i]), (ids[i], g), luck[i]);
    hide AskTuple;
  }
}
