/**
 From registration to access: what `register` captured and `tuple_of` registered is what a reader
 looks up after the snapshot has gone over the wire (src/providers.rs, src/meta.rs, src/readers.rs).
 */
module EndToEnd {
  import opened Common
  import opened Codec
  import opened Cache
  import opened Registry
  import Framing
  import Cursor
  import Reader
  import Access

  // ----- The snapshot: which tuples it has, and what they say -----

  /** The tuple of a table entry. */
  function TupleOfEntry(u: Tables, id: u32, g: u32): (r: Option<TupleDesc>)
    requires Inv(u)
  {
    if (id, g) in u.tuples then
      var mr := u.mrs[u.tuples[(id, g)]];
      Some(TupleDesc(id, mr.addr, mr.size, mr.rkey))
    else None
  }

  ghost predicate NoRepeats(ids: seq<u32>) { forall i, j :: 0 <= i < j < |ids| ==> ids[i] != ids[j] }

  /**
   Asking for the tuples of `ids` leaves a table entry for exactly the ids that had one or could be
   registered, touches no other pair, and serves for each id the tuple of the entry it then has.
   */
  lemma {:induction false} ServedIsTheTable(t: Tables, ids: seq<u32>, g: u32, luck: seq<Luck>, id: u32)
    requires |luck| == |ids| && Inv(t) && NoRepeats(ids)
    requires g in t.groups && forall i :: 0 <= i < |ids| ==> ids[i] in t.catalog
    ensures var u := AfterAsking(t, ids, g, luck);
      && Inv(u) && Extends(t, u)
      && TupleFor(Served(t, ids, g, luck), id) == (if id in ids then TupleOfEntry(u, id, g) else None)
      && (id !in ids ==> ((id, g) in u.tuples <==> (id, g) in t.tuples))
      && (forall i :: 0 <= i < |ids| && ids[i] == id ==>
            ((id, g) in u.tuples <==> (id, g) in t.tuples || Registrable(t.catalog[id].size, luck[i])))
    decreases |ids|
  {
    hide Inv, AskTuple, Served, AfterAsking, TupleFor, TupleOfEntry, Extends, Registrable;
    AskingKeeps(t, ids, g, luck);
    if ids == [] {
      AskNothing(t, g, luck, id);
    } else {
      var n := |ids| - 1;
      ServedIsTheTable(t, ids[..n], g, luck[..n], id);
      AskLast(t, ids, g, luck);
      var before := AfterAsking(t, ids[..n], g, luck[..n]);
      var u := AfterAsking(t, ids, g, luck);
      SameCatalog(t, before);
      TupleForLast(Served(t, ids[..n], g, luck[..n]), TupleOfEntry(u, ids[n], g), id);
      AskOutcome(before, (ids[n], g), luck[n], (id, g));
      EntryId(u, ids[n], g);
      if id != ids[n] {
        assert id in ids <==> id in ids[..n];
      } else {
        assert id !in ids[..n];
      }
    }
  }

  lemma AskNothing(t: Tables, g: u32, luck: seq<Luck>, id: u32)
    requires luck == [] && Inv(t)
    ensures AfterAsking(t, [], g, luck) == t && TupleFor(Served(t, [], g, luck), id) == None
  {}

  lemma SameCatalog(t: Tables, u: Tables)
    requires Extends(t, u)
    ensures u.catalog == t.catalog && u.groups == t.groups
  {}

  lemma EntryId(u: Tables, id: u32, g: u32)
    requires Inv(u)
    ensures var o := TupleOfEntry(u, id, g); o.Some? <==> (id, g) in u.tuples
    ensures var o := TupleOfEntry(u, id, g); o.Some? ==> o.value.regionId == id
  {}

  /** The last question of a snapshot, and the tuple it adds. */
  lemma AskLast(t: Tables, ids: seq<u32>, g: u32, luck: seq<Luck>)
    requires |luck| == |ids| > 0 && Inv(t)
    ensures var n := |ids| - 1;
      var before := AfterAsking(t, ids[..n], g, luck[..n]);
      var u := AfterAsking(t, ids, g, luck);
      && Inv(before) && Inv(u) && Extends(t, before) && Extends(before, u)
      && u == AskTuple(before, (ids[n], g), luck[n]).0
      && Served(t, ids, g, luck) == Served(t, ids[..n], g, luck[..n]) + AsList(TupleOfEntry(u, ids[n], g))
  {
    hide Inv, AskTuple, Extends;
    var n := |ids| - 1;
    AskingKeeps(t, ids[..n], g, luck[..n]);
    TupleOfKeeps(AfterAsking(t, ids[..n], g, luck[..n]), (ids[n], g), luck[n]);
  }

  function AsList(o: Option<TupleDesc>): (r: seq<TupleDesc>) { if o.Some? then [o.value] else [] }

  lemma TupleForLast(ts: seq<TupleDesc>, o: Option<TupleDesc>, id: u32)
    ensures TupleFor(ts + AsList(o), id) == if o.Some? && o.value.regionId == id then o else TupleFor(ts, id)
  {
    if o.Some? {
      assert (ts + [o.value])[..|ts|] == ts;
    } else {
      assert ts + [] == ts;
    }
  }

  /** One question changes at most its own pair, and gives it an entry unless the device refuses. */
  lemma AskOutcome(t: Tables, pair: Pair, luck: Luck, other: Pair)
    requires Inv(t) && pair.0 in t.catalog && pair.1 in t.groups
    ensures var u := AskTuple(t, pair, luck).0;
      && Inv(u)
      && (pair in u.tuples <==> pair in t.tuples || Registrable(t.catalog[pair.0].size, luck))
      && (other != pair ==>
            TupleOfEntry(u, other.0, other.1) == TupleOfEntry(t, other.0, other.1) &&
            (other in u.tuples <==> other in t.tuples))
  {
    TupleOfKeeps(t, pair, luck);
  }

  // ----- The catalog: what a key stands for -----

  lemma {:induction false} OneDescriptor(rs: seq<RegionDesc>, i: nat)
    requires i < |rs| && forall j :: 0 <= j < |rs| && j != i ==> rs[j].id != rs[i].id
    ensures KeyOf(rs[i]) in Keys(rs) && DescFor(rs, KeyOf(rs[i])) == rs[i]
  {
    assert KeyOf(rs[i]) in Keys(rs);
    if i < |rs| - 1 {
      OneDescriptor(rs[..|rs| - 1], i);
    }
  }

  /** What the reader should hold for region `id` in group `g`, given the provider's tables. */
  function Held(u: Tables, id: u32, g: u32): (r: Option<CachedRegion>)
    requires Inv(u)
  {
    if (id, g) in u.tuples then
      var info := u.catalog[id];
      Some(CachedRegion(info.remoteAddr, info.size, u.mrs[u.tuples[(id, g)]].rkey, g, info.elemSize, info.elemAlign,
        info.elemType))
    else None
  }

  ghost function Snapshot(t: Tables, order: seq<u32>, g: u32, luck: seq<Luck>): (r: (Message, Message))
    requires |luck| == |order| && Inv(t) && Enumerates(order, t.catalog)
  {
    (Metadata(Advertised(order, t.catalog)), Tuples(g, Served(t, order, g, luck)))
  }

  /** The history of a reader that ingests this snapshot next. */
  function Ingesting(h: seq<Call>, g: u32, pair: (Message, Message)): (r: seq<Call>) { h + [Call(g, pair.0, pair.1)] }

  lemma LookupOfSnapshot(t: Tables, order: seq<u32>, g: u32, luck: seq<Luck>, h: seq<Call>, name: Utf8, id: u32)
    requires |luck| == |order| && Inv(t) && Enumerates(order, t.catalog) && g in t.groups
    ensures Inv(AfterAsking(t, order, g, luck))
    ensures Lookup(After(Ingesting(h, g, Snapshot(t, order, g, luck))), (name, id), g) ==
      if id in t.catalog && t.catalog[id].name == name then Held(AfterAsking(t, order, g, luck), id, g) else None
  {
    hide Inv, AfterAsking, Served, TupleFor, DescFor, Lookup, Ingested, Extends, TupleOfEntry, Held, MakeEntry, Keys,
      After, Registrable;
    var (first, second) := Snapshot(t, order, g, luck);
    var rs, ts := first.regions, second.tuples;
    var u := AfterAsking(t, order, g, luck);
    ServedIsTheTable(t, order, g, luck, id);
    SameCatalog(t, u);
    AfterIngesting(h, g, first, second);
    LookupIngested(After(h), g, rs, ts, (name, id), g);
    CatalogKeys(t, order, rs, name, id);
    if id in t.catalog { HeldMeansTuple(u, id, g); }
  }

  lemma AfterIngesting(h: seq<Call>, g: u32, first: Message, second: Message)
    requires first.Metadata? && second.Tuples? && second.served == g
    ensures After(Ingesting(h, g, (first, second))) == Ingested(After(h), g, first.regions, second.tuples)
  {
    assert Ingesting(h, g, (first, second))[..|h|] == h;
    hide Ingested;
  }

  /** A key is in the advertised catalog exactly for a region of that id and name, and describes it. */
  lemma CatalogKeys(t: Tables, order: seq<u32>, rs: seq<RegionDesc>, name: Utf8, id: u32)
    requires Enumerates(order, t.catalog) && rs == Advertised(order, t.catalog)
    ensures (name, id) in Keys(rs) <==> id in t.catalog && t.catalog[id].name == name
    ensures (name, id) in Keys(rs) ==> DescFor(rs, (name, id)) == Advertise(id, t.catalog[id])
    ensures id in order <==> id in t.catalog
  {
    hide DescFor;
    if id in t.catalog {
      var i :| 0 <= i < |order| && order[i] == id;
      OneDescriptor(rs, i);
    }
  }

  lemma HeldMeansTuple(u: Tables, id: u32, g: u32)
    requires Inv(u) && id in u.catalog
    ensures Held(u, id, g) ==
      match TupleOfEntry(u, id, g)
      case None => None
      case Some(tuple) => Some(MakeEntry(Advertise(id, u.catalog[id]), tuple, g))
  {}

  /**
   End to end.  For every state of the provider's tables, any order the catalog iterates in, any
   answers of the device, and any reader, whatever it ingested before: if both frames fit the cap,
   the bytes sent are read back as the two messages, the reader accepts them, and looking up
   (name, id) in the group then gives, exactly for the catalogued regions that have a registration,
   the address, size and element layout captured at registration and the key of the live
   registration, which is in the group's domain.
   */
  lemma RegisteredIsLookedUp(t: Tables, order: seq<u32>, g: u32, luck: seq<Luck>, h: seq<Call>, name: Utf8, id: u32)
    requires |luck| == |order| && Inv(t) && Enumerates(order, t.catalog) && g in t.groups
    requires var (first, second) := Snapshot(t, order, g, luck); InCap(first) && InCap(second)
    ensures var (first, second) := Snapshot(t, order, g, luck);
      && Framing.ReadAll(Encode(first) + Encode(second)) == ([first, second], UnexpectedEof)
      && Call(g, first, second).Accepted()
    ensures var u := AfterAsking(t, order, g, luck);
      && Inv(u) && u.groups == t.groups
      && Lookup(After(Ingesting(h, g, Snapshot(t, order, g, luck))), (name, id), g) ==
           (if id in t.catalog && t.catalog[id].name == name then Held(u, id, g) else None)
      && ((id, g) in u.tuples ==> u.tuples[(id, g)] in u.mrs && u.mrs[u.tuples[(id, g)]].pd == t.groups[g].pd)
      && (forall i :: 0 <= i < |order| && order[i] == id ==>
            ((id, g) in u.tuples <==> (id, g) in t.tuples || Registrable(t.catalog[id].size, luck[i])))
  {
    var (first, second) := Snapshot(t, order, g, luck);
    var u := AfterAsking(t, order, g, luck);
    LookupOfSnapshot(t, order, g, luck, h, name, id);
    ServedIsTheTable(t, order, g, luck, id);
    EntryDomain(u, id, g);
    hide Inv, Encode, AfterAsking, Served, InCap, Held, Lookup, After;
    BothFrames(first, second);
  }

  lemma EntryDomain(u: Tables, id: u32, g: u32)
    requires Inv(u)
    ensures (id, g) in u.tuples ==>
      g in u.groups && u.tuples[(id, g)] in u.mrs && u.mrs[u.tuples[(id, g)]].pd == u.groups[g].pd
  {}

  lemma BothFrames(first: Message, second: Message)
    requires InCap(first) && InCap(second)
    ensures Framing.ReadAll(Encode(first) + Encode(second)) == ([first, second], UnexpectedEof)
  {
    hide Encode, InCap, Framing.ReadAll;
    var ms := [first, second];
    Framing.ReadStream(ms);
    assert Framing.EncodeAll(ms[1..][1..]) == [];
    assert Framing.EncodeAll(ms[1..]) == Encode(second) + [];
    assert Framing.EncodeAll(ms) == Encode(first) + Encode(second);
  }

  // ----- The same, run through the loops and objects of both sides -----

  /** The reader's cache of group `g` is the provider's table of it. */
  ghost predicate InStep(c: Cache, u: Tables, g: u32)
    requires Inv(u)
  {
    forall name: Utf8, id: u32 :: Lookup(c, (name, id), g) ==
      if id in u.catalog && u.catalog[id].name == name then Held(u, id, g) else None
  }

  /** Both frames written to the channel, and read back off it. */
  method Carry(first: Message, second: Message) returns (r: (Message, Message))
    requires InCap(first) && InCap(second)
    ensures r == (first, second)
  {
    hide Encode, InCap, ReadFrame;
    var a := Cursor.EncodeMessage(first);
    var b := Cursor.EncodeMessage(second);
    var stream := new Cursor.Stream(a + b);
    ReadEncoded(first, b);
    var x := stream.ReadMessage();
    ReadEncoded(second, []);
    assert b + [] == b;
    var y := stream.ReadMessage();
    r := (x.value, y.value);
  }

  /** The provider's end of the connection in the reader's slot of group `g`, in that group. */
  ghost predicate Ends(u: Tables, g: u32, slot: Option<nat>, conn: RdmaConnection) {
    g in u.groups && conn in u.groups[g].connections && slot == Some(conn.id)
  }

  /** What the reader is shown of the regions, by name, is what was registered, in the order served. */
  predicate Shows(metadata: seq<RegionMetadata>, order: seq<u32>, catalog: map<u32, RegionInfo>) {
    |metadata| == |order| &&
    forall i :: 0 <= i < |order| ==>
      order[i] in catalog && metadata[i].id == order[i] && metadata[i].name == catalog[order[i]].name &&
      metadata[i].size == catalog[order[i]].size && metadata[i].elemSize == catalog[order[i]].elemSize &&
      metadata[i].elemAlign == catalog[order[i]].elemAlign && metadata[i].elemType == catalog[order[i]].elemType
  }

  /** One `update` in which no call of the network fails; `conn` is what the handshake accepted, now or before. */
  method UpdateOverWire(shared: Shared, order: seq<u32>, luck: seq<Luck>, provider: Reader.RemoteMemoryProvider,
                        g: u32, net: Reader.Net, ghost conn: RdmaConnection) returns (ok: bool)
    requires shared.Valid() && provider.Valid()
    requires |luck| == |order| && Enumerates(order, shared.catalog) && g in shared.groups
    requires var (first, second) := Snapshot(shared.View(), order, g, luck); InCap(first) && InCap(second)
    requires net.updateSent && net.Joined()
    requires if g in provider.sessions && provider.sessions[g].channel.Some?
      then Ends(shared.View(), g, provider.sessions[g].slot.connection, conn)
      else Ends(shared.View(), g, net.rdma, conn)
    modifies shared, provider, provider.Slots()
    ensures ok && shared.Valid() && provider.Valid()
    ensures shared.View() == AfterAsking(old(shared.View()), order, g, luck)
    ensures InStep(Cache(provider.metadata, provider.regions), shared.View(), g)
    ensures Shows(provider.metadata, order, shared.catalog)
    ensures forall i :: 0 <= i < |order| ==>
      Lookup(Cache(provider.metadata, provider.regions), (provider.metadata[i].name, provider.metadata[i].id), g) ==
      Held(shared.View(), order[i], g)
    ensures g in provider.sessions && Ends(shared.View(), g, provider.sessions[g].slot.connection, conn)
  {
    hide Inv, AfterAsking, Served, InCap, After, Lookup, Expected;
    AskingKeeps(shared.View(), order, g, luck);
    ghost var t, h := shared.View(), provider.history;
    var first, second := shared.CatalogAndTuples(g, order, luck);
    var received := Carry(first, second);
    assert provider.Valid();
    ok := provider.Update(g, net.(first := Some(received.0), second := Some(received.1)));
    forall name: Utf8, id: u32
      ensures Lookup(Cache(provider.metadata, provider.regions), (name, id), g) ==
        if id in shared.catalog && shared.catalog[id].name == name then Held(shared.View(), id, g) else None
    {
      RegisteredIsLookedUp(t, order, g, luck, h, name, id);
    }
  }

  /** The memory behind the registration of (id, g). */
  ghost predicate Backs(host: Access.Host, u: Tables, id: u32, g: u32)
    requires Inv(u) && (id, g) in u.tuples
    reads host
  {
    var mr := u.mrs[u.tuples[(id, g)]];
    && host.base == u.catalog[id].remoteAddr && |host.mem| == u.catalog[id].size
    && host.pd == mr.pd && host.rkey == mr.rkey
  }

  /** A connection of the group reaches the registrations of the group: both live in its domain. */
  lemma DomainsMeet(u: Tables, id: u32, g: u32, slot: Option<nat>, conn: RdmaConnection)
    requires Inv(u) && (id, g) in u.tuples && Ends(u, g, slot, conn)
    ensures conn.pd == u.mrs[u.tuples[(id, g)]].pd
  {}

  /**
   Writing through the region looked up: exactly the bytes of the buffer that was shared.  The
   connection is the one in the slot the lookup returned, and the key works through its other end.
   */
  method WriteShared(shared: Shared, provider: Reader.RemoteMemoryProvider, g: u32, id: u32, host: Access.Host,
                     offset: u64, data: seq<Common.byte>, dev: Access.Device, conn: RdmaConnection)
    returns (r: Result<(), Access.AccessError>)
    requires shared.Valid() && provider.Valid() && InStep(Cache(provider.metadata, provider.regions), shared.View(), g)
    requires (id, g) in shared.tuples && Backs(host, shared.View(), id, g)
    requires g in provider.sessions && Ends(shared.View(), g, provider.sessions[g].slot.connection, conn)
    requires |host.mem| < U64_LIMIT - 1 && host.base + |host.mem| < U64_LIMIT
    requires |data| < U32_LIMIT
    modifies host
    ensures dev.registers && dev.completes ==> (r.Ok? <==> 0 < |data| && offset + |data| <= |old(host.mem)|)
    ensures r.Ok? ==> offset + |data| <= |old(host.mem)| && host.mem == Access.Overwrite(old(host.mem), offset, data)
    ensures r.Err? && host.mem != old(host.mem) ==>
      r.error == Access.DeviceError && offset + |data| <= |old(host.mem)| &&
      host.mem == Access.Overwrite(old(host.mem), offset, data[..dev.Done(|data|)])
  {
    hide After, Expected, Access.Overwrite, Lookup;
    var region := LookUpShared(shared, provider, g, id);
    var connected := region.slot.connection.Some?;
    DomainsMeet(shared.View(), id, g, region.slot.connection, conn);
    assert data[..Access.Narrowed(|data|)] == data;
    OverwriteNothing(host.mem, offset);
    r := Access.Write(region.cached, host, offset, data, dev.(connected := connected, via := conn.pd));
  }

  lemma OverwriteNothing(mem: seq<Common.byte>, at: nat)
    ensures at <= |mem| ==> Access.Overwrite(mem, at, []) == mem
  {}

  /** `get_remote_mr` of a shared region: found, described by the provider's table, and connected. */
  method LookUpShared(shared: Shared, provider: Reader.RemoteMemoryProvider, g: u32, id: u32)
    returns (region: Reader.RemoteMemoryRegion)
    requires shared.Valid() && provider.Valid() && InStep(Cache(provider.metadata, provider.regions), shared.View(), g)
    requires (id, g) in shared.tuples
    ensures Some(region.cached) == Held(shared.View(), id, g) && region.slot.connection.Some?
    ensures var cached, info := region.cached, shared.catalog[id];
      cached.remoteAddr == info.remoteAddr && cached.size == info.size && cached.elemSize == info.elemSize &&
      cached.elemAlign == info.elemAlign && cached.elemType == info.elemType && cached.group == g &&
      cached.rkey == shared.mrs[shared.tuples[(id, g)]].rkey
    ensures g in provider.sessions && region.slot == provider.sessions[g].slot
  {
    hide After, Expected, Lookup;
    var name := shared.catalog[id].name;
    assert Lookup(Cache(provider.metadata, provider.regions), (name, id), g) == Held(shared.View(), id, g);
    CacheRefinesHistory(provider.history, (name, id), g);
    var found := provider.GetRemoteMr(name, id, Some(g));
    region := found.value;
  }

  /** Reading through the region looked up: exactly the bytes of the buffer that was shared. */
  method ReadShared(shared: Shared, provider: Reader.RemoteMemoryProvider, g: u32, id: u32, host: Access.Host,
                    offset: u64, len: u64, buf: array<Common.byte>, dev: Access.Device, conn: RdmaConnection)
    returns (r: Result<(), Access.AccessError>)
    requires shared.Valid() && provider.Valid() && InStep(Cache(provider.metadata, provider.regions), shared.View(), g)
    requires (id, g) in shared.tuples && Backs(host, shared.View(), id, g)
    requires g in provider.sessions && Ends(shared.View(), g, provider.sessions[g].slot.connection, conn)
    requires |host.mem| < U64_LIMIT - 1 && host.base + |host.mem| < U64_LIMIT
    requires len < U32_LIMIT
    modifies buf
    ensures dev.registers && dev.completes ==> (r.Ok? <==> 0 < len <= buf.Length && offset + len <= |host.mem|)
    ensures r.Ok? ==> len <= buf.Length && offset + len <= |host.mem| && buf[..len] == host.mem[offset..][..len]
    ensures r.Err? && buf[..] != old(buf[..]) ==>
      r.error == Access.DeviceError && len <= buf.Length && offset + len <= |host.mem| &&
      buf[..] == Access.Overwrite(old(buf[..]), 0, host.mem[offset..][..dev.Done(len)])
    ensures len <= buf.Length ==> buf[len..] == old(buf[len..])
  {
    hide After, Expected, Lookup;
    var region := LookUpShared(shared, provider, g, id);
    var connected := region.slot.connection.Some?;
    DomainsMeet(shared.View(), id, g, region.slot.connection, conn);
    assert Access.Narrowed(len) == len;
    r := Access.ReadInto(region.cached, host, offset, len, buf, dev.(connected := connected, via := conn.pd));
    if len <= buf.Length { assert buf[len..] == buf[..][len..] && old(buf[len..]) == old(buf[..])[len..]; }
    if r.Ok? { assert buf[..len] == buf[..][..len]; }
  }

  /**
   Writing elements through the region looked up: only elements of the size and alignment the region was
   registered with, and then exactly a slice update of the shared buffer seen as such elements.
   */
  method WriteTypedShared(shared: Shared, provider: Reader.RemoteMemoryProvider, g: u32, id: u32, host: Access.Host,
                          offset: u64, elem: nat, align: nat, xs: seq<seq<Common.byte>>, dev: Access.Device,
                          conn: RdmaConnection)
    returns (r: Result<(), Access.AccessError>)
    requires shared.Valid() && provider.Valid() && InStep(Cache(provider.metadata, provider.regions), shared.View(), g)
    requires (id, g) in shared.tuples && Backs(host, shared.View(), id, g)
    requires g in provider.sessions && Ends(shared.View(), g, provider.sessions[g].slot.connection, conn)
    requires |host.mem| < U64_LIMIT - 1 && host.base + |host.mem| < U64_LIMIT
    requires 0 < align < U32_LIMIT && elem < U32_LIMIT && elem % align == 0
    requires Access.AllOfSize(xs, elem) && |xs| * elem < U32_LIMIT
    modifies host
    ensures dev.registers && dev.completes ==>
      (r.Ok? <==> elem == shared.catalog[id].elemSize && align == shared.catalog[id].elemAlign &&
                  0 < |xs| * elem && offset * elem + |xs| * elem <= |old(host.mem)| &&
                  Access.Aligned(host.base, align))
    ensures r.Ok? ==>
      elem == shared.catalog[id].elemSize && align == shared.catalog[id].elemAlign && elem > 0 &&
      offset + |xs| <= |Access.Elements(old(host.mem), elem)| &&
      Access.Elements(host.mem, elem) ==
        Access.Elements(old(host.mem), elem)[..offset] + xs + Access.Elements(old(host.mem), elem)[offset + |xs|..]
    ensures elem != shared.catalog[id].elemSize || align != shared.catalog[id].elemAlign ==>
      r == Err(Access.InvalidInput) && host.mem == old(host.mem)
    ensures r.Err? && host.mem != old(host.mem) ==> r.error == Access.DeviceError
  {
    hide After, Expected, Access.Overwrite, Access.Elements, Access.Flatten, Access.Aligned, Lookup;
    var region := LookUpShared(shared, provider, g, id);
    DomainsMeet(shared.View(), id, g, region.slot.connection, conn);
    var through := dev.(connected := region.slot.connection.Some?, via := conn.pd);
    r := Access.WriteTyped(region.cached, host, offset, elem, align, xs, through);
  }

  /** Reading elements through the region looked up: only such elements, and exactly those of the shared buffer. */
  method ReadTypedShared(shared: Shared, provider: Reader.RemoteMemoryProvider, g: u32, id: u32, host: Access.Host,
                         offset: u64, elem: nat, align: nat, buf: array<Common.byte>, count: nat,
                         dev: Access.Device, conn: RdmaConnection)
    returns (r: Result<(), Access.AccessError>)
    requires shared.Valid() && provider.Valid() && InStep(Cache(provider.metadata, provider.regions), shared.View(), g)
    requires (id, g) in shared.tuples && Backs(host, shared.View(), id, g)
    requires g in provider.sessions && Ends(shared.View(), g, provider.sessions[g].slot.connection, conn)
    requires |host.mem| < U64_LIMIT - 1 && host.base + |host.mem| < U64_LIMIT
    requires 0 < align < U32_LIMIT && elem < U32_LIMIT && elem % align == 0
    requires buf.Length == count * elem && count * elem < U32_LIMIT
    modifies buf
    ensures dev.registers && dev.completes ==>
      (r.Ok? <==> elem == shared.catalog[id].elemSize && align == shared.catalog[id].elemAlign &&
                  0 < count * elem && offset * elem + count * elem <= |host.mem| && Access.Aligned(host.base, align))
    ensures r.Ok? ==>
      elem == shared.catalog[id].elemSize && align == shared.catalog[id].elemAlign && elem > 0 &&
      offset + count <= |Access.Elements(host.mem, elem)| &&
      Access.Elements(buf[..], elem) == Access.Elements(host.mem, elem)[offset..][..count]
    ensures elem != shared.catalog[id].elemSize || align != shared.catalog[id].elemAlign ==>
      r == Err(Access.InvalidInput) && buf[..] == old(buf[..])
    ensures r.Err? && buf[..] != old(buf[..]) ==> r.error == Access.DeviceError
  {
    hide After, Expected, Access.Overwrite, Access.Elements, Access.Aligned, Lookup;
    var region := LookUpShared(shared, provider, g, id);
    DomainsMeet(shared.View(), id, g, region.slot.connection, conn);
    var through := dev.(connected := region.slot.connection.Some?, via := conn.pd);
    r := Access.ReadTyped(region.cached, host, offset, elem, align, buf, count, through);
  }
}
