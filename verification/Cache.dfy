/**
 What the reader knows about the remote's regions (src/readers.rs): the value the
 `ingest` loop leaves, and the history theorem about any sequence of ingests.
 */
module Cache {
  import opened Common
  import opened Codec

  datatype RegionMetadata = RegionMetadata(
    name: Utf8, id: u32, size: u64, elemSize: u32, elemAlign: u32, elemType: Utf8)

  datatype CachedRegion = CachedRegion(
    remoteAddr: u64, size: u64, rkey: u32, group: u32, elemSize: u32, elemAlign: u32, elemType: Utf8)

  type Key = (Utf8, u32)

  datatype Cache = Cache(metadata: seq<RegionMetadata>, regions: map<Key, seq<CachedRegion>>)

  const EMPTY: Cache := Cache([], map[])

  function KeyOf(r: RegionDesc): (result: Key) { (r.name, r.id) }

  function Keys(rs: seq<RegionDesc>): (r: set<Key>) { set i | 0 <= i < |rs| :: KeyOf(rs[i]) }

  function Describe(r: RegionDesc): (result: RegionMetadata) {
    RegionMetadata(r.name, r.id, r.size, r.elemSize, r.elemAlign, r.elemType)
  }

  function Catalog(rs: seq<RegionDesc>): (r: seq<RegionMetadata>) {
    seq(|rs|, i requires 0 <= i < |rs| => Describe(rs[i]))
  }

  /** The metadata a reader is shown is the catalog, entry for entry and field for field. */
  predicate Lists(metadata: seq<RegionMetadata>, rs: seq<RegionDesc>) {
    |metadata| == |rs| &&
    forall i :: 0 <= i < |rs| ==>
      metadata[i].name == rs[i].name && metadata[i].id == rs[i].id && metadata[i].size == rs[i].size &&
      metadata[i].elemSize == rs[i].elemSize && metadata[i].elemAlign == rs[i].elemAlign &&
      metadata[i].elemType == rs[i].elemType
  }

  lemma CatalogLists(rs: seq<RegionDesc>)
    ensures Lists(Catalog(rs), rs)
  {}

  /** The tuple that a map collected from the list ends up with: the last one of that id. */
  function TupleFor(ts: seq<TupleDesc>, id: u32): (t: Option<TupleDesc>)
    ensures t.Some? ==> t.value in ts && t.value.regionId == id
    ensures t.None? ==> forall i :: 0 <= i < |ts| ==> ts[i].regionId != id
  {
    if ts == [] then None
    else if ts[|ts| - 1].regionId == id then Some(ts[|ts| - 1])
    else TupleFor(ts[..|ts| - 1], id)
  }

  /** The descriptor that counts when a key is listed several times: the last one. */
  function DescFor(rs: seq<RegionDesc>, key: Key): (r: RegionDesc)
    requires key in Keys(rs)
    ensures r in rs && KeyOf(r) == key
  {
    if KeyOf(rs[|rs| - 1]) == key then rs[|rs| - 1] else DescFor(rs[..|rs| - 1], key)
  }

  /** A tuple that no later one of its id follows is the one that counts. */
  lemma {:induction false} LastTupleCounts(ts: seq<TupleDesc>, i: nat)
    requires i < |ts| && forall j :: i < j < |ts| ==> ts[j].regionId != ts[i].regionId
    ensures TupleFor(ts, ts[i].regionId) == Some(ts[i])
  {
    if i < |ts| - 1 { LastTupleCounts(ts[..|ts| - 1], i); }
  }

  /** So is a descriptor that no later one of its key follows. */
  lemma {:induction false} LastDescriptorCounts(rs: seq<RegionDesc>, i: nat)
    requires i < |rs| && forall j :: i < j < |rs| ==> (rs[j].name, rs[j].id) != (rs[i].name, rs[i].id)
    ensures (rs[i].name, rs[i].id) in Keys(rs) && DescFor(rs, (rs[i].name, rs[i].id)) == rs[i]
  {
    assert KeyOf(rs[i]) in Keys(rs);
    if i < |rs| - 1 {
      assert KeyOf(rs[|rs| - 1]) != KeyOf(rs[i]);
      LastDescriptorCounts(rs[..|rs| - 1], i);
    }
  }

  function Others(s: seq<CachedRegion>, g: u32): (r: seq<CachedRegion>) {
    if s == [] then []
    else if s[0].group == g then Others(s[1..], g)
    else [s[0]] + Others(s[1..], g)
  }

  function Find(s: seq<CachedRegion>, g: u32): (r: Option<CachedRegion>) {
    if s == [] then None
    else if s[0].group == g then Some(s[0])
    else Find(s[1..], g)
  }

  function Known(regions: map<Key, seq<CachedRegion>>, key: Key): (r: seq<CachedRegion>) {
    if key in regions then regions[key] else []
  }

  function Lookup(c: Cache, key: Key, g: u32): (r: Option<CachedRegion>) { Find(Known(c.regions, key), g) }

  function MakeEntry(r: RegionDesc, t: TupleDesc, g: u32): (result: CachedRegion) {
    CachedRegion(t.remoteAddr, t.size, t.rkey, g, r.elemSize, r.elemAlign, r.elemType)
  }

  /** The entry of `key` for group `g` after one ingest: at most one element. */
  function Fresh(rs: seq<RegionDesc>, ts: seq<TupleDesc>, key: Key, g: u32): (r: seq<CachedRegion>)
    requires key in Keys(rs)
  {
    match TupleFor(ts, key.1)
    case None => []
    case Some(t) => [MakeEntry(DescFor(rs, key), t, g)]
  }

  /** The cache after accepting a catalog and tuples for `g`. */
  function Ingested(c: Cache, g: u32, rs: seq<RegionDesc>, ts: seq<TupleDesc>): (r: Cache) {
    Cache(Catalog(rs), map key | key in Keys(rs) :: Others(Known(c.regions, key), g) + Fresh(rs, ts, key, g))
  }

  // ----- Histories -----

  /** One call of `ingest`: the group asked for and the two messages received. */
  datatype Call = Call(group: u32, first: Message, second: Message) {
    predicate Accepted() { first.Metadata? && second.Tuples? && second.served == group }
  }

  function Apply(c: Cache, call: Call): (r: Cache) {
    if call.Accepted() then Ingested(c, call.group, call.first.regions, call.second.tuples) else c
  }

  function After(h: seq<Call>): (r: Cache) {
    if h == [] then EMPTY else Apply(After(h[..|h| - 1]), h[|h| - 1])
  }

  /** The last successful ingest of `g`, or -1. */
  function LastServed(h: seq<Call>, g: u32): (k: int)
    ensures -1 <= k < |h|
    ensures k >= 0 ==> h[k].Accepted() && h[k].group == g
    ensures forall j :: k < j < |h| && h[j].Accepted() ==> h[j].group != g
  {
    if h == [] then -1
    else if h[|h| - 1].Accepted() && h[|h| - 1].group == g then |h| - 1
    else LastServed(h[..|h| - 1], g)
  }

  /** `key` is in the catalog of every successful ingest from the `k`-th on. */
  ghost predicate ListedSince(h: seq<Call>, k: nat, key: Key) {
    forall j :: k <= j < |h| && h[j].Accepted() ==> key in Keys(h[j].first.regions)
  }

  ghost function Expected(h: seq<Call>, key: Key, g: u32): (r: Option<CachedRegion>) {
    var k := LastServed(h, g);
    if k < 0 || !ListedSince(h, k, key) then None
    else match TupleFor(h[k].second.tuples, key.1)
      case None => None
      case Some(t) => Some(MakeEntry(DescFor(h[k].first.regions, key), t, g))
  }

  lemma {:induction false} FindAppend(a: seq<CachedRegion>, b: seq<CachedRegion>, g: u32)
    ensures Find(a + b, g) == if Find(a, g).Some? then Find(a, g) else Find(b, g)
  {
    if a == [] {
      assert a + b == b;
    } else {
      assert (a + b)[1..] == a[1..] + b;
      FindAppend(a[1..], b, g);
    }
  }

  lemma {:induction false} FindOthers(s: seq<CachedRegion>, g: u32, wanted: u32)
    ensures Find(Others(s, g), wanted) == if wanted == g then None else Find(s, wanted)
  {
    if s != [] {
      FindOthers(s[1..], g, wanted);
      if s[0].group != g { assert Others(s, g)[1..] == Others(s[1..], g); }
    }
  }

  /** One ingest, seen through lookups. */
  lemma LookupIngested(c: Cache, g: u32, rs: seq<RegionDesc>, ts: seq<TupleDesc>, key: Key, wanted: u32)
    ensures Lookup(Ingested(c, g, rs, ts), key, wanted) ==
      if key !in Keys(rs) then None
      else if wanted != g then Lookup(c, key, wanted)
      else match TupleFor(ts, key.1)
        case None => None
        case Some(t) => Some(MakeEntry(DescFor(rs, key), t, g))
  {
    if key in Keys(rs) {
      FindAppend(Others(Known(c.regions, key), g), Fresh(rs, ts, key, g), wanted);
      FindOthers(Known(c.regions, key), g, wanted);
    }
  }

  /**
   After any sequence of accepted and rejected ingests, the entry cached for (key, g) is
   the one of g's last accepted ingest, and is there exactly while that ingest had a tuple
   for the id and every accepted catalog since, of any group, has listed the key.
   */
  lemma {:induction false} CacheRefinesHistory(h: seq<Call>, key: Key, g: u32)
    ensures Lookup(After(h), key, g) == Expected(h, key, g)
  {
    hide Lookup, After, Expected, Keys;
    if h == [] {
      NothingYet(key, g);
    } else {
      var n := |h| - 1;
      var init, call := h[..n], h[n];
      CacheRefinesHistory(init, key, g);
      AfterLast(h);
      if !call.Accepted() {
        ExpectedSame(h, key, g);
      } else {
        LookupIngested(After(init), call.group, call.first.regions, call.second.tuples, key, g);
        if call.group == g { ExpectedOwn(h, key); } else { ExpectedOther(h, key, g); }
      }
    }
  }

  lemma NothingYet(key: Key, g: u32)
    ensures Lookup(After([]), key, g) == Expected([], key, g) == None
  {}

  lemma AfterLast(h: seq<Call>)
    requires h != []
    ensures After(h) == Apply(After(h[..|h| - 1]), h[|h| - 1])
  {
    hide Apply;
  }

  /** A rejected ingest changes nothing that is expected. */
  lemma ExpectedSame(h: seq<Call>, key: Key, g: u32)
    requires h != [] && !h[|h| - 1].Accepted()
    ensures Expected(h, key, g) == Expected(h[..|h| - 1], key, g)
  {
    hide Keys, TupleFor, DescFor, ListedSince, MakeEntry;
    var init := h[..|h| - 1];
    if LastServed(init, g) >= 0 { ListedExtends(h, LastServed(init, g), key); }
  }

  /** An accepted ingest of the group itself decides alone. */
  lemma ExpectedOwn(h: seq<Call>, key: Key)
    requires h != [] && h[|h| - 1].Accepted()
    ensures var call := h[|h| - 1];
      Expected(h, key, call.group) ==
        if key !in Keys(call.first.regions) then None
        else match TupleFor(call.second.tuples, key.1)
          case None => None
          case Some(t) => Some(MakeEntry(DescFor(call.first.regions, key), t, call.group))
  {
    hide Keys, TupleFor, DescFor, MakeEntry;
    ListedNow(h, key);
  }

  lemma ListedNow(h: seq<Call>, key: Key)
    requires h != [] && h[|h| - 1].Accepted()
    ensures ListedSince(h, |h| - 1, key) <==> key in Keys(h[|h| - 1].first.regions)
  {
    hide Keys;
  }

  /** An accepted ingest of another group only takes away what its catalog does not list. */
  lemma ExpectedOther(h: seq<Call>, key: Key, g: u32)
    requires h != [] && h[|h| - 1].Accepted() && h[|h| - 1].group != g
    ensures Expected(h, key, g) ==
      if key in Keys(h[|h| - 1].first.regions) then Expected(h[..|h| - 1], key, g) else None
  {
    hide Keys, TupleFor, DescFor, ListedSince, MakeEntry;
    var init := h[..|h| - 1];
    if LastServed(init, g) >= 0 { ListedExtends(h, LastServed(init, g), key); }
  }

  lemma ListedExtends(h: seq<Call>, k: nat, key: Key)
    requires k < |h| - 1
    ensures ListedSince(h, k, key) <==>
      ListedSince(h[..|h| - 1], k, key) &&
      (h[|h| - 1].Accepted() ==> key in Keys(h[|h| - 1].first.regions))
  {
    hide Keys;
    var init := h[..|h| - 1];
    if ListedSince(init, k, key) && (h[|h| - 1].Accepted() ==> key in Keys(h[|h| - 1].first.regions)) {
      forall j | k <= j < |h| && h[j].Accepted() ensures key in Keys(h[j].first.regions) {
        if j < |h| - 1 { assert init[j] == h[j]; }
      }
    }
    if ListedSince(h, k, key) {
      forall j | k <= j < |init| && init[j].Accepted() ensures key in Keys(init[j].first.regions) {
        assert init[j] == h[j];
      }
    }
  }

  /** No key ever holds two entries of one group, so a lookup by group has one answer. */
  lemma {:induction false} OneEntryPerGroup(h: seq<Call>, key: Key)
    ensures Distinct(Known(After(h).regions, key))
  {
    if h != [] {
      var call := h[|h| - 1];
      OneEntryPerGroup(h[..|h| - 1], key);
      if call.Accepted() {
        IngestedDistinct(After(h[..|h| - 1]), call.group, call.first.regions, call.second.tuples, key);
      }
    }
  }

  /** Entries stand in the order in which their groups were last served. */
  ghost predicate ByService(h: seq<Call>, s: seq<CachedRegion>) {
    forall i, j :: 0 <= i < j < |s| ==> LastServed(h, s[i].group) < LastServed(h, s[j].group)
  }

  /** The first entry of a key, which a lookup without a group takes, is of the group served longest ago. */
  lemma {:induction false} OldestFirst(h: seq<Call>, key: Key)
    ensures ByService(h, Known(After(h).regions, key))
  {
    if h != [] {
      var n, call, was := |h| - 1, h[|h| - 1], Known(After(h[..|h| - 1]).regions, key);
      OldestFirst(h[..n], key);
      hide After, TupleFor, DescFor, Keys;
      AfterLast(h);
      if !call.Accepted() {
        assert ByService(h, was);
      } else if key in Keys(call.first.regions) {
        OthersByService(h[..n], was, call.group);
        var others := Others(was, call.group);
        OthersOf(was, call.group);
        var added := Fresh(call.first.regions, call.second.tuples, key, call.group);
        var now: seq<CachedRegion> := others + added;
        assert Known(After(h).regions, key) == now;
        forall i: nat, j: nat | i < j < |now| ensures LastServed(h, now[i].group) < LastServed(h, now[j].group)
        {
          assert others[i] in others;
          if j < |others| { assert others[j] in others; }
        }
      }
    }
  }

  lemma {:induction false} OthersOf(s: seq<CachedRegion>, g: u32)
    ensures forall e :: e in Others(s, g) ==> e in s && e.group != g
  {
    if s != [] { OthersOf(s[1..], g); }
  }

  lemma {:induction false} OthersByService(h: seq<Call>, s: seq<CachedRegion>, g: u32)
    requires ByService(h, s)
    ensures ByService(h, Others(s, g))
  {
    hide LastServed;
    if s != [] {
      assert ByService(h, s[1..]);
      OthersByService(h, s[1..], g);
      OthersOf(s[1..], g);
      assert forall e :: e in s[1..] ==> LastServed(h, s[0].group) < LastServed(h, e.group);
    }
  }

  lemma FirstIsOldest(h: seq<Call>, key: Key, g: u32)
    requires Expected(h, key, g).Some?
    ensures var entries := Known(After(h).regions, key);
      entries != [] && LastServed(h, entries[0].group) <= LastServed(h, g)
  {
    CacheRefinesHistory(h, key, g);
    OldestFirst(h, key);
    hide Expected, After, LastServed, Known;
    var entries := Known(After(h).regions, key);
    FindIsMember(entries, g);
    var i :| 0 <= i < |entries| && entries[i].group == g;
  }

  lemma {:induction false} FindIsMember(s: seq<CachedRegion>, g: u32)
    ensures Find(s, g).Some? <==> exists e :: e in s && e.group == g
    ensures Find(s, g).Some? ==> Find(s, g).value in s && Find(s, g).value.group == g
  {
    if s != [] { FindIsMember(s[1..], g); }
  }

  lemma IngestedDistinct(c: Cache, g: u32, rs: seq<RegionDesc>, ts: seq<TupleDesc>, key: Key)
    requires Distinct(Known(c.regions, key))
    ensures Distinct(Known(Ingested(c, g, rs, ts).regions, key))
  {
    hide Others, TupleFor, Keys;
    OthersDistinct(Known(c.regions, key), g);
  }

  ghost predicate Distinct(s: seq<CachedRegion>) {
    forall i, j :: 0 <= i < j < |s| ==> s[i].group != s[j].group
  }

  lemma {:induction false} OthersDistinct(s: seq<CachedRegion>, g: u32)
    requires Distinct(s)
    ensures Distinct(Others(s, g))
    ensures forall i :: 0 <= i < |Others(s, g)| ==> Others(s, g)[i].group != g && Others(s, g)[i] in s
  {
    if s != [] {
      assert Distinct(s[1..]);
      OthersDistinct(s[1..], g);
      assert forall x :: x in s[1..] ==> x.group != s[0].group;
    }
  }
}
