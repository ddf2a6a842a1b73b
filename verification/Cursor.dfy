/**
 The loops of src/meta.rs: a buffer that messages are appended to, the cursor
 that walks a received payload, and a byte stream that frames are read off.
 Each is proved to compute the functions of module Codec.
 */
module Cursor {
  import opened Common
  import opened Codec

  /** The growing `Vec<u8>` of the `put_*` functions. */
  class Buffer {
    var bytes: seq<byte>

    constructor ()
      ensures bytes == []
    {
      bytes := [];
    }

    method PutInt(v: nat, n: nat)
      modifies this
      ensures bytes == old(bytes) + LittleEndian(v, n)
    {
      var rest, i := v, 0;
      while i < n
        invariant 0 <= i <= n
        invariant old(bytes) + LittleEndian(v, n) == bytes + LittleEndian(rest, n - i)
      {
        bytes := bytes + [rest % 256];
        rest, i := rest / 256, i + 1;
      }
    }

    method PutStr(s: Utf8)
      modifies this
      ensures bytes == old(bytes) + Codec.PutStr(s)
    {
      PutInt(|s| % U32_LIMIT, 4);
      bytes := bytes + s;
    }

    method PutRegion(r: RegionDesc)
      modifies this
      ensures bytes == old(bytes) + Codec.PutRegion(r)
    {
      hide LittleEndian;
      PutInt(r.id, 4);
      PutStr(r.name);
      PutInt(r.size, 8);
      PutInt(r.elemSize, 4);
      PutInt(r.elemAlign, 4);
      PutStr(r.elemType);
    }

    method PutTuple(t: TupleDesc)
      modifies this
      ensures bytes == old(bytes) + Codec.PutTuple(t)
    {
      hide LittleEndian;
      PutInt(t.regionId, 4);
      PutInt(t.remoteAddr, 8);
      PutInt(t.size, 8);
      PutInt(t.rkey, 4);
    }

    method PutRegionList(rs: seq<RegionDesc>)
      modifies this
      ensures bytes == old(bytes) + Codec.PutRegions(rs)
    {
      hide Codec.PutRegion;
      for i := 0 to |rs|
        invariant old(bytes) + Codec.PutRegions(rs) == bytes + Codec.PutRegions(rs[i..])
      {
        assert rs[i..][1..] == rs[i + 1..];
        PutRegion(rs[i]);
      }
    }

    method PutTupleList(ts: seq<TupleDesc>)
      modifies this
      ensures bytes == old(bytes) + Codec.PutTuples(ts)
    {
      hide Codec.PutTuple;
      for i := 0 to |ts|
        invariant old(bytes) + Codec.PutTuples(ts) == bytes + Codec.PutTuples(ts[i..])
      {
        assert ts[i..][1..] == ts[i + 1..];
        PutTuple(ts[i]);
      }
    }
  }

  method EncodePayload(m: Message) returns (ty: byte, payload: seq<byte>)
    ensures ty == TypeByte(m) && payload == Payload(m)
  {
    hide LittleEndian, PutRegions, PutTuples;
    var buffer := new Buffer();
    match m {
      case Hello(v) => buffer.PutInt(v, 2); ty := MSG_HELLO;
      case Welcome(v) => buffer.PutInt(v, 2); ty := MSG_WELCOME;
      case WantGroup(g) => buffer.PutInt(g, 4); ty := MSG_WANT_GROUP;
      case Update => ty := MSG_UPDATE;
      case Metadata(rs) =>
        buffer.PutInt(|rs| % U32_LIMIT, 4);
        buffer.PutRegionList(rs);
        ty := MSG_METADATA;
      case Tuples(g, ts) =>
        buffer.PutInt(g, 4);
        buffer.PutInt(|ts| % U32_LIMIT, 4);
        buffer.PutTupleList(ts);
        ty := MSG_TUPLES;
    }
    payload := buffer.bytes;
  }

  method EncodeMessage(m: Message) returns (frame: seq<byte>)
    ensures frame == Encode(m)
  {
    hide LittleEndian, Payload, TypeByte;
    var ty, payload := EncodePayload(m);
    var out := new Buffer();
    out.PutInt((1 + |payload| % U32_LIMIT) % U32_LIMIT, 4);
    frame := out.bytes + [ty] + payload;
  }

  /** How a step of the cursor relates to the parser it stands for. */
  ghost predicate Agrees<T>(r: Option<T>, p: Parsed<T>, rest: seq<byte>) {
    match p
    case None => r == None
    case Some((v, left)) => r == Some(v) && rest == left
  }

  /** The `Reader` over a received payload. */
  class Reader {
    const buf: seq<byte>
    var pos: nat

    ghost predicate Valid() reads this { pos <= |buf| }

    ghost function Rest(): (r: seq<byte>)
      requires Valid()
      reads this
    {
      buf[pos..]
    }

    constructor (payload: seq<byte>)
      ensures Valid() && buf == payload && pos == 0
    {
      buf, pos := payload, 0;
    }

    /** The subtraction of the bounds check never goes below zero: pos stays inside buf. */
    method Take(n: nat) returns (r: Option<seq<byte>>)
      requires Valid()
      modifies this
      ensures Valid() && old(pos) <= pos
      ensures Agrees(r, Codec.Take(n, old(Rest())), Rest())
    {
      if n > |buf| - pos { return None; }
      r := Some(buf[pos..pos + n]);
      pos := pos + n;
      assert old(Rest())[..n] == buf[old(pos)..pos] && old(Rest())[n..] == Rest();
    }

    method U16() returns (r: Option<u16>)
      requires Valid()
      modifies this
      ensures Valid() && old(pos) <= pos
      ensures Agrees(r, GetU16(old(Rest())), Rest())
    {
      var bytes := Take(2);
      if bytes == None { return None; }
      ValueBound(bytes.value);
      r := Some(Value(bytes.value));
    }

    method U32() returns (r: Option<u32>)
      requires Valid()
      modifies this
      ensures Valid() && old(pos) <= pos
      ensures Agrees(r, GetU32(old(Rest())), Rest())
    {
      var bytes := Take(4);
      if bytes == None { return None; }
      ValueBound(bytes.value);
      r := Some(Value(bytes.value));
    }

    method U64() returns (r: Option<u64>)
      requires Valid()
      modifies this
      ensures Valid() && old(pos) <= pos
      ensures Agrees(r, GetU64(old(Rest())), Rest())
    {
      var bytes := Take(8);
      if bytes == None { return None; }
      ValueBound(bytes.value);
      r := Some(Value(bytes.value));
    }

    method Str() returns (r: Option<Utf8>)
      requires Valid()
      modifies this
      ensures Valid() && old(pos) <= pos
      ensures Agrees(r, GetStr(old(Rest())), Rest())
    {
      hide Value;
      var n := U32();
      if n == None { return None; }
      var bytes := Take(n.value);
      if bytes == None || !ValidUtf8(bytes.value) { return None; }
      r := Some(bytes.value);
    }

    method Layout() returns (r: Option<(u32, u32, Utf8)>)
      requires Valid()
      modifies this
      ensures Valid() && old(pos) <= pos
      ensures Agrees(r, GetLayout(old(Rest())), Rest())
    {
      hide GetU32, GetStr;
      var elemSize := U32();
      if elemSize == None { return None; }
      var elemAlign := U32();
      if elemAlign == None { return None; }
      var elemType := Str();
      if elemType == None { return None; }
      r := Some((elemSize.value, elemAlign.value, elemType.value));
    }

    method Region() returns (r: Option<RegionDesc>)
      requires Valid()
      modifies this
      ensures Valid() && old(pos) <= pos
      ensures Agrees(r, GetRegion(old(Rest())), Rest())
    {
      hide GetU32, GetU64, GetStr, GetLayout;
      var id := U32();
      if id == None { return None; }
      var name := Str();
      if name == None { return None; }
      var size := U64();
      if size == None { return None; }
      var layout := Layout();
      if layout == None { return None; }
      r := Some(RegionDesc(id.value, name.value, size.value, layout.value.0, layout.value.1, layout.value.2));
    }

    method Tuple() returns (r: Option<TupleDesc>)
      requires Valid()
      modifies this
      ensures Valid() && old(pos) <= pos
      ensures Agrees(r, GetTuple(old(Rest())), Rest())
    {
      hide GetU32, GetU64;
      var id := U32();
      if id == None { return None; }
      var addr := U64();
      if addr == None { return None; }
      var size := U64();
      if size == None { return None; }
      var rkey := U32();
      if rkey == None { return None; }
      r := Some(TupleDesc(id.value, addr.value, size.value, rkey.value));
    }

    /**
     The catalog loop.  It stops because every element eats at least 28 bytes, whatever
     count was claimed: `done` elements were completed, on success and on failure alike.
     */
    method RegionList(count: nat) returns (r: Option<seq<RegionDesc>>, ghost done: nat)
      requires Valid()
      modifies this
      ensures Valid() && old(pos) <= pos
      ensures Agrees(r, GetRegions(count, old(Rest())), Rest())
      ensures done == CompletedRegions(count, old(Rest())) && 28 * done <= pos - old(pos)
      ensures r.Some? <==> done == count
      ensures r.Some? ==> |r.value| == done
    {
      hide GetRegion;
      var regions, i := [], 0;
      done := 0;
      ghost var whole := GetRegions(count, Rest());
      PrependNothing(whole);
      while i < count
        invariant Valid() && old(pos) <= pos
        invariant 0 <= i <= count && i == |regions| == done && 28 * done <= pos - old(pos)
        invariant CompletedRegions(count, old(Rest())) == done + CompletedRegions(count - i, Rest())
        invariant whole == Prepend(regions, GetRegions(count - i, Rest()))
        decreases |buf| - pos
      {
        ghost var before := Rest();
        PrintRegion(before);
        var region := Region();
        if region == None { return None, done; }
        PrependTwice(regions, region.value, GetRegions(count - i - 1, Rest()));
        regions, i := regions + [region.value], i + 1;
        done := done + 1;
      }
      assert regions + [] == regions;
      r := Some(regions);
    }

    method TupleList(count: nat) returns (r: Option<seq<TupleDesc>>, ghost done: nat)
      requires Valid()
      modifies this
      ensures Valid() && old(pos) <= pos
      ensures Agrees(r, GetTuples(count, old(Rest())), Rest())
      ensures done == CompletedTuples(count, old(Rest())) && 24 * done <= pos - old(pos)
      ensures r.Some? <==> done == count
      ensures r.Some? ==> |r.value| == done
    {
      hide GetTuple;
      var tuples, i := [], 0;
      done := 0;
      ghost var whole := GetTuples(count, Rest());
      PrependNothing(whole);
      while i < count
        invariant Valid() && old(pos) <= pos
        invariant 0 <= i <= count && i == |tuples| == done && 24 * done <= pos - old(pos)
        invariant CompletedTuples(count, old(Rest())) == done + CompletedTuples(count - i, Rest())
        invariant whole == Prepend(tuples, GetTuples(count - i, Rest()))
        decreases |buf| - pos
      {
        ghost var before := Rest();
        PrintTuple(before);
        var tuple := Tuple();
        if tuple == None { return None, done; }
        PrependTwice(tuples, tuple.value, GetTuples(count - i - 1, Rest()));
        tuples, i := tuples + [tuple.value], i + 1;
        done := done + 1;
      }
      assert tuples + [] == tuples;
      r := Some(tuples);
    }
  }

  lemma PrependNothing<T>(p: Parsed<seq<T>>)
    ensures Prepend([], p) == p
  {
    if p.Some? { assert [] + p.value.0 == p.value.0; }
  }

  lemma PrependTwice<T>(xs: seq<T>, x: T, p: Parsed<seq<T>>)
    ensures Prepend(xs, Prepend([x], p)) == Prepend(xs + [x], p)
  {
    if p.Some? { assert xs + ([x] + p.value.0) == xs + [x] + p.value.0; }
  }

  /** `decode`: the elements completed are bounded by the payload, never by the claimed count. */
  method DecodePayload(ty: byte, payload: seq<byte>) returns (r: Result<Message, IoError>, ghost done: nat)
    ensures r == Decode(ty, payload)
    ensures done == Completed(ty, payload)
    ensures ty == MSG_METADATA ==> done <= |payload| / 28
    ensures ty == MSG_TUPLES ==> done <= |payload| / 24
    ensures r.Ok? && r.value.Metadata? ==> done == |r.value.regions|
    ensures r.Ok? && r.value.Tuples? ==> done == |r.value.tuples|
  {
    hide GetU16, GetU32, GetRegions, GetTuples, CompletedRegions, CompletedTuples;
    CompletedIsBounded(ty, payload);
    var reader := new Reader(payload);
    done := 0;
    assert reader.Rest() == payload;
    var m: Message;
    if ty == MSG_HELLO || ty == MSG_WELCOME {
      var v := reader.U16();
      if v == None { return Err(InvalidData), done; }
      m := if ty == MSG_HELLO then Hello(v.value) else Welcome(v.value);
    } else if ty == MSG_WANT_GROUP {
      var g := reader.U32();
      if g == None { return Err(InvalidData), done; }
      m := WantGroup(g.value);
    } else if ty == MSG_UPDATE {
      m := Update;
    } else if ty == MSG_METADATA {
      var count := reader.U32();
      if count == None { return Err(InvalidData), done; }
      var regions;
      regions, done := reader.RegionList(count.value);
      if regions == None { return Err(InvalidData), done; }
      m := Metadata(regions.value);
    } else if ty == MSG_TUPLES {
      var g := reader.U32();
      if g == None { return Err(InvalidData), done; }
      var count := reader.U32();
      if count == None { return Err(InvalidData), done; }
      var tuples;
      tuples, done := reader.TupleList(count.value);
      if tuples == None { return Err(InvalidData), done; }
      m := Tuples(g.value, tuples.value);
    } else {
      return Err(InvalidData), done;
    }
    assert GetBody(ty, payload) == Some((m, reader.Rest()));
    r := if reader.pos == |payload| then Ok(m) else Err(InvalidData);
  }

  /** The receiving end of a TCP stream, holding the bytes that will still arrive. */
  class Stream {
    var bytes: seq<byte>

    constructor (content: seq<byte>)
      ensures bytes == content
    {
      bytes := content;
    }

    method ReadExact(n: nat) returns (r: Option<seq<byte>>)
      modifies this
      ensures |old(bytes)| < n ==> r == None && bytes == []
      ensures |old(bytes)| >= n ==> r == Some(old(bytes)[..n]) && bytes == old(bytes)[n..]
    {
      if |bytes| < n {
        bytes := [];
        return None;
      }
      r, bytes := Some(bytes[..n]), bytes[n..];
    }

    method ReadMessage() returns (r: Result<Message, IoError>)
      modifies this
      ensures match ReadFrame(old(bytes))
              case Ok((m, rest)) => r == Ok(m) && bytes == rest
              case Err(e) => r == Err(e)
    {
      hide Decode;
      ghost var was := bytes;
      var header := ReadExact(5);
      if header == None { return Err(UnexpectedEof); }
      assert header.value[..4] == was[..4];
      ValueBound(header.value[..4]);
      var len := Value(header.value[..4]);
      if len == 0 || len > MAX_FRAME { return Err(InvalidData); }
      var payload := ReadExact(len - 1);
      if payload == None { return Err(UnexpectedEof); }
      assert payload.value == was[5..4 + len] && bytes == was[4 + len..];
      ghost var done;
      r, done := DecodePayload(header.value[4], payload.value);
    }
  }
}
