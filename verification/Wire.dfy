/**
 The bytes on the wire (src/meta.rs), position by position: where each field of a frame stands, which
 byte announces which message, and exactly which streams read as a frame, end early or are refused.
 */
module Wire {
  import opened Common
  import opened Codec

  /** Two bytes from `at`, the least significant first. */
  function Half(b: seq<byte>, at: nat): (v: nat)
    requires at + 2 <= |b|
  {
    b[at] as int + 0x100 * (b[at + 1] as int)
  }

  function Word(b: seq<byte>, at: nat): (v: nat)
    requires at + 4 <= |b|
  {
    Half(b, at) + 0x1_0000 * Half(b, at + 2)
  }

  function Long(b: seq<byte>, at: nat): (v: nat)
    requires at + 8 <= |b|
  {
    Word(b, at) + 0x1_0000_0000 * Word(b, at + 4)
  }

  /** Two bytes first. */
  lemma HalfFirst(b: seq<byte>)
    requires |b| >= 2
    ensures Value(b) == Half(b, 0) + 0x1_0000 * Value(b[2..])
  {
    assert b[1..][1..] == b[2..] && b[1..][0] == b[1];
    assert Value(b[1..]) == b[1] as int + 256 * Value(b[2..]);
  }

  lemma WordFirst(b: seq<byte>)
    requires |b| >= 4
    ensures Value(b) == Word(b, 0) + 0x1_0000_0000 * Value(b[4..])
  {
    HalfFirst(b);
    HalfFirst(b[2..]);
    assert b[2..][2..] == b[4..];
    hide Value;
  }

  lemma WordAt(b: seq<byte>, at: nat, v: u32)
    requires at + 4 <= |b| && b[at..at + 4] == LittleEndian(v, 4)
    ensures Word(b, at) == v
  {
    PowerValues();
    ValueOfLittleEndian(v, 4);
    WordFirst(b[at..at + 4]);
  }

  lemma LongAt(b: seq<byte>, at: nat, v: u64)
    requires at + 8 <= |b| && b[at..at + 8] == LittleEndian(v, 8)
    ensures Long(b, at) == v
  {
    var digits := b[at..at + 8];
    PowerValues();
    ValueOfLittleEndian(v, 8);
    WordFirst(digits);
    WordFirst(digits[4..]);
    assert digits[4..][4..] == [];
    assert forall k :: 0 <= k < 8 ==> b[at + k] == digits[k];
    hide LittleEndian;
  }

  lemma TupleLayout(t: TupleDesc)
    ensures var b := PutTuple(t);
      |b| == 24 && Word(b, 0) == t.regionId && Long(b, 4) == t.remoteAddr && Long(b, 12) == t.size &&
      Word(b, 20) == t.rkey
  {
    hide LittleEndian, Word, Long;
    var b := PutTuple(t);
    assert b[0..4] == PutU32(t.regionId) && b[4..12] == LittleEndian(t.remoteAddr, 8);
    assert b[12..20] == LittleEndian(t.size, 8) && b[20..24] == PutU32(t.rkey);
    WordAt(b, 0, t.regionId); LongAt(b, 4, t.remoteAddr); LongAt(b, 12, t.size); WordAt(b, 20, t.rkey);
  }

  lemma RegionLayout(r: RegionDesc)
    ensures var b, n := PutRegion(r), |r.name|;
      |b| == n + 28 + |r.elemType| && Word(b, 0) == r.id &&
      Word(b, 4) == n % 0x1_0000_0000 && b[8..8 + n] == r.name && Long(b, n + 8) == r.size &&
      Word(b, n + 16) == r.elemSize && Word(b, n + 20) == r.elemAlign &&
      Word(b, n + 24) == |r.elemType| % 0x1_0000_0000 && b[n + 28..] == r.elemType
  {
    hide LittleEndian, Word, Long, ValidUtf8;
    var b, n := PutRegion(r), |r.name|;
    assert b[0..4] == PutU32(r.id) && b[4..8] == PutU32(n % U32_LIMIT) && b[8..n + 8] == r.name;
    assert b[n + 8..n + 16] == LittleEndian(r.size, 8) && b[n + 16..n + 20] == PutU32(r.elemSize);
    assert b[n + 20..n + 24] == PutU32(r.elemAlign) && b[n + 24..n + 28] == PutU32(|r.elemType| % U32_LIMIT);
    WordAt(b, 0, r.id); WordAt(b, 4, n % U32_LIMIT); LongAt(b, n + 8, r.size);
    WordAt(b, n + 16, r.elemSize); WordAt(b, n + 20, r.elemAlign); WordAt(b, n + 24, |r.elemType| % U32_LIMIT);
  }

  /** The descriptors stand one after the other in the order of the list. */
  lemma {:induction false} RegionsInOrder(rs: seq<RegionDesc>, i: nat)
    requires i < |rs|
    ensures PutRegions(rs) == PutRegions(rs[..i]) + PutRegion(rs[i]) + PutRegions(rs[i + 1..])
  {
    hide PutRegion;
    if i > 0 {
      RegionsInOrder(rs[1..], i - 1);
      assert rs[1..][..i - 1] == rs[..i][1..] && rs[1..][i..] == rs[i + 1..];
    }
  }

  lemma {:induction false} TuplesInOrder(ts: seq<TupleDesc>, i: nat)
    requires i < |ts|
    ensures |PutTuples(ts)| == 24 * |ts| && PutTuples(ts)[24 * i..24 * i + 24] == PutTuple(ts[i])
  {
    hide PutTuple;
    if i > 0 {
      TuplesInOrder(ts[1..], i - 1);
    } else if |ts| > 1 {
      TuplesInOrder(ts[1..], 0);
    }
  }

  /** What stands in a frame, by kind of message; length and counts are narrowed to 32 bits. */
  lemma FrameLayout(m: Message)
    ensures |Encode(m)| >= 5 && Word(Encode(m), 0) == (|Encode(m)| - 4) % 0x1_0000_0000
    ensures var ty, p := Encode(m)[4], Encode(m)[5..];
      match m
      case Hello(v) => ty == 1 && |p| == 2 && Half(p, 0) == v
      case Welcome(v) => ty == 2 && |p| == 2 && Half(p, 0) == v
      case WantGroup(g) => ty == 3 && |p| == 4 && Word(p, 0) == g
      case Update => ty == 4 && p == []
      case Metadata(rs) =>
        ty == 5 && |p| >= 4 && Word(p, 0) == |rs| % 0x1_0000_0000 && p[4..] == PutRegions(rs)
      case Tuples(g, ts) =>
        ty == 6 && |p| >= 8 && Word(p, 0) == g && Word(p, 4) == |ts| % 0x1_0000_0000 && p[8..] == PutTuples(ts)
  {
    hide Word, LittleEndian, PutRegions, PutTuples, Encode;
    EncodeShape(m, []);
    LengthLayout(m);
    match m
    case Hello(v) => HalfWord(v);
    case Welcome(v) => HalfWord(v);
    case WantGroup(g) => WordAt(Payload(m), 0, g);
    case Update =>
    case Metadata(rs) => MetadataLayout(rs);
    case Tuples(g, ts) => TuplesLayout(g, ts);
  }

  lemma LengthLayout(m: Message)
    ensures |Encode(m)| >= 5 && Word(Encode(m), 0) == (|Encode(m)| - 4) % 0x1_0000_0000
  {
    hide Word, LittleEndian, Payload;
    var len: u32 := (1 + |Payload(m)| % U32_LIMIT) % U32_LIMIT;
    NarrowedLength(|Payload(m)|);
    assert Encode(m)[0..4] == PutU32(len);
    WordAt(Encode(m), 0, len);
  }

  lemma NarrowedLength(n: nat)
    ensures (1 + n % U32_LIMIT) % U32_LIMIT == (1 + n) % U32_LIMIT
  {}

  lemma MetadataLayout(rs: seq<RegionDesc>)
    ensures var p := Payload(Metadata(rs));
      |p| >= 4 && Word(p, 0) == |rs| % 0x1_0000_0000 && p[4..] == PutRegions(rs)
  {
    hide Word, LittleEndian, PutRegions;
    var p := Payload(Metadata(rs));
    assert p[0..4] == PutU32(|rs| % U32_LIMIT);
    WordAt(p, 0, |rs| % U32_LIMIT);
  }

  lemma TuplesLayout(g: u32, ts: seq<TupleDesc>)
    ensures var p := Payload(Tuples(g, ts));
      |p| >= 8 && Word(p, 0) == g && Word(p, 4) == |ts| % 0x1_0000_0000 && p[8..] == PutTuples(ts)
  {
    hide Word, LittleEndian, PutTuples;
    var p := Payload(Tuples(g, ts));
    assert p[0..4] == PutU32(g) && p[4..8] == PutU32(|ts| % U32_LIMIT);
    WordAt(p, 0, g);
    WordAt(p, 4, |ts| % U32_LIMIT);
  }

  lemma HalfWord(v: u16)
    ensures Half(LittleEndian(v, 2), 0) == v
  {
    PowerValues();
    ValueOfLittleEndian(v, 2);
    HalfFirst(LittleEndian(v, 2));
    assert LittleEndian(v, 2)[2..] == [];
  }

  /** A stream reads as a message exactly when it starts with that message's frame, and the frame is in the cap. */
  lemma FramesAreEncodings(stream: seq<byte>, m: Message, rest: seq<byte>)
    ensures ReadFrame(stream) == Ok((m, rest)) <==> InCap(m) && stream == Encode(m) + rest
  {
    hide Encode, InCap, ReadFrame;
    if InCap(m) && stream == Encode(m) + rest { ReadEncoded(m, rest); }
    if ReadFrame(stream) == Ok((m, rest)) { ReadIsEncoded(stream); }
  }

  lemma ReadIsEncoded(stream: seq<byte>)
    requires ReadFrame(stream).Ok?
    ensures var (m, rest) := ReadFrame(stream).value; InCap(m) && stream == Encode(m) + rest
  {
    hide Decode, LittleEndian, Value, Payload, TypeByte;
    var len := GetU32(stream).value.0;
    var p := stream[5..4 + len];
    DecodeIsCanonical(stream[4], p);
    PrintU32(stream);
    assert stream == PutU32(len) + ([stream[4]] + p + stream[4 + len..]);
  }

  /** Which streams end early and which are refused, by the length word alone unless the frame is whole. */
  lemma FrameRefusals(stream: seq<byte>)
    ensures ReadFrame(stream) == Err(UnexpectedEof) <==>
      |stream| < 5 || (1 <= Word(stream, 0) <= 0x10_0000 && |stream| < 4 + Word(stream, 0))
    ensures ReadFrame(stream) == Err(InvalidData) <==>
      |stream| >= 5 &&
      (!(1 <= Word(stream, 0) <= 0x10_0000) ||
       (|stream| >= 4 + Word(stream, 0) &&
        forall m: Message :: InCap(m) ==> Encode(m) != stream[..4 + Word(stream, 0)]))
  {
    hide Decode, LittleEndian, Value, Encode, InCap, Word;
    if |stream| >= 5 {
      var len := Word(stream, 0);
      WordOfStream(stream);
      if 1 <= len <= 0x10_0000 && |stream| >= 4 + len {
        var (frame, rest) := (stream[..4 + len], stream[4 + len..]);
        assert stream == frame + rest;
        if ReadFrame(stream).Ok? {
          var (m, left) := ReadFrame(stream).value;
          FramesAreEncodings(stream, m, left);
          assert left == rest;
          assert Encode(m) == frame;
        } else {
          NotOk(stream);
          forall m: Message | InCap(m) ensures Encode(m) != frame {
            if Encode(m) == frame { FramesAreEncodings(stream, m, rest); }
          }
        }
      }
    }
  }

  lemma WordOfStream(stream: seq<byte>)
    requires |stream| >= 4
    ensures GetU32(stream).Some? && GetU32(stream).value.0 == Word(stream, 0)
  {
    WordFirst(stream[..4]);
    hide LittleEndian;
  }

  lemma NotOk(stream: seq<byte>)
    requires |stream| >= 5 && |stream| >= 4 + GetU32(stream).value.0 && ReadFrame(stream).Err?
    ensures ReadFrame(stream) == Err(InvalidData)
  {
    var len := GetU32(stream).value.0;
    if 1 <= len <= MAX_FRAME { DecodeRefuses(stream[4], stream[5..4 + len]); }
    hide Decode, LittleEndian, Value;
  }

  lemma DecodeRefuses(ty: byte, payload: seq<byte>)
    ensures Decode(ty, payload) != Err(UnexpectedEof)
  {
    hide GetBody;
  }
}
