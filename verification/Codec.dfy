/**
 The wire format of the metadata exchange (src/meta.rs): what bytes a message
 becomes, and which bytes are accepted back.  Printers and parsers are functions
 on byte sequences; module Cursor holds the loops that compute them.
 */
module Codec {
  import opened Common

  const PROTOCOL_VERSION: u16 := 1
  const MAX_FRAME: nat := 0x10_0000

  const MSG_HELLO: byte := 1
  const MSG_WELCOME: byte := 2
  const MSG_WANT_GROUP: byte := 3
  const MSG_UPDATE: byte := 4
  const MSG_METADATA: byte := 5
  const MSG_TUPLES: byte := 6

  // ----- UTF-8, by the grammar in section 4 of RFC 3629 -----

  predicate Tail(b: byte) { 0x80 <= b <= 0xBF }

  /** Length of the UTF8-char that `s` starts with; 0 when it starts with none. */
  function CharLength(s: seq<byte>): (n: nat)
    ensures n <= |s| && n <= 4
  {
    if |s| >= 1 && s[0] <= 0x7F then 1
    else if |s| >= 2 && 0xC2 <= s[0] <= 0xDF && Tail(s[1]) then 2
    else if |s| >= 3 && Tail(s[2]) &&
            ((s[0] == 0xE0 && 0xA0 <= s[1] <= 0xBF) ||
             (0xE1 <= s[0] <= 0xEC && Tail(s[1])) ||
             (s[0] == 0xED && 0x80 <= s[1] <= 0x9F) ||
             (0xEE <= s[0] <= 0xEF && Tail(s[1]))) then 3
    else if |s| >= 4 && Tail(s[2]) && Tail(s[3]) &&
            ((s[0] == 0xF0 && 0x90 <= s[1] <= 0xBF) ||
             (0xF1 <= s[0] <= 0xF3 && Tail(s[1])) ||
             (s[0] == 0xF4 && 0x80 <= s[1] <= 0x8F)) then 4
    else 0
  }

  predicate ValidUtf8(s: seq<byte>) {
    s == [] || (CharLength(s) > 0 && ValidUtf8(s[CharLength(s)..]))
  }

  type Utf8 = s: seq<byte> | ValidUtf8(s) witness []

  // ----- Messages -----

  datatype RegionDesc = RegionDesc(id: u32, name: Utf8, size: u64, elemSize: u32, elemAlign: u32, elemType: Utf8)

  datatype TupleDesc = TupleDesc(regionId: u32, remoteAddr: u64, size: u64, rkey: u32)

  datatype Message =
    | Hello(version: u16)
    | Welcome(version: u16)
    | WantGroup(group: u32)
    | Update
    | Metadata(regions: seq<RegionDesc>)
    | Tuples(served: u32, tuples: seq<TupleDesc>)

  datatype IoError = UnexpectedEof | InvalidData

  // ----- Printing -----

  /** The low `n` bytes of `v`, least significant first. */
  function LittleEndian(v: nat, n: nat): (b: seq<byte>)
    ensures |b| == n
  {
    if n == 0 then [] else [v % 256] + LittleEndian(v / 256, n - 1)
  }

  function PutU32(v: u32): (r: seq<byte>) { LittleEndian(v, 4) }

  /** The length prefix is narrowed to 32 bits. */
  function PutStr(s: Utf8): (r: seq<byte>) { PutU32(|s| % U32_LIMIT) + s }

  function PutLayout(elemSize: u32, elemAlign: u32, elemType: Utf8): (r: seq<byte>) {
    PutU32(elemSize) + (PutU32(elemAlign) + PutStr(elemType))
  }

  function PutRegion(r: RegionDesc): (result: seq<byte>) {
    PutU32(r.id) + (PutStr(r.name) + (LittleEndian(r.size, 8) + PutLayout(r.elemSize, r.elemAlign, r.elemType)))
  }

  function PutTuple(t: TupleDesc): (b: seq<byte>)
    ensures |b| == 24
  {
    PutU32(t.regionId) + (LittleEndian(t.remoteAddr, 8) + (LittleEndian(t.size, 8) + PutU32(t.rkey)))
  }

  function PutRegions(rs: seq<RegionDesc>): (r: seq<byte>) {
    if rs == [] then [] else PutRegion(rs[0]) + PutRegions(rs[1..])
  }

  function PutTuples(ts: seq<TupleDesc>): (r: seq<byte>) {
    if ts == [] then [] else PutTuple(ts[0]) + PutTuples(ts[1..])
  }

  function TypeByte(m: Message): (r: byte) {
    match m
    case Hello(_) => MSG_HELLO
    case Welcome(_) => MSG_WELCOME
    case WantGroup(_) => MSG_WANT_GROUP
    case Update => MSG_UPDATE
    case Metadata(_) => MSG_METADATA
    case Tuples(_, _) => MSG_TUPLES
  }

  function Payload(m: Message): (r: seq<byte>) {
    match m
    case Hello(v) => LittleEndian(v, 2)
    case Welcome(v) => LittleEndian(v, 2)
    case WantGroup(g) => PutU32(g)
    case Update => []
    case Metadata(rs) => PutU32(|rs| % U32_LIMIT) + PutRegions(rs)
    case Tuples(g, ts) => PutU32(g) + (PutU32(|ts| % U32_LIMIT) + PutTuples(ts))
  }

  /** `[len][type][payload]`; the length arithmetic is that of a 32-bit word. */
  function Encode(m: Message): (r: seq<byte>) {
    PutU32((1 + |Payload(m)| % U32_LIMIT) % U32_LIMIT) + ([TypeByte(m)] + Payload(m))
  }

  /** Type byte plus payload within the cap: what `read_frame` checks. */
  predicate InCap(m: Message) { 1 + |Payload(m)| <= MAX_FRAME }

  // ----- Parsing: a value and the bytes left, or nothing -----

  type Parsed<T> = Option<(T, seq<byte>)>

  function Value(b: seq<byte>): (v: nat) {
    if b == [] then 0 else b[0] + 256 * Value(b[1..])
  }

  function Take(n: nat, b: seq<byte>): (r: Parsed<seq<byte>>) {
    if n > |b| then None else Some((b[..n], b[n..]))
  }

  function GetU16(b: seq<byte>): (r: Parsed<u16>) {
    if |b| < 2 then None else ValueBound(b[..2]); Some((Value(b[..2]), b[2..]))
  }

  function GetU32(b: seq<byte>): (r: Parsed<u32>) {
    if |b| < 4 then None else ValueBound(b[..4]); Some((Value(b[..4]), b[4..]))
  }

  function GetU64(b: seq<byte>): (r: Parsed<u64>) {
    if |b| < 8 then None else ValueBound(b[..8]); Some((Value(b[..8]), b[8..]))
  }

  function GetStr(b: seq<byte>): (r: Parsed<Utf8>) {
    var (n, rest) :- GetU32(b);
    if n > |rest| || !ValidUtf8(rest[..n]) then None else Some((rest[..n], rest[n..]))
  }

  function GetLayout(b: seq<byte>): (r: Parsed<(u32, u32, Utf8)>) {
    var (elemSize, b1) :- GetU32(b);
    var (elemAlign, b2) :- GetU32(b1);
    var (elemType, b3) :- GetStr(b2);
    Some(((elemSize, elemAlign, elemType), b3))
  }

  function GetRegion(b: seq<byte>): (r: Parsed<RegionDesc>) {
    var (id, b1) :- GetU32(b);
    var (name, b2) :- GetStr(b1);
    var (size, b3) :- GetU64(b2);
    var (l, b4) :- GetLayout(b3);
    Some((RegionDesc(id, name, size, l.0, l.1, l.2), b4))
  }

  function GetTuple(b: seq<byte>): (r: Parsed<TupleDesc>) {
    var (id, b1) :- GetU32(b);
    var (addr, b2) :- GetU64(b1);
    var (size, b3) :- GetU64(b2);
    var (rkey, b4) :- GetU32(b3);
    Some((TupleDesc(id, addr, size, rkey), b4))
  }

  /** `xs` in front of whatever list was parsed next. */
  function Prepend<T>(xs: seq<T>, p: Parsed<seq<T>>): (r: Parsed<seq<T>>) {
    var (ys, rest) :- p;
    Some((xs + ys, rest))
  }

  function GetRegions(count: nat, b: seq<byte>): (r: Parsed<seq<RegionDesc>>) {
    if count == 0 then Some(([], b))
    else
      var (r, rest) :- GetRegion(b);
      Prepend([r], GetRegions(count - 1, rest))
  }

  function GetTuples(count: nat, b: seq<byte>): (r: Parsed<seq<TupleDesc>>) {
    if count == 0 then Some(([], b))
    else
      var (t, rest) :- GetTuple(b);
      Prepend([t], GetTuples(count - 1, rest))
  }

  /** How many descriptors parse, one after the other, before the first that does not. */
  function CompletedRegions(count: nat, b: seq<byte>): (n: nat)
    decreases count
  {
    if count == 0 then 0
    else match GetRegion(b)
      case None => 0
      case Some((_, rest)) => 1 + CompletedRegions(count - 1, rest)
  }

  function CompletedTuples(count: nat, b: seq<byte>): (n: nat)
    decreases count
  {
    if count == 0 then 0
    else match GetTuple(b)
      case None => 0
      case Some((_, rest)) => 1 + CompletedTuples(count - 1, rest)
  }

  /** The list elements that decoding a payload completes, whether it then succeeds or fails. */
  function Completed(ty: byte, payload: seq<byte>): (n: nat) {
    if ty == MSG_METADATA then
      match GetU32(payload) case None => 0 case Some((count, b)) => CompletedRegions(count, b)
    else if ty == MSG_TUPLES then
      match GetU32(payload) case None => 0 case Some((_, b)) =>
      match GetU32(b) case None => 0 case Some((count, c)) => CompletedTuples(count, c)
    else 0
  }

  function GetBody(ty: byte, b: seq<byte>): (r: Parsed<Message>) {
    if ty == MSG_HELLO then
      var (v, rest) :- GetU16(b);
      Some((Hello(v), rest))
    else if ty == MSG_WELCOME then
      var (v, rest) :- GetU16(b);
      Some((Welcome(v), rest))
    else if ty == MSG_WANT_GROUP then
      var (g, rest) :- GetU32(b);
      Some((WantGroup(g), rest))
    else if ty == MSG_UPDATE then Some((Update, b))
    else if ty == MSG_METADATA then
      var (n, b1) :- GetU32(b);
      var (rs, rest) :- GetRegions(n, b1);
      Some((Metadata(rs), rest))
    else if ty == MSG_TUPLES then
      var (g, b1) :- GetU32(b);
      var (n, b2) :- GetU32(b1);
      var (ts, rest) :- GetTuples(n, b2);
      Some((Tuples(g, ts), rest))
    else None
  }

  /** The payload must be consumed exactly; every refusal is a protocol violation. */
  function Decode(ty: byte, payload: seq<byte>): (r: Result<Message, IoError>) {
    match GetBody(ty, payload)
    case Some((m, rest)) => if rest == [] then Ok(m) else Err(InvalidData)
    case None => Err(InvalidData)
  }

  /** One frame off the front of a byte stream: the message and the bytes after it. */
  function ReadFrame(stream: seq<byte>): (r: Result<(Message, seq<byte>), IoError>) {
    if |stream| < 5 then Err(UnexpectedEof)
    else
      var len := GetU32(stream).value.0;
      if len == 0 || len > MAX_FRAME then Err(InvalidData)
      else if |stream| < 4 + len then Err(UnexpectedEof)
      else match Decode(stream[4], stream[5..4 + len])
        case Ok(m) => Ok((m, stream[4 + len..]))
        case Err(e) => Err(e)
  }

  // ----- Little-endian integers are a bijection -----

  function Pow256(n: nat): (r: nat) { if n == 0 then 1 else 256 * Pow256(n - 1) }

  lemma PowerValues()
    ensures Pow256(2) == U16_LIMIT && Pow256(4) == U32_LIMIT && Pow256(8) == U64_LIMIT
  {
    assert Pow256(4) == 256 * (256 * (256 * (256 * Pow256(0))));
    assert Pow256(8) == 256 * (256 * (256 * (256 * Pow256(4))));
  }

  lemma {:induction false} ValueInRange(b: seq<byte>)
    ensures Value(b) < Pow256(|b|)
  {
    if b != [] { ValueInRange(b[1..]); }
  }

  lemma ValueBound(b: seq<byte>)
    ensures |b| == 2 ==> Value(b) < U16_LIMIT
    ensures |b| == 4 ==> Value(b) < U32_LIMIT
    ensures |b| == 8 ==> Value(b) < U64_LIMIT
  {
    ValueInRange(b);
    PowerValues();
  }

  lemma {:induction false} ValueOfLittleEndian(v: nat, n: nat)
    requires v < Pow256(n)
    ensures Value(LittleEndian(v, n)) == v
  {
    if n > 0 {
      assert LittleEndian(v, n)[1..] == LittleEndian(v / 256, n - 1);
      ValueOfLittleEndian(v / 256, n - 1);
    }
  }

  lemma LowByte(low: byte, high: nat)
    ensures (low + 256 * high) % 256 == low && (low + 256 * high) / 256 == high
  {}

  lemma {:induction false} LittleEndianOfValue(b: seq<byte>)
    ensures LittleEndian(Value(b), |b|) == b
  {
    if b != [] {
      LowByte(b[0], Value(b[1..]));
      LittleEndianOfValue(b[1..]);
    }
  }

  // ----- Parsing what was printed -----

  lemma SplitAt(a: seq<byte>, t: seq<byte>)
    ensures (a + t)[..|a|] == a && (a + t)[|a|..] == t
  {}

  lemma ReadU16(v: u16, t: seq<byte>)
    ensures GetU16(LittleEndian(v, 2) + t) == Some((v, t))
  {
    PowerValues(); ValueOfLittleEndian(v, 2); SplitAt(LittleEndian(v, 2), t);
  }

  lemma ReadU32(v: u32, t: seq<byte>)
    ensures GetU32(PutU32(v) + t) == Some((v, t))
  {
    PowerValues(); ValueOfLittleEndian(v, 4); SplitAt(PutU32(v), t);
  }

  lemma ReadU64(v: u64, t: seq<byte>)
    ensures GetU64(LittleEndian(v, 8) + t) == Some((v, t))
  {
    PowerValues(); ValueOfLittleEndian(v, 8); SplitAt(LittleEndian(v, 8), t);
  }

  lemma ReadStr(s: Utf8, t: seq<byte>)
    requires |s| < U32_LIMIT
    ensures GetStr(PutStr(s) + t) == Some((s, t))
  {
    hide LittleEndian, Value;
    assert PutStr(s) + t == PutU32(|s|) + (s + t);
    ReadU32(|s|, s + t);
    SplitAt(s, t);
  }

  lemma ReadLayout(elemSize: u32, elemAlign: u32, elemType: Utf8, t: seq<byte>)
    requires |elemType| < U32_LIMIT
    ensures GetLayout(PutLayout(elemSize, elemAlign, elemType) + t) == Some(((elemSize, elemAlign, elemType), t))
  {
    hide LittleEndian, Value, ValidUtf8;
    var b := PutStr(elemType) + t;
    var a := PutU32(elemAlign) + b;
    assert PutLayout(elemSize, elemAlign, elemType) + t == PutU32(elemSize) + a;
    ReadU32(elemSize, a); ReadU32(elemAlign, b); ReadStr(elemType, t);
  }

  lemma RegionSize(r: RegionDesc)
    ensures |PutRegion(r)| == 28 + |r.name| + |r.elemType|
  {}

  lemma ReadRegion(r: RegionDesc, t: seq<byte>)
    requires |r.name| < U32_LIMIT && |r.elemType| < U32_LIMIT
    ensures GetRegion(PutRegion(r) + t) == Some((r, t))
  {
    hide LittleEndian, Value, ValidUtf8;
    var c := PutLayout(r.elemSize, r.elemAlign, r.elemType) + t;
    var b := LittleEndian(r.size, 8) + c;
    var a := PutStr(r.name) + b;
    assert PutRegion(r) + t == PutU32(r.id) + a;
    ReadU32(r.id, a); ReadStr(r.name, b); ReadU64(r.size, c);
    ReadLayout(r.elemSize, r.elemAlign, r.elemType, t);
  }

  lemma ReadTuple(u: TupleDesc, t: seq<byte>)
    ensures GetTuple(PutTuple(u) + t) == Some((u, t))
  {
    hide LittleEndian, Value, ValidUtf8;
    var c := PutU32(u.rkey) + t;
    var b := LittleEndian(u.size, 8) + c;
    var a := LittleEndian(u.remoteAddr, 8) + b;
    assert PutTuple(u) + t == PutU32(u.regionId) + a;
    ReadU32(u.regionId, a); ReadU64(u.remoteAddr, b); ReadU64(u.size, c); ReadU32(u.rkey, t);
  }

  lemma {:induction false} ReadRegions(rs: seq<RegionDesc>, t: seq<byte>)
    requires |PutRegions(rs)| < U32_LIMIT
    ensures |rs| <= |PutRegions(rs)|
    ensures GetRegions(|rs|, PutRegions(rs) + t) == Some((rs, t))
  {
    hide PutRegion, GetRegion;
    if rs == [] {
      assert [] + t == t;
    } else {
      assert PutRegions(rs) + t == PutRegion(rs[0]) + (PutRegions(rs[1..]) + t);
      RegionSize(rs[0]);
      ReadRegion(rs[0], PutRegions(rs[1..]) + t);
      ReadRegions(rs[1..], t);
      assert [rs[0]] + rs[1..] == rs;
    }
  }

  lemma {:induction false} ReadTuples(ts: seq<TupleDesc>, t: seq<byte>)
    ensures |PutTuples(ts)| == 24 * |ts|
    ensures GetTuples(|ts|, PutTuples(ts) + t) == Some((ts, t))
  {
    hide PutTuple, GetTuple;
    if ts == [] {
      assert [] + t == t;
    } else {
      assert PutTuples(ts) + t == PutTuple(ts[0]) + (PutTuples(ts[1..]) + t);
      ReadTuple(ts[0], PutTuples(ts[1..]) + t);
      ReadTuples(ts[1..], t);
      assert [ts[0]] + ts[1..] == ts;
    }
  }

  lemma ReadMetadata(rs: seq<RegionDesc>)
    requires InCap(Metadata(rs))
    ensures GetBody(MSG_METADATA, Payload(Metadata(rs))) == Some((Metadata(rs), []))
  {
    hide GetRegions, PutRegions, LittleEndian, Value;
    ReadRegions(rs, []);
    assert PutRegions(rs) + [] == PutRegions(rs);
    ReadU32(|rs|, PutRegions(rs));
  }

  lemma ReadTuplesMessage(g: u32, ts: seq<TupleDesc>)
    requires InCap(Tuples(g, ts))
    ensures GetBody(MSG_TUPLES, Payload(Tuples(g, ts))) == Some((Tuples(g, ts), []))
  {
    hide GetTuples, PutTuples, LittleEndian, Value;
    ReadTuples(ts, []);
    assert PutTuples(ts) + [] == PutTuples(ts);
    ReadU32(g, PutU32(|ts|) + PutTuples(ts));
    ReadU32(|ts|, PutTuples(ts));
  }

  /** Every message whose frame is within the cap decodes back from its own payload. */
  lemma DecodePrinted(m: Message)
    requires InCap(m)
    ensures Decode(TypeByte(m), Payload(m)) == Ok(m)
  {
    match m
    case Hello(v) => ReadU16(v, []); assert Payload(m) + [] == Payload(m);
    case Welcome(v) => ReadU16(v, []); assert Payload(m) + [] == Payload(m);
    case WantGroup(g) => ReadU32(g, []); assert Payload(m) + [] == Payload(m);
    case Update =>
    case Metadata(rs) => ReadMetadata(rs);
    case Tuples(g, ts) => ReadTuplesMessage(g, ts);
  }

  // ----- Printing what was parsed -----

  lemma PrintU16(b: seq<byte>)
    ensures GetU16(b).Some? ==> b == LittleEndian(GetU16(b).value.0, 2) + GetU16(b).value.1
  {
    if |b| >= 2 { LittleEndianOfValue(b[..2]); }
  }

  lemma PrintU32(b: seq<byte>)
    ensures GetU32(b).Some? ==> b == PutU32(GetU32(b).value.0) + GetU32(b).value.1
  {
    if |b| >= 4 { LittleEndianOfValue(b[..4]); }
  }

  lemma PrintU64(b: seq<byte>)
    ensures GetU64(b).Some? ==> b == LittleEndian(GetU64(b).value.0, 8) + GetU64(b).value.1
  {
    if |b| >= 8 { LittleEndianOfValue(b[..8]); }
  }

  lemma PrintStr(b: seq<byte>)
    ensures GetStr(b).Some? ==>
      var (s, rest) := GetStr(b).value; |s| < U32_LIMIT && b == PutStr(s) + rest
  {
    hide LittleEndian, Value;
    if GetStr(b).Some? {
      PrintU32(b);
      var (n, rest) := GetU32(b).value;
      assert rest == rest[..n] + rest[n..];
      assert b == PutU32(n) + (rest[..n] + rest[n..]);
    }
  }

  lemma PrintLayout(b: seq<byte>)
    ensures GetLayout(b).Some? ==>
      var (l, rest) := GetLayout(b).value; b == PutLayout(l.0, l.1, l.2) + rest
  {
    hide LittleEndian, Value, ValidUtf8;
    if GetLayout(b).Some? {
      PrintU32(b);
      var (elemSize, b1) := GetU32(b).value;
      PrintU32(b1);
      var (elemAlign, b2) := GetU32(b1).value;
      PrintStr(b2);
      var (elemType, b3) := GetStr(b2).value;
      assert b == PutU32(elemSize) + (PutU32(elemAlign) + (PutStr(elemType) + b3));
    }
  }

  lemma PrintRegion(b: seq<byte>)
    ensures GetRegion(b).Some? ==>
      var (r, rest) := GetRegion(b).value; b == PutRegion(r) + rest && 28 <= |PutRegion(r)|
  {
    hide GetU32, GetU64, GetStr, GetLayout, PutU32, PutStr, PutLayout, LittleEndian, ValidUtf8;
    if GetRegion(b).Some? {
      PrintU32(b);
      var (id, b1) := GetU32(b).value;
      PrintStr(b1);
      var (name, b2) := GetStr(b1).value;
      PrintU64(b2);
      var (size, b3) := GetU64(b2).value;
      PrintLayout(b3);
      var (l, b4) := GetLayout(b3).value;
      Regroup(PutU32(id), PutStr(name), LittleEndian(size, 8), PutLayout(l.0, l.1, l.2), b4);
      RegionSize(RegionDesc(id, name, size, l.0, l.1, l.2));
    }
  }

  lemma Regroup(a: seq<byte>, b: seq<byte>, c: seq<byte>, d: seq<byte>, rest: seq<byte>)
    ensures a + (b + (c + (d + rest))) == (a + (b + (c + d))) + rest
  {}

  lemma PrintTuple(b: seq<byte>)
    ensures GetTuple(b).Some? ==>
      var (t, rest) := GetTuple(b).value; b == PutTuple(t) + rest
  {
    hide LittleEndian, Value, ValidUtf8;
    if GetTuple(b).Some? {
      PrintU32(b);
      var (id, b1) := GetU32(b).value;
      PrintU64(b1);
      var (addr, b2) := GetU64(b1).value;
      PrintU64(b2);
      var (size, b3) := GetU64(b2).value;
      PrintU32(b3);
      var (rkey, b4) := GetU32(b3).value;
      assert b == PutU32(id) + (LittleEndian(addr, 8) + (LittleEndian(size, 8) + (PutU32(rkey) + b4)));
      assert b == PutTuple(TupleDesc(id, addr, size, rkey)) + b4;
    }
  }

  lemma {:induction false} PrintRegions(count: nat, b: seq<byte>)
    ensures GetRegions(count, b).Some? ==>
      var (rs, rest) := GetRegions(count, b).value; |rs| == count && b == PutRegions(rs) + rest
    decreases count
  {
    hide PutRegion, GetRegion;
    if count > 0 && GetRegion(b).Some? {
      PrintRegion(b);
      var (r, b1) := GetRegion(b).value;
      PrintRegions(count - 1, b1);
      if GetRegions(count - 1, b1).Some? {
        var (rs, rest) := GetRegions(count - 1, b1).value;
        assert ([r] + rs)[1..] == rs;
        assert b == PutRegion(r) + (PutRegions(rs) + rest);
      }
    }
  }

  lemma {:induction false} PrintTuples(count: nat, b: seq<byte>)
    ensures GetTuples(count, b).Some? ==>
      var (ts, rest) := GetTuples(count, b).value; |ts| == count && b == PutTuples(ts) + rest
    decreases count
  {
    hide PutTuple, GetTuple;
    if count > 0 && GetTuple(b).Some? {
      PrintTuple(b);
      var (t, b1) := GetTuple(b).value;
      PrintTuples(count - 1, b1);
      if GetTuples(count - 1, b1).Some? {
        var (ts, rest) := GetTuples(count - 1, b1).value;
        assert ([t] + ts)[1..] == ts;
        assert b == PutTuple(t) + (PutTuples(ts) + rest);
      }
    }
  }

  /** Every descriptor completed has used up at least 28 bytes, whatever count was claimed. */
  lemma {:induction false} RegionsNeedBytes(count: nat, b: seq<byte>)
    ensures CompletedRegions(count, b) <= count && 28 * CompletedRegions(count, b) <= |b|
    ensures GetRegions(count, b).Some? <==> CompletedRegions(count, b) == count
    ensures GetRegions(count, b).Some? ==> |GetRegions(count, b).value.0| == count
    decreases count
  {
    hide GetRegion, PutRegion;
    if count > 0 && GetRegion(b).Some? {
      PrintRegion(b);
      RegionsNeedBytes(count - 1, GetRegion(b).value.1);
    }
  }

  lemma {:induction false} TuplesNeedBytes(count: nat, b: seq<byte>)
    ensures CompletedTuples(count, b) <= count && 24 * CompletedTuples(count, b) <= |b|
    ensures GetTuples(count, b).Some? <==> CompletedTuples(count, b) == count
    ensures GetTuples(count, b).Some? ==> |GetTuples(count, b).value.0| == count
    decreases count
  {
    hide GetTuple, PutTuple;
    if count > 0 && GetTuple(b).Some? {
      PrintTuple(b);
      TuplesNeedBytes(count - 1, GetTuple(b).value.1);
    }
  }

  /**
   For arbitrary bytes and any claimed count: decoding completes at most one descriptor per 28 bytes
   of payload, or one tuple per 24, before it succeeds or fails, and on success exactly the list.
   */
  lemma CompletedIsBounded(ty: byte, payload: seq<byte>)
    ensures ty == MSG_METADATA ==> Completed(ty, payload) <= |payload| / 28
    ensures ty == MSG_TUPLES ==> Completed(ty, payload) <= |payload| / 24
    ensures Decode(ty, payload).Ok? ==>
      match Decode(ty, payload).value
      case Metadata(rs) => Completed(ty, payload) == |rs|
      case Tuples(_, ts) => Completed(ty, payload) == |ts|
      case _ => Completed(ty, payload) == 0
  {
    hide GetRegions, GetTuples, CompletedRegions, CompletedTuples, Value;
    if ty == MSG_METADATA {
      if GetU32(payload).Some? {
        var (count, b) := GetU32(payload).value;
        RegionsNeedBytes(count, b);
      }
    } else if ty == MSG_TUPLES {
      if GetU32(payload).Some? && GetU32(GetU32(payload).value.1).Some? {
        var (count, b) := GetU32(GetU32(payload).value.1).value;
        TuplesNeedBytes(count, b);
      }
    }
  }

  lemma PrintMetadata(payload: seq<byte>)
    ensures Decode(MSG_METADATA, payload).Ok? ==> Payload(Decode(MSG_METADATA, payload).value) == payload
  {
    hide GetRegions, PutRegions, LittleEndian, Value;
    PrintU32(payload);
    if Decode(MSG_METADATA, payload).Ok? {
      var (n, b1) := GetU32(payload).value;
      PrintRegions(n, b1);
      var (rs, rest) := GetRegions(n, b1).value;
      assert PutRegions(rs) + [] == PutRegions(rs);
    }
  }

  lemma PrintTuplesMessage(payload: seq<byte>)
    ensures Decode(MSG_TUPLES, payload).Ok? ==> Payload(Decode(MSG_TUPLES, payload).value) == payload
  {
    hide GetTuples, PutTuples, LittleEndian, Value;
    PrintU32(payload);
    if Decode(MSG_TUPLES, payload).Ok? {
      var (_, b1) := GetU32(payload).value;
      PrintU32(b1);
      var (n, b2) := GetU32(b1).value;
      PrintTuples(n, b2);
      var (ts, rest) := GetTuples(n, b2).value;
      assert PutTuples(ts) + [] == PutTuples(ts);
    }
  }

  lemma PrintSmall(ty: byte, payload: seq<byte>)
    requires ty != MSG_METADATA && ty != MSG_TUPLES
    ensures Decode(ty, payload).Ok? ==> Payload(Decode(ty, payload).value) == payload
  {
    PrintU16(payload);
    PrintU32(payload);
  }

  /** Whatever `decode` accepts is exactly the printed form of what it returned. */
  lemma DecodeIsCanonical(ty: byte, payload: seq<byte>)
    ensures Decode(ty, payload).Ok? ==>
      TypeByte(Decode(ty, payload).value) == ty && Payload(Decode(ty, payload).value) == payload
  {
    if ty == MSG_METADATA {
      PrintMetadata(payload);
    } else if ty == MSG_TUPLES {
      PrintTuplesMessage(payload);
    } else {
      PrintSmall(ty, payload);
    }
  }

  /** No two payloads of one type decode to the same message. */
  lemma DecodeIsInjective(ty: byte, p: seq<byte>, q: seq<byte>)
    requires Decode(ty, p).Ok? && Decode(ty, p) == Decode(ty, q)
    ensures p == q
  {
    DecodeIsCanonical(ty, p);
    DecodeIsCanonical(ty, q);
  }

  // ----- Frames -----

  lemma EncodeShape(m: Message, t: seq<byte>)
    ensures |Encode(m)| == 5 + |Payload(m)|
    ensures GetU32(Encode(m) + t) ==
      Some(((1 + |Payload(m)| % U32_LIMIT) % U32_LIMIT, [TypeByte(m)] + Payload(m) + t))
    ensures Encode(m)[4] == TypeByte(m) && Encode(m)[5..] == Payload(m)
  {
    hide Payload, TypeByte, LittleEndian, Value;
    var len := (1 + |Payload(m)| % U32_LIMIT) % U32_LIMIT;
    assert Encode(m) + t == PutU32(len) + ([TypeByte(m)] + Payload(m) + t);
    ReadU32(len, [TypeByte(m)] + Payload(m) + t);
  }

  /** A frame in the cap is read back exactly, whatever follows it. */
  lemma ReadEncoded(m: Message, t: seq<byte>)
    requires InCap(m)
    ensures ReadFrame(Encode(m) + t) == Ok((m, t))
  {
    hide Payload, Decode, TypeByte, LittleEndian, Value, Encode, GetU32, InCap;
    EncodeShape(m, t);
    DecodePrinted(m);
    InCapIsShort(m);
    FrameParts(Encode(m), t);
  }

  lemma InCapIsShort(m: Message)
    requires InCap(m)
    ensures (1 + |Payload(m)| % U32_LIMIT) % U32_LIMIT == 1 + |Payload(m)| <= MAX_FRAME
  {
    hide Payload;
  }

  lemma FrameParts(frame: seq<byte>, t: seq<byte>)
    requires |frame| >= 5
    ensures (frame + t)[4] == frame[4] && (frame + t)[5..|frame|] == frame[5..] && (frame + t)[|frame|..] == t
  {}

  // ----- The cap bounds type byte plus payload, not the frame -----

  /** A frame that is read can be four bytes longer than the cap, and no more. */
  lemma FrameSize(m: Message)
    ensures InCap(m) <==> |Encode(m)| <= MAX_FRAME + 4
  {
    hide Payload, Encode;
    EncodeShape(m, []);
  }

  lemma {:induction false} ZerosAreUtf8(n: nat)
    ensures ValidUtf8(seq(n, i => 0))
  {
    if n > 0 {
      assert seq(n, i => 0)[1..] == seq(n - 1, i => 0);
      ZerosAreUtf8(n - 1);
    }
  }

  /** Header included, the documented reading of the limit, a frame over the cap is accepted all the same. */
  lemma HeaderIsNotCounted()
    ensures exists m :: InCap(m) && |Encode(m)| > MAX_FRAME && ReadFrame(Encode(m)) == Ok((m, []))
  {
    hide LittleEndian, Encode, ReadFrame;
    ZerosAreUtf8(MAX_FRAME - 33);
    var name: Utf8 := seq(MAX_FRAME - 33, i => 0);
    var r := RegionDesc(0, name, 0, 0, 0, []);
    var m := Metadata([r]);
    RegionSize(r);
    assert PutRegions([r]) == PutRegion(r) + PutRegions([]);
    assert 1 + |Payload(m)| == MAX_FRAME;
    EncodeShape(m, []);
    ReadEncoded(m, []);
    assert Encode(m) + [] == Encode(m);
  }

  /**
   Reading a message's encoding returns that message exactly when type byte plus
   payload fit the cap.  Beyond the cap, the narrowed length prefixes may well
   frame something acceptable, but never the message itself.
   */
  lemma RoundTripIffInCap(m: Message, t: seq<byte>)
    ensures InCap(m) <==> (ReadFrame(Encode(m) + t).Ok? && ReadFrame(Encode(m) + t).value.0 == m)
  {
    hide TypeByte, LittleEndian, Value, Decode, Encode;
    if InCap(m) {
      ReadEncoded(m, t);
    } else if ReadFrame(Encode(m) + t).Ok? {
      var s := Encode(m) + t;
      var len := GetU32(s).value.0;
      DecodeIsCanonical(s[4], s[5..4 + len]);
    }
  }
}
