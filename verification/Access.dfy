/**
 Bounds-checked accesses to a remote region (src/readers.rs) and what they do to the
 remote buffer: as bytes, and as elements of the type the region is shared as.
 What the device does during one call is a parameter of the call.
 */
module Access {
  import opened Common
  import opened Cache

  // ----- 64-bit saturating arithmetic and the bounds checks -----

  function SaturatingAdd(a: nat, b: nat): (r: nat) { if a + b < U64_LIMIT then a + b else U64_LIMIT - 1 }

  function SaturatingMul(a: nat, b: nat): (r: nat) { if a * b < U64_LIMIT then a * b else U64_LIMIT - 1 }

  predicate BytesFit(size: u64, offset: u64, len: u64) { SaturatingAdd(offset, len) <= size }

  /** `size_of_val` of a slice fits in a word, so only offset and sum saturate. */
  predicate ElementsFit(size: u64, offset: u64, elem: nat, count: nat)
  {
    SaturatingAdd(SaturatingMul(offset, elem), count * elem) <= size
  }

  /** The byte check is the unbounded-integer check, for every offset and length, iff size is below 2^64 - 1. */
  lemma ByteBoundsExact(size: u64)
    ensures (forall offset: u64, len: u64 :: BytesFit(size, offset, len) <==> offset + len <= size)
      <==> size < U64_LIMIT - 1
  {
    if size == U64_LIMIT - 1 {
      assert BytesFit(size, U64_LIMIT - 1, 1) && !((U64_LIMIT - 1) + 1 <= size);
    }
  }

  /** The same for the typed check, whatever the element size. */
  lemma ElementBoundsExact(size: u64, offset: u64, elem: nat, count: nat)
    requires size < U64_LIMIT - 1
    ensures ElementsFit(size, offset, elem, count) <==> offset * elem + count * elem <= size
  {}

  lemma ElementBoundsSaturate(size: u64)
    ensures (forall offset: u64, elem: nat, count: nat ::
        ElementsFit(size, offset, elem, count) <==> offset * elem + count * elem <= size)
      <==> size < U64_LIMIT - 1
  {
    if size < U64_LIMIT - 1 {
      forall offset: u64, elem: nat, count: nat
        ensures ElementsFit(size, offset, elem, count) <==> offset * elem + count * elem <= size
      {
        ElementBoundsExact(size, offset, elem, count);
      }
    } else {
      assert ElementsFit(size, U64_LIMIT - 1, 1, 1) && !((U64_LIMIT - 1) * 1 + 1 * 1 <= size);
    }
  }

  /** Once accepted, the address addition cannot wrap and the touched range lies inside the region. */
  lemma AcceptedRangeInside(base: u64, size: u64, offset: u64, elem: nat, count: nat)
    requires size < U64_LIMIT - 1 && base + size < U64_LIMIT
    requires ElementsFit(size, offset, elem, count)
    ensures SaturatingMul(offset, elem) == offset * elem
    ensures base + offset * elem < U64_LIMIT
    ensures base <= base + offset * elem <= base + offset * elem + count * elem <= base + size
  {
    ElementBoundsExact(size, offset, elem, count);
  }

  /** `is_multiple_of`. */
  predicate Aligned(addr: nat, align: nat)
    requires align > 0
  {
    addr % align == 0
  }

  lemma AlignedIffMultiple(addr: nat, align: nat)
    requires align > 0
    ensures Aligned(addr, align) <==> exists k: nat :: addr == k * align
  {
    if k: nat :| addr == k * align { RemainderUnique(addr, k, align, 0); }
    if addr % align == 0 { assert addr == (addr / align) * align; }
  }

  /** With an alignment that divides the element size, only the region's base decides the alignment check. */
  lemma AlignmentIsOfTheBase(base: nat, offset: nat, elem: nat, align: nat)
    requires align > 0 && elem % align == 0
    ensures Aligned(base + offset * elem, align) <==> Aligned(base, align)
  {
    var q := elem / align;
    assert offset * elem == (offset * q) * align;
    AddMultiple(base, offset * q, align);
  }

  lemma RemainderUnique(a: nat, q: nat, m: nat, r: nat)
    requires r < m && a == q * m + r
    ensures a % m == r
  {
    assert a == (a / m) * m + a % m;
    MulStep(a / m, q, m);
    MulStep(q, a / m, m);
  }

  lemma MulStep(x: nat, y: nat, m: nat)
    ensures x < y ==> x * m + m <= y * m
  {
    if x < y {
      var d: nat := y - x - 1;
      assert y * m == (x + 1 + d) * m == x * m + m + d * m;
    }
  }

  lemma AddMultiple(x: nat, k: nat, m: nat)
    requires m > 0
    ensures (x + k * m) % m == x % m
  {
    assert x + k * m == (x / m + k) * m + x % m;
    RemainderUnique(x + k * m, x / m + k, m, x % m);
  }

  // ----- A buffer seen as elements -----

  function Elements(b: seq<byte>, elem: nat): (r: seq<seq<byte>>)
    requires elem > 0
  {
    if |b| < elem then [] else [b[..elem]] + Elements(b[elem..], elem)
  }

  function Flatten(xs: seq<seq<byte>>): (r: seq<byte>) {
    if xs == [] then [] else xs[0] + Flatten(xs[1..])
  }

  ghost predicate AllOfSize(xs: seq<seq<byte>>, elem: nat) { forall i :: 0 <= i < |xs| ==> |xs[i]| == elem }

  lemma {:induction false} FlattenLength(xs: seq<seq<byte>>, elem: nat)
    requires AllOfSize(xs, elem)
    ensures |Flatten(xs)| == |xs| * elem
  {
    if xs != [] { FlattenLength(xs[1..], elem); }
  }

  lemma {:induction false} ElementsOfFlatten(xs: seq<seq<byte>>, elem: nat)
    requires elem > 0 && AllOfSize(xs, elem)
    ensures Elements(Flatten(xs), elem) == xs
  {
    if xs != [] {
      ElementsOfFlatten(xs[1..], elem);
      assert Flatten(xs)[..elem] == xs[0] && Flatten(xs)[elem..] == Flatten(xs[1..]);
    }
  }

  /** Cutting a buffer at an element boundary cuts its elements. */
  lemma {:induction false} ElementsSplit(b: seq<byte>, k: nat, elem: nat, cut: nat)
    requires elem > 0 && cut == k * elem <= |b|
    ensures |Elements(b[..cut], elem)| == k
    ensures Elements(b, elem) == Elements(b[..cut], elem) + Elements(b[cut..], elem)
  {
    if k > 0 {
      assert cut - elem == (k - 1) * elem;
      assert (k - 1) * elem >= 0;
      ElementsSplit(b[elem..], k - 1, elem, cut - elem);
      assert b[..cut][..elem] == b[..elem];
      assert b[..cut][elem..] == b[elem..][..cut - elem];
      assert b[elem..][cut - elem..] == b[cut..];
    }
  }

  // ----- The remote buffer and the device -----

  /** `len` bytes of `mem` from `at` replaced by `data`. */
  function Overwrite(mem: seq<byte>, at: nat, data: seq<byte>): (r: seq<byte>)
    requires at + |data| <= |mem|
    ensures |r| == |mem|
  {
    mem[..at] + data + mem[at + |data|..]
  }

  /** The machine sharing the buffer: a registration of `mem` at `base` in domain `pd`, reached with `rkey`. */
  class Host {
    const base: nat
    const pd: nat
    const rkey: u32
    var mem: seq<byte>

    constructor (base: nat, pd: nat, rkey: u32, content: seq<byte>)
      ensures this.base == base && this.pd == pd && this.rkey == rkey && mem == content
    {
      this.base, this.pd, this.rkey, this.mem := base, pd, rkey, content;
    }

    /** The remote side's own check of an access that comes in through domain `via`. */
    predicate Grants(via: nat, addr: nat, len: nat, key: u32)
      reads this
    {
      via == pd && key == rkey && base <= addr && addr + len <= base + |mem|
    }

    /** The region the reader looked up is this registration. */
    ghost predicate Serves(region: CachedRegion)
      reads this
    {
      region.remoteAddr == base && region.rkey == rkey && region.size == |mem| &&
      |mem| < U64_LIMIT - 1 && base + |mem| < U64_LIMIT
    }
  }

  datatype AccessError = InvalidInput | NoConnection | DeviceError

  /**
   One call's luck: whether the slot holds a connection and in which domain its remote end lives,
   whether the buffer registers, whether the completion arrives with success, and, when it does not,
   how many bytes were transferred all the same.
   */
  datatype Device = Device(connected: bool, via: nat, registers: bool, completes: bool, landed: nat) {
    /** The bytes transferred of `len` posted. */
    function Done(len: nat): (n: nat)
      ensures n <= len && (completes ==> n == len) && (!completes && landed <= len ==> n == landed)
    {
      if completes || len < landed then len else landed
    }
  }

  /** What the scatter entry carries of a length: its low 32 bits. */
  function Narrowed(len: nat): (n: nat)
    ensures n <= len && n < U32_LIMIT && (len - n) % U32_LIMIT == 0
  {
    len % U32_LIMIT
  }

  /** Connection slot, registration of the local buffer, and the post, in this order. */
  function Attempt(dev: Device, len: nat, granted: bool): (r: Result<bool, AccessError>) {
    if !dev.connected then Err(NoConnection)
    else if len == 0 then Err(InvalidInput)
    else if !dev.registers then Err(DeviceError)
    else if !granted then Err(DeviceError)
    else Ok(dev.completes)
  }

  /** The shared tail of both writes. */
  method PostWrite(host: Host, addr: u64, rkey: u32, data: seq<byte>, dev: Device) returns (r: Result<(), AccessError>)
    modifies host
    ensures
      match Attempt(dev, |data|, old(host.Grants(dev.via, addr, Narrowed(|data|), rkey)))
      case Err(e) => r == Err(e) && host.mem == old(host.mem)
      case Ok(done) =>
        r == (if done then Ok(()) else Err(DeviceError)) &&
        host.mem == Overwrite(old(host.mem), addr - host.base, data[..dev.Done(Narrowed(|data|))])
  {
    if !dev.connected { return Err(NoConnection); }
    if |data| == 0 { return Err(InvalidInput); }
    if !dev.registers { return Err(DeviceError); }
    var len := |data| % U32_LIMIT;
    if !host.Grants(dev.via, addr, len, rkey) { return Err(DeviceError); }
    var done := dev.Done(len);
    host.mem := host.mem[..addr - host.base] + data[..done] + host.mem[addr - host.base + done..];
    r := if dev.completes then Ok(()) else Err(DeviceError);
  }

  /** The shared tail of both reads: the device fills the front of `buf`. */
  method PostRead(host: Host, addr: u64, rkey: u32, buf: array<byte>, len: nat, dev: Device)
    returns (r: Result<(), AccessError>)
    requires len <= buf.Length
    modifies buf
    ensures
      match Attempt(dev, len, host.Grants(dev.via, addr, Narrowed(len), rkey))
      case Err(e) => r == Err(e) && buf[..] == old(buf[..])
      case Ok(done) =>
        r == (if done then Ok(()) else Err(DeviceError)) &&
        buf[..] == Overwrite(old(buf[..]), 0, host.mem[addr - host.base..][..dev.Done(Narrowed(len))])
  {
    if !dev.connected { return Err(NoConnection); }
    if len == 0 { return Err(InvalidInput); }
    if !dev.registers { return Err(DeviceError); }
    var n := len % U32_LIMIT;
    if !host.Grants(dev.via, addr, n, rkey) { return Err(DeviceError); }
    var i, done := 0, dev.Done(n);
    while i < done
      invariant 0 <= i <= done
      invariant forall j :: 0 <= j < i ==> buf[j] == host.mem[addr - host.base + j]
      invariant forall j :: i <= j < buf.Length ==> buf[j] == old(buf[j])
    {
      buf[i] := host.mem[addr - host.base + i];
      i := i + 1;
    }
    r := if dev.completes then Ok(()) else Err(DeviceError);
  }

  /** `write`: on success a slice update of the remote bytes; a refused call changes nothing. */
  method Write(region: CachedRegion, host: Host, offset: u64, data: seq<byte>, dev: Device)
    returns (r: Result<(), AccessError>)
    requires |data| < U64_LIMIT
    modifies host
    ensures !BytesFit(region.size, offset, |data|) ==> r == Err(InvalidInput)
    ensures old(host.Serves(region)) ==>
      (r == Err(InvalidInput) <==> offset + |data| > region.size || (dev.connected && |data| == 0)) &&
      (r == Err(NoConnection) <==> offset + |data| <= region.size && !dev.connected)
    ensures old(host.Serves(region)) && r.Ok? ==>
      0 < |data| && offset + |data| <= region.size &&
      host.mem == Overwrite(old(host.mem), offset, data[..Narrowed(|data|)])
    ensures r.Err? && r.error != DeviceError ==> host.mem == old(host.mem)
    ensures old(host.Serves(region)) && host.mem != old(host.mem) ==>
      offset + |data| <= region.size && host.mem == Overwrite(old(host.mem), offset, data[..dev.Done(Narrowed(|data|))])
    ensures old(host.Serves(region)) ==>
      (r.Ok? <==> 0 < |data| && offset + |data| <= region.size && dev.connected && dev.via == host.pd &&
                  dev.registers && dev.completes)
  {
    if SaturatingAdd(offset, |data|) > region.size { return Err(InvalidInput); }
    r := PostWrite(host, (region.remoteAddr + offset) % U64_LIMIT, region.rkey, data, dev);
  }

  /** `read_into`: on success the first `len` bytes of `buf` are the remote slice, the others untouched. */
  method ReadInto(region: CachedRegion, host: Host, offset: u64, len: u64, buf: array<byte>, dev: Device)
    returns (r: Result<(), AccessError>)
    modifies buf
    ensures len > buf.Length || !BytesFit(region.size, offset, len) ==> r == Err(InvalidInput)
    ensures host.Serves(region) ==>
      (r == Err(InvalidInput) <==> len > buf.Length || offset + len > region.size || (dev.connected && len == 0)) &&
      (r == Err(NoConnection) <==> len <= buf.Length && offset + len <= region.size && !dev.connected)
    ensures host.Serves(region) && r.Ok? ==>
      0 < len <= buf.Length && offset + len <= region.size &&
      buf[..] == Overwrite(old(buf[..]), 0, host.mem[offset..][..Narrowed(len)])
    ensures r.Err? && r.error != DeviceError ==> buf[..] == old(buf[..])
    ensures host.Serves(region) && buf[..] != old(buf[..]) ==>
      len <= buf.Length && offset + len <= region.size &&
      buf[..] == Overwrite(old(buf[..]), 0, host.mem[offset..][..dev.Done(Narrowed(len))])
    ensures host.Serves(region) ==>
      (r.Ok? <==> 0 < len <= buf.Length && offset + len <= region.size && dev.connected && dev.via == host.pd &&
                  dev.registers && dev.completes)
  {
    if len > buf.Length { return Err(InvalidInput); }
    if SaturatingAdd(offset, len) > region.size { return Err(InvalidInput); }
    r := PostRead(host, (region.remoteAddr + offset) % U64_LIMIT, region.rkey, buf, len, dev);
  }

  /** `check_elem`: sizes are compared after narrowing to 32 bits. */
  predicate SameLayout(region: CachedRegion, elem: nat, align: nat) {
    elem % U32_LIMIT == region.elemSize && align % U32_LIMIT == region.elemAlign
  }

  /** The checks shared by both typed accesses, once the offset is scaled. */
  predicate Reachable(region: CachedRegion, byteOffset: u64, len: u64, align: nat)
    requires align > 0
  {
    BytesFit(region.size, byteOffset, len) && Aligned((region.remoteAddr + byteOffset) % U64_LIMIT, align)
  }

  /** What the layout, bounds and alignment checks come to, over unbounded integers. */
  lemma TypedChecks(region: CachedRegion, offset: u64, elem: nat, align: nat, count: nat, len: u64)
    requires align > 0 && len == count * elem
    requires region.size < U64_LIMIT - 1 && region.remoteAddr + region.size < U64_LIMIT
    ensures Reachable(region, SaturatingMul(offset, elem), len, align) ==>
      SaturatingMul(offset, elem) == offset * elem && offset * elem + len <= region.size &&
      Aligned(region.remoteAddr + offset * elem, align)
    ensures elem % align == 0 ==>
      (Reachable(region, SaturatingMul(offset, elem), len, align) <==>
       offset * elem + len <= region.size && Aligned(region.remoteAddr, align))
  {
    ElementBoundsExact(region.size, offset, elem, count);
    var at := SaturatingMul(offset, elem);
    assert BytesFit(region.size, at, len) == ElementsFit(region.size, offset, elem, count);
    if BytesFit(region.size, at, len) {
      assert at == offset * elem;
      if elem % align == 0 { AlignmentIsOfTheBase(region.remoteAddr, offset, elem, align); }
      hide Aligned;
      assert (region.remoteAddr + at) % U64_LIMIT == region.remoteAddr + at;
    }
  }

  /** `write_typed` after its layout check, at a scaled offset. */
  method WriteScaled(region: CachedRegion, host: Host, byteOffset: u64, align: nat, data: seq<byte>, dev: Device)
    returns (r: Result<(), AccessError>)
    requires align > 0 && |data| < U64_LIMIT
    modifies host
    ensures !Reachable(region, byteOffset, |data|, align) ==> r == Err(InvalidInput)
    ensures r.Err? && r.error != DeviceError ==> host.mem == old(host.mem)
    ensures old(host.Serves(region)) && r.Ok? ==>
      0 < |data| && byteOffset + |data| <= region.size &&
      host.mem == Overwrite(old(host.mem), byteOffset, data[..Narrowed(|data|)])
    ensures old(host.Serves(region)) && host.mem != old(host.mem) ==>
      Reachable(region, byteOffset, |data|, align) && byteOffset + |data| <= region.size &&
      host.mem == Overwrite(old(host.mem), byteOffset, data[..dev.Done(Narrowed(|data|))])
    ensures old(host.Serves(region)) ==>
      (r == Err(NoConnection) <==> Reachable(region, byteOffset, |data|, align) && !dev.connected) &&
      (r == Err(InvalidInput) <==> !Reachable(region, byteOffset, |data|, align) || (dev.connected && |data| == 0)) &&
      (r.Ok? <==> |data| > 0 && Reachable(region, byteOffset, |data|, align) && dev.connected && dev.via == host.pd &&
                  dev.registers && dev.completes)
  {
    hide Aligned, Overwrite;
    if SaturatingAdd(byteOffset, |data|) > region.size { return Err(InvalidInput); }
    var addr := (region.remoteAddr + byteOffset) % U64_LIMIT;
    if !Aligned(addr, align) { return Err(InvalidInput); }
    r := PostWrite(host, addr, region.rkey, data, dev);
  }

  /**
   `write_typed`: on success, for under 2^32 bytes, exactly a slice update of the remote buffer seen
   as elements, which is the byte write at the scaled offset.
   */
  method WriteTyped(region: CachedRegion, host: Host, offset: u64, elem: nat, align: nat, xs: seq<seq<byte>>,
                    dev: Device)
    returns (r: Result<(), AccessError>)
    requires align > 0 && AllOfSize(xs, elem) && |xs| * elem < U64_LIMIT
    modifies host
    ensures !ElementsFit(region.size, offset, elem, |xs|) ==> r == Err(InvalidInput)
    ensures r.Err? && r.error != DeviceError ==> host.mem == old(host.mem)
    ensures old(host.Serves(region)) && r.Ok? && |xs| * elem < U32_LIMIT ==>
      elem > 0 && offset * elem + |xs| * elem <= region.size && |Flatten(xs)| == |xs| * elem &&
      host.mem == Overwrite(old(host.mem), offset * elem, Flatten(xs)) &&
      offset + |xs| <= |Elements(old(host.mem), elem)| &&
      Elements(host.mem, elem) ==
        Elements(old(host.mem), elem)[..offset] + xs + Elements(old(host.mem), elem)[offset + |xs|..]
    ensures old(host.Serves(region)) && host.mem != old(host.mem) ==>
      |Flatten(xs)| == |xs| * elem && offset * elem + |xs| * elem <= region.size &&
      host.mem == Overwrite(old(host.mem), offset * elem, Flatten(xs)[..dev.Done(Narrowed(|xs| * elem))])
    ensures elem % U32_LIMIT != region.elemSize || align % U32_LIMIT != region.elemAlign ==>
      r == Err(InvalidInput) && host.mem == old(host.mem)
    ensures old(host.Serves(region)) && r.Ok? ==> Aligned(region.remoteAddr + offset * elem, align)
    ensures old(host.Serves(region)) && elem % align == 0 ==>
      (r.Ok? <==> elem % U32_LIMIT == region.elemSize && align % U32_LIMIT == region.elemAlign &&
                  offset * elem + |xs| * elem <= region.size && Aligned(region.remoteAddr, align) &&
                  |xs| * elem > 0 && dev.connected && dev.via == host.pd && dev.registers && dev.completes)
  {
    hide Overwrite, Elements, Flatten, Reachable, SaturatingMul, Aligned;
    if !SameLayout(region, elem, align) { return Err(InvalidInput); }
    FlattenLength(xs, elem);
    var data := Flatten(xs);
    ghost var len := |data|;
    ScaleInWord(offset, elem);
    if Reachable(region, SaturatingMul(offset, elem), len, align) { ScaledFit(region, offset, elem, align, |xs|, len); }
    if host.Serves(region) { TypedChecks(region, offset, elem, align, |xs|, len); }
    ghost var before := host.mem;
    r := WriteScaled(region, host, SaturatingMul(offset, elem), align, data, dev);
    if old(host.Serves(region)) && r.Ok? && len < U32_LIMIT {
      assert data[..Narrowed(len)] == data;
      ZeroProduct(|xs|, elem);
      WholeElements(before, offset, xs, elem, offset * elem, len);
    }
  }

  lemma ScaleInWord(offset: nat, elem: nat)
    ensures SaturatingMul(offset, elem) < U64_LIMIT
  {}

  lemma ScaledFit(region: CachedRegion, offset: u64, elem: nat, align: nat, count: nat, len: u64)
    requires align > 0 && len == count * elem && Reachable(region, SaturatingMul(offset, elem), len, align)
    ensures ElementsFit(region.size, offset, elem, count)
  {}

  lemma ZeroProduct(a: nat, b: nat)
    ensures a * b > 0 ==> b > 0
  {}

  /** A byte overwrite at element boundaries is an element slice update. */
  lemma WholeElements(mem: seq<byte>, offset: nat, xs: seq<seq<byte>>, elem: nat, o: nat, n: nat)
    requires elem > 0 && AllOfSize(xs, elem) && o == offset * elem && n == |xs| * elem && o + n <= |mem|
    ensures |Flatten(xs)| == n && offset + |xs| <= |Elements(mem, elem)|
    ensures Elements(Overwrite(mem, o, Flatten(xs)), elem) ==
      Elements(mem, elem)[..offset] + xs + Elements(mem, elem)[offset + |xs|..]
  {
    FlattenLength(xs, elem);
    var after := Overwrite(mem, o, Flatten(xs));
    OverwriteParts(mem, o, Flatten(xs));
    hide Elements, Overwrite, Flatten;
    ElementsSplit(mem, offset, elem, o);
    ElementsSplit(mem[o..], |xs|, elem, n);
    ElementsSplit(after, offset, elem, o);
    ElementsSplit(after[o..], |xs|, elem, n);
    ElementsOfFlatten(xs, elem);
    Regroup(Elements(mem[..o], elem), Elements(mem[o..][..n], elem), Elements(mem[o..][n..], elem), xs);
  }

  lemma OverwriteParts(mem: seq<byte>, at: nat, data: seq<byte>)
    requires at + |data| <= |mem|
    ensures var after := Overwrite(mem, at, data);
      after[..at] == mem[..at] && after[at..][..|data|] == data && after[at..][|data|..] == mem[at..][|data|..]
  {}

  lemma Regroup(a: seq<seq<byte>>, b: seq<seq<byte>>, c: seq<seq<byte>>, xs: seq<seq<byte>>)
    requires |b| == |xs|
    ensures (a + (b + c))[..|a|] + xs + (a + (b + c))[|a| + |xs|..] == a + (xs + c)
  {}

  /** The elements of a slice at element boundaries are a slice of the elements. */
  lemma SliceElements(mem: seq<byte>, offset: nat, count: nat, elem: nat, o: nat, n: nat)
    requires elem > 0 && o == offset * elem && n == count * elem && o + n <= |mem|
    ensures offset + count <= |Elements(mem, elem)|
    ensures Elements(mem[o..][..n], elem) == Elements(mem, elem)[offset..][..count]
  {
    hide Elements;
    ElementsSplit(mem, offset, elem, o);
    ElementsSplit(mem[o..], count, elem, n);
  }

  /** `read_into_typed` after its layout check, at a scaled offset. */
  method ReadScaled(region: CachedRegion, host: Host, byteOffset: u64, align: nat, buf: array<byte>, dev: Device)
    returns (r: Result<(), AccessError>)
    requires align > 0 && buf.Length < U64_LIMIT
    modifies buf
    ensures !Reachable(region, byteOffset, buf.Length, align) ==> r == Err(InvalidInput)
    ensures r.Err? && r.error != DeviceError ==> buf[..] == old(buf[..])
    ensures host.Serves(region) && r.Ok? ==>
      0 < buf.Length && byteOffset + buf.Length <= region.size &&
      buf[..] == Overwrite(old(buf[..]), 0, host.mem[byteOffset..][..Narrowed(buf.Length)])
    ensures host.Serves(region) && buf[..] != old(buf[..]) ==>
      Reachable(region, byteOffset, buf.Length, align) && byteOffset + buf.Length <= region.size &&
      buf[..] == Overwrite(old(buf[..]), 0, host.mem[byteOffset..][..dev.Done(Narrowed(buf.Length))])
    ensures host.Serves(region) ==>
      (r == Err(NoConnection) <==> Reachable(region, byteOffset, buf.Length, align) && !dev.connected) &&
      (r == Err(InvalidInput) <==>
        !Reachable(region, byteOffset, buf.Length, align) || (dev.connected && buf.Length == 0)) &&
      (r.Ok? <==> buf.Length > 0 && Reachable(region, byteOffset, buf.Length, align) && dev.connected &&
                  dev.via == host.pd && dev.registers && dev.completes)
  {
    hide Aligned, Overwrite;
    if SaturatingAdd(byteOffset, buf.Length) > region.size { return Err(InvalidInput); }
    var addr := (region.remoteAddr + byteOffset) % U64_LIMIT;
    if !Aligned(addr, align) { return Err(InvalidInput); }
    r := PostRead(host, addr, region.rkey, buf, buf.Length, dev);
  }

  /** `read_into_typed` into a buffer of `count` elements: on success exactly a slice of the remote elements. */
  method ReadTyped(region: CachedRegion, host: Host, offset: u64, elem: nat, align: nat, buf: array<byte>, count: nat,
                   dev: Device)
    returns (r: Result<(), AccessError>)
    requires align > 0 && buf.Length == count * elem && count * elem < U64_LIMIT
    modifies buf
    ensures !ElementsFit(region.size, offset, elem, count) ==> r == Err(InvalidInput)
    ensures r.Err? && r.error != DeviceError ==> buf[..] == old(buf[..])
    ensures host.Serves(region) && r.Ok? && count * elem < U32_LIMIT ==>
      elem > 0 && offset * elem + count * elem <= region.size &&
      buf[..] == host.mem[offset * elem..][..count * elem] &&
      offset + count <= |Elements(host.mem, elem)| &&
      Elements(buf[..], elem) == Elements(host.mem, elem)[offset..][..count]
    ensures host.Serves(region) && buf[..] != old(buf[..]) ==>
      offset * elem + count * elem <= region.size &&
      buf[..] == Overwrite(old(buf[..]), 0, host.mem[offset * elem..][..dev.Done(Narrowed(count * elem))])
    ensures elem % U32_LIMIT != region.elemSize || align % U32_LIMIT != region.elemAlign ==>
      r == Err(InvalidInput) && buf[..] == old(buf[..])
    ensures host.Serves(region) && r.Ok? ==> Aligned(region.remoteAddr + offset * elem, align)
    ensures host.Serves(region) && elem % align == 0 ==>
      (r.Ok? <==> elem % U32_LIMIT == region.elemSize && align % U32_LIMIT == region.elemAlign &&
                  offset * elem + count * elem <= region.size && Aligned(region.remoteAddr, align) &&
                  count * elem > 0 && dev.connected && dev.via == host.pd && dev.registers && dev.completes)
  {
    hide Elements, Reachable, SaturatingMul, Aligned;
    if !SameLayout(region, elem, align) { return Err(InvalidInput); }
    ghost var len := buf.Length;
    ScaleInWord(offset, elem);
    if Reachable(region, SaturatingMul(offset, elem), len, align) {
      ScaledFit(region, offset, elem, align, count, len);
    }
    if host.Serves(region) { TypedChecks(region, offset, elem, align, count, len); }
    r := ReadScaled(region, host, SaturatingMul(offset, elem), align, buf, dev);
    if host.Serves(region) && r.Ok? && len < U32_LIMIT {
      assert Narrowed(len) == len;
      ZeroProduct(count, elem);
      SliceElements(host.mem, offset, count, elem, offset * elem, len);
    }
  }

  /**
   The length is narrowed to 32 bits on its way to the device: a successful transfer of `data`
   is the whole slice update, on every remote buffer it fits, exactly when it is under 2^32 bytes.
   */
  lemma WholeTransferIffNarrow(data: seq<byte>, at: nat)
    ensures (forall mem: seq<byte> :: at + |data| <= |mem| ==>
        Overwrite(mem, at, data[..Narrowed(|data|)]) == Overwrite(mem, at, data))
      <==> |data| < U32_LIMIT
  {
    if |data| < U32_LIMIT {
      assert data[..Narrowed(|data|)] == data;
    } else {
      LostTail(data, at);
    }
  }

  /** A buffer that shows the bytes a narrowed transfer leaves out. */
  lemma LostTail(data: seq<byte>, at: nat)
    requires |data| >= U32_LIMIT
    ensures exists mem: seq<byte> ::
        at + |data| <= |mem| && Overwrite(mem, at, data[..Narrowed(|data|)]) != Overwrite(mem, at, data)
  {
    var n := Narrowed(|data|);
    var other: byte := if data[n] == 0 then 1 else 0;
    var mem: seq<byte> := seq(at + |data|, i => other);
    assert Overwrite(mem, at, data)[at + n] == data[n];
    assert Overwrite(mem, at, data[..n])[at + n] == other;
  }
}
