/**
 What the byte grammar of strings accepts (src/meta.rs, `Reader::string`): exactly the encodings of
 sequences of Unicode scalar values, as section 3 of RFC 3629 defines them by arithmetic.
 */
module Unicode {
  import opened Common
  import opened Codec

  /** A code point that is not a surrogate. */
  type Scalar = c: int | 0 <= c <= 0x10FFFF && !(0xD800 <= c <= 0xDFFF)

  /** The six low bits of a scalar, or of what is above them, in a continuation byte. */
  function Continuation(c: nat): (b: byte) { 0x80 + c % 64 }

  function EncodeScalar(c: Scalar): (s: seq<byte>)
    ensures 1 <= |s| <= 4
  {
    if c < 0x80 then [c]
    else if c < 0x800 then [0xC0 + c / 64, Continuation(c)]
    else if c < 0x1_0000 then [0xE0 + c / 64 / 64, Continuation(c / 64), Continuation(c)]
    else [0xF0 + c / 64 / 64 / 64, Continuation(c / 64 / 64), Continuation(c / 64), Continuation(c)]
  }

  function EncodeScalars(cs: seq<Scalar>): (s: seq<byte>) {
    if cs == [] then [] else EncodeScalar(cs[0]) + EncodeScalars(cs[1..])
  }

  /** Six more bits below `high`. */
  function Append(high: nat, b: byte): (c: nat)
    requires Tail(b)
    ensures c / 64 == high && Continuation(c) == b
  {
    Digits(high, b - 0x80);
    64 * high + (b - 0x80)
  }

  lemma Digits(high: nat, low: nat)
    requires low < 64
    ensures (64 * high + low) / 64 == high && (64 * high + low) % 64 == low
  {}

  /** What the bits of the first character of `s` come to. */
  function FirstScalar(s: seq<byte>): (c: nat)
    requires CharLength(s) > 0
  {
    match CharLength(s)
    case 1 => s[0]
    case 2 => Append(s[0] - 0xC0, s[1])
    case 3 => Append(Append(s[0] - 0xE0, s[1]), s[2])
    case _ => Append(Append(Append(s[0] - 0xF0, s[1]), s[2]), s[3])
  }

  predicate IsScalar(c: nat) { c <= 0x10FFFF && !(0xD800 <= c <= 0xDFFF) }

  lemma FirstScalarEncodes(s: seq<byte>)
    requires CharLength(s) > 0
    ensures IsScalar(FirstScalar(s)) && EncodeScalar(FirstScalar(s)) == s[..CharLength(s)]
  {
    hide Continuation;
    FirstScalarInRange(s);
    FirstScalarBytes(s);
  }

  /** The grammar's second-byte ranges are what keeps a character in its range. */
  lemma FirstScalarInRange(s: seq<byte>)
    requires CharLength(s) > 0
    ensures var c, n := FirstScalar(s), CharLength(s);
      && IsScalar(c) && (n == 1 <==> c < 0x80) && (n <= 2 <==> c < 0x800) && (n <= 3 <==> c < 0x1_0000)
  {
    hide Continuation;
  }

  lemma FirstScalarBytes(s: seq<byte>)
    requires CharLength(s) > 0
    ensures var c, n := FirstScalar(s), CharLength(s);
      && (n == 1 ==> s[..n] == [c])
      && (n == 2 ==> s[..n] == [0xC0 + c / 64, Continuation(c)])
      && (n == 3 ==> s[..n] == [0xE0 + c / 64 / 64, Continuation(c / 64), Continuation(c)])
      && (n == 4 ==>
            s[..n] == [0xF0 + c / 64 / 64 / 64, Continuation(c / 64 / 64), Continuation(c / 64), Continuation(c)])
  {
    hide Continuation;
  }

  lemma EncodedHasLength(c: Scalar, t: seq<byte>)
    ensures CharLength(EncodeScalar(c) + t) == |EncodeScalar(c)|
  {}

  lemma {:induction false} ScalarsAreValid(cs: seq<Scalar>)
    ensures ValidUtf8(EncodeScalars(cs))
  {
    hide CharLength, EncodeScalar;
    if cs != [] {
      var first, rest := EncodeScalar(cs[0]), EncodeScalars(cs[1..]);
      EncodedHasLength(cs[0], rest);
      assert (first + rest)[|first|..] == rest;
      ScalarsAreValid(cs[1..]);
    }
  }

  lemma {:induction false} ValidAreScalars(s: seq<byte>) returns (cs: seq<Scalar>)
    requires ValidUtf8(s)
    ensures EncodeScalars(cs) == s
    decreases |s|
  {
    hide CharLength, EncodeScalar, FirstScalar;
    if s == [] {
      cs := [];
    } else {
      var n := CharLength(s);
      FirstScalarEncodes(s);
      var rest := ValidAreScalars(s[n..]);
      cs := [FirstScalar(s)] + rest;
      assert cs[1..] == rest && s == s[..n] + s[n..];
    }
  }

  /** Neither narrower nor wider than Unicode: no surrogate, overlong form or stray byte gets in. */
  lemma ValidIffScalars(s: seq<byte>)
    ensures ValidUtf8(s) <==> exists cs :: EncodeScalars(cs) == s
  {
    if ValidUtf8(s) {
      var cs := ValidAreScalars(s);
    }
    if cs :| EncodeScalars(cs) == s {
      ScalarsAreValid(cs);
    }
  }

  /** A string that is read is read as its characters, each way only one. */
  lemma {:induction false} ScalarsAreUnique(cs: seq<Scalar>, ds: seq<Scalar>)
    requires EncodeScalars(cs) == EncodeScalars(ds)
    ensures cs == ds
    decreases |cs|
  {
    if cs != [] && ds != [] {
      var a, b := EncodeScalars(cs[1..]), EncodeScalars(ds[1..]);
      EncodedHasLength(cs[0], a);
      EncodedHasLength(ds[0], b);
      hide CharLength, EncodeScalars;
      assert EncodeScalar(cs[0]) == (EncodeScalar(cs[0]) + a)[..|EncodeScalar(cs[0])|];
      assert EncodeScalar(ds[0]) == (EncodeScalar(ds[0]) + b)[..|EncodeScalar(ds[0])|];
      assert a == (EncodeScalar(cs[0]) + a)[|EncodeScalar(cs[0])|..];
      assert b == (EncodeScalar(ds[0]) + b)[|EncodeScalar(ds[0])|..];
      OneEncoding(cs[0], ds[0]);
      ScalarsAreUnique(cs[1..], ds[1..]);
    }
  }

  lemma OneEncoding(c: Scalar, d: Scalar)
    requires EncodeScalar(c) == EncodeScalar(d)
    ensures c == d
  {
    Undone(c);
    Undone(d);
  }

  /** The bytes of a scalar give it back. */
  lemma Undone(c: Scalar)
    ensures CharLength(EncodeScalar(c)) == |EncodeScalar(c)| > 0 && FirstScalar(EncodeScalar(c)) == c
  {
    EncodedHasLength(c, []);
    assert EncodeScalar(c) + [] == EncodeScalar(c);
  }
}
