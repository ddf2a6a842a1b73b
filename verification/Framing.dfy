/** Many frames on one byte stream: `write_frame` and repeated `read_frame` of src/meta.rs. */
module Framing {
  import opened Common
  import opened Codec

  /** The bytes a sender leaves on the stream. */
  function EncodeAll(ms: seq<Message>): (r: seq<byte>) {
    if ms == [] then [] else Encode(ms[0]) + EncodeAll(ms[1..])
  }

  /** Everything a receiver gets by reading until the first error, and that error. */
  function ReadAll(stream: seq<byte>): (r: (seq<Message>, IoError))
    decreases |stream|
  {
    match ReadFrame(stream)
    case Err(e) => ([], e)
    case Ok((m, rest)) => var (ms, e) := ReadAll(rest); ([m] + ms, e)
  }

  ghost predicate AllInCap(ms: seq<Message>) { forall i :: 0 <= i < |ms| ==> InCap(ms[i]) }

  /** How many of the frames lie wholly within the first `n` bytes of the stream. */
  function Contained(ms: seq<Message>, n: nat): (k: nat)
    ensures k <= |ms|
  {
    if ms == [] || n < |Encode(ms[0])| then 0 else 1 + Contained(ms[1..], n - |Encode(ms[0])|)
  }

  lemma {:induction false} ContainedIsMaximal(ms: seq<Message>, n: nat)
    ensures var k := Contained(ms, n);
      |EncodeAll(ms[..k])| <= n && (k < |ms| ==> n < |EncodeAll(ms[..k + 1])|)
  {
    hide Encode;
    if ms != [] && n >= |Encode(ms[0])| {
      var k := Contained(ms[1..], n - |Encode(ms[0])|);
      ContainedIsMaximal(ms[1..], n - |Encode(ms[0])|);
      assert ms[..k + 1][1..] == ms[1..][..k];
      if k + 1 < |ms| { assert ms[..k + 2][1..] == ms[1..][..k + 1]; }
    }
  }

  /** A frame cut anywhere reads as end of input, never as a message. */
  lemma CutFrame(m: Message, n: nat)
    requires InCap(m) && n < |Encode(m)|
    ensures ReadFrame(Encode(m)[..n]) == Err(UnexpectedEof)
  {
    EncodeShape(m, []);
    hide Payload, TypeByte, LittleEndian, Encode;
    assert Encode(m) + [] == Encode(m);
    if n >= 5 { assert Encode(m)[..n][..4] == Encode(m)[..4]; }
  }

  /**
   Reading a stream cut after any `n` bytes returns exactly the messages whose frames
   are wholly there, in order, and then end of input.
   */
  lemma {:induction false} ReadPrefix(ms: seq<Message>, n: nat)
    requires AllInCap(ms) && n <= |EncodeAll(ms)|
    ensures ReadAll(EncodeAll(ms)[..n]) == (ms[..Contained(ms, n)], UnexpectedEof)
  {
    hide Encode, ReadFrame, InCap;
    if ms == [] {
      assert ReadFrame([]) == Err(UnexpectedEof) by { EmptyStream(); }
    } else {
      var first, rest := Encode(ms[0]), EncodeAll(ms[1..]);
      if n < |first| {
        assert EncodeAll(ms)[..n] == first[..n];
        CutFrame(ms[0], n);
      } else {
        assert EncodeAll(ms)[..n] == first + rest[..n - |first|];
        ReadEncoded(ms[0], rest[..n - |first|]);
        ReadPrefix(ms[1..], n - |first|);
        assert [ms[0]] + ms[1..][..Contained(ms[1..], n - |first|)] == ms[..Contained(ms, n)];
      }
    }
  }

  lemma EmptyStream()
    ensures ReadFrame([]) == Err(UnexpectedEof)
  {}

  /** The whole stream returns the whole list. */
  lemma {:induction false} ReadStream(ms: seq<Message>)
    requires AllInCap(ms)
    ensures ReadAll(EncodeAll(ms)) == (ms, UnexpectedEof)
  {
    ReadPrefix(ms, |EncodeAll(ms)|);
    assert EncodeAll(ms)[..|EncodeAll(ms)|] == EncodeAll(ms);
    EverythingContained(ms);
    assert ms[..|ms|] == ms;
  }

  lemma {:induction false} EverythingContained(ms: seq<Message>)
    ensures Contained(ms, |EncodeAll(ms)|) == |ms|
  {
    hide Encode;
    if ms != [] { EverythingContained(ms[1..]); }
  }
}
