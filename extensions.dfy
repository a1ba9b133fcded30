/** HeartRate/Extensions.cs: Truncate, Stream.ReadUInt16 and TryDispose.
    AsyncResult, a polling loop over WinRT operations, is not part of this
    model. */
module Extensions {
  import opened Wrappers
  import opened Exceptions

  /** string.Truncate(length): null stays null, a string shorter than length
      is returned as is, and anything else is cut to its first `length`
      characters, which for a negative length makes Substring throw. */
  function Truncate(s: Option<string>, length: int): (r: Result<Option<string>, Exception>)
    ensures s.None? ==> r == Success(None)
    ensures s.Some? && length >= 0 ==>
      && r.Success? && r.value.Some?
      && |r.value.value| == (if |s.value| < length then |s.value| else length)
      && r.value.value == s.value[..|r.value.value|]
    ensures s.Some? && length < 0 ==> r == Failure(ArgumentOutOfRangeException)
  {
    if s.None? || |s.value| < length then Success(s)
    else if length < 0 then Failure(ArgumentOutOfRangeException)
    else Success(Some(s.value[..length]))
  }

  /** Truncating twice with the same length is truncating once. */
  lemma TruncateIdempotent(s: Option<string>, length: int)
    requires length >= 0
    ensures Truncate(s, length).Success?
    ensures Truncate(Truncate(s, length).value, length) == Truncate(s, length)
  {
    if s.Some? && |s.value| >= length {
      var t := s.value[..length];
      assert t[..length] == t;
    }
  }

  /** Stream.ReadByte's result: a byte, or -1 at end of stream. */
  datatype ByteRead = Byte(b: bv8) | EndOfStream {
    /** The int ReadByte returns. */
    function AsInt(): int {
      match this
      case Byte(b) => b as int
      case EndOfStream => -1
    }
  }

  /** That int as the 32 bits `|` and `<<` work on: -1 is all ones. */
  function Bits(r: ByteRead): bv32
  {
    match r
    case EndOfStream => 0xFFFF_FFFF
    case Byte(b) => b as bv32
  }

  lemma WordOfTwoBytes(x0: bv8, x1: bv8)
    ensures ((x0 as bv32) | ((x1 as bv32) << 8)) & 0xFFFF == (x0 as bv32) + (x1 as bv32) * 256
    ensures ((x0 as bv32) + (x1 as bv32) * 256) as int == x0 as int + 256 * x1 as int
  {
    assert (x0 as bv32) as int == x0 as int;
    assert (x1 as bv32) as int == x1 as int;
  }

  lemma WordOfOneByte(x0: bv8)
    ensures ((x0 as bv32) | (0xFFFF_FFFF << 8)) & 0xFFFF == (x0 as bv32) + 0xFF00
    ensures ((x0 as bv32) + 0xFF00) as int == x0 as int + 0xFF00
  {
    assert (x0 as bv32) as int == x0 as int;
  }

  /** The low 16 bits of `b0 | (b1 << 8)`. */
  function Word(r0: ByteRead, r1: ByteRead): bv32
  {
    (Bits(r0) | (Bits(r1) << 8)) & 0xFFFF
  }

  lemma WordValue(r0: ByteRead, r1: ByteRead)
    ensures r0.Byte? && r1.Byte? ==> Word(r0, r1) as int == r0.b as int + 256 * r1.b as int
    ensures r0.Byte? && r1.EndOfStream? ==> Word(r0, r1) as int == 0xFF00 + r0.b as int
    ensures r0.EndOfStream? ==> Word(r0, r1) == 0xFFFF
  {
    if r0.Byte? && r1.Byte? {
      WordOfTwoBytes(r0.b, r1.b);
    } else if r0.Byte? {
      WordOfOneByte(r0.b);
    }
  }

  /** `(ushort)(b0 | (b1 << 8))` for two ReadByte results: little-endian when
      both bytes are there, 0xFF00 | b0 when only one is, 0xFFFF when none is. */
  function UInt16Of(r0: ByteRead, r1: ByteRead): (r: int)
    ensures 0 <= r < 0x1_0000
    ensures r0.Byte? && r1.Byte? ==> r == r0.b as int + 256 * r1.b as int
    ensures r0.Byte? && r1.EndOfStream? ==> r == 0xFF00 + r0.b as int
    ensures r0.EndOfStream? ==> r == 0xFFFF
  {
    WordValue(r0, r1);
    Word(r0, r1) as int
  }

  /** What ReadByte yields at a position. */
  function ByteAt(data: seq<bv8>, pos: nat): ByteRead
  {
    if pos < |data| then Byte(data[pos]) else EndOfStream
  }

  /** A read-only stream over a byte sequence, with its read position. */
  class ByteStream {
    const data: seq<bv8>
    var position: nat

    constructor (data: seq<bv8>)
      ensures this.data == data && position == 0
    {
      this.data := data;
      position := 0;
    }

    /** Stream.ReadByte: the next byte, or -1 at end of stream. */
    method ReadByte() returns (b: ByteRead)
      modifies this
      ensures b == ByteAt(data, old(position))
      ensures position == if old(position) < |data| then old(position) + 1 else old(position)
    {
      if position < |data| {
        b := Byte(data[position]);
        position := position + 1;
      } else {
        b := EndOfStream;
      }
    }
  }

  /** Extensions.ReadUInt16: two bytes in order, the first one low. */
  method ReadUInt16(stream: ByteStream) returns (r: int)
    modifies stream
    ensures r == UInt16Of(ByteAt(stream.data, old(stream.position)), ByteAt(stream.data, old(stream.position) + 1))
    ensures stream.position == old(stream.position) + (if old(stream.position) + 2 <= |stream.data| then 2
                                  else if old(stream.position) < |stream.data| then 1 else 0)
  {
    var b0 := stream.ReadByte();
    var b1 := stream.ReadByte();
    r := UInt16Of(b0, b1);
  }

  /** Anything IDisposable; `throwsOnDispose` says whether its Dispose throws. */
  class Resource {
    const throwsOnDispose: bool
    var disposeCalls: nat

    constructor (throwsOnDispose: bool)
      ensures this.throwsOnDispose == throwsOnDispose && disposeCalls == 0
    {
      this.throwsOnDispose := throwsOnDispose;
      disposeCalls := 0;
    }

    method Dispose() returns (o: Outcome<Exception>)
      modifies this
      ensures disposeCalls == old(disposeCalls) + 1
      ensures o == if throwsOnDispose then Fail(DisposeFailure) else Pass
    {
      disposeCalls := disposeCalls + 1;
      o := if throwsOnDispose then Fail(DisposeFailure) else Pass;
    }
  }

  /** Extensions.TryDispose: true for null without calling anything, true when
      Dispose returns, false when it throws; the exception never escapes. */
  method TryDispose(d: Resource?) returns (ok: bool)
    modifies d
    ensures ok == (d == null || !d.throwsOnDispose)
    ensures d != null ==> d.disposeCalls == old(d.disposeCalls) + 1
  {
    if d == null {
      return true;
    }
    var o := d.Dispose();
    ok := o.Pass?;
  }
}
