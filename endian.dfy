/**
 * The little-endian binary helpers of wire/endian: fixed-width unsigned integers and
 * byte strings prefixed with their 4-byte or 2-byte length.
 *
 * A reader is the sequence of bytes it has not yet delivered; every read returns its
 * outcome together with what is left of the reader, so that consecutive reads thread the
 * rest from one call into the next. A writer is the sequence of bytes written so far; a
 * write returns the extended sequence.
 */
module Endian {
  import opened Wrappers
  import opened GoStrings

  /** The two errors `io.ReadFull` reports. */
  datatype IoError = EOF | UnexpectedEOF

  /** The outcome of a read and the bytes the reader still holds afterwards. */
  datatype Read<+T> = Read(result: Result<T, IoError>, rest: seq<byte>)

  function Pow256(w: nat): (p: nat)
    ensures p >= 1
  {
    if w == 0 then 1 else 256 * Pow256(w - 1)
  }

  const Max16: nat := 0x1_0000
  const Max32: nat := 0x1_0000_0000

  /** Converting a length that already fits leaves it unchanged. */
  lemma FitsUint16(n: nat)
    requires n < Max16
    ensures n % Max16 == n
  {
  }

  lemma FitsUint32(n: nat)
    requires n < Max32
    ensures n % Max32 == n
  {
  }

  lemma Pow256Widths()
    ensures Pow256(2) == Max16 && Pow256(4) == Max32
  {
    assert Pow256(1) == 256;
    assert Pow256(2) == 256 * 256;
    assert Pow256(3) == 256 * 256 * 256;
  }

  /** The w-byte little-endian encoding of n: least significant byte first. */
  function LE(n: nat, w: nat): (b: seq<byte>)
    requires n < Pow256(w)
    ensures |b| == w
    decreases w
  {
    if w == 0 then [] else [n % 256] + LE(n / 256, w - 1)
  }

  /** The number a little-endian byte string denotes. */
  function FromLE(b: seq<byte>): (n: nat)
    ensures n < Pow256(|b|)
    decreases |b|
  {
    if b == [] then 0
    else
      var m := FromLE(b[1..]);
      assert b[0] + 256 * m <= 255 + 256 * (Pow256(|b| - 1) - 1);
      b[0] + 256 * m
  }

  lemma {:induction false} FromLEOfLE(n: nat, w: nat)
    requires n < Pow256(w)
    ensures FromLE(LE(n, w)) == n
    decreases w
  {
    if w > 0 {
      var b := LE(n, w);
      assert b[1..] == LE(n / 256, w - 1);
      FromLEOfLE(n / 256, w - 1);
    }
  }

  lemma {:induction false} LEOfFromLE(b: seq<byte>)
    ensures LE(FromLE(b), |b|) == b
    decreases |b|
  {
    if b != [] {
      var m := FromLE(b[1..]);
      assert (b[0] + 256 * m) % 256 == b[0];
      assert (b[0] + 256 * m) / 256 == m;
      LEOfFromLE(b[1..]);
    }
  }

  /** The first byte is the least significant one. */
  lemma LittleEndianOrder(n: nat, w: nat)
    requires 0 < w && n < Pow256(w)
    ensures LE(n, w)[0] == n % 256
  {
  }

  // ---------------------------------------------------------------------------
  // io.ReadFull

  /**
   * `io.ReadFull(r, buf)` with `len(buf) == n` on a reader that holds `r`. Reading
   * nothing always succeeds; otherwise a reader with fewer than n bytes fails with EOF
   * when it is empty and with UnexpectedEOF when it held some, and in both cases what it
   * held has been consumed.
   */
  function ReadFull(r: seq<byte>, n: nat): (x: Read<seq<byte>>)
    ensures x.result.Ok? <==> n <= |r|
    ensures x.result.Ok? ==> x.result.value == r[..n] && x.result.value + x.rest == r
    ensures x.result.Err? ==> x.rest == [] && (x.result.error == EOF <==> r == [])
  {
    if n == 0 then Read(Ok([]), r)
    else if r == [] then Read(Err(EOF), [])
    else if |r| < n then Read(Err(UnexpectedEOF), [])
    else Read(Ok(r[..n]), r[n..])
  }

  /** A w-byte little-endian unsigned integer. */
  function ReadUint(r: seq<byte>, w: nat): (x: Read<nat>)
    ensures x.result.Ok? <==> w <= |r|
    ensures x.result.Ok? ==> x.result.value < Pow256(w) && LE(x.result.value, w) + x.rest == r
    ensures x.result.Err? ==> x.rest == []
  {
    var f := ReadFull(r, w);
    match f.result
    case Err(e) => Read(Err(e), f.rest)
    case Ok(bytes) =>
      LEOfFromLE(bytes);
      Read(Ok(FromLE(bytes)), f.rest)
  }

  function ReadUint8(r: seq<byte>): (x: Read<nat>)
    ensures x.result.Ok? <==> |r| >= 1
    ensures x.result.Ok? ==> x.result.value == r[0] && x.rest == r[1..]
  {
    ReadUint(r, 1)
  }

  function ReadUint16(r: seq<byte>): (x: Read<nat>)
    ensures x.result.Ok? <==> |r| >= 2
    ensures x.result.Ok? ==> x.result.value < Max16 && x.rest == r[2..]
  {
    ReadUint(r, 2)
  }

  function ReadUint32(r: seq<byte>): (x: Read<nat>)
    ensures x.result.Ok? <==> |r| >= 4
    ensures x.result.Ok? ==> x.result.value < Max32 && x.rest == r[4..]
  {
    ReadUint(r, 4)
  }

  function ReadUint64(r: seq<byte>): (x: Read<nat>)
    ensures x.result.Ok? <==> |r| >= 8
    ensures x.result.Ok? ==> x.result.value < Pow256(8) && x.rest == r[8..]
  {
    ReadUint(r, 8)
  }

  // ---------------------------------------------------------------------------
  // Writers

  function WriteUint8(w: seq<byte>, v: byte): (w': seq<byte>)
    ensures w' == w + [v]
  {
    w + LE(v, 1)
  }

  function WriteUint16(w: seq<byte>, v: nat): (w': seq<byte>)
    requires v < Max16
    ensures |w'| == |w| + 2 && w'[..|w|] == w
  {
    w + LE(v, 2)
  }

  function WriteUint32(w: seq<byte>, v: nat): (w': seq<byte>)
    requires v < Max32
    ensures |w'| == |w| + 4 && w'[..|w|] == w
  {
    w + LE(v, 4)
  }

  function WriteUint64(w: seq<byte>, v: nat): (w': seq<byte>)
    requires v < Pow256(8)
    ensures |w'| == |w| + 8 && w'[..|w|] == w
  {
    w + LE(v, 8)
  }

  /** Reading back a w-byte integer gives the value written and leaves what followed it. */
  lemma ReadUintOfLE(v: nat, w: nat, rest: seq<byte>)
    requires v < Pow256(w)
    ensures ReadUint(LE(v, w) + rest, w) == Read(Ok(v), rest)
  {
    FromLEOfLE(v, w);
    assert (LE(v, w) + rest)[..w] == LE(v, w);
  }

  lemma Uint8RoundTrip(v: byte, rest: seq<byte>)
    ensures ReadUint8(WriteUint8([], v) + rest) == Read(Ok(v), rest)
  {
    ReadUintOfLE(v, 1, rest);
  }

  lemma Uint16RoundTrip(v: nat, rest: seq<byte>)
    requires v < Max16
    ensures ReadUint16(WriteUint16([], v) + rest) == Read(Ok(v), rest)
  {
    ReadUintOfLE(v, 2, rest);
  }

  lemma Uint32RoundTrip(v: nat, rest: seq<byte>)
    requires v < Max32
    ensures ReadUint32(WriteUint32([], v) + rest) == Read(Ok(v), rest)
  {
    ReadUintOfLE(v, 4, rest);
  }

  lemma Uint64RoundTrip(v: nat, rest: seq<byte>)
    requires v < Pow256(8)
    ensures ReadUint64(WriteUint64([], v) + rest) == Read(Ok(v), rest)
  {
    ReadUintOfLE(v, 8, rest);
  }

  // ---------------------------------------------------------------------------
  // Length-prefixed byte strings

  /** A 4-byte length, then that many bytes. */
  function ReadBytes(r: seq<byte>): (x: Read<seq<byte>>)
    ensures x.result.Ok? <==> |r| >= 4 && FromLE(r[..4]) <= |r| - 4
    ensures x.result.Ok? ==> x.result.value == r[4..4 + FromLE(r[..4])] && x.rest == r[4 + FromLE(r[..4])..]
    ensures x.result.Err? ==> x.rest == []
  {
    var l := ReadUint32(r);
    match l.result
    case Err(e) => Read(Err(e), l.rest)
    case Ok(n) =>
      LEOfFromLE(r[..4]);
      FromLEOfLE(n, 4);
      assert r == LE(n, 4) + r[4..];
      assert r[..4] == LE(n, 4);
      ReadFull(l.rest, n)
  }

  /**
   * `WriteBytes`: the length converted to uint32 (so taken modulo 2^32), four bytes
   * little-endian, then the bytes.
   */
  function WriteBytes(w: seq<byte>, b: seq<byte>): (w': seq<byte>)
    ensures |w'| == |w| + 4 + |b| && w'[..|w|] == w && w'[|w| + 4..] == b
  {
    WriteUint32(w, |b| % Max32) + b
  }

  /** A 2-byte length, then that many bytes. */
  function ReadShortBytes(r: seq<byte>): (x: Read<seq<byte>>)
    ensures x.result.Ok? <==> |r| >= 2 && FromLE(r[..2]) <= |r| - 2
    ensures x.result.Ok? ==> x.result.value == r[2..2 + FromLE(r[..2])] && x.rest == r[2 + FromLE(r[..2])..]
    ensures x.result.Err? ==> x.rest == []
  {
    var l := ReadUint16(r);
    match l.result
    case Err(e) => Read(Err(e), l.rest)
    case Ok(n) =>
      LEOfFromLE(r[..2]);
      FromLEOfLE(n, 2);
      assert r == LE(n, 2) + r[2..];
      assert r[..2] == LE(n, 2);
      ReadFull(l.rest, n)
  }

  /** `WriteShortBytes`: the length converted to uint16 (modulo 2^16), then the bytes. */
  function WriteShortBytes(w: seq<byte>, b: seq<byte>): (w': seq<byte>)
    ensures |w'| == |w| + 2 + |b| && w'[..|w|] == w && w'[|w| + 2..] == b
  {
    WriteUint16(w, |b| % Max16) + b
  }

  /** A reader holding a 4-byte length n and then at least n bytes yields those n bytes. */
  lemma ReadBytesOfLE(n: nat, t: seq<byte>)
    requires n < Max32 && n <= |t|
    ensures ReadBytes(LE(n, 4) + t) == Read(Ok(t[..n]), t[n..])
  {
    var r := LE(n, 4) + t;
    assert r[..4] == LE(n, 4);
    FromLEOfLE(n, 4);
    assert r[4..] == t;
  }

  /** A reader holding a 2-byte length n and then at least n bytes yields those n bytes. */
  lemma ReadShortBytesOfLE(n: nat, t: seq<byte>)
    requires n < Max16 && n <= |t|
    ensures ReadShortBytes(LE(n, 2) + t) == Read(Ok(t[..n]), t[n..])
  {
    var r := LE(n, 2) + t;
    assert r[..2] == LE(n, 2);
    FromLEOfLE(n, 2);
    assert r[2..] == t;
  }

  /** A length that fits is written unchanged, as its little-endian bytes. */
  lemma WriteUint32Layout(n: nat)
    requires n < Max32
    ensures n % Max32 == n && WriteUint32([], n % Max32) == LE(n, 4)
  {
    Pow256Widths();
    FitsUint32(n);
  }

  lemma WriteUint16Layout(n: nat)
    requires n < Max16
    ensures n % Max16 == n && WriteUint16([], n % Max16) == LE(n, 2)
  {
    Pow256Widths();
    FitsUint16(n);
  }

  /** Writing a length-prefixed field after `w` puts the field's own encoding after `w`. */
  lemma WriteBytesAfter(w: seq<byte>, b: seq<byte>)
    ensures WriteBytes(w, b) == w + WriteBytes([], b)
  {
    var n := |b| % Max32;
    assert WriteBytes([], b) == LE(n, 4) + b;
    AppendAssoc(w, LE(n, 4), b);
  }

  /** `WriteBytes` on an empty writer, followed by more bytes: the 4-byte length, then the bytes. */
  lemma WriteBytesLayout(b: seq<byte>, rest: seq<byte>)
    requires |b| < Max32
    ensures WriteBytes([], b) + rest == LE(|b|, 4) + (b + rest)
  {
    WriteUint32Layout(|b|);
    assert WriteBytes([], b) == LE(|b|, 4) + b;
    AppendAssoc(LE(|b|, 4), b, rest);
  }

  /** `WriteShortBytes` on an empty writer, followed by more bytes: the 2-byte length, then the bytes. */
  lemma WriteShortBytesLayout(b: seq<byte>, rest: seq<byte>)
    requires |b| < Max16
    ensures WriteShortBytes([], b) + rest == LE(|b|, 2) + (b + rest)
  {
    WriteUint16Layout(|b|);
    assert WriteShortBytes([], b) == LE(|b|, 2) + b;
    AppendAssoc(LE(|b|, 2), b, rest);
  }

  lemma AppendAssoc(a: seq<byte>, b: seq<byte>, c: seq<byte>)
    ensures (a + b) + c == a + (b + c)
  {
  }

  lemma SplitConcat(b: seq<byte>, rest: seq<byte>)
    ensures (b + rest)[..|b|] == b && (b + rest)[|b|..] == rest
  {
  }

  /** `ReadBytes` returns what `WriteBytes` wrote and leaves the bytes that follow unread. */
  lemma BytesRoundTrip(b: seq<byte>, rest: seq<byte>)
    requires |b| < Max32
    ensures ReadBytes(WriteBytes([], b) + rest) == Read(Ok(b), rest)
  {
    WriteBytesLayout(b, rest);
    ReadBytesOfLE(|b|, b + rest);
    SplitConcat(b, rest);
  }

  /** The short round trip, for byte strings shorter than 2^16. */
  lemma ShortBytesRoundTrip(b: seq<byte>, rest: seq<byte>)
    requires |b| < Max16
    ensures ReadShortBytes(WriteShortBytes([], b) + rest) == Read(Ok(b), rest)
  {
    WriteShortBytesLayout(b, rest);
    ReadShortBytesOfLE(|b|, b + rest);
    SplitConcat(b, rest);
  }

  /**
   * The uint16 length wraps: a 65536-byte string is written with length 0, so reading
   * it back yields the empty string and leaves the 65536 bytes in the reader.
   */
  lemma ShortBytesTruncated(b: seq<byte>)
    requires |b| == Max16
    ensures ReadShortBytes(WriteShortBytes([], b)) == Read(Ok([]), b)
  {
    ReadUintOfLE(0, 2, b);
    assert WriteShortBytes([], b) == LE(0, 2) + b;
  }

  /**
   * `ReadBytes` fails when the length is incomplete or promises more bytes than remain;
   * the error is EOF exactly when the reader ran dry at the start of a field.
   */
  lemma ReadBytesFailures(r: seq<byte>)
    ensures |r| < 4 ==> ReadBytes(r) == Read(Err(if r == [] then EOF else UnexpectedEOF), [])
    ensures |r| >= 4 && FromLE(r[..4]) > |r| - 4 ==>
      ReadBytes(r) == Read(Err(if |r| == 4 then EOF else UnexpectedEOF), [])
  {
    if |r| >= 4 && FromLE(r[..4]) > |r| - 4 {
      LEOfFromLE(r[..4]);
      FromLEOfLE(FromLE(r[..4]), 4);
      assert r == r[..4] + r[4..];
    }
  }

  // ---------------------------------------------------------------------------
  // Strings and fixed-size reads

  function ReadString(r: seq<byte>): (x: Read<string>)
    ensures x.result.Ok? <==> ReadBytes(r).result.Ok?
    ensures x.result.Ok? ==> ToBytes(x.result.value) == ReadBytes(r).result.value && IsByteString(x.result.value)
    ensures x.rest == ReadBytes(r).rest
  {
    var b := ReadBytes(r);
    match b.result
    case Err(e) => Read(Err(e), b.rest)
    case Ok(bytes) =>
      GoStrings.ToBytesOfFromBytes(bytes);
      Read(Ok(FromBytes(bytes)), b.rest)
  }

  function WriteString(w: seq<byte>, s: string): (w': seq<byte>)
    ensures |w'| == |w| + 4 + |s| && w'[..|w|] == w && w'[|w| + 4..] == ToBytes(s)
  {
    WriteBytes(w, ToBytes(s))
  }

  function ReadShortString(r: seq<byte>): (x: Read<string>)
    ensures x.result.Ok? <==> ReadShortBytes(r).result.Ok?
    ensures x.result.Ok? ==> ToBytes(x.result.value) == ReadShortBytes(r).result.value && IsByteString(x.result.value)
    ensures x.rest == ReadShortBytes(r).rest
  {
    var b := ReadShortBytes(r);
    match b.result
    case Err(e) => Read(Err(e), b.rest)
    case Ok(bytes) =>
      GoStrings.ToBytesOfFromBytes(bytes);
      Read(Ok(FromBytes(bytes)), b.rest)
  }

  lemma StringRoundTrip(s: string, rest: seq<byte>)
    requires IsByteString(s) && |s| < Max32
    ensures ReadString(WriteString([], s) + rest) == Read(Ok(s), rest)
  {
    BytesRoundTrip(ToBytes(s), rest);
    GoStrings.FromBytesOfToBytes(s);
  }

  lemma ShortStringRoundTrip(s: string, rest: seq<byte>)
    requires IsByteString(s) && |s| < Max16
    ensures ReadShortString(WriteShortBytes([], ToBytes(s)) + rest) == Read(Ok(s), rest)
  {
    ShortBytesRoundTrip(ToBytes(s), rest);
    GoStrings.FromBytesOfToBytes(s);
  }

  /** `ReadFixedBytes(n, r)`: exactly n bytes, or the `io.ReadFull` error. */
  function ReadFixedBytes(n: nat, r: seq<byte>): (x: Read<seq<byte>>)
    ensures x.result.Ok? ==> |x.result.value| == n && x.result.value + x.rest == r
    ensures x.result.Err? <==> |r| < n
  {
    ReadFull(r, n)
  }
}
