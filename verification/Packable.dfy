/** The serialisation layer of utilities/system/inc/Packable.h: fixed-width big-endian
    primitives, length-prefixed strings and optionals with a presence byte, written into and
    read from a byte buffer at an offset that the caller advances.  An out-of-bounds access,
    which the source reports by throwing, is the value `OutOfBounds` (or `None` when writing). */
module Packable {

  newtype byte = b: int | 0 <= b < 256

  const TWO_63: int := 0x8000_0000_0000_0000
  const TWO_64: nat := 0x1_0000_0000_0000_0000

  type u64 = n: nat | n < TWO_64
  type i64 = n: int | -TWO_63 <= n < TWO_63

  datatype Option<+T> = None | Some(value: T)

  datatype Parsed<+T> = Ok(value: T, next: nat) | OutOfBounds

  // ---------------------------------------------------------------------------------------
  // Places in a buffer
  // ---------------------------------------------------------------------------------------

  ghost predicate At(b: seq<byte>, o: nat, piece: seq<byte>) {
    o + |piece| <= |b| && b[o..o + |piece|] == piece
  }

  lemma AtSplit(b: seq<byte>, o: nat, p: seq<byte>, q: seq<byte>)
    requires At(b, o, p + q)
    ensures At(b, o, p) && At(b, o + |p|, q)
  {
    assert b[o..o + |p|] == b[o..o + |p + q|][..|p|];
    assert b[o + |p|..o + |p| + |q|] == b[o..o + |p + q|][|p|..];
  }

  /** The buffer `b` with `bytes` written over it from `o` on. */
  function Splice(b: seq<byte>, o: nat, bytes: seq<byte>): (r: seq<byte>)
    requires o + |bytes| <= |b|
    ensures |r| == |b| && At(r, o, bytes)
    ensures r[..o] == b[..o] && r[o + |bytes|..] == b[o + |bytes|..]
  {
    b[..o] + bytes + b[o + |bytes|..]
  }

  lemma SpliceTwice(b: seq<byte>, o: nat, p: seq<byte>, q: seq<byte>)
    requires o + |p| + |q| <= |b|
    ensures Splice(Splice(b, o, p), o + |p|, q) == Splice(b, o, p + q)
  {
  }

  lemma Associative<T>(a: seq<T>, b: seq<T>, c: seq<T>)
    ensures a + b + c == a + (b + c)
  {
  }

  // ---------------------------------------------------------------------------------------
  // Big-endian numbers
  // ---------------------------------------------------------------------------------------

  function Pow256(width: nat): (p: nat)
    ensures p > 0
  {
    if width == 0 then 1 else 256 * Pow256(width - 1)
  }

  lemma Pow256Of8()
    ensures Pow256(8) == TWO_64 && Pow256(1) == 256
  {
    assert Pow256(1) == 256 && Pow256(2) == 0x1_0000 && Pow256(3) == 0x100_0000;
    assert Pow256(4) == 0x1_0000_0000 && Pow256(5) == 0x100_0000_0000;
    assert Pow256(6) == 0x1_0000_0000_0000 && Pow256(7) == 0x100_0000_0000_0000;
  }

  function BigEndian(n: nat, width: nat): (bytes: seq<byte>)
    ensures |bytes| == width
  {
    if width == 0 then [] else BigEndian(n / 256, width - 1) + [(n % 256) as byte]
  }

  function FromBigEndian(bytes: seq<byte>): (n: nat)
    ensures n < Pow256(|bytes|)
  {
    if bytes == [] then 0
    else FromBigEndian(bytes[..|bytes| - 1]) * 256 + bytes[|bytes| - 1] as nat
  }

  lemma {:induction false} BigEndianRoundTrip(n: nat, width: nat)
    requires n < Pow256(width)
    ensures FromBigEndian(BigEndian(n, width)) == n
  {
    if width > 0 {
      BigEndianRoundTrip(n / 256, width - 1);
      assert BigEndian(n, width)[..width - 1] == BigEndian(n / 256, width - 1);
    }
  }

  // ---------------------------------------------------------------------------------------
  // Encoders and decoders
  // ---------------------------------------------------------------------------------------

  function EncU64(n: u64): (e: seq<byte>)
    ensures |e| == 8
  {
    BigEndian(n, 8)
  }

  function DecU64(b: seq<byte>, o: nat): (r: Parsed<u64>)
    ensures r.Ok? <==> o + 8 <= |b|
    ensures r.Ok? ==> r.next == o + 8
  {
    Pow256Of8();
    if o + 8 <= |b| then Ok(FromBigEndian(b[o..o + 8]), o + 8) else OutOfBounds
  }

  lemma U64RoundTrip(n: u64, b: seq<byte>, o: nat)
    requires At(b, o, EncU64(n))
    ensures DecU64(b, o) == Ok(n, o + 8)
  {
    Pow256Of8();
    BigEndianRoundTrip(n, 8);
  }

  /** A signed 64-bit value travels as its two's complement. */
  function EncI64(n: i64): (e: seq<byte>)
    ensures |e| == 8
  {
    EncU64(if n < 0 then n + TWO_64 else n)
  }

  function DecI64(b: seq<byte>, o: nat): (r: Parsed<i64>)
    ensures r.Ok? ==> o + 8 == r.next <= |b|
  {
    match DecU64(b, o)
    case OutOfBounds => OutOfBounds
    case Ok(n, next) => Ok(if n >= TWO_63 then n - TWO_64 else n, next)
  }

  lemma I64RoundTrip(n: i64, b: seq<byte>, o: nat)
    requires At(b, o, EncI64(n))
    ensures DecI64(b, o) == Ok(n, o + 8)
  {
    U64RoundTrip(if n < 0 then n + TWO_64 else n, b, o);
  }

  function EncU8(x: byte): (e: seq<byte>) {
    [x]
  }

  function DecU8(b: seq<byte>, o: nat): (r: Parsed<byte>)
    ensures r.Ok? ==> o + 1 == r.next <= |b|
  {
    if o < |b| then Ok(b[o], o + 1) else OutOfBounds
  }

  function EncBool(x: bool): (e: seq<byte>)
    ensures |e| == 1
  {
    [if x then 1 else 0]
  }

  function DecBool(b: seq<byte>, o: nat): (r: Parsed<bool>)
    ensures r.Ok? ==> o + 1 == r.next <= |b|
  {
    if o < |b| then Ok(b[o] != 0, o + 1) else OutOfBounds
  }

  predicate ValidString(s: seq<byte>) {
    |s| < TWO_64
  }

  function EncString(s: seq<byte>): (e: seq<byte>)
    requires ValidString(s)
    ensures |e| == 8 + |s|
  {
    EncU64(|s|) + s
  }

  function DecString(b: seq<byte>, o: nat): (r: Parsed<seq<byte>>)
    ensures r.Ok? ==> ValidString(r.value) && r.next == o + 8 + |r.value| <= |b|
  {
    match DecU64(b, o)
    case OutOfBounds => OutOfBounds
    case Ok(size, next) =>
      if size == 0 then Ok([], next)
      else if size > |b| - next then OutOfBounds
      else Ok(b[next..next + size], next + size)
  }

  lemma StringRoundTrip(s: seq<byte>, b: seq<byte>, o: nat)
    requires ValidString(s) && At(b, o, EncString(s))
    ensures DecString(b, o) == Ok(s, o + 8 + |s|)
  {
    AtSplit(b, o, EncU64(|s|), s);
    U64RoundTrip(|s|, b, o);
  }

  function EncOptional<T>(enc: T --> seq<byte>, x: Option<T>): (e: seq<byte>)
    requires x.Some? ==> enc.requires(x.value)
  {
    if x.Some? then EncBool(true) + enc(x.value) else EncBool(false)
  }

  function DecOptional<T>(dec: (seq<byte>, nat) -> Parsed<T>, b: seq<byte>, o: nat): Parsed<Option<T>> {
    match DecBool(b, o)
    case OutOfBounds => OutOfBounds
    case Ok(present, next) =>
      if !present then Ok(None, next)
      else match dec(b, next)
           case OutOfBounds => OutOfBounds
           case Ok(v, after) => Ok(Some(v), after)
  }

  /** An optional is read back whenever its payload is. */
  lemma OptionalRoundTrip<T>(enc: T --> seq<byte>, dec: (seq<byte>, nat) -> Parsed<T>,
                             x: Option<T>, b: seq<byte>, o: nat)
    requires x.Some? ==> enc.requires(x.value)
    requires At(b, o, EncOptional(enc, x))
    requires x.Some? && At(b, o + 1, enc(x.value)) ==> dec(b, o + 1) == Ok(x.value, o + 1 + |enc(x.value)|)
    ensures DecOptional(dec, b, o) == Ok(x, o + |EncOptional(enc, x)|)
  {
    if x.Some? {
      AtSplit(b, o, EncBool(true), enc(x.value));
    }
    assert b[o] == b[o..o + |EncOptional(enc, x)|][0];
  }

  // ---------------------------------------------------------------------------------------
  // Writing into a buffer
  // ---------------------------------------------------------------------------------------

  /** memcpy. */
  method Copy(source: seq<byte>, target: array<byte>, at: nat)
    requires at + |source| <= target.Length
    modifies target
    ensures target[..] == Splice(old(target[..]), at, source)
  {
    var i := 0;
    while i < |source|
      invariant 0 <= i <= |source|
      invariant forall k :: 0 <= k < target.Length ==>
        target[k] == if at <= k < at + i then source[k - at] else old(target[k])
    {
      target[at + i] := source[i];
      i := i + 1;
    }
  }

  /** EnsureSerializeSpace followed by the copy: the buffer receives `bytes` at `offset` and the
      new offset is returned, or the space is missing and nothing is written. */
  method Store(bytes: seq<byte>, buffer: array<byte>, offset: nat) returns (next: Option<nat>)
    modifies buffer
    ensures offset + |bytes| <= buffer.Length ==>
              next == Some(offset + |bytes|) && buffer[..] == Splice(old(buffer[..]), offset, bytes)
    ensures offset + |bytes| > buffer.Length ==> next == None && buffer[..] == old(buffer[..])
  {
    if offset > buffer.Length || |bytes| > buffer.Length - offset {
      return None;
    }
    Copy(bytes, buffer, offset);
    return Some(offset + |bytes|);
  }
}
