/** Bytes, the optional value, and the big-endian fields used on the wire. */
module Bytes {
  type byte = x: int | 0 <= x < 256

  datatype Option<+T> = None | Some(value: T)

  function Min(a: int, b: int): (m: int)
    ensures m <= a && m <= b && (m == a || m == b)
  {
    if a < b then a else b
  }

  function AsciiBytes(s: string): (b: seq<byte>)
    ensures |b| == |s|
  {
    seq(|s|, i requires 0 <= i < |s| => s[i] as int % 256)
  }

  /** binary.BigEndian.PutUint16(b, uint16(n)): the conversion keeps n modulo 2^16. */
  function PutU16(n: nat): (b: seq<byte>)
    ensures |b| == 2
  {
    [n / 256 % 256, n % 256]
  }

  function U16(b: seq<byte>): (n: nat)
    requires |b| == 2
    ensures n < 0x1_0000
  {
    (b[0] as int) * 256 + (b[1] as int)
  }

  /** binary.BigEndian.PutUint32(b, uint32(n)). */
  function PutU32(n: nat): (b: seq<byte>)
    ensures |b| == 4
  {
    PutU16(n / 0x1_0000) + PutU16(n % 0x1_0000)
  }

  function U32(b: seq<byte>): (n: nat)
    requires |b| == 4
    ensures n < 0x1_0000_0000
  {
    0x1_0000 * U16(b[..2]) + U16(b[2..])
  }

  /** The field is big-endian: the four base-256 digits of n, the highest first. */
  lemma U32Digits(n: nat)
    ensures PutU32(n) == [n / 0x100_0000 % 256, n / 0x1_0000 % 256, n / 256 % 256, n % 256]
  {
    var hi, lo := n / 0x1_0000, n % 0x1_0000;
    assert hi / 256 == n / 0x100_0000;
    assert n / 256 == hi * 256 + lo / 256 && n == n / 256 * 256 + lo % 256;
  }

  lemma U16RoundTrip(n: nat)
    ensures U16(PutU16(n)) == n % 0x1_0000
  {
  }

  lemma HalvesOfU32(n: nat)
    ensures n % 0x1_0000_0000 == n / 0x1_0000 % 0x1_0000 * 0x1_0000 + n % 0x1_0000
  {
  }

  lemma U32RoundTrip(n: nat)
    ensures U32(PutU32(n)) == n % 0x1_0000_0000
  {
    var hi, lo := PutU16(n / 0x1_0000), PutU16(n % 0x1_0000);
    assert (hi + lo)[..2] == hi;
    assert (hi + lo)[2..] == lo;
    U16RoundTrip(n / 0x1_0000);
    U16RoundTrip(n % 0x1_0000);
    HalvesOfU32(n);
  }

  lemma ConcatAssociative<T>(a: seq<T>, b: seq<T>, c: seq<T>)
    ensures a + b + c == a + (b + c)
  {
  }

  /** Taking the front of `b` into `a` keeps the whole. */
  lemma MoveFront<T>(a: seq<T>, b: seq<T>, k: nat)
    requires k <= |b|
    ensures a + b[..k] + b[k..] == a + b
  {
  }
}
