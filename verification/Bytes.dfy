/** Bytes, and the 32-bit big-endian integers that all the wire formats of the repository use. */
module Bytes {
  type byte = b: int | 0 <= b < 256
  type Bytes = seq<byte>

  /** The four bytes of `htonl(n)`; an `unsigned` holds 32 bits, so higher bits of `n` are lost. */
  function BigEndian32(n: nat): (b: Bytes)
    ensures |b| == 4
  {
    [n / 0x100_0000 % 256, n / 0x1_0000 % 256, n / 0x100 % 256, n % 256]
  }

  /** `ntohl` of the first four bytes. */
  function Unsigned32(b: Bytes): (n: nat)
    requires |b| >= 4
    ensures n < 0x1_0000_0000
  {
    b[0] as int * 0x100_0000 + b[1] as int * 0x1_0000 + b[2] as int * 0x100 + b[3] as int
  }

  lemma DecodeEncode32(n: nat, rest: Bytes)
    requires n < 0x1_0000_0000
    ensures Unsigned32(BigEndian32(n) + rest) == n
  {
    assert n / 0x100_0000 % 256 == n / 0x100_0000;
    assert n / 0x1_0000 == n / 0x100_0000 * 256 + n / 0x1_0000 % 256;
    assert n / 0x100 == n / 0x1_0000 * 256 + n / 0x100 % 256;
  }

  lemma EncodeDecode32(b: Bytes)
    requires |b| >= 4
    ensures BigEndian32(Unsigned32(b)) == b[..4]
  {
    var n := Unsigned32(b);
    assert n / 0x100 == b[0] as int * 0x1_0000 + b[1] as int * 0x100 + b[2] as int;
    assert n / 0x1_0000 == b[0] as int * 0x100 + b[1] as int;
    assert n / 0x100_0000 == b[0];
  }

  /** The number whose digits to the base 256 these bytes are, the most significant first. */
  function BigEndianValue(b: Bytes): nat {
    if b == [] then 0 else 256 * BigEndianValue(b[..|b| - 1]) + b[|b| - 1]
  }

  lemma FourBytesValue(b: Bytes)
    requires |b| == 4
    ensures BigEndianValue(b) == ((b[0] as int * 256 + b[1] as int) * 256 + b[2] as int) * 256 + b[3] as int
  {
    assert b[..3][..2] == b[..2] && b[..2][..1] == b[..1] && b[..1][..0] == [];
    assert BigEndianValue(b[..1]) == 256 * BigEndianValue([]) + b[0];
    assert BigEndianValue(b[..2]) == 256 * BigEndianValue(b[..1]) + b[1];
    assert BigEndianValue(b[..3]) == 256 * BigEndianValue(b[..2]) + b[2];
  }

  lemma Unsigned32Value(b: Bytes)
    requires |b| >= 4
    ensures Unsigned32(b) == BigEndianValue(b[..4])
  {
    FourBytesValue(b[..4]);
  }

  lemma BigEndian32Value(n: nat)
    requires n < 0x1_0000_0000
    ensures BigEndianValue(BigEndian32(n)) == n
  {
    FourBytesValue(BigEndian32(n));
    assert n / 0x100_0000 % 256 == n / 0x100_0000;
    assert n / 0x1_0000 == n / 0x100_0000 * 256 + n / 0x1_0000 % 256;
    assert n / 0x100 == n / 0x1_0000 * 256 + n / 0x100 % 256;
  }

  /** All the pieces, one after the other. */
  function Concat(pieces: seq<Bytes>): Bytes {
    if pieces == [] then [] else pieces[0] + Concat(pieces[1..])
  }

  lemma {:induction false} ConcatAppend(a: seq<Bytes>, b: seq<Bytes>)
    ensures Concat(a + b) == Concat(a) + Concat(b)
  {
    if a == [] {
      assert a + b == b;
    } else {
      assert (a + b)[1..] == a[1..] + b;
      ConcatAppend(a[1..], b);
    }
  }
}
