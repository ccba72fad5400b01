/** The filters that a body of the coroutine server can be wrapped in: checksum, compression, and two
    padded block ciphers. */
module PackageFilters {
  import opened Bytes
  import opened Options
  import opened PackageFraming

  // ---- Adler-32 ----

  const BASE := 65521

  /** The two sums of RFC 1950, section 2.2, continued over `data`. */
  datatype Sums = Sums(a: nat, b: nat)

  function Continue32(s: Sums, data: Bytes): Sums
    decreases |data|
  {
    if data == [] then s else Continue32(Add(s, data[0]), data[1..])
  }

  function Add(s: Sums, x: byte): Sums {
    var a := (s.a + x) % BASE;
    Sums(a, (s.b + a) % BASE)
  }

  predicate Reduced(s: Sums) {
    s.a < BASE && s.b < BASE
  }

  lemma {:induction false} StaysReduced(s: Sums, data: Bytes)
    requires Reduced(s)
    ensures Reduced(Continue32(s, data))
    decreases |data|
  {
    if data != [] {
      StaysReduced(Add(s, data[0]), data[1..]);
    }
  }

  lemma {:induction false} ContinueAppend(s: Sums, x: Bytes, y: Bytes)
    ensures Continue32(s, x + y) == Continue32(Continue32(s, x), y)
    decreases |x|
  {
    if x == [] {
      assert x + y == y;
    } else {
      hide Add;
      assert (x + y)[1..] == x[1..] + y;
      ContinueAppend(Add(s, x[0]), x[1..], y);
    }
  }

  /** `zlib.adler32`, which returns the 32 bits as a signed integer. */
  function Adler32(data: Bytes): (sum: int)
    ensures -0x8000_0000 <= sum < 0x8000_0000
  {
    StaysReduced(Sums(1, 0), data);
    var s := Continue32(Sums(1, 0), data);
    var n := s.b * 0x1_0000 + s.a;
    if n < 0x8000_0000 then n else n - 0x1_0000_0000
  }

  /** Different sums stay different, whatever follows. */
  lemma {:induction false} SumsStayApart(s: Sums, t: Sums, data: Bytes)
    requires Reduced(s) && Reduced(t) && s != t
    ensures Continue32(s, data) != Continue32(t, data)
    decreases |data|
  {
    if data != [] {
      AddStaysApart(s, t, data[0]);
      hide Add;
      SumsStayApart(Add(s, data[0]), Add(t, data[0]), data[1..]);
    }
  }

  lemma AddStaysApart(s: Sums, t: Sums, x: byte)
    requires Reduced(s) && Reduced(t) && s != t
    ensures Reduced(Add(s, x)) && Reduced(Add(t, x)) && Add(s, x) != Add(t, x)
  {
    var a := Add(s, x).a;
    if a == Add(t, x).a {
      SameShift(s.a, t.a, x);
      if Add(s, x).b == Add(t, x).b {
        SameShift(s.b, t.b, a);
      }
    }
  }

  lemma SameShift(x: nat, y: nat, d: nat)
    requires x < BASE && y < BASE && (x + d) % BASE == (y + d) % BASE
    ensures x == y
  {
    var p, q := (x + d) / BASE, (y + d) / BASE;
    assert x - y == BASE * (p - q);
  }

  /** Equal checksums mean equal sums. */
  lemma ChecksumIsSums(x: Bytes, y: Bytes)
    ensures Adler32(x) == Adler32(y) <==> Continue32(Sums(1, 0), x) == Continue32(Sums(1, 0), y)
  {
    StaysReduced(Sums(1, 0), x);
    StaysReduced(Sums(1, 0), y);
  }

  lemma ByteChangesSums(s: Sums, x: byte, y: byte, rest: Bytes)
    requires Reduced(s) && x != y
    ensures Continue32(s, [x] + rest) != Continue32(s, [y] + rest)
  {
    if Add(s, x).a == Add(s, y).a {
      SmallShift(s.a, x, y);
    }
    SumsStayApart(Add(s, x), Add(s, y), rest);
    assert ([x] + rest)[1..] == rest && ([y] + rest)[1..] == rest;
  }

  lemma SmallShift(a: nat, x: byte, y: byte)
    requires (a + x) % BASE == (a + y) % BASE
    ensures x == y
  {
    var p, q := (a + x) / BASE, (a + y) / BASE;
    assert x - y == BASE * (p - q);
  }

  /** One changed byte changes the checksum. */
  lemma ByteChangesChecksum(data: Bytes, i: nat, v: byte)
    requires i < |data| && v != data[i]
    ensures Adler32(data[i := v]) != Adler32(data)
  {
    var before, after := data[..i], data[i + 1..];
    assert data == before + ([data[i]] + after) && data[i := v] == before + ([v] + after);
    ContinueAppend(Sums(1, 0), before, [data[i]] + after);
    ContinueAppend(Sums(1, 0), before, [v] + after);
    StaysReduced(Sums(1, 0), before);
    ByteChangesSums(Continue32(Sums(1, 0), before), data[i], v, after);
    ChecksumIsSums(data[i := v], data);
  }

  /** So does the exchange of two different neighbours, which a plain sum would not notice. */
  lemma ExchangeChangesChecksum(before: Bytes, x: byte, y: byte, after: Bytes)
    requires x != y
    ensures Adler32(before + [x, y] + after) != Adler32(before + [y, x] + after)
  {
    var s := Continue32(Sums(1, 0), before);
    StaysReduced(Sums(1, 0), before);
    ExchangeChangesSums(s, x, y);
    StaysReduced(s, [x, y]);
    StaysReduced(s, [y, x]);
    SumsStayApart(Continue32(s, [x, y]), Continue32(s, [y, x]), after);
    assert before + [x, y] + after == before + ([x, y] + after) && before + [y, x] + after == before + ([y, x] + after);
    ContinueAppend(Sums(1, 0), before, [x, y] + after);
    ContinueAppend(s, [x, y], after);
    ContinueAppend(Sums(1, 0), before, [y, x] + after);
    ContinueAppend(s, [y, x], after);
    ChecksumIsSums(before + [x, y] + after, before + [y, x] + after);
  }

  lemma ExchangeChangesSums(s: Sums, x: byte, y: byte)
    requires Reduced(s) && x != y
    ensures Continue32(s, [x, y]) != Continue32(s, [y, x])
  {
    hide Continue32, Add;
    TwoBytes(s, x, y);
    TwoBytes(s, y, x);
    SecondAdd(s, x, y);
    SecondAdd(s, y, x);
    AddIsInjective(s, x, y);
    var e := (s.a + x + y) % BASE;
    if (Add(s, x).b + e) % BASE == (Add(s, y).b + e) % BASE {
      SameShift(Add(s, x).b, Add(s, y).b, e);
      assert false;
    }
  }

  lemma SecondAdd(s: Sums, x: byte, y: byte)
    ensures var e := (s.a + x + y) % BASE;
            Add(Add(s, x), y) == Sums(e, (Add(s, x).b + e) % BASE)
  {
    AddRemainder(s.a + x, y);
  }

  lemma AddIsInjective(s: Sums, x: byte, y: byte)
    requires Reduced(s) && x != y
    ensures Reduced(Add(s, x)) && Reduced(Add(s, y)) && Add(s, x).b != Add(s, y).b
  {
    var a, c := Add(s, x).a, Add(s, y).a;
    if Add(s, x).b == Add(s, y).b {
      SameShift(a, c, s.b);
      SmallShift(s.a, x, y);
    }
  }

  lemma TwoBytes(s: Sums, x: byte, y: byte)
    ensures Continue32(s, [x, y]) == Add(Add(s, x), y)
  {
    hide Add;
    assert [x, y] == [x] + [y];
    ContinueAppend(s, [x], [y]);
    OneByte(s, x);
    OneByte(Add(s, x), y);
  }

  lemma OneByte(s: Sums, x: byte)
    ensures Continue32(s, [x]) == Add(s, x)
  {
    hide Add;
    var rest := [x][1..];
    assert rest == [];
    assert Continue32(Add(s, x), rest) == Add(s, x);
  }

  lemma AddRemainder(u: nat, y: nat)
    ensures (u % BASE + y) % BASE == (u + y) % BASE
  {
    var v := u % BASE + y;
    var k := u / BASE + v / BASE;
    assert u + y == BASE * k + v % BASE;
    assert BASE * ((u + y) / BASE - k) == v % BASE - (u + y) % BASE;
  }

  // ---- the formula of the checksum ----

  function Total(data: Bytes): nat {
    if data == [] then 0 else data[0] as int + Total(data[1..])
  }

  /** The first byte as often as there are bytes, the second once less, down to the last one once. */
  function Weighted(data: Bytes): nat {
    if data == [] then 0 else |data| * data[0] as int + Weighted(data[1..])
  }

  /** The checksum as section 2.2 of RFC 1950 gives it in closed form. */
  function ClosedForm(data: Bytes): nat {
    (|data| + Weighted(data)) % 65521 * 0x1_0000 + (1 + Total(data)) % 65521
  }

  /** The two sums without any reduction. */
  function Plain(s: Sums, data: Bytes): Sums
    decreases |data|
  {
    if data == [] then s else Plain(PlainAdd(s, data[0]), data[1..])
  }

  function PlainAdd(s: Sums, x: byte): Sums {
    Sums(s.a + x as int, s.b + s.a + x as int)
  }

  predicate Congruent(s: Sums, t: Sums) {
    SameResidue(s.a, t.a) && SameResidue(s.b, t.b)
  }

  predicate SameResidue(x: nat, y: nat) {
    x % BASE == y % BASE
  }

  lemma {:induction false} StaysCongruent(s: Sums, t: Sums, data: Bytes)
    requires Congruent(s, t)
    ensures Congruent(Continue32(s, data), Plain(t, data))
    decreases |data|
  {
    hide Add, PlainAdd, Congruent;
    if data != [] {
      AddCongruent(s, t, data[0]);
      StaysCongruent(Add(s, data[0]), PlainAdd(t, data[0]), data[1..]);
    }
  }

  lemma AddCongruent(s: Sums, t: Sums, x: byte)
    requires Congruent(s, t)
    ensures Congruent(Add(s, x), PlainAdd(t, x))
  {
    hide SameResidue;
    SumResidue(s.a, t.a, x, x);
    SumResidue(s.b, t.b, Add(s, x).a, t.a + x as int);
  }

  lemma SumResidue(u: nat, v: nat, c: nat, d: nat)
    requires SameResidue(u, v) && SameResidue(c, d)
    ensures SameResidue((u + c) % BASE, v + d)
  {
    var k := u / BASE + c / BASE - v / BASE - d / BASE;
    assert u + c == v + d + BASE * k;
    assert BASE * ((u + c) / BASE - (v + d) / BASE - k) == (v + d) % BASE - (u + c) % BASE;
  }

  lemma {:induction false} PlainFormula(s: Sums, data: Bytes)
    ensures Plain(s, data) == Sums(s.a + Total(data), s.b + |data| * s.a + Weighted(data))
    decreases |data|
  {
    if data != [] {
      var x, n, rest := data[0] as int, |data|, data[1..];
      PlainFormula(PlainAdd(s, data[0]), rest);
      assert (n - 1) * (s.a + x) == n * s.a + n * x - s.a - x;
    }
  }

  lemma AdlerFormula(data: Bytes)
    ensures var n := ClosedForm(data);
            n < 0x1_0000_0000 && Adler32(data) == if n < 0x8000_0000 then n else n - 0x1_0000_0000
  {
    hide Continue32, Plain, Weighted, Total;
    StaysCongruent(Sums(1, 0), Sums(1, 0), data);
    PlainFormula(Sums(1, 0), data);
    StaysReduced(Sums(1, 0), data);
  }

  // ---- checksum ----

  datatype Unwrapped = Threw | Rejected | Unwrapped(data: Bytes)

  function AddChecksum(input: Bytes): (p: Bytes)
    ensures |p| == 4 + |input|
  {
    PackInt(Adler32(input)).value + input
  }

  function TestChecksum(input: Bytes): Unwrapped {
    if |input| < 4 then Threw
    else if UnpackInt(input[..4]) != Some(Adler32(input[4..])) then Rejected else Unwrapped(input[4..])
  }

  /** The checksum stands in front of the data, the most significant byte first. */
  lemma ChecksumFormat(input: Bytes)
    ensures var p := AddChecksum(input);
            p[4..] == input && BigEndianValue(p[..4]) == ClosedForm(input)
  {
    hide Adler32, PackInt, SignedValue, BigEndianValue, ClosedForm;
    var p, sum := AddChecksum(input), Adler32(input);
    PackIntFormat(sum);
    assert p[..4] == PackInt(sum).value && p[4..] == input;
    AdlerFormula(input);
    SameBits(p[..4], ClosedForm(input));
  }

  lemma SameBits(b: Bytes, n: nat)
    requires |b| == 4 && n < 0x1_0000_0000 && SignedValue(b) == if n < 0x8000_0000 then n else n - 0x1_0000_0000
    ensures BigEndianValue(b) == n
  {
    hide BigEndianValue, Unsigned32;
    Unsigned32Value(b);
    assert b[..4] == b;
  }

  /** Exactly what `AddChecksum` made passes the test, and gives its input back. */
  lemma ChecksumInverts(input: Bytes, data: Bytes)
    ensures TestChecksum(input) == Unwrapped(data) <==> input == AddChecksum(data)
  {
    hide Adler32;
    UnpackPacked(Adler32(data));
    var sum := PackInt(Adler32(data)).value;
    assert (sum + data)[..4] == sum && (sum + data)[4..] == data;
    if TestChecksum(input) == Unwrapped(data) {
      PackUnpacked(input[..4]);
      assert input == input[..4] + input[4..];
    }
  }

  /** A package that passes no longer does when one of its bytes is changed, be it one of the checksum
      or of the data. */
  lemma OneByteIsNoticed(input: Bytes, i: nat, v: byte)
    requires TestChecksum(input).Unwrapped? && i < |input| && v != input[i]
    ensures TestChecksum(input[i := v]) == Rejected
  {
    hide Adler32;
    var changed := input[i := v];
    if i < 4 {
      assert changed[4..] == input[4..];
      PackUnpacked(input[..4]);
      PackUnpacked(changed[..4]);
      assert changed[..4][i] != input[..4][i];
    } else {
      assert changed[..4] == input[..4] && changed[4..] == input[4..][i - 4 := v];
      ByteChangesChecksum(input[4..], i - 4, v);
    }
  }

  // ---- padded ciphers ----

  /** A block cipher under a fixed key and initial vector, on inputs of whole blocks. */
  datatype Cipher = Cipher(encrypt: Bytes -> Bytes, decrypt: Bytes -> Bytes) {
    ghost predicate Inverts() {
      forall x :: |x| % 16 == 0 ==> decrypt(encrypt(x)) == x
    }
  }

  function Pad(input: Bytes): (p: Bytes)
    ensures |p| % 16 == 0 && input <= p
    ensures |p| < |input| + 16
  {
    var t := |input| % 16;
    if t != 0 then input + seq(16 - t, _ => 0x5f) else input
  }

  /** `s[0:n]`, where a negative `n` counts from the end. */
  function Slice(s: Bytes, n: int): Bytes {
    var m := if n < 0 then n + |s| else n;
    if m < 0 then [] else if m > |s| then s else s[..m]
  }

  /** `AESEncrypt` and `TDESEncrypt`. */
  function Encrypt(c: Cipher, input: Bytes): Unwrapped {
    match PackInt(|input|)
    case None => Threw
    case Some(length) => Unwrapped(length + c.encrypt(Pad(input)))
  }

  /** `AESDecrypt` and `TDESDecrypt`. */
  function Decrypt(c: Cipher, input: Bytes): Unwrapped {
    if |input| < 4 then Threw else
    match UnpackInt(input[..4])
    case None => Threw
    case Some(length) => Unwrapped(Slice(c.decrypt(input[4..]), length))
  }

  /** Filled up with underscores to a whole number of blocks. */
  predicate Padded(input: Bytes, p: Bytes) {
    && |p| % 16 == 0 && |p| < |input| + 16 && input <= p
    && forall i :: |input| <= i < |p| ==> p[i] as int == '_' as int
  }

  /** The length as a signed number, and then the padded input under the cipher. */
  ghost predicate Ciphered(c: Cipher, input: Bytes, output: Bytes) {
    |output| >= 4 && SignedValue(output[..4]) == |input| && exists p :: Padded(input, p) && output[4..] == c.encrypt(p)
  }

  lemma EncryptFormat(c: Cipher, input: Bytes)
    ensures Encrypt(c, input).Unwrapped? <==> |input| < 0x8000_0000
    ensures Encrypt(c, input).Unwrapped? ==> Ciphered(c, input, Encrypt(c, input).data)
  {
    hide SignedValue;
    PackIntFormat(|input|);
    assert Padded(input, Pad(input));
    if |input| < 0x8000_0000 {
      var length, output := PackInt(|input|).value, Encrypt(c, input).data;
      assert output[..4] == length && output[4..] == c.encrypt(Pad(input));
    }
  }

  /** Decryption fails only for want of a length; it keeps as much of the plain text as the length says,
      or, if that is negative, leaves as much of its end away. */
  lemma DecryptFormat(c: Cipher, input: Bytes)
    ensures Decrypt(c, input).Threw? <==> |input| < 4
    ensures |input| >= 4 ==>
              Decrypt(c, input).Unwrapped? &&
              var plain, n, out := c.decrypt(input[4..]), SignedValue(input[..4]), Decrypt(c, input).data;
              && out <= plain
              && |out| == if n > |plain| then |plain| else if n >= 0 then n else if n > -|plain| then n + |plain| else 0
  {
    hide SignedValue;
    if |input| >= 4 {
      UnpackIntFormat(input[..4]);
    }
  }

  lemma CipherInverts(c: Cipher, input: Bytes)
    requires c.Inverts() && |input| < 0x8000_0000
    ensures Encrypt(c, input).Unwrapped? && Decrypt(c, Encrypt(c, input).data) == Unwrapped(input)
  {
    UnpackPacked(|input|);
    var length, text := PackInt(|input|).value, c.encrypt(Pad(input));
    assert (length + text)[..4] == length && (length + text)[4..] == text;
  }

  // ---- compression ----

  /** The deflate library; None when it raises on data that it did not make. */
  datatype Deflate = Deflate(compress: Bytes -> Bytes, decompress: Bytes -> Option<Bytes>) {
    ghost predicate Inverts() {
      forall x :: decompress(compress(x)) == Some(x)
    }
  }

  function CompressData(z: Deflate, input: Bytes): Unwrapped {
    match PackInt(|input|)
    case None => Threw
    case Some(length) => Unwrapped(length + z.compress(input))
  }

  function UncompressData(z: Deflate, input: Bytes): Unwrapped {
    if |input| < 4 then Threw else
    match z.decompress(input[4..])
    case None => Threw
    case Some(data) => Unwrapped(data)
  }

  lemma CompressionInverts(z: Deflate, input: Bytes)
    requires z.Inverts() && |input| < 0x8000_0000
    ensures CompressData(z, input).Unwrapped? && |CompressData(z, input).data| >= 4
    ensures UncompressData(z, CompressData(z, input).data) == Unwrapped(input)
  {
    var length := PackInt(|input|).value;
    assert (length + z.compress(input))[4..] == z.compress(input);
  }

  // ---- all of them ----

  /** Compression, checksum, triple DES, AES: the order of the filters of `SerializeFilter`. */
  function Wrap(z: Deflate, tdes: Cipher, aes: Cipher, data: Bytes): Unwrapped {
    match CompressData(z, data)
    case Unwrapped(compressed) =>
      (match Encrypt(tdes, AddChecksum(compressed))
       case Unwrapped(text) => Encrypt(aes, text)
       case other => other)
    case other => other
  }

  /** The way back of `DeserializeFilter`, which also refuses an empty body. */
  function Unwrap(z: Deflate, tdes: Cipher, aes: Cipher, input: Bytes): Unwrapped {
    match Decrypt(aes, input)
    case Unwrapped(text) =>
      (match Decrypt(tdes, text)
       case Unwrapped(sealed) =>
         (match TestChecksum(sealed)
          case Unwrapped(compressed) => if compressed == [] then Rejected else UncompressData(z, compressed)
          case other => other)
       case other => other)
    case other => other
  }

  lemma CompressFormat(z: Deflate, data: Bytes)
    requires CompressData(z, data).Unwrapped?
    ensures var p := CompressData(z, data).data;
            |p| >= 4 && SignedValue(p[..4]) == |data| && p[4..] == z.compress(data)
  {
    PackIntFormat(|data|);
  }

  /** What all filters make, from the inside out: compressed data behind its own length, behind the
      checksum, under triple DES behind that length, under AES behind that one. */
  lemma WrapLayers(z: Deflate, tdes: Cipher, aes: Cipher, data: Bytes)
    returns (compressed: Bytes, sealed: Bytes, text: Bytes)
    requires Wrap(z, tdes, aes, data).Unwrapped?
    ensures |compressed| >= 4 && SignedValue(compressed[..4]) == |data| && compressed[4..] == z.compress(data)
    ensures |sealed| >= 4 && sealed[4..] == compressed && BigEndianValue(sealed[..4]) == ClosedForm(compressed)
    ensures Ciphered(tdes, sealed, text) && Ciphered(aes, text, Wrap(z, tdes, aes, data).data)
  {
    hide CompressData, AddChecksum, Encrypt, SignedValue, BigEndianValue, ClosedForm, Ciphered;
    compressed := CompressData(z, data).data;
    sealed := AddChecksum(compressed);
    text := Encrypt(tdes, sealed).data;
    CompressFormat(z, data);
    ChecksumFormat(compressed);
    EncryptFormat(tdes, sealed);
    EncryptFormat(aes, text);
  }

  /** Whatever all filters wrapped comes out as it was. */
  lemma FiltersInvert(z: Deflate, tdes: Cipher, aes: Cipher, data: Bytes)
    requires z.Inverts() && tdes.Inverts() && aes.Inverts() && Wrap(z, tdes, aes, data).Unwrapped?
    ensures Unwrap(z, tdes, aes, Wrap(z, tdes, aes, data).data) == Unwrapped(data)
  {
    hide TestChecksum, AddChecksum, Decrypt;
    CompressionInverts(z, data);
    var compressed := CompressData(z, data).data;
    ChecksumInverts(AddChecksum(compressed), compressed);
    CipherInverts(tdes, AddChecksum(compressed));
    CipherInverts(aes, Encrypt(tdes, AddChecksum(compressed)).data);
  }

  /** With ciphers that keep lengths, that is every body small enough after compression. */
  lemma WrapSucceeds(z: Deflate, tdes: Cipher, aes: Cipher, data: Bytes)
    requires forall x :: |tdes.encrypt(x)| == |x|
    requires |data| < 0x8000_0000 && |z.compress(data)| < 0x7fff_ffe0
    ensures Wrap(z, tdes, aes, data).Unwrapped?
  {
    var compressed := CompressData(z, data).data;
    assert |compressed| == 4 + |z.compress(data)|;
  }
}
