/** The hex dump of the packet sniffer. */
module HexDump {
  import opened Bytes

  // ---- printf ----

  class Output {
    var text: string

    constructor ()
      ensures text == ""
    {
      text := "";
    }

    method Print(s: string)
      modifies this
      ensures text == old(text) + s
    {
      text := text + s;
    }
  }

  function Digit(d: nat): (c: char)
    requires d < 16
    ensures c != ' '
  {
    "0123456789abcdef"[d]
  }

  /** `%d` for a number that is not negative. */
  function Decimal(n: nat): (s: string)
    ensures |s| >= 1
  {
    if n < 10 then [Digit(n)] else Decimal(n / 10) + [Digit(n % 10)]
  }

  /** `%05d`. */
  function Offset(n: nat): (s: string)
    ensures |s| >= 5
  {
    var s := Decimal(n);
    if |s| < 5 then seq(5 - |s|, _ => '0') + s else s
  }

  /** `%02x`. */
  function Hex(b: byte): string {
    [Digit(b / 16), Digit(b % 16)]
  }

  /** `isprint` in the C locale. */
  function Shown(b: byte): char {
    if 0x20 <= b < 0x7f then b as int as char else '.'
  }

  function Spaces(n: nat): (s: string)
    ensures |s| == n && forall i :: 0 <= i < n ==> s[i] == ' '
  {
    seq(n, _ => ' ')
  }

  // ---- one row ----

  /** The first `i` bytes of a row in hex, with the extra space behind the eighth. */
  function Hexes(p: Bytes, i: nat): (s: string)
    requires i <= |p|
    ensures |s| == 3 * i + if i > 7 then 1 else 0
  {
    if i == 0 then "" else Hexes(p, i - 1) + Hex(p[i - 1]) + " " + if i - 1 == 7 then " " else ""
  }

  function Text(p: Bytes): (s: string)
    ensures |s| == |p|
  {
    seq(|p|, i requires 0 <= i < |p| => Shown(p[i]))
  }

  /** The hex columns, filled up with spaces to the width of a full row. */
  function Columns(p: Bytes): (s: string)
    requires |p| <= 16
    ensures |s| == 49
  {
    Hexes(p, |p|) + (if |p| < 8 then " " else "") + Spaces(3 * (16 - |p|))
  }

  function Row(p: Bytes, offset: nat): (s: string)
    requires |p| <= 16
    ensures |s| == |Offset(offset)| + 56 + |p|
  {
    Offset(offset) + "   " + Columns(p) + "   " + Text(p) + "\n"
  }

  method PrintHex(out: Output, payload: Bytes, len: nat)
    requires len <= |payload|
    modifies out
    ensures out.text == old(out.text) + Hexes(payload[..len], len)
  {
    ghost var p := payload[..len];
    var ch := 0;
    for i := 0 to len
      invariant ch == i && out.text == old(out.text) + Hexes(p, i)
    {
      out.Print(Hex(payload[ch]) + " ");
      ch := ch + 1;
      if i == 7 {
        out.Print(" ");
      }
      assert out.text == old(out.text) + Hexes(p, i + 1);
    }
  }

  method PrintGap(out: Output, gap: nat)
    modifies out
    ensures out.text == old(out.text) + Spaces(3 * gap)
  {
    for i := 0 to gap
      invariant out.text == old(out.text) + Spaces(3 * i)
    {
      out.Print("   ");
      assert Spaces(3 * i) + "   " == Spaces(3 * i + 3);
    }
  }

  method PrintText(out: Output, payload: Bytes, len: nat)
    requires len <= |payload|
    modifies out
    ensures out.text == old(out.text) + Text(payload[..len])
  {
    ghost var text := Text(payload[..len]);
    var ch := 0;
    for i := 0 to len
      invariant ch == i && out.text == old(out.text) + text[..i]
    {
      if 0x20 <= payload[ch] < 0x7f {
        out.Print([payload[ch] as int as char]);
      } else {
        out.Print(".");
      }
      assert text[..i + 1] == text[..i] + [Shown(payload[ch])];
      ch := ch + 1;
    }
    assert text[..len] == text;
  }

  method PrintHexAsciiLine(out: Output, payload: Bytes, ch: nat, len: nat, offset: nat)
    requires len <= 16 && ch + len <= |payload|
    modifies out
    ensures out.text == old(out.text) + Shows(payload, ch, len, offset)
  {
    hide Hexes, Offset, Text, Spaces;
    var line := payload[ch..];
    ghost var p := line[..len];
    out.Print(Offset(offset));
    out.Print("   ");
    PrintHex(out, line, len);
    if len < 8 {
      out.Print(" ");
    }
    assert Spaces(0) == "";
    if len < 16 {
      var gap := 16 - len;
      PrintGap(out, gap);
    }
    ghost var row := Offset(offset) + "   " + Columns(p);
    assert out.text == old(out.text) + row;
    hide Columns;
    out.Print("   ");
    PrintText(out, line, len);
    out.Print("\n");
    Regroup(old(out.text), row, "   ");
    Regroup(old(out.text), row + "   ", Text(p));
    Regroup(old(out.text), row + "   " + Text(p), "\n");
  }

  // ---- all rows ----

  function RowCount(p: Bytes): nat {
    (|p| + 15) / 16
  }

  /** The bytes of row `k`. */
  function Part(p: Bytes, k: nat): (part: Bytes)
    requires k < RowCount(p)
    ensures 0 < |part| <= 16
  {
    p[16 * k..if 16 * k + 16 < |p| then 16 * k + 16 else |p|]
  }

  /** The rows from number `k`, each labelled with the index of its first byte. */
  function RowsFrom(p: Bytes, k: nat): string
    requires k <= RowCount(p)
    decreases RowCount(p) - k
  {
    if k == RowCount(p) then "" else Row(Part(p, k), 16 * k) + RowsFrom(p, k + 1)
  }

  /** The rows of the first `len` bytes. */
  function Dump(payload: Bytes, len: int): string
    requires len <= |payload|
  {
    if len <= 0 then "" else RowsFrom(payload[..len], 0)
  }

  method PrintPayload(out: Output, payload: Bytes, len: int)
    requires len <= |payload|
    modifies out
    ensures out.text == old(out.text) + Dump(payload, len)
  {
    hide Dump, DumpFrom, Shows;
    var lenRem := len;
    var lineWidth := 16;
    var offset := 0;
    var ch := 0;
    StartDump(payload, len);
    if len <= 0 {
      return;
    }
    if len <= lineWidth {
      LastRow(payload, len, ch, len, offset);
      PrintHexAsciiLine(out, payload, ch, len, offset);
      return;
    }
    ghost var before := out.text;
    ghost var done, rest := "", DumpFrom(payload, len, 0);
    while true
      invariant 16 < lenRem && lenRem + ch == len && ch == offset && ch % 16 == 0
      invariant out.text == before + done && done + rest == Dump(payload, len) && rest == DumpFrom(payload, len, ch)
      decreases lenRem
    {
      var lineLen := lineWidth % lenRem;
      NextRow(payload, len, ch, offset);
      ghost var row := Shows(payload, ch, lineLen, offset);
      PrintHexAsciiLine(out, payload, ch, lineLen, offset);
      assert out.text == before + done + row;
      lenRem := lenRem - lineLen;
      ch := ch + lineLen;
      offset := offset + lineWidth;
      Regroup(done, row, DumpFrom(payload, len, ch));
      Regroup(before, done, row);
      done, rest := done + row, DumpFrom(payload, len, ch);
      if lenRem <= lineWidth {
        LastRow(payload, len, ch, lenRem, offset);
        PrintHexAsciiLine(out, payload, ch, lenRem, offset);
        Regroup(before, done, rest);
        break;
      }
    }
  }

  /** What `PrintHexAsciiLine` prints from position `ch`. */
  function Shows(payload: Bytes, ch: nat, len: nat, offset: nat): string
    requires ch + len <= |payload| && len <= 16
  {
    Row(payload[ch..][..len], offset)
  }

  /** What is left to print at position `ch`. */
  function DumpFrom(payload: Bytes, len: nat, ch: nat): string
    requires ch < len <= |payload|
  {
    RowsFrom(payload[..len], ch / 16)
  }

  lemma StartDump(payload: Bytes, len: int)
    requires len <= |payload|
    ensures Dump(payload, len) == if len <= 0 then "" else DumpFrom(payload, len, 0)
  {
    hide RowsFrom;
  }

  lemma NextRow(payload: Bytes, len: nat, ch: nat, offset: nat)
    requires ch == offset && ch % 16 == 0 && ch + 16 < len <= |payload|
    ensures DumpFrom(payload, len, ch) == Shows(payload, ch, 16, offset) + DumpFrom(payload, len, ch + 16)
  {
    hide Row;
    var p, k := payload[..len], ch / 16;
    assert ch == 16 * k && RowCount(p) > k + 1;
    assert payload[ch..][..16] == p[ch..ch + 16];
    assert Part(p, k) == p[ch..ch + 16];
  }

  lemma LastRow(payload: Bytes, len: nat, ch: nat, lenRem: nat, offset: nat)
    requires 0 < lenRem <= 16 && ch + lenRem == len <= |payload| && ch == offset && ch % 16 == 0
    ensures DumpFrom(payload, len, ch) == Shows(payload, ch, lenRem, offset)
  {
    hide Row;
    var p, k := payload[..len], ch / 16;
    assert RowCount(p) == k + 1;
    assert RowsFrom(p, k + 1) == "";
    assert payload[ch..][..lenRem] == p[ch..];
    assert Part(p, k) == p[ch..];
  }

  lemma Regroup(a: string, b: string, c: string)
    ensures a + b + c == a + (b + c)
  {
  }

  // ---- what can be read off ----

  /** The bytes of the first `k` rows, row by row. */
  function Parts(p: Bytes, k: nat): seq<Bytes>
    requires k <= RowCount(p)
  {
    if k == 0 then [] else Parts(p, k - 1) + [Part(p, k - 1)]
  }

  lemma {:induction false} PartsSoFar(p: Bytes, k: nat)
    requires k <= RowCount(p)
    ensures Concat(Parts(p, k)) == p[..if 16 * k < |p| then 16 * k else |p|]
  {
    if k > 0 {
      PartsSoFar(p, k - 1);
      var last := [Part(p, k - 1)];
      ConcatAppend(Parts(p, k - 1), last);
      assert last[1..] == [];
      assert Concat(last) == Part(p, k - 1);
    }
  }

  /** The rows take the payload apart in order, and all but the last have 16 bytes. */
  lemma RowsPartitionThePayload(p: Bytes)
    ensures Concat(Parts(p, RowCount(p))) == p
    ensures forall k :: 0 <= k < RowCount(p) - 1 ==> |Part(p, k)| == 16
  {
    PartsSoFar(p, RowCount(p));
    assert p[..|p|] == p;
  }

  /** Where the two hex digits of byte `i` of a row stand. */
  function Column(i: nat): nat {
    3 * i + if i > 7 then 1 else 0
  }

  lemma {:induction false} HexesAt(p: Bytes, n: nat, i: nat)
    requires i < n <= |p|
    ensures Hexes(p, n)[Column(i)..Column(i) + 2] == Hex(p[i])
  {
    var last := Hexes(p, n - 1);
    if i < n - 1 {
      HexesAt(p, n - 1, i);
      assert Hexes(p, n)[Column(i)..Column(i) + 2] == last[Column(i)..Column(i) + 2];
    }
  }

  lemma ByteAt(p: Bytes, i: nat)
    requires i < |p| <= 16
    ensures Columns(p)[Column(i)..Column(i) + 2] == Hex(p[i])
  {
    HexesAt(p, |p|, i);
    hide Hexes, Hex, Spaces;
    var hexes := Hexes(p, |p|);
    var fill := (if |p| < 8 then " " else "") + Spaces(3 * (16 - |p|));
    assert Columns(p) == hexes + fill;
    assert (hexes + fill)[Column(i)..Column(i) + 2] == hexes[Column(i)..Column(i) + 2];
  }

  lemma BlankAt(p: Bytes, i: nat)
    requires |p| <= i < 16
    ensures Columns(p)[Column(i)] == Columns(p)[Column(i) + 1] == ' '
  {
    hide Hexes, Spaces;
    var hexes := Hexes(p, |p|) + if |p| < 8 then " " else "";
    assert Columns(p) == hexes + Spaces(3 * (16 - |p|));
    assert |hexes| == 3 * |p| + 1;
    assert Column(i) < |hexes| ==> Column(i) == |hexes| - 1 && |p| < 8;
  }

  /** A row shows byte `i` in its columns, and spaces where it has no byte. */
  lemma ColumnsAt(p: Bytes, i: nat)
    requires |p| <= 16 && i < 16
    ensures Columns(p)[Column(i)..Column(i) + 2] == if i < |p| then Hex(p[i]) else "  "
  {
    hide Columns;
    if i < |p| {
      ByteAt(p, i);
    } else {
      BlankAt(p, i);
    }
  }

  /** The value of a hexadecimal digit. */
  function HexDigitValue(c: char): int {
    if '0' <= c <= '9' then c as int - '0' as int
    else if 'a' <= c <= 'f' then 10 + (c as int - 'a' as int)
    else -1
  }

  lemma HexFormat(b: byte)
    ensures |Hex(b)| == 2
    ensures var high, low := HexDigitValue(Hex(b)[0]), HexDigitValue(Hex(b)[1]);
            0 <= high < 16 && 0 <= low < 16 && b == 16 * high + low
  {
    DigitFormat(b / 16);
    DigitFormat(b % 16);
  }

  lemma DigitFormat(d: nat)
    requires d < 16
    ensures HexDigitValue(Digit(d)) == d
  {
  }

  /** The places of the columns between the digits of two bytes, and the one in the middle. */
  predicate Between(j: nat) {
    j == 24 || (if j < 24 then j else j - 1) % 3 == 2
  }

  lemma {:induction false} HexesGaps(p: Bytes, n: nat, j: nat)
    requires n <= |p| && j < |Hexes(p, n)| && Between(j)
    ensures Hexes(p, n)[j] == ' '
  {
    hide Hex;
    HexFormat(p[n - 1]);
    if j < |Hexes(p, n - 1)| {
      HexesGaps(p, n - 1, j);
    }
  }

  lemma ColumnGaps(p: Bytes, j: nat)
    requires |p| <= 16 && j < 49 && Between(j)
    ensures Columns(p)[j] == ' '
  {
    hide Hexes, Spaces;
    var hexes := Hexes(p, |p|) + if |p| < 8 then " " else "";
    assert Columns(p) == hexes + Spaces(3 * (16 - |p|));
    if j < |Hexes(p, |p|)| {
      HexesGaps(p, |p|, j);
    }
  }

  /** What a reader finds in a row: for every byte two hexadecimal digits of its value, and behind the
      columns the byte itself if it is from 32 to 126, and otherwise a dot. */
  lemma RowReads(p: Bytes, offset: nat, i: nat)
    requires |p| <= 16 && i < |p|
    ensures var row := Row(p, offset)[|Offset(offset)|..];
            var c := if i < 8 then 3 + 3 * i else 4 + 3 * i;
            var high, low := HexDigitValue(row[c]), HexDigitValue(row[c + 1]);
            && 0 <= high < 16 && 0 <= low < 16 && p[i] == 16 * high + low
            && row[55 + i] as int == if 32 <= p[i] <= 126 then p[i] as int else '.' as int
  {
    hide Offset, Columns, Hex;
    var row, c := Row(p, offset)[|Offset(offset)|..], Column(i);
    RowParts(p, offset);
    ByteAt(p, i);
    HexFormat(p[i]);
    assert row[3 + c] == Columns(p)[c..c + 2][0] && row[4 + c] == Columns(p)[c..c + 2][1];
    assert row[55 + i] == Text(p)[i];
  }

  lemma RowParts(p: Bytes, offset: nat)
    requires |p| <= 16
    ensures var row := Row(p, offset)[|Offset(offset)|..];
            && |row| == 56 + |p| && row[..3] == row[52..55] == "   " && row[3..52] == Columns(p)
            && row[55..55 + |p|] == Text(p) && row[55 + |p|] == '\n'
  {
    hide Offset, Columns, Text;
    var row := Row(p, offset)[|Offset(offset)|..];
    assert row == "   " + Columns(p) + "   " + Text(p) + "\n";
  }

  /** Every other place before the text is blank, and the row ends its line. */
  lemma RowBlanks(p: Bytes, offset: nat, j: nat)
    requires |p| <= 16 && j < 55
    ensures var row := Row(p, offset)[|Offset(offset)|..];
            && |row| == 56 + |p| && row[55 + |p|] == '\n'
            && (j < 3 || j >= 52 || Between(j - 3) ==> row[j] == ' ')
            && (forall i :: |p| <= i < 16 && (j == 3 + Column(i) || j == 4 + Column(i)) ==> row[j] == ' ')
  {
    hide Offset, Columns;
    var row := Row(p, offset)[|Offset(offset)|..];
    RowParts(p, offset);
    assert j < 3 ==> row[j] == row[..3][j];
    assert 52 <= j ==> row[j] == row[52..55][j - 52];
    if 3 <= j < 52 {
      assert row[j] == Columns(p)[j - 3];
      if Between(j - 3) {
        ColumnGaps(p, j - 3);
      }
      forall i | |p| <= i < 16 ensures Columns(p)[Column(i)] == Columns(p)[Column(i) + 1] == ' ' {
        BlankAt(p, i);
      }
    }
  }

  lemma HexInjective(a: byte, b: byte)
    requires Hex(a) == Hex(b)
    ensures a == b
  {
    DigitInjective(a / 16, b / 16);
    DigitInjective(a % 16, b % 16);
    assert Hex(a)[0] == Hex(b)[0] && Hex(a)[1] == Hex(b)[1];
  }

  lemma DigitInjective(a: nat, b: nat)
    requires a < 16 && b < 16
    ensures Digit(a) == Digit(b) <==> a == b
  {
  }

  /** The columns determine the bytes of a row. */
  lemma ColumnsInjective(p: Bytes, q: Bytes)
    requires |p| <= 16 && |q| <= 16 && Columns(p) == Columns(q)
    ensures p == q
  {
    hide Columns;
    if |p| != |q| {
      var i := if |p| < |q| then |p| else |q|;
      ColumnsAt(p, i);
      ColumnsAt(q, i);
      assert false;
    }
    forall i | 0 <= i < |p| ensures p[i] == q[i] {
      ColumnsAt(p, i);
      ColumnsAt(q, i);
      HexInjective(p[i], q[i]);
    }
  }

  /** What follows a row does not matter for reading it. */
  lemma RowInjective(p: Bytes, q: Bytes, offset: nat, x: string, y: string)
    requires |p| <= 16 && |q| <= 16 && Row(p, offset) + x == Row(q, offset) + y
    ensures p == q && x == y
  {
    hide Columns, Offset;
    var w := |Offset(offset)| + 3;
    assert (Row(p, offset) + x)[w..w + 49] == Columns(p);
    assert (Row(q, offset) + y)[w..w + 49] == Columns(q);
    ColumnsInjective(p, q);
    assert (Row(p, offset) + x)[|Row(p, offset)|..] == x;
    assert (Row(q, offset) + y)[|Row(p, offset)|..] == y;
  }

  lemma {:induction false} RowsInjective(p: Bytes, q: Bytes, k: nat)
    requires k <= RowCount(p) && k <= RowCount(q) && RowsFrom(p, k) == RowsFrom(q, k)
    ensures RowCount(p) == RowCount(q)
    ensures forall i :: k <= i < RowCount(p) ==> Part(p, i) == Part(q, i)
    decreases RowCount(p) - k
  {
    hide Row, Part, RowCount;
    if k < RowCount(p) && k < RowCount(q) {
      RowInjective(Part(p, k), Part(q, k), 16 * k, RowsFrom(p, k + 1), RowsFrom(q, k + 1));
      RowsInjective(p, q, k + 1);
    }
  }

  lemma {:induction false} SameParts(p: Bytes, q: Bytes, k: nat)
    requires k <= RowCount(p) && k <= RowCount(q) && forall i :: 0 <= i < k ==> Part(p, i) == Part(q, i)
    ensures Parts(p, k) == Parts(q, k)
  {
    hide Part, RowCount;
    if k > 0 {
      SameParts(p, q, k - 1);
    }
  }

  /** The dump is lossless: equal dumps come from equal payloads only. */
  lemma DumpIsLossless(p: Bytes, q: Bytes)
    ensures Dump(p, |p|) == Dump(q, |q|) <==> p == q
  {
    hide Part, RowsFrom, RowCount;
    AllRows(p);
    AllRows(q);
    if Dump(p, |p|) == Dump(q, |q|) {
      RowsInjective(p, q, 0);
      SameParts(p, q, RowCount(p));
      RowsPartitionThePayload(p);
      RowsPartitionThePayload(q);
    }
  }

  /** Row number `k` stands behind those before it and is labelled with the number of their bytes. */
  lemma {:induction false} RowAt(p: Bytes, k: nat) returns (before: string, after: string)
    requires k < RowCount(p)
    ensures Dump(p, |p|) == before + Row(Part(p, k), |Concat(Parts(p, k))|) + after
    ensures after == RowsFrom(p, k + 1)
  {
    hide Row, Dump, Part, Concat, Parts, RowsFrom, RowCount;
    BytesBefore(p, k);
    FirstRow(p, k);
    after := RowsFrom(p, k + 1);
    if k == 0 {
      AllRows(p);
      before := "";
    } else {
      var rest;
      before, rest := RowAt(p, k - 1);
      before := before + Row(Part(p, k - 1), |Concat(Parts(p, k - 1))|);
    }
    Regroup(before, Row(Part(p, k), 16 * k), after);
  }

  lemma BytesBefore(p: Bytes, k: nat)
    requires k < RowCount(p)
    ensures |Concat(Parts(p, k))| == 16 * k
  {
    PartsSoFar(p, k);
  }

  lemma FirstRow(p: Bytes, k: nat)
    requires k < RowCount(p)
    ensures RowsFrom(p, k) == Row(Part(p, k), 16 * k) + RowsFrom(p, k + 1)
  {
  }

  lemma AllRows(p: Bytes)
    ensures 0 <= RowCount(p) && Dump(p, |p|) == RowsFrom(p, 0)
  {
    assert p[..|p|] == p;
  }

  // ---- labels and the text column ----

  function DigitValue(c: char): int {
    c as int - '0' as int
  }

  function Value(s: string): int {
    if s == "" then 0 else 10 * Value(s[..|s| - 1]) + DigitValue(s[|s| - 1])
  }

  lemma {:induction false} DecimalValue(n: nat)
    ensures Value(Decimal(n)) == n
  {
    var s := Decimal(n);
    if n < 10 {
      assert s[..0] == "";
      assert Value(s[..0]) == 0;
    } else {
      DecimalValue(n / 10);
      assert s[..|s| - 1] == Decimal(n / 10);
    }
  }

  lemma {:induction false} LeadingZero(s: string)
    ensures Value("0" + s) == Value(s)
    decreases |s|
  {
    var t := "0" + s;
    if s == "" {
      assert t[..0] == "";
      assert Value(t[..0]) == 0;
    } else {
      assert t[..|t| - 1] == "0" + s[..|s| - 1];
      LeadingZero(s[..|s| - 1]);
    }
  }

  lemma {:induction false} LeadingZeros(k: nat, s: string)
    ensures Value(seq(k, _ => '0') + s) == Value(s)
  {
    if k == 0 {
      assert seq(0, _ => '0') + s == s;
    } else {
      LeadingZeros(k - 1, s);
      LeadingZero(seq(k - 1, _ => '0') + s);
      assert seq(k, _ => '0') + s == "0" + (seq(k - 1, _ => '0') + s);
    }
  }

  lemma {:induction false} DecimalWidth(n: nat, w: nat)
    requires w >= 1
    ensures |Decimal(n)| <= w <==> n < Power10(w)
    decreases w
  {
    if w == 1 {
      assert Power10(1) == 10 * Power10(0);
    } else if n < 10 {
      PowerIsPositive(w - 1);
    } else {
      DecimalWidth(n / 10, w - 1);
    }
  }

  lemma {:induction false} PowerIsPositive(w: nat)
    ensures Power10(w) >= 1
  {
    if w > 0 {
      PowerIsPositive(w - 1);
    }
  }

  function Power10(w: nat): nat {
    if w == 0 then 1 else 10 * Power10(w - 1)
  }

  /** The label of a row gives the index of its first byte. */
  lemma LabelIsOffset(offset: nat)
    ensures Value(Offset(offset)) == offset
  {
    DecimalValue(offset);
    var s := Decimal(offset);
    if |s| < 5 {
      LeadingZeros(5 - |s|, s);
    }
  }

  /** The text of a row begins at position 60 exactly when its offset is below 100000. */
  lemma TextColumn(part: Bytes, offset: nat)
    requires |part| <= 16
    ensures var w, row := |Offset(offset)| + 55, Row(part, offset);
            && row[w..] == Text(part) + "\n" && row[..|Offset(offset)|] == Offset(offset)
            && (w == 60 <==> offset < 100000)
  {
    hide Offset, Columns;
    OffsetWidth(offset);
  }

  lemma OffsetWidth(n: nat)
    ensures |Offset(n)| == 5 <==> n < 100000
  {
    assert Power10(5) == 100000;
    DecimalWidth(n, 5);
  }
}
