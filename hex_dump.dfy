/**
 * The hex dump that the editor shows for a small binary file
 * (FileEditor.toHex). Each run of 16 bytes gives one line:
 *
 *   - the line's offset as four lower-case hex digits and a space;
 *   - 16 hex slots, one per byte position, each the byte's two hex digits
 *     (two spaces when the file has ended) and a space, with an extra
 *     space before slots 0, 4, 8 and 12 and one more before slot 8;
 *   - a space, then one character per byte present, with a space before
 *     the ninth position (whether or not that byte is present);
 *   - a newline.
 *
 * Bytes are modelled by their unsigned value; the source's signed bytes
 * give the same hex digits and, cast to char, the character 0xFF00 + v
 * for a value v of 128 or more.
 *
 * A line's two columns are defined over the line's 16 digit pairs and 16
 * shown characters, computed once per line (Pairs, Glyphs).
 */
module HexDump {
  type byte = x: int | 0 <= x < 256

  const HexDigits: string := "0123456789abcdef"

  /** Bytes per line. */
  const Width: nat := 16

  function Hex(d: int): (c: char)
    requires 0 <= d < 16
    ensures c != '\n'
  {
    HexDigits[d]
  }

  /** HEX_DIGITS[(i >> 12) & 0xf] … HEX_DIGITS[i & 0xf] for a non-negative offset. */
  function Offset(i: nat): (s: string)
    ensures |s| == 4
  {
    [Hex(i / 4096 % 16), Hex(i / 256 % 16), Hex(i / 16 % 16), Hex(i % 16)]
  }

  /** The value of a lower-case hex digit. */
  function DigitValue(c: char): (d: nat)
    ensures d < 16
  {
    if '0' <= c <= '9' then c as int - '0' as int
    else if 'a' <= c <= 'f' then c as int - 'a' as int + 10
    else 0
  }

  /** A string of hex digits read as a number, most significant digit first. */
  function HexNumber(s: string): nat {
    if s == [] then 0 else HexNumber(s[..|s| - 1]) * 16 + DigitValue(s[|s| - 1])
  }

  /**
   * The character shown for a byte: (char) b when it is at least ' ', else
   * a space. The cast sign-extends the Java byte and keeps 16 bits.
   */
  function Shown(v: byte): (c: char)
    ensures c != '\n'
    ensures v < 32 ==> c == ' '
    ensures v >= 32 ==> c as int == (if v < 128 then v else v - 256) % 0x10000
  {
    if v < 32 then ' ' else if v < 128 then v as char else (0xFF00 + v) as char
  }

  /** Byte q's two hex digits, high nibble first, or two spaces past the end of the file. */
  function Digits(b: seq<byte>, q: nat): (s: string)
    ensures |s| == 2
  {
    if q < |b| then [Hex(b[q] / 16), Hex(b[q] % 16)] else "  "
  }

  /** Byte q's character, or nothing past the end of the file. */
  function Glyph(b: seq<byte>, q: nat): (s: string)
    ensures |s| == (if q < |b| then 1 else 0)
  {
    if q < |b| then [Shown(b[q])] else ""
  }

  /** The digit pairs of the line that starts at byte p. */
  function Pairs(b: seq<byte>, p: nat): (ps: seq<string>)
    ensures |ps| == 16
  {
    seq(16, j requires 0 <= j < 16 => Digits(b, p + j))
  }

  /** The characters of the line that starts at byte p. */
  function Glyphs(b: seq<byte>, p: nat): (gs: seq<string>)
    ensures |gs| == 16
  {
    seq(16, j requires 0 <= j < 16 => Glyph(b, p + j))
  }

  /** Hex slot j: a space before each group of four, one more before the ninth, the digits and a space. */
  function HexSlot(ps: seq<string>, j: nat): string
    requires j < |ps|
  {
    (if j % 4 == 0 then " " else "") + (if j == 8 then " " else "") + ps[j] + " "
  }

  /** Hex slots 0 .. j-1; all 16 of them make 53 characters. */
  function HexColumn(ps: seq<string>, j: nat): string
    requires j <= |ps|
  {
    if j == 0 then "" else HexColumn(ps, j - 1) + HexSlot(ps, j - 1)
  }

  /** ASCII slot j: a space before the ninth position, then the byte's character if present. */
  function AsciiSlot(gs: seq<string>, j: nat): string
    requires j < |gs|
  {
    (if j == 8 then " " else "") + gs[j]
  }

  /** ASCII slots 0 .. j-1. */
  function AsciiColumn(gs: seq<string>, j: nat): string
    requires j <= |gs|
  {
    if j == 0 then "" else AsciiColumn(gs, j - 1) + AsciiSlot(gs, j - 1)
  }

  /** The dump line of the 16 bytes starting at p. */
  function Line(b: seq<byte>, p: nat): string {
    Offset(p) + " " + HexColumn(Pairs(b, p), 16) + " " + AsciiColumn(Glyphs(b, p), 16) + "\n"
  }

  /** The lines for the bytes from p on, one per started run of 16 bytes. */
  function LinesFrom(b: seq<byte>, p: nat): seq<string>
    decreases |b| - p
  {
    if p >= |b| then [] else [Line(b, p)] + LinesFrom(b, p + 16)
  }

  function Concat(ls: seq<string>): string {
    if ls == [] then "" else ls[0] + Concat(ls[1..])
  }

  /** toHex(bytes). */
  function Dump(b: seq<byte>): string {
    Concat(LinesFrom(b, 0))
  }

  // ---------------------------------------------------------------------
  // What a line's slots hold
  // ---------------------------------------------------------------------

  lemma PairsAt(b: seq<byte>, p: nat, j: nat)
    requires j < 16
    ensures Pairs(b, p)[j] == Digits(b, p + j)
  {
  }

  lemma GlyphsAt(b: seq<byte>, p: nat, j: nat)
    requires j < 16
    ensures Glyphs(b, p)[j] == Glyph(b, p + j)
  {
  }

  /** Every entry of ps is two characters long. */
  predicate AllPairs(ps: seq<string>) {
    forall k :: 0 <= k < |ps| ==> |ps[k]| == 2
  }

  lemma PairsArePairs(b: seq<byte>, p: nat)
    ensures AllPairs(Pairs(b, p))
  {
    forall k | 0 <= k < 16
      ensures |Pairs(b, p)[k]| == 2
    {
      PairsAt(b, p, k);
    }
  }

  // ---------------------------------------------------------------------
  // Layout
  // ---------------------------------------------------------------------

  function Min(x: int, y: int): int {
    if x < y then x else y
  }

  /** Slot k opens a new group of four exactly when k is a multiple of four. */
  lemma GroupStep(k: nat)
    ensures (k + 4) / 4 == (k + 3) / 4 + (if k % 4 == 0 then 1 else 0)
  {
  }

  /** Slots 0 .. j-1 take three characters each, one per started group of four, and one more past the eighth. */
  lemma {:induction false} HexColumnLength(ps: seq<string>, j: nat)
    requires j <= |ps| && AllPairs(ps)
    ensures |HexColumn(ps, j)| == 3 * j + (j + 3) / 4 + (if j > 8 then 1 else 0)
  {
    if j > 0 {
      HexColumnLength(ps, j - 1);
      GroupStep(j - 1);
    }
  }

  /** One character per byte present, and the gap before the ninth position. */
  lemma {:induction false} AsciiColumnLength(b: seq<byte>, p: nat, j: nat)
    requires j <= 16
    ensures |AsciiColumn(Glyphs(b, p), j)| == (if p < |b| then Min(j, |b| - p) else 0) + (if j > 8 then 1 else 0)
  {
    if j > 0 {
      AsciiColumnLength(b, p, j - 1);
      GlyphsAt(b, p, j - 1);
    }
  }

  /** A line is 61 characters plus one per byte it shows. */
  lemma LineLength(b: seq<byte>, p: nat)
    requires p < |b|
    ensures |Line(b, p)| == 61 + Min(16, |b| - p)
  {
    PairsArePairs(b, p);
    HexColumnLength(Pairs(b, p), 16);
    AsciiColumnLength(b, p, 16);
  }

  /** Where slot j's two hex digits sit in a line. */
  function HexPosition(j: nat): nat {
    5 + 3 * j + j / 4 + 1 + (if j >= 8 then 1 else 0)
  }

  /** Slot j's digits follow the j slots before it and the slot's own gap. */
  lemma SlotStart(j: nat)
    ensures HexPosition(j) - 5 ==
      3 * j + (j + 3) / 4 + (if j > 8 then 1 else 0) + (if j % 4 == 0 then 1 else 0) + (if j == 8 then 1 else 0)
  {
  }

  /** Inside slot j, the digits follow the slot's gap. */
  lemma SlotDigits(ps: seq<string>, j: nat)
    requires j < |ps| && |ps[j]| == 2
    ensures var pre := (if j % 4 == 0 then 1 else 0) + (if j == 8 then 1 else 0);
      pre + 2 <= |HexSlot(ps, j)| && HexSlot(ps, j)[pre..pre + 2] == ps[j]
  {
  }

  /** A slice of the left part of x + y. */
  lemma SliceLeft(x: string, y: string, a: nat, b: nat)
    requires a <= b <= |x|
    ensures (x + y)[a..b] == x[a..b]
  {
  }

  /** A slice of the right part of x + y. */
  lemma SliceRight(x: string, y: string, a: nat, b: nat)
    requires a <= b <= |y|
    ensures (x + y)[|x| + a..|x| + b] == y[a..b]
  {
  }

  /** The digits of the last of slots 0 .. k. */
  lemma LastSlotDigits(ps: seq<string>, k: nat)
    requires k < |ps| && AllPairs(ps)
    ensures var c := HexPosition(k) - 5;
      c + 2 <= |HexColumn(ps, k + 1)| && HexColumn(ps, k + 1)[c..c + 2] == ps[k]
  {
    var x, y := HexColumn(ps, k), HexSlot(ps, k);
    var pre := (if k % 4 == 0 then 1 else 0) + (if k == 8 then 1 else 0);
    assert HexColumn(ps, k + 1) == x + y;
    HexColumnLength(ps, k);
    SlotStart(k);
    SlotDigits(ps, k);
    SliceRight(x, y, pre, pre + 2);
  }

  /** Within the hex column, slot k's digits start 1 + k / 4 + (k >= 8 ? 1 : 0) characters after 3 * k. */
  lemma {:induction false} HexColumnDigits(ps: seq<string>, j: nat, k: nat)
    requires k < j <= |ps| && AllPairs(ps)
    ensures var c := HexPosition(k) - 5;
      c + 2 <= |HexColumn(ps, j)| && HexColumn(ps, j)[c..c + 2] == ps[k]
  {
    var x, y := HexColumn(ps, j - 1), HexSlot(ps, j - 1);
    var c := HexPosition(k) - 5;
    assert HexColumn(ps, j) == x + y;
    if k == j - 1 {
      LastSlotDigits(ps, k);
    } else {
      HexColumnDigits(ps, j - 1, k);
      SliceLeft(x, y, c, c + 2);
    }
  }

  /** The hex column starts at the sixth character of a line. */
  lemma LineHexColumn(b: seq<byte>, p: nat)
    ensures var h := HexColumn(Pairs(b, p), 16); 5 + |h| <= |Line(b, p)| && Line(b, p)[5..5 + |h|] == h
  {
    var h := HexColumn(Pairs(b, p), 16);
    var head := Offset(p) + " ";
    PrefixOf(head + h, " ", AsciiColumn(Glyphs(b, p), 16), "\n");
    assert (head + h)[5..] == h;
  }

  /**
   * Slot j of the line at p shows byte p + j as two hex digits, high
   * nibble first, or two spaces past the end of the file.
   */
  lemma HexDigitsAt(b: seq<byte>, p: nat, j: nat)
    requires j < 16
    ensures var l := Line(b, p); var q := HexPosition(j);
      q + 2 <= |l| &&
      l[q..q + 2] == if p + j < |b| then [Hex(b[p + j] / 16), Hex(b[p + j] % 16)] else "  "
  {
    var ps := Pairs(b, p);
    var h := HexColumn(ps, 16);
    var c := HexPosition(j) - 5;
    PairsArePairs(b, p);
    HexColumnDigits(ps, 16, j);
    LineHexColumn(b, p);
    Within(Line(b, p), 5, h, c, c + 2);
    PairsAt(b, p, j);
  }

  lemma HexDigitValue(d: int)
    requires 0 <= d < 16
    ensures DigitValue(Hex(d)) == d
  {
    assert HexDigits == ['0', '1', '2', '3', '4', '5', '6', '7', '8', '9', 'a', 'b', 'c', 'd', 'e', 'f'];
  }

  /** Four hex digits read as a number. */
  lemma HexNumberOfFour(s: string)
    requires |s| == 4
    ensures HexNumber(s) == ((DigitValue(s[0]) * 16 + DigitValue(s[1])) * 16 + DigitValue(s[2])) * 16 + DigitValue(s[3])
  {
    var s3, s2, s1 := s[..3], s[..2], s[..1];
    assert s3[..2] == s2 && s2[..1] == s1 && s1[..0] == [];
    assert HexNumber(s1) == DigitValue(s[0]);
    assert HexNumber(s2) == HexNumber(s1) * 16 + DigitValue(s[1]);
    assert HexNumber(s3) == HexNumber(s2) * 16 + DigitValue(s[2]);
  }

  /** Four digits written by Hex read back as the number they spell. */
  lemma HexFour(a: int, b: int, c: int, d: int)
    requires 0 <= a < 16 && 0 <= b < 16 && 0 <= c < 16 && 0 <= d < 16
    ensures HexNumber([Hex(a), Hex(b), Hex(c), Hex(d)]) == ((a * 16 + b) * 16 + c) * 16 + d
  {
    var s := [Hex(a), Hex(b), Hex(c), Hex(d)];
    HexNumberOfFour(s);
    HexDigitValue(a);
    assert DigitValue(s[0]) == a;
    HexDigitValue(b);
    assert DigitValue(s[1]) == b;
    HexDigitValue(c);
    assert DigitValue(s[2]) == c;
    HexDigitValue(d);
    assert DigitValue(s[3]) == d;
  }

  lemma DivSixteen(x: nat, m: nat)
    requires m == 16 || m == 256
    ensures x / m / 16 == x / (m * 16)
  {
  }

  /** The low bits of x above 16 are the low bits of x / 16 followed by x's last nibble. */
  lemma ModSixteen(x: nat, m: nat)
    requires m == 16 || m == 256 || m == 4096
    ensures x % (m * 16) == x / 16 % m * 16 + x % 16
  {
  }

  /** The four nibbles of the low 16 bits. */
  lemma Nibbles(i: nat)
    ensures ((i / 4096 % 16 * 16 + i / 256 % 16) * 16 + i / 16 % 16) * 16 + i % 16 == i % 0x10000
  {
    var i1 := i / 16;
    DivSixteen(i, 16);
    DivSixteen(i, 256);
    ModSixteen(i, 4096);
    ModSixteen(i1, 256);
    ModSixteen(i1 / 16, 16);
  }

  /** The offset read back as a hex number is the byte position modulo 0x10000. */
  lemma OffsetValue(i: nat)
    ensures HexNumber(Offset(i)) == i % 0x10000
  {
    HexFour(i / 4096 % 16, i / 256 % 16, i / 16 % 16, i % 16);
    Nibbles(i);
  }

  /** A line opens with its first byte's position as four hex digits. */
  lemma OffsetAt(b: seq<byte>, p: nat)
    ensures |Line(b, p)| >= 4 && HexNumber(Line(b, p)[..4]) == p % 0x10000
  {
    assert Line(b, p)[..4] == Offset(p);
    OffsetValue(p);
  }

  /** The ASCII column starts at the 60th character of a line. */
  lemma LineAscii(b: seq<byte>, p: nat, i: nat)
    requires i < |AsciiColumn(Glyphs(b, p), 16)|
    ensures 59 + i < |Line(b, p)| && Line(b, p)[59 + i] == AsciiColumn(Glyphs(b, p), 16)[i]
  {
    var h := HexColumn(Pairs(b, p), 16);
    PairsArePairs(b, p);
    HexColumnLength(Pairs(b, p), 16);
    var pre := Offset(p) + " " + h + " ";
    assert |pre| == 59;
  }

  /** The last of ASCII slots 0 .. k shows byte p + k after the k characters before it. */
  lemma LastAsciiSlot(b: seq<byte>, p: nat, k: nat)
    requires k < 16 && p + k < |b|
    ensures var i := k + (if k >= 8 then 1 else 0);
      i < |AsciiColumn(Glyphs(b, p), k + 1)| && AsciiColumn(Glyphs(b, p), k + 1)[i] == Shown(b[p + k])
  {
    var gs := Glyphs(b, p);
    var x, y := AsciiColumn(gs, k), AsciiSlot(gs, k);
    assert AsciiColumn(gs, k + 1) == x + y;
    GlyphsAt(b, p, k);
    AsciiColumnLength(b, p, k);
    assert |x| == k + (if k > 8 then 1 else 0);
    assert y[if k == 8 then 1 else 0] == Shown(b[p + k]);
  }

  /** Within the ASCII column, byte p + k's character follows those of the bytes before it. */
  lemma {:induction false} AsciiColumnAt(b: seq<byte>, p: nat, j: nat, k: nat)
    requires k < j <= 16 && p + k < |b|
    ensures var i := k + (if k >= 8 then 1 else 0);
      i < |AsciiColumn(Glyphs(b, p), j)| && AsciiColumn(Glyphs(b, p), j)[i] == Shown(b[p + k])
  {
    if k == j - 1 {
      LastAsciiSlot(b, p, k);
    } else {
      var gs := Glyphs(b, p);
      assert AsciiColumn(gs, j) == AsciiColumn(gs, j - 1) + AsciiSlot(gs, j - 1);
      AsciiColumnAt(b, p, j - 1, k);
    }
  }

  /**
   * Position j of the line at p shows byte p + j, when the file has it,
   * as its character, after a space for the ninth position.
   */
  lemma AsciiAt(b: seq<byte>, p: nat, j: nat)
    requires j < 16 && p + j < |b|
    ensures var l := Line(b, p); var q := 59 + j + (if j >= 8 then 1 else 0);
      q < |l| && l[q] == Shown(b[p + j])
  {
    AsciiColumnAt(b, p, 16, j);
    LineAscii(b, p, j + (if j >= 8 then 1 else 0));
  }

  // ---------------------------------------------------------------------
  // Sequence facts
  // ---------------------------------------------------------------------

  /** A slice of a part of x is a slice of x. */
  lemma Within(x: string, a: nat, y: string, c: nat, d: nat)
    requires a + |y| <= |x| && x[a..a + |y|] == y && c <= d <= |y|
    ensures x[a + c..a + d] == y[c..d]
  {
    forall i | c <= i < d
      ensures y[i] == x[a + i]
    {
      assert y[i] == x[a..a + |y|][i];
    }
  }

  lemma Associate(x: string, y: string, z: string)
    ensures x + y + z == x + (y + z)
  {
  }

  lemma AppendNothing(x: string, y: string)
    requires y == []
    ensures x + y == x
  {
  }

  lemma PrefixOf(x: string, u: string, v: string, w: string)
    ensures (x + u + v + w)[..|x|] == x
  {
  }

  // ---------------------------------------------------------------------
  // Lines
  // ---------------------------------------------------------------------

  lemma SlotsNoNewline(b: seq<byte>, p: nat, j: nat)
    requires j < 16
    ensures '\n' !in HexSlot(Pairs(b, p), j) && '\n' !in AsciiSlot(Glyphs(b, p), j)
  {
    PairsAt(b, p, j);
    GlyphsAt(b, p, j);
  }

  lemma {:induction false} ColumnsNoNewline(b: seq<byte>, p: nat, j: nat)
    requires j <= 16
    ensures '\n' !in HexColumn(Pairs(b, p), j) && '\n' !in AsciiColumn(Glyphs(b, p), j)
  {
    if j > 0 {
      ColumnsNoNewline(b, p, j - 1);
      SlotsNoNewline(b, p, j - 1);
    }
  }

  /** A line ends with its only newline. */
  lemma LineNewline(b: seq<byte>, p: nat)
    ensures var l := Line(b, p); l != [] && l[|l| - 1] == '\n' && '\n' !in l[..|l| - 1]
  {
    var h, a := HexColumn(Pairs(b, p), 16), AsciiColumn(Glyphs(b, p), 16);
    var body := Offset(p) + " " + h + " " + a;
    assert '\n' !in body by {
      ColumnsNoNewline(b, p, 16);
    }
    EndsWithNewline(body);
  }

  lemma EndsWithNewline(body: string)
    requires '\n' !in body
    ensures var l := body + "\n"; l[|l| - 1] == '\n' && '\n' !in l[..|l| - 1]
  {
    assert (body + "\n")[..|body|] == body;
  }

  /** Every line of the dump ends with its only newline; there are ceil(n / 16) of them. */
  lemma DumpLines(b: seq<byte>, k: nat)
    requires k < |LinesFrom(b, 0)|
    ensures |LinesFrom(b, 0)| == (|b| + 15) / 16
    ensures var l := LinesFrom(b, 0)[k]; l != [] && l[|l| - 1] == '\n' && '\n' !in l[..|l| - 1]
  {
    LinesCount(b, 0);
    LinesAre(b, 0, k, 16 * k);
    LineNewline(b, 16 * k);
  }

  /** One line per started run of 16 bytes. */
  lemma LinesCount(b: seq<byte>, p: nat)
    requires p <= |b|
    ensures |LinesFrom(b, p)| == (|b| - p + 15) / 16
  {
    LinesBound(b, p);
    CeilDiv(|b| - p, |LinesFrom(b, p)|);
  }

  /** The lines from p cover the |b| - p remaining bytes, the last one possibly in part. */
  lemma {:induction false} LinesBound(b: seq<byte>, p: nat)
    requires p <= |b|
    ensures 16 * |LinesFrom(b, p)| - 16 < |b| - p <= 16 * |LinesFrom(b, p)|
    decreases |b| - p
  {
    if p < |b| && p + 16 <= |b| {
      LinesBound(b, p + 16);
    }
  }

  lemma CeilDiv(n: nat, m: nat)
    requires 16 * m - 16 < n <= 16 * m
    ensures m == (n + 15) / 16
  {
  }

  /** Line k from p is the line at some byte offset. */
  lemma {:induction false} LinesAre(b: seq<byte>, p: nat, k: nat, q: nat)
    requires k < |LinesFrom(b, p)| && q == p + 16 * k
    ensures LinesFrom(b, p)[k] == Line(b, q)
    decreases |b| - p
  {
    if k == 0 {
      assert q == p;
      FirstLine(b, p);
    } else {
      LinesAre(b, p + 16, k - 1, q);
      assert LinesFrom(b, p)[k] == LinesFrom(b, p + 16)[k - 1];
    }
  }

  lemma FirstLine(b: seq<byte>, p: nat)
    requires p < |b|
    ensures LinesFrom(b, p)[0] == Line(b, p)
  {
  }

  /** No bytes give no text. */
  lemma DumpEmpty(b: seq<byte>)
    ensures Dump(b) == "" <==> b == []
  {
    if b != [] {
      DumpStep(b, 0);
      LineNewline(b, 0);
    }
  }

  // ---------------------------------------------------------------------
  // The StringBuilder loops
  // ---------------------------------------------------------------------

  /** The first inner loop of a line: the 16 hex slots. */
  method HexSlots(bytes: seq<byte>, i: nat) returns (col: string)
    ensures col == HexColumn(Pairs(bytes, i), 16)
  {
    var ps := Pairs(bytes, i);
    col := "";
    var j := 0;
    while j < Width
      invariant 0 <= j <= Width
      invariant col == HexColumn(ps, j)
    {
      var gap := (if j % 4 == 0 then " " else "") + (if j == 8 then " " else "");
      var digits := if i + j < |bytes| then [HexDigits[bytes[i + j] / 16], HexDigits[bytes[i + j] % 16]] else "  ";
      PairsAt(bytes, i, j);
      assert digits == ps[j];
      col := col + (gap + digits + " ");
      j := j + 1;
    }
  }

  /** The second inner loop of a line: the characters of the bytes present. */
  method AsciiSlots(bytes: seq<byte>, i: nat) returns (col: string)
    ensures col == AsciiColumn(Glyphs(bytes, i), 16)
  {
    var gs := Glyphs(bytes, i);
    col := "";
    var j := 0;
    while j < Width
      invariant 0 <= j <= Width
      invariant col == AsciiColumn(gs, j)
    {
      var slot := "";
      if j == 8 {
        slot := slot + " ";
      }
      if i + j < |bytes| {
        var v: int := bytes[i + j];
        var ch: char := if v < 128 then v as char else (0xFF00 + v) as char;
        slot := slot + [if ch >= ' ' then ch else ' '];
      }
      GlyphsAt(bytes, i, j);
      assert slot == AsciiSlot(gs, j);
      col := col + slot;
      j := j + 1;
    }
  }

  /** One iteration of toHex's outer loop: the offset, the two columns and the newline. */
  method FormatLine(bytes: seq<byte>, i: nat) returns (line: string)
    ensures line == Line(bytes, i)
  {
    var offset := [HexDigits[i / 4096 % 16], HexDigits[i / 256 % 16], HexDigits[i / 16 % 16], HexDigits[i % 16]];
    var hex := HexSlots(bytes, i);
    var ascii := AsciiSlots(bytes, i);
    line := offset + " " + hex + " " + ascii + "\n";
  }

  /** The dump from a line's start is that line and then the dump from the next. */
  lemma DumpStep(b: seq<byte>, p: nat)
    requires p < |b|
    ensures Concat(LinesFrom(b, p)) == Line(b, p) + Concat(LinesFrom(b, p + 16))
  {
    var ls := LinesFrom(b, p);
    assert ls[1..] == LinesFrom(b, p + 16);
  }

  /**
   * toHex. Each line and each of its two columns is built in its own
   * buffer before it is appended, which gives the same text as appending
   * to one buffer.
   */
  method ToHex(bytes: seq<byte>) returns (buf: string)
    ensures buf == Dump(bytes)
  {
    buf := "";
    var i := 0;
    while i < |bytes|
      invariant buf + Concat(LinesFrom(bytes, i)) == Dump(bytes)
    {
      var line := FormatLine(bytes, i);
      DumpStep(bytes, i);
      Associate(buf, line, Concat(LinesFrom(bytes, i + 16)));
      buf := buf + line;
      i := i + 16;
    }
    AppendNothing(buf, Concat(LinesFrom(bytes, i)));
  }
}
