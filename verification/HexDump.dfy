/** The hex dump of a user message (src/zlog/src/spec.c, the ZLOG_HEX branch of
    zlog_spec_write_usrmsg): its layout, that it can be decoded, and the writing loops. */
module HexDump {
  import opened Digits
  import opened ZlogBuf

  type Byte = x: int | 0 <= x < 256

  function Header(): string {
    "\n             0  1  2  3  4  5  6  7  8  9  A  B  C  D  E  F    0123456789ABCDEF"
  }

  // Layout ----------------------------------------------------------------------------------

  /** The two hex digits of byte `i` and a space, or three spaces past the end. */
  function Cell(bytes: seq<Byte>, i: nat): string {
    if i < |bytes| then ZeroPadded(Numeral(bytes[i], 16), 2) + " " else "   "
  }

  /** The character column entry of byte `i`. */
  function Glyph(bytes: seq<Byte>, i: nat): string {
    if i >= |bytes| then " "
    else if 32 <= bytes[i] <= 126 then [bytes[i] as char]
    else "."
  }

  /** The first `j` cells of line `k`. */
  function Cells(bytes: seq<Byte>, k: nat, j: nat): string {
    if j == 0 then [] else Cells(bytes, k, j - 1) + Cell(bytes, 16 * k + j - 1)
  }

  function Glyphs(bytes: seq<Byte>, k: nat, j: nat): string {
    if j == 0 then [] else Glyphs(bytes, k, j - 1) + Glyph(bytes, 16 * k + j - 1)
  }

  /** A line up to its hex cells. */
  function LineHead(k: nat): string {
    "\n" + ZeroPadded(Numeral(k + 1, 10), 10) + "   "
  }

  function Line(bytes: seq<Byte>, k: nat): string {
    LineHead(k) + Cells(bytes, k, 16) + "  " + Glyphs(bytes, k, 16)
  }

  function Lines(bytes: seq<Byte>, m: nat): string {
    if m == 0 then [] else Lines(bytes, m - 1) + Line(bytes, m - 1)
  }

  /** At least one line, 16 bytes to a line. */
  function LineCount(n: nat): nat {
    if n == 0 then 1 else (n + 15) / 16
  }

  function Dump(bytes: seq<Byte>): string {
    Header() + Lines(bytes, LineCount(|bytes|))
  }

  // Decoding --------------------------------------------------------------------------------

  function DecodeCells(s: string, j: nat): seq<nat>
    requires |s| == 3 * j
  {
    if j == 0 then []
    else
      var i := 3 * (j - 1);
      DecodeCells(s[..i], j - 1) + if s[i] == ' ' then [] else [Value(s[i..i + 2], 16)]
  }

  /** The bytes named by the hex cells of `m` lines. */
  function DecodeLines(s: string, m: nat): seq<nat>
    requires |s| == 80 * m
  {
    if m == 0 then []
    else
      var i := 80 * (m - 1);
      DecodeLines(s[..i], m - 1) + DecodeCells(s[i + 14..i + 62], 16)
  }

  function Decode(text: string): seq<nat> {
    if |text| < |Header()| || (|text| - |Header()|) % 80 != 0 then []
    else DecodeLines(text[|Header()|..], (|text| - |Header()|) / 80)
  }

  lemma CellShape(bytes: seq<Byte>, i: nat)
    ensures |Cell(bytes, i)| == 3
    ensures i < |bytes| ==> Cell(bytes, i)[0] != ' ' && Value(Cell(bytes, i)[..2], 16) == bytes[i]
    ensures i >= |bytes| ==> Cell(bytes, i)[0] == ' '
  {
    if i < |bytes| {
      var d := ZeroPadded(Numeral(bytes[i], 16), 2);
      WordLengths(bytes[i]);
      PaddedValue(bytes[i], 16, 2);
      assert Cell(bytes, i)[..2] == d;
      NoSpaces(bytes[i]);
    }
  }

  lemma {:induction false} NoSpaces(n: nat)
    ensures forall i :: 0 <= i < |Numeral(n, 16)| ==> Numeral(n, 16)[i] != ' '
  {
    if n >= 16 {
      NoSpaces(n / 16);
    }
  }

  lemma {:induction false} CellsDecode(bytes: seq<Byte>, k: nat, j: nat)
    requires 16 * k <= |bytes|
    ensures |Cells(bytes, k, j)| == 3 * j
    ensures DecodeCells(Cells(bytes, k, j), j) == bytes[16 * k..Min(16 * k + j, |bytes|)]
    decreases j
  {
    hide Cell, Value;
    if j > 0 {
      CellsDecode(bytes, k, j - 1);
      CellShape(bytes, 16 * k + j - 1);
      DecodeLastCell(Cells(bytes, k, j - 1), Cell(bytes, 16 * k + j - 1), j);
    }
  }

  lemma DecodeLastCell(s: string, cell: string, j: nat)
    requires 0 < j && |s| == 3 * (j - 1) && |cell| == 3
    ensures DecodeCells(s + cell, j)
         == DecodeCells(s, j - 1) + if cell[0] == ' ' then [] else [Value(cell[..2], 16)]
  {
    hide Value;
    var i := 3 * (j - 1);
    assert (s + cell)[..i] == s && (s + cell)[i..i + 2] == cell[..2];
  }

  function Min(a: nat, b: nat): nat { if a <= b then a else b }

  lemma {:induction false} GlyphsWidth(bytes: seq<Byte>, k: nat, j: nat)
    ensures |Glyphs(bytes, k, j)| == j
    decreases j
  {
    if j > 0 {
      GlyphsWidth(bytes, k, j - 1);
    }
  }

  /** Every line is 80 characters wide as long as its number has at most ten digits. */
  lemma LineShape(bytes: seq<Byte>, k: nat)
    requires 16 * k <= |bytes| && k + 1 < 10000000000
    ensures |Line(bytes, k)| == 80
    ensures Line(bytes, k)[14..62] == Cells(bytes, k, 16)
  {
    assert |LineHead(k)| == 14 by { WordLengths(k + 1); }
    assert |Cells(bytes, k, 16)| == 48 by { CellsDecode(bytes, k, 16); }
    assert |Glyphs(bytes, k, 16)| == 16 by { GlyphsWidth(bytes, k, 16); }
    hide LineHead, Cells, Glyphs;
    Slices(LineHead(k), Cells(bytes, k, 16), "  " + Glyphs(bytes, k, 16));
    assert Line(bytes, k) == LineHead(k) + Cells(bytes, k, 16) + ("  " + Glyphs(bytes, k, 16));
  }

  lemma Slices(a: string, b: string, c: string)
    ensures (a + b + c)[|a|..|a| + |b|] == b
  {
  }

  lemma {:induction false} LinesDecode(bytes: seq<Byte>, m: nat)
    requires m == 0 || 16 * (m - 1) <= |bytes|
    requires m < 10000000000
    ensures |Lines(bytes, m)| == 80 * m
    ensures DecodeLines(Lines(bytes, m), m) == bytes[..Min(16 * m, |bytes|)]
    decreases m
  {
    hide Line, Cells, DecodeCells;
    if m > 0 {
      assert Lines(bytes, m) == Lines(bytes, m - 1) + Line(bytes, m - 1);
      assert 16 * (m - 1) <= Min(16 * m, |bytes|) <= |bytes| && Min(16 * (m - 1), |bytes|) == 16 * (m - 1);
      hide *;
      LinesDecode(bytes, m - 1);
      LineShape(bytes, m - 1);
      CellsDecode(bytes, m - 1, 16);
      DecodeLastLine(Lines(bytes, m - 1), Line(bytes, m - 1), m);
      SliceOn(bytes, 16 * (m - 1), Min(16 * m, |bytes|));
    }
  }

  lemma SliceOn<T>(s: seq<T>, i: nat, j: nat)
    requires i <= j <= |s|
    ensures s[..i] + s[i..j] == s[..j]
  {
  }

  lemma DecodeLastLine(s: string, line: string, m: nat)
    requires 0 < m && |s| == 80 * (m - 1) && |line| == 80
    ensures DecodeLines(s + line, m) == DecodeLines(s, m - 1) + DecodeCells(line[14..62], 16)
  {
    hide DecodeCells;
    var i := 80 * (m - 1);
    assert (s + line)[..i] == s && (s + line)[i + 14..i + 62] == line[14..62];
  }

  lemma DecodeBody(head: string, body: string, m: nat)
    requires |body| == 80 * m && head == Header()
    ensures Decode(head + body) == DecodeLines(body, m)
  {
    hide Header, DecodeLines;
    assert (head + body)[|head|..] == body;
  }

  /** A dump has max(1, ceil(n/16)) lines of fixed width, and its hex cells give the bytes back. */
  lemma DumpDecodes(bytes: seq<Byte>)
    requires LineCount(|bytes|) < 10000000000
    ensures |Dump(bytes)| == |Header()| + 80 * LineCount(|bytes|)
    ensures var m := LineCount(|bytes|); if bytes == [] then m == 1 else 16 * (m - 1) < |bytes| <= 16 * m
    ensures Decode(Dump(bytes)) == bytes
  {
    var m := LineCount(|bytes|);
    LinesDecode(bytes, m);
    assert Min(16 * m, |bytes|) == |bytes|;
    assert if bytes == [] then m == 1 else 16 * (m - 1) < |bytes| <= 16 * m;
    hide Header, Lines, DecodeLines, LineCount, Min;
    DecodeBody(Header(), Lines(bytes, m), m);
    assert bytes[..|bytes|] == bytes;
  }

  lemma {:induction false} GlyphsAt(bytes: seq<Byte>, k: nat, j: nat)
    ensures |Glyphs(bytes, k, j)| == j
    ensures forall l :: 0 <= l < j ==> Glyphs(bytes, k, j)[l] == Glyph(bytes, 16 * k + l)[0]
    decreases j
  {
    if j > 0 {
      GlyphsAt(bytes, k, j - 1);
    }
  }

  lemma {:induction false} LineAt(bytes: seq<Byte>, m: nat, k: nat)
    requires k < m && 16 * (m - 1) <= |bytes| && m < 10000000000
    ensures |Lines(bytes, m)| == 80 * m && Lines(bytes, m)[80 * k..80 * k + 80] == Line(bytes, k)
    decreases m
  {
    hide *;
    MoreLines(bytes, m);
    var before := Lines(bytes, m - 1);
    if k < m - 1 {
      LineAt(bytes, m - 1, k);
      Within(before, Line(bytes, m - 1), 80 * k, 80 * k + 80);
    } else {
      AtEnd(before, Line(bytes, m - 1));
    }
  }

  lemma MoreLines(bytes: seq<Byte>, m: nat)
    requires 0 < m < 10000000000 && 16 * (m - 1) <= |bytes|
    ensures |Lines(bytes, m)| == 80 * m && |Lines(bytes, m - 1)| == 80 * (m - 1) && |Line(bytes, m - 1)| == 80
    ensures Lines(bytes, m) == Lines(bytes, m - 1) + Line(bytes, m - 1)
  {
    assert Lines(bytes, m) == Lines(bytes, m - 1) + Line(bytes, m - 1);
    hide *;
    LinesDecode(bytes, m);
    LinesDecode(bytes, m - 1);
    LineShape(bytes, m - 1);
  }

  lemma Within(s: string, t: string, i: nat, j: nat)
    requires i <= j <= |s|
    ensures (s + t)[i..j] == s[i..j]
  {
  }

  lemma AtEnd(s: string, t: string)
    ensures (s + t)[|s|..|s| + |t|] == t
  {
  }

  /** What line `k` of a dump shows: its number, counted from 1, and in its last 16 columns the bytes
      that are printable characters, dots for the others, and spaces behind the last byte. */
  lemma LineShows(bytes: seq<Byte>, k: nat)
    requires 16 * k <= |bytes| && k + 1 < 10000000000
    ensures var line := Line(bytes, k);
            && |line| == 80 && line[0] == '\n' && Value(line[1..11], 10) == k + 1
            && line[11..14] == "   " && line[62..64] == "  "
            && var shown := line[64..80];
               forall j :: 0 <= j < 16 ==>
                 var i := 16 * k + j;
                 shown[j] == if i >= |bytes| then ' ' else if 32 <= bytes[i] <= 126 then bytes[i] as char else '.'
  {
    LineShape(bytes, k);
    WordLengths(k + 1);
    PaddedValue(k + 1, 10, 10);
    CellsDecode(bytes, k, 16);
    GlyphsAt(bytes, k, 16);
    var number := ZeroPadded(Numeral(k + 1, 10), 10);
    Columns(number, Cells(bytes, k, 16), Glyphs(bytes, k, 16));
  }

  lemma Columns(number: string, cells: string, glyphs: string)
    requires |number| == 10 && |cells| == 48 && |glyphs| == 16
    ensures var line := ("\n" + number + "   ") + cells + "  " + glyphs;
            && line[0] == '\n' && line[1..11] == number && line[11..14] == "   " && line[62..64] == "  "
            && line[64..80] == glyphs
  {
  }

  /** A dump is its header line and then these lines. */
  lemma DumpLines(bytes: seq<Byte>, k: nat)
    requires k < LineCount(|bytes|) < 10000000000
    ensures var p := |Header()| + 80 * k;
            p + 80 <= |Dump(bytes)| && Dump(bytes)[p..p + 80] == Line(bytes, k) && 16 * k <= |bytes|
  {
    var m := LineCount(|bytes|);
    assert Dump(bytes) == Header() + Lines(bytes, m) && 16 * (m - 1) <= |bytes|;
    hide *;
    LineAt(bytes, m, k);
    Behind(Header(), Lines(bytes, m), 80 * k, 80 * k + 80);
  }

  lemma Behind(s: string, t: string, i: nat, j: nat)
    requires i <= j <= |t|
    ensures (s + t)[|s| + i..|s| + j] == t[i..j]
  {
  }

  // Writing ---------------------------------------------------------------------------------

  /** One write of a longer text `whole`, of which `done` is in the buffer behind `c0`. If the
      limit is hit, the buffer already shows what all of `whole` would make it show. */
  method Step(buf: ZlogBuf, w: Write, ghost c0: string, ghost done: string, ghost whole: string) returns (rc: int)
    requires buf.Valid() && Typed(w) && !w.WFormat? && buf.Contents() == c0 + done
    requires done + Piece(w) <= whole
    modifies buf`data, buf`sizeReal, buf`tail, buf.data
    ensures buf.Valid() && (buf.data == old(buf.data) || fresh(buf.data))
    ensures rc == 0 || rc == 1
    ensures rc == 0 ==> buf.Contents() == c0 + (done + Piece(w))
    ensures rc == 1 ==> Cut(buf, c0, whole)
  {
    rc := buf.Perform(w);
    AppendCases(buf.sizeMax, buf.truncateStr, c0 + done, Piece(w));
    assert c0 + done + Piece(w) == c0 + (done + Piece(w));
    if rc == 1 {
      CutIsFinal(buf.sizeMax, buf.truncateStr, c0, done + Piece(w), whole);
    }
  }

  /** The buffer hit its limit while `whole` was being written behind `c0`. */
  ghost predicate Cut(buf: ZlogBuf, c0: string, whole: string)
    requires buf.Valid()
    reads buf, buf.data
  {
    && buf.sizeMax != 0 && |c0| + |whole| >= buf.sizeMax
    && buf.Contents() == BoundedAppend(buf.sizeMax, buf.truncateStr, c0, whole)
  }

  lemma PrefixMono(done: string, part: string, line: string, whole: string)
    requires part <= line && done + line <= whole
    ensures done + part <= whole
  {
    assert (done + line)[..|done + part|] == done + part;
  }

  lemma {:induction false} CellsPrefix(bytes: seq<Byte>, k: nat, i: nat, j: nat)
    requires i <= j
    ensures Cells(bytes, k, i) <= Cells(bytes, k, j) && Glyphs(bytes, k, i) <= Glyphs(bytes, k, j)
    decreases j
  {
    hide Cell, Glyph;
    if i < j {
      CellsPrefix(bytes, k, i, j - 1);
    }
  }

  /** The part of line `k` up to its first `j` cells, and up to its first `j` glyphs. */
  function ToCells(bytes: seq<Byte>, k: nat, j: nat): string {
    LineHead(k) + Cells(bytes, k, j)
  }

  function ToGlyphs(bytes: seq<Byte>, k: nat, j: nat): string {
    ToCells(bytes, k, 16) + "  " + Glyphs(bytes, k, j)
  }

  lemma CellsInLine(bytes: seq<Byte>, k: nat, j: nat)
    requires j <= 16
    ensures ToCells(bytes, k, j) <= Line(bytes, k) && LineHead(k) <= Line(bytes, k)
  {
    CellsPrefix(bytes, k, j, 16);
    hide LineHead, Cells, Glyphs;
    PartPrefix(LineHead(k), Cells(bytes, k, j), Cells(bytes, k, 16), "  ", Glyphs(bytes, k, 16));
  }

  lemma PartPrefix(head: string, part: string, all: string, gap: string, end: string)
    requires part <= all
    ensures head + part <= head + all + gap + end
    ensures head <= head + all + gap + end
  {
    var rest := all[|part|..];
    assert all == part + rest;
    assert head + all + gap + end == head + part + (rest + gap + end) == head + (all + gap + end);
  }

  lemma GlyphsInLine(bytes: seq<Byte>, k: nat, j: nat)
    requires j <= 16
    ensures ToGlyphs(bytes, k, j) <= Line(bytes, k)
  {
    CellsPrefix(bytes, k, j, 16);
    hide LineHead, Cells, Glyphs;
    var more := Glyphs(bytes, k, 16)[|Glyphs(bytes, k, j)|..];
    assert Glyphs(bytes, k, 16) == Glyphs(bytes, k, j) + more;
    JoinEnd(LineHead(k) + Cells(bytes, k, 16) + "  ", Glyphs(bytes, k, j), more);
  }

  lemma JoinEnd(head: string, part: string, more: string)
    ensures head + (part + more) == head + part + more
  {
  }

  /** The line break, the line number and the gap. */
  method WriteLineHead(buf: ZlogBuf, k: nat, ghost c0: string, ghost done: string, ghost whole: string)
        returns (rc: int)
    requires buf.Valid() && k + 1 < 0x1_0000_0000_0000_0000 && buf.Contents() == c0 + done
    requires done + LineHead(k) <= whole
    modifies buf`data, buf`sizeReal, buf`tail, buf.data
    ensures buf.Valid() && (buf.data == old(buf.data) || fresh(buf.data)) && (rc == 0 || rc == 1)
    ensures rc == 0 ==> buf.Contents() == c0 + (done + LineHead(k))
    ensures rc == 1 ==> Cut(buf, c0, whole)
  {
    ghost var number := ZeroPadded(Numeral(k + 1, 10), 10);
    hide ZeroPadded, Numeral, Cut;
    assert done + LineHead(k) == done + "\n" + number + "   ";
    PrefixMono(done, "\n", LineHead(k), whole);
    rc := Step(buf, WAppend("\n"), c0, done, whole);
    if rc != 0 { return; }
    PrefixMono(done, "\n" + number, LineHead(k), whole);
    assert done + "\n" + number == done + ("\n" + number);
    rc := Step(buf, WDec64(k + 1, 10), c0, done + "\n", whole);
    if rc != 0 { return; }
    rc := Step(buf, WAppend("   "), c0, done + "\n" + number, whole);
  }

  /** The hex cell of byte `i`. */
  method WriteCell(buf: ZlogBuf, bytes: seq<Byte>, i: nat, ghost c0: string, ghost done: string, ghost whole: string)
    returns (rc: int)
    requires buf.Valid() && buf.Contents() == c0 + done && done + Cell(bytes, i) <= whole
    modifies buf`data, buf`sizeReal, buf`tail, buf.data
    ensures buf.Valid() && (buf.data == old(buf.data) || fresh(buf.data)) && (rc == 0 || rc == 1)
    ensures rc == 0 ==> buf.Contents() == c0 + (done + Cell(bytes, i))
    ensures rc == 1 ==> Cut(buf, c0, whole)
  {
    hide ZeroPadded, Numeral, Cut;
    if i < |bytes| {
      ghost var hex := ZeroPadded(Numeral(bytes[i], 16), 2);
      PrefixMono(done, hex, Cell(bytes, i), whole);
      rc := Step(buf, WHex(bytes[i], 2), c0, done, whole);
      if rc != 0 { return; }
      assert done + hex + " " == done + Cell(bytes, i);
      rc := Step(buf, WAppend(" "), c0, done + hex, whole);
    } else {
      rc := Step(buf, WAppend("   "), c0, done, whole);
    }
  }

  /** The sixteen hex cells of line `k`. */
  method WriteCells(buf: ZlogBuf, bytes: seq<Byte>, k: nat, ghost c0: string, ghost done: string, ghost whole: string)
    returns (rc: int)
    requires buf.Valid() && buf.Contents() == c0 + (done + LineHead(k)) && done + Line(bytes, k) <= whole
    modifies buf`data, buf`sizeReal, buf`tail, buf.data
    ensures buf.Valid() && (buf.data == old(buf.data) || fresh(buf.data)) && (rc == 0 || rc == 1)
    ensures rc == 0 ==> buf.Contents() == c0 + (done + ToCells(bytes, k, 16))
    ensures rc == 1 ==> Cut(buf, c0, whole)
  {
    rc := 0;
    NoCells(bytes, k);
    hide Cut, LineHead, Line, Cell, ToCells;
    for j := 0 to 16
      invariant buf.Valid() && (buf.data == old(buf.data) || fresh(buf.data))
      invariant buf.Contents() == c0 + (done + ToCells(bytes, k, j)) && rc == 0
    {
      CellsInLine(bytes, k, j + 1);
      PrefixMono(done, ToCells(bytes, k, j + 1), Line(bytes, k), whole);
      NextCell(bytes, k, j, done);
      rc := WriteCell(buf, bytes, 16 * k + j, c0, done + ToCells(bytes, k, j), whole);
      if rc != 0 { return; }
    }
  }

  /** The gap and the sixteen characters of line `k`. */
  method WriteGlyphs(buf: ZlogBuf, bytes: seq<Byte>, k: nat, ghost c0: string, ghost done: string, ghost whole: string)
    returns (rc: int)
    requires buf.Valid() && buf.Contents() == c0 + (done + ToCells(bytes, k, 16)) && done + Line(bytes, k) <= whole
    modifies buf`data, buf`sizeReal, buf`tail, buf.data
    ensures buf.Valid() && (buf.data == old(buf.data) || fresh(buf.data)) && (rc == 0 || rc == 1)
    ensures rc == 0 ==> buf.Contents() == c0 + (done + ToGlyphs(bytes, k, 16))
    ensures rc == 1 ==> Cut(buf, c0, whole)
  {
    hide Cut, Line, Glyph, ToCells, ToGlyphs;
    GlyphsInLine(bytes, k, 0);
    PrefixMono(done, ToGlyphs(bytes, k, 0), Line(bytes, k), whole);
    NoGlyphs(bytes, k, done);
    rc := Step(buf, WAppend("  "), c0, done + ToCells(bytes, k, 16), whole);
    if rc != 0 { return; }
    for j := 0 to 16
      invariant buf.Valid() && (buf.data == old(buf.data) || fresh(buf.data))
      invariant buf.Contents() == c0 + (done + ToGlyphs(bytes, k, j)) && rc == 0
    {
      GlyphsInLine(bytes, k, j + 1);
      PrefixMono(done, ToGlyphs(bytes, k, j + 1), Line(bytes, k), whole);
      NextGlyph(bytes, k, j, done);
      rc := Step(buf, WAppend(Glyph(bytes, 16 * k + j)), c0, done + ToGlyphs(bytes, k, j), whole);
      if rc != 0 { return; }
    }
  }

  method WriteLine(buf: ZlogBuf, bytes: seq<Byte>, k: nat, ghost c0: string, ghost done: string, ghost whole: string)
    returns (rc: int)
    requires buf.Valid() && k + 1 < 0x1_0000_0000_0000_0000 && buf.Contents() == c0 + done
    requires done + Line(bytes, k) <= whole
    modifies buf`data, buf`sizeReal, buf`tail, buf.data
    ensures buf.Valid() && (buf.data == old(buf.data) || fresh(buf.data)) && (rc == 0 || rc == 1)
    ensures rc == 0 ==> buf.Contents() == c0 + (done + Line(bytes, k))
    ensures rc == 1 ==> Cut(buf, c0, whole)
  {
    hide Cut, LineHead, Line, ToCells, ToGlyphs;
    CellsInLine(bytes, k, 0);
    PrefixMono(done, LineHead(k), Line(bytes, k), whole);
    AllGlyphs(bytes, k);
    rc := WriteLineHead(buf, k, c0, done, whole);
    if rc != 0 { return; }
    rc := WriteCells(buf, bytes, k, c0, done, whole);
    if rc != 0 { return; }
    rc := WriteGlyphs(buf, bytes, k, c0, done, whole);
  }

  lemma NextCell(bytes: seq<Byte>, k: nat, j: nat, done: string)
    ensures done + ToCells(bytes, k, j + 1) == done + ToCells(bytes, k, j) + Cell(bytes, 16 * k + j)
  {
    hide LineHead, Cell;
    assert Cells(bytes, k, j + 1) == Cells(bytes, k, j) + Cell(bytes, 16 * k + j);
  }

  lemma NextGlyph(bytes: seq<Byte>, k: nat, j: nat, done: string)
    ensures done + ToGlyphs(bytes, k, j + 1) == done + ToGlyphs(bytes, k, j) + Glyph(bytes, 16 * k + j)
  {
    hide ToCells, Glyph;
    assert Glyphs(bytes, k, j + 1) == Glyphs(bytes, k, j) + Glyph(bytes, 16 * k + j);
  }

  lemma NoCells(bytes: seq<Byte>, k: nat)
    ensures ToCells(bytes, k, 0) == LineHead(k)
  {
    hide LineHead;
    assert Cells(bytes, k, 0) == [];
  }

  lemma NoGlyphs(bytes: seq<Byte>, k: nat, done: string)
    ensures done + ToGlyphs(bytes, k, 0) == done + ToCells(bytes, k, 16) + "  "
  {
    hide ToCells;
    assert Glyphs(bytes, k, 0) == [];
  }

  lemma AllGlyphs(bytes: seq<Byte>, k: nat)
    ensures ToGlyphs(bytes, k, 16) == Line(bytes, k)
  {
    hide LineHead, Cells, Glyphs;
  }

  lemma {:induction false} LinesPrefix(bytes: seq<Byte>, i: nat, m: nat)
    requires i <= m
    ensures Lines(bytes, i) <= Lines(bytes, m)
    decreases m
  {
    hide Line;
    if i < m {
      LinesPrefix(bytes, i, m - 1);
    }
  }

  /** The message buffer of a hex event may be missing. */
  datatype HexArg = NoBuffer | Buffer(bytes: seq<Byte>)

  function HexText(arg: HexArg): string {
    match arg
    case NoBuffer => "buf=(null)"
    case Buffer(bytes) => Dump(bytes)
  }

  /** The loop over the lines. */
  method WriteLines(buf: ZlogBuf, bytes: seq<Byte>, ghost c0: string) returns (rc: int)
    requires buf.Valid() && LineCount(|bytes|) < 0x1_0000_0000_0000_0000 && buf.Contents() == c0 + Header()
    modifies buf`data, buf`sizeReal, buf`tail, buf.data
    ensures buf.Valid() && (buf.data == old(buf.data) || fresh(buf.data)) && (rc == 0 || rc == 1)
    ensures rc == 0 ==> buf.Contents() == c0 + Dump(bytes)
    ensures rc == 1 ==> Cut(buf, c0, Dump(bytes))
  {
    ghost var whole, n := Dump(bytes), LineCount(|bytes|);
    assert whole == Header() + Lines(bytes, n);
    hide Header, Lines, Line, Cut, Dump;
    FirstLine(bytes);
    var k := 0;
    rc := 0;
    while true
      invariant buf.Valid() && (buf.data == old(buf.data) || fresh(buf.data)) && rc == 0
      invariant 0 <= k < n && buf.Contents() == c0 + (Header() + Lines(bytes, k))
      decreases n - k
    {
      NextLine(bytes, k, n);
      rc := WriteLine(buf, bytes, k, c0, Header() + Lines(bytes, k), whole);
      if rc != 0 { return; }
      if k * 16 + 16 >= |bytes| {
        break;
      }
      k := k + 1;
    }
    assert k + 1 == n;
  }

  /** The hex branch of `zlog_spec_write_usrmsg`. The buffer shows the dump as far as its limit
      allows, whether or not the loops ran to the end. */
  method WriteHex(buf: ZlogBuf, arg: HexArg) returns (rc: int)
    requires buf.Valid() && (arg.Buffer? ==> LineCount(|arg.bytes|) < 0x1_0000_0000_0000_0000)
    modifies buf`data, buf`sizeReal, buf`tail, buf.data
    ensures buf.Valid() && (buf.data == old(buf.data) || fresh(buf.data))
    ensures buf.Contents() == BoundedAppend(buf.sizeMax, buf.truncateStr, old(buf.Contents()), HexText(arg))
    ensures rc == if buf.sizeMax != 0 && |old(buf.Contents())| + |HexText(arg)| >= buf.sizeMax then 1 else 0
  {
    ghost var c0, whole := buf.Contents(), HexText(arg);
    if arg.NoBuffer? {
      rc := buf.Append("buf=(null)");
      return;
    }
    hide Header, Lines;
    assert c0 + [] == c0 && [] + Header() == Header();
    rc := Step(buf, WAppend(Header()), c0, [], whole);
    if rc != 0 { return; }
    hide Dump, HexText;
    rc := WriteLines(buf, arg.bytes, c0);
    AppendCases(buf.sizeMax, buf.truncateStr, c0, whole);
  }

  lemma FirstLine(bytes: seq<Byte>)
    ensures Header() + Lines(bytes, 0) == Header()
  {
    hide Header;
  }

  lemma NextLine(bytes: seq<Byte>, k: nat, n: nat)
    requires k < n
    ensures Header() + Lines(bytes, k) + Line(bytes, k) == Header() + Lines(bytes, k + 1)
    ensures Header() + Lines(bytes, k + 1) <= Header() + Lines(bytes, n)
  {
    hide Header, Line;
    LinesPrefix(bytes, k + 1, n);
    assert Lines(bytes, k + 1) == Lines(bytes, k) + Line(bytes, k);
    hide Lines;
    var rest := Lines(bytes, n)[|Lines(bytes, k + 1)|..];
    assert Header() + Lines(bytes, n) == Header() + Lines(bytes, k + 1) + rest;
  }
}
