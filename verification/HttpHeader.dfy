/** HTTP header lines (src/http_request.c), taken from a buffer that `recv` fills in pieces of any
    size. The text is cut up in place by writing NULs into the buffer. */
module HttpHeader {
  import opened CText

  // What a header block means -------------------------------------------------------------------

  datatype Header = Header(name: string, value: string)

  /** `http_header_set`: the first header whose name starts with `name` gets the value; without
      one, a header is added. */
  function HeaderSet(hs: seq<Header>, name: string, value: string): seq<Header> {
    if hs == [] then [Header(name, value)]
    else if name <= hs[0].name then [hs[0].(value := value)] + hs[1..]
    else [hs[0]] + HeaderSet(hs[1..], name, value)
  }

  predicate IsEol(c: char) { c == '\n' }

  predicate IsColon(c: char) { c == ':' }

  /** Up to the first colon after leading space, without space around it. */
  function NameOf(line: string): string {
    var t := TrimLeft(line);
    TrimRight(t[..ScanUntil(t, 0, IsColon)])
  }

  /** The rest after that colon, without leading space and without the final carriage return. */
  function ValueOf(line: string): string {
    var t := TrimLeft(line);
    var c := ScanUntil(t, 0, IsColon);
    if c == |t| then [] else DropReturn(TrimLeft(t[c + 1..]))
  }

  function DropReturn(v: string): string {
    if v != [] && v[|v| - 1] == '\r' then v[..|v| - 1] else v
  }

  /** The line that ends the block. */
  predicate Blank(line: string) { line == "" || line == "\r" }

  /** Lines of nothing but space are passed over. */
  function AddLine(hs: seq<Header>, line: string): seq<Header> {
    if TrimLeft(line) == [] then hs else HeaderSet(hs, NameOf(line), ValueOf(line))
  }

  /** No NUL, and unless it is all space, a name and a colon. */
  predicate LineOk(line: string) {
    && NUL !in line
    && var t := TrimLeft(line); t != [] ==> t[0] != ':' && ':' in t
  }

  function Eol(t: string): (e: nat)
    ensures e <= |t|
  {
    ScanUntil(t, 0, IsEol)
  }

  /** All lines up to the blank one are well formed. */
  predicate BlockOk(t: string)
    decreases |t|
  {
    var e := Eol(t);
    if e == |t| then NUL !in t
    else Blank(t[..e]) || (LineOk(t[..e]) && BlockOk(t[e + 1..]))
  }

  /** The headers so far, how much text is used up, and whether the blank line has been met. */
  datatype Progress = Progress(headers: seq<Header>, consumed: nat, done: bool)

  function Shift(p: Progress, n: nat): Progress { p.(consumed := p.consumed + n) }

  function Parse(hs: seq<Header>, t: string): (p: Progress)
    ensures p.consumed <= |t|
    decreases |t|
  {
    var e := Eol(t);
    if e == |t| then Progress(hs, 0, false)
    else if Blank(t[..e]) then Progress(hs, e + 1, true)
    else Shift(Parse(AddLine(hs, t[..e]), t[e + 1..]), e + 1)
  }

  /** The complete lines in front of the blank one. */
  function Lines(t: string): seq<string>
    decreases |t|
  {
    var e := Eol(t);
    if e == |t| || Blank(t[..e]) then [] else [t[..e]] + Lines(t[e + 1..])
  }

  function AddLines(hs: seq<Header>, lines: seq<string>): seq<Header>
    decreases lines
  {
    if lines == [] then hs else AddLines(AddLine(hs, lines[0]), lines[1..])
  }

  /** The headers of a block are its lines, folded through `http_header_set` in order. */
  lemma {:induction false} ParseIsFold(hs: seq<Header>, t: string)
    ensures Parse(hs, t).headers == AddLines(hs, Lines(t))
    decreases |t|
  {
    hide AddLine;
    var e := Eol(t);
    if e < |t| && !Blank(t[..e]) {
      ParseIsFold(AddLine(hs, t[..e]), t[e + 1..]);
    }
  }

  // Header lines as they are written ------------------------------------------------------------

  /** A line of a header block without its newline: a field, with blanks around its name, in front
      of its value, and perhaps a carriage return at its end; or nothing but blanks. */
  datatype Written =
    | Field(lead: string, name: string, pad: string, gap: string, value: string, cr: bool)
    | Skipped(blanks: string)

  function LineText(w: Written): string {
    match w
    case Field(lead, _, _, _, _, _) => lead + FieldBody(w)
    case Skipped(blanks) => blanks
  }

  predicate WrittenOk(w: Written) {
    match w
    case Field(lead, name, pad, gap, value, cr) =>
      && AllBlank(lead) && AllBlank(pad) && AllBlank(gap) && '\n' !in lead + pad + gap
      && name != [] && !BlankChar(name[0]) && !BlankChar(name[|name| - 1])
      && ':' !in name && '\n' !in name && NUL !in name
      && '\n' !in value && NUL !in value
      && (value != [] ==> !BlankChar(value[0]) && value[|value| - 1] != '\r')
    case Skipped(blanks) => AllBlank(blanks) && '\n' !in blanks && blanks != "" && blanks != "\r"
  }

  predicate AllWrittenOk(ws: seq<Written>) { forall w :: w in ws ==> WrittenOk(w) }

  function WriteBlock(ws: seq<Written>): string {
    if ws == [] then "" else LineText(ws[0]) + "\n" + WriteBlock(ws[1..])
  }

  /** The names and values that were written, one after the other. */
  function SetAll(hs: seq<Header>, ws: seq<Written>): seq<Header>
    decreases ws
  {
    if ws == [] then hs
    else SetAll(if ws[0].Field? then HeaderSet(hs, ws[0].name, ws[0].value) else hs, ws[1..])
  }

  /** Whatever the layout of a line, it adds the name and value that were written. */
  lemma LineMeans(hs: seq<Header>, w: Written)
    requires WrittenOk(w)
    ensures LineOk(LineText(w)) && !Blank(LineText(w)) && '\n' !in LineText(w)
    ensures AddLine(hs, LineText(w)) == if w.Field? then HeaderSet(hs, w.name, w.value) else hs
  {
    if w.Field? {
      FieldParts(w);
      FieldText(w);
      hide LineText, WrittenOk, HeaderSet, DropReturn, Blank;
    } else {
      assert w.blanks + [] == w.blanks;
      TrimLeftBlank(w.blanks, []);
      NoNulBlank(w.blanks);
    }
  }

  function End(w: Written): string
    requires w.Field?
  {
    if w.cr then "\r" else ""
  }

  /** A field without the blanks in front of it. */
  function FieldBody(w: Written): string
    requires w.Field?
  {
    w.name + w.pad + ":" + (w.gap + (w.value + End(w)))
  }

  lemma FieldParts(w: Written)
    requires w.Field? && WrittenOk(w)
    ensures NameOf(LineText(w)) == w.name && ValueOf(LineText(w)) == w.value
    ensures var t := TrimLeft(LineText(w)); t != [] && t[0] != ':' && ':' in t
  {
    hide TrimLeft, TrimRight, ScanUntil, DropReturn, AllBlank;
    var t := FieldBody(w);
    BodyParts(w.name + w.pad, w.gap + (w.value + End(w)));
    assert t[0] == w.name[0] && !IsSpace(t[0]);
    hide IsSpace, BlankChar;
    TrimLeftBlank(w.lead, t);
    NameOfField(w.name, w.pad, w.gap + (w.value + End(w)));
    ValueOfField(w.gap, w.value, End(w));
  }

  lemma BodyParts(key: string, rest: string)
    ensures var t := key + ":" + rest; t[..|key|] == key && t[|key|] == ':' && t[|key| + 1..] == rest
  {
  }

  lemma FieldText(w: Written)
    requires w.Field? && WrittenOk(w)
    ensures NUL !in LineText(w) && '\n' !in LineText(w) && !Blank(LineText(w))
  {
    NoNulBlank(w.lead);
    NoNulBlank(w.pad);
    NoNulBlank(w.gap);
    var s := LineText(w);
    assert s[|w.lead| + |w.name + w.pad|] == ':';
  }

  lemma NoNulBlank(s: string)
    requires AllBlank(s)
    ensures NUL !in s && ':' !in s
  {
  }

  lemma NameOfField(name: string, pad: string, rest: string)
    requires AllBlank(pad) && name != [] && !BlankChar(name[|name| - 1]) && ':' !in name
    ensures ScanUntil(name + pad + ":" + rest, 0, IsColon) == |name + pad|
    ensures TrimRight(name + pad) == name
  {
    NoNulBlank(pad);
    var t, c := name + pad + ":" + rest, |name + pad|;
    assert t[c] == ':' && forall i :: 0 <= i < c ==> t[i] == (name + pad)[i] && (name + pad)[i] in name + pad;
    assert !IsSpace(name[|name| - 1]);
    TrimRightBlank(name, pad);
  }

  lemma ValueOfField(gap: string, value: string, end: string)
    requires AllBlank(gap) && (end == "" || end == "\r")
    requires value != [] ==> !BlankChar(value[0]) && value[|value| - 1] != '\r'
    ensures DropReturn(TrimLeft(gap + (value + end))) == value
  {
    if value == [] {
      assert gap + (value + end) == (gap + end) + [];
      TrimLeftBlank(gap + end, []);
    } else {
      TrimLeftBlank(gap, value + end);
      assert end == "\r" ==> (value + end)[..|value|] == value;
    }
  }

  /** A header block in any layout, read whole: it ends where the blank line does, whatever comes
      behind it, and its headers are the names and values that were written. */
  lemma {:induction false} BlockRoundTrip(hs: seq<Header>, ws: seq<Written>, cr: bool, rest: string)
    requires AllWrittenOk(ws)
    ensures var block := WriteBlock(ws) + (if cr then "\r\n" else "\n");
            && BlockOk(block + rest)
            && Parse(hs, block + rest) == Progress(SetAll(hs, ws), |block|, true)
    decreases ws
  {
    var close := if cr then "\r\n" else "\n";
    hide AddLine, LineOk, LineText, WrittenOk, Parse, BlockOk, Blank, Eol, HeaderSet;
    if ws == [] {
      var line := if cr then "\r" else "";
      BlankIs(cr);
      FirstLine(hs, line, rest);
      assert WriteBlock(ws) + close + rest == line + "\n" + rest;
    } else {
      var w := ws[0];
      var behind := WriteBlock(ws[1..]) + close + rest;
      var hs' := if w.Field? then HeaderSet(hs, w.name, w.value) else hs;
      LineMeans(hs, w);
      BlockRoundTrip(hs', ws[1..], cr, rest);
      FirstLine(hs, LineText(w), behind);
      MoreBlock(LineText(w), WriteBlock(ws[1..]), close, rest);
    }
  }

  lemma MoreBlock(line: string, lines: string, close: string, rest: string)
    ensures (line + "\n" + lines) + close + rest == line + "\n" + (lines + close + rest)
  {
  }

  lemma BlankIs(cr: bool)
    ensures Blank(if cr then "\r" else "")
  {
  }

  lemma FirstLine(hs: seq<Header>, line: string, rest: string)
    requires '\n' !in line
    ensures var t := line + "\n" + rest;
            && Parse(hs, t) == (if Blank(line) then Progress(hs, |line| + 1, true)
                                else Shift(Parse(AddLine(hs, line), rest), |line| + 1))
            && (BlockOk(t) <==> Blank(line) || (LineOk(line) && BlockOk(rest)))
  {
    var t := line + "\n" + rest;
    assert t[|line|] == '\n' && forall i :: 0 <= i < |line| ==> t[i] == line[i];
    assert Eol(t) == |line| && t[..|line|] == line && t[|line| + 1..] == rest;
    hide AddLine, LineOk, Blank, Eol;
    ParseStep(hs, t);
    OkStep(t);
  }

  // More text -----------------------------------------------------------------------------------

  lemma {:induction false} ScanAppend(a: string, b: string, p: nat, stop: char -> bool)
    requires p <= |a| && ScanUntil(a, p, stop) < |a|
    ensures ScanUntil(a + b, p, stop) == ScanUntil(a, p, stop)
    decreases |a| - p
  {
    if !stop(a[p]) {
      ScanAppend(a, b, p + 1, stop);
    }
  }

  lemma EolAppend(a: string, b: string)
    requires Eol(a) < |a|
    ensures Eol(a + b) == Eol(a)
    ensures (a + b)[..Eol(a)] == a[..Eol(a)] && (a + b)[Eol(a) + 1..] == a[Eol(a) + 1..] + b
  {
    ScanAppend(a, b, 0, IsEol);
  }

  lemma {:induction false} ParseStep(hs: seq<Header>, t: string)
    ensures var e := Eol(t);
      Parse(hs, t) ==
        if e == |t| then Progress(hs, 0, false)
        else if Blank(t[..e]) then Progress(hs, e + 1, true)
        else Shift(Parse(AddLine(hs, t[..e]), t[e + 1..]), e + 1)
  {
  }

  lemma {:induction false} OkStep(t: string)
    ensures var e := Eol(t);
      BlockOk(t) <==> if e == |t| then NUL !in t else Blank(t[..e]) || (LineOk(t[..e]) && BlockOk(t[e + 1..]))
  {
  }

  /** Text that arrives later does not change what has been parsed; an unfinished line is parsed
      again from its start. */
  lemma {:induction false} ParseAppend(hs: seq<Header>, a: string, b: string)
    ensures var p := Parse(hs, a);
      if p.done then Parse(hs, a + b) == p
      else Parse(hs, a + b) == Shift(Parse(p.headers, a[p.consumed..] + b), p.consumed)
           && Eol(a[p.consumed..]) == |a[p.consumed..]|
    decreases |a|
  {
    hide AddLine, Blank, Eol, Parse;
    var e := Eol(a);
    ParseStep(hs, a);
    if e == |a| {
      assert a[0..] == a;
    } else {
      EolAppend(a, b);
      ParseStep(hs, a + b);
      if !Blank(a[..e]) {
        var hs', rest := AddLine(hs, a[..e]), a[e + 1..];
        ParseAppend(hs', rest, b);
        var p := Parse(hs', rest);
        assert Parse(hs, a) == Shift(p, e + 1);
        assert Parse(hs, a + b) == Shift(Parse(hs', rest + b), e + 1);
        assert a[e + 1 + p.consumed..] == rest[p.consumed..];
      }
    }
  }

  lemma {:induction false} OkAppend(hs: seq<Header>, a: string, b: string)
    requires BlockOk(a + b)
    ensures BlockOk(a)
    ensures !Parse(hs, a).done ==> BlockOk(a[Parse(hs, a).consumed..] + b)
    decreases |a|
  {
    hide AddLine, LineOk, Blank, Eol, Parse, BlockOk;
    var e := Eol(a);
    ParseStep(hs, a);
    OkStep(a);
    if e == |a| {
      assert a[0..] == a;
      NoNulBefore(a, b);
    } else {
      EolAppend(a, b);
      OkStep(a + b);
      if !Blank(a[..e]) {
        var rest := a[e + 1..];
        OkAppend(AddLine(hs, a[..e]), rest, b);
        var p := Parse(AddLine(hs, a[..e]), rest);
        assert a[e + 1 + p.consumed..] == rest[p.consumed..];
      }
    }
  }

  /** The unfinished line at the end of `a` has no NUL. */
  lemma NoNulBefore(a: string, b: string)
    requires BlockOk(a + b) && Eol(a) == |a|
    ensures NUL !in a
  {
    var t := a + b;
    var e := Eol(t);
    assert forall i :: 0 <= i < |a| ==> a[i] != '\n' && t[i] == a[i];
    assert e >= |a|;
    if e < |t| {
      assert NUL !in t[..e];
      assert forall i :: 0 <= i < |a| ==> t[..e][i] == a[i];
    }
  }

  /** A finished block ends at the same place whatever follows it, and no shorter text finishes. */
  lemma ParsePrefix(hs: seq<Header>, t: string, m: nat)
    requires m <= |t| && Parse(hs, t).done
    ensures Parse(hs, t[..m]).done <==> Parse(hs, t).consumed <= m
    ensures Parse(hs, t[..m]).done ==> Parse(hs, t[..m]) == Parse(hs, t)
  {
    var a, b := t[..m], t[m..];
    assert t == a + b;
    ParseAppend(hs, a, b);
    var p := Parse(hs, a);
    if !p.done {
      var rest := a[p.consumed..];
      NoEolAppend(rest, b);
    }
  }

  lemma NoEolAppend(a: string, b: string)
    requires Eol(a) == |a|
    ensures Eol(a + b) >= |a|
  {
    assert forall i :: 0 <= i < |a| ==> (a + b)[i] == a[i];
  }
}
