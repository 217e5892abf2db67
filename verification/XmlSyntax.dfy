/** What the XML reader of src/xml_parser.c recognises, stated token by token.

    Every function takes the whole text and a position. The reader itself (XmlParser) is a set of
    nested character-level state machines; it is proved to produce exactly these tokens. */
module XmlSyntax {
  import opened CText

  /** MAX_ATTR_NR: bounds the number of names and values together, so 32 attributes. */
  const MAX_ATTR_NR: nat := 64

  /** The text a tag name points at: a piece of the input, or whatever happens to be in the
      reader's buffer when the input ends before the name does. */
  datatype Token = Tok(raw: string) | Dangling

  datatype RawEvent =
    | RawStart(tag: Token, raws: seq<string>)
    | RawEnd(tag: Token)
    | RawText(text: string)
    | RawComment(text: string)
    | RawPi(tag: Token, raws: seq<string>)
    | RawError

  datatype AttrScan = AttrScan(raws: seq<string>, pos: nat)

  /** A sub-reader's result: the events it raised and where it left the read pointer. */
  datatype Step = Step(events: seq<RawEvent>, pos: nat)

  predicate NotSpace(c: char) { !IsSpace(c) }
  predicate IsEquals(c: char) { c == '=' }
  predicate IsQuote(c: char) { c == '"' || c == '\'' }
  function IsChar(q: char): char -> bool { c => c == q }
  predicate IsGt(c: char) { c == '>' }
  predicate IsLt(c: char) { c == '<' }
  predicate EndsTagName(c: char) { IsSpace(c) || c == '>' || c == '/' }
  predicate EndsPiName(c: char) { IsSpace(c) || c == '>' }

  // Attribute lists -------------------------------------------------------------------------

  /** The attribute list at `p`; `endChar` ('/' or '?') or '>' closes it. */
  function Attrs(xml: string, p: nat, endChar: char, acc: seq<string>): (r: AttrScan)
    requires p <= |xml|
    ensures p <= r.pos <= |xml|
    decreases |xml| - p, 3
  {
    if |acc| >= MAX_ATTR_NR then AttrScan(acc, p)
    else
      var k := ScanUntil(xml, p, NotSpace);
      if k == |xml| || xml[k] == endChar || xml[k] == '>' then AttrScan(acc, k)
      else AttrsFromKey(xml, k, endChar, acc)
  }

  function AttrsFromKey(xml: string, k: nat, endChar: char, acc: seq<string>): (r: AttrScan)
    requires k <= |xml|
    ensures k <= r.pos <= |xml|
    decreases |xml| - k, 2
  {
    var e := ScanUntil(xml, k, IsEquals);
    if e == |xml| then AttrScan(acc, e)
    else AttrsFromEquals(xml, e + 1, endChar, acc + [xml[k..e]])
  }

  function AttrsFromEquals(xml: string, p: nat, endChar: char, acc: seq<string>): (r: AttrScan)
    requires p <= |xml|
    ensures p <= r.pos <= |xml|
    decreases |xml| - p, 1
  {
    if |acc| >= MAX_ATTR_NR then AttrScan(acc, p)
    else
      var q := ScanUntil(xml, p, IsQuote);
      if q == |xml| then AttrScan(acc, q)
      else AttrsFromValue(xml, q + 1, xml[q], endChar, acc)
  }

  function AttrsFromValue(xml: string, v: nat, quote: char, endChar: char, acc: seq<string>): (r: AttrScan)
    requires v <= |xml|
    ensures v <= r.pos <= |xml|
    decreases |xml| - v, 0
  {
    var e := ScanUntil(xml, v, IsChar(quote));
    if e == |xml| then AttrScan(acc, e)
    else Attrs(xml, e + 1, endChar, acc + [xml[v..e]])
  }

  // Tags, comments and text -----------------------------------------------------------------

  /** A tag's name and attribute list. */
  datatype TagHead = TagHead(tag: Token, scan: AttrScan)

  /** What ends the name of a start tag ('/') or of a processing instruction ('?'). */
  function NameStop(endChar: char): char -> bool {
    if endChar == '/' then EndsTagName else EndsPiName
  }

  /** The head of a tag whose name began at `start` and is scanned from `p` on. */
  function Head(xml: string, start: nat, p: nat, endChar: char): (r: TagHead)
    requires start <= p < |xml|
    ensures p <= r.scan.pos <= |xml|
  {
    var e := ScanUntil(xml, p, NameStop(endChar));
    TagHead(if e == |xml| then Dangling else Tok(xml[start..e]),
            if e < |xml| && IsSpace(xml[e]) then Attrs(xml, e + 1, endChar, []) else AttrScan([], e))
  }

  /** A start tag whose name began at `p - 1`. */
  function StartTag(xml: string, p: nat): (r: Step)
    requires 0 < p < |xml|
    ensures p <= r.pos <= |xml|
  {
    var h := Head(xml, p - 1, p, '/');
    var closed := if h.scan.pos < |xml| && xml[h.scan.pos] == '/' then [RawEnd(h.tag)] else [];
    Step([RawStart(h.tag, h.scan.raws)] + closed, ScanUntil(xml, h.scan.pos, IsGt))
  }

  function PiTag(xml: string, p: nat): (r: Step)
    requires p < |xml|
    ensures p <= r.pos <= |xml|
  {
    var h := Head(xml, p, p, '?');
    Step([RawPi(h.tag, h.scan.raws)], ScanUntil(xml, h.scan.pos, IsGt))
  }

  function EndTag(xml: string, p: nat): (r: Step)
    requires p < |xml|
    ensures p <= r.pos <= |xml|
  {
    var e := ScanUntil(xml, p, IsGt);
    Step(if e == |xml| then [] else [RawEnd(Tok(xml[p..e]))], e)
  }

  /** The first "--" at or after `p` (its first index), or `|xml|`. A single '-' that is
      followed by something else is consumed together with that character. */
  function CommentDashes(xml: string, p: nat): (r: nat)
    requires p <= |xml|
    ensures p <= r <= |xml|
    ensures r < |xml| ==> r + 1 < |xml| && xml[r] == '-' && xml[r + 1] == '-'
    decreases |xml| - p
  {
    if p == |xml| then p
    else if xml[p] != '-' then CommentDashes(xml, p + 1)
    else if p + 1 == |xml| then |xml|
    else if xml[p + 1] == '-' then p
    else CommentDashes(xml, p + 2)
  }

  /** A comment whose text starts at `p`: it ends at the first '>' after its first "--". */
  function CommentTag(xml: string, p: nat): (r: Step)
    requires p <= |xml|
    ensures p <= r.pos <= |xml|
  {
    var d := CommentDashes(xml, p);
    if d == |xml| then Step([], |xml|)
    else
      var e := ScanUntil(xml, d + 2, IsGt);
      Step(if e == |xml| then [] else [RawComment(xml[p..e - 2])], e)
  }

  // Whole documents -------------------------------------------------------------------------

  /** Everything read from `p` on, outside any construct. Text runs up to the next '<'; a text
      that the input ends before that '<' raises no event. */
  function Content(xml: string, p: nat): seq<RawEvent>
    requires p <= |xml|
    decreases |xml| - p, 1
  {
    var k := ScanUntil(xml, p, NotSpace);
    if k == |xml| then []
    else if xml[k] == '<' then AfterLt(xml, k + 1)
    else TextRun(xml, k)
  }

  /** A text run starting at `k`. */
  function TextRun(xml: string, k: nat): seq<RawEvent>
    requires k < |xml|
    decreases |xml| - k, 0
  {
    var e := ScanUntil(xml, k + 1, IsLt);
    if e == |xml| then [] else [RawText(xml[k..e])] + Content(xml, e)
  }

  /** Continue after the character at which a construct ended. */
  function Resume(xml: string, s: Step): seq<RawEvent>
    requires s.pos <= |xml|
    decreases |xml| - s.pos, 0
  {
    s.events + if s.pos == |xml| then [] else Content(xml, s.pos + 1)
  }

  function AfterLt(xml: string, p: nat): seq<RawEvent>
    requires p <= |xml|
    decreases |xml| - p, 3
  {
    if p == |xml| then []
    else if xml[p] == '!' then PreComment(xml, p + 1)
    else if xml[p] == '?' then if p + 1 == |xml| then [] else Resume(xml, PiTag(xml, p + 1))
    else if xml[p] == '/' then if p + 1 == |xml| then [] else Resume(xml, EndTag(xml, p + 1))
    else if IsAlpha(xml[p]) || xml[p] == '_' then
      if p + 1 == |xml| then [] else Resume(xml, StartTag(xml, p + 1))
    else [RawError] + AfterLt(xml, p + 1)
  }

  /** After "<!": everything up to the first '-' is an error, and so is a character other than
      a second '-'; the comment starts behind that character either way. */
  function PreComment(xml: string, p: nat): seq<RawEvent>
    requires p <= |xml|
    decreases |xml| - p, 2
  {
    if p == |xml| then []
    else if xml[p] != '-' then [RawError] + PreComment(xml, p + 1)
    else if p + 1 == |xml| then []
    else (if xml[p + 1] == '-' then [] else [RawError]) + Resume(xml, CommentTag(xml, p + 2))
  }

  /** The events of a whole document. */
  function Document(xml: string): seq<RawEvent> {
    Content(xml, 0)
  }
}
