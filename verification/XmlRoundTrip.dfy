/** Writing a document in any layout and reading it back: the builder receives exactly the events of
    visiting the trees that were written. What may be written is said in literal characters, without
    the character classes of the reader. */
module XmlRoundTrip {
  import opened CText
  import opened XmlSyntax
  import opened XmlModel

  // Documents with their layout ---------------------------------------------------------------

  predicate Short(s: string) { |s| < 128 && NUL !in s }

  /** No blank at either end. */
  predicate Bare(s: string) {
    s == [] || (!BlankChar(s[0]) && !BlankChar(s[|s| - 1]))
  }

  /** An attribute as it is written: blanks in front of the name, around '=' and inside the quotes,
      and the kind of quote. */
  datatype AttrForm = AttrForm(lead: string, name: string, pad: string, gap: string,
                               quote: char, before: string, value: string, after: string) {
    function Key(): string { name + pad }

    function Quoted(): string { before + value + after }
  }

  /** A piece of a document as it is written. A start tag, an empty-element tag and a processing
      instruction may have blanks (`tail`) at their end, an end tag around its name. */
  datatype Markup =
    | Space(blanks: string)
    | Full(name: string, attrs: seq<AttrForm>, tail: string, kids: seq<Markup>, before: string, after: string)
    | Empty(name: string, attrs: seq<AttrForm>, tail: string)
    | Words(text: string)
    | Remark(text: string)
    | Instruction(name: string, attrs: seq<AttrForm>, tail: string)

  predicate NameOk(s: string) {
    && Short(s) && s != [] && ('a' <= s[0] <= 'z' || 'A' <= s[0] <= 'Z' || s[0] == '_')
    && forall c :: c in s ==> !BlankChar(c) && c != '>' && c != '/'
  }

  predicate AttrOk(a: AttrForm) {
    && AllBlank(a.lead) && AllBlank(a.pad) && AllBlank(a.gap) && AllBlank(a.before) && AllBlank(a.after)
    && Short(a.Key()) && a.name != [] && Bare(a.name) && '=' !in a.name
    && a.name[0] !in {'>', '/', '?'}
    && (a.quote == '"' || a.quote == '\'')
    && Short(a.Quoted()) && Bare(a.value) && a.quote !in a.value
  }

  /** At most 32 attributes; the first is set off from the tag's name. */
  predicate AttrsOk(attrs: seq<AttrForm>) {
    && |attrs| <= 32 && (attrs != [] ==> attrs[0].lead != [])
    && forall a :: a in attrs ==> AttrOk(a)
  }

  predicate TextOk(s: string) {
    s != [] && !BlankChar(s[0]) && '<' !in s && NUL !in s
  }

  /** No "--" inside and no '-' at the end. */
  predicate CommentOk(s: string) {
    && NUL !in s
    && forall i :: 0 <= i < |s| && s[i] == '-' ==> i + 1 < |s| && s[i + 1] != '-'
  }

  /** The name of an instruction must end before its '?'. A tag with 32 attributes must be closed
      right behind them: see `EndTagLost`. */
  predicate MarkupOk(m: Markup)
    decreases m
  {
    match m
    case Space(blanks) => AllBlank(blanks)
    case Full(name, attrs, tail, kids, before, after) =>
      && NameOk(name) && AttrsOk(attrs) && AllBlank(tail) && DocumentOk(kids)
      && AllBlank(before) && AllBlank(after) && Short(before + name + after)
    case Empty(name, attrs, tail) =>
      NameOk(name) && AttrsOk(attrs) && AllBlank(tail) && (|attrs| == 32 ==> tail == [])
    case Words(text) => TextOk(text)
    case Remark(text) => CommentOk(text)
    case Instruction(name, attrs, tail) =>
      NameOk(name) && AttrsOk(attrs) && AllBlank(tail) && (attrs == [] ==> tail != [])
  }

  /** Text reaches to the next '<', so neither text nor space may follow a text. */
  predicate DocumentOk(f: seq<Markup>)
    decreases f
  {
    f == [] ||
    (MarkupOk(f[0]) && DocumentOk(f[1..]) && !(|f| > 1 && f[0].Words? && (f[1].Words? || f[1].Space?)))
  }

  // What is written ---------------------------------------------------------------------------

  function WriteAttr(a: AttrForm): string {
    a.lead + a.Key() + "=" + a.gap + [a.quote] + a.Quoted() + [a.quote]
  }

  function WriteAttrs(attrs: seq<AttrForm>): string {
    if attrs == [] then [] else WriteAttr(attrs[0]) + WriteAttrs(attrs[1..])
  }

  function Inside(name: string, attrs: seq<AttrForm>, tail: string): string {
    name + WriteAttrs(attrs) + tail
  }

  function CloseTag(name: string): string { "</" + name + ">" }

  function WriteOne(m: Markup): string
    decreases m
  {
    match m
    case Space(blanks) => blanks
    case Full(name, attrs, tail, kids, before, after) =>
      "<" + Inside(name, attrs, tail) + ">" + Write(kids) + CloseTag(before + name + after)
    case Empty(name, attrs, tail) => "<" + Inside(name, attrs, tail) + "/>"
    case Words(text) => text
    case Remark(text) => "<!--" + text + "-->"
    case Instruction(name, attrs, tail) => "<?" + Inside(name, attrs, tail) + "?>"
  }

  function Write(f: seq<Markup>): string
    decreases f
  {
    if f == [] then [] else WriteOne(f[0]) + Write(f[1..])
  }

  // What it means -----------------------------------------------------------------------------

  function AttrsOf(attrs: seq<AttrForm>): (r: seq<Attr>)
    ensures |r| == |attrs|
  {
    if attrs == [] then [] else [Attr(attrs[0].name, attrs[0].value)] + AttrsOf(attrs[1..])
  }

  /** The tree that is written, none for a space. */
  function TreesOf(m: Markup): seq<Tree>
    decreases m
  {
    match m
    case Space(_) => []
    case Full(name, attrs, _, kids, _, _) => [Element(name, AttrsOf(attrs), Trees(kids))]
    case Empty(name, attrs, _) => [Element(name, AttrsOf(attrs), [])]
    case Words(text) => [Text(text)]
    case Remark(text) => [Comment(text)]
    case Instruction(name, attrs, _) => [Pi(name, AttrsOf(attrs))]
  }

  function Trees(f: seq<Markup>): seq<Tree>
    decreases f
  {
    if f == [] then [] else TreesOf(f[0]) + Trees(f[1..])
  }

  // The tokens the reader finds ---------------------------------------------------------------

  function AttrRaws(attrs: seq<AttrForm>): (r: seq<string>)
    ensures |r| == 2 * |attrs|
  {
    if attrs == [] then [] else [attrs[0].Key(), attrs[0].Quoted()] + AttrRaws(attrs[1..])
  }

  function RawsOf(m: Markup): seq<RawEvent>
    decreases m
  {
    match m
    case Space(_) => []
    case Full(name, attrs, _, kids, before, after) =>
      [RawStart(Tok(name), AttrRaws(attrs))] + Raws(kids) + [RawEnd(Tok(before + name + after))]
    case Empty(name, attrs, _) => [RawStart(Tok(name), AttrRaws(attrs)), RawEnd(Tok(name))]
    case Words(text) => [RawText(text)]
    case Remark(text) => [RawComment(text)]
    case Instruction(name, attrs, _) => [RawPi(Tok(name), AttrRaws(attrs))]
  }

  function Raws(f: seq<Markup>): seq<RawEvent>
    decreases f
  {
    if f == [] then [] else RawsOf(f[0]) + Raws(f[1..])
  }

  lemma BlankIsSpace(s: string, p: nat, q: nat, blanks: string)
    requires p <= q <= |s| && s[p..q] == blanks && AllBlank(blanks)
    ensures forall i :: p <= i < q ==> IsSpace(s[i])
  {
    forall i | p <= i < q ensures IsSpace(s[i]) {
      assert s[i] == blanks[i - p] && blanks[i - p] in blanks;
    }
  }

  // Reading the pieces back -------------------------------------------------------------------

  /** ScanUntil finds position `r` when nothing before it stops the scan. */
  lemma ScanIs(s: seq<char>, p: nat, stop: char -> bool, r: nat)
    requires p <= r <= |s|
    requires forall i :: p <= i < r ==> !stop(s[i])
    requires r < |s| ==> stop(s[r])
    ensures ScanUntil(s, p, stop) == r
  {
  }

  /** A slice without characters that stop a scan is skipped. */
  lemma ScanOver(s: seq<char>, p: nat, stop: char -> bool, r: nat)
    requires p <= r < |s|
    requires forall c :: c in s[p..r] ==> !stop(c)
    requires stop(s[r])
    ensures ScanUntil(s, p, stop) == r
  {
    assert forall i :: p <= i < r ==> s[i] in s[p..r];
    ScanIs(s, p, stop, r);
  }

  /** Where the parts of a written attribute are: its key from `k` to `e`, its quotes at `q` and `z`. */
  lemma AttrParts(xml: string, p: nat, a: AttrForm)
    requires At(xml, p, WriteAttr(a))
    ensures var k := p + |a.lead|; var e := k + |a.Key()|; var q := e + 1 + |a.gap|; var z := q + 1 + |a.Quoted()|;
            && z + 1 == p + |WriteAttr(a)| <= |xml|
            && xml[p..k] == a.lead && xml[k..e] == a.Key() && xml[e] == '=' && xml[e + 1..q] == a.gap
            && xml[q] == a.quote && xml[q + 1..z] == a.Quoted() && xml[z] == a.quote
  {
    hide AttrForm.Key, AttrForm.Quoted, At;
    var e := p + |a.lead| + |a.Key()|;
    var q := e + 1 + |a.gap|;
    assert WriteAttr(a) == (a.lead + a.Key() + "=") + a.gap + ([a.quote] + a.Quoted() + [a.quote]);
    SplitThree(xml, p, a.lead + a.Key() + "=", a.gap, [a.quote] + a.Quoted() + [a.quote]);
    SplitThree(xml, p, a.lead, a.Key(), "=");
    SplitThree(xml, q, [a.quote], a.Quoted(), [a.quote]);
    OneAt(xml, e, '=');
    OneAt(xml, q, a.quote);
    OneAt(xml, q + 1 + |a.Quoted()|, a.quote);
  }

  lemma SplitThree(xml: string, p: nat, a: string, b: string, c: string)
    requires At(xml, p, a + b + c)
    ensures At(xml, p, a) && At(xml, p + |a|, b) && At(xml, p + |a| + |b|, c)
    ensures p + |a| + |b| + |c| <= |xml| && xml[p..p + |a|] == a && xml[p + |a|..p + |a| + |b|] == b
  {
    AtSplit(xml, p, a + b, c);
    AtSplit(xml, p, a, b);
  }

  lemma OneAt(xml: string, p: nat, c: char)
    requires At(xml, p, [c])
    ensures p < |xml| && xml[p] == c
  {
    assert xml[p] == xml[p..p + 1][0];
  }

  lemma ReadKey(xml: string, p: nat, k: nat, e: nat, endChar: char, acc: seq<string>)
    requires p <= k < e < |xml| && xml[e] == '='
    requires forall i :: p <= i < k ==> IsSpace(xml[i])
    requires !IsSpace(xml[k]) && xml[k] != endChar && xml[k] != '>'
    requires '=' !in xml[k..e]
    requires |acc| < MAX_ATTR_NR
    ensures Attrs(xml, p, endChar, acc) == AttrsFromEquals(xml, e + 1, endChar, acc + [xml[k..e]])
  {
    ScanIs(xml, p, NotSpace, k);
    ScanOver(xml, k, IsEquals, e);
    assert Attrs(xml, p, endChar, acc) == AttrsFromKey(xml, k, endChar, acc);
  }

  lemma ReadValue(xml: string, p: nat, q: nat, z: nat, quote: char, endChar: char, acc: seq<string>)
    requires p <= q < z < |xml| && xml[q] == quote && xml[z] == quote && (quote == '"' || quote == '\'')
    requires forall i :: p <= i < q ==> IsSpace(xml[i])
    requires quote !in xml[q + 1..z]
    requires |acc| < MAX_ATTR_NR
    ensures AttrsFromEquals(xml, p, endChar, acc) == Attrs(xml, z + 1, endChar, acc + [xml[q + 1..z]])
  {
    ScanIs(xml, p, IsQuote, q);
    ScanOver(xml, q + 1, IsChar(quote), z);
    assert AttrsFromEquals(xml, p, endChar, acc) == AttrsFromValue(xml, q + 1, quote, endChar, acc);
  }

  lemma KeyFacts(a: AttrForm)
    requires AttrOk(a)
    ensures a.Key() != [] && '=' !in a.Key() && a.quote !in a.Quoted() && (a.quote == '"' || a.quote == '\'')
    ensures !IsSpace(a.Key()[0]) && a.Key()[0] !in {'>', '/', '?'}
    ensures AllBlank(a.lead) && AllBlank(a.gap)
  {
  }

  lemma AttrBlanks(xml: string, p: nat, a: AttrForm)
    requires AttrOk(a) && At(xml, p, WriteAttr(a))
    ensures var k := p + |a.lead|; var e := k + |a.Key()|; var q := e + 1 + |a.gap|;
            && k < e && q < |xml| && !IsSpace(xml[k]) && xml[k] !in {'>', '/', '?'}
            && (forall i :: p <= i < k ==> IsSpace(xml[i])) && (forall i :: e + 1 <= i < q ==> IsSpace(xml[i]))
  {
    hide AttrOk, WriteAttr, At;
    var k := p + |a.lead|;
    var e := k + |a.Key()|;
    var q := e + 1 + |a.gap|;
    AttrParts(xml, p, a);
    KeyFacts(a);
    BlankIsSpace(xml, p, k, a.lead);
    BlankIsSpace(xml, e + 1, q, a.gap);
    assert xml[k] == xml[k..e][0];
  }

  /** One written attribute is read back as its key and what is between its quotes. */
  lemma ReadAttr(xml: string, p: nat, a: AttrForm, endChar: char, acc: seq<string>)
    requires AttrOk(a) && At(xml, p, WriteAttr(a))
    requires endChar == '/' || endChar == '?'
    requires |acc| + 2 <= MAX_ATTR_NR
    ensures Attrs(xml, p, endChar, acc)
         == Attrs(xml, p + |WriteAttr(a)|, endChar, acc + [a.Key(), a.Quoted()])
  {
    hide *;
    var k := p + |a.lead|;
    var e := k + |a.Key()|;
    var q := e + 1 + |a.gap|;
    var z := q + 1 + |a.Quoted()|;
    AttrParts(xml, p, a);
    KeyFacts(a);
    AttrBlanks(xml, p, a);
    ReadKey(xml, p, k, e, endChar, acc);
    ReadValue(xml, e + 1, q, z, a.quote, endChar, acc + [a.Key()]);
    assert acc + [a.Key()] + [a.Quoted()] == acc + [a.Key(), a.Quoted()];
  }

  /** A written attribute list is read back whole, up to what closes it. */
  lemma {:induction false} ReadAttrs(xml: string, p: nat, attrs: seq<AttrForm>, endChar: char, acc: seq<string>)
    requires forall a :: a in attrs ==> AttrOk(a)
    requires |acc| + 2 * |attrs| <= MAX_ATTR_NR
    requires endChar == '/' || endChar == '?'
    requires At(xml, p, WriteAttrs(attrs))
    ensures var q := p + |WriteAttrs(attrs)|;
            Attrs(xml, p, endChar, acc) == Attrs(xml, q, endChar, acc + AttrRaws(attrs))
    decreases |attrs|
  {
    hide Attrs, AttrOk, WriteAttr;
    if attrs == [] {
      assert acc + AttrRaws(attrs) == acc;
    } else {
      var a, rest := attrs[0], attrs[1..];
      FirstAttr(attrs);
      hide WriteAttrs, AttrRaws;
      AtSplit(xml, p, WriteAttr(a), WriteAttrs(rest));
      ReadAttr(xml, p, a, endChar, acc);
      ReadAttrs(xml, p + |WriteAttr(a)|, rest, endChar, acc + [a.Key(), a.Quoted()]);
      assert acc + [a.Key(), a.Quoted()] + AttrRaws(rest) == acc + ([a.Key(), a.Quoted()] + AttrRaws(rest));
    }
  }

  lemma {:induction false} FirstAttr(attrs: seq<AttrForm>)
    requires attrs != []
    ensures WriteAttrs(attrs) == WriteAttr(attrs[0]) + WriteAttrs(attrs[1..])
    ensures AttrRaws(attrs) == [attrs[0].Key(), attrs[0].Quoted()] + AttrRaws(attrs[1..])
  {
  }

  /** A list that is closed at `k`, behind spaces; a full list stops right away. */
  lemma CloseAttrs(xml: string, q: nat, k: nat, endChar: char, acc: seq<string>)
    requires q <= k < |xml| && !IsSpace(xml[k]) && (xml[k] == endChar || xml[k] == '>')
    requires forall i :: q <= i < k ==> IsSpace(xml[i])
    ensures Attrs(xml, q, endChar, acc) == AttrScan(acc, if |acc| >= MAX_ATTR_NR then q else k)
  {
    ScanIs(xml, q, NotSpace, k);
  }

  /** A list that follows a space may as well be read from that space on. */
  lemma FromSpace(xml: string, e: nat, endChar: char)
    requires e < |xml| && IsSpace(xml[e])
    ensures Attrs(xml, e + 1, endChar, []) == Attrs(xml, e, endChar, [])
  {
    ScanIs(xml, e, NotSpace, ScanUntil(xml, e + 1, NotSpace));
  }

  lemma LeadSpace(xml: string, e: nat, attrs: seq<AttrForm>)
    requires AttrsOk(attrs) && attrs != [] && At(xml, e, WriteAttrs(attrs))
    ensures e < |xml| && IsSpace(xml[e])
  {
    var a := attrs[0];
    assert AttrOk(a) && a.lead[0] in a.lead;
    assert xml[e] == xml[e..e + |WriteAttrs(attrs)|][0] == WriteAttr(a)[0] == a.lead[0];
  }

  /** The scan behind a tag's name at `e`: attributes up to `q`, blanks up to `k`. */
  lemma ReadList(xml: string, e: nat, attrs: seq<AttrForm>, q: nat, tail: string, k: nat, endChar: char)
    requires AttrsOk(attrs) && At(xml, e, WriteAttrs(attrs)) && q == e + |WriteAttrs(attrs)|
    requires q <= k < |xml| && xml[q..k] == tail && AllBlank(tail)
    requires (endChar == '/' || endChar == '?') && (xml[k] == endChar || xml[k] == '>')
    ensures IsSpace(xml[e]) || (attrs == [] && e == k)
    ensures (if IsSpace(xml[e]) then Attrs(xml, e + 1, endChar, []) else AttrScan([], e))
         == AttrScan(AttrRaws(attrs), if |attrs| == 32 then q else k)
  {
    hide Attrs, AttrOk, AttrRaws, At, ScanUntil, AllBlank;
    BlankIsSpace(xml, q, k, tail);
    assert !IsSpace(xml[k]);
    if attrs == [] && q == k {
    } else {
      if attrs != [] {
        LeadSpace(xml, e, attrs);
      }
      hide IsSpace, WriteAttrs, AttrsOk;
      FromSpace(xml, e, endChar);
      AllAttrsOk(attrs);
      ReadAttrs(xml, e, attrs, endChar, []);
      CloseAttrs(xml, q, k, endChar, AttrRaws(attrs));
      assert [] + AttrRaws(attrs) == AttrRaws(attrs);
    }
  }

  lemma AllAttrsOk(attrs: seq<AttrForm>)
    requires AttrsOk(attrs)
    ensures |attrs| <= 32 && forall a :: a in attrs ==> AttrOk(a)
  {
  }

  /** The name scan of a start tag starts behind the name's first character. */
  lemma ScanName(xml: string, start: nat, p: nat, name: string, endChar: char)
    requires NameOk(name) && At(xml, start, name) && start <= p <= start + 1
    requires start + |name| < |xml| && NameStop(endChar)(xml[start + |name|])
    ensures ScanUntil(xml, p, NameStop(endChar)) == start + |name|
  {
    var e := start + |name|;
    assert forall i :: p <= i < e ==> xml[i] == name[i - start] && name[i - start] in name;
    ScanIs(xml, p, NameStop(endChar), e);
  }

  lemma HeadParts(xml: string, start: nat, name: string, attrs: seq<AttrForm>, tail: string)
    requires At(xml, start, Inside(name, attrs, tail))
    ensures var e := start + |name|; var q := e + |WriteAttrs(attrs)|; var k := q + |tail|;
            && At(xml, start, name) && At(xml, e, WriteAttrs(attrs)) && k <= |xml|
            && xml[start..e] == name && xml[q..k] == tail
            && k == start + |Inside(name, attrs, tail)|
  {
    hide WriteAttrs;
    AtSplit(xml, start, name + WriteAttrs(attrs), tail);
    AtSplit(xml, start, name, WriteAttrs(attrs));
  }

  lemma InsideStarts(name: string, attrs: seq<AttrForm>, tail: string)
    requires NameOk(name)
    ensures name != [] && Inside(name, attrs, tail) != [] && Inside(name, attrs, tail)[0] == name[0]
    ensures IsAlpha(name[0]) || name[0] == '_'
  {
    hide WriteAttrs;
  }

  /** A tag's name, attributes and blanks, closed at `k`. */
  lemma ReadHead(xml: string, start: nat, p: nat, name: string, attrs: seq<AttrForm>, tail: string,
                 k: nat, endChar: char)
    requires NameOk(name) && AttrsOk(attrs) && AllBlank(tail) && start <= p <= start + 1
    requires At(xml, start, Inside(name, attrs, tail)) && k == start + |Inside(name, attrs, tail)| < |xml|
    requires if endChar == '/' then xml[k] == '/' || xml[k] == '>' else endChar == '?' == xml[k]
    requires endChar == '?' && attrs == [] ==> tail != []
    ensures p < |xml|
    ensures Head(xml, start, p, endChar)
         == TagHead(Tok(name), AttrScan(AttrRaws(attrs), if |attrs| == 32 then k - |tail| else k))
  {
    hide Attrs, AttrsOk, NameOk, ScanUntil, WriteAttrs, AttrRaws, AllBlank, At, Inside;
    hide EndsTagName, EndsPiName, NameStop;
    var e := start + |name|;
    var q := e + |WriteAttrs(attrs)|;
    InsideStarts(name, attrs, tail);
    HeadParts(xml, start, name, attrs, tail);
    ReadList(xml, e, attrs, q, tail, k, endChar);
    NameEnds(xml[e], endChar);
    ScanName(xml, start, p, name, endChar);
  }

  lemma NameEnds(c: char, endChar: char)
    requires IsSpace(c) || (endChar == '/' && (c == '/' || c == '>'))
    ensures NameStop(endChar)(c)
  {
  }

  lemma AtLt(xml: string, p: nat)
    requires p < |xml| && xml[p] == '<'
    ensures Content(xml, p) == AfterLt(xml, p + 1)
  {
    hide AfterLt;
    ScanIs(xml, p, NotSpace, p);
  }

  /** What the character at `p`, behind a '<', selects. */
  lemma DispatchAt(xml: string, p: nat)
    requires p + 1 < |xml|
    ensures IsAlpha(xml[p]) || xml[p] == '_' ==> AfterLt(xml, p) == Resume(xml, StartTag(xml, p + 1))
    ensures xml[p] == '/' ==> AfterLt(xml, p) == Resume(xml, EndTag(xml, p + 1))
    ensures xml[p] == '?' ==> AfterLt(xml, p) == Resume(xml, PiTag(xml, p + 1))
    ensures xml[p] == '!' ==> AfterLt(xml, p) == PreComment(xml, p + 1)
  {
    hide StartTag, EndTag, PiTag, PreComment, Resume;
  }

  lemma Dispatch(xml: string, p: nat)
    requires p + 2 < |xml| && xml[p] == '<'
    ensures IsAlpha(xml[p + 1]) || xml[p + 1] == '_' ==> Content(xml, p) == Resume(xml, StartTag(xml, p + 2))
    ensures xml[p + 1] == '/' ==> Content(xml, p) == Resume(xml, EndTag(xml, p + 2))
    ensures xml[p + 1] == '?' ==> Content(xml, p) == Resume(xml, PiTag(xml, p + 2))
    ensures xml[p + 1] == '!' ==> Content(xml, p) == PreComment(xml, p + 2)
  {
    hide *;
    AtLt(xml, p);
    DispatchAt(xml, p + 1);
  }

  /** Reading on from `p` raises `evs` and then whatever reading from `q` raises. */
  ghost predicate Reads(xml: string, p: nat, evs: seq<RawEvent>, q: nat) {
    p <= q <= |xml| && Content(xml, p) == evs + Content(xml, q)
  }

  lemma ReadsOn(xml: string, p: nat, evs: seq<RawEvent>, q: nat, more: seq<RawEvent>, r: nat)
    requires Reads(xml, p, evs, q) && Reads(xml, q, more, r)
    ensures Reads(xml, p, evs + more, r)
  {
    hide Content;
  }

  lemma ResumeAt(xml: string, evs: seq<RawEvent>, e: nat)
    requires e < |xml|
    ensures Resume(xml, Step(evs, e)) == evs + Content(xml, e + 1)
  {
    hide Content;
  }

  /** The places of "<", of what is inside a tag, and of what closes it. */
  lemma TagParts(xml: string, p: nat, opening: string, inner: string, closing: string)
    requires At(xml, p, opening + inner + closing) && opening != [] && inner != [] && closing != []
    ensures var q := p + |opening| + |inner|;
            && q + |closing| == p + |opening + inner + closing| <= |xml| && At(xml, p + |opening|, inner)
            && (forall i :: 0 <= i < |opening| ==> xml[p + i] == opening[i])
            && xml[p + |opening|] == inner[0]
            && (forall i :: 0 <= i < |closing| ==> xml[q + i] == closing[i])
  {
    var q := p + |opening| + |inner|;
    AtSplit(xml, p, opening + inner, closing);
    AtSplit(xml, p, opening, inner);
    forall i | 0 <= i < |opening| ensures xml[p + i] == opening[i] {
      assert xml[p + i] == xml[p..p + |opening|][i];
    }
    forall i | 0 <= i < |closing| ensures xml[q + i] == closing[i] {
      assert xml[q + i] == xml[q..q + |closing|][i];
    }
    assert xml[p + |opening|] == xml[p + |opening|..q][0];
  }

  lemma StartTagIs(xml: string, p: nat, tag: Token, scan: AttrScan)
    requires 0 < p < |xml| && Head(xml, p - 1, p, '/') == TagHead(tag, scan) && scan.pos < |xml|
    ensures StartTag(xml, p)
         == Step([RawStart(tag, scan.raws)] + (if xml[scan.pos] == '/' then [RawEnd(tag)] else []),
                 ScanUntil(xml, scan.pos, IsGt))
  {
    hide Head, ScanUntil;
  }

  /** Up to the '>' of a tag that is closed at `k`, from its closing character or from its blanks. */
  lemma ToGt(xml: string, q: nat, k: nat, tail: string, gt: nat)
    requires q <= k <= gt <= k + 1 && gt < |xml| && xml[q..k] == tail && AllBlank(tail)
    requires xml[gt] == '>' && (k < gt ==> xml[k] != '>')
    ensures ScanUntil(xml, q, IsGt) == gt && ScanUntil(xml, k, IsGt) == gt
  {
    BlankIsSpace(xml, q, k, tail);
    ScanIs(xml, q, IsGt, gt);
    ScanIs(xml, k, IsGt, gt);
  }

  /** Whether the slash of an empty-element tag is seen: not behind blanks that follow a full list. */
  predicate SlashSeen(attrs: seq<AttrForm>, tail: string) { |attrs| < 32 || tail == [] }

  lemma SlashIs(attrs: seq<AttrForm>, tail: string)
    ensures SlashSeen(attrs, tail) <==> |attrs| < 32 || tail == []
  {
  }

  lemma TailAt(xml: string, p: nat, name: string, attrs: seq<AttrForm>, tail: string, k: nat)
    requires At(xml, p, Inside(name, attrs, tail)) && k == p + |Inside(name, attrs, tail)|
    ensures p <= k - |tail| <= k <= |xml| && xml[k - |tail|..k] == tail
  {
    AtSplit(xml, p, name + WriteAttrs(attrs), tail);
  }

  lemma NoSlash(xml: string, q: nat, k: nat, tail: string)
    requires q < k <= |xml| && xml[q..k] == tail && AllBlank(tail)
    ensures xml[q] != '/'
  {
    BlankIsSpace(xml, q, k, tail);
  }

  lemma ReadsIs(xml: string, p: nat, evs: seq<RawEvent>, q: nat)
    requires p <= q <= |xml| && Content(xml, p) == evs + Content(xml, q)
    ensures Reads(xml, p, evs, q)
  {
    hide Content;
  }

  /** A start tag or an empty-element tag whose name begins at `p`. */
  lemma ReadStart(xml: string, p: nat, name: string, attrs: seq<AttrForm>, tail: string, k: nat, gt: nat)
    requires NameOk(name) && AttrsOk(attrs) && |attrs| <= 32 && AllBlank(tail)
    requires At(xml, p, Inside(name, attrs, tail)) && k == p + |Inside(name, attrs, tail)| <= gt < |xml|
    requires p + 1 < |xml| && xml[p] == name[0] && (IsAlpha(name[0]) || name[0] == '_')
    requires if gt == k then xml[k] == '>' else gt == k + 1 && xml[k] == '/' && xml[gt] == '>'
    ensures AfterLt(xml, p)
         == [RawStart(Tok(name), AttrRaws(attrs))]
            + (if k < gt && SlashSeen(attrs, tail) then [RawEnd(Tok(name))] else []) + Content(xml, gt + 1)
  {
    hide *;
    var q := k - |tail|;
    TailAt(xml, p, name, attrs, tail, k);
    if q < k {
      NoSlash(xml, q, k, tail);
    }
    var scan := AttrScan(AttrRaws(attrs), if |attrs| == 32 then q else k);
    ReadHead(xml, p, p + 1, name, attrs, tail, k, '/');
    DispatchAt(xml, p);
    StartTagIs(xml, p + 1, Tok(name), scan);
    ToGt(xml, q, k, tail, gt);
    var closed := if k < gt && SlashSeen(attrs, tail) then [RawEnd(Tok(name))] else [];
    assert closed == if xml[scan.pos] == '/' then [RawEnd(Tok(name))] else [] by { SlashIs(attrs, tail); }
    ResumeAt(xml, [RawStart(Tok(name), AttrRaws(attrs))] + closed, gt);
  }

  /** A start tag whose name begins at `p`. */
  lemma ReadOpen(xml: string, p: nat, name: string, attrs: seq<AttrForm>, tail: string, k: nat)
    requires NameOk(name) && AttrsOk(attrs) && AllBlank(tail)
    requires At(xml, p, Inside(name, attrs, tail)) && k == p + |Inside(name, attrs, tail)| < |xml|
    requires p + 1 < |xml| && xml[p] == name[0] && (IsAlpha(name[0]) || name[0] == '_') && xml[k] == '>'
    ensures AfterLt(xml, p) == [RawStart(Tok(name), AttrRaws(attrs))] + Content(xml, k + 1)
  {
    hide *;
    AllAttrsOk(attrs);
    ReadStart(xml, p, name, attrs, tail, k, k);
    var evs := [RawStart(Tok(name), AttrRaws(attrs))];
    NothingMore(evs);
    assert evs + (if k < k && SlashSeen(attrs, tail) then [RawEnd(Tok(name))] else []) == evs;
  }

  lemma ReadOpenTag(xml: string, p: nat, name: string, attrs: seq<AttrForm>, tail: string)
    requires NameOk(name) && AttrsOk(attrs) && AllBlank(tail)
    requires At(xml, p, "<" + Inside(name, attrs, tail) + ">")
    ensures Reads(xml, p, [RawStart(Tok(name), AttrRaws(attrs))], p + |"<" + Inside(name, attrs, tail) + ">"|)
  {
    hide *;
    var inner := Inside(name, attrs, tail);
    var k := p + 1 + |inner|;
    InsideStarts(name, attrs, tail);
    TagParts(xml, p, "<", inner, ">");
    assert xml[p + 0] == "<"[0] && xml[k + 0] == ">"[0];
    ReadOpen(xml, p + 1, name, attrs, tail, k);
    AtLt(xml, p);
    ReadsIs(xml, p, [RawStart(Tok(name), AttrRaws(attrs))], k + 1);
  }

  lemma ReadEmptyTag(xml: string, p: nat, name: string, attrs: seq<AttrForm>, tail: string)
    requires NameOk(name) && AttrsOk(attrs) && AllBlank(tail)
    requires At(xml, p, "<" + Inside(name, attrs, tail) + "/>")
    ensures Reads(xml, p, [RawStart(Tok(name), AttrRaws(attrs))]
                          + (if SlashSeen(attrs, tail) then [RawEnd(Tok(name))] else []),
                  p + |"<" + Inside(name, attrs, tail) + "/>"|)
  {
    hide *;
    var k := p + 1 + |Inside(name, attrs, tail)|;
    AllAttrsOk(attrs);
    EmptyTagPlaces(xml, p, name, attrs, tail);
    ReadStart(xml, p + 1, name, attrs, tail, k, k + 1);
    AtLt(xml, p);
    ReadsIs(xml, p, [RawStart(Tok(name), AttrRaws(attrs))]
                    + (if k < k + 1 && SlashSeen(attrs, tail) then [RawEnd(Tok(name))] else []), k + 2);
  }

  lemma EmptyTagPlaces(xml: string, p: nat, name: string, attrs: seq<AttrForm>, tail: string)
    requires NameOk(name) && At(xml, p, "<" + Inside(name, attrs, tail) + "/>")
    ensures name != [] && (IsAlpha(name[0]) || name[0] == '_')
    ensures var k := p + 1 + |Inside(name, attrs, tail)|;
            && p + 1 < k && k + 2 == p + |"<" + Inside(name, attrs, tail) + "/>"| <= |xml|
            && xml[p] == '<' && xml[p + 1] == name[0] && xml[k] == '/' && xml[k + 1] == '>'
            && At(xml, p + 1, Inside(name, attrs, tail))
  {
    hide NameOk, Inside, At;
    var inner := Inside(name, attrs, tail);
    InsideStarts(name, attrs, tail);
    TagParts(xml, p, "<", inner, "/>");
    assert xml[p + 0] == "<"[0] && xml[p + 1 + |inner| + 0] == "/>"[0] && xml[p + 1 + |inner| + 1] == "/>"[1];
  }

  lemma ReadEndTag(xml: string, p: nat, name: string)
    requires '>' !in name && name != [] && At(xml, p, CloseTag(name))
    ensures Reads(xml, p, [RawEnd(Tok(name))], p + |CloseTag(name)|)
  {
    hide Content, Resume;
    AtSplit(xml, p, "</" + name, ">");
    AtSplit(xml, p, "</", name);
    var q := p + 2 + |name|;
    assert xml[p] == xml[p..p + 2][0] && xml[p + 1] == xml[p..p + 2][1] && xml[q] == xml[q..q + 1][0];
    Dispatch(xml, p);
    ScanOver(xml, p + 2, IsGt, q);
    ResumeAt(xml, [RawEnd(Tok(name))], q);
  }

  lemma PiTagIs(xml: string, p: nat, tag: Token, scan: AttrScan)
    requires p < |xml| && Head(xml, p, p, '?') == TagHead(tag, scan) && scan.pos <= |xml|
    ensures PiTag(xml, p) == Step([RawPi(tag, scan.raws)], ScanUntil(xml, scan.pos, IsGt))
  {
    hide Head, ScanUntil;
  }

  lemma ReadPi(xml: string, p: nat, name: string, attrs: seq<AttrForm>, tail: string)
    requires NameOk(name) && AttrsOk(attrs) && AllBlank(tail) && (attrs == [] ==> tail != [])
    requires At(xml, p, "<?" + Inside(name, attrs, tail) + "?>")
    ensures Reads(xml, p, [RawPi(Tok(name), AttrRaws(attrs))], p + |"<?" + Inside(name, attrs, tail) + "?>"|)
  {
    hide *;
    var inner := Inside(name, attrs, tail);
    var k := p + 2 + |inner|;
    var q := k - |tail|;
    InsideStarts(name, attrs, tail);
    TagParts(xml, p, "<?", inner, "?>");
    assert xml[p + 0] == "<?"[0] && xml[p + 1] == "<?"[1] && xml[k + 0] == "?>"[0] && xml[k + 1] == "?>"[1];
    TailAt(xml, p + 2, name, attrs, tail, k);
    ReadHead(xml, p + 2, p + 2, name, attrs, tail, k, '?');
    Dispatch(xml, p);
    PiTagIs(xml, p + 2, Tok(name), AttrScan(AttrRaws(attrs), if |attrs| == 32 then q else k));
    ToGt(xml, q, k, tail, k + 1);
    ResumeAt(xml, [RawPi(Tok(name), AttrRaws(attrs))], k + 1);
    ReadsIs(xml, p, [RawPi(Tok(name), AttrRaws(attrs))], k + 2);
  }

  /** The text of a printable comment contains nothing that ends it early. */
  lemma {:induction false} SkipComment(xml: string, p: nat, d: nat)
    requires p <= d && d + 1 < |xml| && xml[d] == '-' && xml[d + 1] == '-'
    requires forall i :: p <= i < d && xml[i] == '-' ==> i + 1 < d && xml[i + 1] != '-'
    ensures CommentDashes(xml, p) == d
    decreases d - p
  {
    if p == d {
    } else if xml[p] != '-' {
      SkipComment(xml, p + 1, d);
    } else {
      SkipComment(xml, p + 2, d);
    }
  }

  lemma ReadCommentTag(xml: string, p: nat, s: string)
    requires CommentOk(s) && At(xml, p, s + "--" + ">")
    ensures CommentTag(xml, p) == Step([RawComment(s)], p + |s| + 2)
  {
    var d := p + |s|;
    AtSplit(xml, p, s + "--", ">");
    AtSplit(xml, p, s, "--");
    assert xml[d] == xml[d..d + 2][0] && xml[d + 1] == xml[d..d + 2][1];
    assert xml[d + 2] == xml[d + 2..d + 3][0] == '>';
    assert forall i :: p <= i < d ==> xml[i] == s[i - p];
    hide CommentDashes, CommentTag, ScanUntil;
    SkipComment(xml, p, d);
    hide CommentOk;
    ScanIs(xml, d + 2, IsGt, d + 2);
    CommentTagIs(xml, p, d);
  }

  lemma CommentTagIs(xml: string, p: nat, d: nat)
    requires p <= d && d + 2 < |xml| && CommentDashes(xml, p) == d && ScanUntil(xml, d + 2, IsGt) == d + 2
    ensures CommentTag(xml, p) == Step([RawComment(xml[p..d])], d + 2)
  {
    hide CommentDashes, ScanUntil;
  }

  lemma ReadComment(xml: string, p: nat, s: string)
    requires CommentOk(s) && At(xml, p, "<!--" + s + "-->")
    ensures Reads(xml, p, [RawComment(s)], p + |"<!--" + s + "-->"|)
  {
    hide *;
    CommentPlaces(xml, p, s);
    ReadCommentTag(xml, p + 4, s);
    Dispatch(xml, p);
    NoError(xml, p + 2);
    ResumeAt(xml, [RawComment(s)], p + 4 + |s| + 2);
    ReadsIs(xml, p, [RawComment(s)], p + 4 + |s| + 3);
  }

  lemma CommentPlaces(xml: string, p: nat, s: string)
    requires At(xml, p, "<!--" + s + "-->")
    ensures p + |s| + 7 == p + |"<!--" + s + "-->"| <= |xml| && At(xml, p + 4, s + "--" + ">")
    ensures xml[p] == '<' && xml[p + 1] == '!' && xml[p + 2] == '-' && xml[p + 3] == '-'
  {
    assert "<!--" + s + "-->" == "<!--" + (s + "--" + ">");
    AtSplit(xml, p, "<!--", s + "--" + ">");
    assert xml[p] == xml[p..p + 4][0] && xml[p + 1] == xml[p..p + 4][1];
    assert xml[p + 2] == xml[p..p + 4][2] && xml[p + 3] == xml[p..p + 4][3];
  }

  lemma NoError(xml: string, p: nat)
    requires p + 1 < |xml| && xml[p] == '-' && xml[p + 1] == '-'
    ensures PreComment(xml, p) == Resume(xml, CommentTag(xml, p + 2))
  {
    hide Resume, CommentTag;
    assert PreComment(xml, p) == [] + Resume(xml, CommentTag(xml, p + 2));
  }

  lemma ReadText(xml: string, p: nat, s: string)
    requires TextOk(s) && At(xml, p, s)
    requires p + |s| < |xml| && xml[p + |s|] == '<'
    ensures Reads(xml, p, [RawText(s)], p + |s|)
  {
    assert xml[p] == xml[p..p + |s|][0];
    ScanIs(xml, p, NotSpace, p);
    assert xml[p + 1..p + |s|] == s[1..];
    ScanOver(xml, p + 1, IsLt, p + |s|);
    assert Content(xml, p) == TextRun(xml, p);
  }

  lemma ReadSpace(xml: string, p: nat, blanks: string)
    requires AllBlank(blanks) && At(xml, p, blanks)
    ensures Reads(xml, p, [], p + |blanks|)
  {
    hide *;
    SliceAt(xml, p, blanks);
    BlankIsSpace(xml, p, p + |blanks|, blanks);
    SpaceSkipped(xml, p, p + |blanks|);
    ReadsIs(xml, p, [], p + |blanks|);
  }

  lemma SliceAt(xml: string, p: nat, s: string)
    requires At(xml, p, s)
    ensures p + |s| <= |xml| && xml[p..p + |s|] == s
  {
  }

  lemma SpaceSkipped(xml: string, p: nat, q: nat)
    requires p <= q <= |xml| && forall i :: p <= i < q ==> IsSpace(xml[i])
    ensures Content(xml, p) == Content(xml, q) == [] + Content(xml, q)
  {
    hide AfterLt, TextRun;
    ScanIs(xml, p, NotSpace, ScanUntil(xml, q, NotSpace));
  }

  // Whole documents ---------------------------------------------------------------------------

  /** Reading a written piece raises its events. */
  lemma {:induction false} ReadOne(xml: string, p: nat, m: Markup)
    requires MarkupOk(m) && At(xml, p, WriteOne(m))
    requires var q := p + |WriteOne(m)|; m.Words? ==> q < |xml| && xml[q] == '<'
    ensures Reads(xml, p, RawsOf(m), p + |WriteOne(m)|)
    decreases m
  {
    hide Content, Reads, NameOk, AttrsOk, AllBlank, Inside, AttrRaws, At;
    match m
    case Space(blanks) => ReadSpace(xml, p, blanks);
    case Words(text) => ReadText(xml, p, text);
    case Remark(text) => ReadComment(xml, p, text);
    case Instruction(name, attrs, tail) => ReadPi(xml, p, name, attrs, tail);
    case Empty(name, attrs, tail) =>
      FewOrClosed(attrs, tail);
      ReadEmptyTag(xml, p, name, attrs, tail);
      assert [RawStart(Tok(name), AttrRaws(attrs))] + [RawEnd(Tok(name))] == RawsOf(m);
    case Full(_, _, _, _, _, _) => ReadFull(xml, p, m);
  }

  lemma FewOrClosed(attrs: seq<AttrForm>, tail: string)
    requires AttrsOk(attrs) && (|attrs| == 32 ==> tail == [])
    ensures SlashSeen(attrs, tail)
  {
  }

  lemma {:induction false} ReadFull(xml: string, p: nat, m: Markup)
    requires m.Full? && MarkupOk(m) && At(xml, p, WriteOne(m))
    ensures Reads(xml, p, RawsOf(m), p + |WriteOne(m)|)
    decreases m, 0
  {
    hide *;
    FullIs(m);
    FullParts(xml, p, m);
    var b := p + |"<" + Inside(m.name, m.attrs, m.tail) + ">"|;
    var q := b + |Write(m.kids)|;
    var closing := m.before + m.name + m.after;
    var s, e := RawStart(Tok(m.name), AttrRaws(m.attrs)), RawEnd(Tok(closing));
    ReadOpenTag(xml, p, m.name, m.attrs, m.tail);
    ReadAll(xml, b, m.kids);
    ReadEndTag(xml, q, closing);
    ReadsOn(xml, p, [s], b, Raws(m.kids), q);
    ReadsOn(xml, p, [s] + Raws(m.kids), q, [e], q + |CloseTag(closing)|);
  }

  lemma FullIs(m: Markup)
    requires m.Full? && MarkupOk(m)
    ensures NameOk(m.name) && AttrsOk(m.attrs) && AllBlank(m.tail) && DocumentOk(m.kids)
    ensures var closing := m.before + m.name + m.after;
            && '>' !in closing && closing != []
            && RawsOf(m) == [RawStart(Tok(m.name), AttrRaws(m.attrs))] + Raws(m.kids) + [RawEnd(Tok(closing))]
  {
  }

  lemma FullParts(xml: string, p: nat, m: Markup)
    requires m.Full? && At(xml, p, WriteOne(m))
    ensures var opening, closing := "<" + Inside(m.name, m.attrs, m.tail) + ">", CloseTag(m.before + m.name + m.after);
            var q := p + |opening| + |Write(m.kids)|;
            && At(xml, p, opening) && At(xml, p + |opening|, Write(m.kids))
            && At(xml, q, closing) && q < |xml| && xml[q] == '<'
            && q + |closing| == p + |WriteOne(m)| <= |xml|
  {
    var opening, closing := "<" + Inside(m.name, m.attrs, m.tail) + ">", CloseTag(m.before + m.name + m.after);
    assert WriteOne(m) == opening + Write(m.kids) + closing && closing[0] == '<';
    hide *;
    SplitThree(xml, p, opening, Write(m.kids), closing);
    FirstAt(xml, p + |opening| + |Write(m.kids)|, closing);
  }

  lemma FirstAt(xml: string, p: nat, s: string)
    requires At(xml, p, s) && s != []
    ensures p + |s| <= |xml| && xml[p] == s[0]
  {
    assert xml[p] == xml[p..p + |s|][0];
  }

  /** Everything but space and text is written starting with '<'. */
  lemma WrittenMarkup(f: seq<Markup>)
    requires f != [] && !f[0].Words? && !f[0].Space?
    ensures Write(f) != [] && Write(f)[0] == '<'
  {
    hide Inside, WriteAttrs;
  }

  /** Reading a written document raises its events, provided a '<' follows a text at its end. */
  lemma {:induction false} ReadAll(xml: string, p: nat, f: seq<Markup>)
    requires DocumentOk(f) && At(xml, p, Write(f))
    requires var q := p + |Write(f)|;
             f != [] && f[|f| - 1].Words? ==> q < |xml| && xml[q] == '<'
    ensures Reads(xml, p, Raws(f), p + |Write(f)|)
    decreases f, 0
  {
    hide *;
    if f == [] {
      InRange(xml, p, Write(f));
      ReadsNothing(xml, p);
    } else {
      DocumentParts(xml, p, f);
      FirstRaws(f);
      var q := p + |WriteOne(f[0])|;
      ReadOne(xml, p, f[0]);
      ReadAll(xml, q, f[1..]);
      ReadsOn(xml, p, RawsOf(f[0]), q, Raws(f[1..]), q + |Write(f[1..])|);
    }
  }

  lemma InRange(xml: string, p: nat, s: string)
    requires At(xml, p, s)
    ensures p + |s| <= |xml|
  {
  }

  lemma FirstRaws(f: seq<Markup>)
    requires f != []
    ensures Raws(f) == RawsOf(f[0]) + Raws(f[1..])
  {
    hide RawsOf;
  }

  lemma ReadsNothing(xml: string, p: nat)
    requires p <= |xml|
    ensures Write([]) == [] && Reads(xml, p, Raws([]), p)
  {
    hide Content;
  }

  lemma {:induction false} DocumentParts(xml: string, p: nat, f: seq<Markup>)
    requires DocumentOk(f) && f != [] && At(xml, p, Write(f))
    ensures MarkupOk(f[0]) && DocumentOk(f[1..])
    ensures var q := p + |WriteOne(f[0])|;
            && At(xml, p, WriteOne(f[0])) && At(xml, q, Write(f[1..]))
            && q + |Write(f[1..])| == p + |Write(f)| <= |xml|
            && (f[0].Words? && |f| > 1 ==> q < |xml| && xml[q] == '<')
    ensures |f[1..]| == |f| - 1
    ensures if |f| > 1 then f[1..][|f| - 2] == f[|f| - 1] else Write(f[1..]) == []
  {
    hide WriteOne, MarkupOk;
    var q, rest := p + |WriteOne(f[0])|, Write(f[1..]);
    assert Write(f) == WriteOne(f[0]) + rest;
    AtSplit(xml, p, WriteOne(f[0]), rest);
    if f[0].Words? && |f| > 1 {
      WrittenMarkup(f[1..]);
      hide Write, DocumentOk;
      assert xml[q] == xml[q..q + |rest|][0];
    }
  }

  lemma {:induction false} DocumentSplit(f: seq<Markup>, g: seq<Markup>)
    requires DocumentOk(f + g)
    ensures DocumentOk(f) && DocumentOk(g)
    ensures f != [] && g != [] && g[0].Words? ==> !f[|f| - 1].Words?
    decreases f
  {
    hide MarkupOk;
    if f == [] {
      assert f + g == g;
    } else {
      assert (f + g)[1..] == f[1..] + g;
      DocumentSplit(f[1..], g);
    }
  }

  lemma {:induction false} WriteSplit(f: seq<Markup>, g: seq<Markup>)
    ensures Write(f + g) == Write(f) + Write(g)
    decreases f
  {
    hide WriteOne;
    if f == [] {
      assert f + g == g;
    } else {
      assert (f + g)[1..] == f[1..] + g;
      WriteSplit(f[1..], g);
    }
  }

  /** A text that nothing follows raises no event. */
  lemma LastTextLost(xml: string, p: nat, s: string)
    requires TextOk(s) && p <= |xml| && xml[p..] == s
    ensures Content(xml, p) == []
  {
    assert xml[p..] == s && xml[p] == s[0];
    ScanIs(xml, p, NotSpace, p);
    assert forall i :: p <= i < |xml| ==> xml[i] == s[i - p] && s[i - p] in s;
    ScanIs(xml, p + 1, IsLt, |xml|);
    assert Content(xml, p) == TextRun(xml, p) == [];
  }

  function DropLastText(f: seq<Markup>): seq<Markup> {
    if f != [] && f[|f| - 1].Words? then f[..|f| - 1] else f
  }

  /** Reading a written document raises exactly its events, except that a text at its very end
      is lost. */
  lemma DocumentRoundTrip(f: seq<Markup>)
    requires DocumentOk(f)
    ensures Document(Write(f)) == Raws(DropLastText(f))
  {
    hide Content, DocumentOk, Raws, Reads;
    var g := DropLastText(f);
    var xml := Write(f);
    var p := |Write(g)|;
    DropLast(f);
    ReadAll(xml, 0, g);
    assert Content(xml, 0) == Raws(g) + Content(xml, p) by { ReadsEnd(xml, Raws(g), p); }
    assert Content(xml, p) == [] by {
      if p == |xml| {
        EndOfInput(xml);
      } else {
        LastTextLost(xml, p, f[|f| - 1].text);
      }
    }
  }

  lemma ReadsEnd(xml: string, evs: seq<RawEvent>, p: nat)
    requires Reads(xml, 0, evs, p)
    ensures Content(xml, 0) == evs + Content(xml, p)
  {
    hide Content;
  }

  /** What is written behind the part of a document that is read back. */
  lemma DropLast(f: seq<Markup>)
    requires DocumentOk(f)
    ensures var g := DropLastText(f);
            && DocumentOk(g) && (g == [] || !g[|g| - 1].Words?)
            && At(Write(f), 0, Write(g))
            && (g == f || (TextOk(f[|f| - 1].text) && Write(f) == Write(g) + f[|f| - 1].text))
  {
    var g := DropLastText(f);
    var h := f[|g|..];
    assert f == g + h;
    DocumentSplit(g, h);
    WriteSplit(g, h);
    if g != f {
      assert h == [f[|f| - 1]];
      SingleText(h);
    }
  }

  lemma EndOfInput(xml: string)
    ensures Content(xml, |xml|) == []
  {
    ScanIs(xml, |xml|, NotSpace, |xml|);
  }

  lemma SingleText(h: seq<Markup>)
    requires |h| == 1 && h[0].Words? && DocumentOk(h)
    ensures TextOk(h[0].text) && Write(h) == h[0].text
  {
    assert Write(h[1..]) == [];
  }

  /** The end of an empty-element tag is lost exactly when blanks follow a full attribute list. */
  lemma EndTagLost(name: string, attrs: seq<AttrForm>, tail: string, xml: string)
    requires NameOk(name) && AttrsOk(attrs) && AllBlank(tail)
    requires xml == "<" + Inside(name, attrs, tail) + "/>"
    ensures |attrs| == 32 && tail != [] ==> Document(xml) == [RawStart(Tok(name), AttrRaws(attrs))]
    ensures |attrs| < 32 || tail == [] ==>
              Document(xml) == [RawStart(Tok(name), AttrRaws(attrs)), RawEnd(Tok(name))]
  {
    hide *;
    EmptyTagAlone(name, attrs, tail, xml);
    if SlashSeen(attrs, tail) {
      DocumentIs(xml, [RawStart(Tok(name), AttrRaws(attrs)), RawEnd(Tok(name))]);
    } else {
      DocumentIs(xml, [RawStart(Tok(name), AttrRaws(attrs))]);
    }
    SlashIs(attrs, tail);
  }

  lemma EmptyTagAlone(name: string, attrs: seq<AttrForm>, tail: string, xml: string)
    requires NameOk(name) && AttrsOk(attrs) && AllBlank(tail)
    requires xml == "<" + Inside(name, attrs, tail) + "/>"
    ensures !SlashSeen(attrs, tail) ==> Reads(xml, 0, [RawStart(Tok(name), AttrRaws(attrs))], |xml|)
    ensures SlashSeen(attrs, tail) ==>
              Reads(xml, 0, [RawStart(Tok(name), AttrRaws(attrs)), RawEnd(Tok(name))], |xml|)
  {
    hide *;
    AtStart(xml);
    ReadEmptyTag(xml, 0, name, attrs, tail);
    var start, end := RawStart(Tok(name), AttrRaws(attrs)), RawEnd(Tok(name));
    assert [start] + [] == [start] && [start] + [end] == [start, end];
  }

  // Documents that are not well formed ----------------------------------------------------------

  function Errors(n: nat): seq<RawEvent> { if n == 0 then [] else [RawError] + Errors(n - 1) }

  /** A character that cannot follow a '<'. */
  predicate Stray(c: char) {
    !('a' <= c <= 'z') && !('A' <= c <= 'Z') && c != '_' && c != '!' && c != '?' && c != '/'
  }

  lemma Assoc<T>(a: seq<T>, b: seq<T>, c: seq<T>)
    ensures a + (b + c) == a + b + c
  {
  }

  lemma NothingMore<T>(a: seq<T>)
    ensures a + [] == a
  {
  }

  lemma {:induction false} SkipStrays(xml: string, p: nat, q: nat)
    requires p <= q <= |xml| && forall i :: p <= i < q ==> Stray(xml[i])
    ensures AfterLt(xml, p) == Errors(q - p) + AfterLt(xml, q)
    decreases q - p
  {
    hide AfterLt, Stray;
    if p < q {
      StrayStep(xml, p);
      SkipStrays(xml, p + 1, q);
      Assoc([RawError], Errors(q - p - 1), AfterLt(xml, q));
    } else {
      assert [] + AfterLt(xml, q) == AfterLt(xml, q);
    }
  }

  lemma StrayStep(xml: string, p: nat)
    requires p < |xml| && Stray(xml[p])
    ensures AfterLt(xml, p) == [RawError] + AfterLt(xml, p + 1)
  {
    hide Resume, StartTag, PiTag, EndTag, PreComment;
  }

  /** Stray characters behind a '<' are errors, one for each, and the tag is read as if they were not
      there. */
  lemma StraysAreErrors(junk: string, name: string, attrs: seq<AttrForm>, tail: string, xml: string)
    requires NameOk(name) && AttrsOk(attrs) && AllBlank(tail) && forall c :: c in junk ==> Stray(c)
    requires xml == "<" + junk + (Inside(name, attrs, tail) + ">")
    ensures Document(xml) == Errors(|junk|) + [RawStart(Tok(name), AttrRaws(attrs))]
  {
    hide *;
    var inner := Inside(name, attrs, tail);
    InsideStarts(name, attrs, tail);
    JunkPlaces(junk, inner, xml);
    StraysAt(xml, 1 + |junk|, name, attrs, tail);
  }

  /** The name is at `p`. */
  lemma StraysAt(xml: string, p: nat, name: string, attrs: seq<AttrForm>, tail: string)
    requires NameOk(name) && AttrsOk(attrs) && AllBlank(tail)
    requires 1 <= p && p + 1 < |xml| == p + |Inside(name, attrs, tail)| + 1 && At(xml, p, Inside(name, attrs, tail))
    requires xml[0] == '<' && (forall i :: 1 <= i < p ==> Stray(xml[i])) && xml[|xml| - 1] == '>'
    requires name != [] && xml[p] == name[0] && (IsAlpha(name[0]) || name[0] == '_')
    ensures Document(xml) == Errors(p - 1) + [RawStart(Tok(name), AttrRaws(attrs))]
  {
    hide *;
    ReadOpen(xml, p, name, attrs, tail, |xml| - 1);
    EndOfInput(xml);
    NothingMore([RawStart(Tok(name), AttrRaws(attrs))]);
    SkipStrays(xml, 1, p);
    AtLt(xml, 0);
    DocumentFrom(xml, AfterLt(xml, 1));
  }

  lemma JunkPlaces(junk: string, inner: string, xml: string)
    requires xml == "<" + junk + (inner + ">") && inner != [] && forall c :: c in junk ==> Stray(c)
    ensures var p := 1 + |junk|;
            && p + 1 < |xml| == p + |inner| + 1 && At(xml, p, inner) && xml[p] == inner[0]
            && xml[0] == '<' && (forall i :: 1 <= i < p ==> Stray(xml[i])) && xml[|xml| - 1] == '>'
  {
    assert forall i :: 1 <= i < 1 + |junk| ==> xml[i] == junk[i - 1] && junk[i - 1] in junk;
  }

  lemma {:induction false} SkipToDash(xml: string, p: nat, q: nat)
    requires p <= q <= |xml| && forall i :: p <= i < q ==> xml[i] != '-'
    ensures PreComment(xml, p) == Errors(q - p) + PreComment(xml, q)
    decreases q - p
  {
    hide PreComment;
    if p < q {
      NoDashYet(xml, p);
      SkipToDash(xml, p + 1, q);
      Assoc([RawError], Errors(q - p - 1), PreComment(xml, q));
    } else {
      assert [] + PreComment(xml, q) == PreComment(xml, q);
    }
  }

  lemma NoDashYet(xml: string, p: nat)
    requires p < |xml| && xml[p] != '-'
    ensures PreComment(xml, p) == [RawError] + PreComment(xml, p + 1)
  {
    hide Resume, CommentTag;
  }

  /** Between "<!" and the dashes of a comment every character is an error, and so is one that stands in
      place of the second dash; the comment is read all the same. */
  lemma DashesMissing(junk: string, c: char, s: string, xml: string)
    requires '-' !in junk && CommentOk(s)
    requires xml == "<!" + junk + "-" + [c] + (s + "--" + ">")
    ensures Document(xml) == Errors(|junk| + if c == '-' then 0 else 1) + [RawComment(s)]
  {
    hide *;
    DashPlaces(junk, c, s, xml);
    DashesAt(xml, 2 + |junk|, s);
    ErrorsMore(|junk|, c);
  }

  /** The first dash is at `p`. */
  lemma DashesAt(xml: string, p: nat, s: string)
    requires 2 <= p && p + 2 + |s| + 3 == |xml| && xml[0] == '<' && xml[1] == '!' && xml[p] == '-' && CommentOk(s)
    requires (forall i :: 2 <= i < p ==> xml[i] != '-') && At(xml, p + 2, s + "--" + ">")
    ensures Document(xml) == Errors(p - 2) + SecondDash(xml[p + 1]) + [RawComment(s)]
  {
    hide *;
    ReadCommentTag(xml, p + 2, s);
    CommentStarts(xml, p);
    ResumeAt(xml, [RawComment(s)], p + 2 + |s| + 2);
    EndOfInput(xml);
    NothingMore([RawComment(s)]);
    SkipToDash(xml, 2, p);
    Assoc(Errors(p - 2), SecondDash(xml[p + 1]), [RawComment(s)]);
    AtLt(xml, 0);
    DispatchAt(xml, 1);
    DocumentFrom(xml, PreComment(xml, 2));
  }

  function SecondDash(c: char): seq<RawEvent> { if c == '-' then [] else [RawError] }

  lemma {:induction false} ErrorsMore(n: nat, c: char)
    ensures Errors(n) + SecondDash(c) == Errors(n + if c == '-' then 0 else 1)
  {
    if n > 0 {
      ErrorsMore(n - 1, c);
      Assoc([RawError], Errors(n - 1), SecondDash(c));
    }
  }

  lemma DashPlaces(junk: string, c: char, s: string, xml: string)
    requires '-' !in junk && xml == "<!" + junk + "-" + [c] + (s + "--" + ">")
    ensures var p := 2 + |junk|;
            && |xml| == p + 2 + |s| + 3 && xml[0] == '<' && xml[1] == '!' && xml[p] == '-' && xml[p + 1] == c
            && (forall i :: 2 <= i < p ==> xml[i] != '-') && At(xml, p + 2, s + "--" + ">")
  {
    var p := 2 + |junk|;
    assert forall i :: 2 <= i < p ==> xml[i] == junk[i - 2];
  }

  lemma CommentStarts(xml: string, p: nat)
    requires p + 1 < |xml| && xml[p] == '-'
    ensures PreComment(xml, p) == SecondDash(xml[p + 1]) + Resume(xml, CommentTag(xml, p + 2))
  {
    hide Resume, CommentTag;
  }

  /** What a document raises that ends inside a construct: a start tag or an instruction is still
      reported, with a name that points nowhere; an end tag and a comment are not. */
  lemma Unfinished(name: string, s: string)
    requires NameOk(name)
    ensures Document("<" + name) == if |name| == 1 then [] else [RawStart(Dangling, [])]
    ensures Document("<?" + name) == [RawPi(Dangling, [])]
    ensures '>' !in s ==> Document("</" + s) == []
    ensures CommentOk(s) ==> Document("<!--" + s) == []
  {
    UnfinishedStart(name);
    UnfinishedPi(name);
    hide *;
    if '>' !in s {
      UnfinishedEnd(s);
    }
    if CommentOk(s) {
      UnfinishedComment(s);
    }
  }

  lemma UnfinishedStart(name: string)
    requires NameOk(name)
    ensures Document("<" + name) == if |name| == 1 then [] else [RawStart(Dangling, [])]
  {
    var xml := "<" + name;
    assert xml[0] == '<' && xml[1] == name[0] && (IsAlpha(name[0]) || name[0] == '_');
    NameAt(name, 1, "<");
    hide *;
    AtLt(xml, 0);
    if |name| > 1 {
      DispatchAt(xml, 1);
      CutStart(xml, 2);
      DocumentEnds(xml, [RawStart(Dangling, [])]);
    } else {
      NothingBehind(xml);
    }
  }

  lemma NameAt(name: string, n: nat, before: string)
    requires NameOk(name) && n == |before|
    ensures forall i :: n <= i < |before + name| ==> !EndsTagName((before + name)[i]) && !EndsPiName((before + name)[i])
  {
    var xml := before + name;
    forall i | n <= i < |xml| ensures !EndsTagName(xml[i]) && !EndsPiName(xml[i]) {
      assert xml[i] == name[i - n] && name[i - n] in name;
    }
  }

  lemma NothingBehind(xml: string)
    requires |xml| == 2 && (IsAlpha(xml[1]) || xml[1] == '_')
    ensures AfterLt(xml, 1) == []
  {
  }

  lemma CutStart(xml: string, p: nat)
    requires 0 < p < |xml| && forall i :: p <= i < |xml| ==> !EndsTagName(xml[i])
    ensures StartTag(xml, p) == Step([RawStart(Dangling, [])], |xml|)
  {
    ScanIs(xml, p, NameStop('/'), |xml|);
    ScanIs(xml, |xml|, IsGt, |xml|);
    hide ScanUntil, Attrs;
    assert Head(xml, p - 1, p, '/') == TagHead(Dangling, AttrScan([], |xml|));
  }

  lemma CutPi(xml: string, p: nat)
    requires p < |xml| && forall i :: p <= i < |xml| ==> !EndsPiName(xml[i])
    ensures PiTag(xml, p) == Step([RawPi(Dangling, [])], |xml|)
  {
    ScanIs(xml, p, NameStop('?'), |xml|);
    ScanIs(xml, |xml|, IsGt, |xml|);
    hide ScanUntil, Attrs;
    assert Head(xml, p, p, '?') == TagHead(Dangling, AttrScan([], |xml|));
  }

  lemma DocumentEnds(xml: string, evs: seq<RawEvent>)
    requires Content(xml, 0) == Resume(xml, Step(evs, |xml|))
    ensures Document(xml) == evs
  {
    hide Content;
  }

  lemma UnfinishedPi(name: string)
    requires NameOk(name)
    ensures Document("<?" + name) == [RawPi(Dangling, [])]
  {
    var xml := "<?" + name;
    assert xml[0] == '<' && xml[1] == '?' && |xml| > 2;
    NameAt(name, 2, "<?");
    hide *;
    AtLt(xml, 0);
    DispatchAt(xml, 1);
    CutPi(xml, 2);
    DocumentEnds(xml, [RawPi(Dangling, [])]);
  }

  lemma UnfinishedEnd(s: string)
    requires '>' !in s
    ensures Document("</" + s) == []
  {
    var xml := "</" + s;
    assert xml[0] == '<' && xml[1] == '/';
    AtLt(xml, 0);
    if s != [] {
      DispatchAt(xml, 1);
      assert forall i :: 2 <= i < |xml| ==> xml[i] == s[i - 2];
      ScanIs(xml, 2, IsGt, |xml|);
      assert EndTag(xml, 2) == Step([], |xml|);
    }
  }

  lemma {:induction false} NoDoubleDash(xml: string, p: nat)
    requires p <= |xml| && forall i :: p <= i < |xml| && xml[i] == '-' ==> i + 1 < |xml| && xml[i + 1] != '-'
    ensures CommentDashes(xml, p) == |xml|
    decreases |xml| - p
  {
    if p == |xml| {
    } else if xml[p] != '-' {
      NoDoubleDash(xml, p + 1);
    } else {
      NoDoubleDash(xml, p + 2);
    }
  }

  lemma UnfinishedComment(s: string)
    requires CommentOk(s)
    ensures Document("<!--" + s) == []
  {
    var xml := "<!--" + s;
    assert xml[0] == '<' && xml[1] == '!' && xml[2] == '-' && xml[3] == '-';
    assert forall i :: 4 <= i < |xml| ==> xml[i] == s[i - 4];
    NoDoubleDash(xml, 4);
    assert CommentTag(xml, 4) == Step([], |xml|);
    hide CommentTag, Content, AfterLt, PreComment, CommentOk, CommentDashes;
    AtLt(xml, 0);
    DispatchAt(xml, 1);
    CommentStarts(xml, 2);
  }

  lemma DocumentFrom(xml: string, evs: seq<RawEvent>)
    requires Content(xml, 0) == evs
    ensures Document(xml) == evs
  {
  }

  lemma AtStart(xml: string)
    ensures At(xml, 0, xml)
  {
  }

  lemma DocumentIs(xml: string, evs: seq<RawEvent>)
    requires Reads(xml, 0, evs, |xml|)
    ensures Document(xml) == evs
  {
    hide Content;
    EndOfInput(xml);
  }

  // From tokens to builder calls ---------------------------------------------------------------

  /** Blanks around a bare string are trimmed away. */
  lemma Trimmed(a: string, s: string, b: string)
    requires AllBlank(a) && AllBlank(b) && Bare(s)
    ensures Trim(a + s + b) == s
  {
    if s == [] {
      assert a + s + b == [] + (a + b);
      TrimRightBlank([], a + b);
    } else {
      assert !IsSpace(s[|s| - 1]) && !IsSpace(s[0]);
      TrimRightBlank(a + s, b);
      TrimLeftBlank(a, s);
    }
  }

  /** A token that arrives as it was meant, and in one way only. */
  ghost predicate Means(raw: string, s: string) { |raw| < 128 && s == Trim(raw) }

  lemma NameMeans(before: string, name: string, after: string)
    requires NameOk(name) && AllBlank(before) && AllBlank(after) && Short(before + name + after)
    ensures Means(before + name + after, name)
  {
    assert name[0] in name && name[|name| - 1] in name;
    Trimmed(before, name, after);
  }

  lemma OwnName(name: string)
    requires NameOk(name)
    ensures Means(name, name)
  {
    assert [] + name + [] == name;
    NameMeans([], name, []);
  }

  ghost predicate AllMean(raws: seq<string>, ss: seq<string>) {
    |raws| == |ss| && forall i :: 0 <= i < |raws| ==> Means(raws[i], ss[i])
  }

  lemma AttrMeans(a: AttrForm)
    requires AttrOk(a)
    ensures Means(a.Key(), a.name) && Means(a.Quoted(), a.value)
  {
    assert [] + a.name + a.pad == a.Key();
    Trimmed([], a.name, a.pad);
    Trimmed(a.before, a.value, a.after);
  }

  lemma {:induction false} AttrsMean(attrs: seq<AttrForm>, used: nat)
    requires forall a :: a in attrs ==> AttrOk(a)
    requires used % 2 == 0 && used + 2 * |attrs| <= 64
    ensures AllMean(AttrRaws(attrs), Flatten(AttrsOf(attrs), used))
    decreases |attrs|
  {
    hide AttrOk, Means, AttrForm.Key, AttrForm.Quoted;
    if attrs != [] {
      AttrMeans(attrs[0]);
      AttrsMean(attrs[1..], used + 2);
      FirstMeans(attrs, used);
    }
  }

  lemma {:induction false} FirstMeans(attrs: seq<AttrForm>, used: nat)
    requires attrs != [] && used + 2 * |attrs| <= 64
    ensures AttrRaws(attrs) == [attrs[0].Key(), attrs[0].Quoted()] + AttrRaws(attrs[1..])
    ensures Flatten(AttrsOf(attrs), used)
         == [attrs[0].name, attrs[0].value] + Flatten(AttrsOf(attrs[1..]), used + 2)
  {
    assert AttrsOf(attrs)[1..] == AttrsOf(attrs[1..]);
  }

  /** The builder call an event leads to, and the only one. */
  ghost predicate Calls(raw: RawEvent, ev: Event) {
    match raw
    case RawStart(tag, raws) => tag.Tok? && ev.OnStart? && Means(tag.raw, ev.tag) && AllMean(raws, ev.attrs)
    case RawEnd(tag) => tag.Tok? && ev.OnEnd? && Means(tag.raw, ev.tag)
    case RawPi(tag, raws) => tag.Tok? && ev.OnPi? && Means(tag.raw, ev.tag) && AllMean(raws, ev.attrs)
    case _ => EventIs(raw, ev)
  }

  ghost predicate AllCall(raws: seq<RawEvent>, evs: seq<Event>) {
    |raws| == |evs| && forall i :: 0 <= i < |raws| ==> Calls(raws[i], evs[i])
  }

  lemma AllCallOn(a: seq<RawEvent>, x: seq<Event>, b: seq<RawEvent>, y: seq<Event>)
    requires AllCall(a, x) && AllCall(b, y)
    ensures AllCall(a + b, x + y)
  {
    hide Calls;
  }

  lemma OneCall(raw: RawEvent, ev: Event)
    requires Calls(raw, ev)
    ensures AllCall([raw], [ev])
  {
  }

  lemma CallExact(raw: RawEvent, ev: Event, ev': Event)
    requires Calls(raw, ev) && EventIs(raw, ev')
    ensures ev == ev'
  {
    if raw.RawStart? || raw.RawPi? {
      forall i | 0 <= i < |raw.raws| ensures ev.attrs[i] == ev'.attrs[i] {
        assert Means(raw.raws[i], ev.attrs[i]) && TokenIs(Tok(raw.raws[i]), ev'.attrs[i]);
      }
      assert ev.attrs == ev'.attrs;
    }
  }

  /** The tokens of a written piece lead to the calls of visiting its tree. */
  lemma {:induction false} MarkupCalls(m: Markup)
    requires MarkupOk(m)
    ensures AllCall(RawsOf(m), VisitForest(TreesOf(m)))
    decreases m
  {
    VisitSingle(m);
    hide AllCall, Means, AllMean, Trees, Raws, AttrRaws, AttrsOf, Flatten, NameOk, VisitForest;
    match m
    case Space(_) => NoCalls();
    case Full(name, attrs, _, kids, before, after) =>
      OwnName(name);
      NameMeans(before, name, after);
      HeadMeans(attrs);
      DocumentCalls(kids);
      OneCall(RawStart(Tok(name), AttrRaws(attrs)), OnStart(name, Flatten(AttrsOf(attrs), 0)));
      OneCall(RawEnd(Tok(before + name + after)), OnEnd(name));
      AllCallOn([RawStart(Tok(name), AttrRaws(attrs))], [OnStart(name, Flatten(AttrsOf(attrs), 0))],
                Raws(kids), VisitForest(Trees(kids)));
      AllCallOn([RawStart(Tok(name), AttrRaws(attrs))] + Raws(kids),
                [OnStart(name, Flatten(AttrsOf(attrs), 0))] + VisitForest(Trees(kids)),
                [RawEnd(Tok(before + name + after))], [OnEnd(name)]);
    case Empty(name, attrs, _) =>
      OwnName(name);
      HeadMeans(attrs);
      OneCall(RawStart(Tok(name), AttrRaws(attrs)), OnStart(name, Flatten(AttrsOf(attrs), 0)));
      OneCall(RawEnd(Tok(name)), OnEnd(name));
      AllCallOn([RawStart(Tok(name), AttrRaws(attrs))], [OnStart(name, Flatten(AttrsOf(attrs), 0))],
                [RawEnd(Tok(name))], [OnEnd(name)]);
      EmptyEvents(name, attrs);
    case Words(text) => OneCall(RawText(text), OnText(text));
    case Remark(text) => OneCall(RawComment(text), OnComment(text));
    case Instruction(name, attrs, _) =>
      OwnName(name);
      HeadMeans(attrs);
      OneCall(RawPi(Tok(name), AttrRaws(attrs)), OnPi(name, Flatten(AttrsOf(attrs), 0)));
  }

  lemma HeadMeans(attrs: seq<AttrForm>)
    requires AttrsOk(attrs)
    ensures AllMean(AttrRaws(attrs), Flatten(AttrsOf(attrs), 0))
  {
    AttrsMean(attrs, 0);
  }

  lemma NoCalls()
    ensures AllCall([], VisitForest([]))
  {
  }

  /** The list of one tree is visited as that tree. */
  lemma VisitSingle(m: Markup)
    ensures !m.Space? ==> |TreesOf(m)| == 1 && VisitForest(TreesOf(m)) == Visit(TreesOf(m)[0])
  {
    if !m.Space? {
      var f := TreesOf(m);
      assert VisitForest(f) == Visit(f[0]) + VisitForest(f[1..]) && VisitForest(f[1..]) == [];
    }
  }

  lemma EmptyEvents(name: string, attrs: seq<AttrForm>)
    ensures Visit(Element(name, AttrsOf(attrs), []))
         == [OnStart(name, Flatten(AttrsOf(attrs), 0))] + [OnEnd(name)]
    ensures [RawStart(Tok(name), AttrRaws(attrs))] + [RawEnd(Tok(name))]
         == [RawStart(Tok(name), AttrRaws(attrs)), RawEnd(Tok(name))]
  {
  }

  lemma {:induction false} DocumentCalls(f: seq<Markup>)
    requires DocumentOk(f)
    ensures AllCall(Raws(f), VisitForest(Trees(f)))
    decreases f
  {
    if f == [] {
    } else {
      MarkupCalls(f[0]);
      DocumentCalls(f[1..]);
      VisitOn(TreesOf(f[0]), Trees(f[1..]));
      hide AllCall, RawsOf, TreesOf, VisitForest, DocumentOk;
      AllCallOn(RawsOf(f[0]), VisitForest(TreesOf(f[0])), Raws(f[1..]), VisitForest(Trees(f[1..])));
    }
  }

  lemma {:induction false} VisitOn(f: seq<Tree>, g: seq<Tree>)
    ensures VisitForest(f + g) == VisitForest(f) + VisitForest(g)
    decreases f
  {
    hide Visit;
    if f == [] {
      assert f + g == g;
    } else {
      assert (f + g)[1..] == f[1..] + g;
      VisitOn(f[1..], g);
    }
  }

  /** The builder calls of reading a written document are those of visiting its trees: names and
      values arrive without the blanks around them. */
  lemma PrintedEvents(f: seq<Markup>, evs: seq<Event>)
    requires DocumentOk(f)
    requires EventsAre(Document(Write(f)), evs)
    ensures evs == VisitForest(Trees(DropLastText(f)))
  {
    DocumentRoundTrip(f);
    DropLast(f);
    var g := DropLastText(f);
    DocumentCalls(g);
    hide DocumentOk, Raws, Trees, VisitForest, Write, Document, Calls, EventIs;
    var want := VisitForest(Trees(g));
    forall i | 0 <= i < |want| ensures want[i] == evs[i] {
      CallExact(Raws(g)[i], want[i], evs[i]);
    }
  }
}
