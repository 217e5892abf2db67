/** XML trees and the builder events that connect the reader, the tree builder and
    `xml_node_visit`. */
module XmlModel {
  import opened CText
  import opened XmlSyntax

  datatype Attr = Attr(name: string, value: string)

  datatype Tree =
    | Element(name: string, attrs: seq<Attr>, kids: seq<Tree>)
    | Text(text: string)
    | Comment(text: string)
    | Pi(name: string, attrs: seq<Attr>)

  /** One call of an XmlBuilder callback. Attributes are passed as in C: name, value, name, ... */
  datatype Event =
    | OnStart(tag: string, attrs: seq<string>)
    | OnEnd(tag: string)
    | OnText(text: string)
    | OnComment(text: string)
    | OnPi(tag: string, attrs: seq<string>)
    | OnError

  /** The flat attribute array that a node's attribute list is copied into: it takes pairs
      while fewer than MAX_ATTR_NR entries are used. */
  function Flatten(attrs: seq<Attr>, used: nat): (flat: seq<string>)
    ensures |flat| <= 2 * |attrs|
    decreases |attrs|
  {
    if attrs == [] || used >= MAX_ATTR_NR then []
    else [attrs[0].name, attrs[0].value] + Flatten(attrs[1..], used + 2)
  }

  /** The pairs that node creation reads off a flat attribute array (a last odd name is dropped). */
  function Pairs(flat: seq<string>): (attrs: seq<Attr>)
    ensures |attrs| == |flat| / 2
  {
    if |flat| < 2 then [] else [Attr(flat[0], flat[1])] + Pairs(flat[2..])
  }

  /** `xml_node_visit` on one node, without its siblings. */
  function Visit(t: Tree): (evs: seq<Event>)
    ensures evs != []
    decreases t
  {
    match t
    case Element(name, attrs, kids) => [OnStart(name, Flatten(attrs, 0))] + VisitForest(kids) + [OnEnd(name)]
    case Text(text) => [OnText(text)]
    case Comment(text) => [OnComment(text)]
    case Pi(name, attrs) => [OnPi(name, Flatten(attrs, 0))]
  }

  /** `xml_node_visit` on a node and the siblings that follow it. */
  function VisitForest(forest: seq<Tree>): seq<Event>
    decreases forest
  {
    if forest == [] then [] else Visit(forest[0]) + VisitForest(forest[1..])
  }

  /** At most 32 attributes, the largest number both copies keep. */
  predicate FewAttrs(attrs: seq<Attr>) {
    2 * |attrs| <= MAX_ATTR_NR
  }

  lemma {:induction false} FlattenPairs(attrs: seq<Attr>, used: nat)
    requires used % 2 == 0
    ensures Pairs(Flatten(attrs, used)) == attrs <==> used + 2 * |attrs| <= MAX_ATTR_NR || attrs == []
  {
    if attrs != [] && used < MAX_ATTR_NR {
      FlattenPairs(attrs[1..], used + 2);
      assert Flatten(attrs, used)[2..] == Flatten(attrs[1..], used + 2);
      assert [Attr(attrs[0].name, attrs[0].value)] + attrs[1..] == attrs;
    }
  }

  // Reader events versus builder events -------------------------------------------------------

  /** The string a builder receives for a token. Tokens below 128 characters always fit the
      reader's buffer and arrive trimmed; nothing is promised of the others. */
  predicate TokenIs(t: Token, s: string) {
    t.Tok? && |t.raw| < 128 ==> s == Trim(t.raw)
  }

  predicate TokensAre(raws: seq<string>, ss: seq<string>) {
    |raws| == |ss| && forall i :: 0 <= i < |raws| ==> TokenIs(Tok(raws[i]), ss[i])
  }

  predicate EventIs(raw: RawEvent, ev: Event) {
    match raw
    case RawStart(tag, raws) => ev.OnStart? && TokenIs(tag, ev.tag) && TokensAre(raws, ev.attrs)
    case RawEnd(tag) => ev.OnEnd? && TokenIs(tag, ev.tag)
    case RawText(text) => ev == OnText(text)
    case RawComment(text) => ev == OnComment(text)
    case RawPi(tag, raws) => ev.OnPi? && TokenIs(tag, ev.tag) && TokensAre(raws, ev.attrs)
    case RawError => ev == OnError
  }

  /** The builder calls `evs` are the reader events `raws`, one for one. */
  predicate EventsAre(raws: seq<RawEvent>, evs: seq<Event>) {
    |raws| == |evs| && forall i :: 0 <= i < |raws| ==> EventIs(raws[i], evs[i])
  }
}
