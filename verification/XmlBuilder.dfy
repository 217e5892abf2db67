/** The tree builder over linked nodes (src/xml_tree.c, src/xml_builder_tree.c), its walks, and
    the whole way from a text to a tree. */
module XmlBuilder {
  import opened CText
  import opened XmlSyntax
  import opened XmlModel
  import opened XmlTree
  import opened XmlRoundTrip
  import opened XmlParser

  /** An XmlNode; links are indices of the node store, NULL is -1. */
  datatype Node = Node(lab: Label, parent: int, children: int, sibling: int)

  function Labels(ns: seq<Node>): (r: seq<Label>)
    ensures |r| == |ns| && forall i :: 0 <= i < |ns| ==> r[i] == ns[i].lab
  {
    seq(|ns|, i requires 0 <= i < |ns| => ns[i].lab)
  }

  function Parents(ns: seq<Node>): (r: seq<int>)
    ensures |r| == |ns| && forall i :: 0 <= i < |ns| ==> r[i] == ns[i].parent
  {
    seq(|ns|, i requires 0 <= i < |ns| => ns[i].parent)
  }

  /** The link to the `j`-th of the nodes `ks`. */
  function Link(ks: seq<nat>, j: nat): int { if j < |ks| then ks[j] else NULL }

  ghost predicate Increasing(ks: seq<nat>) {
    forall j, k :: 0 <= j < k < |ks| ==> ks[j] < ks[k]
  }

  /** The nodes `ks` are a chain of siblings. */
  ghost predicate Siblings(ns: seq<Node>, ks: seq<nat>) {
    && Increasing(ks) && (forall j :: 0 <= j < |ks| ==> ks[j] < |ns|)
    && forall j {:trigger ns[ks[j]]} :: 0 <= j < |ks| ==> ns[ks[j]].sibling == Link(ks, j + 1)
  }

  /** Node `i`'s children are chained in the order of `ks`. */
  ghost predicate Chained(ns: seq<Node>, ks: seq<nat>, i: nat)
    requires i < |ns|
  {
    && Siblings(ns, ks) && ns[i].children == Link(ks, 0)
    && forall j {:trigger ns[ks[j]]} :: 0 <= j < |ks| ==> ns[ks[j]].parent == i
  }

  /** The nodes with a new one, `Node(lab, cur, NULL, NULL)`, linked behind `cur`'s children `ks`. */
  function Linked(ns: seq<Node>, cur: nat, ks: seq<nat>, lab: Label): seq<Node>
    requires cur < |ns| && forall j :: 0 <= j < |ks| ==> ks[j] < |ns|
  {
    var n := |ns|;
    (if ks == [] then ns[cur := ns[cur].(children := n)]
     else var last := ks[|ks| - 1]; ns[last := ns[last].(sibling := n)])
    + [Node(lab, cur, NULL, NULL)]
  }

  lemma LinkedChains(ns: seq<Node>, kids: seq<seq<nat>>, cur: nat, lab: Label)
    requires |kids| == |ns| && cur < |ns| && Chained(ns, kids[cur], cur)
    requires forall i :: 0 <= i < |ns| ==> Chained(ns, kids[i], i)
    ensures var ns' := Linked(ns, cur, kids[cur], lab);
            var kids' := kids[cur := kids[cur] + [|ns|]] + [[]];
            forall i :: 0 <= i < |ns'| ==> Chained(ns', kids'[i], i)
  {
    var n, ks := |ns|, kids[cur];
    var ns' := Linked(ns, cur, ks, lab);
    var kids' := kids[cur := ks + [n]] + [[]];
    forall i | 0 <= i < |ns'| ensures Chained(ns', kids'[i], i) {
      if i == n {
      } else if i == cur {
        CurrentChain(ns, ks, cur, lab);
      } else {
        OtherChain(ns, kids[i], i, ks, cur, lab);
      }
    }
  }

  /** The current node's chain ends in the new node. */
  lemma CurrentChain(ns: seq<Node>, ks: seq<nat>, cur: nat, lab: Label)
    requires cur < |ns| && Chained(ns, ks, cur)
    ensures Chained(Linked(ns, cur, ks, lab), ks + [|ns|], cur)
  {
  }

  /** Any other chain is as before: it shares no node with the current node's. */
  lemma OtherChain(ns: seq<Node>, js: seq<nat>, i: nat, ks: seq<nat>, cur: nat, lab: Label)
    requires cur < |ns| && i < |ns| && i != cur && Chained(ns, js, i) && Chained(ns, ks, cur)
    ensures Chained(Linked(ns, cur, ks, lab), js, i)
  {
  }

  lemma ChildrenInRange(ns: seq<Node>, ks: seq<nat>, i: nat)
    requires i < |ns| && Chained(ns, ks, i)
    ensures forall j :: 0 <= j < |ks| ==> ks[j] < |ns|
  {
  }

  lemma CurrentInRange(a: Arena)
    requires a.Wf()
    ensures a.current < |a.labels| == |a.kids|
  {
  }

  /** A visit of the nodes from the `j`-th on starts with that node. */
  lemma ForestHead(a: Arena, ks: seq<nat>, j: nat, p: nat)
    requires a.Wf() && p < |a.labels| && Between(ks, p, |a.labels|) && j < |ks|
    ensures Between(ks[j..], p, |a.labels|) && Between(ks[j + 1..], p, |a.labels|)
    ensures VisitForest(a.ForestOf(ks[j..], p))
         == XmlModel.Visit(a.TreeAt(ks[j])) + VisitForest(a.ForestOf(ks[j + 1..], p))
  {
    assert ks[j..][1..] == ks[j + 1..];
    var f := a.ForestOf(ks[j..], p);
    assert f == [a.TreeAt(ks[j])] + a.ForestOf(ks[j + 1..], p);
    assert f[1..] == a.ForestOf(ks[j + 1..], p);
  }

  lemma NoForest(a: Arena, ks: seq<nat>, p: nat)
    requires a.Wf() && p < |a.labels| && ks == []
    ensures VisitForest(a.ForestOf(ks, p)) == []
  {
  }

  class TreeBuilder {
    var nodes: seq<Node>
    var current: nat
    ghost var kids: seq<seq<nat>>

    /** The value of the store. */
    ghost function View(): Arena
      reads this
    {
      Arena(Labels(nodes), Parents(nodes), kids, current)
    }

    ghost predicate Valid()
      reads this
    {
      && |kids| == |nodes| && View().Wf()
      && forall i :: 0 <= i < |nodes| ==> Chained(nodes, kids[i], i)
    }

    /** `xml_builder_tree_create`: a root element that is never part of the result. */
    constructor ()
      ensures Valid()
      ensures View() == Arena([LElement("__root__", [])], [NULL], [[]], 0)
    {
      nodes := [Node(LElement("__root__", []), NULL, NULL, NULL)];
      current := 0;
      kids := [[]];
      new;
      assert Labels(nodes) == [LElement("__root__", [])] && Parents(nodes) == [NULL];
    }

    /** A new node, appended behind the last child of the current node
        (`xml_node_create_*`, `xml_node_append_child`). */
    method AddChild(lab: Label) returns (child: nat)
      requires Valid()
      modifies this
      ensures Valid() && child == |old(nodes)| && View() == AddNode(old(View()), lab)
    {
      hide Arena.Wf, Chained;
      child := |nodes|;
      var last := LastChild();
      assert current < |nodes| by { CurrentInRange(View()); }
      assert Chained(nodes, kids[current], current);
      LinkedChains(nodes, kids, current, lab);
      ChildrenInRange(nodes, kids[current], current);
      if last == NULL {
        nodes := nodes[current := nodes[current].(children := child)] + [Node(lab, current, NULL, NULL)];
      } else {
        nodes := nodes[last := nodes[last].(sibling := child)] + [Node(lab, current, NULL, NULL)];
      }
      kids := kids[current := kids[current] + [child]] + [[]];
      assert View() == AddNode(old(View()), lab) by {
        assert Labels(nodes) == Labels(old(nodes)) + [lab];
        assert Parents(nodes) == Parents(old(nodes)) + [current];
      }
    }

    /** Walk the sibling chain of the current node's children to its end. */
    method LastChild() returns (last: int)
      requires Valid()
      ensures last == if kids[current] == [] then NULL else kids[current][|kids[current]| - 1]
    {
      assert Chained(nodes, kids[current], current);
      last := nodes[current].children;
      if last != NULL {
        ghost var j := 0;
        while nodes[last].sibling != NULL
          invariant 0 <= j < |kids[current]| && last == kids[current][j]
          decreases |kids[current]| - j
        {
          last := nodes[last].sibling;
          j := j + 1;
        }
      }
    }

    /** One builder call; false when the builder's assertion fails. */
    method Handle(ev: Event) returns (ok: bool)
      requires Valid()
      modifies this
      ensures (ok, View()) == Apply(old(View()), ev)
      ensures Valid()
    {
      ok := true;
      match ev {
        case OnStart(tag, attrs) =>
          var child := AddChild(LElement(tag, Pairs(attrs)));
          current := child;
        case OnEnd(_) =>
          assert Parents(nodes)[current] == nodes[current].parent;
          if nodes[current].parent == NULL {
            ok := false;
          } else {
            current := nodes[current].parent;
          }
        case OnText(text) =>
          var _ := AddChild(LText(text));
        case OnComment(text) =>
          var _ := AddChild(LComment(text));
        case OnPi(tag, attrs) =>
          var _ := AddChild(LPi(tag, Pairs(attrs)));
        case OnError =>
      }
    }

    method Feed(evs: seq<Event>) returns (ok: bool)
      requires Valid()
      modifies this
      ensures Valid() && (ok, View()) == Run(old(View()), evs)
    {
      ok := true;
      var i := 0;
      while i < |evs| && ok
        invariant i <= |evs| && Valid()
        invariant Run(old(View()), evs) == if ok then Run(View(), evs[i..]) else (false, View())
      {
        ok := Handle(evs[i]);
        assert evs[i..][1..] == evs[i + 1..];
        i := i + 1;
      }
    }

    /** `xml_builder_get_tree`: hand out the root's children, the chain `ks`, and forget them. */
    method GetTree() returns (tree: int, ghost ks: seq<nat>, ghost forest: seq<Tree>)
      requires Valid()
      modifies this
      ensures Valid() && ks == old(kids)[0] && forest == old(View().ForestOf(kids[0], 0))
      ensures View() == old(View()).(kids := old(kids)[0 := []])
      ensures tree == Link(ks, 0) && Siblings(nodes, ks) && Between(ks, 0, |nodes|) && View().ForestOf(ks, 0) == forest
    {
      forest, ks := View().ForestOf(kids[0], 0), kids[0];
      ghost var ns, a, all := nodes, View(), kids;
      assert Chained(ns, ks, 0);
      CutForest(a, ks, 0);
      tree := nodes[0].children;
      nodes := nodes[0 := nodes[0].(children := NULL)];
      kids := kids[0 := []];
      CutChains(ns, all);
      hide Chained, Arena.Wf, Arena.ForestOf;
      assert View() == a.(kids := all[0 := []]) by {
        assert Labels(nodes) == Labels(ns) && Parents(nodes) == Parents(ns);
      }
    }

    /** The loop that copies an attribute list into a flat array. */
    method FlatAttrs(attrs: seq<Attr>) returns (flat: seq<string>)
      ensures flat == Flatten(attrs, 0)
    {
      flat := [];
      var i := 0;
      while i < |attrs| && |flat| < MAX_ATTR_NR
        invariant i <= |attrs| && flat + Flatten(attrs[i..], |flat|) == Flatten(attrs, 0)
      {
        assert attrs[i..][1..] == attrs[i + 1..];
        flat := flat + [attrs[i].name, attrs[i].value];
        i := i + 1;
      }
    }

    /** `xml_node_visit` on a node, up to its end tag. */
    method VisitBelow(node: nat) returns (evs: seq<Event>)
      requires Valid() && node < |nodes|
      ensures evs == XmlModel.Visit(View().TreeAt(node))
      decreases |nodes| - node, 0
    {
      assert Chained(nodes, kids[node], node);
      var lab := nodes[node].lab;
      match lab {
        case LElement(name, attrs) =>
          var flat := FlatAttrs(attrs);
          evs := [OnStart(name, flat)];
        case LPi(name, attrs) =>
          var flat := FlatAttrs(attrs);
          evs := [OnPi(name, flat)];
        case LText(text) =>
          evs := [OnText(text)];
        case LComment(text) =>
          evs := [OnComment(text)];
      }
      if nodes[node].children != NULL {
        var inner := Visit(nodes[node].children, node, kids[node], 0);
        assert kids[node][0..] == kids[node];
        evs := evs + inner;
      }
      if lab.LElement? {
        evs := evs + [OnEnd(lab.name)];
      }
    }

    /** `xml_node_visit` on the `j`-th node of a chain of siblings that all come after `p`, children
        of a node or roots that have been handed out: the node, what is below it, and then the
        siblings that follow it. */
    method Visit(node: nat, ghost p: nat, ghost ks: seq<nat>, ghost j: nat) returns (evs: seq<Event>)
      requires Valid() && p < |nodes| && Siblings(nodes, ks) && Between(ks, p, |nodes|) && j < |ks| && node == ks[j]
      ensures Between(ks[j..], p, |nodes|)
      ensures evs == VisitForest(View().ForestOf(ks[j..], p))
      decreases |nodes| - node, 1
    {
      ForestHead(View(), ks, j, p);
      hide Arena.Wf, XmlModel.Visit, Arena.TreeAt, Arena.ForestOf;
      assert Link(ks, j + 1) == nodes[node].sibling;
      evs := VisitBelow(node);
      if nodes[node].sibling != NULL {
        var rest := Visit(nodes[node].sibling, p, ks, j + 1);
        evs := evs + rest;
      } else {
        NoForest(View(), ks[j + 1..], p);
      }
    }

    /** `xml_tree_find`: the `index`-th child element of that name. */
    method Find(node: nat, name: string, index: int) returns (r: int)
      requires Valid() && node < |nodes|
      ensures var found := Named(View().labels, kids[node], name);
              r == if 0 <= index < |found| then found[index] else NULL
    {
      if index < 0 {
        return NULL;
      }
      assert Chained(nodes, kids[node], node);
      r := FindAmong(nodes, nodes[node].children, name, index, kids[node]);
    }
  }

  /** The loop of `xml_tree_find` over a chain of siblings. */
  method FindAmong(ns: seq<Node>, first: int, name: string, index: nat, ghost ks: seq<nat>) returns (r: int)
    requires Siblings(ns, ks) && first == Link(ks, 0)
    ensures forall j :: 0 <= j < |ks| ==> ks[j] < |ns|
    ensures var found := Named(Labels(ns), ks, name);
            r == if index < |found| then found[index] else NULL
  {
    hide *;
    AheadFirst(ns, ks, name);
    ghost var j, found := 0, Named(Labels(ns), ks, name);
    var cur, i := first, -1;
    while cur != NULL
      invariant cur == Link(ks, j) && -1 <= i < index
      invariant Ahead(found, i + 1, ns, ks, j, name)
      decreases |ks| - j
    {
      AheadNext(found, i + 1, ns, ks, j, name);
      if ns[cur].lab.LElement? && ns[cur].lab.name == name {
        i := i + 1;
      }
      if i == index {
        return cur;
      }
      cur := ns[cur].sibling;
      j := j + 1;
    }
    AheadOver(found, i + 1, ns, ks, j, name);
    r := NULL;
  }

  /** All but the first `n` of `found` are the nodes called `name` among `ks` from the `j`-th on. */
  ghost predicate Ahead(found: seq<nat>, n: nat, ns: seq<Node>, ks: seq<nat>, j: nat, name: string) {
    && n <= |found| && j <= |ks| && (forall k :: 0 <= k < |ks| ==> ks[k] < |ns|)
    && found[n..] == Named(Labels(ns), ks[j..], name)
  }

  lemma AheadFirst(ns: seq<Node>, ks: seq<nat>, name: string)
    requires Siblings(ns, ks)
    ensures (forall j :: 0 <= j < |ks| ==> ks[j] < |ns|) && Ahead(Named(Labels(ns), ks, name), 0, ns, ks, 0, name)
  {
    assert ks[0..] == ks;
  }

  lemma AheadNext(found: seq<nat>, n: nat, ns: seq<Node>, ks: seq<nat>, j: nat, name: string)
    requires Siblings(ns, ks) && Ahead(found, n, ns, ks, j, name) && Link(ks, j) != NULL
    ensures j < |ks| && ks[j] == Link(ks, j) < |ns| && ns[ks[j]].sibling == Link(ks, j + 1)
    ensures var lab := ns[ks[j]].lab;
            if lab.LElement? && lab.name == name
            then n < |found| && found[n] == ks[j] && Ahead(found, n + 1, ns, ks, j + 1, name)
            else Ahead(found, n, ns, ks, j + 1, name)
  {
    NamedHead(Labels(ns), ks, j, name);
    var lab := ns[ks[j]].lab;
    if lab.LElement? && lab.name == name {
      FoundNext(found, n, ks[j], Named(Labels(ns), ks[j + 1..], name));
    }
  }

  lemma AheadOver(found: seq<nat>, n: nat, ns: seq<Node>, ks: seq<nat>, j: nat, name: string)
    requires Ahead(found, n, ns, ks, j, name) && Link(ks, j) == NULL
    ensures n == |found|
  {
    assert |found[n..]| == 0;
  }

  lemma FoundNext(found: seq<nat>, i: nat, x: nat, rest: seq<nat>)
    requires i <= |found| && found[i..] == [x] + rest
    ensures i < |found| && found[i] == x && found[i + 1..] == rest
  {
    assert found[i..][0] == found[i] && found[i + 1..] == found[i..][1..];
  }

  // Finding children --------------------------------------------------------------------------

  /** The nodes among `ks` that are elements called `name`. */
  function Named(labels: seq<Label>, ks: seq<nat>, name: string): (r: seq<nat>)
    requires forall j :: 0 <= j < |ks| ==> ks[j] < |labels|
    ensures |r| <= |ks|
  {
    if ks == [] then []
    else
      var l := labels[ks[0]];
      (if l.LElement? && l.name == name then [ks[0]] else []) + Named(labels, ks[1..], name)
  }

  lemma NamedHead(labels: seq<Label>, ks: seq<nat>, j: nat, name: string)
    requires j < |ks| && forall j :: 0 <= j < |ks| ==> ks[j] < |labels|
    ensures Named(labels, ks[j..], name)
         == (if labels[ks[j]].LElement? && labels[ks[j]].name == name then [ks[j]] else [])
            + Named(labels, ks[j + 1..], name)
  {
    assert ks[j..][1..] == ks[j + 1..];
  }

  /** The trees of a forest that are elements called `name`. */
  function ElementsNamed(f: seq<Tree>, name: string): seq<Tree> {
    if f == [] then []
    else (if f[0].Element? && f[0].name == name then [f[0]] else []) + ElementsNamed(f[1..], name)
  }

  /** The nodes found among a node's children are the children elements of that name. */
  lemma {:induction false} NamedTrees(a: Arena, ks: seq<nat>, i: nat, name: string)
    requires a.Wf() && i < |a.labels| && Between(ks, i, |a.labels|)
    ensures Between(Named(a.labels, ks, name), i, |a.labels|)
    ensures a.ForestOf(Named(a.labels, ks, name), i) == ElementsNamed(a.ForestOf(ks, i), name)
    decreases |ks|
  {
    if ks != [] {
      NamedTrees(a, ks[1..], i, name);
      var rest := Named(a.labels, ks[1..], name);
      assert a.ForestOf(ks, i) == [a.TreeAt(ks[0])] + a.ForestOf(ks[1..], i);
      assert a.ForestOf(ks, i)[1..] == a.ForestOf(ks[1..], i);
      NamedStep(a, ks, i, name, rest);
    }
  }

  lemma NamedStep(a: Arena, ks: seq<nat>, i: nat, name: string, rest: seq<nat>)
    requires a.Wf() && i < |a.labels| && Between(ks, i, |a.labels|) && Between(rest, i, |a.labels|) && ks != []
    ensures var l := a.labels[ks[0]];
            var all := (if l.LElement? && l.name == name then [ks[0]] else []) + rest;
            && Between(all, i, |a.labels|)
            && a.ForestOf(all, i)
               == (if l.LElement? && l.name == name then [a.TreeAt(ks[0])] else []) + a.ForestOf(rest, i)
    ensures var l, t := a.labels[ks[0]], a.TreeAt(ks[0]);
            (l.LElement? && l.name == name) <==> (t.Element? && t.name == name)
  {
    hide Arena.Wf;
    assert ([ks[0]] + rest)[1..] == rest && [] + rest == rest;
  }

  /** Forgetting the children of the root leaves all chains as they are but its own. */
  lemma CutChains(ns: seq<Node>, kids: seq<seq<nat>>)
    requires |kids| == |ns| > 0 && forall i :: 0 <= i < |ns| ==> Chained(ns, kids[i], i)
    ensures var ns', kids' := ns[0 := ns[0].(children := NULL)], kids[0 := []];
      (forall i :: 0 <= i < |ns| ==> Chained(ns', kids'[i], i)) && Siblings(ns', kids[0])
  {
    var ns', kids' := ns[0 := ns[0].(children := NULL)], kids[0 := []];
    forall i | 0 <= i < |ns| ensures Chained(ns', kids'[i], i) {
      assert Chained(ns, kids[i], i);
    }
    assert Chained(ns, kids[0], 0);
  }

  /** Forgetting the children of the root changes no tree below it. */
  lemma {:induction false} CutTree(a: Arena, i: nat)
    requires a.Wf() && 0 < i < |a.labels|
    ensures var b := a.(kids := a.kids[0 := []]); b.Wf() && b.TreeAt(i) == a.TreeAt(i)
    decreases |a.labels| - i, 0
  {
    if a.labels[i].LElement? {
      CutForest(a, a.kids[i], i);
    }
  }

  lemma {:induction false} CutForest(a: Arena, js: seq<nat>, i: nat)
    requires a.Wf() && i < |a.labels| && Between(js, i, |a.labels|)
    ensures var b := a.(kids := a.kids[0 := []]); b.Wf() && b.ForestOf(js, i) == a.ForestOf(js, i)
    decreases |a.labels| - i, 0, |js|
  {
    if js != [] {
      CutTree(a, js[0]);
      CutForest(a, js[1..], i);
    }
  }

  /** Visit a chain of siblings of one builder with another builder as the visitor: the second
      one gets an equal forest under its current node, and stands where it stood. */
  method Replay(source: TreeBuilder, node: nat, ghost p: nat, ghost ks: seq<nat>, target: TreeBuilder)
        returns (ok: bool)
    requires source != target && source.Valid() && target.Valid()
    requires p < |source.nodes| && Siblings(source.nodes, ks) && Between(ks, p, |source.nodes|) && ks != []
             && node == ks[0]
    requires ReplayableForest(source.View().ForestOf(ks, p))
    modifies target
    ensures ok && target.Valid() && Appended(old(target.View()), target.View(), source.View().ForestOf(ks, p))
  {
    var evs := source.Visit(node, p, ks, 0);
    assert ks[0..] == ks;
    ReplayForest(target.View(), source.View().ForestOf(ks, p));
    ok := target.Feed(evs);
  }

  // From a text to a tree -----------------------------------------------------------------------

  /** Read a document with a fresh reader and a fresh builder. A document that was written in any
      layout comes back as the trees it means, except for a text at its very end. */
  method ReadDocument(xml: string, ghost doc: seq<Markup>) returns (ok: bool, b: TreeBuilder, ghost forest: seq<Tree>)
    requires NUL !in xml
    ensures b.Valid() && (ok ==> forest == b.View().ForestOf(b.kids[0], 0))
    ensures DocumentOk(doc) && xml == Write(doc) ==> ok && forest == Trees(DropLastText(doc))
  {
    var parser := new XmlParser();
    parser.Parse(xml);
    b := new TreeBuilder();
    ghost var a := b.View();
    ok := b.Feed(parser.events);
    assert parser.events[0..] == parser.events;
    forest := if ok then b.View().ForestOf(b.kids[0], 0) else [];
    if DocumentOk(doc) && xml == Write(doc) {
      WrittenBack(a, doc, parser.events);
    }
  }

  /** The calls of reading a written document, made to a fresh builder, build its trees. */
  lemma WrittenBack(a: Arena, doc: seq<Markup>, evs: seq<Event>)
    requires a == Arena([LElement("__root__", [])], [NULL], [[]], 0)
    requires DocumentOk(doc) && EventsAre(Document(Write(doc)), evs)
    ensures var (ok, b) := Run(a, evs);
            ok && b.Wf() && b.kids != [] && b.ForestOf(b.kids[0], 0) == Trees(DropLastText(doc))
  {
    var g := DropLastText(doc);
    PrintedEvents(doc, evs);
    DropLast(doc);
    OkIsReplayable(g);
    hide DocumentOk, Write, Document, EventsAre, VisitForest, Trees, Run;
    ReplayForest(a, Trees(g));
    var b := Run(a, evs).1;
    assert b.kids[0] == b.kids[0][|a.kids[0]|..];
  }

  lemma {:induction false} OkIsReplayable(f: seq<Markup>)
    requires DocumentOk(f)
    ensures ReplayableForest(Trees(f))
    decreases f
  {
    if f != [] {
      if f[0].Full? {
        OkIsReplayable(f[0].kids);
      }
      assert Trees(f) == TreesOf(f[0]) + Trees(f[1..]);
      OkIsReplayable(f[1..]);
      if f[0].Space? {
        assert Trees(f) == Trees(f[1..]);
      } else {
        assert Trees(f)[1..] == Trees(f[1..]);
      }
    }
  }
}
