/** The node store of src/xml_tree.c and the tree builder of src/xml_builder_tree.c.

    Nodes live in a growing store and refer to each other by index (-1 is NULL): first child,
    next sibling and parent, as in the C structs. The value-level view of a store is an Arena,
    which lists every node's children; the tree below a node is read off it. */
module XmlTree {
  import opened XmlModel

  const NULL: int := -1

  datatype Label =
    | LElement(name: string, attrs: seq<Attr>)
    | LText(text: string)
    | LComment(text: string)
    | LPi(name: string, attrs: seq<Attr>)

  /** The indices `ks` all lie strictly between `lo` and `hi`. */
  ghost predicate Between(ks: seq<nat>, lo: int, hi: nat) {
    forall j :: 0 <= j < |ks| ==> lo < ks[j] < hi
  }

  /** Labels, parents and children lists by node index, and the node new children go to. */
  datatype Arena = Arena(labels: seq<Label>, parents: seq<int>, kids: seq<seq<nat>>, current: nat) {
    ghost predicate Wf() {
      && |labels| == |parents| == |kids| && current < |labels|
      && labels[current].LElement?
      && (forall i :: 0 <= i < |parents| ==>
            parents[i] == NULL || (0 <= parents[i] < |labels| && labels[parents[i]].LElement?))
      && forall i :: 0 <= i < |kids| ==> Between(kids[i], i, |kids|) && (kids[i] != [] ==> labels[i].LElement?)
    }

    /** The tree below node `i`. */
    ghost function TreeAt(i: nat): Tree
      requires Wf() && i < |labels|
      decreases |labels| - i, 0
    {
      match labels[i]
      case LElement(name, attrs) => Element(name, attrs, ForestOf(kids[i], i))
      case LText(text) => Text(text)
      case LComment(text) => Comment(text)
      case LPi(name, attrs) => Pi(name, attrs)
    }

    /** The trees below a list of nodes that all come after `i`. */
    ghost function ForestOf(ks: seq<nat>, i: nat): (f: seq<Tree>)
      requires Wf() && i < |labels| && Between(ks, i, |labels|)
      ensures |f| == |ks|
      decreases |labels| - i, 0, |ks|
    {
      if ks == [] then [] else [TreeAt(ks[0])] + ForestOf(ks[1..], i)
    }
  }

  /** A fresh node under the current one. */
  ghost function AddNode(a: Arena, lab: Label): (r: Arena)
    requires a.Wf()
    ensures r.Wf()
  {
    a.(labels := a.labels + [lab], parents := a.parents + [a.current],
       kids := a.kids[a.current := a.kids[a.current] + [|a.labels|]] + [[]])
  }

  /** One builder call. An end tag at the root trips the builder's assertion. */
  ghost function Apply(a: Arena, ev: Event): (r: (bool, Arena))
    requires a.Wf()
    ensures r.0 ==> r.1.Wf()
  {
    match ev
    case OnStart(tag, attrs) => (true, AddNode(a, LElement(tag, Pairs(attrs))).(current := |a.labels|))
    case OnEnd(_) =>
      var up := a.parents[a.current];
      if up != NULL then (true, a.(current := up)) else (false, a)
    case OnText(text) => (true, AddNode(a, LText(text)))
    case OnComment(text) => (true, AddNode(a, LComment(text)))
    case OnPi(tag, attrs) => (true, AddNode(a, LPi(tag, Pairs(attrs))))
    case OnError => (true, a)
  }

  ghost function Run(a: Arena, evs: seq<Event>): (r: (bool, Arena))
    requires a.Wf()
    ensures r.0 ==> r.1.Wf()
    decreases |evs|
  {
    if evs == [] then (true, a)
    else
      var (ok, b) := Apply(a, evs[0]);
      if ok then Run(b, evs[1..]) else (false, b)
  }

  lemma {:induction false} RunSplit(a: Arena, xs: seq<Event>, ys: seq<Event>)
    requires a.Wf() && Run(a, xs).0
    ensures Run(a, xs + ys) == Run(Run(a, xs).1, ys)
    decreases |xs|
  {
    if xs == [] {
      assert xs + ys == ys;
    } else {
      assert (xs + ys)[0] == xs[0] && (xs + ys)[1..] == xs[1..] + ys;
      RunSplit(Apply(a, xs[0]).1, xs[1..], ys);
    }
  }

  // Which calls a builder takes -----------------------------------------------------------------

  function Starts(evs: seq<Event>): nat {
    if evs == [] then 0 else Starts(evs[..|evs| - 1]) + if evs[|evs| - 1].OnStart? then 1 else 0
  }

  function Ends(evs: seq<Event>): nat {
    if evs == [] then 0 else Ends(evs[..|evs| - 1]) + if evs[|evs| - 1].OnEnd? then 1 else 0
  }

  predicate Enough(evs: seq<Event>) { Ends(evs) <= Starts(evs) }

  /** No end tag comes while no element is open. */
  ghost predicate Balanced(evs: seq<Event>) {
    forall k :: 0 <= k <= |evs| ==> Enough(evs[..k])
  }

  /** The open elements, from a node without a parent down to the current one. */
  ghost predicate Path(a: Arena, path: seq<nat>) {
    && a.Wf() && path != [] && path[|path| - 1] == a.current && (forall i :: 0 <= i < |path| ==> path[i] < |a.parents|)
    && a.parents[path[0]] == NULL && forall i :: 0 < i < |path| ==> a.parents[path[i]] == path[i - 1]
  }

  lemma PathEnd(a: Arena, path: seq<nat>)
    requires Path(a, path)
    ensures Apply(a, OnEnd("")).0 <==> |path| > 1
    ensures |path| > 1 ==> Path(Apply(a, OnEnd("")).1, path[..|path| - 1])
  {
    var n := |path| - 1;
    assert if n == 0 then a.parents[path[n]] == NULL else a.parents[path[n]] == path[n - 1];
  }

  lemma PathAdd(a: Arena, path: seq<nat>, lab: Label)
    requires Path(a, path)
    ensures Path(AddNode(a, lab), path)
    ensures lab.LElement? ==> Path(AddNode(a, lab).(current := |a.labels|), path + [|a.labels|])
  {
    var b := AddNode(a, lab);
    assert b.parents == a.parents + [a.current] && b.labels == a.labels + [lab] && b.current == a.current;
    hide AddNode, Arena.Wf;
    if lab.LElement? {
      CurrentMoved(b, |a.labels|);
    }
  }

  lemma CurrentMoved(a: Arena, i: nat)
    requires a.Wf() && i < |a.labels| && a.labels[i].LElement?
    ensures a.(current := i).Wf()
  {
  }

  lemma PathStep(a: Arena, path: seq<nat>, ev: Event) returns (path': seq<nat>)
    requires Path(a, path)
    ensures Apply(a, ev).0 <==> !(ev.OnEnd? && |path| == 1)
    ensures Apply(a, ev).0 ==>
              Path(Apply(a, ev).1, path')
              && |path'| == |path| + (if ev.OnStart? then 1 else 0) - (if ev.OnEnd? then 1 else 0)
  {
    hide Path, Arena.Wf, AddNode, Pairs;
    assert path != [] && a.Wf() by { PathIs(a, path); }
    path' := path;
    match ev
    case OnStart(tag, attrs) =>
      PathAdd(a, path, LElement(tag, Pairs(attrs)));
      path' := path + [|a.labels|];
    case OnEnd(_) =>
      PathEnd(a, path);
      path' := path[..|path| - 1];
    case OnText(text) => PathAdd(a, path, LText(text));
    case OnComment(text) => PathAdd(a, path, LComment(text));
    case OnPi(tag, attrs) => PathAdd(a, path, LPi(tag, Pairs(attrs)));
    case OnError =>
  }

  lemma PathIs(a: Arena, path: seq<nat>)
    requires Path(a, path)
    ensures path != [] && a.Wf()
  {
  }

  lemma {:induction false} RunOn(a: Arena, evs: seq<Event>, ev: Event)
    requires a.Wf()
    ensures Run(a, evs + [ev]) == if Run(a, evs).0 then Apply(Run(a, evs).1, ev) else Run(a, evs)
    decreases |evs|
  {
    if evs == [] {
      assert [] + [ev] == [ev] && [ev][1..] == [];
      assert Run(a, [ev]) == Apply(a, ev);
    } else {
      assert (evs + [ev])[1..] == evs[1..] + [ev];
      var (ok, b) := Apply(a, evs[0]);
      hide Apply;
      if ok {
        RunOn(b, evs[1..], ev);
      }
    }
  }

  /** A builder takes a sequence of calls exactly if no end tag comes while no element is open, and it
      then has as many elements open as there were start tags without their end tags. */
  lemma {:induction false} TakesBalanced(a: Arena, evs: seq<Event>) returns (path: seq<nat>)
    requires Path(a, [a.current])
    ensures Run(a, evs).0 <==> Balanced(evs)
    ensures Run(a, evs).0 ==> Path(Run(a, evs).1, path) && |path| + Ends(evs) == 1 + Starts(evs)
    decreases |evs|
  {
    hide Apply, Path, Starts, Ends, Balanced;
    PathIs(a, [a.current]);
    if evs == [] {
      path := [a.current];
      NoneOpen(a);
    } else {
      var n := |evs| - 1;
      path := TakesBalanced(a, evs[..n]);
      assert evs == evs[..n] + [evs[n]];
      RunOn(a, evs[..n], evs[n]);
      OneMoreCall(evs);
      hide Run;
      if Run(a, evs[..n]).0 {
        PathIs(Run(a, evs[..n]).1, path);
        path := PathStep(Run(a, evs[..n]).1, path, evs[n]);
      }
    }
  }

  lemma NoneOpen(a: Arena)
    requires a.Wf()
    ensures Starts([]) == Ends([]) == 0 && Run(a, []) == (true, a)
    ensures Balanced([])
  {
    var none: seq<Event> := [];
    assert none[..0] == none;
  }

  lemma OneMoreCall(evs: seq<Event>)
    requires evs != []
    ensures var n := |evs| - 1;
            && (Balanced(evs) <==> Balanced(evs[..n]) && Ends(evs) <= Starts(evs))
            && Starts(evs) == Starts(evs[..n]) + (if evs[n].OnStart? then 1 else 0)
            && Ends(evs) == Ends(evs[..n]) + (if evs[n].OnEnd? then 1 else 0)
  {
    var n := |evs| - 1;
    assert Enough(evs) <==> Ends(evs) <= Starts(evs);
    assert Starts(evs) == Starts(evs[..n]) + (if evs[n].OnStart? then 1 else 0);
    assert Ends(evs) == Ends(evs[..n]) + (if evs[n].OnEnd? then 1 else 0);
    hide Starts, Ends, Enough;
    MoreBalanced(evs);
  }

  lemma MoreBalanced(evs: seq<Event>)
    requires evs != []
    ensures Balanced(evs) <==> Balanced(evs[..|evs| - 1]) && Enough(evs)
  {
    hide Enough;
    var n := |evs| - 1;
    assert evs[..|evs|] == evs;
    if Balanced(evs[..n]) && Enough(evs) {
      forall k | 0 <= k <= |evs| ensures Enough(evs[..k]) {
        if k <= n {
          assert evs[..n][..k] == evs[..k];
        }
      }
    }
    if Balanced(evs) {
      forall k | 0 <= k <= n ensures Enough(evs[..n][..k]) {
        assert evs[..n][..k] == evs[..k];
      }
    }
  }

  function NoErrors(evs: seq<Event>): seq<Event> {
    if evs == [] then []
    else NoErrors(evs[..|evs| - 1]) + if evs[|evs| - 1] == OnError then [] else [evs[|evs| - 1]]
  }

  /** Reported errors leave no trace in the tree. */
  lemma {:induction false} ErrorsIgnored(a: Arena, evs: seq<Event>)
    requires a.Wf()
    ensures Run(a, evs) == Run(a, NoErrors(evs))
    decreases |evs|
  {
    if evs != [] {
      var n := |evs| - 1;
      assert evs == evs[..n] + [evs[n]];
      ErrorsIgnored(a, evs[..n]);
      RunOn(a, evs[..n], evs[n]);
      var before := NoErrors(evs[..n]);
      if evs[n] == OnError {
        assert before + [] == before;
      } else {
        RunOn(a, before, evs[n]);
      }
    }
  }

  // Growth ------------------------------------------------------------------------------------

  /** `b` is `a` with the nodes `ks` (and what is below them) appended under the current node. */
  ghost predicate Grows(a: Arena, b: Arena, ks: seq<nat>) {
    && a.Wf() && b.Wf() && b.current == a.current
    && a.labels <= b.labels && a.parents <= b.parents
    && b.kids[a.current] == a.kids[a.current] + ks
    && (forall i :: 0 <= i < |a.kids| && i != a.current ==> b.kids[i] == a.kids[i])
    && Between(ks, |a.labels| - 1, |b.labels|)
  }

  /** The trees that do not contain the current node stay as they are. */
  lemma {:induction false} SameTree(a: Arena, b: Arena, ks: seq<nat>, i: nat)
    requires Grows(a, b, ks) && a.current < i < |a.labels|
    ensures b.TreeAt(i) == a.TreeAt(i)
    decreases |a.labels| - i, 0
  {
    if a.labels[i].LElement? {
      SameForest(a, b, ks, a.kids[i], i);
    }
  }

  lemma {:induction false} SameForest(a: Arena, b: Arena, ks: seq<nat>, js: seq<nat>, i: nat)
    requires Grows(a, b, ks) && a.current <= i < |a.labels| && Between(js, i, |a.labels|)
    ensures b.ForestOf(js, i) == a.ForestOf(js, i)
    decreases |a.labels| - i, 0, |js|
  {
    if js != [] {
      SameTree(a, b, ks, js[0]);
      SameForest(a, b, ks, js[1..], i);
    }
  }

  lemma {:induction false} ForestConcat(a: Arena, js: seq<nat>, ks: seq<nat>, i: nat)
    requires a.Wf() && i < |a.labels| && Between(js, i, |a.labels|) && Between(ks, i, |a.labels|)
    ensures a.ForestOf(js + ks, i) == a.ForestOf(js, i) + a.ForestOf(ks, i)
    decreases |js|
  {
    if js == [] {
      assert js + ks == ks;
    } else {
      assert (js + ks)[1..] == js[1..] + ks;
      ForestConcat(a, js[1..], ks, i);
    }
  }

  lemma GrowsTrans(a: Arena, b: Arena, c: Arena, ks: seq<nat>, js: seq<nat>)
    requires Grows(a, b, ks) && Grows(b, c, js)
    ensures Grows(a, c, ks + js)
  {
    assert a.kids[a.current] + ks + js == a.kids[a.current] + (ks + js);
  }

  /** Where the builder stands does not matter to the trees it built. */
  lemma {:induction false} MoveTree(a: Arena, cur: nat, i: nat)
    requires a.Wf() && a.(current := cur).Wf() && i < |a.labels|
    ensures a.(current := cur).TreeAt(i) == a.TreeAt(i)
    decreases |a.labels| - i, 0
  {
    if a.labels[i].LElement? {
      MoveForest(a, cur, a.kids[i], i);
    }
  }

  lemma {:induction false} MoveForest(a: Arena, cur: nat, js: seq<nat>, i: nat)
    requires a.Wf() && a.(current := cur).Wf() && i < |a.labels| && Between(js, i, |a.labels|)
    ensures a.(current := cur).ForestOf(js, i) == a.ForestOf(js, i)
    decreases |a.labels| - i, 0, |js|
  {
    if js != [] {
      MoveTree(a, cur, js[0]);
      MoveForest(a, cur, js[1..], i);
    }
  }

  // Replaying a visit ---------------------------------------------------------------------------

  /** Every node has at most 32 attributes. */
  predicate Replayable(t: Tree)
    decreases t
  {
    match t
    case Element(name, attrs, kids) => FewAttrs(attrs) && ReplayableForest(kids)
    case Pi(name, attrs) => FewAttrs(attrs)
    case _ => true
  }

  predicate ReplayableForest(f: seq<Tree>)
    decreases f
  {
    f == [] || (Replayable(f[0]) && ReplayableForest(f[1..]))
  }

  /** `b` is `a` with a copy of `f` appended under the current node, and the same current node. */
  ghost predicate Appended(a: Arena, b: Arena, f: seq<Tree>) {
    && a.Wf() && b.Wf() && |a.kids| <= |b.kids|
    && a.kids[a.current] <= b.kids[a.current]
    && var ks := b.kids[a.current][|a.kids[a.current]|..];
       Grows(a, b, ks) && b.ForestOf(ks, a.current) == f
  }

  lemma AppendLeaf(a: Arena, lab: Label, t: Tree)
    requires a.Wf()
    requires !lab.LElement?
    requires match lab
             case LElement(_, _) => false
             case LText(text) => t == Text(text)
             case LComment(text) => t == Comment(text)
             case LPi(name, attrs) => t == Pi(name, attrs)
    ensures AddNode(a, lab).Wf() && Appended(a, AddNode(a, lab), [t])
  {
    var b := AddNode(a, lab);
    var n := |a.labels|;
    assert b.kids[a.current][|a.kids[a.current]|..] == [n];
    assert Grows(a, b, [n]);
    assert b.ForestOf([n], a.current) == [b.TreeAt(n)] + b.ForestOf([n][1..], a.current);
  }

  lemma AppendedTrans(a: Arena, b: Arena, c: Arena, f: seq<Tree>, g: seq<Tree>)
    requires Appended(a, b, f) && Appended(b, c, g)
    ensures Appended(a, c, f + g)
  {
    var cur := a.current;
    var ks := b.kids[cur][|a.kids[cur]|..];
    var js := c.kids[cur][|b.kids[cur]|..];
    GrowsTrans(a, b, c, ks, js);
    assert c.kids[cur][|a.kids[cur]|..] == ks + js;
    SameForest(b, c, js, ks, cur);
    ForestConcat(c, ks, js, cur);
  }

  /** Opening an element, appending its children and closing it appends the element. */
  lemma AppendElement(a: Arena, name: string, attrs: seq<Attr>, b: Arena, kids: seq<Tree>)
    requires a.Wf()
    requires var a1 := AddNode(a, LElement(name, attrs)).(current := |a.labels|);
             a1.Wf() && Appended(a1, b, kids)
    ensures b.parents[b.current] == a.current
    ensures b.(current := a.current).Wf() && Appended(a, b.(current := a.current), [Element(name, attrs, kids)])
  {
    var n := |a.labels|;
    var a1 := AddNode(a, LElement(name, attrs)).(current := n);
    var ks := b.kids[n][|a1.kids[n]|..];
    var c := b.(current := a.current);
    assert a1.kids[n] == [] && b.kids[n] == ks;
    assert a1.labels[n] == b.labels[n] && a1.parents[n] == b.parents[n];
    assert a.labels[a.current] == a1.labels[a.current] == b.labels[a.current];
    assert c.Wf();
    ElementGrows(a, name, attrs, b, ks);
    assert b.TreeAt(n) == Element(name, attrs, b.ForestOf(ks, n));
    MoveTree(b, a.current, n);
    assert c.ForestOf([n], a.current) == [c.TreeAt(n)] + c.ForestOf([n][1..], a.current);
    assert c.kids[a.current][|a.kids[a.current]|..] == [n];
  }

  lemma ElementGrows(a: Arena, name: string, attrs: seq<Attr>, b: Arena, ks: seq<nat>)
    requires a.Wf() && b.(current := a.current).Wf()
    requires Grows(AddNode(a, LElement(name, attrs)).(current := |a.labels|), b, ks)
    ensures Grows(a, b.(current := a.current), [|a.labels|])
  {
  }

  /** Replaying a tree or forest appends a copy of it and returns to the same node. */
  lemma {:induction false} ReplayTree(a: Arena, t: Tree)
    requires a.Wf() && Replayable(t)
    ensures Run(a, Visit(t)).0 && Appended(a, Run(a, Visit(t)).1, [t])
    decreases t
  {
    match t
    case Element(name, attrs, kids) => ReplayElement(a, name, attrs, kids);
    case Text(text) => ReplayLeaf(a, OnText(text), LText(text), t);
    case Comment(text) => ReplayLeaf(a, OnComment(text), LComment(text), t);
    case Pi(name, attrs) =>
      FlattenPairs(attrs, 0);
      ReplayLeaf(a, OnPi(name, Flatten(attrs, 0)), LPi(name, attrs), t);
  }

  lemma ReplayLeaf(a: Arena, ev: Event, lab: Label, t: Tree)
    requires a.Wf() && !lab.LElement? && Apply(a, ev) == (true, AddNode(a, lab))
    requires Visit(t) == [ev]
    requires lab == match t
                    case Text(text) => LText(text)
                    case Comment(text) => LComment(text)
                    case Pi(name, attrs) => LPi(name, attrs)
                    case Element(name, attrs, _) => LElement(name, attrs)
    ensures Run(a, Visit(t)).0 && Appended(a, Run(a, Visit(t)).1, [t])
  {
    hide Appended;
    AppendLeaf(a, lab, t);
    assert Run(a, [ev]) == Run(AddNode(a, lab), [ev][1..]) == (true, AddNode(a, lab));
  }

  lemma {:induction false} ReplayElement(a: Arena, name: string, attrs: seq<Attr>, kids: seq<Tree>)
    requires a.Wf() && FewAttrs(attrs) && ReplayableForest(kids)
    ensures var evs := Visit(Element(name, attrs, kids));
            Run(a, evs).0 && Appended(a, Run(a, evs).1, [Element(name, attrs, kids)])
    decreases kids, 1
  {
    FlattenPairs(attrs, 0);
    var s, e := OnStart(name, Flatten(attrs, 0)), OnEnd(name);
    var a1 := Apply(a, s).1;
    assert Visit(Element(name, attrs, kids)) == [s] + (VisitForest(kids) + [e]);
    ReplayForest(a1, kids);
    var b := Run(a1, VisitForest(kids)).1;
    AppendElement(a, name, attrs, b, kids);
    var c := b.(current := a.current);
    hide Appended, VisitForest;
    assert Apply(b, e) == (true, c);
    assert Run(b, [e]) == Run(c, [e][1..]) == (true, c);
    RunSplit(a1, VisitForest(kids), [e]);
    assert Run(a, [s]) == Run(a1, [s][1..]) == (true, a1);
    RunSplit(a, [s], VisitForest(kids) + [e]);
  }

  lemma {:induction false} ReplayForest(a: Arena, f: seq<Tree>)
    requires a.Wf() && ReplayableForest(f)
    ensures Run(a, VisitForest(f)).0 && Appended(a, Run(a, VisitForest(f)).1, f)
    decreases f, 0
  {
    if f == [] {
      assert a.kids[a.current][|a.kids[a.current]|..] == [];
    } else {
      ReplayTree(a, f[0]);
      var b := Run(a, Visit(f[0])).1;
      ReplayForest(b, f[1..]);
      RunSplit(a, Visit(f[0]), VisitForest(f[1..]));
      var c := Run(b, VisitForest(f[1..])).1;
      AppendedTrans(a, b, c, [f[0]], f[1..]);
      assert [f[0]] + f[1..] == f;
    }
  }
}
