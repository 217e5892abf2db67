/** The server (src/server.c): as many listener threads as connections share a free list under a
    mutex, and a guard thread looks at all connections in turn. Any thread may take the next step. */
module Server {
  import opened Options
  import opened Connection

  const NULL: int := -1

  /** Where a listener is in `server_listen_proc`; `d` is the accepted descriptor and `c` its
      connection. */
  datatype Listener =
    | Accept
    | PopLock(d: nat)
    | PopRead(d: nat)             // read the head of the free list
    | PopWrite(d: nat, c: nat)    // advance the head
    | PopUnlock(d: nat, c: nat)
    | Start(d: nat, c: nat)       // about to run the connection
    | Busy(c: nat, w: Worker)     // running it
    | PushLock(c: nat)
    | PushNext(c: nat)            // link the connection to the head
    | PushHead(c: nat)            // make it the head
    | PushUnlock

  /** `accepted` counts descriptors. `free` and `holder` are written down only: the connections on
      the free list in order, and which listener holds each connection. */
  datatype Server = Server(conns: seq<Conn>, next: seq<int>, head: int, mutex: Option<nat>,
                           listeners: seq<Listener>, guarded: nat, guard: Guard, accepted: nat,
                           free: seq<nat>, holder: seq<Option<nat>>)

  /** `Listening(l)` and `Guarding` are the next step of listener l and of the guard. */
  datatype Action = Listening(l: nat, choice: bool) | Guarding(late: bool)

  function Link(f: seq<nat>, j: nat): int { if j < |f| then f[j] else NULL }

  // Steps ---------------------------------------------------------------------------------------

  /** All indices are in range. */
  predicate Shaped(s: Server) {
    && |s.conns| == |s.next| == |s.holder| == |s.listeners| > 0
    && s.guarded < |s.conns|
    && forall l :: 0 <= l < |s.listeners| ==> ConnOf(s.listeners[l]) < |s.conns|
  }

  /** The connection a listener deals with. */
  function ConnOf(p: Listener): int {
    match p
    case PopWrite(_, c) => c
    case PopUnlock(_, c) => c
    case Start(_, c) => c
    case Busy(c, _) => c
    case PushLock(c) => c
    case PushNext(c) => c
    case PushHead(c) => c
    case _ => NULL
  }

  function At(s: Server, l: nat, p: Listener): Server
    requires l < |s.listeners|
  {
    s.(listeners := s.listeners[l := p])
  }

  /** A step of listener `l`; None when it has to wait. */
  function ListenerStep(s: Server, l: nat, choice: bool): Option<Server>
    requires Shaped(s) && l < |s.listeners|
  {
    match s.listeners[l]
    case Accept => Some(if choice then At(s, l, PopLock(s.accepted)).(accepted := s.accepted + 1) else s)
    case PopLock(d) => if s.mutex == None then Some(At(s, l, PopRead(d)).(mutex := Some(l))) else None
    case PopRead(d) => if 0 <= s.head < |s.conns| then Some(At(s, l, PopWrite(d, s.head))) else None
    case PopWrite(d, c) =>
      Some(At(s, l, PopUnlock(d, c)).(head := s.next[c], free := if s.free == [] then [] else s.free[1..],
                                      holder := s.holder[c := Some(l)]))
    case PopUnlock(d, c) => Some(At(s, l, Start(d, c)).(mutex := None))
    case Start(d, c) => Some(At(s, l, Busy(c, Create(d))))
    case Busy(c, w) =>
      if w == Done then Some(At(s, l, PushLock(c)))
      else
        var r := WorkerStep(s.conns[c], w, choice);
        if r == None then None
        else Some(At(s, l, Busy(c, r.value.1)).(conns := s.conns[c := r.value.0]))
    case PushLock(c) => if s.mutex == None then Some(At(s, l, PushNext(c)).(mutex := Some(l))) else None
    case PushNext(c) => Some(At(s, l, PushHead(c)).(next := s.next[c := s.head]))
    case PushHead(c) =>
      Some(At(s, l, PushUnlock).(head := c, free := [c] + s.free, holder := s.holder[c := None]))
    case PushUnlock => Some(At(s, l, Accept).(mutex := None))
  }

  /** A step of `server_guard_proc`, which goes from connection to connection. */
  function GuardianStep(s: Server, late: bool): Option<Server>
    requires Shaped(s)
  {
    var r := GuardStep(s.conns[s.guarded], s.guard, late);
    if r == None then None
    else
      var s' := s.(conns := s.conns[s.guarded := r.value.0]);
      if r.value.1 == None then Some(s'.(guarded := (s.guarded + 1) % |s.conns|, guard := Peek))
      else Some(s'.(guard := r.value.1.value))
  }

  // What always holds ---------------------------------------------------------------------------

  /** The listener is inside a section that the server's mutex protects. */
  predicate Locks(p: Listener) {
    p.PopRead? || p.PopWrite? || p.PopUnlock? || p.PushNext? || p.PushHead? || p.PushUnlock?
  }

  /** The connection belongs to the listener. */
  predicate Holds(p: Listener) {
    p.PopUnlock? || p.Start? || p.Busy? || p.PushLock? || p.PushNext? || p.PushHead?
  }

  /** The free list is what `head` and the `next` links say, without repetition. */
  ghost predicate FreeList(next: seq<int>, head: int, free: seq<nat>) {
    && head == Link(free, 0)
    && (forall j :: 0 <= j < |free| ==> free[j] < |next|)
    && (forall j {:trigger next[free[j]]} :: 0 <= j < |free| ==> next[free[j]] == Link(free, j + 1))
    && (forall j, k :: 0 <= j < k < |free| ==> free[j] != free[k])
  }

  /** A connection is on the free list exactly when no listener holds it; its holder is unique. */
  ghost predicate Owned(free: seq<nat>, holder: seq<Option<nat>>, ls: seq<Listener>) {
    && (forall c :: 0 <= c < |holder| ==> (holder[c] == None <==> c in free))
    && (forall c :: 0 <= c < |holder| && holder[c].Some? ==> HeldBy(ls, c, holder[c].value))
    && (forall l :: 0 <= l < |ls| && Holds(ls[l]) ==> 0 <= ConnOf(ls[l]) < |holder| && holder[ConnOf(ls[l])] == Some(l))
  }

  predicate HeldBy(ls: seq<Listener>, c: nat, l: nat) {
    l < |ls| && Holds(ls[l]) && ConnOf(ls[l]) == c
  }

  ghost predicate Locked(mutex: Option<nat>, ls: seq<Listener>) {
    forall l :: 0 <= l < |ls| ==> (Locks(ls[l]) <==> mutex == Some(l))
  }

  /** The local part: a popper has read the head, a pusher has linked to it. */
  ghost predicate Reading(s: Server)
    requires Shaped(s)
  {
    forall l :: 0 <= l < |s.listeners| ==>
      && (s.listeners[l].PopWrite? ==> s.head == s.listeners[l].c)
      && (s.listeners[l].PushHead? ==> s.next[s.listeners[l].c] == s.head)
  }

  function WorkerOn(s: Server, c: nat): Option<Worker>
    requires Shaped(s) && c < |s.conns|
  {
    if s.holder[c].Some? && s.holder[c].value < |s.listeners| && s.listeners[s.holder[c].value].Busy?
    then Some(s.listeners[s.holder[c].value].w) else None
  }

  function GuardOn(s: Server, c: nat): Option<Guard> { if c == s.guarded then Some(s.guard) else None }

  ghost predicate Protocols(s: Server)
    requires Shaped(s)
  {
    forall c :: 0 <= c < |s.conns| ==> Protocol(s.conns[c], WorkerOn(s, c), GuardOn(s, c))
  }

  ghost predicate Inv(s: Server) {
    && Shaped(s) && FreeList(s.next, s.head, s.free) && Owned(s.free, s.holder, s.listeners)
    && Locked(s.mutex, s.listeners) && Reading(s) && Protocols(s)
  }

  lemma ShapedKept(s: Server, l: nat, choice: bool)
    requires Shaped(s) && l < |s.listeners| && ListenerStep(s, l, choice).Some?
    ensures Shaped(ListenerStep(s, l, choice).value)
  {
    hide WorkerStep;
  }

  lemma PopFree(next: seq<int>, head: int, free: seq<nat>)
    requires FreeList(next, head, free) && 0 <= head < |next|
    ensures free != [] && free[0] == head && FreeList(next, next[head], free[1..])
    ensures forall c :: c in free <==> c == head || c in free[1..]
    ensures head !in free[1..]
  {
    assert free == [free[0]] + free[1..];
  }

  lemma LinkFree(next: seq<int>, head: int, free: seq<nat>, c: nat, x: int)
    requires FreeList(next, head, free) && c < |next| && c !in free
    ensures FreeList(next[c := x], head, free)
  {
  }

  lemma PushFree(next: seq<int>, head: int, free: seq<nat>, c: nat)
    requires FreeList(next, head, free) && c < |next| && c !in free && next[c] == head
    ensures FreeList(next, c, [c] + free)
  {
  }

  lemma FreeListKept(s: Server, l: nat, choice: bool)
    requires Shaped(s) && FreeList(s.next, s.head, s.free) && Owned(s.free, s.holder, s.listeners) && Reading(s)
    requires l < |s.listeners| && ListenerStep(s, l, choice).Some?
    ensures var r := ListenerStep(s, l, choice).value; FreeList(r.next, r.head, r.free)
  {
    hide WorkerStep, FreeList, Link;
    match s.listeners[l]
    case PopWrite(_, _) => PopFree(s.next, s.head, s.free);
    case PushNext(c) => LinkFree(s.next, s.head, s.free, c, s.head);
    case PushHead(c) => PushFree(s.next, s.head, s.free, c);
    case _ =>
  }

  /** The listener goes on with the same connection, or with none. */
  lemma OwnedSame(free: seq<nat>, holder: seq<Option<nat>>, ls: seq<Listener>, l: nat, p: Listener)
    requires Owned(free, holder, ls) && l < |ls| && (Holds(p) <==> Holds(ls[l]))
             && (Holds(p) ==> ConnOf(p) == ConnOf(ls[l]))
    ensures Owned(free, holder, ls[l := p])
  {
    forall c | 0 <= c < |holder| && holder[c].Some? ensures HeldBy(ls[l := p], c, holder[c].value) {
      assert HeldBy(ls, c, holder[c].value);
    }
  }

  lemma OwnedPop(free: seq<nat>, holder: seq<Option<nat>>, ls: seq<Listener>, l: nat, p: Listener, c: nat)
    requires Owned(free, holder, ls) && l < |ls| && !Holds(ls[l]) && Holds(p) && ConnOf(p) == c < |holder|
    requires free != [] && c == free[0] && c !in free[1..] && forall x :: x in free <==> x == c || x in free[1..]
    ensures Owned(free[1..], holder[c := Some(l)], ls[l := p])
  {
    var holder', ls' := holder[c := Some(l)], ls[l := p];
    forall x | 0 <= x < |holder'| && holder'[x].Some? ensures HeldBy(ls', x, holder'[x].value) {
      assert x != c ==> HeldBy(ls, x, holder[x].value);
    }
    forall k | 0 <= k < |ls'| && Holds(ls'[k])
      ensures 0 <= ConnOf(ls'[k]) < |holder'| && holder'[ConnOf(ls'[k])] == Some(k)
    {
      assert k != l ==> holder[ConnOf(ls[k])] == Some(k);
    }
  }

  lemma OwnedPush(free: seq<nat>, holder: seq<Option<nat>>, ls: seq<Listener>, l: nat, p: Listener, c: nat)
    requires Owned(free, holder, ls) && l < |ls| && Holds(ls[l]) && ConnOf(ls[l]) == c && !Holds(p)
    ensures c < |holder| && Owned([c] + free, holder[c := None], ls[l := p])
  {
    var holder', ls' := holder[c := None], ls[l := p];
    assert holder[c] == Some(l);
    forall x | 0 <= x < |holder'| && holder'[x].Some? ensures HeldBy(ls', x, holder'[x].value) {
      assert HeldBy(ls, x, holder[x].value);
    }
    forall k | 0 <= k < |ls'| && Holds(ls'[k])
      ensures 0 <= ConnOf(ls'[k]) < |holder'| && holder'[ConnOf(ls'[k])] == Some(k)
    {
      assert k != l && holder[ConnOf(ls[k])] == Some(k);
    }
  }

  lemma OwnedKept(s: Server, l: nat, choice: bool)
    requires Shaped(s) && FreeList(s.next, s.head, s.free) && Owned(s.free, s.holder, s.listeners) && Reading(s)
    requires l < |s.listeners| && ListenerStep(s, l, choice).Some?
    ensures var r := ListenerStep(s, l, choice).value; Owned(r.free, r.holder, r.listeners)
  {
    hide WorkerStep, FreeList, Link, Owned;
    var r := ListenerStep(s, l, choice).value;
    match s.listeners[l]
    case PopWrite(_, c) =>
      PopFree(s.next, s.head, s.free);
      OwnedPop(s.free, s.holder, s.listeners, l, r.listeners[l], c);
    case PushHead(c) => OwnedPush(s.free, s.holder, s.listeners, l, PushUnlock, c);
    case _ => OwnedSame(s.free, s.holder, s.listeners, l, r.listeners[l]);
  }

  lemma LockedKept(s: Server, l: nat, choice: bool)
    requires Shaped(s) && Locked(s.mutex, s.listeners) && l < |s.listeners| && ListenerStep(s, l, choice).Some?
    ensures var r := ListenerStep(s, l, choice).value; Locked(r.mutex, r.listeners)
  {
    hide WorkerStep;
  }

  lemma ReadingKept(s: Server, l: nat, choice: bool)
    requires Shaped(s) && Locked(s.mutex, s.listeners) && Reading(s) && Owned(s.free, s.holder, s.listeners)
    requires l < |s.listeners| && ListenerStep(s, l, choice).Some?
    ensures Shaped(ListenerStep(s, l, choice).value) && Reading(ListenerStep(s, l, choice).value)
  {
    hide WorkerStep;
    ShapedKept(s, l, choice);
  }

  /** A connection that the listener does not hold has the same worker as before. */
  lemma OtherWorker(s: Server, r: Server, l: nat, c: nat)
    requires Shaped(s) && Shaped(r) && Owned(s.free, s.holder, s.listeners)
    requires l < |s.listeners| == |r.listeners| && r.listeners == s.listeners[l := r.listeners[l]]
    requires |r.conns| == |s.conns|
    requires c < |s.conns| && c != ConnOf(s.listeners[l]) && r.holder[c] == s.holder[c]
    ensures WorkerOn(r, c) == WorkerOn(s, c)
  {
    assert s.holder[c].Some? ==> HeldBy(s.listeners, c, s.holder[c].value);
  }

  /** The worker of the listener's own connection, before and after. */
  lemma OwnWorker(s: Server, l: nat, choice: bool)
    requires Shaped(s) && Owned(s.free, s.holder, s.listeners) && FreeList(s.next, s.head, s.free) && Reading(s)
    requires Protocols(s) && l < |s.listeners| && ListenerStep(s, l, choice).Some? && ConnOf(s.listeners[l]) != NULL
    ensures Shaped(ListenerStep(s, l, choice).value)
    ensures var r, c := ListenerStep(s, l, choice).value, ConnOf(s.listeners[l]);
      0 <= c < |r.conns| && Protocol(r.conns[c], WorkerOn(r, c), GuardOn(r, c))
  {
    hide WorkerStep, Protocol, FreeList, Clean;
    ShapedKept(s, l, choice);
    var c, g := ConnOf(s.listeners[l]), GuardOn(s, ConnOf(s.listeners[l]));
    assert Protocol(s.conns[c], WorkerOn(s, c), g);
    match s.listeners[l]
    case PopWrite(d, _) =>
      PopFree(s.next, s.head, s.free);
      assert s.holder[c] == None;
    case Busy(_, w) =>
      assert WorkerOn(s, c) == Some(w);
      if w == Done {
        Returned(s.conns[c], g);
      } else {
        WorkerKeeps(s.conns[c], w, g, choice);
      }
    case Start(d, _) => Called(s.conns[c], d, g);
    case _ =>
  }

  lemma Returned(c: Conn, g: Option<Guard>)
    requires Protocol(c, Some(Done), g)
    ensures Protocol(c, None, g)
  {
  }

  lemma Called(c: Conn, d: nat, g: Option<Guard>)
    requires Protocol(c, None, g)
    ensures Protocol(c, Some(Create(d)), g)
  {
  }

  lemma ProtocolsKept(s: Server, l: nat, choice: bool)
    requires Inv(s) && l < |s.listeners| && ListenerStep(s, l, choice).Some?
    ensures Shaped(ListenerStep(s, l, choice).value) && Protocols(ListenerStep(s, l, choice).value)
  {
    hide WorkerStep, Protocol, FreeList, Locked, Owned, WorkerOn;
    ShapedKept(s, l, choice);
    var r := ListenerStep(s, l, choice).value;
    forall c | 0 <= c < |r.conns| ensures Protocol(r.conns[c], WorkerOn(r, c), GuardOn(r, c)) {
      if c == ConnOf(s.listeners[l]) {
        OwnWorker(s, l, choice);
      } else {
        OtherWorker(s, r, l, c);
        assert Protocol(s.conns[c], WorkerOn(s, c), GuardOn(s, c));
      }
    }
  }

  lemma ListenerKeeps(s: Server, l: nat, choice: bool)
    requires Inv(s) && l < |s.listeners| && ListenerStep(s, l, choice).Some?
    ensures Inv(ListenerStep(s, l, choice).value)
  {
    hide ListenerStep, FreeList, Owned, Locked, Reading, Protocols;
    ShapedKept(s, l, choice);
    FreeListKept(s, l, choice);
    OwnedKept(s, l, choice);
    LockedKept(s, l, choice);
    ReadingKept(s, l, choice);
    ProtocolsKept(s, l, choice);
  }

  lemma Arrives(c: Conn, w: Option<Worker>)
    requires Protocol(c, w, None)
    ensures Protocol(c, w, Some(Peek))
  {
  }

  lemma GuardianKeeps(s: Server, late: bool)
    requires Inv(s) && GuardianStep(s, late).Some?
    ensures Inv(GuardianStep(s, late).value)
  {
    hide FreeList, Owned, Locked, Protocol, GuardStep, WorkerOn, Reading;
    var r, i := GuardianStep(s, late).value, s.guarded;
    var t := GuardStep(s.conns[i], s.guard, late).value;
    SameWorkers(s, r);
    assert Protocol(s.conns[i], WorkerOn(s, i), GuardOn(s, i));
    GuardKeeps(s.conns[i], WorkerOn(s, i), s.guard, late);
    forall c | 0 <= c < |r.conns| ensures Protocol(r.conns[c], WorkerOn(r, c), GuardOn(r, c)) {
      assert Protocol(s.conns[c], WorkerOn(s, c), GuardOn(s, c));
      if t.1 == None && c == r.guarded {
        Arrives(r.conns[c], WorkerOn(r, c));
      }
    }
  }

  lemma SameWorkers(s: Server, r: Server)
    requires Shaped(s) && Reading(s) && |r.conns| == |s.conns| && r.guarded < |r.conns|
    requires r.next == s.next && r.head == s.head && r.listeners == s.listeners && r.holder == s.holder
    ensures Shaped(r) && Reading(r) && forall c :: 0 <= c < |s.conns| ==> WorkerOn(r, c) == WorkerOn(s, c)
  {
  }

  // Runs ----------------------------------------------------------------------------------------

  predicate Enabled(s: Server, a: Action) {
    Shaped(s) && match a {
      case Listening(l, choice) => l < |s.listeners| && ListenerStep(s, l, choice).Some?
      case Guarding(late) => GuardianStep(s, late).Some?
    }
  }

  /** Threads that have to wait do nothing. */
  function Step(s: Server, a: Action): Server {
    if !Enabled(s, a) then s
    else match a
      case Listening(l, choice) => ListenerStep(s, l, choice).value
      case Guarding(late) => GuardianStep(s, late).value
  }

  function Run(s: Server, schedule: seq<Action>): Server {
    if schedule == [] then s else Step(Run(s, schedule[..|schedule| - 1]), schedule[|schedule| - 1])
  }

  lemma {:induction false} RunKeeps(s: Server, schedule: seq<Action>)
    requires Inv(s)
    ensures Inv(Run(s, schedule))
  {
    hide Inv, ListenerStep, GuardianStep;
    if schedule == [] {
    } else {
      var n := |schedule| - 1;
      RunKeeps(s, schedule[..n]);
      var t := Run(s, schedule[..n]);
      if Enabled(t, schedule[n]) {
        match schedule[n]
        case Listening(l, choice) => ListenerKeeps(t, l, choice);
        case Guarding(late) => GuardianKeeps(t, late);
      }
    }
  }

  /** The list set-up of `server_create`. */
  method CreateServer(n: nat) returns (s: Server)
    requires n > 0
    ensures Inv(s) && |s.conns| == n && s.guard == Peek && s.mutex == None
    ensures forall c :: 0 <= c < n ==> s.conns[c] == NEW && s.listeners[c] == Accept
  {
    var conns, next, i := [], [], 0;
    while i < n
      invariant 0 <= i <= n && |conns| == |next| == i
      invariant forall j :: 0 <= j < i ==> conns[j] == NEW && next[j] == if j < i - 1 then j + 1 else NULL
    {
      conns := conns + [NEW];
      next := next + [NULL];
      if i > 0 {
        next := next[i - 1 := i];
      }
      i := i + 1;
    }
    s := Server(conns, next, 0, None, seq(n, _ => Accept), 0, Peek, 0, seq(n, j => j), seq(n, _ => None));
    forall c: nat | c < n ensures c in s.free {
      assert s.free[c] == c;
    }
  }

  // What follows --------------------------------------------------------------------------------

  function Values(f: seq<nat>): set<nat> { set i | 0 <= i < |f| :: f[i] }

  lemma {:induction false} DistinctValues(f: seq<nat>)
    requires forall i, j :: 0 <= i < j < |f| ==> f[i] != f[j]
    ensures |Values(f)| == |f|
  {
    if f != [] {
      var n := |f| - 1;
      DistinctValues(f[..n]);
      assert Values(f) == Values(f[..n]) + {f[n]};
    }
  }

  function Below(n: nat): set<nat> { if n == 0 then {} else Below(n - 1) + {n - 1} }

  lemma {:induction false} UpTo(n: nat)
    ensures |Below(n)| == n && forall i: nat :: i in Below(n) <==> i < n
  {
    if n > 0 {
      UpTo(n - 1);
    }
  }

  /** As many listeners as connections: one that holds none always finds one on the free list. */
  lemma SomethingFree(s: Server, l: nat)
    requires Inv(s) && l < |s.listeners| && !Holds(s.listeners[l])
    ensures s.free != [] && s.head != NULL
  {
    hide Protocols, Reading, Locked;
    if s.free == [] {
      var n := |s.conns|;
      var f := seq(n, c requires 0 <= c < n => assert s.holder[c].Some?; s.holder[c].value);
      forall c, d | 0 <= c < d < n ensures f[c] != f[d] {
        assert HeldBy(s.listeners, c, f[c]) && HeldBy(s.listeners, d, f[d]);
      }
      DistinctValues(f);
      forall x | x in Values(f) ensures x < n && x != l {
        var c :| 0 <= c < n && f[c] == x;
        assert HeldBy(s.listeners, c, x);
      }
      UpTo(n);
      assert Values(f) <= Below(n) - {l};
      CardinalityLess(Values(f), Below(n), l);
    }
  }

  lemma CardinalityLess(a: set<nat>, b: set<nat>, x: nat)
    requires a <= b - {x} && x in b
    ensures |a| < |b|
  {
    Subset(a, b - {x});
  }

  lemma {:induction false} Subset(a: set<nat>, b: set<nat>)
    requires a <= b
    ensures |a| <= |b|
  {
    if a != {} {
      var x :| x in a;
      Subset(a - {x}, b - {x});
    }
  }

  /** The assertions of server.c and connection.c, each at the place where it is checked, and how a
      new run finds its connection. */
  ghost predicate Asserted(s: Server, l: nat)
    requires Shaped(s) && l < |s.listeners|
  {
    match s.listeners[l]
    case PopRead(_) => 0 <= s.head < |s.conns|
    case Start(_, c) => Fresh(s.conns[c])
    case Busy(c, Create(_)) => Fresh(s.conns[c])
    case Busy(c, Body) => s.conns[c].state == Running
    case Busy(c, ReLock) => s.conns[c].state == BeforeReuseable
    case Busy(c, Done) => s.conns[c].state == Reuseable
    case _ => true
  }

  predicate Fresh(c: Conn) { c.state == Reuseable && c.fd == None && !c.timedout }

  /** In every interleaving every assertion holds when it is reached. */
  lemma AssertionsHold(s: Server, schedule: seq<Action>, l: nat)
    requires Inv(s) && l < |Run(s, schedule).listeners|
    ensures Inv(Run(s, schedule)) && Asserted(Run(s, schedule), l)
  {
    hide Run, FreeList;
    RunKeeps(s, schedule);
    var t := Run(s, schedule);
    match t.listeners[l]
    case PopRead(_) =>
      SomethingFree(t, l);
      HeadInRange(t.next, t.head, t.free);
    case Start(_, c) => assert Protocol(t.conns[c], WorkerOn(t, c), GuardOn(t, c));
    case Busy(c, w) => assert Protocol(t.conns[c], WorkerOn(t, c), GuardOn(t, c)) && WorkerOn(t, c) == Some(w);
    case _ =>
  }

  lemma HeadInRange(next: seq<int>, head: int, free: seq<nat>)
    requires FreeList(next, head, free) && head != NULL
    ensures 0 <= head < |next|
  {
  }

  /** On the free list once and held by nobody, or not on the list and held by one listener. */
  ghost predicate InOnePlace(s: Server, c: nat) {
    if c in s.free then
      && (exists j :: 0 <= j < |s.free| && s.free[j] == c && forall k :: 0 <= k < |s.free| && k != j ==> s.free[k] != c)
      && forall l :: 0 <= l < |s.listeners| ==> !HeldBy(s.listeners, c, l)
    else
      exists l :: HeldBy(s.listeners, c, l)
        && forall k :: 0 <= k < |s.listeners| && k != l ==> !HeldBy(s.listeners, c, k)
  }

  lemma PlaceOf(s: Server, c: nat)
    requires c < |s.holder| == |s.next| && FreeList(s.next, s.head, s.free) && Owned(s.free, s.holder, s.listeners)
    ensures InOnePlace(s, c)
  {
    hide Holds, ConnOf, Link;
    if c in s.free {
      var j :| 0 <= j < |s.free| && s.free[j] == c;
      assert s.free[j] == c && forall k :: 0 <= k < |s.free| && k != j ==> s.free[k] != c;
    } else {
      assert HeldBy(s.listeners, c, s.holder[c].value);
    }
  }

  /** In every interleaving every connection is in one place. */
  lemma OnePlace(s: Server, schedule: seq<Action>, c: nat)
    requires Inv(s) && c < |Run(s, schedule).conns|
    ensures InOnePlace(Run(s, schedule), c)
  {
    hide Run, Protocols, Reading, Locked, FreeList, Owned, InOnePlace;
    RunKeeps(s, schedule);
    PlaceOf(Run(s, schedule), c);
  }

  /** In every interleaving the descriptors a connection has closed are those of its runs that
      have been running, each once and in order: all of them whenever it is reuseable, and all but
      perhaps the current one otherwise. */
  lemma ClosedOnce(s: Server, schedule: seq<Action>, c: nat)
    requires Inv(s) && c < |Run(s, schedule).conns|
    ensures var x := Run(s, schedule).conns[c];
      && (x.state == Reuseable ==> x.closed == x.runs)
      && (x.runs == x.closed || x.runs == x.closed + [x.run])
  {
    hide Run, FreeList, Owned, Reading, Locked;
    RunKeeps(s, schedule);
    var t := Run(s, schedule);
    assert Protocol(t.conns[c], WorkerOn(t, c), GuardOn(t, c));
  }
}
