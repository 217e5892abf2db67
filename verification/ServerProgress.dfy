/** What the threads of the server get done (src/server.c, src/connection.c): whom the guard cuts off
    and whom it leaves alone, when a timeout does not end a run, and what a listener achieves. */
module ServerProgress {
  import opened Options
  import opened Connection
  import opened Server

  lemma {:induction false} RunOn(s: Server, a: seq<Action>, b: seq<Action>)
    ensures Run(s, a + b) == Run(Run(s, a), b)
  {
    hide Step;
    if b == [] {
      assert a + b == a;
    } else {
      var n := |b| - 1;
      assert (a + b)[..|a + b| - 1] == a + b[..n];
      RunOn(s, a, b[..n]);
    }
  }

  lemma RunOne(s: Server, a: Action)
    ensures Run(s, [a]) == Step(s, a)
  {
    assert [a][..0] == [];
    assert Run(s, []) == s;
  }

  // Whom the guard leaves alone -----------------------------------------------------------------

  /** From the storing of the descriptor to the worker's own closing of it. */
  predicate Serving(w: Worker) {
    w in {SetRunning, Head, Body, FinLock, FinIn, FinOut, SetBefore, ReLock, ReClear, ReClose, ReMinus}
  }

  predicate Undisturbed(c: Conn, w: Option<Worker>) {
    !c.timedout && (w.Some? && Serving(w.value) ==> c.fd == Some(c.run))
  }

  ghost predicate Calm(s: Server)
    requires Shaped(s)
  {
    && s.guard !in {Mark, Close, Wait, Minus}
    && forall c :: 0 <= c < |s.conns| ==> Undisturbed(s.conns[c], WorkerOn(s, c))
  }

  lemma WorkerCalm(c: Conn, w: Worker, choice: bool)
    requires Undisturbed(c, Some(w)) && WorkerStep(c, w, choice).Some?
    ensures var r := WorkerStep(c, w, choice).value; Undisturbed(r.0, Some(r.1))
  {
  }

  lemma ListenerCalm(s: Server, l: nat, choice: bool)
    requires Inv(s) && Calm(s) && l < |s.listeners| && ListenerStep(s, l, choice).Some?
    ensures Shaped(ListenerStep(s, l, choice).value) && Calm(ListenerStep(s, l, choice).value)
  {
    hide WorkerStep, Protocols, FreeList, Locked, Owned, Undisturbed, WorkerOn, Reading;
    ShapedKept(s, l, choice);
    var r := ListenerStep(s, l, choice).value;
    forall c | 0 <= c < |r.conns| ensures Undisturbed(r.conns[c], WorkerOn(r, c)) {
      assert Undisturbed(s.conns[c], WorkerOn(s, c));
      if c == ConnOf(s.listeners[l]) {
        OwnCalm(s, l, choice);
      } else {
        OtherWorker(s, r, l, c);
      }
    }
  }

  lemma OwnCalm(s: Server, l: nat, choice: bool)
    requires Inv(s) && Calm(s) && l < |s.listeners| && ListenerStep(s, l, choice).Some?
    requires ConnOf(s.listeners[l]) != NULL
    ensures var r, c := ListenerStep(s, l, choice).value, ConnOf(s.listeners[l]);
            Shaped(r) && 0 <= c < |r.conns| && Undisturbed(r.conns[c], WorkerOn(r, c))
  {
    hide WorkerStep, Protocols, FreeList, Locked, Reading;
    ShapedKept(s, l, choice);
    var c := ConnOf(s.listeners[l]);
    assert Undisturbed(s.conns[c], WorkerOn(s, c));
    match s.listeners[l]
    case Busy(_, w) =>
      assert WorkerOn(s, c) == Some(w);
      if w != Done {
        WorkerCalm(s.conns[c], w, choice);
      }
    case _ =>
  }

  lemma GuardianCalm(s: Server)
    requires Inv(s) && Calm(s) && GuardianStep(s, false).Some?
    ensures Shaped(GuardianStep(s, false).value) && Calm(GuardianStep(s, false).value)
  {
    hide Protocols, FreeList, Locked, Owned, WorkerOn;
    SameWorkers(s, GuardianStep(s, false).value);
  }

  lemma {:induction false} CalmKept(s: Server, schedule: seq<Action>)
    requires Inv(s) && Calm(s) && Guarding(true) !in schedule
    ensures Inv(Run(s, schedule)) && Calm(Run(s, schedule))
  {
    hide Inv, ListenerStep, GuardianStep, Calm;
    if schedule == [] {
    } else {
      var n := |schedule| - 1;
      CalmKept(s, schedule[..n]);
      var t := Run(s, schedule[..n]);
      if Enabled(t, schedule[n]) {
        match schedule[n]
        case Listening(l, choice) => ListenerKeeps(t, l, choice); ListenerCalm(t, l, choice);
        case Guarding(late) => GuardianKeeps(t, false); GuardianCalm(t);
      }
    }
  }

  /** A new server: see `CreateServer`. */
  ghost predicate New(s: Server) {
    && Inv(s) && s.guard == Peek && s.mutex == None
    && (forall c :: 0 <= c < |s.conns| ==> s.conns[c] == NEW)
    && forall l :: 0 <= l < |s.listeners| ==> s.listeners[l] == Accept
  }

  /** In every interleaving in which no run is overdue, the guard cuts nobody off: no run is marked,
      and its descriptor stays stored until its own worker has closed it. */
  lemma NobodyCutOff(s: Server, schedule: seq<Action>)
    requires New(s) && Guarding(true) !in schedule
    ensures var t := Run(s, schedule);
            && t.guard !in {Mark, Close, Wait, Minus}
            && (forall c :: 0 <= c < |t.conns| ==> !t.conns[c].timedout)
            && forall l :: 0 <= l < |t.listeners| && t.listeners[l].Busy? && Serving(t.listeners[l].w) ==>
                 var c := t.listeners[l].c;
                 c < |t.conns| && t.conns[c].fd == Some(t.conns[c].run)
  {
    hide Run, Protocols, FreeList, Locked, Reading;
    assert Calm(s);
    CalmKept(s, schedule);
    var t := Run(s, schedule);
    forall c | 0 <= c < |t.conns| ensures !t.conns[c].timedout {
      assert Undisturbed(t.conns[c], WorkerOn(t, c));
    }
    forall l | 0 <= l < |t.listeners| && t.listeners[l].Busy? && Serving(t.listeners[l].w)
      ensures var c := t.listeners[l].c; c < |t.conns| && t.conns[c].fd == Some(t.conns[c].run)
    {
      var c := t.listeners[l].c;
      assert WorkerOn(t, c) == Some(t.listeners[l].w);
      assert Undisturbed(t.conns[c], WorkerOn(t, c));
    }
  }

  // Whom it cuts off ----------------------------------------------------------------------------

  /** Only listeners. */
  predicate NoGuard(schedule: seq<Action>) { forall i :: 0 <= i < |schedule| ==> schedule[i].Listening? }

  /** While the guard deals with an overdue run, its worker cannot get away. */
  ghost predicate Caught(s: Server, t: Server) {
    && Inv(s) && Inv(t) && t.guard == s.guard && t.guarded == s.guarded && |t.conns| == |s.conns|
    && s.guard in {Decide, Mark, Close}
    && var x, y := s.conns[s.guarded], t.conns[s.guarded];
       y.fd == x.fd && y.run == x.run && y.closed == x.closed && y.timedout == x.timedout
  }

  lemma CaughtWorker(c: Conn, w: Worker, g: Guard, choice: bool)
    requires Protocol(c, Some(w), Some(g)) && g in {Decide, Mark, Close} && WorkerStep(c, w, choice).Some?
    ensures var r := WorkerStep(c, w, choice).value.0;
            r.fd == c.fd && r.run == c.run && r.closed == c.closed && r.timedout == c.timedout
  {
  }

  /** A listener changes nothing of the guard's, and of the connections at most its own, by a step of
      the worker. */
  lemma ListenerConns(s: Server, l: nat, choice: bool)
    requires Shaped(s) && l < |s.listeners| && ListenerStep(s, l, choice).Some?
    ensures var r, p := ListenerStep(s, l, choice).value, s.listeners[l];
            && r.guard == s.guard && r.guarded == s.guarded
            && if p.Busy? && p.w != Done then
                 && WorkerStep(s.conns[p.c], p.w, choice).Some?
                 && r.conns == s.conns[p.c := WorkerStep(s.conns[p.c], p.w, choice).value.0]
               else r.conns == s.conns
  {
    hide WorkerStep;
  }

  lemma WorkerIs(s: Server, l: nat)
    requires Inv(s) && l < |s.listeners| && s.listeners[l].Busy?
    ensures var p := s.listeners[l];
            && p.c < |s.conns| && WorkerOn(s, p.c) == Some(p.w)
            && Protocol(s.conns[p.c], Some(p.w), GuardOn(s, p.c))
  {
    hide Protocol, FreeList, Locked, Reading;
    var p := s.listeners[l];
    assert Protocol(s.conns[p.c], WorkerOn(s, p.c), GuardOn(s, p.c));
  }

  lemma CaughtStep(s: Server, l: nat, choice: bool)
    requires Inv(s) && s.guard in {Decide, Mark, Close} && l < |s.listeners| && ListenerStep(s, l, choice).Some?
    ensures Caught(s, ListenerStep(s, l, choice).value)
  {
    ListenerConns(s, l, choice);
    ListenerKeeps(s, l, choice);
    InvShaped(s);
    hide Protocol, WorkerStep, ListenerStep, Inv, WorkerOn;
    var p := s.listeners[l];
    if p.Busy? && p.c == s.guarded && p.w != Done {
      WorkerIs(s, l);
      CaughtWorker(s.conns[p.c], p.w, s.guard, choice);
    }
  }

  lemma InvShaped(s: Server)
    requires Inv(s)
    ensures Shaped(s)
  {
  }

  lemma {:induction false} CaughtRun(s: Server, schedule: seq<Action>)
    requires Inv(s) && s.guard in {Decide, Mark, Close} && NoGuard(schedule)
    ensures Caught(s, Run(s, schedule))
  {
    hide Inv, ListenerStep;
    if schedule == [] {
    } else {
      var n := |schedule| - 1;
      CaughtRun(s, schedule[..n]);
      var t := Run(s, schedule[..n]);
      if Enabled(t, schedule[n]) {
        CaughtStep(t, schedule[n].l, schedule[n].choice);
      }
    }
  }

  /** What the guard's own steps do to an overdue run. */
  lemma GuardActs(s: Server, late: bool)
    requires Inv(s) && s.guard in {Decide, Mark, Close} && (s.guard == Decide ==> late)
    ensures var t, c := Step(s, Guarding(late)), s.guarded;
            && Inv(t) && t.guarded == c < |t.conns| == |s.conns| && s.conns[c].fd == Some(s.conns[c].run)
            && t.conns[c].fd == s.conns[c].fd && t.conns[c].run == s.conns[c].run
            && match s.guard {
                 case Decide => t.guard == Mark && t.conns == s.conns
                 case Mark => t.guard == Close && t.conns[c].timedout && t.conns[c].closed == s.conns[c].closed
                 case _ => t.guard == Wait && t.conns[c].timedout == s.conns[c].timedout
                           && t.conns[c].closed == s.conns[c].closed + [s.conns[c].run]
               }
  {
    hide FreeList, Locked, Reading, Owned;
    var c := s.guarded;
    assert Protocol(s.conns[c], WorkerOn(s, c), GuardOn(s, c));
    hide Protocol, WorkerOn;
    GuardianKeeps(s, late);
    assert s.conns[c := s.conns[c]] == s.conns;
  }

  /** An overdue run is cut off: whatever the listeners do between the guard's next steps, the run is
      marked and its descriptor closed, once. */
  lemma OverdueCutOff(s: Server, schedule: seq<Action>, a: seq<Action>, x: bool, b: seq<Action>, y: bool)
    requires Inv(s) && Run(s, schedule).guard == Decide && NoGuard(a) && NoGuard(b)
    ensures var t := Run(s, schedule);
            var u := Run(s, schedule + [Guarding(true)] + a + [Guarding(x)] + b + [Guarding(y)]);
            var c := t.guarded;
            && c < |t.conns| == |u.conns| && u.guarded == c && u.guard == Wait
            && t.conns[c].fd == Some(t.conns[c].run) && u.conns[c].timedout
            && u.conns[c].closed == t.conns[c].closed + [t.conns[c].run]
  {
    hide Run, Step, Inv, NoGuard;
    RunKeeps(s, schedule);
    var t0 := Run(s, schedule);
    RunOn(s, schedule, [Guarding(true)]);
    RunOne(t0, Guarding(true));
    GuardActs(t0, true);
    var t1 := Step(t0, Guarding(true));
    RunOn(s, schedule + [Guarding(true)], a);
    CaughtRun(t1, a);
    var t2 := Run(t1, a);
    RunOn(s, schedule + [Guarding(true)] + a, [Guarding(x)]);
    RunOne(t2, Guarding(x));
    GuardActs(t2, x);
    var t3 := Step(t2, Guarding(x));
    RunOn(s, schedule + [Guarding(true)] + a + [Guarding(x)], b);
    CaughtRun(t3, b);
    var t4 := Run(t3, b);
    RunOn(s, schedule + [Guarding(true)] + a + [Guarding(x)] + b, [Guarding(y)]);
    RunOne(t4, Guarding(y));
    GuardActs(t4, y);
  }

  // When a timeout does not end a run -----------------------------------------------------------

  /** The guard waits for a worker that waits for the mutex the guard has. */
  ghost predicate BothWait(s: Server, l: nat) {
    && Inv(s) && l < |s.listeners| && s.guard == Wait && s.listeners[l] == Busy(s.guarded, FinLock)
  }

  lemma WaitStep(s: Server, l: nat, a: Action)
    requires BothWait(s, l) && Enabled(s, a)
    ensures BothWait(Step(s, a), l) && Step(s, a).guarded == s.guarded
  {
    WorkerIs(s, l);
    WaitsForWorker(s.conns[s.guarded], FinLock);
    InvShaped(s);
    match a
    case Listening(k, choice) =>
      ListenerConns(s, k, choice);
      ListenerKeeps(s, k, choice);
      hide Inv, WorkerOn, Protocol;
      if k == l {
        assert false;
      }
      OtherListener(s, k, choice, l);
    case Guarding(late) =>
      hide Inv, WorkerOn, Protocol;
      assert false;
  }

  lemma WaitsForWorker(c: Conn, w: Worker)
    requires Protocol(c, Some(w), Some(Wait))
    ensures c.mutex == ByGuard && c.fd == Some(c.run) && c.timedout && InRun(w)
    ensures c.state == (if w == ReLock then BeforeReuseable else Running)
  {
  }

  lemma OtherListener(s: Server, k: nat, choice: bool, l: nat)
    requires Shaped(s) && k < |s.listeners| && ListenerStep(s, k, choice).Some? && k != l < |s.listeners|
    ensures var r := ListenerStep(s, k, choice).value;
            |r.listeners| == |s.listeners| && r.listeners[l] == s.listeners[l]
  {
    hide WorkerStep;
  }

  /** A run that becomes overdue while its worker waits to finalize a request never ends, and the guard
      never gets on to another connection. */
  lemma {:induction false} WaitForEver(s: Server, l: nat, schedule: seq<Action>)
    requires BothWait(s, l)
    ensures BothWait(Run(s, schedule), l) && Run(s, schedule).guarded == s.guarded
  {
    hide BothWait, Step, Enabled;
    if schedule == [] {
    } else {
      var n := |schedule| - 1;
      WaitForEver(s, l, schedule[..n]);
      var t := Run(s, schedule[..n]);
      if Enabled(t, schedule[n]) {
        WaitStep(t, l, schedule[n]);
      } else {
        NotTaken(t, schedule[n]);
      }
    }
  }

  lemma NotTaken(s: Server, a: Action)
    requires !Enabled(s, a)
    ensures Step(s, a) == s
  {
  }

  // What one worker does by itself --------------------------------------------------------------

  /** A step of a worker; one that has to wait stays where it is. */
  function WorkOne(c: Conn, w: Worker, choice: bool): (Conn, Worker) {
    var r := WorkerStep(c, w, choice);
    if r == None then (c, w) else r.value
  }

  function Works(c: Conn, w: Worker, choices: seq<bool>): (Conn, Worker)
    decreases choices
  {
    if choices == [] then (c, w)
    else
      var (d, v) := WorkOne(c, w, choices[0]);
      Works(d, v, choices[1..])
  }

  lemma WorksFirst(c: Conn, w: Worker, choice: bool, rest: seq<bool>)
    ensures var (d, v) := WorkOne(c, w, choice); Works(c, w, [choice] + rest) == Works(d, v, rest)
  {
    hide WorkOne;
    assert ([choice] + rest)[1..] == rest;
  }

  lemma WorksNothing(c: Conn, w: Worker)
    ensures Works(c, w, []) == (c, w)
  {
  }

  lemma {:induction false} WorksOn(c: Conn, w: Worker, a: seq<bool>, b: seq<bool>)
    ensures Works(c, w, a + b) == var (d, v) := Works(c, w, a); Works(d, v, b)
    decreases a
  {
    hide WorkOne;
    if a == [] {
      assert a + b == b;
    } else {
      assert (a + b)[1..] == a[1..] + b;
      var (d, v) := WorkOne(c, w, a[0]);
      WorksOn(d, v, a[1..], b);
    }
  }

  /** Steps of one listener alone. */
  function Alone(l: nat, choices: seq<bool>): (schedule: seq<Action>)
    ensures |schedule| == |choices|
  {
    if choices == [] then [] else [Listening(l, choices[0])] + Alone(l, choices[1..])
  }

  lemma {:induction false} RunFirst(s: Server, a: Action, rest: seq<Action>)
    ensures Run(s, [a] + rest) == Run(Step(s, a), rest)
  {
    RunOn(s, [a], rest);
    RunOne(s, a);
  }

  /** The worker is not done before its last step. */
  ghost predicate BusyUntil(c: Conn, w: Worker, choices: seq<bool>) {
    forall k :: 0 <= k < |choices| ==> Works(c, w, choices[..k]).1 != Done
  }

  lemma StillBusy(c: Conn, w: Worker, choices: seq<bool>)
    requires BusyUntil(c, w, choices) && choices != []
    ensures w != Done
    ensures var (d, v) := WorkOne(c, w, choices[0]); BusyUntil(d, v, choices[1..])
  {
    hide WorkOne;
    assert choices[..0] == [];
    var (d, v) := WorkOne(c, w, choices[0]);
    forall k | 0 <= k < |choices[1..]| ensures Works(d, v, choices[1..][..k]).1 != Done {
      assert choices[..k + 1][0] == choices[0] && choices[..k + 1][1..] == choices[1..][..k];
      assert Works(c, w, choices[..k + 1]).1 != Done;
    }
  }

  /** A listener that runs a connection takes the steps of its worker. */
  lemma {:induction false} ListenerWorks(s: Server, l: nat, choices: seq<bool>)
    requires Inv(s) && l < |s.listeners| && s.listeners[l].Busy?
    requires var p := s.listeners[l]; p.c < |s.conns| && BusyUntil(s.conns[p.c], p.w, choices)
    ensures var p := s.listeners[l];
            var (d, v) := Works(s.conns[p.c], p.w, choices);
            Run(s, Alone(l, choices)) == s.(listeners := s.listeners[l := Busy(p.c, v)], conns := s.conns[p.c := d])
    decreases choices
  {
    hide Inv, WorkOne, BusyUntil, Run, Step;
    var p := s.listeners[l];
    if choices == [] {
      assert s.listeners[l := p] == s.listeners && s.conns[p.c := s.conns[p.c]] == s.conns;
      NoSteps(s);
    } else {
      StillBusy(s.conns[p.c], p.w, choices);
      RunFirst(s, Listening(l, choices[0]), Alone(l, choices[1..]));
      BusyStep(s, l, choices[0]);
      var t := Step(s, Listening(l, choices[0]));
      ListenerWorks(t, l, choices[1..]);
    }
  }

  lemma NoSteps(s: Server)
    ensures Run(s, []) == s
  {
  }

  lemma BusyStep(s: Server, l: nat, choice: bool)
    requires Inv(s) && l < |s.listeners| && s.listeners[l].Busy? && s.listeners[l].w != Done
    ensures Inv(Step(s, Listening(l, choice)))
    ensures var p := s.listeners[l];
            && p.c < |s.conns|
            && var (d, v) := WorkOne(s.conns[p.c], p.w, choice);
               Step(s, Listening(l, choice))
               == s.(listeners := s.listeners[l := Busy(p.c, v)], conns := s.conns[p.c := d])
  {
    InvShaped(s);
    hide Inv, WorkerStep;
    var p := s.listeners[l];
    if ListenerStep(s, l, choice).Some? {
      ListenerKeeps(s, l, choice);
    } else {
      assert s.listeners[l := p] == s.listeners && s.conns[p.c := s.conns[p.c]] == s.conns;
    }
  }

  lemma WorksTwo(c: Conn, w: Worker, x: bool, y: bool)
    ensures var (d, v) := WorkOne(c, w, x);
            && Works(c, w, [x, y]) == WorkOne(d, v, y)
            && (BusyUntil(c, w, [x, y]) <==> w != Done && v != Done)
  {
    hide WorkOne, Works;
    var (d, v) := WorkOne(c, w, x);
    var (e, u) := WorkOne(d, v, y);
    assert [x] + [] == [x] && [y] + [] == [y] && [x, y] == [x] + [y];
    WorksFirst(c, w, x, [y]);
    WorksFirst(c, w, x, []);
    WorksFirst(d, v, y, []);
    WorksNothing(c, w);
    WorksNothing(d, v);
    WorksNothing(e, u);
    assert [x, y][..0] == [] && [x, y][..1] == [x];
  }

  lemma Leaves(c: Conn, w: Worker, x: bool, y: bool)
    requires Protocol(c, Some(w), Some(Wait)) && w != FinLock
    ensures Works(c, w, [x, y]) == (c.(state := BeforeReuseable), ReLock) && BusyUntil(c, w, [x, y])
  {
    WaitsForWorker(c, w);
    WorksTwo(c, w, x, y);
    hide Works, BusyUntil, Protocol;
  }

  /** The guard's last steps, once the worker has left the run. */
  lemma GuardLeaves(s: Server, p: bool, q: bool, r: bool)
    requires Inv(s) && s.guarded < |s.conns| && s.guard == Wait && s.conns[s.guarded].state == BeforeReuseable
    ensures var c := s.guarded;
            var u := Run(s, [Guarding(p)] + [Guarding(q)] + [Guarding(r)]);
            && c < |s.conns| == |u.conns| && u.conns[c].fd == None && u.conns[c].mutex == Free
            && u.guard == Peek && u.guarded == if c + 1 == |u.conns| then 0 else c + 1
  {
    InvShaped(s);
    hide *;
    GuardTail(s.conns[s.guarded], p, q, r);
    RunOn(s, [Guarding(p)] + [Guarding(q)], [Guarding(r)]);
    RunOn(s, [Guarding(p)], [Guarding(q)]);
    RunOne(s, Guarding(p));
    GuardianIs(s, p);
    var s1 := Step(s, Guarding(p));
    RunOne(s1, Guarding(q));
    GuardianIs(s1, q);
    var s2 := Step(s1, Guarding(q));
    RunOne(s2, Guarding(r));
    GuardianIs(s2, r);
  }

  lemma GuardTail(c: Conn, p: bool, q: bool, r: bool)
    requires c.state == BeforeReuseable
    ensures GuardStep(c, Wait, p) == Some((c, Some(Minus)))
    ensures GuardStep(c, Minus, q) == Some((c.(fd := None), Some(GUnlock)))
    ensures GuardStep(c.(fd := None), GUnlock, r) == Some((c.(fd := None).(mutex := Free), None))
  {
  }

  lemma GuardianIs(s: Server, late: bool)
    requires Shaped(s)
    ensures Shaped(Step(s, Guarding(late))) && |Step(s, Guarding(late)).conns| == |s.conns|
    ensures var t, r := Step(s, Guarding(late)), GuardStep(s.conns[s.guarded], s.guard, late);
            r.Some? ==>
              && t.conns[s.guarded] == r.value.0
              && if r.value.1.Some? then t.guard == r.value.1.value && t.guarded == s.guarded
                 else t.guard == Peek && t.guarded == if s.guarded + 1 == |s.conns| then 0 else s.guarded + 1
  {
    hide GuardStep;
    Around(s.guarded, |s.conns|);
  }

  lemma Around(c: nat, n: nat)
    requires c < n
    ensures (c + 1) % n == if c + 1 == n then 0 else c + 1
  {
  }

  /** After a timeout a worker that does not wait for the mutex leaves its run with its next two steps,
      whatever they bring, and the guard goes on to the next connection three steps later. */
  lemma TimeoutEnds(s: Server, l: nat, x: bool, y: bool, p: bool, q: bool, r: bool)
    requires Inv(s) && s.guard == Wait && l < |s.listeners| && s.listeners[l].Busy? && s.listeners[l].c == s.guarded
    requires s.listeners[l].w != FinLock
    ensures var c := s.guarded;
            var t := Run(s, Alone(l, [x, y]));
            var u := Run(t, [Guarding(p)] + [Guarding(q)] + [Guarding(r)]);
            && c < |t.conns| == |u.conns| && t.conns[c].state == BeforeReuseable
            && u.conns[c].fd == None && u.conns[c].mutex == Free
            && u.guard == Peek && u.guarded == if c + 1 == |u.conns| then 0 else c + 1
  {
    var c := s.guarded;
    var w := s.listeners[l].w;
    WorkerIs(s, l);
    Leaves(s.conns[c], w, x, y);
    hide Inv, Protocol, Run, Works, BusyUntil;
    ListenerWorks(s, l, [x, y]);
    RunKeeps(s, Alone(l, [x, y]));
    GuardLeaves(Run(s, Alone(l, [x, y])), p, q, r);
  }

  // What a listener achieves --------------------------------------------------------------------

  /** A worker that goes from state to state. */
  lemma {:induction false} WorksAlong(states: seq<(Conn, Worker)>, choices: seq<bool>)
    requires |states| == |choices| + 1
    requires forall i :: 0 <= i < |choices| ==>
               states[i].1 != Done && WorkOne(states[i].0, states[i].1, choices[i]) == states[i + 1]
    ensures Works(states[0].0, states[0].1, choices) == states[|choices|]
    ensures BusyUntil(states[0].0, states[0].1, choices)
    decreases choices
  {
    hide WorkOne;
    if choices != [] {
      WorksAlong(states[1..], choices[1..]);
      BusyFirst(states[0].0, states[0].1, choices);
    }
  }

  lemma BusyFirst(c: Conn, w: Worker, choices: seq<bool>)
    requires choices != [] && w != Done
    requires var (d, v) := WorkOne(c, w, choices[0]); BusyUntil(d, v, choices[1..])
    ensures BusyUntil(c, w, choices)
  {
    hide WorkOne;
    var (d, v) := WorkOne(c, w, choices[0]);
    forall k | 0 <= k < |choices| ensures Works(c, w, choices[..k]).1 != Done {
      if k > 0 {
        assert choices[..k][0] == choices[0] && choices[..k][1..] == choices[1..][..k - 1];
        assert Works(d, v, choices[1..][..k - 1]).1 != Done;
      }
    }
  }

  lemma {:induction false} BusyOn(c: Conn, w: Worker, a: seq<bool>, b: seq<bool>)
    requires BusyUntil(c, w, a) && var (d, v) := Works(c, w, a); BusyUntil(d, v, b)
    ensures BusyUntil(c, w, a + b)
  {
    hide Works;
    var (d, v) := Works(c, w, a);
    forall k | 0 <= k < |a + b| ensures Works(c, w, (a + b)[..k]).1 != Done {
      if k < |a| {
        assert (a + b)[..k] == a[..k];
      } else {
        assert (a + b)[..k] == a + b[..k - |a|];
        WorksOn(c, w, a, b[..k - |a|]);
      }
    }
  }

  /** The connection while it serves descriptor `d`, and when it has closed it. */
  function Open(c: Conn, d: nat): Conn { c.(fd := Some(d), run := d, state := Running, runs := c.runs + [d]) }

  function Shut(c: Conn, d: nat): Conn { c.(run := d, runs := c.runs + [d], closed := c.closed + [d]) }

  lemma Opens(c: Conn, d: nat)
    ensures Works(c, Create(d), [true, true, true]) == (Open(c, d), Head)
    ensures BusyUntil(c, Create(d), [true, true, true])
  {
    WorksAlong([(c, Create(d)), (c, SetFd(d)), (c.(fd := Some(d), run := d), SetRunning), (Open(c, d), Head)],
               [true, true, true]);
  }

  /** One request, after which the connection is kept alive. */
  lemma ServesOne(c: Conn)
    requires c.mutex == Free && !c.timedout
    ensures Works(c, Head, [true, true, true, true, true]) == (c, Head)
    ensures BusyUntil(c, Head, [true, true, true, true, true])
  {
    hide Works, BusyUntil;
    var held := c.(mutex := ByWorker);
    WorksAlong([(c, Head), (c, Body), (c, FinLock), (held, FinIn), (c, FinOut), (c, Head)],
               [true, true, true, true, true]);
  }

  /** `n` requests, one after the other. */
  function Requests(n: nat): seq<bool> { if n == 0 then [] else [true, true, true, true, true] + Requests(n - 1) }

  lemma {:induction false} ServesMany(c: Conn, n: nat)
    requires c.mutex == Free && !c.timedout
    ensures Works(c, Head, Requests(n)) == (c, Head) && BusyUntil(c, Head, Requests(n))
  {
    hide WorkOne, Works, BusyUntil;
    if n == 0 {
      WorksAlong([(c, Head)], []);
    } else {
      ServesOne(c);
      ServesMany(c, n - 1);
      WorksOn(c, Head, [true, true, true, true, true], Requests(n - 1));
      BusyOn(c, Head, [true, true, true, true, true], Requests(n - 1));
    }
  }

  const LAST := [true, false, true, true, true, true, true, true, true]

  /** The last request, after which the connection is not kept alive, and the clean-up. */
  lemma Closes(c: Conn, d: nat)
    requires c.mutex == Free && !c.timedout && c.fd == Some(d)
    ensures Works(c, Head, LAST) == (c.(state := Reuseable, fd := None, closed := c.closed + [d]), Done)
    ensures BusyUntil(c, Head, LAST)
  {
    var held := c.(state := BeforeReuseable, mutex := ByWorker);
    LeavesRun(c);
    CleansUp(held, d);
    hide Works, BusyUntil;
    assert LAST == [true, false, true, true] + [true, true, true, true, true];
    WorksOn(c, Head, [true, false, true, true], [true, true, true, true, true]);
    BusyOn(c, Head, [true, false, true, true], [true, true, true, true, true]);
  }

  lemma LeavesRun(c: Conn)
    requires c.mutex == Free && !c.timedout
    ensures Works(c, Head, [true, false, true, true])
         == (c.(state := BeforeReuseable, mutex := ByWorker), ReClear)
    ensures BusyUntil(c, Head, [true, false, true, true])
  {
    var before := c.(state := BeforeReuseable);
    WorksAlong([(c, Head), (c, Body), (c, SetBefore), (before, ReLock), (before.(mutex := ByWorker), ReClear)],
               [true, false, true, true]);
  }

  lemma CleansUp(c: Conn, d: nat)
    requires !c.timedout && c.fd == Some(d)
    ensures Works(c, ReClear, [true, true, true, true, true])
         == (c.(state := Reuseable, fd := None, closed := c.closed + [d], mutex := Free), Done)
    ensures BusyUntil(c, ReClear, [true, true, true, true, true])
  {
    hide Works, BusyUntil;
    var closed := c.(closed := c.closed + [d]);
    var empty := closed.(fd := None);
    var free := empty.(mutex := Free);
    WorksAlong([(c, ReClear), (c, ReClose), (closed, ReMinus), (empty, ReUnlock), (free, SetReusable),
                (free.(state := Reuseable), Done)], [true, true, true, true, true]);
  }

  /** A whole run for descriptor `d` with `n` requests and a last one. */
  lemma RunsOnce(c: Conn, d: nat, n: nat)
    requires Clean(c) && c.mutex == Free
    ensures var choices := [true, true, true] + Requests(n) + LAST;
            Works(c, Create(d), choices) == (Shut(c, d), Done) && BusyUntil(c, Create(d), choices)
  {
    Opens(c, d);
    ServesMany(Open(c, d), n);
    Closes(Open(c, d), d);
    hide WorkOne, Works, BusyUntil, Requests, LAST;
    var a, b := [true, true, true], Requests(n);
    WorksOn(c, Create(d), a, b);
    BusyOn(c, Create(d), a, b);
    WorksOn(c, Create(d), a + b, LAST);
    BusyOn(c, Create(d), a + b, LAST);
  }

  /** A run that cannot make its first request leaves the connection alone; one that cannot make a
      further request ends and closes its descriptor. */
  lemma RunFails(c: Conn, d: nat)
    requires c.mutex == Free && !c.timedout
    ensures Works(c, Create(d), [false]) == (c, Done)
    ensures c.fd == Some(d) ==>
              var choices := [true, true, true, true, false, true, true] + [true, true, true, true, true];
              Works(c, Head, choices) == (c.(state := Reuseable, fd := None, closed := c.closed + [d]), Done)
  {
    WorksAlong([(c, Create(d)), (c, Done)], [false]);
    if c.fd == Some(d) {
      var held := c.(mutex := ByWorker);
      var before := c.(state := BeforeReuseable);
      WorksAlong([(c, Head), (c, Body), (c, FinLock), (held, FinIn), (c, FinOut), (c, SetBefore), (before, ReLock),
                  (before.(mutex := ByWorker), ReClear)], [true, true, true, true, false, true, true]);
      CleansUp(before.(mutex := ByWorker), d);
      hide Works;
      WorksOn(c, Head, [true, true, true, true, false, true, true], [true, true, true, true, true]);
    }
  }

  /** A step of a listener that is not inside a run. */
  lemma ListenerMoves(s: Server, l: nat)
    requires Inv(s) && l < |s.listeners| && (s.listeners[l].Busy? ==> s.listeners[l].w == Done)
    requires s.listeners[l].PopLock? || s.listeners[l].PushLock? ==> s.mutex == None
    ensures var t, p := Step(s, Listening(l, true)), s.listeners[l];
            && Inv(t) && |t.listeners| == |s.listeners| && t.listeners == s.listeners[l := t.listeners[l]]
            && t.conns == s.conns && t.guard == s.guard && t.guarded == s.guarded
            && (!p.Accept? ==> t.accepted == s.accepted) && (!p.PopWrite? && !p.PushHead? ==> t.free == s.free)
            && match p {
                 case Accept => t.accepted == s.accepted + 1 && t.mutex == s.mutex
                                && t.listeners[l] == PopLock(s.accepted)
                 case PopLock(d) => t.listeners[l] == PopRead(d)
                 case PopRead(d) => s.free != [] && t.listeners[l] == PopWrite(d, s.free[0])
                 case PopWrite(d, c) => s.free != [] && t.listeners[l] == PopUnlock(d, c) && t.free == s.free[1..]
                 case PopUnlock(d, c) => t.listeners[l] == Start(d, c) && t.mutex == None
                 case Start(d, c) => t.listeners[l] == Busy(c, Create(d)) && t.mutex == s.mutex
                 case Busy(c, _) => t.listeners[l] == PushLock(c) && t.mutex == s.mutex
                 case PushLock(c) => t.listeners[l] == PushNext(c)
                 case PushNext(c) => t.listeners[l] == PushHead(c)
                 case PushHead(c) => t.listeners[l] == PushUnlock && t.free == [c] + s.free
                 case PushUnlock => t.listeners[l] == Accept && t.mutex == None
               }
  {
    InvShaped(s);
    if s.listeners[l].PopRead? || s.listeners[l].PopWrite? {
      SomethingFree(s, l);
      HeadInRange(s.next, s.head, s.free);
    }
    hide WorkerStep, Owned, Locked, Protocols;
    ListenerKeeps(s, l, true);
  }

  /** A listener that takes the server from state to state. */
  lemma {:induction false} ListenerAlong(states: seq<Server>, l: nat, choices: seq<bool>)
    requires |states| == |choices| + 1
    requires forall i :: 0 <= i < |choices| ==> Step(states[i], Listening(l, choices[i])) == states[i + 1]
    ensures Run(states[0], Alone(l, choices)) == states[|choices|]
    decreases choices
  {
    hide Step, Run;
    if choices == [] {
      NoSteps(states[0]);
    } else {
      ListenerAlong(states[1..], l, choices[1..]);
      RunFirst(states[0], Listening(l, choices[0]), Alone(l, choices[1..]));
    }
  }

  /** A listener by itself gets the next descriptor and a connection to run it on. */
  lemma Takes(s: Server, l: nat)
    requires Inv(s) && l < |s.listeners| && s.listeners[l] == Accept && s.mutex == None
    ensures var t := Run(s, Alone(l, [true, true, true, true, true, true]));
            && s.free != [] && Inv(t) && |t.listeners| == |s.listeners|
            && t.listeners == s.listeners[l := Busy(s.free[0], Create(s.accepted))]
            && t.conns == s.conns && t.guard == s.guard && t.guarded == s.guarded
            && t.free == s.free[1..] && t.accepted == s.accepted + 1 && t.mutex == None
  {
    hide *;
    var s1 := Step(s, Listening(l, true));
    ListenerMoves(s, l);
    var s2 := Step(s1, Listening(l, true));
    ListenerMoves(s1, l);
    var s3 := Step(s2, Listening(l, true));
    ListenerMoves(s2, l);
    var s4 := Step(s3, Listening(l, true));
    ListenerMoves(s3, l);
    var s5 := Step(s4, Listening(l, true));
    ListenerMoves(s4, l);
    ListenerMoves(s5, l);
    ListenerAlong([s, s1, s2, s3, s4, s5, Step(s5, Listening(l, true))], l, [true, true, true, true, true, true]);
  }

  /** It puts the connection of a finished run in front of the free list. */
  lemma Gives(s: Server, l: nat, c: nat)
    requires Inv(s) && l < |s.listeners| && s.listeners[l] == Busy(c, Done) && s.mutex == None
    ensures var t := Run(s, Alone(l, [true, true, true, true, true]));
            && Inv(t) && |t.listeners| == |s.listeners| && t.listeners == s.listeners[l := Accept]
            && t.conns == s.conns && t.guard == s.guard && t.guarded == s.guarded
            && t.free == [c] + s.free && t.accepted == s.accepted && t.mutex == None
  {
    hide *;
    var s1 := Step(s, Listening(l, true));
    ListenerMoves(s, l);
    var s2 := Step(s1, Listening(l, true));
    ListenerMoves(s1, l);
    var s3 := Step(s2, Listening(l, true));
    ListenerMoves(s2, l);
    var s4 := Step(s3, Listening(l, true));
    ListenerMoves(s3, l);
    ListenerMoves(s4, l);
    ListenerAlong([s, s1, s2, s3, s4, Step(s4, Listening(l, true))], l, [true, true, true, true, true]);
  }

  /** What a listener chooses for a whole round with `n` kept-alive requests and a last one. */
  function Round(n: nat): seq<bool> {
    [true, true, true, true, true, true] + ([true, true, true] + Requests(n) + LAST) + [true, true, true, true, true]
  }

  /** From any state that a run reaches, a listener that is let do its work accepts the next descriptor,
      serves any number of requests on it, closes it once, and puts the connection back where it was. */
  lemma WholeRound(s: Server, l: nat, n: nat)
    requires Inv(s) && l < |s.listeners| && s.listeners[l] == Accept && s.mutex == None
    requires s.free != [] ==> s.free[0] < |s.conns| && s.conns[s.free[0]].mutex == Free
    ensures var t, d := Run(s, Alone(l, Round(n))), s.accepted;
            && Inv(t) && s.free != [] && t.free == s.free && t.listeners == s.listeners && t.mutex == None
            && t.accepted == d + 1 && |t.conns| == |s.conns|
            && var c := s.free[0];
               && c < |s.conns| && (forall x :: 0 <= x < |s.conns| && x != c ==> t.conns[x] == s.conns[x])
               && t.conns[c].runs == s.conns[c].runs + [d] && t.conns[c].closed == s.conns[c].closed + [d]
               && t.conns[c].state == Reuseable && t.conns[c].fd == None && t.conns[c].mutex == Free
  {
    hide Run, Round, Requests, LAST, Works, BusyUntil, Inv, Protocol;
    var six, five := [true, true, true, true, true, true], [true, true, true, true, true];
    var run := [true, true, true] + Requests(n) + LAST;
    Takes(s, l);
    var t := Run(s, Alone(l, six));
    var c := s.free[0];
    WorkerIs(t, l);
    Started(t.conns[c], s.accepted, GuardOn(t, c));
    RunsOnce(t.conns[c], s.accepted, n);
    ListenerWorks(t, l, run);
    var u := Run(t, Alone(l, run));
    RunKeeps(t, Alone(l, run));
    Gives(u, l, c);
    RoundIs(s, l, n);
    RunOn(s, Alone(l, six) + Alone(l, run), Alone(l, five));
    RunOn(s, Alone(l, six), Alone(l, run));
    assert s.free == [c] + s.free[1..];
    assert s.listeners[l := s.listeners[l]] == s.listeners;
  }

  lemma Started(c: Conn, d: nat, g: Option<Guard>)
    requires Protocol(c, Some(Create(d)), g)
    ensures Clean(c)
  {
  }

  lemma {:induction false} AloneOn(l: nat, a: seq<bool>, b: seq<bool>)
    ensures Alone(l, a + b) == Alone(l, a) + Alone(l, b)
    decreases a
  {
    if a == [] {
      assert a + b == b;
    } else {
      assert (a + b)[1..] == a[1..] + b;
      AloneOn(l, a[1..], b);
    }
  }

  lemma RoundIs(s: Server, l: nat, n: nat)
    ensures var six, five := [true, true, true, true, true, true], [true, true, true, true, true];
            var run := [true, true, true] + Requests(n) + LAST;
            Alone(l, Round(n)) == Alone(l, six) + Alone(l, run) + Alone(l, five)
  {
    hide Requests, LAST, Alone;
    var six, five := [true, true, true, true, true, true], [true, true, true, true, true];
    var run := [true, true, true] + Requests(n) + LAST;
    AloneOn(l, six + run, five);
    AloneOn(l, six, run);
  }

  /** The first five steps of a run whose first request is done: it waits to finalize it. */
  lemma ToFinalize(c: Conn, d: nat)
    requires !c.timedout
    ensures Works(c, Create(d), [true, true, true, true, true]) == (Open(c, d), FinLock)
    ensures BusyUntil(c, Create(d), [true, true, true, true, true])
  {
    hide Works, BusyUntil;
    WorksAlong([(c, Create(d)), (c, SetFd(d)), (c.(fd := Some(d), run := d), SetRunning), (Open(c, d), Head),
                (Open(c, d), Body), (Open(c, d), FinLock)], [true, true, true, true, true]);
  }

  /** The guard's steps from an idle guard up to waiting for the worker. */
  lemma GuardGetsTo(c: Conn)
    requires c.state == Running && c.mutex == Free && c.fd.Some?
    ensures var held := c.(mutex := ByGuard);
            var marked := held.(timedout := true);
            var closed := marked.(closed := c.closed + [c.fd.value]);
            && GuardStep(c, Peek, true) == Some((c, Some(GLock)))
            && GuardStep(c, GLock, true) == Some((held, Some(Check)))
            && GuardStep(held, Check, true) == Some((held, Some(Decide)))
            && GuardStep(held, Decide, true) == Some((held, Some(Mark)))
            && GuardStep(held, Mark, true) == Some((marked, Some(Close)))
            && GuardStep(marked, Close, true) == Some((closed, Some(Wait)))
  {
  }

  lemma GuardianSame(s: Server, late: bool)
    requires Inv(s)
    ensures Inv(Step(s, Guarding(late))) && Step(s, Guarding(late)).listeners == s.listeners
  {
    hide GuardStep;
    if Enabled(s, Guarding(late)) {
      GuardianKeeps(s, late);
    }
  }

  lemma GuardianOn(s: Server)
    requires Inv(s) && s.guarded < |s.conns| && GuardStep(s.conns[s.guarded], s.guard, true).Some?
    requires GuardStep(s.conns[s.guarded], s.guard, true).value.1.Some?
    ensures var t, r := Step(s, Guarding(true)), GuardStep(s.conns[s.guarded], s.guard, true).value;
            && Inv(t) && t.listeners == s.listeners && t.guarded == s.guarded < |t.conns|
            && t.conns[s.guarded] == r.0 && t.guard == r.1.value
  {
    hide GuardStep, Step, Inv;
    InvShaped(s);
    GuardianSame(s, true);
    GuardianIs(s, true);
  }

  /** A run of a server with one connection in which both wait: the connection becomes overdue between
      the last look of its worker at the flag and its finalizing of the request. */
  lemma BothWaitReached(s: Server) returns (schedule: seq<Action>)
    requires New(s) && |s.conns| == 1
    ensures BothWait(Run(s, schedule), 0)
  {
    hide Run, Step, Works, BusyUntil, Inv, GuardStep, Alone, Protocol;
    var six, five := [true, true, true, true, true, true], [true, true, true, true, true];
    var late := [Guarding(true)];
    NewShaped(s);
    Takes(s, 0);
    var t := Run(s, Alone(0, six));
    WorkerIs(t, 0);
    ToFinalize(t.conns[0], s.accepted);
    ListenerWorks(t, 0, five);
    RunKeeps(t, Alone(0, five));
    var u := Run(t, Alone(0, five));
    GuardGetsTo(u.conns[0]);
    GuardianOn(u);
    var u1 := Step(u, Guarding(true));
    GuardianOn(u1);
    var u2 := Step(u1, Guarding(true));
    GuardianOn(u2);
    var u3 := Step(u2, Guarding(true));
    GuardianOn(u3);
    var u4 := Step(u3, Guarding(true));
    GuardianOn(u4);
    var u5 := Step(u4, Guarding(true));
    GuardianOn(u5);
    schedule := Alone(0, six) + Alone(0, five) + late + late + late + late + late + late;
    Six(s, Alone(0, six) + Alone(0, five), Guarding(true));
    RunOn(s, Alone(0, six), Alone(0, five));
  }

  lemma NewShaped(s: Server)
    requires New(s)
    ensures Shaped(s) && |s.listeners| == |s.conns| && s.guarded < |s.conns| && s.listeners[0] == Accept
    ensures forall c :: c in s.free ==> c < |s.conns|
  {
  }

  lemma Six(s: Server, schedule: seq<Action>, a: Action)
    ensures Run(s, schedule + [a] + [a] + [a] + [a] + [a] + [a])
         == Step(Step(Step(Step(Step(Step(Run(s, schedule), a), a), a), a), a), a)
  {
    hide Run, Step;
    Last(s, schedule, a);
    Last(s, schedule + [a], a);
    Last(s, schedule + [a] + [a], a);
    Last(s, schedule + [a] + [a] + [a], a);
    Last(s, schedule + [a] + [a] + [a] + [a], a);
    Last(s, schedule + [a] + [a] + [a] + [a] + [a], a);
  }

  lemma Last(s: Server, schedule: seq<Action>, a: Action)
    ensures Run(s, schedule + [a]) == Step(Run(s, schedule), a)
  {
    RunOn(s, schedule, [a]);
    RunOne(Run(s, schedule), a);
  }
}
