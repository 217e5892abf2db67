/** One connection (src/connection.c) under its two threads: the worker inside `connection_run`
    and the timeout guard inside `connection_check_timeout`. Every read or write of a shared field
    is a step of its own; memory is sequentially consistent. */
module Connection {
  import opened Options

  datatype CState = Reuseable | Running | BeforeReuseable

  datatype Holder = Free | ByWorker | ByGuard

  /** The shared fields, and what is written down about them: `run` is the descriptor of the
      latest run that got one, `runs` the descriptors of all runs that have been in the running
      state, `closed` all descriptors closed so far, both in order of time. */
  datatype Conn = Conn(state: CState, timedout: bool, fd: Option<nat>, mutex: Holder,
                       run: nat, runs: seq<nat>, closed: seq<nat>)

  /** `connection_create`; a descriptor of -1 is None. */
  const NEW := Conn(Reuseable, false, None, Free, 0, [], [])

  /** Where the worker is. */
  datatype Worker =
    | Create(d: nat)   // make the pool and the request of a run for descriptor d, which may fail
    | SetFd(d: nat)    // store the descriptor
    | SetRunning       // enter the running state
    | Head             // look at the timeout flag before the next request
    | Body             // serve a request, up to the decision about keep-alive
    | FinLock          // finalize the request: wait for the mutex
    | FinIn            // hold it
    | FinOut           // make the next request, which may fail
    | SetBefore        // leave the running state
    | ReLock           // clean up: wait for the mutex
    | ReClear          // clear the timeout flag
    | ReClose          // close the descriptor, if any
    | ReMinus          // forget the descriptor
    | ReUnlock
    | SetReusable      // become reuseable
    | Done             // return to the listener

  /** Where the guard is. */
  datatype Guard =
    | Peek             // read the state without the mutex
    | GLock
    | Check            // read the state with the mutex
    | Decide           // has the time come?
    | Mark             // set the timeout flag
    | Close            // shut down and close the descriptor, if any
    | Wait             // until the worker is before reuseable
    | Minus            // forget the descriptor
    | GUnlock

  /** A step of the worker; `choice` stands for failing calls, for how a request ends and for
      keep-alive. None when the worker has to wait for the mutex. */
  function WorkerStep(c: Conn, w: Worker, choice: bool): Option<(Conn, Worker)> {
    match w
    case Create(d) => Some((c, if choice then SetFd(d) else Done))
    case SetFd(d) => Some((c.(fd := Some(d), run := d), SetRunning))
    case SetRunning => Some((c.(state := Running, runs := c.runs + [c.run]), Head))
    case Head => Some((c, if c.timedout then SetBefore else Body))
    case Body => Some((c, if choice && !c.timedout then FinLock else SetBefore))
    case FinLock => if c.mutex == Free then Some((c.(mutex := ByWorker), FinIn)) else None
    case FinIn => Some((c.(mutex := Free), FinOut))
    case FinOut => Some((c, if choice && !c.timedout then Head else SetBefore))
    case SetBefore => Some((c.(state := BeforeReuseable), ReLock))
    case ReLock => if c.mutex == Free then Some((c.(mutex := ByWorker), ReClear)) else None
    case ReClear => Some((c.(timedout := false), ReClose))
    case ReClose =>
      if c.fd.Some? then Some((c.(closed := c.closed + [c.fd.value]), ReMinus)) else Some((c, ReUnlock))
    case ReMinus => Some((c.(fd := None), ReUnlock))
    case ReUnlock => Some((c.(mutex := Free), SetReusable))
    case SetReusable => Some((c.(state := Reuseable), Done))
    case Done => None
  }

  /** A step of the guard. The second component is None when it is done with this connection. */
  function GuardStep(c: Conn, g: Guard, late: bool): Option<(Conn, Option<Guard>)> {
    match g
    case Peek => Some((c, if c.state == Running then Some(GLock) else None))
    case GLock => if c.mutex == Free then Some((c.(mutex := ByGuard), Some(Check))) else None
    case Check => Some((c, Some(if c.state == Running then Decide else GUnlock)))
    case Decide => Some((c, Some(if late then Mark else GUnlock)))
    case Mark => Some((c.(timedout := true), Some(Close)))
    case Close =>
      if c.fd.Some? then Some((c.(closed := c.closed + [c.fd.value]), Some(Wait))) else Some((c, Some(GUnlock)))
    case Wait => if c.state == BeforeReuseable then Some((c, Some(Minus))) else None
    case Minus => Some((c.(fd := None), Some(GUnlock)))
    case GUnlock => Some((c.(mutex := Free), None))
  }

  // What always holds ---------------------------------------------------------------------------

  predicate WorkerLocks(w: Worker) {
    w in {FinIn, ReClear, ReClose, ReMinus, ReUnlock}
  }

  predicate GuardLocks(g: Guard) {
    g !in {Peek, GLock}
  }

  /** The connection is running and the worker does not hold the mutex, or waits for it to leave. */
  predicate InRun(w: Worker) {
    w in {Head, Body, FinLock, FinOut, SetBefore, ReLock}
  }

  function StateAt(w: Worker): CState {
    match w
    case Create(_) => Reuseable
    case SetFd(_) => Reuseable
    case SetRunning => Reuseable
    case Done => Reuseable
    case Head => Running
    case Body => Running
    case FinLock => Running
    case FinIn => Running
    case FinOut => Running
    case SetBefore => Running
    case _ => BeforeReuseable
  }

  /** The descriptors closed are those of the runs, each once, the current one only if `all`. */
  predicate Closed(c: Conn, all: bool) {
    c.runs == if all then c.closed else c.closed + [c.run]
  }

  /** As a connection has to be when it is handed out and when it is given back. */
  predicate Clean(c: Conn) {
    c.state == Reuseable && !c.timedout && c.fd == None && Closed(c, true)
  }

  /** The worker's side of the invariant. */
  predicate WorkerOk(c: Conn, w: Worker) {
    && c.state == StateAt(w)
    && (c.mutex == ByWorker <==> WorkerLocks(w))
    && match w {
         case Create(_) => Clean(c)
         case SetFd(_) => Clean(c)
         case Done => Clean(c)
         case SetRunning => c.fd == Some(c.run) && !c.timedout && Closed(c, true)
         case FinIn => c.fd == Some(c.run) && !c.timedout && Closed(c, false)
         case ReClear => c.fd in {None, Some(c.run)} && Closed(c, c.fd == None)
         case ReClose => c.fd in {None, Some(c.run)} && Closed(c, c.fd == None) && !c.timedout
         case ReMinus => c.fd == Some(c.run) && Closed(c, true) && !c.timedout
         case ReUnlock => c.fd == None && Closed(c, true) && !c.timedout
         case SetReusable => c.fd == None && Closed(c, true) && !c.timedout
         case ReLock => c.fd in {None, Some(c.run)}
         case _ => c.fd == Some(c.run)
       }
  }

  /** Both sides together; the guard may be elsewhere. */
  predicate Protocol(c: Conn, w: Option<Worker>, g: Option<Guard>) {
    && (c.mutex == ByGuard <==> g.Some? && GuardLocks(g.value))
    && (if w.Some? then WorkerOk(c, w.value) else Clean(c) && c.mutex != ByWorker)
    && (w.Some? && InRun(w.value) ==>
          && Closed(c, c.fd == None || (g.Some? && g.value in {Wait, Minus}))
          && (c.timedout <==> c.fd == None || (g.Some? && g.value in {Close, Wait, Minus})))
    && (g.Some? && g.value in {Decide, Mark, Close, Wait, Minus} ==>
          w.Some? && InRun(w.value) && c.fd == Some(c.run))
    && (g.Some? && g.value == Minus ==> c.state == BeforeReuseable)
  }

  lemma WorkerKeeps(c: Conn, w: Worker, g: Option<Guard>, choice: bool)
    requires Protocol(c, Some(w), g) && WorkerStep(c, w, choice).Some?
    ensures var r := WorkerStep(c, w, choice).value; Protocol(r.0, Some(r.1), g)
  {
  }

  lemma GuardKeeps(c: Conn, w: Option<Worker>, g: Guard, late: bool)
    requires Protocol(c, w, Some(g)) && GuardStep(c, g, late).Some?
    ensures var r := GuardStep(c, g, late).value; Protocol(r.0, w, r.1)
  {
  }
}
