/** The two-layer lock of src/zlog/src/rotater.c: a mutex among the threads of a process, and a
    record lock on the lock file among processes. Threads of any number of processes take their
    steps in any order; every process has one rotater. */
module RotaterLock {
  import opened Options

  type Pid = nat

  /** A thread of a process. */
  datatype Thread = Thread(pid: Pid, tid: nat)

  /** Where a thread is in `zlog_rotater_trylock`, the rotation, and `zlog_rotater_unlock`. */
  datatype Pc =
    | Idle        // outside, or trylock has failed
    | GotMutex    // about to call fcntl with F_WRLCK
    | NoFile      // fcntl has failed, about to give the mutex back
    | Critical    // trylock has returned 0
    | Leaving     // about to call fcntl with F_UNLCK
    | Unlocked    // about to unlock the mutex

  /** Threads that have not been here are Idle, mutexes that have not been used are free. The
      record lock belongs to a process. */
  datatype State = State(pcs: map<Thread, Pc>, mutexes: map<Pid, Thread>, file: Option<Pid>) {
    function At(t: Thread): Pc { if t in pcs then pcs[t] else Idle }

    function To(t: Thread, pc: Pc): State { this.(pcs := pcs[t := pc]) }
  }

  const START := State(map[], map[], None)

  /** The next step of thread `t`; `fails` makes a system call fail for a reason of its own. */
  function Step(s: State, t: Thread, fails: bool): State {
    match s.At(t)
    case Idle =>
      if fails || t.pid in s.mutexes then s
      else s.To(t, GotMutex).(mutexes := s.mutexes[t.pid := t])
    case GotMutex =>
      if fails || (s.file.Some? && s.file.value != t.pid) then s.To(t, NoFile)
      else s.To(t, Critical).(file := Some(t.pid))
    case NoFile => s.To(t, Idle).(mutexes := s.mutexes - {t.pid})
    case Critical => s.To(t, Leaving)
    case Leaving => s.To(t, Unlocked).(file := if fails || s.file != Some(t.pid) then s.file else None)
    case Unlocked => s.To(t, Idle).(mutexes := s.mutexes - {t.pid})
  }

  function Run(s: State, schedule: seq<(Thread, bool)>): State {
    if schedule == [] then s
    else
      var n := |schedule| - 1;
      Step(Run(s, schedule[..n]), schedule[n].0, schedule[n].1)
  }

  ghost predicate Inv(s: State) {
    && (forall t: Thread :: s.At(t) != Idle <==> t.pid in s.mutexes && s.mutexes[t.pid] == t)
    && (forall t: Thread :: s.At(t) == Critical || s.At(t) == Leaving ==> s.file == Some(t.pid))
    && forall p :: p in s.mutexes ==> s.mutexes[p].pid == p
  }

  lemma StepKeeps(s: State, t: Thread, fails: bool)
    requires Inv(s)
    ensures Inv(Step(s, t, fails))
  {
  }

  /** A trylock without failures succeeds exactly if no thread of the process is inside and no other
      process has the file; until its second step no other thread of the process gets anywhere. */
  lemma TrylockSucceeds(schedule: seq<(Thread, bool)>, t: Thread)
    requires Run(START, schedule).At(t) == Idle
    ensures var s := Run(START, schedule);
            var s2 := Run(START, schedule + [(t, false)] + [(t, false)]);
            s2.At(t) == Critical <==>
              && (forall u: Thread :: u.pid == t.pid ==> s.At(u) == Idle)
              && (s.file == None || s.file == Some(t.pid))
  {
    RunKeeps(schedule);
    var s := Run(START, schedule);
    assert (schedule + [(t, false)])[..|schedule|] == schedule;
    assert (schedule + [(t, false)] + [(t, false)])[..|schedule| + 1] == schedule + [(t, false)];
    assert Run(START, schedule + [(t, false)]) == Step(s, t, false);
    assert Run(START, schedule + [(t, false)] + [(t, false)]) == Step(Step(s, t, false), t, false);
    hide Run;
    if t.pid in s.mutexes {
      assert s.At(s.mutexes[t.pid]) != Idle ==> s.mutexes[t.pid].pid == t.pid;
    }
  }

  /** Giving up the lock without failures frees the file and the mutex. */
  lemma UnlockReleases(schedule: seq<(Thread, bool)>, t: Thread)
    requires Run(START, schedule).At(t) == Critical
    ensures var s := Run(START, schedule + [(t, false)] + [(t, false)] + [(t, false)]);
            s.At(t) == Idle && s.file == None && forall u: Thread :: u.pid == t.pid ==> s.At(u) == Idle
  {
    RunKeeps(schedule);
    RunKeeps(schedule + [(t, false)] + [(t, false)] + [(t, false)]);
    assert (schedule + [(t, false)])[..|schedule|] == schedule;
    assert (schedule + [(t, false)] + [(t, false)])[..|schedule| + 1] == schedule + [(t, false)];
    assert (schedule + [(t, false)] + [(t, false)] + [(t, false)])[..|schedule| + 2]
        == schedule + [(t, false)] + [(t, false)];
    var s := Run(START, schedule);
    assert Run(START, schedule + [(t, false)]) == Step(s, t, false);
    assert Run(START, schedule + [(t, false)] + [(t, false)]) == Step(Step(s, t, false), t, false);
    assert Run(START, schedule + [(t, false)] + [(t, false)] + [(t, false)])
        == Step(Step(Step(s, t, false), t, false), t, false);
  }

  lemma {:induction false} RunKeeps(schedule: seq<(Thread, bool)>)
    ensures Inv(Run(START, schedule))
  {
    hide Step;
    if schedule == [] {
    } else {
      var n := |schedule| - 1;
      RunKeeps(schedule[..n]);
      StepKeeps(Run(START, schedule[..n]), schedule[n].0, schedule[n].1);
    }
  }

  /** In every run at most one thread of all processes is between a successful trylock and the
      end of the first half of its unlock. */
  lemma MutualExclusion(schedule: seq<(Thread, bool)>, a: Thread, b: Thread)
    requires Run(START, schedule).At(a) in {Critical, Leaving}
    requires Run(START, schedule).At(b) in {Critical, Leaving}
    ensures a == b
  {
    hide Run;
    RunKeeps(schedule);
  }

  /** A thread that is not inside holds no mutex; in particular a trylock that returned -1 has
      given it back, whatever failed. */
  lemma NothingKept(schedule: seq<(Thread, bool)>, t: Thread)
    requires Run(START, schedule).At(t) == Idle
    ensures t.pid in Run(START, schedule).mutexes ==> Run(START, schedule).mutexes[t.pid] != t
  {
    hide Run;
    RunKeeps(schedule);
  }

  /** A thread whose fcntl failed has the mutex until its next step, and that step frees it. */
  lemma GivenBack(schedule: seq<(Thread, bool)>, t: Thread, fails: bool)
    requires Run(START, schedule).At(t) == NoFile
    ensures var s := Run(START, schedule);
      t.pid in s.mutexes && s.mutexes[t.pid] == t
      && Step(s, t, fails).At(t) == Idle && t.pid !in Step(s, t, fails).mutexes
  {
    hide Run;
    RunKeeps(schedule);
  }
}
