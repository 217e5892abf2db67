/** Time stamps in log lines (src/zlog/src/spec.c, event.c, thread.c, zlog.c): every thread keeps
    the last second it formatted, and the last text for each time conversion of the configuration.
    Log events of many threads interleave with reloads; a version number tells a thread that its
    caches belong to an older configuration. */
module TimeCache {
  import opened Options

  /** The fields of a `struct tm`. */
  type Tm = seq<int>

  const ZERO_TM: Tm := [0, 0, 0, 0, 0, 0, 0, 0, 0]

  /** The C library. */
  datatype Lib = Lib(localtime: int -> Tm, strftime: (string, Tm) -> string)

  /** The text of second `sec`, without any cache. */
  function Uncached(lib: Lib, fmt: string, sec: int): string { lib.strftime(fmt, lib.localtime(sec)) }

  /** A time conversion (`%d(...)`) and its cache slot. */
  datatype Spec = Spec(fmt: string, index: nat)

  datatype Conf = Conf(specs: seq<Spec>, count: nat)

  /** Every time conversion has a slot of its own. */
  ghost predicate ConfOk(conf: Conf) {
    conf.count == |conf.specs| && forall i :: 0 <= i < |conf.specs| ==> conf.specs[i].index == i
  }

  /** The slot allocation of `zlog_spec_new`. */
  method NewSpec(fmt: string, count: nat) returns (spec: Spec, count': nat)
    ensures spec == Spec(fmt, count) && count' == count + 1
  {
    spec := Spec(fmt, count);
    count' := count + 1;
  }

  /** The time conversions of a configuration, in the order in which they are read. */
  method ReadConf(fmts: seq<string>) returns (conf: Conf)
    ensures ConfOk(conf) && |conf.specs| == |fmts|
    ensures forall i :: 0 <= i < |fmts| ==> conf.specs[i].fmt == fmts[i]
  {
    var specs, count := [], 0;
    for n := 0 to |fmts|
      invariant count == |specs| == n
      invariant forall i :: 0 <= i < n ==> specs[i] == Spec(fmts[i], i)
    {
      var spec;
      spec, count := NewSpec(fmts[n], count);
      specs := specs + [spec];
    }
    conf := Conf(specs, count);
  }

  datatype Cache = Cache(str: string, sec: int)

  /** As `calloc` leaves it. */
  const FRESH := Cache("", 0)

  /** What a cache slot for `fmt` holds, depending on whether it has been used. */
  ghost predicate CacheOk(lib: Lib, c: Cache, fmt: string, used: bool) {
    if used then c.str == Uncached(lib, fmt, c.sec) else c == FRESH
  }

  /** The text that comes out of a cache slot: a slot never used claims second 0. */
  function Cached(lib: Lib, fmt: string, sec: int, used: bool): (text: string)
    ensures text == Uncached(lib, fmt, sec) <==> sec != 0 || used || Uncached(lib, fmt, sec) == ""
  {
    if sec == 0 && !used then "" else Uncached(lib, fmt, sec)
  }

  class Event {
    var caches: array<Cache>
    var stamp: int
    var localSec: int
    var local: Tm
    /** The slots that have been filled since the event was made. */
    ghost var used: set<nat>

    /** `zlog_event_new`. */
    constructor (count: nat)
      ensures fresh(caches) && caches.Length == count && forall i :: 0 <= i < count ==> caches[i] == FRESH
      ensures localSec == 0 && local == ZERO_TM && used == {}
    {
      caches := new Cache[count](_ => FRESH);
      stamp, localSec, local := 0, 0, ZERO_TM;
      used := {};
    }

    /** Everything cached is right for `specs`, except that slots never used claim second 0. */
    ghost predicate Coherent(lib: Lib, specs: seq<Spec>)
      reads `caches, `localSec, `local, `used, caches
    {
      && caches.Length == |specs|
      && (forall i :: 0 <= i < |specs| ==> CacheOk(lib, caches[i], specs[i].fmt, i in used))
      && (local == lib.localtime(localSec) || (localSec == 0 && used == {}))
    }

    /** `zlog_event_set_fmt` and `zlog_event_set_hex`. */
    method Reset()
      modifies this`stamp
      ensures stamp == 0
    {
      stamp := 0;
    }

    /** The time stamp of the event, taken from the clock at its first use. */
    method Stamp(clock: int)
      modifies this`stamp
      ensures stamp == if old(stamp) == 0 then clock else old(stamp)
    {
      if stamp == 0 {
        stamp := clock;
      }
    }

    /** `zlog_spec_write_time`: the cached text is the uncached one, but for a slot never used
        when the event's second is 0. */
    method WriteTime(lib: Lib, spec: Spec, clock: int, ghost specs: seq<Spec>) returns (out: string)
      requires Coherent(lib, specs) && spec.index < |specs| && specs[spec.index] == spec
      modifies this`stamp, this`localSec, this`local, this`used, caches
      ensures Coherent(lib, specs)
      ensures stamp == if old(stamp) == 0 then clock else old(stamp)
      ensures out == Cached(lib, spec.fmt, stamp, spec.index in old(used))
      ensures used == old(used) + Filled(stamp, spec.index)
    {
      Stamp(clock);
      var now := stamp;
      if localSec != now {
        local := lib.localtime(now);
        localSec := now;
      }
      if caches[spec.index].sec != now {
        caches[spec.index] := Cache(lib.strftime(spec.fmt, local), now);
      }
      if now != 0 {
        used := used + {spec.index};
      }
      out := caches[spec.index].str;
    }
  }

  /** The thread data of src/zlog/src/thread.c. */
  datatype Thread = Thread(version: nat, event: Event)

  /** A text written for a time conversion, and the event's second. */
  datatype Emitted = Emitted(fmt: string, sec: int, text: string)

  /** Which allocation of `zlog_fetch_thread` fails, if any. */
  datatype FetchFailure = NoFailure | NewFails | BufferFails | EventFails

  /** One step of one thread, or of a call that holds the write lock. Reloads whose category
      table update fails are not among them. */
  datatype Step =
    | Init(parsed: Option<Conf>)
    | Reload(parsed: Option<Conf>)
    | Fini
    | Begin(tid: nat, failure: FetchFailure)
    | Time(tid: nat, i: nat, clock: int)
    | Fraction(tid: nat, clock: int)
    | End(tid: nat)
    | Exit(tid: nat)

  ghost predicate StepOk(step: Step) {
    ((step.Init? || step.Reload?) && step.parsed.Some?) ==> ConfOk(step.parsed.value)
  }

  // The reference ---------------------------------------------------------------------------------

  /** What a run depends on, without any cache: for every thread its version and the slots it has
      filled, and for every thread inside a log call the time stamp of its event. */
  datatype Known = Known(version: nat, used: set<nat>)

  datatype View = View(isInit: bool, version: nat, conf: Conf, threads: map<nat, Known>, inside: map<nat, int>)

  const NOTHING := View(false, 0, Conf([], 0), map[], map[])

  /** The lock lets the step happen, and the thread is where it has to be for it. */
  predicate Enabled(v: View, step: Step) {
    match step
    case Init(_) => v.inside == map[]
    case Reload(_) => v.inside == map[]
    case Fini => v.inside == map[]
    case Begin(tid, _) => tid !in v.inside
    case Time(tid, i, _) => tid in v.inside && tid in v.threads && i < |v.conf.specs|
    case Fraction(tid, _) => tid in v.inside
    case End(tid) => tid in v.inside
    case Exit(tid) => tid !in v.inside
  }

  /** The thread gets inside: its data exists and is current, or can be made so. */
  predicate Fetches(v: View, tid: nat, failure: FetchFailure) {
    && v.isInit
    && (if tid !in v.threads then failure != NewFails
        else v.threads[tid].version == v.version || (failure != BufferFails && failure != EventFails))
  }

  predicate Current(v: View, tid: nat) { tid in v.threads && v.threads[tid].version == v.version }

  function Begun(v: View, tid: nat, failure: FetchFailure): View {
    if !Fetches(v, tid, failure) then v
    else
      var v' := if Current(v, tid) then v else v.(threads := v.threads[tid := Known(v.version, {})]);
      v'.(inside := v.inside[tid := 0])
  }

  function Second(v: View, tid: nat, clock: int): int {
    if tid in v.inside && v.inside[tid] != 0 then v.inside[tid] else clock
  }

  /** At second 0 the cache is believed without looking. */
  function Filled(sec: int, i: nat): set<nat> { if sec == 0 then {} else {i} }

  function Timed(v: View, tid: nat, i: nat, clock: int): View
    requires tid in v.threads
  {
    var sec := Second(v, tid, clock);
    var known := v.threads[tid];
    v.(inside := v.inside[tid := sec],
       threads := v.threads[tid := known.(used := known.used + Filled(sec, i))])
  }

  /** What a time conversion writes. */
  function TimeOf(lib: Lib, v: View, tid: nat, i: nat, clock: int): Emitted
    requires tid in v.threads && i < |v.conf.specs|
  {
    var sec, fmt := Second(v, tid, clock), v.conf.specs[i].fmt;
    Emitted(fmt, sec, Cached(lib, fmt, sec, i in v.threads[tid].used))
  }

  /** One step, and what it writes. */
  function Next(lib: Lib, v: View, step: Step): (View, seq<Emitted>)
    requires Enabled(v, step)
  {
    match step
    case Init(parsed) =>
      (if v.isInit || parsed == None then v else v.(isInit := true, version := v.version + 1, conf := parsed.value), [])
    case Reload(parsed) =>
      (if !v.isInit || parsed == None then v else v.(version := v.version + 1, conf := parsed.value), [])
    case Fini => (v.(isInit := false), [])
    case Begin(tid, failure) => (Begun(v, tid, failure), [])
    case Time(tid, i, clock) => (Timed(v, tid, i, clock), [TimeOf(lib, v, tid, i, clock)])
    case Fraction(tid, clock) => (v.(inside := v.inside[tid := Second(v, tid, clock)]), [])
    case End(tid) => (v.(inside := v.inside - {tid}), [])
    case Exit(tid) => (v.(threads := v.threads - {tid}), [])
  }

  /** A whole run; steps that have to wait are not taken. */
  function Reference(lib: Lib, v: View, steps: seq<Step>): (View, seq<Emitted>) {
    if steps == [] then (v, [])
    else
      var (w, out) := Reference(lib, v, steps[..|steps| - 1]);
      var step := steps[|steps| - 1];
      if !Enabled(w, step) then (w, out)
      else
        var (x, more) := Next(lib, w, step);
        (x, out + more)
  }

  predicate ZeroClock(step: Step) {
    (step.Time? || step.Fraction?) && step.clock == 0
  }

  /** Unless the clock shows second 0, every text of a run is the uncached one. */
  lemma {:induction false} AlwaysUncached(lib: Lib, v: View, steps: seq<Step>)
    requires forall i :: 0 <= i < |steps| ==> !ZeroClock(steps[i])
    ensures forall i :: 0 <= i < |Reference(lib, v, steps).1| ==>
              var e := Reference(lib, v, steps).1[i]; e.sec != 0 && e.text == Uncached(lib, e.fmt, e.sec)
  {
    hide Uncached;
    if steps != [] {
      AlwaysUncached(lib, v, steps[..|steps| - 1]);
    }
  }

  // What a run does, step by step -------------------------------------------------------------------

  /** One more step of a run. */
  lemma OneMore(lib: Lib, v: View, steps: seq<Step>, step: Step)
    ensures var (w, out) := Reference(lib, v, steps);
            Reference(lib, v, steps + [step])
            == (if Enabled(w, step) then (Next(lib, w, step).0, out + Next(lib, w, step).1) else (w, out))
  {
    assert (steps + [step])[..|steps|] == steps;
  }

  /** A log call of an initialised process gets through exactly if no allocation it needs fails: one
      for a thread without data, two for data that an initialisation or a reload has made stale. It
      then has no time stamp yet, and its data is current; nothing else changes. */
  lemma CallEnters(lib: Lib, v: View, steps: seq<Step>, tid: nat, failure: FetchFailure)
    requires var w := Reference(lib, v, steps).0; w.isInit && tid !in w.inside
    ensures var (w, out) := Reference(lib, v, steps);
            var (x, more) := Reference(lib, v, steps + [Begin(tid, failure)]);
            var stale := tid in w.threads && w.threads[tid].version != w.version;
            && more == out
            && (tid in x.inside <==>
                  && (tid !in w.threads ==> failure != NewFails)
                  && (stale ==> failure != BufferFails && failure != EventFails))
            && if tid !in x.inside then x == w
               else
                 && x.inside == w.inside[tid := 0]
                 && tid in x.threads && x.threads == w.threads[tid := x.threads[tid]]
                 && x.threads[tid].version == w.version
                 && x.threads[tid].used == (if tid !in w.threads || stale then {} else w.threads[tid].used)
                 && x.conf == w.conf && x.version == w.version && x.isInit
  {
    OneMore(lib, v, steps, Begin(tid, failure));
    hide Reference;
  }

  /** Without failures every thread of an initialised process can log: one text in the format of the
      configuration, for the second that the clock shows. */
  lemma CallWrites(lib: Lib, v: View, steps: seq<Step>, tid: nat, i: nat, clock: int)
    requires var w := Reference(lib, v, steps).0; w.isInit && tid !in w.inside && i < |w.conf.specs|
    ensures var (w, out) := Reference(lib, v, steps);
            var (x, more) := Reference(lib, v, steps + [Begin(tid, NoFailure)] + [Time(tid, i, clock)]);
            && |more| == |out| + 1 && more[..|out|] == out
            && more[|out|].fmt == w.conf.specs[i].fmt && more[|out|].sec == clock
            && (clock != 0 ==> more[|out|].text == lib.strftime(w.conf.specs[i].fmt, lib.localtime(clock)))
            && tid in x.inside && x.inside[tid] == clock && x.conf == w.conf
  {
    CallEnters(lib, v, steps, tid, NoFailure);
    OneMore(lib, v, steps + [Begin(tid, NoFailure)], Time(tid, i, clock));
    hide Reference, Begun, Fetches;
  }

  /** As long as its log call lasts, a thread keeps its time stamp and the configuration, whatever
      other threads do meanwhile and however the clock goes on. */
  lemma {:induction false} CallKeepsSecond(lib: Lib, v: View, steps: seq<Step>, more: seq<Step>,
                                           tid: nat, i: nat, clock: int)
    requires var w := Reference(lib, v, steps).0;
             tid in w.inside && w.inside[tid] != 0 && tid in w.threads && i < |w.conf.specs|
    requires End(tid) !in more
    ensures var w, (x, out) := Reference(lib, v, steps).0, Reference(lib, v, steps + more);
            var (y, last) := Reference(lib, v, steps + more + [Time(tid, i, clock)]);
            && tid in x.inside && x.inside[tid] == w.inside[tid] && x.conf == w.conf && tid in x.threads
            && |last| == |out| + 1 && last[..|out|] == out
            && last[|out|].fmt == w.conf.specs[i].fmt && last[|out|].sec == w.inside[tid]
            && last[|out|].text == lib.strftime(w.conf.specs[i].fmt, lib.localtime(w.inside[tid]))
    decreases |more|
  {
    if more == [] {
      assert steps + more == steps;
    } else {
      var n := |more| - 1;
      CallKeepsSecond(lib, v, steps, more[..n], tid, i, clock);
      assert steps + more == steps + more[..n] + [more[n]];
      OneMore(lib, v, steps + more[..n], more[n]);
      StampStays(lib, Reference(lib, v, steps + more[..n]).0, more[n], tid);
    }
    OneMore(lib, v, steps + more, Time(tid, i, clock));
    hide Reference, Next;
    NextTime(lib, Reference(lib, v, steps + more).0, tid, i, clock);
  }

  lemma NextTime(lib: Lib, v: View, tid: nat, i: nat, clock: int)
    requires Enabled(v, Time(tid, i, clock))
    ensures Next(lib, v, Time(tid, i, clock)).1 == [TimeOf(lib, v, tid, i, clock)]
  {
  }

  lemma StampStays(lib: Lib, v: View, step: Step, tid: nat)
    requires tid in v.inside && v.inside[tid] != 0 && tid in v.threads && step != End(tid)
    ensures Enabled(v, step) ==>
              var w := Next(lib, v, step).0;
              tid in w.inside && w.inside[tid] == v.inside[tid] && w.conf == v.conf && tid in w.threads
  {
  }

  /** No thread has data from the future. */
  ghost predicate Past(v: View) {
    forall t :: t in v.threads ==> v.threads[t].version <= v.version
  }

  lemma {:induction false} AlwaysPast(lib: Lib, v: View, steps: seq<Step>)
    requires Past(v)
    ensures Past(Reference(lib, v, steps).0)
  {
    if steps != [] {
      AlwaysPast(lib, v, steps[..|steps| - 1]);
    }
  }

  /** A configuration, from an initialisation or from a reload. */
  function Configure(v: View, conf: Conf): Step {
    if v.isInit then Reload(Some(conf)) else Init(Some(conf))
  }

  /** A new configuration waits until no thread is inside a log call, and then makes the data of
      every thread stale. */
  lemma ConfArrives(lib: Lib, v: View, steps: seq<Step>, conf: Conf)
    requires Past(v)
    ensures var (w, out) := Reference(lib, v, steps);
            var (x, more) := Reference(lib, v, steps + [Configure(w, conf)]);
            && more == out
            && if w.inside != map[] then x == w
               else
                 && x.isInit && x.conf == conf && x.inside == map[] && x.threads == w.threads
                 && forall t :: t in x.threads ==> x.threads[t].version != x.version
  {
    OneMore(lib, v, steps, Configure(Reference(lib, v, steps).0, conf));
    AlwaysPast(lib, v, steps);
    hide Reference;
    var w := Reference(lib, v, steps).0;
    assert w.inside == map[] <==> Enabled(w, Configure(w, conf));
  }

  /** Once it is there, every thread logs in its formats, with none of its old texts. */
  lemma NewFormats(lib: Lib, v: View, steps: seq<Step>, conf: Conf, tid: nat, i: nat, clock: int)
    requires Past(v) && i < |conf.specs| && Reference(lib, v, steps).0.inside == map[]
    ensures var (w, out) := Reference(lib, v, steps);
            var last :=
              Reference(lib, v, steps + [Configure(w, conf)] + [Begin(tid, NoFailure)] + [Time(tid, i, clock)]).1;
            && |last| == |out| + 1 && last[..|out|] == out
            && last[|out|].fmt == conf.specs[i].fmt && last[|out|].sec == clock
            && (clock != 0 ==> last[|out|].text == lib.strftime(conf.specs[i].fmt, lib.localtime(clock)))
  {
    hide *;
    ConfArrives(lib, v, steps, conf);
    CallWrites(lib, v, steps + [Configure(Reference(lib, v, steps).0, conf)], tid, i, clock);
  }

  /** A configuration that does not parse, a second initialisation and a reload before the first one
      change nothing. */
  lemma NothingNew(lib: Lib, v: View, steps: seq<Step>, conf: Option<Conf>)
    ensures var w := Reference(lib, v, steps).0;
            forall step :: step in {Init(None), Reload(None), if w.isInit then Init(conf) else Reload(conf)} ==>
              Reference(lib, v, steps + [step]) == Reference(lib, v, steps)
  {
    var (w, out) := Reference(lib, v, steps);
    assert out + [] == out;
    forall step | step in {Init(None), Reload(None), if w.isInit then Init(conf) else Reload(conf)}
      ensures Reference(lib, v, steps + [step]) == Reference(lib, v, steps)
    {
      OneMore(lib, v, steps, step);
      hide Reference;
    }
  }

  /** `zlog_fini` waits until no thread is inside, and then none gets inside any more. */
  lemma Finished(lib: Lib, v: View, steps: seq<Step>, tid: nat, failure: FetchFailure)
    ensures var w := Reference(lib, v, steps).0;
            && Reference(lib, v, steps + [Fini]).0 == (if w.inside == map[] then w.(isInit := false) else w)
            && (!w.isInit ==> Reference(lib, v, steps + [Begin(tid, failure)]).0 == w)
  {
    OneMore(lib, v, steps, Begin(tid, failure));
    OneMore(lib, v, steps, Fini);
    hide Reference;
  }

  /** A fraction of a second is the first to look at the clock, or looks at the time stamp. */
  lemma FractionStamps(lib: Lib, v: View, steps: seq<Step>, tid: nat, clock: int)
    requires tid in Reference(lib, v, steps).0.inside
    ensures var (w, out) := Reference(lib, v, steps);
            Reference(lib, v, steps + [Fraction(tid, clock)]).0
            == w.(inside := w.inside[tid := if w.inside[tid] == 0 then clock else w.inside[tid]])
  {
    OneMore(lib, v, steps, Fraction(tid, clock));
    hide Reference;
  }

  /** A log call ends for its thread alone, and a thread outside takes its data along. */
  lemma CallEnds(lib: Lib, v: View, steps: seq<Step>, tid: nat)
    ensures var w := Reference(lib, v, steps).0;
            && (tid in w.inside ==> Reference(lib, v, steps + [End(tid)]).0 == w.(inside := w.inside - {tid}))
            && (tid !in w.inside ==> Reference(lib, v, steps + [Exit(tid)]).0 == w.(threads := w.threads - {tid}))
  {
    OneMore(lib, v, steps, End(tid));
    OneMore(lib, v, steps, Exit(tid));
    hide Reference;
  }

  // The process -----------------------------------------------------------------------------------

  class Process {
    const lib: Lib
    var isInit: bool
    var version: nat
    var conf: Conf
    var threads: map<nat, Thread>
    /** The threads that are inside a log call, with the read lock held. */
    var inside: set<nat>

    ghost function Events(): set<Event>
      reads `threads
    {
      set tid | tid in threads :: threads[tid].event
    }

    ghost function Slots(): set<array<Cache>>
      reads `threads, Events()`caches
    {
      set tid | tid in threads :: threads[tid].event.caches
    }

    ghost function KnownThreads(): map<nat, Known>
      reads `threads, Events()`used
    {
      map tid | tid in threads :: Known(threads[tid].version, threads[tid].event.used)
    }

    ghost function Stamps(): map<nat, int>
      reads `threads, `inside, Events()`stamp
    {
      map tid | tid in inside && tid in threads :: threads[tid].event.stamp
    }

    ghost function Seen(): View
      reads this, Events()
    {
      View(isInit, version, conf, KnownThreads(), Stamps())
    }

    /** No two threads share an event or its caches. */
    ghost predicate Apart()
      reads this, Events()
    {
      forall t, u :: t in threads && u in threads && t != u ==>
        threads[t].event != threads[u].event && threads[t].event.caches != threads[u].event.caches
    }

    /** A thread of the current version has caches for the current configuration; all others are
        from the past. */
    ghost predicate UpToDate(tid: nat)
      requires tid in threads
      reads this, Events(), Slots()
    {
      && threads[tid].version <= version
      && (isInit && threads[tid].version == version ==> threads[tid].event.Coherent(lib, conf.specs))
    }

    ghost predicate Valid()
      reads this, Events(), Slots()
    {
      && Apart()
      && (isInit ==> ConfOk(conf))
      && (forall tid :: tid in threads ==> UpToDate(tid))
      && (forall tid :: tid in inside ==> isInit && tid in threads && threads[tid].version == version)
    }

    constructor (lib: Lib)
      ensures Valid() && fresh(Events()) && fresh(Slots())
      ensures this.lib == lib && Seen() == NOTHING
    {
      this.lib := lib;
      isInit, version, threads, inside := false, 0, map[], {};
      conf := Conf([], 0);
    }

    /** `zlog_init`. */
    method DoInit(parsed: Option<Conf>)
      requires Valid() && inside == {} && (parsed.Some? ==> ConfOk(parsed.value))
      modifies this`isInit, this`version, this`conf
      ensures Valid()
      ensures Seen() == if old(isInit) || parsed == None then old(Seen())
                        else old(Seen()).(isInit := true, version := old(version) + 1, conf := parsed.value)
    {
      if isInit || parsed == None {
        return;
      }
      isInit, version, conf := true, version + 1, parsed.value;
    }

    /** `zlog_reload`. */
    method DoReload(parsed: Option<Conf>)
      requires Valid() && inside == {} && (parsed.Some? ==> ConfOk(parsed.value))
      modifies this`version, this`conf
      ensures Valid()
      ensures Seen() == if !isInit || parsed == None then old(Seen())
                        else old(Seen()).(version := old(version) + 1, conf := parsed.value)
    {
      if !isInit || parsed == None {
        return;
      }
      version, conf := version + 1, parsed.value;
    }

    /** Fresh caches for the current configuration (`zlog_thread_new`, `zlog_thread_rebuild_event`). */
    method Renew(tid: nat)
      requires Valid() && isInit && tid !in inside
      modifies this`threads
      ensures Valid() && fresh(Events() - old(Events())) && fresh(Slots() - old(Slots()))
      ensures threads.Keys == old(threads.Keys) + {tid} && threads[tid].version == version
      ensures forall t :: t in old(threads) && t != tid ==> threads[t] == old(threads)[t]
      ensures Seen() == old(Seen()).(threads := old(KnownThreads())[tid := Known(version, {})])
    {
      hide CacheOk, KnownThreads, Stamps;
      var e := new Event(conf.count);
      assert e.Coherent(lib, conf.specs) by {
        FreshIsOk(lib, conf.specs);
      }
      Install(tid, e);
      Renewed(tid, e);
    }

    method Install(tid: nat, e: Event)
      requires Valid() && isInit && tid !in inside && e.Coherent(lib, conf.specs)
      requires e !in Events() && e.caches !in Slots()
      modifies this`threads
      ensures Valid() && threads == old(threads)[tid := Thread(version, e)]
      ensures Events() <= old(Events()) + {e} && Slots() <= old(Slots()) + {e.caches}
    {
      hide CacheOk, ConfOk;
      threads := threads[tid := Thread(version, e)];
      assert forall t :: t in threads && t != tid ==> t in old(threads) && old(UpToDate(t));
    }

    /** What a new event for thread `tid` changes for others to see. */
    twostate lemma Renewed(tid: nat, new e: Event)
      requires threads == old(threads)[tid := Thread(version, e)] && e.used == {} && tid !in inside
      requires inside == old(inside)
      requires forall t :: t in old(threads) ==> unchanged(old(threads)[t].event)
      ensures KnownThreads() == old(KnownThreads())[tid := Known(version, {})]
      ensures Stamps() == old(Stamps())
    {
    }

    /** `zlog_fetch_thread`. */
    method Fetch(tid: nat, failure: FetchFailure) returns (ok: bool)
      requires Valid() && isInit && tid !in inside
      modifies this`threads
      ensures Valid() && fresh(Events() - old(Events())) && fresh(Slots() - old(Slots()))
      ensures ok == Fetches(old(Seen()), tid, failure)
      ensures ok ==> tid in threads && threads[tid].version == version
      ensures Seen() == if !ok || Current(old(Seen()), tid) then old(Seen())
                        else old(Seen()).(threads := old(KnownThreads())[tid := Known(version, {})])
    {
      hide Valid, Stamps;
      if tid !in threads {
        if failure == NewFails {
          return false;
        }
        Renew(tid);
      }
      if threads[tid].version != version {
        if failure == BufferFails || failure == EventFails {
          return false;
        }
        Renew(tid);
      }
      ok := true;
    }

    /** A log call up to `zlog_event_set_fmt`: lock, `zlog_fetch_thread`, reset the time stamp. */
    method DoBegin(tid: nat, failure: FetchFailure)
      requires Valid() && tid !in inside
      modifies this`threads, this`inside, Events()`stamp
      ensures Valid() && fresh(Events() - old(Events())) && fresh(Slots() - old(Slots()))
      ensures Seen() == Begun(old(Seen()), tid, failure)
    {
      hide Valid, KnownThreads, Stamps;
      if !isInit {
        return;
      }
      var ok := Fetch(tid, failure);
      if ok {
        Enter(tid);
      }
    }

    /** The thread is inside, with a new event. */
    method Enter(tid: nat)
      requires Valid() && isInit && tid !in inside && tid in threads && threads[tid].version == version
      modifies this`inside, threads[tid].event`stamp
      ensures Valid() && Seen() == old(Seen()).(inside := old(Stamps())[tid := 0])
    {
      hide CacheOk, ConfOk, KnownThreads;
      ClearStamp(tid);
      inside := inside + {tid};
      assert Stamps() == old(Stamps())[tid := 0];
    }

    method ClearStamp(tid: nat)
      requires Valid() && tid in threads
      modifies threads[tid].event`stamp
      ensures Valid() && KnownThreads() == old(KnownThreads())
      ensures threads[tid].event.stamp == 0
      ensures forall t :: t in threads && t != tid ==> threads[t].event.stamp == old(threads[t].event.stamp)
    {
      hide CacheOk, ConfOk;
      threads[tid].event.Reset();
      assert KnownThreads() == old(KnownThreads());
    }

    /** A time conversion of the event of a thread inside a log call. The slot is in bounds by the
        precondition of `WriteTime`, and no other thread is touched. */
    method Convert(tid: nat, i: nat, clock: int) returns (text: string)
      requires Valid() && tid in inside && tid in threads && i < |conf.specs|
      modifies threads[tid].event`stamp, threads[tid].event`localSec, threads[tid].event`local
      modifies threads[tid].event`used, threads[tid].event.caches
      ensures Valid()
      ensures threads[tid].event.stamp
           == if old(threads[tid].event.stamp) == 0 then clock else old(threads[tid].event.stamp)
      ensures text == Cached(lib, conf.specs[i].fmt, threads[tid].event.stamp, i in old(threads[tid].event.used))
      ensures threads[tid].event.used == old(threads[tid].event.used) + Filled(threads[tid].event.stamp, i)
    {
      hide CacheOk, Cached;
      assert UpToDate(tid);
      text := threads[tid].event.WriteTime(lib, conf.specs[i], clock, conf.specs);
    }

    /** What a time conversion changes for others to see. */
    method ConvertSeen(tid: nat, i: nat, clock: int) returns (text: string)
      requires Valid() && tid in inside && tid in threads && i < |conf.specs|
      modifies threads[tid].event`stamp, threads[tid].event`localSec, threads[tid].event`local
      modifies threads[tid].event`used, threads[tid].event.caches
      ensures Valid() && tid in old(KnownThreads())
      ensures threads[tid].event.stamp
           == if old(threads[tid].event.stamp) == 0 then clock else old(threads[tid].event.stamp)
      ensures text == Cached(lib, conf.specs[i].fmt, threads[tid].event.stamp, i in old(threads[tid].event.used))
      ensures Stamps() == old(Stamps())[tid := threads[tid].event.stamp]
      ensures KnownThreads() == var known := old(KnownThreads());
                known[tid := known[tid].(used := known[tid].used + Filled(threads[tid].event.stamp, i))]
    {
      EventsApart(tid);
      hide Valid, Cached, Filled;
      text := Convert(tid, i, clock);
    }

    /** A time conversion inside a log call. */
    method DoTime(tid: nat, i: nat, clock: int) returns (e: Emitted)
      requires Valid() && tid in inside && tid in threads && i < |conf.specs|
      modifies threads[tid].event`stamp, threads[tid].event`localSec, threads[tid].event`local
      modifies threads[tid].event`used, threads[tid].event.caches
      ensures Valid() && tid in old(Seen()).threads && Seen() == Timed(old(Seen()), tid, i, clock)
      ensures e == TimeOf(lib, old(Seen()), tid, i, clock)
    {
      EventSeen(tid);
      hide Valid, Cached, Filled, KnownThreads, Stamps;
      var text := ConvertSeen(tid, i, clock);
      e := Emitted(conf.specs[i].fmt, threads[tid].event.stamp, text);
    }

    lemma EventSeen(tid: nat)
      requires tid in inside && tid in threads
      ensures tid in KnownThreads() && KnownThreads()[tid].used == threads[tid].event.used
      ensures tid in Stamps() && Stamps()[tid] == threads[tid].event.stamp
    {
    }

    lemma EventsApart(tid: nat)
      requires Valid() && tid in inside
      ensures tid in threads && threads[tid].event in Events() && threads[tid].event.caches in Slots()
      ensures forall t :: t in threads && t != tid ==> threads[t].event != threads[tid].event
    {
    }

    /** `%ms` and `%us` may be the first to take the time stamp of the event. */
    method DoFraction(tid: nat, clock: int)
      requires Valid() && tid in inside
      modifies Events()`stamp
      ensures Valid() && Events() == old(Events()) && Slots() == old(Slots())
      ensures Seen() == old(Seen()).(inside := old(Stamps())[tid := Second(old(Seen()), tid, clock)])
    {
      hide CacheOk;
      assert UpToDate(tid);
      threads[tid].event.Stamp(clock);
      assert KnownThreads() == old(KnownThreads());
      assert Stamps() == old(Stamps())[tid := Second(old(Seen()), tid, clock)];
    }

    /** `zlog_fini`. */
    method DoFini()
      requires Valid() && inside == {}
      modifies this`isInit
      ensures Valid() && Seen() == old(Seen()).(isInit := false)
    {
      isInit := false;
    }

    /** The end of a log call. */
    method DoEnd(tid: nat)
      requires Valid() && tid in inside
      modifies this`inside
      ensures Valid() && Seen() == old(Seen()).(inside := old(Stamps()) - {tid})
    {
      inside := inside - {tid};
      assert Stamps() == old(Stamps()) - {tid};
    }

    /** The end of a thread: `zlog_thread_del`. */
    method DoExit(tid: nat)
      requires Valid() && tid !in inside
      modifies this`threads
      ensures Valid() && Events() <= old(Events()) && Slots() <= old(Slots())
      ensures Seen() == old(Seen()).(threads := old(KnownThreads()) - {tid})
    {
      hide Valid;
      Drop(tid);
      assert KnownThreads() == old(KnownThreads()) - {tid};
      assert Stamps() == old(Stamps());
    }

    method Drop(tid: nat)
      requires Valid() && tid !in inside
      modifies this`threads
      ensures Valid() && threads == old(threads) - {tid}
    {
      hide CacheOk, ConfOk;
      assert forall t :: t in threads ==> UpToDate(t);
      threads := threads - {tid};
    }

    lemma InsideIsSeen(step: Step)
      requires Valid()
      ensures inside == Seen().inside.Keys && threads.Keys == Seen().threads.Keys
      ensures Enabled(Seen(), step) <==> CanStep(step)
    {
      assert inside == Stamps().Keys;
      assert inside == {} <==> Stamps() == map[];
    }

    /** The lock lets the step happen, and the thread is where it has to be for it. */
    predicate CanStep(step: Step)
      reads this
    {
      match step
      case Init(_) => inside == {}
      case Reload(_) => inside == {}
      case Fini => inside == {}
      case Begin(tid, _) => tid !in inside
      case Time(tid, i, _) => tid in inside && i < |conf.specs|
      case Fraction(tid, _) => tid in inside
      case End(tid) => tid in inside
      case Exit(tid) => tid !in inside
    }

    /** The steps that hold the write lock. */
    method PerformLocked(step: Step)
      requires Valid() && StepOk(step) && CanStep(step) && (step.Init? || step.Reload? || step.Fini?)
      modifies this`isInit, this`version, this`conf
      ensures Valid() && Enabled(old(Seen()), step) && (Seen(), []) == Next(lib, old(Seen()), step)
    {
      InsideIsSeen(step);
      hide Valid, KnownThreads, Stamps;
      match step
      case Init(parsed) => DoInit(parsed);
      case Reload(parsed) => DoReload(parsed);
      case Fini => DoFini();
    }

    /** The steps of one thread that write nothing. */
    method PerformSilent(step: Step)
      requires Valid() && CanStep(step) && (step.Begin? || step.Fraction? || step.End? || step.Exit?)
      modifies this`threads, this`inside, Events()`stamp
      ensures Valid() && fresh(Events() - old(Events())) && fresh(Slots() - old(Slots()))
      ensures Enabled(old(Seen()), step) && (Seen(), []) == Next(lib, old(Seen()), step)
    {
      InsideIsSeen(step);
      hide Valid, KnownThreads, Stamps, Begun;
      match step
      case Begin(tid, failure) => DoBegin(tid, failure);
      case Fraction(tid, clock) => DoFraction(tid, clock);
      case End(tid) => DoEnd(tid);
      case Exit(tid) => DoExit(tid);
    }

    /** Every step does to the process what it does to the reference, and writes the same. */
    method Perform(step: Step) returns (out: seq<Emitted>)
      requires Valid() && StepOk(step) && CanStep(step)
      modifies this, Events(), Slots()
      ensures Valid() && fresh(Events() - old(Events())) && fresh(Slots() - old(Slots()))
      ensures Enabled(old(Seen()), step) && (Seen(), out) == Next(lib, old(Seen()), step)
    {
      hide Valid, KnownThreads, Stamps, Begun, Timed, TimeOf;
      out := [];
      if step.Time? {
        InsideIsSeen(step);
        EventsApart(step.tid);
        var e := DoTime(step.tid, step.i, step.clock);
        out := [e];
      } else if step.Init? || step.Reload? || step.Fini? {
        PerformLocked(step);
      } else {
        PerformSilent(step);
      }
    }

    /** Any run of any number of threads writes exactly what the reference writes, and so nothing
        but uncached texts unless the clock shows second 0. */
    method Run(steps: seq<Step>) returns (out: seq<Emitted>)
      requires Valid() && forall i :: 0 <= i < |steps| ==> StepOk(steps[i])
      modifies this, Events(), Slots()
      ensures Valid()
      ensures (Seen(), out) == Reference(lib, old(Seen()), steps)
      ensures (forall i :: 0 <= i < |steps| ==> !ZeroClock(steps[i])) ==>
                forall i :: 0 <= i < |out| ==> out[i].sec != 0 && out[i].text == Uncached(lib, out[i].fmt, out[i].sec)
    {
      hide Uncached, KnownThreads, Stamps;
      out := [];
      ghost var v := Seen();
      for n := 0 to |steps|
        invariant Valid() && fresh(Events() - old(Events())) && fresh(Slots() - old(Slots()))
        invariant (Seen(), out) == Reference(lib, v, steps[..n])
      {
        assert steps[..n + 1][..n] == steps[..n];
        InsideIsSeen(steps[n]);
        if CanStep(steps[n]) {
          var more := Perform(steps[n]);
          out := out + more;
        }
      }
      assert steps[..|steps|] == steps;
      if forall i :: 0 <= i < |steps| ==> !ZeroClock(steps[i]) {
        AlwaysUncached(lib, v, steps);
      }
    }
  }

  /** The cache does fail at the clock's second 0: the first time conversion of a new event is
      then empty, which is right exactly when the uncached text is empty too. */
  method EpochLost(lib: Lib, fmt: string) returns (text: string)
    ensures text == ""
    ensures text == Uncached(lib, fmt, 0) <==> Uncached(lib, fmt, 0) == ""
  {
    var e := new Event(1);
    e.Reset();
    text := e.WriteTime(lib, Spec(fmt, 0), 0, [Spec(fmt, 0)]);
  }

  lemma FreshIsOk(lib: Lib, specs: seq<Spec>)
    ensures forall i :: 0 <= i < |specs| ==> CacheOk(lib, FRESH, specs[i].fmt, false)
  {
  }
}
