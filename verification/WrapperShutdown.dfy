/**
  The detached wrapper around an inner pipeline run (core/scripts/detach.ts).
  Handlers run to completion; a run is any interleaving of them, of the waits of
  the abnormal shutdown and of what happens to the inner process.
*/
module WrapperShutdown {
  import opened Prelude

  datatype Cause = Sigterm | Watchdog | Uncaught

  function Code(c: Cause): int {
    match c
    case Sigterm => 143
    case Watchdog => -1
    case Uncaught => 1
  }

  datatype Sentinel = Sentinel(code: int, timedOut: bool)

  datatype Verdict = Confirmed | Unconfirmed

  /** Where the abnormal shutdown stands; a wait has a result once the child closed or its timer fired. */
  datatype Phase =
    | Idle | SoftWait(result: Option<bool>) | HardWait(result: Option<bool>) | Settling(exited: bool) | Settled(verdict: Verdict)

  datatype Main = Starting | Waiting(resolved: Option<int>) | Returned

  /** What is true of the inner process, and what was seen of it. */
  datatype Inner = Inner(alive: bool, exitSeen: bool, errorSeen: bool, killSent: bool)

  /** `writes` counts the sentinels written and `sentinel` is the last of them. */
  datatype Report = Report(sentinelWritten: bool, writes: nat, sentinel: Option<Sentinel>)

  datatype State = State(
    main: Main, shuttingDown: bool, watchdogArmed: bool, report: Report,
    phase: Phase, exitCode: int, lockHeld: bool, exited: Option<int>, inner: Inner)

  /**
    `refused` says that the inner process refuses a signal: it then emits an error at
    once, before the next wait listens for one, so that only the main flow hears it.
    The helpers that signal catch whatever the system throws.
  */
  datatype Event =
    | Spawned(runs: bool)       // the inner process was spawned; it may fail to start
    | SpawnThrows
    | Dies | ExitSeen           // the inner process is gone; the runtime has noticed
    | Close(code: int)          // the inner process closed
    | Error                     // the inner process could not be started
    | Begin(cause: Cause, refused: bool)
    | Timer                     // the timer of the current wait fires
    | Continue(refused: bool)   // the shutdown goes on after its current wait
    | Resume                    // the main flow goes on after the inner process closed
    | Crash                     // SIGKILL of the wrapper: no handler runs

  function Init(watchdog: bool): State {
    State(Starting, false, watchdog, Report(false, 0, None), Idle, 0, true, None, Inner(false, false, false, false))
  }

  function WriteSentinel(r: Report, code: int, timedOut: bool): Report {
    if r.sentinelWritten then r else Report(true, r.writes + 1, Some(Sentinel(code, timedOut)))
  }

  /** Leave through the exit handler. */
  function Exit(s: State, code: int): State {
    s.(report := WriteSentinel(s.report, code, false), lockHeld := false, exited := Some(code))
  }

  /** A wait that starts now: it has its result already if the child is known to be gone. */
  function NewWait(i: Inner): Option<bool> {
    if i.exitSeen then Some(true) else None
  }

  /** A close or error event settles the wait that is under way. */
  function Notify(p: Phase): Phase {
    if p == SoftWait(None) then SoftWait(Some(true))
    else if p == HardWait(None) then HardWait(Some(true))
    else p
  }

  function Resolve(m: Main, code: int): Main {
    if m == Waiting(None) then Waiting(Some(code)) else m
  }

  function Refused(m: Main, refused: bool): Main {
    if refused then Resolve(m, 1) else m
  }

  function BeginShutdown(s: State, cause: Cause, refused: bool): State {
    if s.shuttingDown then s
    else
      s.(shuttingDown := true, watchdogArmed := false,
         report := WriteSentinel(s.report, Code(cause), cause.Watchdog?), exitCode := Code(cause),
         main := Refused(s.main, refused), phase := SoftWait(NewWait(s.inner)))
  }

  function ContinueShutdown(s: State, refused: bool): State {
    var p := s.phase;
    if p.SoftWait? && p.result.Some? then
      if p.result.value then s.(phase := Settled(Confirmed))
      else s.(main := Refused(s.main, refused), inner := s.inner.(killSent := true), phase := HardWait(NewWait(s.inner)))
    else if p.HardWait? && p.result.Some? then s.(phase := Settling(p.result.value))
    else if p.Settling? then s.(phase := Settled(if p.exited then Confirmed else Unconfirmed))
    else if p.Settled? then Exit(s, if s.exitCode == -1 then 1 else s.exitCode)
    else s
  }

  function ResumeMain(s: State): State {
    if !s.main.Waiting? || s.main.resolved.None? then s
    else
      var t := s.(main := Returned, watchdogArmed := false);
      if s.shuttingDown then t else Exit(t, s.main.resolved.value)
  }

  /** What the runtime and the operating system allow. */
  predicate Enabled(s: State, e: Event) {
    && s.exited.None?
    && match e
       case Spawned(_) => s.main.Starting?
       case SpawnThrows => s.main.Starting?
       case Dies => s.inner.alive
       case ExitSeen => !s.main.Starting? && !s.inner.alive
       case Close(_) => s.inner.exitSeen
       case Error => !s.main.Starting? && !s.inner.alive
       case Begin(cause, _) => !s.main.Starting? && (cause.Watchdog? ==> s.watchdogArmed)
       case Timer => s.phase == SoftWait(None) || s.phase == HardWait(None)
       case Continue(_) => s.phase.Settling? || s.phase.Settled? || ((s.phase.SoftWait? || s.phase.HardWait?) && s.phase.result.Some?)
       case Resume => s.main.Waiting? && s.main.resolved.Some?
       case Crash => true
  }

  function Apply(s: State, e: Event): State {
    match e
    case Spawned(runs) => s.(main := Waiting(None), inner := s.inner.(alive := runs))
    case SpawnThrows => Exit(s, 1)
    case Dies => s.(inner := s.inner.(alive := false))
    case ExitSeen => s.(inner := s.inner.(exitSeen := true))
    case Close(code) => s.(main := Resolve(s.main, code), phase := Notify(s.phase))
    case Error => s.(main := Resolve(s.main, 1), phase := Notify(s.phase), inner := s.inner.(errorSeen := true))
    case Begin(cause, refused) => BeginShutdown(s, cause, refused)
    case Timer => s.(phase := if s.phase.SoftWait? then SoftWait(Some(false)) else HardWait(Some(false)))
    case Continue(refused) => ContinueShutdown(s, refused)
    case Resume => ResumeMain(s)
    case Crash => s.(exited := Some(137))
  }

  // ----- The wrapper -----

  /**
    The variables of the wrapper, and what is true of its inner process. `trace` is
    the run so far; what holds after every run holds after every handler.
  */
  class Wrapper {
    const watchdog: bool
    ghost var trace: seq<Event>
    var main: Main
    var shuttingDown: bool
    var watchdogArmed: bool
    var report: Report
    var phase: Phase
    var exitCode: int
    var lockHeld: bool
    var exited: Option<int>
    var inner: Inner

    function Now(): State
      reads this
    {
      State(main, shuttingDown, watchdogArmed, report, phase, exitCode, lockHeld, exited, inner)
    }

    ghost predicate Valid()
      reads this
    {
      Possible(Init(watchdog), trace) && Now() == After(Init(watchdog), trace)
    }

    constructor (watchdog: bool)
      ensures Valid() && trace == [] && Now() == Init(watchdog)
    {
      this.watchdog, trace := watchdog, [];
      main, shuttingDown, watchdogArmed, report := Starting, false, watchdog, Report(false, 0, None);
      phase, exitCode, lockHeld, exited := Idle, 0, true, None;
      inner := Inner(false, false, false, false);
    }

    method DoWriteSentinel(code: int, timedOut: bool)
      modifies this`report
      ensures report == WriteSentinel(old(report), code, timedOut)
    {
      if report.sentinelWritten { return; }
      report := report.(sentinelWritten := true);
      report := report.(writes := report.writes + 1, sentinel := Some(Sentinel(code, timedOut)));
    }

    method ExitProcess(code: int)
      modifies this
      ensures Now() == Exit(old(Now()), code)
      ensures trace == old(trace)
    {
      DoWriteSentinel(code, false);
      lockHeld := false;
      exited := Some(code);
    }

    /** Up to the first wait of the termination. */
    method BeginAbnormalShutdown(cause: Cause, refused: bool)
      modifies this
      ensures Now() == BeginShutdown(old(Now()), cause, refused)
      ensures trace == old(trace)
    {
      if shuttingDown { return; }
      shuttingDown := true;
      watchdogArmed := false;
      DoWriteSentinel(Code(cause), cause.Watchdog?);
      exitCode := Code(cause);
      main := Refused(main, refused);
      phase := SoftWait(if inner.exitSeen then Some(true) else None);
    }

    /** From one wait of the termination to the next, and at last out of the process. */
    method ContinueAfterWait(refused: bool)
      modifies this
      ensures Now() == ContinueShutdown(old(Now()), refused)
      ensures trace == old(trace)
    {
      if phase.Settled? {
        ExitProcess(if exitCode == -1 then 1 else exitCode);
      } else if phase.Settling? {
        phase := Settled(if phase.exited then Confirmed else Unconfirmed);
      } else if phase.HardWait? && phase.result.Some? {
        phase := Settling(phase.result.value);
      } else if phase.SoftWait? && phase.result.Some? {
        if phase.result.value {
          phase := Settled(Confirmed);
        } else {
          main := Refused(main, refused);
          inner := inner.(killSent := true);
          phase := HardWait(if inner.exitSeen then Some(true) else None);
        }
      }
    }

    /** A close or error event of the inner process. */
    method InnerEnded(code: int)
      modifies this
      ensures Now() == old(Now()).(main := Resolve(old(main), code), phase := Notify(old(phase)))
      ensures trace == old(trace)
    {
      main := Resolve(main, code);
      phase := Notify(phase);
    }

    method AfterInner()
      modifies this
      ensures Now() == ResumeMain(old(Now()))
      ensures trace == old(trace)
    {
      if !main.Waiting? || main.resolved.None? { return; }
      var code := main.resolved.value;
      main := Returned;
      watchdogArmed := false;
      if !shuttingDown { ExitProcess(code); }
    }

    method Handle(e: Event)
      requires Valid() && Enabled(Now(), e)
      modifies this
      ensures Valid() && trace == old(trace) + [e] && Now() == Apply(old(Now()), e)
      ensures report.writes <= 1 && report.sentinel == Expected(trace)
      ensures !lockHeld ==> EndKnown(Now())
      ensures !lockHeld && inner.alive ==> Abandoned(Now())
    {
      React(e);
      Extend(Init(watchdog), trace, e);
      trace := trace + [e];
      SentinelWrittenOnce(watchdog, trace);
      LockAlways(watchdog, trace);
      if !lockHeld && inner.alive { LiveRelease(Now()); }
    }

    method React(e: Event)
      requires Enabled(Now(), e)
      modifies this
      ensures Now() == Apply(old(Now()), e) && trace == old(trace)
    {
      match e {
        case Spawned(runs) => main, inner := Waiting(None), inner.(alive := runs);
        case SpawnThrows => ExitProcess(1);
        case Dies => inner := inner.(alive := false);
        case ExitSeen => inner := inner.(exitSeen := true);
        case Close(code) => InnerEnded(code);
        case Error => InnerEnded(1); inner := inner.(errorSeen := true);
        case Begin(cause, refused) => BeginAbnormalShutdown(cause, refused);
        case Timer => phase := if phase.SoftWait? then SoftWait(Some(false)) else HardWait(Some(false));
        case Continue(refused) => ContinueAfterWait(refused);
        case Resume => AfterInner();
        case Crash => exited := Some(137);
      }
    }
  }

  // ----- Runs -----

  ghost function After(s: State, es: seq<Event>): State
    decreases |es|
  {
    if es == [] then s else Apply(After(s, es[..|es| - 1]), es[|es| - 1])
  }

  /** Every event is allowed where it happens. */
  ghost predicate Possible(s: State, es: seq<Event>)
    decreases |es|
  {
    es != [] ==> Possible(s, es[..|es| - 1]) && Enabled(After(s, es[..|es| - 1]), es[|es| - 1])
  }

  /** The code the main flow gets: that of the first close or error event. */
  ghost function FirstCode(es: seq<Event>): Option<int> {
    if es == [] then None
    else
      var before, e := FirstCode(es[..|es| - 1]), es[|es| - 1];
      if before.Some? then before else if e.Close? then Some(e.code) else if e.Error? then Some(1) else None
  }

  /** The sentinel an event writes in a run that has none yet; `code` is what the main flow gets. */
  function Written(e: Event, code: Option<int>): Option<Sentinel> {
    match e
    case Begin(Sigterm, _) => Some(Sentinel(143, false))
    case Begin(Watchdog, _) => Some(Sentinel(-1, true))
    case Begin(Uncaught, _) => Some(Sentinel(1, false))
    case SpawnThrows => Some(Sentinel(1, false))
    case Resume => if code.Some? then Some(Sentinel(code.value, false)) else None
    case _ => None
  }

  /** The sentinel a run must write: that of the first thing that ends it. */
  ghost function Expected(es: seq<Event>): Option<Sentinel> {
    if es == [] then None
    else
      var init := es[..|es| - 1];
      if Expected(init).Some? then Expected(init) else Written(es[|es| - 1], FirstCode(init))
  }

  /** How many shutdowns started. */
  ghost function Shutdowns(s: State, es: seq<Event>): nat {
    if es == [] then 0
    else Shutdowns(s, es[..|es| - 1])
         + if es[|es| - 1].Begin? && !After(s, es[..|es| - 1]).shuttingDown then 1 else 0
  }

  ghost predicate SentinelInv(s: State, code: Option<int>, expected: Option<Sentinel>) {
    && s.report == Report(expected.Some?, if expected.Some? then 1 else 0, expected)
    && (s.exited.None? ==> expected.Some? == s.shuttingDown)
    && (s.phase != Idle ==> s.shuttingDown) && (s.shuttingDown ==> expected.Some?)
    && (s.main.Starting? ==> code.None? && !s.inner.exitSeen)
    && (s.main.Waiting? && !s.shuttingDown ==> s.main.resolved == code)
  }

  lemma SentinelStep(s: State, e: Event, code: Option<int>, expected: Option<Sentinel>)
    requires SentinelInv(s, code, expected) && Enabled(s, e)
    ensures var code' := if code.Some? then code else if e.Close? then Some(e.code) else if e.Error? then Some(1) else None;
            SentinelInv(Apply(s, e), code', if expected.Some? then expected else Written(e, code))
  {
  }

  lemma {:induction false} SentinelAlways(watchdog: bool, es: seq<Event>)
    requires Possible(Init(watchdog), es)
    ensures SentinelInv(After(Init(watchdog), es), FirstCode(es), Expected(es))
  {
    if es != [] {
      var init := es[..|es| - 1];
      SentinelAlways(watchdog, init);
      SentinelStep(After(Init(watchdog), init), es[|es| - 1], FirstCode(init), Expected(init));
    }
  }

  /** In every run the sentinel is written at most once, with the code of the first cause. */
  lemma SentinelWrittenOnce(watchdog: bool, es: seq<Event>)
    requires Possible(Init(watchdog), es)
    ensures var r := After(Init(watchdog), es).report; r.writes <= 1 && r.sentinel == Expected(es)
  {
    SentinelAlways(watchdog, es);
  }

  /** A shutdown starts at most once. */
  lemma {:induction false} ShutdownStartsOnce(s: State, es: seq<Event>)
    requires !s.shuttingDown && Possible(s, es)
    ensures Shutdowns(s, es) == if After(s, es).shuttingDown then 1 else 0
  {
    if es != [] {
      ShutdownStartsOnce(s, es[..|es| - 1]);
      ShuttingDownStep(After(s, es[..|es| - 1]), es[|es| - 1]);
    }
  }

  lemma ShuttingDownStep(s: State, e: Event)
    ensures Apply(s, e).shuttingDown == (s.shuttingDown || e.Begin?)
  {
    match e
    case Spawned(_) =>
    case SpawnThrows =>
    case Dies =>
    case ExitSeen =>
    case Close(_) =>
    case Error =>
    case Begin(_, _) =>
    case Timer =>
    case Continue(_) =>
    case Resume =>
    case Crash =>
  }

  // ----- The lock -----

  /** The wait that is under way, or the verdict, says that the inner process is gone. */
  predicate SaysGone(p: Phase) {
    || p == SoftWait(Some(true)) || p == HardWait(Some(true)) || p == Settling(true) || p == Settled(Confirmed)
  }

  predicate Hard(p: Phase) {
    p.HardWait? || p.Settling? || p == Settled(Unconfirmed)
  }

  ghost predicate LockInv(s: State) {
    && (s.main.Starting? ==> !s.inner.alive && !s.inner.exitSeen && !s.inner.errorSeen && !s.shuttingDown)
    && (s.inner.exitSeen ==> !s.inner.alive)
    && (s.phase != Idle ==> s.shuttingDown) && (Hard(s.phase) ==> s.inner.killSent)
    && (s.inner.errorSeen ==> !s.inner.alive)
    && (s.main.Waiting? && s.main.resolved.Some? ==> EndSeen(s.inner) || s.shuttingDown)
    && (SaysGone(s.phase) ==> EndSeen(s.inner))
    && (!s.lockHeld ==> EndKnown(s)) && (!s.lockHeld && s.inner.alive ==> s.phase.Settled?)
  }

  /** The inner process is gone, or never started, and the wrapper has noticed. */
  predicate EndSeen(i: Inner) {
    !i.alive && (i.exitSeen || i.errorSeen)
  }

  predicate EndKnown(s: State) {
    s.exited.Some? && (s.main.Starting? || EndSeen(s.inner) || s.phase.Settled?)
  }

  ghost predicate Abandoned(s: State) {
    && s.shuttingDown
    && s.inner.killSent && s.phase == Settled(Unconfirmed)
  }

  lemma LiveRelease(s: State)
    requires LockInv(s) && !s.lockHeld && s.inner.alive
    ensures Abandoned(s)
  {
    assert s.phase == Settled(s.phase.verdict);
    match s.phase.verdict
    case Confirmed =>
    case Unconfirmed =>
  }

  lemma LockStep(s: State, e: Event)
    requires LockInv(s) && Enabled(s, e)
    ensures LockInv(Apply(s, e))
  {
    match e
    case Continue(refused) => LockContinue(s, refused);
    case Begin(cause, refused) => LockBegin(s, cause, refused);
    case _ =>
  }

  lemma LockContinue(s: State, refused: bool)
    requires LockInv(s) && Enabled(s, Continue(refused))
    ensures LockInv(ContinueShutdown(s, refused))
  {
  }

  lemma LockBegin(s: State, cause: Cause, refused: bool)
    requires LockInv(s) && Enabled(s, Begin(cause, refused))
    ensures LockInv(BeginShutdown(s, cause, refused))
  {
  }

  lemma {:induction false} LockAlways(watchdog: bool, es: seq<Event>)
    requires Possible(Init(watchdog), es)
    ensures LockInv(After(Init(watchdog), es))
  {
    if es != [] {
      LockAlways(watchdog, es[..|es| - 1]);
      LockStep(After(Init(watchdog), es[..|es| - 1]), es[|es| - 1]);
    }
  }

  /**
    The lock is released only when the wrapper exits, and only if the inner
    process never was, its end was observed, or the termination settled.
  */
  lemma LockReleasedAfterInner(watchdog: bool, es: seq<Event>)
    requires Possible(Init(watchdog), es) && !After(Init(watchdog), es).lockHeld
    ensures EndKnown(After(Init(watchdog), es))
  {
    LockAlways(watchdog, es);
  }

  /**
    The lock is released beside a live inner process only by a shutdown that sent
    SIGKILL and waited in vain.
  */
  lemma ReleasedBesideLiveInner(watchdog: bool, es: seq<Event>)
    requires Possible(Init(watchdog), es)
    requires !After(Init(watchdog), es).lockHeld && After(Init(watchdog), es).inner.alive
    ensures Abandoned(After(Init(watchdog), es))
  {
    LockAlways(watchdog, es);
    LiveRelease(After(Init(watchdog), es));
  }

  /** A termination that is reported as confirmed has seen the inner process gone. */
  lemma ConfirmedMeansGone(watchdog: bool, es: seq<Event>)
    requires Possible(Init(watchdog), es) && After(Init(watchdog), es).phase == Settled(Confirmed)
    ensures EndSeen(After(Init(watchdog), es).inner)
  {
    LockAlways(watchdog, es);
  }

  /** The end of the inner process was seen before a wait could time out. */
  ghost predicate SeenInTime(s: State) {
    s.inner.exitSeen && !s.inner.killSent && (s.phase == Idle || s.phase == SoftWait(Some(true)) || s.phase == Settled(Confirmed))
  }

  lemma SeenInTimeStep(s: State, e: Event)
    requires SeenInTime(s) && Enabled(s, e)
    ensures SeenInTime(Apply(s, e))
  {
    match e
    case Continue(_) =>
    case Begin(_, _) =>
    case _ =>
  }

  /** An inner process that was seen to end before the shutdown began is never sent SIGKILL, and its end is confirmed. */
  lemma {:induction false} NoKillAfterExit(s: State, es: seq<Event>)
    requires s.inner.exitSeen && !s.inner.killSent && s.phase == Idle && Possible(s, es)
    ensures SeenInTime(After(s, es))
  {
    if es != [] {
      NoKillAfterExit(s, es[..|es| - 1]);
      SeenInTimeStep(After(s, es[..|es| - 1]), es[|es| - 1]);
    }
  }

  lemma ReachHardWait() returns (es: seq<Event>)
    ensures Possible(Init(false), es)
    ensures var s := After(Init(false), es);
            s.phase == HardWait(None) && s.inner.alive && s.exited.None? && s.exitCode == 143
  {
    es := Add([], Spawned(true));
    es := Add(es, Begin(Sigterm, false));
    es := Add(es, Timer);
    es := Add(es, Continue(false));
  }

  /** The inner process survives both waits: the termination stays unconfirmed and the lock is released. */
  lemma UnconfirmedRelease() returns (es: seq<Event>)
    ensures Possible(Init(false), es)
    ensures var s := After(Init(false), es); !s.lockHeld && s.inner.alive && s.phase == Settled(Unconfirmed)
  {
    es := ReachHardWait();
    es := Add(es, Timer);
    es := Add(es, Continue(false));
    es := Add(es, Continue(false));
    es := Add(es, Continue(false));
  }

  lemma Add(es: seq<Event>, e: Event) returns (more: seq<Event>)
    requires Possible(Init(false), es) && Enabled(After(Init(false), es), e)
    ensures Possible(Init(false), more) && After(Init(false), more) == Apply(After(Init(false), es), e)
  {
    Extend(Init(false), es, e);
    more := es + [e];
  }

  lemma Extend(s: State, es: seq<Event>, e: Event)
    ensures After(s, es + [e]) == Apply(After(s, es), e)
    ensures Possible(s, es + [e]) <==> Possible(s, es) && Enabled(After(s, es), e)
  {
    assert (es + [e])[..|es|] == es;
  }

  // ----- A shutdown ends -----

  function Rank(s: State): nat {
    if s.exited.Some? then 0
    else match s.phase
      case Idle => 7
      case SoftWait(r) => if r.None? then 6 else 5
      case HardWait(r) => if r.None? then 4 else 3
      case Settling(_) => 2
      case Settled(_) => 1
  }

  predicate Tick(e: Event) {
    e.Timer? || e.Continue?
  }

  ghost function Ticks(es: seq<Event>): nat {
    if es == [] then 0 else Ticks(es[..|es| - 1]) + if Tick(es[|es| - 1]) then 1 else 0
  }

  /** Until it has exited a shutdown can go on, and after six steps of its own at most it has. */
  lemma {:induction false} ShutdownEnds(s: State, es: seq<Event>)
    requires s.shuttingDown && s.phase != Idle && Possible(s, es)
    ensures var t := After(s, es);
            && t.phase != Idle && t.shuttingDown && Rank(s) <= 6 && Ticks(es) + Rank(t) <= Rank(s)
            && (t.exited.None? ==> Enabled(t, Timer) || Enabled(t, Continue(false)))
  {
    if es != [] {
      ShutdownEnds(s, es[..|es| - 1]);
      RankStep(After(s, es[..|es| - 1]), es[|es| - 1]);
    }
  }

  lemma RankStep(s: State, e: Event)
    requires s.shuttingDown && s.phase != Idle && Enabled(s, e)
    ensures var t := Apply(s, e);
            && t.phase != Idle && t.shuttingDown
            && Rank(t) + (if Tick(e) then 1 else 0) <= Rank(s)
            && (t.exited.None? ==> Enabled(t, Timer) || Enabled(t, Continue(false)))
  {
    match e
    case Spawned(_) =>
    case SpawnThrows =>
    case Dies =>
    case ExitSeen =>
    case Close(_) =>
    case Error =>
    case Begin(_, _) =>
    case Timer =>
    case Continue(_) =>
    case Resume =>
    case Crash =>
  }

  /** A run that exits by a handler has written its sentinel, and exits with its code (a timeout with 1). */
  ghost predicate ExitInv(s: State, crashed: bool) {
    && (s.report.sentinelWritten ==> s.report.sentinel.Some?) && (s.phase != Idle ==> s.shuttingDown)
    && (s.shuttingDown ==> s.report.sentinelWritten && s.exitCode == s.report.sentinel.value.code)
    && (s.main.Starting? ==> !s.shuttingDown)
    && (s.exited.None? ==> s.report.sentinelWritten == s.shuttingDown && !crashed)
    && (s.exited.Some? && !crashed ==>
          && s.report.sentinelWritten && !s.lockHeld
          && var code := s.report.sentinel.value.code;
             s.exited.value == if s.shuttingDown && code == -1 then 1 else code)
  }

  lemma {:induction false} ExitAlways(watchdog: bool, es: seq<Event>)
    requires Possible(Init(watchdog), es)
    ensures ExitInv(After(Init(watchdog), es), Crash in es)
  {
    if es != [] {
      ExitAlways(watchdog, es[..|es| - 1]);
      assert es == es[..|es| - 1] + [es[|es| - 1]];
      ExitStep(After(Init(watchdog), es[..|es| - 1]), es[|es| - 1], Crash in es[..|es| - 1]);
    }
  }

  lemma ExitStep(s: State, e: Event, crashed: bool)
    requires ExitInv(s, crashed) && Enabled(s, e)
    ensures ExitInv(Apply(s, e), crashed || e.Crash?)
  {
    match e
    case Continue(refused) => ExitContinue(s, refused);
    case Begin(cause, refused) => ExitBegin(s, cause, refused);
    case _ =>
  }

  lemma ExitContinue(s: State, refused: bool)
    requires ExitInv(s, false) && Enabled(s, Continue(refused))
    ensures ExitInv(ContinueShutdown(s, refused), false)
  {
  }

  lemma ExitBegin(s: State, cause: Cause, refused: bool)
    requires ExitInv(s, false) && Enabled(s, Begin(cause, refused))
    ensures ExitInv(BeginShutdown(s, cause, refused), false)
  {
  }
}
