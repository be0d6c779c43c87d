/** Who is told that the candidate engine is ready (core/scripts/candidate-engine-readiness.ts). */
module SetupOutcome {
  import opened Prelude
  import opened SetupLock

  /** What happened of one caller so far. */
  datatype Seen = Seen(exited: bool, checked: bool, wrote: bool, ok: bool)

  ghost function SeenOf(es: seq<Event>, c: int): Seen {
    Seen(exists k :: Exited(c, k) in es, CleanCheck(c) in es, exists d :: WroteReady(c, d) in es, ReturnedOk(c) in es)
  }

  function After1(v: Seen, e: Event): Seen {
    match e
    case Exited(_, _) => v.(exited := true)
    case CleanCheck(_) => v.(checked := true)
    case WroteReady(_, _) => v.(wrote := true)
    case ReturnedOk(_) => v.(ok := true)
  }

  lemma SeenSnoc(es: seq<Event>, e: Event, c: int)
    ensures SeenOf(es + [e], c) == if e.c == c then After1(SeenOf(es, c), e) else SeenOf(es, c)
  {
    assert forall x :: x in es + [e] <==> x in es || x == e;
    assert e.Exited? && e.c == c ==> Exited(c, e.code) in es + [e];
    assert e.WroteReady? && e.c == c ==> WroteReady(c, e.digest) in es + [e];
  }

  /** What must have happened of a caller that has come this far. */
  predicate Fits(pc: Pc, v: Seen) {
    match pc
    case Installed(_) => v == Seen(true, false, false, false)
    case WritingReady => v == Seen(true, true, false, false)
    case Releasing(ready) => v.wrote == ready && !v.ok && (v.checked ==> v.exited)
    case Finished => v.ok == (v.wrote || (v.checked && !v.exited))
    case _ => v == Seen(false, false, false, false)
  }

  ghost predicate OutcomeInv(s: State) {
    && (forall c :: c !in s.callers ==> SeenOf(s.events, c) == Seen(false, false, false, false))
    && (forall c :: c in s.callers ==> Fits(s.callers[c].pc, SeenOf(s.events, c)))
  }

  /** One caller moves on and perhaps reports something of itself. */
  lemma MoveKeepsOutcome(s: State, t: State, c: int, extra: seq<Event>)
    requires OutcomeInv(s) && c in s.callers && c in t.callers && t.events == s.events + extra
    requires t.callers == s.callers[c := t.callers[c]]
    requires forall e :: e in extra ==> e.c == c
    requires Fits(t.callers[c].pc, SeenOf(t.events, c))
    ensures OutcomeInv(t)
  {
    forall x | x != c ensures SeenOf(t.events, x) == SeenOf(s.events, x) { SeenOther(s.events, extra, c, x); }
  }

  lemma {:induction false} SeenOther(es: seq<Event>, extra: seq<Event>, c: int, x: int)
    requires x != c && forall e :: e in extra ==> e.c == c
    ensures SeenOf(es + extra, x) == SeenOf(es, x)
    decreases |extra|
  {
    if extra == [] {
      assert es + extra == es;
    } else {
      var n := |extra| - 1;
      assert es + extra == (es + extra[..n]) + [extra[n]] && extra[n] in extra;
      assert forall e :: e in extra[..n] ==> e in extra;
      SeenOther(es, extra[..n], c, x);
      SeenSnoc(es + extra[..n], extra[n], x);
    }
  }

  lemma SilentKeeps(s: State, t: State, c: int)
    requires OutcomeInv(s) && c in s.callers && c in t.callers && t.events == s.events
    requires t.callers == s.callers[c := t.callers[c]] && Fits(t.callers[c].pc, SeenOf(s.events, c))
    ensures OutcomeInv(t)
  {
    assert s.events + [] == s.events;
    MoveKeepsOutcome(s, t, c, []);
  }

  lemma OneEventKeeps(s: State, t: State, c: int, e: Event)
    requires OutcomeInv(s) && c in s.callers && c in t.callers && e.c == c && t.events == s.events + [e]
    requires t.callers == s.callers[c := t.callers[c]] && Fits(t.callers[c].pc, After1(SeenOf(s.events, c), e))
    ensures OutcomeInv(t)
  {
    SeenSnoc(s.events, e, c);
    MoveKeepsOutcome(s, t, c, [e]);
  }

  lemma FinalCheckKeeps(s: State, t: State, c: int)
    requires OutcomeInv(s) && c in s.callers && c in t.callers && s.callers[c].pc == FinalCheck && t.callers[c].pc == Finished
    requires t.events == s.events + [CleanCheck(c), ReturnedOk(c)] && t.callers == s.callers[c := t.callers[c]]
    ensures OutcomeInv(t)
  {
    var es := s.events + [CleanCheck(c)];
    SeenSnoc(s.events, CleanCheck(c), c);
    SeenSnoc(es, ReturnedOk(c), c);
    assert es + [ReturnedOk(c)] == t.events;
    MoveKeepsOutcome(s, t, c, [CleanCheck(c), ReturnedOk(c)]);
  }

  lemma StepKeepsOutcome(s: State, step: Step, atomic: bool)
    requires OutcomeInv(s) && Enabled(s, step, atomic)
    ensures OutcomeInv(Apply(s, step, atomic))
  {
    var t := Apply(s, step, atomic);
    match step {
      case Arrive(c, _, _) =>
      case GroupExits(_) =>
      case Die(_) =>
      case Settle(c, code) => OneEventKeeps(s, t, c, Exited(c, code));
      case StoreReady(c, w) =>
        if w == Wrote { OneEventKeeps(s, t, c, WroteReady(c, s.callers[c].digest)); } else { SilentKeeps(s, t, c); }
      case Release(c) =>
        if s.callers[c].pc.ready { OneEventKeeps(s, t, c, ReturnedOk(c)); } else { ReleaseSilently(s, t, c); }
      case Check(c, clean) => CheckKeepsOutcome(s, c, clean);
      case _ => QuietStepKeeps(s, step, atomic);
    }
  }

  /** Steps that neither check, install nor report anything. */
  lemma QuietStepKeeps(s: State, step: Step, atomic: bool)
    requires OutcomeInv(s) && Enabled(s, step, atomic)
    requires step.CheckReady? || step.Create? || step.ReadLock? || step.Inspect? || step.Reclaim? || step.Unlink? || step.Recreate?
             || step.Poll? || step.Write? || step.Spawn?
    ensures OutcomeInv(Apply(s, step, atomic))
  {
    SilentKeeps(s, Apply(s, step, atomic), step.c);
  }

  lemma ReleaseSilently(s: State, t: State, c: int)
    requires OutcomeInv(s) && c in s.callers && s.callers[c].pc == Releasing(false) && c in t.callers
    requires t.callers[c].pc == Finished && t.callers == s.callers[c := t.callers[c]] && t.events == s.events + []
    ensures OutcomeInv(t)
  {
    assert s.events + [] == s.events;
    SilentKeeps(s, t, c);
  }

  lemma CheckKeepsOutcome(s: State, c: int, clean: bool)
    requires OutcomeInv(s) && Enabled(s, Check(c, clean), false)
    ensures OutcomeInv(AfterCheck(s, c, clean))
  {
    var t, pc := AfterCheck(s, c, clean), s.callers[c].pc;
    assert s.events + [] == s.events;
    if pc == FinalCheck && clean {
      FinalCheckKeeps(s, t, c);
    } else if pc == Installed(0) && clean {
      OneEventKeeps(s, t, c, CleanCheck(c));
    } else {
      SilentKeeps(s, t, c);
    }
  }

  lemma {:induction false} RunKeepsOutcome(s: State, steps: seq<Step>, atomic: bool)
    requires OutcomeInv(s) && IsRun(s, steps, atomic)
    ensures OutcomeInv(After(s, steps, atomic))
    decreases |steps|
  {
    if steps != [] {
      StepKeepsOutcome(s, steps[0], atomic);
      RunKeepsOutcome(Apply(s, steps[0], atomic), steps[1..], atomic);
    }
  }

  /**
    Over every run a caller that is finished was told ok if and only if it wrote the
    ready record itself, or it found the checkout clean without having installed.
  */
  lemma ToldOkIff(steps: seq<Step>, atomic: bool, c: int)
    requires IsRun(START, steps, atomic)
    requires c in After(START, steps, atomic).callers && After(START, steps, atomic).callers[c].pc == Finished
    ensures var es := After(START, steps, atomic).events;
            ReturnedOk(c) in es <==>
            (exists d :: WroteReady(c, d) in es) || (CleanCheck(c) in es && forall k :: Exited(c, k) !in es)
  {
    RunKeepsOutcome(START, steps, atomic);
    var s := After(START, steps, atomic);
    assert Fits(Finished, SeenOf(s.events, c));
  }

  lemma InstallerExits() returns (steps: seq<Step>)
    ensures IsRun(START, steps, false)
    ensures var s := After(START, steps, false);
            && s.callers == map[1 := Caller(1, "d", Installed(0), Some(10))] && s.dead == {} && s.events == [Exited(1, 0)]
  {
    steps := OwnerSpawned();
    steps := Extend(START, steps, Write(1, Wrote), false);
    steps := Extend(START, steps, GroupExits(10), false);
    steps := Extend(START, steps, Settle(1, 0), false);
  }

  /** A caller that installs cleanly on an empty state directory is told ok. */
  lemma CleanInstallIsReported() returns (steps: seq<Step>)
    ensures IsRun(START, steps, false)
    ensures var s := After(START, steps, false);
            ReturnedOk(1) in s.events && s.ready == Some("d") && s.lock == Absent && 1 in s.callers && s.callers[1].pc == Finished
  {
    steps := InstallerExits();
    steps := Extend(START, steps, Check(1, true), false);
    steps := Extend(START, steps, StoreReady(1, Wrote), false);
    steps := Extend(START, steps, Release(1), false);
  }

  /** A ready record is reported to every caller that looks for one, as soon as the checkout is clean. */
  lemma ReadyIsReported(s: State, c: int, atomic: bool) returns (steps: seq<Step>)
    requires Running(s, c) && ReadyFor(s, c)
    requires var pc := s.callers[c].pc; pc == Entered || pc.Deciding? || pc == Waiting
    ensures IsRun(s, steps, atomic) && |steps| == 2 && ReturnedOk(c) in After(s, steps, atomic).events
  {
    var pc := s.callers[c].pc;
    var look := if pc == Entered then CheckReady(c) else if pc == Waiting then Poll(c, false) else Inspect(c);
    RunSnoc(s, [], look, atomic);
    assert [] + [look] == [look];
    RunSnoc(s, [look], Check(c, true), atomic);
    steps := [look] + [Check(c, true)];
  }
}
