/**
  The candidate setup lock as a protocol between any number of callers
  (core/scripts/candidate-engine-readiness.ts), for one checkout and commit.

  Each step is one file operation, one check or one event of the outside world.
  Liveness probes tell the truth and process ids are not reused; an installer's
  `done` settles only once its process group is gone. `owner` in a lock file is
  the caller that wrote it; no decision of the protocol reads it.
*/
module SetupLock {
  import opened Prelude

  datatype LockFile =
    | Absent
    | Corrupt(owner: int)                              // cut short by a crash or an error
    | Held(pid: int, child: Option<int>, owner: int)

  datatype Pc =
    | Entered | Creating | Inspecting
    | Deciding(seen: LockFile)                         // the lock as it was read
    | Waiting | FinalCheck
    | Unlinking | Recreating                           // the two halves of a reclaim
    | PreCheck | Announce | Spawning | Publishing | Beating
    | Installed(code: int) | WritingReady | Releasing(ready: bool)
    | Finished

  datatype Caller = Caller(pid: int, digest: string, pc: Pc, group: Option<int>)

  datatype Event =
    | Exited(c: int, code: int)
    | CleanCheck(c: int)                               // HEAD equals the commit, porcelain empty, files present
    | WroteReady(c: int, digest: string)
    | ReturnedOk(c: int)

  datatype State = State(
    lock: LockFile, ready: Option<string>, callers: map<int, Caller>,
    live: set<int>, spawned: set<int>, dead: set<int>, events: seq<Event>)

  datatype WriteOutcome = Wrote | Refused | Threw | Torn

  datatype Step =
    | Arrive(c: int, pid: int, digest: string)
    | CheckReady(c: int)
    | Create(c: int, w: WriteOutcome)
    | ReadLock(c: int)
    | Inspect(c: int)
    | Reclaim(c: int)
    | Unlink(c: int)
    | Recreate(c: int)
    | Poll(c: int, giveUp: bool)
    | Check(c: int, clean: bool)
    | Write(c: int, w: WriteOutcome)
    | Spawn(c: int, g: int)
    | GroupExits(g: int)
    | Settle(c: int, code: int)
    | StoreReady(c: int, w: WriteOutcome)
    | Release(c: int)
    | Die(pid: int)

  predicate Running(s: State, c: int) {
    c in s.callers && s.callers[c].pid !in s.dead
  }

  function At(s: State, c: int, pc: Pc): State
    requires c in s.callers
  {
    s.(callers := s.callers[c := s.callers[c].(pc := pc)])
  }

  predicate ReadyFor(s: State, c: int)
    requires c in s.callers
  {
    s.ready == Some(s.callers[c].digest)
  }

  /** The owner this lock names is gone, it published its installer group, and that group is gone too. */
  predicate GroupProvenGone(lock: LockFile, s: State) {
    lock.Held? && lock.pid in s.dead && lock.child.Some? && lock.child.value !in s.live
  }

  predicate Reclaimable(s: State) {
    GroupProvenGone(s.lock, s)
  }

  /** The lock a caller judges by: the one it read, or the current one if reading and acting are one step. */
  function Judged(s: State, c: int, atomic: bool): LockFile
    requires c in s.callers && s.callers[c].pc.Deciding?
  {
    if atomic then s.lock else s.callers[c].pc.seen
  }

  /**
    `atomic` says whether a reclaim is one step, or four: read the lock, probe what
    was read, unlink, create. The ready record is read before the probes, so that it
    may have been written when a caller decides to reclaim.
  */
  predicate Enabled(s: State, step: Step, atomic: bool) {
    match step
    case Arrive(c, pid, _) => c !in s.callers && pid !in s.dead
    case CheckReady(c) => Running(s, c) && s.callers[c].pc == Entered
    case Create(c, _) => Running(s, c) && s.callers[c].pc == Creating
    case ReadLock(c) => Running(s, c) && s.callers[c].pc == Inspecting
    case Inspect(c) =>
      Running(s, c) && s.callers[c].pc.Deciding? && (ReadyFor(s, c) || !GroupProvenGone(Judged(s, c, atomic), s))
    case Reclaim(c) =>
      && Running(s, c) && s.callers[c].pc.Deciding? && GroupProvenGone(Judged(s, c, atomic), s)
      && (atomic ==> !ReadyFor(s, c))
    case Unlink(c) => !atomic && Running(s, c) && s.callers[c].pc == Unlinking
    case Recreate(c) => !atomic && Running(s, c) && s.callers[c].pc == Recreating
    case Poll(c, _) => Running(s, c) && s.callers[c].pc == Waiting
    case Check(c, _) => Running(s, c) && (s.callers[c].pc == PreCheck || s.callers[c].pc == FinalCheck || s.callers[c].pc.Installed?)
    case Write(c, _) => Running(s, c) && (s.callers[c].pc == Announce || s.callers[c].pc == Publishing || s.callers[c].pc == Beating)
    case Spawn(c, g) => Running(s, c) && s.callers[c].pc == Spawning && g !in s.spawned
    case GroupExits(g) => g in s.live
    case Settle(c, _) => Running(s, c) && s.callers[c].pc == Beating && s.callers[c].group.Some? && s.callers[c].group.value !in s.live
    case StoreReady(c, _) => Running(s, c) && s.callers[c].pc == WritingReady
    case Release(c) => Running(s, c) && s.callers[c].pc.Releasing?
    case Die(pid) => true
  }

  function Apply(s: State, step: Step, atomic: bool): State
    requires Enabled(s, step, atomic)
  {
    match step
    case Arrive(c, pid, digest) => s.(callers := s.callers[c := Caller(pid, digest, Entered, None)])
    case CheckReady(c) => At(s, c, if ReadyFor(s, c) then FinalCheck else Creating)
    case Create(c, w) =>
      if s.lock.Absent? && w == Wrote then At(s, c, PreCheck).(lock := Held(s.callers[c].pid, None, c))
      else if s.lock.Absent? && w == Torn then At(s, c, Finished).(lock := Corrupt(c))
      else if w == Threw then At(s, c, Finished)
      else At(s, c, Inspecting)
    case ReadLock(c) => At(s, c, Deciding(s.lock))
    case Inspect(c) =>
      var lock := Judged(s, c, atomic);
      if ReadyFor(s, c) then At(s, c, FinalCheck)
      else if lock.Held? && lock.pid !in s.dead then At(s, c, Waiting)
      else At(s, c, Finished)
    case Reclaim(c) =>
      if atomic then At(s, c, PreCheck).(lock := Held(s.callers[c].pid, None, c)) else At(s, c, Unlinking)
    case Unlink(c) => At(s, c, Recreating).(lock := Absent)
    case Recreate(c) =>
      if s.lock.Absent? then At(s, c, PreCheck).(lock := Held(s.callers[c].pid, None, c))
      else if s.lock.Held? && s.lock.pid !in s.dead then At(s, c, Waiting)
      else At(s, c, Finished)
    case Poll(c, giveUp) =>
      if ReadyFor(s, c) then At(s, c, FinalCheck)
      else if giveUp || s.lock.Absent? then At(s, c, Finished)
      else s
    case Check(c, clean) => AfterCheck(s, c, clean)
    case Write(c, w) =>
      var me := s.callers[c];
      var next := if me.pc == Announce then Spawning else Beating;
      match w {
        case Wrote => At(s, c, next).(lock := Held(me.pid, me.group, c))
        case Refused => At(s, c, next)
        case Threw => At(s, c, Finished)
        case Torn => At(s, c, Finished).(lock := Corrupt(c))
      }
    case Spawn(c, g) =>
      s.(callers := s.callers[c := s.callers[c].(pc := Publishing, group := Some(g))],
         live := s.live + {g}, spawned := s.spawned + {g})
    case GroupExits(g) => s.(live := s.live - {g})
    case Settle(c, code) => At(s, c, Installed(code)).(events := s.events + [Exited(c, code)])
    case StoreReady(c, w) =>
      if w == Wrote then
        At(s, c, Releasing(true)).(ready := Some(s.callers[c].digest), events := s.events + [WroteReady(c, s.callers[c].digest)])
      else At(s, c, if w == Refused then Releasing(false) else Finished)
    case Release(c) =>
      At(s, c, Finished).(lock := Absent, events := s.events + if s.callers[c].pc.ready then [ReturnedOk(c)] else [])
    case Die(pid) => s.(dead := s.dead + {pid})
  }

  /** Revalidation of the checkout before the install, after it, and before returning a waiter. */
  function AfterCheck(s: State, c: int, clean: bool): State
    requires c in s.callers
  {
    var pc := s.callers[c].pc;
    if pc == FinalCheck then
      At(s, c, Finished).(events := s.events + if clean then [CleanCheck(c), ReturnedOk(c)] else [])
    else if pc == PreCheck then At(s, c, if clean then Announce else Releasing(false))
    else if pc == Installed(0) && clean then At(s, c, WritingReady).(events := s.events + [CleanCheck(c)])
    else At(s, c, Releasing(false))
  }

  // ----- Runs -----

  const START := State(Absent, None, map[], {}, {}, {}, [])

  predicate IsRun(s: State, steps: seq<Step>, atomic: bool)
    decreases |steps|
  {
    steps == [] || (Enabled(s, steps[0], atomic) && IsRun(Apply(s, steps[0], atomic), steps[1..], atomic))
  }

  function After(s: State, steps: seq<Step>, atomic: bool): State
    requires IsRun(s, steps, atomic)
    decreases |steps|
  {
    if steps == [] then s else After(Apply(s, steps[0], atomic), steps[1..], atomic)
  }

  // ----- Mutual exclusion -----

  /** The caller believes it holds the lock. */
  predicate Owning(pc: Pc) {
    pc == PreCheck || pc == Announce || pc == Spawning || pc == Publishing || pc == Beating
    || pc.Installed? || pc == WritingReady || pc.Releasing?
  }

  predicate Unspawned(pc: Pc) {
    !(pc == Publishing || pc == Beating || pc.Installed? || pc == WritingReady || pc.Releasing? || pc == Finished)
  }

  predicate OwnerIs(s: State, c: int) {
    !s.lock.Absent? && s.lock.owner == c
  }

  predicate GroupGone(pc: Pc) {
    pc.Installed? || pc == WritingReady || pc.Releasing?
  }

  /** A lock file names a known caller by its own process id, and at most that caller's installer group. */
  predicate LockOk(lock: LockFile, callers: map<int, Caller>) {
    && (!lock.Absent? ==> lock.owner in callers)
    && (lock.Held? ==> callers[lock.owner].pid == lock.pid
                       && (lock.child.Some? ==> lock.child == callers[lock.owner].group))
  }

  /** A running caller that believes it holds the lock does hold it; it starts at most one installer. */
  predicate CallerOk(s: State, c: int)
    requires c in s.callers
  {
    var me := s.callers[c];
    && (me.pid !in s.dead && Owning(me.pc) ==> OwnerIs(s, c))
    && (Unspawned(me.pc) ==> me.group.None?)
    && (me.pc == Publishing || me.pc == Beating ==> me.group.Some?)
    && (me.group.Some? ==> me.group.value in s.spawned)
    && (me.group.Some? && GroupGone(me.pc) ==> me.group.value !in s.live)
  }

  ghost predicate LockInv(s: State) {
    && s.live <= s.spawned
    && LockOk(s.lock, s.callers)
    && (forall c :: c in s.callers ==> CallerOk(s, c))
    // every live installer group was started by the caller named in the lock
    && (forall g :: g in s.live ==> !s.lock.Absent? && s.callers[s.lock.owner].group == Some(g))
  }

  /** No installer is alive and no running caller believes it holds the lock. */
  ghost predicate Unheld(s: State) {
    s.live == {} && forall c :: Running(s, c) ==> !Owning(s.callers[c].pc)
  }

  /** A run of which every unlink happens while nobody holds the lock. */
  ghost predicate IsGuardedRun(s: State, steps: seq<Step>, atomic: bool)
    decreases |steps|
  {
    steps != [] ==>
      && Enabled(s, steps[0], atomic) && (steps[0].Unlink? ==> Unheld(s))
      && IsGuardedRun(Apply(s, steps[0], atomic), steps[1..], atomic)
  }

  predicate NoUnlink(steps: seq<Step>) {
    forall i :: 0 <= i < |steps| ==> !steps[i].Unlink?
  }

  lemma {:induction false} NoUnlinkIsGuarded(s: State, steps: seq<Step>, atomic: bool)
    requires IsRun(s, steps, atomic) && NoUnlink(steps)
    ensures IsGuardedRun(s, steps, atomic)
    decreases |steps|
  {
    if steps != [] { NoUnlinkIsGuarded(Apply(s, steps[0], atomic), steps[1..], atomic); }
  }

  /** With a reclaim as one step there is no unlink of its own. */
  lemma {:induction false} AtomicHasNoUnlink(s: State, steps: seq<Step>)
    requires IsRun(s, steps, true)
    ensures NoUnlink(steps)
    decreases |steps|
  {
    if steps != [] {
      AtomicHasNoUnlink(Apply(s, steps[0], true), steps[1..]);
      assert steps == [steps[0]] + steps[1..];
    }
  }

  lemma AcquireKeeps(s: State, step: Step, atomic: bool)
    requires LockInv(s) && Enabled(s, step, atomic) && (step.Create? || step.Reclaim? || step.Recreate?)
    ensures LockInv(Apply(s, step, atomic))
  {
  }

  /** What a caller can see before an unlink is enough: the lock is gone, or may be reclaimed. */
  lemma ReclaimableIsUnheld(s: State)
    requires LockInv(s) && (s.lock.Absent? || Reclaimable(s))
    ensures Unheld(s)
  {
    assert forall g :: g !in s.live;
    forall c | Running(s, c) ensures !Owning(s.callers[c].pc) { assert CallerOk(s, c); }
  }

  /** An unlink is harmless exactly when nobody holds what it removes. */
  lemma UnlinkKeepsIff(s: State, c: int)
    requires LockInv(s) && Enabled(s, Unlink(c), false)
    ensures LockInv(Apply(s, Unlink(c), false)) <==> Unheld(s)
  {
    var t := Apply(s, Unlink(c), false);
    if Unheld(s) {
      forall x | x in t.callers ensures CallerOk(t, x) {
        assert CallerOk(s, x) && (x != c ==> t.callers[x] == s.callers[x]);
        assert Running(s, x) ==> !Owning(s.callers[x].pc);
      }
    }
    if LockInv(t) {
      assert forall g :: g !in t.live;
      assert s.live == {};
      forall x | Running(s, x) ensures !Owning(s.callers[x].pc) {
        assert x in t.callers && CallerOk(t, x) && (x != c ==> t.callers[x] == s.callers[x]);
      }
    }
  }

  lemma ProgressKeeps(s: State, step: Step, atomic: bool)
    requires LockInv(s) && Enabled(s, step, atomic)
    requires step.CheckReady? || step.ReadLock? || step.Inspect? || step.Poll?
    ensures LockInv(Apply(s, step, atomic))
  {
    var pc := Apply(s, step, atomic).callers[step.c].pc;
    if step.Poll? && pc == Waiting {
      assert Apply(s, step, atomic) == s;
    } else {
      IdleMoveKeeps(s, step.c, pc);
    }
  }

  /** A caller without an installer moves on without taking the lock. */
  lemma IdleMoveKeeps(s: State, c: int, pc: Pc)
    requires LockInv(s) && c in s.callers && !Owning(s.callers[c].pc) && !Owning(pc)
    requires Unspawned(s.callers[c].pc)
    ensures LockInv(At(s, c, pc))
  {
    var t := At(s, c, pc);
    forall x | x in t.callers ensures CallerOk(t, x) { assert CallerOk(s, x); }
  }

  lemma OutsideKeeps(s: State, step: Step, atomic: bool)
    requires LockInv(s) && Enabled(s, step, atomic) && (step.Arrive? || step.Die? || step.GroupExits?)
    ensures LockInv(Apply(s, step, atomic))
  {
  }

  lemma CheckKeeps(s: State, step: Step, atomic: bool)
    requires LockInv(s) && Enabled(s, step, atomic) && (step.Check? || step.Settle? || step.StoreReady?)
    ensures LockInv(Apply(s, step, atomic))
  {
  }

  lemma WriteKeeps(s: State, step: Step, atomic: bool)
    requires LockInv(s) && Enabled(s, step, atomic) && step.Write?
    ensures LockInv(Apply(s, step, atomic))
  {
  }

  lemma SpawnKeeps(s: State, step: Step, atomic: bool)
    requires LockInv(s) && Enabled(s, step, atomic) && (step.Spawn? || step.Release?)
    ensures LockInv(Apply(s, step, atomic))
  {
  }

  lemma StepKeepsLockInv(s: State, step: Step, atomic: bool)
    requires LockInv(s) && Enabled(s, step, atomic) && (step.Unlink? ==> Unheld(s))
    ensures LockInv(Apply(s, step, atomic))
  {
    match step
    case Create(_, _) => AcquireKeeps(s, step, atomic);
    case Reclaim(_) => AcquireKeeps(s, step, atomic);
    case Recreate(_) => AcquireKeeps(s, step, atomic);
    case Unlink(c) => UnlinkKeepsIff(s, c);
    case Check(_, _) => CheckKeeps(s, step, atomic);
    case Settle(_, _) => CheckKeeps(s, step, atomic);
    case StoreReady(_, _) => CheckKeeps(s, step, atomic);
    case Write(_, _) => WriteKeeps(s, step, atomic);
    case Spawn(_, _) => SpawnKeeps(s, step, atomic);
    case Release(_) => SpawnKeeps(s, step, atomic);
    case Arrive(_, _, _) => OutsideKeeps(s, step, atomic);
    case Die(_) => OutsideKeeps(s, step, atomic);
    case GroupExits(_) => OutsideKeeps(s, step, atomic);
    case _ => ProgressKeeps(s, step, atomic);
  }

  lemma {:induction false} RunKeepsLockInv(s: State, steps: seq<Step>, atomic: bool)
    requires LockInv(s) && IsGuardedRun(s, steps, atomic)
    ensures IsRun(s, steps, atomic) && LockInv(After(s, steps, atomic))
    decreases |steps|
  {
    if steps != [] {
      StepKeepsLockInv(s, steps[0], atomic);
      RunKeepsLockInv(Apply(s, steps[0], atomic), steps[1..], atomic);
    }
  }

  predicate TwoInstallers(s: State) {
    exists g, h :: g in s.live && h in s.live && g != h
  }

  /**
    However callers, crashes and installers interleave, and whether a reclaim is
    one step or four, at most one installer group is alive as long as each unlink
    happens while nobody holds the lock.
  */
  lemma AtMostOneInstaller(steps: seq<Step>, atomic: bool)
    requires IsGuardedRun(START, steps, atomic)
    ensures IsRun(START, steps, atomic) && !TwoInstallers(After(START, steps, atomic))
  {
    RunKeepsLockInv(START, steps, atomic);
  }

  /** With a reclaim as one step, at most one installer group is alive in every run. */
  lemma AtMostOneInstallerAtomic(steps: seq<Step>)
    requires IsRun(START, steps, true)
    ensures !TwoInstallers(After(START, steps, true))
  {
    AtomicHasNoUnlink(START, steps);
    NoUnlinkIsGuarded(START, steps, true);
    AtMostOneInstaller(steps, true);
  }

  /** A lock whose owner is dead and that names no installer group. */
  predicate Abandoned(s: State) {
    || (s.lock.Held? && s.lock.pid in s.dead && s.lock.child.None?)
    || (s.lock.Corrupt? && s.lock.owner in s.callers && s.callers[s.lock.owner].pid in s.dead)
  }

  lemma AbandonedStep(s: State, step: Step, atomic: bool)
    requires LockInv(s) && Enabled(s, step, atomic) && !step.Unlink? && Abandoned(s)
    ensures Abandoned(Apply(s, step, atomic)) && Apply(s, step, atomic).lock == s.lock
    ensures atomic ==> !step.Reclaim?
  {
    forall c | Running(s, c) ensures !Owning(s.callers[c].pc) { assert CallerOk(s, c); }
  }

  /** Only an unlink that was decided before removes such a lock. */
  lemma {:induction false} AbandonedForEver(s: State, steps: seq<Step>, atomic: bool)
    requires LockInv(s) && Abandoned(s) && IsRun(s, steps, atomic) && NoUnlink(steps)
    ensures After(s, steps, atomic).lock == s.lock
    ensures atomic ==> forall i :: 0 <= i < |steps| ==> !steps[i].Reclaim?
    decreases |steps|
  {
    if steps != [] {
      StepKeepsLockInv(s, steps[0], atomic);
      AbandonedStep(s, steps[0], atomic);
      AbandonedForEver(Apply(s, steps[0], atomic), steps[1..], atomic);
      assert steps == [steps[0]] + steps[1..];
    }
  }

  /** With a reclaim as one step such a lock is never reclaimed, and never changes. */
  lemma AbandonedIsNotReclaimed(s: State, steps: seq<Step>)
    requires LockInv(s) && Abandoned(s) && IsRun(s, steps, true)
    ensures After(s, steps, true).lock == s.lock && forall i :: 0 <= i < |steps| ==> !steps[i].Reclaim?
  {
    AtomicHasNoUnlink(s, steps);
    AbandonedForEver(s, steps, true);
  }

  // ----- Why the reclaim must be one step -----

  lemma {:induction false} RunSnoc(s: State, steps: seq<Step>, step: Step, atomic: bool)
    requires IsRun(s, steps, atomic) && Enabled(After(s, steps, atomic), step, atomic)
    ensures IsRun(s, steps + [step], atomic)
    ensures After(s, steps + [step], atomic) == Apply(After(s, steps, atomic), step, atomic)
    decreases |steps|
  {
    var more := steps + [step];
    if steps == [] {
      assert more[1..] == [];
    } else {
      RunSnoc(Apply(s, steps[0], atomic), steps[1..], step, atomic);
      assert more[1..] == steps[1..] + [step];
    }
  }

  lemma Extend(s: State, steps: seq<Step>, step: Step, atomic: bool) returns (more: seq<Step>)
    requires IsRun(s, steps, atomic) && Enabled(After(s, steps, atomic), step, atomic)
    ensures IsRun(s, more, atomic) && After(s, more, atomic) == Apply(After(s, steps, atomic), step, atomic)
  {
    RunSnoc(s, steps, step, atomic);
    more := steps + [step];
  }

  /** The state after a first owner installed, published and died, and its installer exited. */
  const DEAD_OWNER := State(
    Held(1, Some(10), 1), None, map[1 := Caller(1, "d", Beating, Some(10))], {}, {10}, {1}, [])

  lemma OwnerCreated() returns (steps: seq<Step>)
    ensures IsRun(START, steps, false)
    ensures After(START, steps, false) ==
            State(Held(1, None, 1), None, map[1 := Caller(1, "d", PreCheck, None)], {}, {}, {}, [])
  {
    steps := Extend(START, [], Arrive(1, 1, "d"), false);
    steps := Extend(START, steps, CheckReady(1), false);
    steps := Extend(START, steps, Create(1, Wrote), false);
    assert After(START, steps, false).callers == map[1 := Caller(1, "d", PreCheck, None)];
  }

  lemma OwnerSpawned() returns (steps: seq<Step>)
    ensures IsRun(START, steps, false)
    ensures After(START, steps, false) ==
            State(Held(1, None, 1), None, map[1 := Caller(1, "d", Publishing, Some(10))], {10}, {10}, {}, [])
  {
    steps := OwnerCreated();
    steps := Extend(START, steps, Check(1, true), false);
    steps := Extend(START, steps, Write(1, Wrote), false);
    steps := Extend(START, steps, Spawn(1, 10), false);
    var s := After(START, steps, false);
    assert s.callers == map[1 := Caller(1, "d", Publishing, Some(10))] && s.live == {10} && s.spawned == {10};
  }

  lemma DeadOwnerReached() returns (steps: seq<Step>)
    ensures IsRun(START, steps, false) && After(START, steps, false) == DEAD_OWNER
  {
    steps := OwnerSpawned();
    steps := Extend(START, steps, Write(1, Wrote), false);
    steps := Extend(START, steps, Die(1), false);
    steps := Extend(START, steps, GroupExits(10), false);
    var s := After(START, steps, false);
    assert s.callers == DEAD_OWNER.callers && s.live == {} && s.dead == {1};
  }

  /** A caller finds the dead owner's lock and decides to reclaim it, without having unlinked it yet. */
  lemma Decide(steps0: seq<Step>, c: int) returns (steps: seq<Step>)
    requires IsRun(START, steps0, false)
    requires var s := After(START, steps0, false); Reclaimable(s) && s.ready.None? && c !in s.callers && c !in s.dead
    ensures IsRun(START, steps, false)
    ensures var s := After(START, steps0, false);
            After(START, steps, false) == s.(callers := s.callers[c := Caller(c, "d", Unlinking, None)])
  {
    steps := Extend(START, steps0, Arrive(c, c, "d"), false);
    steps := Extend(START, steps, CheckReady(c), false);
    steps := Extend(START, steps, Create(c, Wrote), false);
    steps := Extend(START, steps, ReadLock(c), false);
    steps := Extend(START, steps, Reclaim(c), false);
    var s := After(START, steps0, false);
    assert After(START, steps, false).callers == s.callers[c := Caller(c, "d", Unlinking, None)];
  }

  /** Unlink, create, check, announce and start an installer. */
  lemma TakeOver(steps0: seq<Step>, c: int, g: int) returns (steps: seq<Step>)
    requires IsRun(START, steps0, false)
    requires var s := After(START, steps0, false);
             Running(s, c) && s.callers[c] == Caller(c, "d", Unlinking, None) && g !in s.spawned
    ensures IsRun(START, steps, false)
    ensures var s := After(START, steps0, false);
            var s' := After(START, steps, false);
            && s'.live == s.live + {g} && s'.spawned == s.spawned + {g} && s'.dead == s.dead
            && s'.callers == s.callers[c := Caller(c, "d", Publishing, Some(g))]
  {
    steps := Extend(START, steps0, Unlink(c), false);
    steps := Extend(START, steps, Recreate(c), false);
    steps := Extend(START, steps, Check(c, true), false);
    steps := Extend(START, steps, Write(c, Wrote), false);
    steps := Extend(START, steps, Spawn(c, g), false);
  }

  /** With a reclaim in two steps, two installers can run at once. */
  lemma TwoStepReclaimBreaksExclusion()
    ensures exists steps :: IsRun(START, steps, false) && {20, 30} <= After(START, steps, false).live
  {
    var steps := DeadOwnerReached();
    steps := Decide(steps, 2);
    steps := Decide(steps, 3);
    steps := TakeOver(steps, 2, 20);
    steps := TakeOver(steps, 3, 30);
  }

  // ----- Where a ready record comes from -----

  /** An installer of `c` exited with 0 and a later check by `c` found the checkout clean. */
  ghost predicate InstalledThenChecked(es: seq<Event>, c: int) {
    exists k :: 0 <= k < |es| && es[k] == CleanCheck(c) && Exited(c, 0) in es[..k]
  }

  ghost predicate WroteFor(es: seq<Event>, digest: string) {
    exists c :: WroteReady(c, digest) in es
  }

  ghost predicate EventsProven(es: seq<Event>, callers: map<int, Caller>) {
    forall i :: 0 <= i < |es| ==> EventProven(es[..i], es[i], callers)
  }

  ghost predicate EventProven(before: seq<Event>, e: Event, callers: map<int, Caller>) {
    match e
    case WroteReady(c, digest) => InstalledThenChecked(before, c)
    case ReturnedOk(c) => c in callers && WroteFor(before, callers[c].digest) && CleanCheck(c) in before
    case _ => true
  }

  ghost predicate CallerProven(es: seq<Event>, c: int, me: Caller) {
    && (me.pc == Installed(0) ==> Exited(c, 0) in es)
    && (me.pc == WritingReady ==> InstalledThenChecked(es, c))
    && (me.pc == Releasing(true) ==> WroteFor(es, me.digest) && CleanCheck(c) in es)
    && (me.pc == FinalCheck ==> WroteFor(es, me.digest))
  }

  ghost predicate EventInv(s: State) {
    && EventsProven(s.events, s.callers)
    && (s.ready.Some? ==> WroteFor(s.events, s.ready.value))
    && (forall c :: c in s.callers ==> CallerProven(s.events, c, s.callers[c]))
  }

  lemma MoreEvents(es: seq<Event>, extra: seq<Event>, c: int, digest: string)
    ensures InstalledThenChecked(es, c) ==> InstalledThenChecked(es + extra, c)
    ensures WroteFor(es, digest) ==> WroteFor(es + extra, digest)
  {
    if k :| 0 <= k < |es| && es[k] == CleanCheck(c) && Exited(c, 0) in es[..k] {
      assert (es + extra)[k] == es[k] && (es + extra)[..k] == es[..k];
    }
    if w :| WroteReady(w, digest) in es { assert WroteReady(w, digest) in es + extra; }
  }

  lemma MoreEventsCaller(es: seq<Event>, extra: seq<Event>, c: int, me: Caller)
    requires CallerProven(es, c, me)
    ensures CallerProven(es + extra, c, me)
  {
    MoreEvents(es, extra, c, me.digest);
  }

  lemma MoreEventsProven(es: seq<Event>, e: Event, callers: map<int, Caller>)
    requires EventsProven(es, callers) && EventProven(es, e, callers)
    ensures EventsProven(es + [e], callers)
  {
    var es' := es + [e];
    forall i | 0 <= i < |es'| ensures EventProven(es'[..i], es'[i], callers) {
      if i < |es| { assert es'[..i] == es[..i]; } else { assert es'[..i] == es; }
    }
  }

  /** Callers keep their digest, so what was proven of earlier events stays proven. */
  lemma SameDigests(es: seq<Event>, a: map<int, Caller>, b: map<int, Caller>)
    requires EventsProven(es, a) && forall c :: c in a ==> c in b && b[c].digest == a[c].digest
    ensures EventsProven(es, b)
  {
    forall i | 0 <= i < |es| ensures EventProven(es[..i], es[i], b) {
      assert EventProven(es[..i], es[i], a);
    }
  }

  /** One caller moves on, emitting events that are proven when they happen. */
  lemma MoveKeepsEvents(s: State, c: int, me: Caller, extra: seq<Event>)
    requires EventInv(s) && c in s.callers && me.digest == s.callers[c].digest
    requires CallerProven(s.events + extra, c, me)
    requires EventsProven(s.events + extra, s.callers[c := me])
    ensures EventInv(s.(callers := s.callers[c := me], events := s.events + extra))
  {
    var callers' := s.callers[c := me];
    forall x | x in callers' ensures CallerProven(s.events + extra, x, callers'[x]) {
      if x != c { MoreEventsCaller(s.events, extra, x, s.callers[x]); }
    }
    if s.ready.Some? { MoreEvents(s.events, extra, c, s.ready.value); }
  }

  lemma SilentMoveKeepsEvents(s: State, s': State, c: int)
    requires EventInv(s) && c in s.callers && c in s'.callers && s'.events == s.events && s'.ready == s.ready
    requires s'.callers == s.callers[c := s.callers[c].(pc := s'.callers[c].pc, group := s'.callers[c].group)]
    requires CallerProven(s.events, c, s'.callers[c])
    ensures EventInv(s')
  {
    SameDigests(s.events, s.callers, s'.callers);
    assert s.events + [] == s.events;
    MoveKeepsEvents(s, c, s'.callers[c], []);
  }

  /** Steps of one caller that neither check, install nor report anything. */
  lemma SilentStepKeepsEvents(s: State, step: Step, atomic: bool)
    requires EventInv(s) && Enabled(s, step, atomic)
    requires step.CheckReady? || step.Create? || step.ReadLock? || step.Inspect? || step.Reclaim? || step.Unlink? || step.Recreate?
             || step.Poll? || step.Write? || step.Spawn?
    ensures EventInv(Apply(s, step, atomic))
  {
    SilentMoveKeepsEvents(s, Apply(s, step, atomic), step.c);
  }

  lemma SettleKeepsEvents(s: State, c: int, code: int)
    requires EventInv(s) && c in s.callers
    ensures EventInv(At(s, c, Installed(code)).(events := s.events + [Exited(c, code)]))
  {
    var me := s.callers[c].(pc := Installed(code));
    SameDigests(s.events, s.callers, s.callers[c := me]);
    MoreEventsProven(s.events, Exited(c, code), s.callers[c := me]);
    MoveKeepsEvents(s, c, me, [Exited(c, code)]);
  }

  lemma ReleaseKeepsEvents(s: State, c: int)
    requires EventInv(s) && c in s.callers && s.callers[c].pc == Releasing(true)
    ensures EventInv(At(s, c, Finished).(lock := Absent, events := s.events + [ReturnedOk(c)]))
  {
    var me := s.callers[c].(pc := Finished);
    assert CallerProven(s.events, c, s.callers[c]);
    SameDigests(s.events, s.callers, s.callers[c := me]);
    MoreEventsProven(s.events, ReturnedOk(c), s.callers[c := me]);
    MoveKeepsEvents(s, c, me, [ReturnedOk(c)]);
  }

  lemma StepKeepsEventInv(s: State, step: Step, atomic: bool)
    requires EventInv(s) && Enabled(s, step, atomic)
    ensures EventInv(Apply(s, step, atomic))
  {
    var s' := Apply(s, step, atomic);
    assert s.events + [] == s.events;
    match step {
      case Arrive(c, _, _) => SameDigests(s.events, s.callers, s'.callers);
      case GroupExits(_) =>
      case Die(_) =>
      case Settle(c, code) => SettleKeepsEvents(s, c, code);
      case Check(c, clean) => CheckKeepsEvents(s, c, clean);
      case StoreReady(c, w) =>
        if w == Wrote { StoreKeepsEvents(s, c); } else { SilentMoveKeepsEvents(s, s', c); }
      case Release(c) =>
        if s.callers[c].pc.ready { ReleaseKeepsEvents(s, c); } else { SilentMoveKeepsEvents(s, s', c); }
      case _ => SilentStepKeepsEvents(s, step, atomic);
    }
  }

  lemma CheckKeepsEvents(s: State, c: int, clean: bool)
    requires EventInv(s) && c in s.callers
    ensures EventInv(AfterCheck(s, c, clean))
  {
    var s' := AfterCheck(s, c, clean);
    var me := s.callers[c];
    assert CallerProven(s.events, c, me);
    assert s.events + [] == s.events;
    if clean && me.pc == FinalCheck {
      FinalCheckKeepsEvents(s, c);
    } else if clean && me.pc == Installed(0) {
      SameDigests(s.events, s.callers, s'.callers);
      MoreEventsProven(s.events, CleanCheck(c), s'.callers);
      var es := s.events + [CleanCheck(c)];
      assert es[|s.events|] == CleanCheck(c) && es[..|s.events|] == s.events;
      MoveKeepsEvents(s, c, s'.callers[c], [CleanCheck(c)]);
    } else {
      SilentMoveKeepsEvents(s, s', c);
    }
  }

  lemma FinalCheckKeepsEvents(s: State, c: int)
    requires EventInv(s) && c in s.callers && s.callers[c].pc == FinalCheck
    ensures EventInv(At(s, c, Finished).(events := s.events + [CleanCheck(c), ReturnedOk(c)]))
  {
    var me := s.callers[c].(pc := Finished);
    assert CallerProven(s.events, c, s.callers[c]);
    SameDigests(s.events, s.callers, s.callers[c := me]);
    MoreEventsProven(s.events, CleanCheck(c), s.callers[c := me]);
    var es := s.events + [CleanCheck(c)];
    MoreEvents(s.events, [CleanCheck(c)], c, me.digest);
    assert CleanCheck(c) in es;
    MoreEventsProven(es, ReturnedOk(c), s.callers[c := me]);
    assert es + [ReturnedOk(c)] == s.events + [CleanCheck(c), ReturnedOk(c)];
    MoveKeepsEvents(s, c, me, [CleanCheck(c), ReturnedOk(c)]);
  }

  lemma StoreKeepsEvents(s: State, c: int)
    requires EventInv(s) && c in s.callers && s.callers[c].pc == WritingReady
    ensures var me := s.callers[c];
            EventInv(At(s, c, Releasing(true)).(ready := Some(me.digest), events := s.events + [WroteReady(c, me.digest)]))
  {
    var me := s.callers[c];
    var wrote := WroteReady(c, me.digest);
    var callers' := s.callers[c := me.(pc := Releasing(true))];
    assert CallerProven(s.events, c, me);
    SameDigests(s.events, s.callers, callers');
    MoreEventsProven(s.events, wrote, callers');
    var k :| 0 <= k < |s.events| && s.events[k] == CleanCheck(c) && Exited(c, 0) in s.events[..k];
    assert (s.events + [wrote])[k] == CleanCheck(c);
    assert wrote in s.events + [wrote];
    MoveKeepsEvents(s, c, me.(pc := Releasing(true)), [wrote]);
  }

  lemma {:induction false} RunKeepsEventInv(s: State, steps: seq<Step>, atomic: bool)
    requires EventInv(s) && IsRun(s, steps, atomic)
    ensures EventInv(After(s, steps, atomic))
    decreases |steps|
  {
    if steps != [] {
      StepKeepsEventInv(s, steps[0], atomic);
      RunKeepsEventInv(Apply(s, steps[0], atomic), steps[1..], atomic);
    }
  }

  /**
    Over every run from an empty state directory, with a reclaim in one step or in
    the two of the code and however reclaims interleave: a ready record exists only after
    an installer exited with 0 and a later check found the checkout clean, and a
    caller is told ok only after a record with its own digest was written and a
    check of its own was clean.
  */
  lemma ReadyRecordProvenance(steps: seq<Step>, atomic: bool)
    requires IsRun(START, steps, atomic)
    ensures var s := After(START, steps, atomic);
            && (s.ready.Some? ==>
                  exists i :: 0 <= i < |s.events| && s.events[i].WroteReady? && s.events[i].digest == s.ready.value
                              && InstalledThenChecked(s.events[..i], s.events[i].c))
            && (forall i :: 0 <= i < |s.events| && s.events[i].ReturnedOk? ==>
                  && s.events[i].c in s.callers
                  && WroteFor(s.events[..i], s.callers[s.events[i].c].digest)
                  && CleanCheck(s.events[i].c) in s.events[..i])
  {
    RunKeepsEventInv(START, steps, atomic);
    var s := After(START, steps, atomic);
    if s.ready.Some? {
      var c :| WroteReady(c, s.ready.value) in s.events;
      var i :| 0 <= i < |s.events| && s.events[i] == WroteReady(c, s.ready.value);
      assert EventProven(s.events[..i], s.events[i], s.callers);
    }
    forall i | 0 <= i < |s.events| && s.events[i].ReturnedOk?
      ensures s.events[i].c in s.callers && WroteFor(s.events[..i], s.callers[s.events[i].c].digest)
              && CleanCheck(s.events[i].c) in s.events[..i]
    {
      assert EventProven(s.events[..i], s.events[i], s.callers);
    }
  }

  // ----- The waiter -----

  /**
    What one poll of the waiter observes: the ready record, the lock, the record
    again when the lock is gone, the owner and its heartbeat, the installer group,
    and how long the sleep after it takes.
  */
  datatype Observation = Observation(
    ready: bool, lockPresent: bool, readyAfterLock: bool, ownerAlive: bool, heartbeatFresh: bool,
    groupPublished: bool, groupAlive: bool, elapsed: nat)

  datatype WaitResult = SawReady | OwnerGone | GroupUnknown | GroupMayLive | LockLeft | TimedOut

  predicate ShowsReady(o: Observation) {
    o.ready || (!o.lockPresent && o.readyAfterLock)
  }

  /** The owner still works: the waiter sleeps and polls again. */
  predicate KeepsWaiting(o: Observation) {
    !o.ready && o.lockPresent && (o.ownerAlive || o.heartbeatFresh)
  }

  /** The owner is gone without a record, and left its lock. */
  predicate LeftBehind(o: Observation) {
    !o.ready && o.lockPresent && !o.ownerAlive && !o.heartbeatFresh
  }

  function Elapsed(poll: nat -> Observation, polls: nat): nat {
    if polls == 0 then 0 else Elapsed(poll, polls - 1) + poll(polls - 1).elapsed
  }

  /**
    The polling loop. It changes nothing, and when every sleep advances the clock
    by at least one poll interval it makes at most maxMs / pollMs + 1 polls.
    `poll(k)` is what the k-th poll sees.
  */
  method WaitForOwner(poll: nat -> Observation, pollMs: nat, maxMs: nat) returns (r: WaitResult, polls: nat)
    requires pollMs > 0 && forall k: nat :: poll(k).elapsed >= pollMs
    ensures polls * pollMs <= maxMs + pollMs
    ensures r == TimedOut <==> Elapsed(poll, polls) >= maxMs && forall k: nat :: k < polls ==> KeepsWaiting(poll(k))
    ensures r != TimedOut ==> polls > 0 && forall k: nat :: k < polls - 1 ==> KeepsWaiting(poll(k))
    ensures r != TimedOut ==>
              var last := poll(polls - 1);
              && (r == SawReady <==> ShowsReady(last))
              && (r == OwnerGone <==> !last.lockPresent && !ShowsReady(last))
              && (r == GroupUnknown <==> LeftBehind(last) && !last.groupPublished)
              && (r == GroupMayLive <==> LeftBehind(last) && last.groupPublished && last.groupAlive)
              && (r == LockLeft <==> LeftBehind(last) && last.groupPublished && !last.groupAlive)
  {
    var now := 0;
    polls := 0;
    while now < maxMs
      invariant now == Elapsed(poll, polls) && polls * pollMs <= now
      invariant polls > 0 ==> (polls - 1) * pollMs <= maxMs
      invariant forall k: nat :: k < polls ==> KeepsWaiting(poll(k))
      decreases maxMs - now
    {
      var seen := poll(polls);
      polls := polls + 1;
      if seen.ready { return SawReady, polls; }
      if !seen.lockPresent {
        if seen.readyAfterLock { return SawReady, polls; }
        return OwnerGone, polls;
      }
      if seen.ownerAlive || seen.heartbeatFresh {
        now := now + seen.elapsed;
        continue;
      }
      if !seen.groupPublished { return GroupUnknown, polls; }
      if seen.groupAlive { return GroupMayLive, polls; }
      return LockLeft, polls;
    }
    return TimedOut, polls;
  }
}
