/** What the steps of a whole run say of one caller (core/scripts/candidate-engine-readiness.ts). */
module SetupSteps {
  import opened Prelude
  import opened SetupLock

  predicate By(step: Step, c: int) {
    !step.GroupExits? && !step.Die? && step.c == c
  }

  // ----- No install without the lock and a clean checkout -----

  predicate Takes(step: Step, c: int) {
    step == Create(c, Wrote) || step == Reclaim(c) || step == Recreate(c)
  }

  ghost predicate Took(done: seq<Step>, c: int) {
    exists i :: 0 <= i < |done| && Takes(done[i], c)
  }

  /** The caller took the lock and found the checkout clean after that. */
  ghost predicate CheckedUnderLock(done: seq<Step>, c: int) {
    exists j :: 0 <= j < |done| && done[j] == Check(c, true) && Took(done[..j], c)
  }

  ghost predicate Prepared(pc: Pc, done: seq<Step>, c: int) {
    && (pc == Unlinking || pc == Recreating || pc == PreCheck ==> Took(done, c))
    && (pc == Announce || pc == Spawning ==> CheckedUnderLock(done, c))
  }

  ghost predicate AllPrepared(s: State, done: seq<Step>) {
    forall c :: c in s.callers ==> Prepared(s.callers[c].pc, done, c)
  }

  lemma PreparedGrows(pc: Pc, done: seq<Step>, step: Step, c: int)
    requires Prepared(pc, done, c)
    ensures Prepared(pc, done + [step], c)
  {
    var more := done + [step];
    if i :| 0 <= i < |done| && Takes(done[i], c) { assert Takes(more[i], c); }
    if j :| 0 <= j < |done| && done[j] == Check(c, true) && Took(done[..j], c) {
      assert more[j] == Check(c, true) && more[..j] == done[..j];
    }
  }

  lemma TookNow(done: seq<Step>, step: Step, c: int)
    requires Takes(step, c)
    ensures Took(done + [step], c)
  {
    assert (done + [step])[|done|] == step;
  }

  lemma CheckedNow(done: seq<Step>, c: int)
    requires Took(done, c)
    ensures CheckedUnderLock(done + [Check(c, true)], c)
  {
    var more := done + [Check(c, true)];
    assert more[|done|] == Check(c, true) && more[..|done|] == done;
  }

  lemma StepKeepsPrepared(s: State, done: seq<Step>, step: Step, atomic: bool)
    requires AllPrepared(s, done) && Enabled(s, step, atomic)
    ensures AllPrepared(Apply(s, step, atomic), done + [step])
  {
    var t := Apply(s, step, atomic);
    forall c | c in t.callers ensures Prepared(t.callers[c].pc, done + [step], c) {
      if c in s.callers {
        PreparedGrows(s.callers[c].pc, done, step, c);
        MovePrepared(s, done, step, atomic, c);
      }
    }
  }

  lemma MovePrepared(s: State, done: seq<Step>, step: Step, atomic: bool, c: int)
    requires c in s.callers && Enabled(s, step, atomic)
    requires Prepared(s.callers[c].pc, done, c) && Prepared(s.callers[c].pc, done + [step], c)
    ensures c in Apply(s, step, atomic).callers && Prepared(Apply(s, step, atomic).callers[c].pc, done + [step], c)
  {
    if By(step, c) {
      if Takes(step, c) { TookNow(done, step, c); }
      if step == Check(c, true) && s.callers[c].pc == PreCheck { CheckedNow(done, c); }
    }
  }

  lemma {:induction false} SpawnsArePrepared(s: State, done: seq<Step>, steps: seq<Step>, atomic: bool, k: nat)
    requires AllPrepared(s, done) && IsRun(s, steps, atomic) && k < |steps| && steps[k].Spawn?
    ensures CheckedUnderLock(done + steps[..k], steps[k].c)
    decreases k
  {
    if k == 0 {
      assert done + steps[..k] == done;
    } else {
      StepKeepsPrepared(s, done, steps[0], atomic);
      SpawnsArePrepared(Apply(s, steps[0], atomic), done + [steps[0]], steps[1..], atomic, k - 1);
      assert done + [steps[0]] + steps[1..][..k - 1] == done + steps[..k];
    }
  }

  /** Over every run an installer is started only by a caller that took the lock and then found the checkout clean. */
  lemma SpawnAfterCleanCheck(steps: seq<Step>, atomic: bool, k: nat)
    requires IsRun(START, steps, atomic) && k < |steps| && steps[k].Spawn?
    ensures exists i, j :: 0 <= i < j < k && Takes(steps[i], steps[k].c) && steps[j] == Check(steps[k].c, true)
  {
    SpawnsArePrepared(START, [], steps, atomic, k);
    assert [] + steps[..k] == steps[..k];
    var i, j := CheckedInOrder(steps[..k], steps[k].c);
    assert Takes(steps[i], steps[k].c) && steps[j] == Check(steps[k].c, true);
  }

  lemma CheckedInOrder(done: seq<Step>, c: int) returns (i: nat, j: nat)
    requires CheckedUnderLock(done, c)
    ensures i < j < |done| && Takes(done[i], c) && done[j] == Check(c, true)
  {
    j :| 0 <= j < |done| && done[j] == Check(c, true) && Took(done[..j], c);
    i :| 0 <= i < j && Takes(done[..j][i], c);
  }

  // ----- A failed write ends the caller -----

  /** The steps that end a caller for certain: it lets go of the lock, or a write throws or is cut short. */
  predicate Ends(step: Step, c: int) {
    || step == Release(c) || step == Create(c, Threw)
    || step == Write(c, Threw) || step == Write(c, Torn)
    || step == StoreReady(c, Threw) || step == StoreReady(c, Torn)
  }

  ghost predicate Ended(s: State, c: int) {
    c in s.callers && s.callers[c].pc == Finished
  }

  lemma EndedStays(s: State, step: Step, atomic: bool, c: int)
    requires Ended(s, c) && Enabled(s, step, atomic)
    ensures !By(step, c) && Ended(Apply(s, step, atomic), c)
  {
  }

  lemma {:induction false} EndedIsSilent(s: State, steps: seq<Step>, atomic: bool, c: int, j: nat)
    requires Ended(s, c) && IsRun(s, steps, atomic) && j < |steps|
    ensures !By(steps[j], c)
    decreases j
  {
    EndedStays(s, steps[0], atomic, c);
    if j > 0 { EndedIsSilent(Apply(s, steps[0], atomic), steps[1..], atomic, c, j - 1); }
  }

  /** A caller whose write throws or is torn does nothing more, in particular it neither reports nor unlocks. */
  lemma {:induction false} EndingStepIsLast(s: State, steps: seq<Step>, atomic: bool, c: int, i: nat, j: nat)
    requires IsRun(s, steps, atomic) && i < j < |steps| && Ends(steps[i], c)
    ensures !By(steps[j], c)
    decreases i
  {
    var t := Apply(s, steps[0], atomic);
    if i == 0 {
      EndingStepEnds(s, steps[0], atomic, c);
      EndedIsSilent(t, steps[1..], atomic, c, j - 1);
    } else {
      EndingStepIsLast(t, steps[1..], atomic, c, i - 1, j - 1);
    }
  }

  lemma EndingStepEnds(s: State, step: Step, atomic: bool, c: int)
    requires Enabled(s, step, atomic) && Ends(step, c)
    ensures Ended(Apply(s, step, atomic), c)
  {
  }

  /**
    The steps that end a caller that had not ended: those above, a first write that is torn, the
    check of a caller with a record, and finding a lock that it can neither wait for nor reclaim.
  */
  ghost predicate EndsHere(s: State, step: Step, atomic: bool, c: int)
    requires c in s.callers
  {
    var me := s.callers[c];
    || Ends(step, c)
    || (step == Create(c, Torn) && s.lock == Absent)
    || (By(step, c) && step.Check? && me.pc == FinalCheck)
    || (By(step, c) && step.Poll? && s.ready != Some(me.digest) && (step.giveUp || s.lock == Absent))
    || (step == Recreate(c) && s.lock != Absent && !LiveOwner(s.lock, s))
    || (step == Inspect(c) && me.pc.Deciding? && s.ready != Some(me.digest) && !LiveOwner(if atomic then s.lock else me.pc.seen, s))
  }

  lemma EndsHereIff(s: State, step: Step, atomic: bool, c: int)
    requires c in s.callers && s.callers[c].pc != Finished && Enabled(s, step, atomic)
    ensures c in Apply(s, step, atomic).callers
    ensures Ended(Apply(s, step, atomic), c) <==> EndsHere(s, step, atomic, c)
  {
    if By(step, c) {
      OwnStepEndsIff(s, step, atomic);
    } else {
      OthersLeaveAlone(s, step, atomic, c);
    }
  }

  lemma OthersLeaveAlone(s: State, step: Step, atomic: bool, c: int)
    requires c in s.callers && Enabled(s, step, atomic) && !By(step, c)
    ensures c in Apply(s, step, atomic).callers && Apply(s, step, atomic).callers[c] == s.callers[c]
  {
  }

  lemma OwnStepEndsIff(s: State, step: Step, atomic: bool)
    requires !step.GroupExits? && !step.Die? && !step.Arrive? && Enabled(s, step, atomic) && s.callers[step.c].pc != Finished
    ensures step.c in Apply(s, step, atomic).callers
    ensures Apply(s, step, atomic).callers[step.c].pc == Finished <==> EndsHere(s, step, atomic, step.c)
  {
  }

  ghost predicate NeverEnds(s: State, steps: seq<Step>, atomic: bool, c: int)
    requires IsRun(s, steps, atomic) && c in s.callers
    decreases |steps|
  {
    steps == [] || (!EndsHere(s, steps[0], atomic, c) && c in Apply(s, steps[0], atomic).callers
                    && NeverEnds(Apply(s, steps[0], atomic), steps[1..], atomic, c))
  }

  lemma {:induction false} EndedForGood(s: State, steps: seq<Step>, atomic: bool, c: int)
    requires Ended(s, c) && IsRun(s, steps, atomic)
    ensures Ended(After(s, steps, atomic), c)
    decreases |steps|
  {
    if steps != [] {
      EndedStays(s, steps[0], atomic, c);
      EndedForGood(Apply(s, steps[0], atomic), steps[1..], atomic, c);
    }
  }

  /** Over every run a caller has ended if and only if one of these steps happened to it. */
  lemma {:induction false} EndedIff(s: State, steps: seq<Step>, atomic: bool, c: int)
    requires IsRun(s, steps, atomic) && c in s.callers && s.callers[c].pc != Finished
    ensures Ended(After(s, steps, atomic), c) <==> !NeverEnds(s, steps, atomic, c)
    decreases |steps|
  {
    if steps != [] {
      var t := Apply(s, steps[0], atomic);
      EndsHereIff(s, steps[0], atomic, c);
      if Ended(t, c) {
        EndedForGood(t, steps[1..], atomic, c);
      } else {
        EndedIff(t, steps[1..], atomic, c);
      }
    }
  }

  // ----- A torn lock -----

  ghost predicate TornBy(s: State, c: int) {
    s.lock == Corrupt(c) && Ended(s, c)
  }

  lemma TornStep(s: State, step: Step, atomic: bool, c: int)
    requires LockInv(s) && TornBy(s, c) && Enabled(s, step, atomic) && !step.Unlink?
    ensures LockInv(Apply(s, step, atomic)) && TornBy(Apply(s, step, atomic), c)
  {
    forall x | Running(s, x) ensures !Owning(s.callers[x].pc) { assert CallerOk(s, x); }
    StepKeepsLockInv(s, step, atomic);
  }

  lemma {:induction false} TornRun(s: State, steps: seq<Step>, atomic: bool, c: int)
    requires LockInv(s) && TornBy(s, c) && IsRun(s, steps, atomic) && NoUnlink(steps)
    ensures TornBy(After(s, steps, atomic), c)
    decreases |steps|
  {
    if steps != [] {
      TornStep(s, steps[0], atomic, c);
      assert forall i :: 0 <= i < |steps| - 1 ==> steps[1..][i] == steps[i + 1];
      TornRun(Apply(s, steps[0], atomic), steps[1..], atomic, c);
    }
  }

  /** A lock whose write was cut short stays for ever, unless an unlink was decided before; nobody takes it over. */
  lemma TornLockStays(s: State, step: Step, steps: seq<Step>, atomic: bool, c: int)
    requires LockInv(s) && Enabled(s, step, atomic)
    requires step == Write(c, Torn) || (step == Create(c, Torn) && s.lock == Absent)
    requires IsRun(Apply(s, step, atomic), steps, atomic) && NoUnlink(steps)
    ensures After(Apply(s, step, atomic), steps, atomic).lock == Corrupt(c)
  {
    StepKeepsLockInv(s, step, atomic);
    TornRun(Apply(s, step, atomic), steps, atomic, c);
  }

  // ----- Waiting -----

  /** The caller is on its way to the lock, and what it has read of it names this owner. */
  predicate Outside(pc: Pc, p: int) {
    || pc == Entered || pc == Creating || pc == Inspecting || pc == Recreating || pc == Waiting
    || (pc.Deciding? && pc.seen.Held? && pc.seen.pid == p)
  }

  /** A run in which a live owner keeps the lock, no record is ready for the caller, and it neither fails nor gives up. */
  ghost predicate OwnerStays(s: State, steps: seq<Step>, atomic: bool, c: int, p: int)
    decreases |steps|
  {
    && s.lock.Held? && s.lock.pid == p && p !in s.dead && c in s.callers && s.ready != Some(s.callers[c].digest)
    && (steps != [] ==>
          && Enabled(s, steps[0], atomic) && steps[0] != Create(c, Threw) && steps[0] != Poll(c, true)
          && OwnerStays(Apply(s, steps[0], atomic), steps[1..], atomic, c, p))
  }

  lemma StepStaysOutside(s: State, step: Step, atomic: bool, c: int, p: int)
    requires s.lock.Held? && s.lock.pid == p && p !in s.dead && c in s.callers && s.ready != Some(s.callers[c].digest)
    requires Enabled(s, step, atomic) && step != Create(c, Threw) && step != Poll(c, true)
    requires Outside(s.callers[c].pc, p)
    ensures c in Apply(s, step, atomic).callers && Outside(Apply(s, step, atomic).callers[c].pc, p)
  {
  }

  /** A caller neither takes the lock of a live owner nor ends while that owner keeps it: it waits. */
  lemma {:induction false} OwnerIsAwaited(s: State, steps: seq<Step>, atomic: bool, c: int, p: int)
    requires OwnerStays(s, steps, atomic, c, p) && Outside(s.callers[c].pc, p)
    ensures IsRun(s, steps, atomic)
    ensures c in After(s, steps, atomic).callers && Outside(After(s, steps, atomic).callers[c].pc, p)
    decreases |steps|
  {
    if steps != [] {
      StepStaysOutside(s, steps[0], atomic, c, p);
      OwnerIsAwaited(Apply(s, steps[0], atomic), steps[1..], atomic, c, p);
    }
  }

  ghost predicate LiveOwner(lock: LockFile, s: State) {
    lock.Held? && lock.pid !in s.dead
  }

  /** A run in which the lock is never held by a live owner. */
  ghost predicate NeverOwned(s: State, steps: seq<Step>, atomic: bool)
    decreases |steps|
  {
    && !LiveOwner(s.lock, s)
    && (steps != [] ==> Enabled(s, steps[0], atomic) && NeverOwned(Apply(s, steps[0], atomic), steps[1..], atomic))
  }

  /** The caller does not wait, and is not about to: it has not read of a live owner. */
  ghost predicate NotWaiting(s: State, c: int) {
    c in s.callers ==> s.callers[c].pc != Waiting && (s.callers[c].pc.Deciding? ==> !LiveOwner(s.callers[c].pc.seen, s))
  }

  lemma StepNotWaiting(s: State, step: Step, atomic: bool, c: int)
    requires NotWaiting(s, c) && !LiveOwner(s.lock, s) && Enabled(s, step, atomic)
    ensures NotWaiting(Apply(s, step, atomic), c)
  {
  }

  /** Nobody waits for an owner that is dead, or for a lock that is torn or gone. */
  lemma {:induction false} OnlyOwnersAreAwaited(s: State, steps: seq<Step>, atomic: bool, c: int)
    requires NeverOwned(s, steps, atomic) && NotWaiting(s, c)
    ensures IsRun(s, steps, atomic) && NotWaiting(After(s, steps, atomic), c)
    decreases |steps|
  {
    if steps != [] {
      StepNotWaiting(s, steps[0], atomic, c);
      OnlyOwnersAreAwaited(Apply(s, steps[0], atomic), steps[1..], atomic, c);
    }
  }

  /** A poll that ends the wait: the caller's record is ready, the lock is gone, or the caller gives up. */
  ghost predicate Leaves(s: State, step: Step, c: int) {
    step.Poll? && step.c == c && (step.giveUp || s.lock == Absent || (c in s.callers && s.ready == Some(s.callers[c].digest)))
  }

  ghost predicate NeverLeaves(s: State, steps: seq<Step>, atomic: bool, c: int)
    requires IsRun(s, steps, atomic)
    decreases |steps|
  {
    steps != [] ==> !Leaves(s, steps[0], c) && NeverLeaves(Apply(s, steps[0], atomic), steps[1..], atomic, c)
  }

  ghost predicate Gone(s: State, c: int) {
    c in s.callers && (s.callers[c].pc == FinalCheck || s.callers[c].pc == Finished)
  }

  lemma GoneStays(s: State, step: Step, atomic: bool, c: int)
    requires Gone(s, c) && Enabled(s, step, atomic)
    ensures Gone(Apply(s, step, atomic), c)
  {
  }

  lemma {:induction false} GoneForGood(s: State, steps: seq<Step>, atomic: bool, c: int)
    requires Gone(s, c) && IsRun(s, steps, atomic)
    ensures Gone(After(s, steps, atomic), c)
    decreases |steps|
  {
    if steps != [] {
      GoneStays(s, steps[0], atomic, c);
      GoneForGood(Apply(s, steps[0], atomic), steps[1..], atomic, c);
    }
  }

  lemma WaitStep(s: State, step: Step, atomic: bool, c: int)
    requires c in s.callers && s.callers[c].pc == Waiting && Enabled(s, step, atomic)
    ensures var t := Apply(s, step, atomic);
            if Leaves(s, step, c) then Gone(t, c) else c in t.callers && t.callers[c].pc == Waiting
  {
  }

  /** Over every run a waiting caller is still waiting if and only if none of its polls ended the wait. */
  lemma {:induction false} StillWaitingIff(s: State, steps: seq<Step>, atomic: bool, c: int)
    requires IsRun(s, steps, atomic) && c in s.callers && s.callers[c].pc == Waiting
    ensures c in After(s, steps, atomic).callers
    ensures After(s, steps, atomic).callers[c].pc == Waiting <==> NeverLeaves(s, steps, atomic, c)
    decreases |steps|
  {
    if steps != [] {
      WaitStep(s, steps[0], atomic, c);
      var t := Apply(s, steps[0], atomic);
      if Leaves(s, steps[0], c) {
        GoneForGood(t, steps[1..], atomic, c);
      } else {
        StillWaitingIff(t, steps[1..], atomic, c);
      }
    }
  }
}
