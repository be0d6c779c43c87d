/**
  When an unlink of the candidate setup lock can lead to a second installer
  (core/scripts/candidate-engine-readiness.ts): exactly when somebody holds the lock.
*/
module SetupUnlink {
  import opened Prelude
  import opened SetupLock

  /** `t` can come after `s` without another unlink. */
  ghost predicate Reaches(s: State, t: State) {
    exists steps :: IsRun(s, steps, false) && NoUnlink(steps) && After(s, steps, false) == t
  }

  lemma ReachesSelf(s: State)
    ensures Reaches(s, s)
  {
    assert IsRun(s, [], false) && NoUnlink([]) && After(s, [], false) == s;
  }

  lemma ReachesStep(s: State, t: State, step: Step)
    requires Reaches(s, t) && Enabled(t, step, false) && !step.Unlink?
    ensures Reaches(s, Apply(t, step, false))
  {
    var steps :| IsRun(s, steps, false) && NoUnlink(steps) && After(s, steps, false) == t;
    RunSnoc(s, steps, step, false);
    assert NoUnlink(steps + [step]);
  }

  lemma ReachedKeepsLockInv(s: State, t: State)
    requires LockInv(s) && Reaches(s, t)
    ensures LockInv(t)
  {
    var steps :| IsRun(s, steps, false) && NoUnlink(steps) && After(s, steps, false) == t;
    NoUnlinkIsGuarded(s, steps, false);
    RunKeepsLockInv(s, steps, false);
  }

  lemma Member(s: set<int>) returns (x: int)
    requires s != {}
    ensures x in s
  {
    NoMembers(s);
    x :| x in s;
  }

  lemma NoMembers(s: set<int>)
    ensures (forall y :: y !in s) ==> s == {}
  {
    if forall y :: y !in s { assert s == {}; }
  }

  lemma {:induction false} Above(s: set<int>) returns (x: int)
    ensures forall y :: y in s ==> y < x
    decreases |s|
  {
    if s == {} {
      x := 0;
    } else {
      var y := Member(s);
      var z := Above(s - {y});
      x := if z <= y then y + 1 else z;
      forall v | v in s ensures v < x {
        if v != y { assert v in s - {y}; }
      }
    }
  }

  predicate BeforeSpawn(pc: Pc) {
    pc == PreCheck || pc == Announce || pc == Spawning
  }

  /** Only caller `c` moved, and nothing else changed but the lock. */
  predicate OnlyMoved(t: State, t': State, c: int) {
    && t'.ready == t.ready && t'.dead == t.dead && c in t.callers && c in t'.callers
    && t'.callers == t.callers[c := t'.callers[c]] && t'.callers[c].pid == t.callers[c].pid
  }

  /** A caller that believes it holds the lock can start its installer, whatever the lock file says. */
  lemma StartInstaller(s: State, t: State, c: int, g: int) returns (t': State)
    requires Reaches(s, t) && Running(t, c) && BeforeSpawn(t.callers[c].pc) && g !in t.spawned
    ensures Reaches(s, t') && OnlyMoved(t, t', c) && t'.live == t.live + {g} && t'.spawned == t.spawned + {g}
  {
    t' := ToSpawning(s, t, c);
    ReachesStep(s, t', Spawn(c, g));
    t' := Apply(t', Spawn(c, g), false);
  }

  lemma ToSpawning(s: State, t: State, c: int) returns (t': State)
    requires Reaches(s, t) && Running(t, c) && BeforeSpawn(t.callers[c].pc)
    ensures Reaches(s, t') && OnlyMoved(t, t', c) && t'.callers[c].pc == Spawning && t'.live == t.live && t'.spawned == t.spawned
  {
    t' := t;
    if t'.callers[c].pc == PreCheck {
      ReachesStep(s, t', Check(c, true));
      t' := Apply(t', Check(c, true), false);
    }
    if t'.callers[c].pc == Announce {
      ReachesStep(s, t', Write(c, Wrote));
      t' := Apply(t', Write(c, Wrote), false);
    }
  }

  /** A caller past its installer can give up: it removes whatever lock there is. */
  lemma GiveUp(s: State, t: State, x: int) returns (t': State)
    requires Reaches(s, t) && Running(t, x) && Owning(t.callers[x].pc) && !BeforeSpawn(t.callers[x].pc)
    requires var me := t.callers[x];
             me.pc == Publishing || me.pc == Beating ==> me.group.Some? && me.group.value !in t.live
    ensures Reaches(s, t') && OnlyMoved(t, t', x) && t'.live == t.live && t'.spawned == t.spawned && t'.lock == Absent
  {
    t' := AfterInstall(s, t, x);
    t' := ToRelease(s, t', x);
    ReachesStep(s, t', Release(x));
    t' := Apply(t', Release(x), false);
  }

  lemma ToRelease(s: State, t: State, x: int) returns (t': State)
    requires Reaches(s, t) && Running(t, x) && GroupGone(t.callers[x].pc)
    ensures Reaches(s, t') && OnlyMoved(t, t', x) && t'.live == t.live && t'.spawned == t.spawned
    ensures t'.callers[x].pc.Releasing?
  {
    t' := t;
    if t'.callers[x].pc.Installed? {
      ReachesStep(s, t', Check(x, false));
      t' := Apply(t', Check(x, false), false);
    } else if t'.callers[x].pc == WritingReady {
      ReachesStep(s, t', StoreReady(x, Refused));
      t' := Apply(t', StoreReady(x, Refused), false);
    }
  }

  lemma AfterInstall(s: State, t: State, x: int) returns (t': State)
    requires Reaches(s, t) && Running(t, x) && Owning(t.callers[x].pc) && !BeforeSpawn(t.callers[x].pc)
    requires var me := t.callers[x];
             me.pc == Publishing || me.pc == Beating ==> me.group.Some? && me.group.value !in t.live
    ensures Reaches(s, t') && OnlyMoved(t, t', x) && t'.live == t.live && t'.spawned == t.spawned
    ensures GroupGone(t'.callers[x].pc)
  {
    t' := t;
    if t'.callers[x].pc == Publishing {
      ReachesStep(s, t', Write(x, Wrote));
      t' := Apply(t', Write(x, Wrote), false);
    }
    if t'.callers[x].pc == Beating {
      ReachesStep(s, t', Settle(x, 1));
      t' := Apply(t', Settle(x, 1), false);
    }
  }

  /** When there is no lock a newcomer can take it. */
  lemma Newcomer(s: State, t: State) returns (t': State, d: int)
    requires Reaches(s, t) && t.lock == Absent
    ensures Reaches(s, t') && Running(t', d) && BeforeSpawn(t'.callers[d].pc)
    ensures t'.live == t.live && t'.spawned == t.spawned
  {
    d := Above(t.callers.Keys);
    var pid := Above(t.dead);
    var digest := if t.ready == Some("a") then "b" else "a";
    t' := t;
    ReachesStep(s, t', Arrive(d, pid, digest));
    t' := Apply(t', Arrive(d, pid, digest), false);
    ReachesStep(s, t', CheckReady(d));
    t' := Apply(t', CheckReady(d), false);
    ReachesStep(s, t', Create(d, Wrote));
    t' := Apply(t', Create(d, Wrote), false);
  }

  /** The reclaimer creates its lock and starts its installer. */
  lemma Reclaimed(s: State, c: int) returns (t: State, g: int)
    requires Enabled(s, Unlink(c), false)
    ensures var s' := Apply(s, Unlink(c), false);
            && g !in s.spawned && Reaches(s', t) && OnlyMoved(s, t, c)
            && t.live == s.live + {g} && t.spawned == s.spawned + {g}
  {
    var s' := Apply(s, Unlink(c), false);
    g := Above(s.spawned);
    ReachesSelf(s');
    ReachesStep(s', s', Recreate(c));
    t := StartInstaller(s', Apply(s', Recreate(c), false), c, g);
  }

  /** If somebody held the lock, a second installer can come up. */
  lemma HeldUnlinkBreaks(s: State, c: int) returns (t: State)
    requires LockInv(s) && Enabled(s, Unlink(c), false) && !Unheld(s)
    ensures Reaches(Apply(s, Unlink(c), false), t) && TwoInstallers(t)
  {
    var g;
    t, g := Reclaimed(s, c);
    if s.live != {} {
      var g0 := Member(s.live);
      assert g0 in t.live && g in t.live;
    } else {
      var x := OtherOwner(s);
      StillOwner(s, t, c, x, g);
      var h;
      t, h := SecondInstaller(Apply(s, Unlink(c), false), t, x);
      assert g in t.live && h in t.live;
    }
  }

  lemma StillOwner(s: State, t: State, c: int, x: int, g: int)
    requires LockInv(s) && Enabled(s, Unlink(c), false) && Running(s, x) && Owning(s.callers[x].pc)
    requires s.live == {} && g !in s.spawned && OnlyMoved(s, t, c) && t.live == {g}
    ensures Running(t, x) && t.callers[x] == s.callers[x]
    ensures var me := t.callers[x];
            me.pc == Publishing || me.pc == Beating ==> me.group.Some? && me.group.value !in t.live
  {
    assert CallerOk(s, x);
  }

  lemma OtherOwner(s: State) returns (x: int)
    requires s.live == {} && !Unheld(s)
    ensures Running(s, x) && Owning(s.callers[x].pc)
  {
    x :| Running(s, x) && Owning(s.callers[x].pc);
  }

  /** A running caller that believes it holds the lock starts its installer, or makes room for another. */
  lemma SecondInstaller(s: State, t: State, x: int) returns (t': State, h: int)
    requires Reaches(s, t) && Running(t, x) && Owning(t.callers[x].pc) && t.live <= t.spawned
    requires var me := t.callers[x];
             me.pc == Publishing || me.pc == Beating ==> me.group.Some? && me.group.value !in t.live
    ensures Reaches(s, t') && h !in t.live && t'.live == t.live + {h}
  {
    h := Above(t.spawned);
    if BeforeSpawn(t.callers[x].pc) {
      t' := StartInstaller(s, t, x, h);
    } else {
      var free := GiveUp(s, t, x);
      var next, d := Newcomer(s, free);
      t' := StartInstaller(s, next, d, h);
    }
  }

  /**
    After an unlink, two installers can be alive without any further unlink if and
    only if an installer was alive or a running caller held the lock.
  */
  lemma UnlinkBreaksIff(s: State, c: int)
    requires LockInv(s) && Enabled(s, Unlink(c), false)
    ensures (exists t :: Reaches(Apply(s, Unlink(c), false), t) && TwoInstallers(t)) <==> !Unheld(s)
  {
    if Unheld(s) {
      UnlinkKeepsIff(s, c);
      forall t | Reaches(Apply(s, Unlink(c), false), t) ensures !TwoInstallers(t) {
        ReachedKeepsLockInv(Apply(s, Unlink(c), false), t);
      }
    } else {
      var t := HeldUnlinkBreaks(s, c);
    }
  }
}
