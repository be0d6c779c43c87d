/** Whole histories of the candidate-integrity store (core/scripts/candidate-integrity.ts). */
module IntegrityHistory {
  import opened Prelude
  import opened RepoPath
  import opened CandidateManifest
  import opened Classification
  import opened IntegrityRecords
  import opened IntegrityStore

  // ----- Every durable state of every history -----

  lemma {:induction false} KeepsAcross(log: seq<Durable>, calls: seq<MutateCall>, i: nat, j: nat)
    requires History(log, calls) && i <= j < |log|
    ensures Keeps(log[i], log[j])
    decreases j - i
  {
    if i < j {
      KeepsAcross(log, calls, i + 1, j);
      assert Keeps(log[i], log[i + 1]);
      KeepsTrans(log[i], log[i + 1], log[j]);
    }
  }

  lemma KeepsTrans(a: Durable, b: Durable, c: Durable)
    requires Keeps(a, b) && Keeps(b, c)
    ensures Keeps(a, c)
  {
    forall f | f in a.records ensures f in c.records && Follows(a.records[f], c.records[f]) {
      assert Follows(a.records[f], b.records[f]);
    }
    forall s ensures FailuresOf(a, s) <= FailuresOf(c, s) {
      assert FailuresOf(a, s) <= FailuresOf(b, s);
    }
  }

  /** A pre-manifest and its head, once durable, read the same in every later state, after any crash or recovery. */
  lemma PreManifestNeverChanges(log: seq<Durable>, calls: seq<MutateCall>, i: nat, j: nat, f: string)
    requires History(log, calls) && i <= j < |log| && f in log[i].records
    ensures f in log[j].records
    ensures log[j].records[f].pre == log[i].records[f].pre && log[j].records[f].before == log[i].records[f].before
  {
    KeepsAcross(log, calls, i, j);
  }

  /** Every mutation that was ever started ran under a durable claim, and its pre-manifest is still there. */
  lemma MutationsKeepTheirClaim(log: seq<Durable>, calls: seq<MutateCall>, c: MutateCall)
    requires History(log, calls) && c in calls
    ensures ClaimHeld(c)
    ensures var now := log[|log| - 1];
            && FileOf(c.id) in now.records
            && now.records[FileOf(c.id)].pre == c.seen.records[FileOf(c.id)].pre
            && now.records[FileOf(c.id)].pre.Some?
  {
    var i :| 0 <= i < |log| && log[i] == c.seen;
    PreManifestNeverChanges(log, calls, i, |log| - 1, FileOf(c.id));
  }

  /**
    A record that was once durably classified or disposed as anything but
    semantically equivalent blocks its commit in that state and in every later
    one, whatever crashes, failed writes and recoveries come in between.
  */
  lemma CrashSafeBlocking(log: seq<Durable>, calls: seq<MutateCall>, i: nat, j: nat,
                          names: seq<string>, f: string, head: string, reviewed: Option<string>)
    requires History(log, calls) && i <= j < |log| && Lists(names, log[j])
    requires f in log[i].records && !Hidden(f)
    requires Terminal(log[i].records[f]) && log[i].records[f].class_ != Some(SemanticallyEquivalent)
    requires Lower(head) == Lower(ToSha(log[i].records[f])) && !BoundTo(reviewed, head)
    ensures ReviewBlocked(log[j], names, head, reviewed)
    ensures ReadinessBlocked(log[j], names, head, reviewed)
  {
    KeepsAcross(log, calls, i, j);
    DurableRecordBlocks(log[j], names, f, head, reviewed);
  }

  // ----- The retry budget -----

  datatype Op =
    | RunOp(opts: RunOptions, w: World, f: Faults)
    | HydrateOp(id: Option<string>, w: World, f: Faults)

  /** Every run of the history has a fresh id and runs on `s` use the same budget. */
  ghost predicate WellPosed(ops: seq<Op>, taken: set<string>, s: Subject, n: int) {
    && (forall i :: 0 <= i < |ops| && ops[i].RunOp? ==>
          ops[i].opts.id != [] && FileOf(ops[i].opts.id) !in taken && (ops[i].opts.subject == s ==> ops[i].opts.maxExtra == n))
    && (forall i, j :: 0 <= i < j < |ops| && ops[i].RunOp? && ops[j].RunOp? ==>
          FileOf(ops[i].opts.id) != FileOf(ops[j].opts.id))
  }

  predicate MutatedOn(op: Op, r: Option<RunResult>, s: Subject) {
    op.RunOp? && op.opts.subject == s && r.Some? && r.value.Completed? && r.value.mutated
  }

  /** Completed calls on `s` that moved the head and were classified as an expansion or unverified. */
  function Spent(ops: seq<Op>, rs: seq<Option<RunResult>>, s: Subject): nat
    requires |ops| == |rs|
  {
    if ops == [] then 0
    else
      var k := |ops| - 1;
      Spent(ops[..k], rs[..k], s) + if MutatedOn(ops[k], rs[k], s) && BadClass(rs[k].value.computed) then 1 else 0
  }

  lemma SpentSnoc(ops: seq<Op>, rs: seq<Option<RunResult>>, op: Op, r: Option<RunResult>, s: Subject)
    requires |ops| == |rs|
    ensures Spent(ops + [op], rs + [r], s)
         == Spent(ops, rs, s) + if MutatedOn(op, r, s) && BadClass(r.value.computed) then 1 else 0
  {
    assert (ops + [op])[..|ops|] == ops && (rs + [r])[..|rs|] == rs;
  }

  /** Completed calls on `s` that moved the head and ended as an expansion or unverified. */
  function EndedBadly(ops: seq<Op>, rs: seq<Option<RunResult>>, s: Subject): nat
    requires |ops| == |rs|
  {
    if ops == [] then 0
    else
      var k := |ops| - 1;
      EndedBadly(ops[..k], rs[..k], s) + if MutatedOn(ops[k], rs[k], s) && BadClass(rs[k].value.class_) then 1 else 0
  }

  /** A write of the disposition this call will compute fails: its record, or the row it needs. */
  predicate WriteFails(op: Op) {
    && op.RunOp? && op.w.preRefs.Some?
    && var claim := Claim(NewRecord(op.opts), op.w);
       LostAs(PostVerdict(claim, Read(op.w), op.w.postManifest).class_, claim, op.w, op.f)
  }

  /** Completed calls on `s` whose computed class is good but whose disposition could not be stored. */
  function FreeEscalations(ops: seq<Op>, rs: seq<Option<RunResult>>, s: Subject): nat
    requires |ops| == |rs|
  {
    if ops == [] then 0
    else
      var k := |ops| - 1;
      FreeEscalations(ops[..k], rs[..k], s)
      + if MutatedOn(ops[k], rs[k], s) && WriteFails(ops[k]) && !BadClass(rs[k].value.computed) then 1 else 0
  }

  /** A call that moved the head ends badly if and only if its computed class is bad or a write fails. */
  ghost predicate EndsAsWritten(op: Op, r: Option<RunResult>) {
    op.RunOp? && r.Some? && r.value.Completed? && r.value.mutated ==>
      (BadClass(r.value.class_) <==> BadClass(r.value.computed) || WriteFails(op))
  }

  ghost predicate AllEndAsWritten(ops: seq<Op>, rs: seq<Option<RunResult>>) {
    |ops| == |rs| && forall i :: 0 <= i < |ops| ==> EndsAsWritten(ops[i], rs[i])
  }

  /** Calls that end badly are those that spent the budget plus those with a failed write, which spend nothing. */
  lemma {:induction false} EndedBadlyIsSpentPlusFree(ops: seq<Op>, rs: seq<Option<RunResult>>, s: Subject)
    requires AllEndAsWritten(ops, rs)
    ensures EndedBadly(ops, rs, s) == Spent(ops, rs, s) + FreeEscalations(ops, rs, s)
  {
    if ops != [] {
      var k := |ops| - 1;
      assert EndsAsWritten(ops[k], rs[k]);
      forall i | 0 <= i < k ensures EndsAsWritten(ops[..k][i], rs[..k][i]) { assert EndsAsWritten(ops[i], rs[i]); }
      EndedBadlyIsSpentPlusFree(ops[..k], rs[..k], s);
    }
  }

  /** No call on `s` that moves the head with a good computed class has a failed disposition write. */
  ghost predicate WritesHold(ops: seq<Op>, rs: seq<Option<RunResult>>, s: Subject)
    requires |ops| == |rs|
  {
    forall i :: 0 <= i < |ops| && MutatedOn(ops[i], rs[i], s) && WriteFails(ops[i]) ==> BadClass(rs[i].value.computed)
  }

  lemma {:induction false} NoFreeEscalationsIff(ops: seq<Op>, rs: seq<Option<RunResult>>, s: Subject)
    requires |ops| == |rs|
    ensures FreeEscalations(ops, rs, s) == 0 <==> WritesHold(ops, rs, s)
  {
    if ops != [] {
      var k := |ops| - 1;
      NoFreeEscalationsIff(ops[..k], rs[..k], s);
      assert forall i :: 0 <= i < k ==> ops[..k][i] == ops[i] && rs[..k][i] == rs[i];
      assert WritesHold(ops, rs, s) <==>
             WritesHold(ops[..k], rs[..k], s)
             && (MutatedOn(ops[k], rs[k], s) && WriteFails(ops[k]) ==> BadClass(rs[k].value.computed));
    }
  }

  /**
    Any history of runs and recoveries, with any failed writes and crashes. On one
    subject at most 1 + n calls spend the budget, and at most 1 + n end badly unless
    the disposition of a harmless one could not be stored. Once the stored count
    reaches 1 + n no later call calls the mutation, whether it completes or not.
    `counts[i]` is the stored count and `moves[i]` the number of mutations called
    before step i.
  */
  method PerformAll(store: Store, ops: seq<Op>, s: Subject, n: int)
    returns (rs: seq<Option<RunResult>>, counts: seq<nat>, ghost moves: seq<nat>)
    requires store.Valid() && WellPosed(ops, store.records.Keys, s, n)
    modifies store
    ensures store.Valid() && old(store.log) <= store.log
    ensures |rs| == |ops| && |counts| == |ops| + 1 && |moves| == |ops| + 1 && AllEndAsWritten(ops, rs)
    ensures counts[0] == FailuresOf(old(store.Now()), s) && counts[|ops|] == FailuresOf(store.Now(), s)
    ensures moves[0] == |old(store.calls)| && moves[|ops|] == |store.calls|
    ensures forall i :: 0 <= i < |ops| ==> counts[i] <= counts[i + 1] && moves[i] <= moves[i + 1] <= moves[i] + 1
    ensures forall i :: 0 <= i < |ops| && MutatedOn(ops[i], rs[i], s) ==> moves[i] < moves[i + 1]
    ensures forall i :: 0 <= i < |ops| && moves[i] < moves[i + 1] ==> MayMove(ops[i], counts[i], s, n)
    ensures Spent(ops, rs, s) <= Max(0, 1 + n - counts[0])
    ensures WritesHold(ops, rs, s) ==> EndedBadly(ops, rs, s) <= Max(0, 1 + n - counts[0])
  {
    rs, counts, moves := PerformLoop(store, ops, s, n);
    TrackedMeaning(ops, rs, counts, moves, s, n);
    EndedBadlyIsSpentPlusFree(ops, rs, s);
    NoFreeEscalationsIff(ops, rs, s);
  }

  method PerformLoop(store: Store, ops: seq<Op>, s: Subject, n: int)
    returns (rs: seq<Option<RunResult>>, counts: seq<nat>, ghost moves: seq<nat>)
    requires store.Valid() && WellPosed(ops, store.records.Keys, s, n)
    modifies store
    ensures store.Valid() && old(store.log) <= store.log && Tracked(ops, rs, counts, moves, s, n)
    ensures counts[0] == FailuresOf(old(store.Now()), s) && counts[|ops|] == FailuresOf(store.Now(), s)
    ensures moves[0] == |old(store.calls)| && moves[|ops|] == |store.calls|
    ensures counts[|ops|] <= Max(counts[0], 1 + n)
  {
    rs, counts, moves := [], [FailuresOf(store.Now(), s)], [|store.calls|];
    ghost var start := counts[0];
    for i := 0 to |ops|
      invariant store.Valid() && old(store.log) <= store.log
      invariant Tracked(ops[..i], rs, counts, moves, s, n) && counts[0] == start && moves[0] == |old(store.calls)|
      invariant counts[i] == FailuresOf(store.Now(), s) && counts[i] <= Max(start, 1 + n) && moves[i] == |store.calls|
      invariant forall k :: i <= k < |ops| && ops[k].RunOp? ==> FileOf(ops[k].opts.id) !in store.records
    {
      var r := Perform(store, ops[i], s, n);
      TrackedSnoc(ops[..i], rs, counts, moves, ops[i], r, FailuresOf(store.Now(), s), |store.calls|, s, n);
      assert ops[..i + 1] == ops[..i] + [ops[i]];
      rs, counts, moves := rs + [r], counts + [FailuresOf(store.Now(), s)], moves + [|store.calls|];
    }
    assert ops[..|ops|] == ops;
  }

  /** Only a run can call the mutation, and one on `s` only while the stored count allows it. */
  predicate MayMove(op: Op, count: nat, s: Subject, n: int) {
    op.RunOp? && (op.opts.subject == s ==> count < 1 + n)
  }

  /** What one call did: its result, and the failure counts and numbers of mutations before and after it. */
  ghost predicate StepOk(op: Op, r: Option<RunResult>, c: nat, c': nat, m: nat, m': nat, s: Subject, n: int) {
    && EndsAsWritten(op, r) && c <= c' && m <= m' <= m + 1
    && (MutatedOn(op, r, s) ==> m < m') && (m < m' ==> MayMove(op, c, s, n))
    && (MutatedOn(op, r, s) && BadClass(r.value.computed) ==> c' == c + 1)
  }

  ghost predicate Tracked(ops: seq<Op>, rs: seq<Option<RunResult>>, counts: seq<nat>, moves: seq<nat>, s: Subject, n: int) {
    && |rs| == |ops| && |counts| == |ops| + 1 && |moves| == |ops| + 1
    && (forall i :: 0 <= i < |ops| ==> StepOk(ops[i], rs[i], counts[i], counts[i + 1], moves[i], moves[i + 1], s, n))
    && Spent(ops, rs, s) + counts[0] <= counts[|ops|]
  }

  lemma TrackedMeaning(ops: seq<Op>, rs: seq<Option<RunResult>>, counts: seq<nat>, moves: seq<nat>, s: Subject, n: int)
    requires Tracked(ops, rs, counts, moves, s, n)
    ensures AllEndAsWritten(ops, rs)
    ensures forall i :: 0 <= i < |ops| ==> counts[i] <= counts[i + 1] && moves[i] <= moves[i + 1] <= moves[i] + 1
    ensures forall i :: 0 <= i < |ops| && MutatedOn(ops[i], rs[i], s) ==> moves[i] < moves[i + 1]
    ensures forall i :: 0 <= i < |ops| && moves[i] < moves[i + 1] ==> MayMove(ops[i], counts[i], s, n)
  {
    forall i | 0 <= i < |ops|
      ensures EndsAsWritten(ops[i], rs[i]) && counts[i] <= counts[i + 1] && moves[i] <= moves[i + 1] <= moves[i] + 1
      ensures MutatedOn(ops[i], rs[i], s) ==> moves[i] < moves[i + 1]
      ensures moves[i] < moves[i + 1] ==> MayMove(ops[i], counts[i], s, n)
    {
      assert StepOk(ops[i], rs[i], counts[i], counts[i + 1], moves[i], moves[i + 1], s, n);
    }
  }

  lemma TrackedSnoc(ops: seq<Op>, rs: seq<Option<RunResult>>, counts: seq<nat>, moves: seq<nat>,
                    op: Op, r: Option<RunResult>, count: nat, move: nat, s: Subject, n: int)
    requires Tracked(ops, rs, counts, moves, s, n)
    requires StepOk(op, r, counts[|ops|], count, moves[|ops|], move, s, n)
    ensures Tracked(ops + [op], rs + [r], counts + [count], moves + [move], s, n)
  {
    SpentSnoc(ops, rs, op, r, s);
    var ops', rs', counts', moves' := ops + [op], rs + [r], counts + [count], moves + [move];
    forall i | 0 <= i < |ops'|
      ensures StepOk(ops'[i], rs'[i], counts'[i], counts'[i + 1], moves'[i], moves'[i + 1], s, n)
    {
      if i < |ops| { assert StepOk(ops[i], rs[i], counts[i], counts[i + 1], moves[i], moves[i + 1], s, n); }
    }
  }

  method Perform(store: Store, op: Op, s: Subject, n: int) returns (r: Option<RunResult>)
    requires store.Valid()
    requires op.RunOp? ==> op.opts.id != [] && FileOf(op.opts.id) !in store.records
    requires op.RunOp? && op.opts.subject == s ==> op.opts.maxExtra == n
    modifies store
    ensures store.Valid() && old(store.log) <= store.log
    ensures forall f :: f in store.records ==> f in old(store.records) || (op.RunOp? && f == FileOf(op.opts.id))
    ensures StepOk(op, r, FailuresOf(old(store.Now()), s), FailuresOf(store.Now(), s), |old(store.calls)|, |store.calls|, s, n)
    ensures FailuresOf(old(store.Now()), s) <= FailuresOf(store.Now(), s)
                <= Max(FailuresOf(old(store.Now()), s), 1 + n)
  {
    match op {
      case RunOp(opts, w, f) =>
        var res := store.RunCandidateMovingMutation(opts, w, f);
        return Some(res);
      case HydrateOp(id, w, f) =>
        var _ := store.HydrateAndCompleteIncompleteMutation(id, w, f);
        return None;
    }
  }

  // ----- Escalations are free -----

  const FAILED_DISPOSITION := Faults(
    Written, Written, Written, Written, Written, Written, Written, Written, Written,
    Failed, Written, Failed, Failed, Written)

  const STILL_WORLD := World(Some(Refs("b", "h")), Some([]), true, false, Some(Refs("b", "h")), Some([]))

  function Letters(k: nat): string {
    seq(k, _ => 'a')
  }

  lemma LettersFile(k: nat)
    ensures FileOf(Letters(k)) == Letters(k) + ".json"
  {
    SafeIdKept(Letters(k));
  }

  method EscalateOnce(store: Store, k: nat, s: Subject, n: nat) returns (res: RunResult)
    requires store.Valid() && s !in store.failures && forall f :: f in store.records ==> |f| < k + 6
    modifies store
    ensures store.Valid() && store.failures == old(store.failures) && |store.calls| == |old(store.calls)| + 1
    ensures forall f :: f in store.records ==> |f| < k + 7
    ensures res.Completed? && res.mutated && res.class_ == Unverified
  {
    var opts := RunOptions(Letters(k + 1), ConflictRepair, DeclaredScope([], []), s, n);
    LettersFile(k + 1);
    StillIsEquivalent(NewRecord(opts));
    res := store.RunCandidateMovingMutation(opts, STILL_WORLD, FAILED_DISPOSITION);
  }

  /**
    Any number of calls can move the head and end unverified without spending the
    budget, when the mutation is harmless but its disposition cannot be stored.
  */
  method EscalationsAreFree(k: nat, s: Subject, n: nat) returns (store: Store, rs: seq<RunResult>)
    ensures store.Valid() && |store.calls| == |rs| == k && s !in store.failures
    ensures forall r :: r in rs ==> r.Completed? && r.mutated && r.class_ == Unverified
  {
    store := new Store();
    rs := [];
    while |rs| < k
      invariant |rs| <= k && store.Valid() && fresh(store) && s !in store.failures && |store.calls| == |rs|
      invariant forall f :: f in store.records ==> |f| < |rs| + 6
      invariant forall r :: r in rs ==> r.Completed? && r.mutated && r.class_ == Unverified
    {
      var r := EscalateOnce(store, |rs|, s, n);
      rs := rs + [r];
    }
  }

  lemma StillIsEquivalent(start: MutationRecord)
    ensures PostVerdict(Claim(start, STILL_WORLD), Read(STILL_WORLD), STILL_WORLD.postManifest).class_
         == SemanticallyEquivalent
  {
    assert Patches([]) == [];
  }
}
