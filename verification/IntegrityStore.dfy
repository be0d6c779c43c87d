/**
  The candidate-integrity protocol: write-ahead records around a head-moving
  mutation, crash recovery and the retry budget (core/scripts/candidate-integrity.ts).

  Every file write is atomic. Its outcome is an oracle: it succeeds, it fails, or
  the process dies just before or just after it. Callbacks that read git are
  oracles too. A ghost log keeps every durable state the store has been in, and a
  ghost list keeps every call of the mutation with the durable state it saw.
*/
module IntegrityStore {
  import opened Prelude
  import opened RepoPath
  import opened CandidateManifest
  import opened Classification
  import opened IntegrityRecords

  datatype Outcome = Written | Failed | Crashed(landed: bool)

  predicate Lands(o: Outcome) {
    o.Written? || (o.Crashed? && o.landed)
  }

  datatype Refs = Refs(baseSha: string, candidateSha: string)

  /** What the callbacks of one call will answer. None stands for null or a thrown error. */
  datatype World = World(
    preRefs: Option<Refs>, preManifest: Option<seq<Entry>>, mutateSucceeds: bool,
    postReadThrows: bool, postRefs: Option<Refs>, postManifest: Option<seq<Entry>>)

  datatype RunOptions = RunOptions(
    id: string, how: MutationMethod, declared: DeclaredScope, subject: Subject, maxExtra: int)

  /** The outcome of each write a run can make, in order. */
  datatype Faults = Faults(
    preRecord: Outcome, prePointer: Outcome, abortRecord: Outcome, exhaustedRecord: Outcome,
    claimRecord: Outcome, claimPointer: Outcome, postRecord: Outcome, postPointer: Outcome,
    budget: Outcome, classifiedRecord: Outcome, row: Outcome, retryRecord: Outcome, retryRow: Outcome,
    disposedRecord: Outcome)

  /** `escalated` marks a failed disposition write, which turns the `computed` class into unverified. */
  datatype RunResult =
    | Completed(mutated: bool, computed: Class, class_: Class, escalated: bool, exhausted: bool)
    | Threw
    | Died

  datatype MutateCall = MutateCall(id: string, seen: Durable)

  predicate BadClass(c: Class) {
    c == ScopeExpansion || c == Unverified
  }

  function FailuresOf(d: Durable, s: Subject): nat {
    if s in d.failures then d.failures[s] else 0
  }

  /** What no later durable state may lose: pre-manifests, terminal records, index rows and failure counts. */
  ghost predicate Keeps(a: Durable, b: Durable) {
    && (forall f :: f in a.records ==> f in b.records && Follows(a.records[f], b.records[f]))
    && a.rows <= b.rows
    && (forall s :: FailuresOf(a, s) <= FailuresOf(b, s))
  }

  predicate Follows(r: MutationRecord, r': MutationRecord) {
    && r'.id == r.id && r'.pre == r.pre && r'.before == r.before
    && (Terminal(r) ==> Terminal(r') && r'.after == r.after && (r'.class_ == r.class_ || r'.class_ == Some(Unverified)))
  }

  ghost predicate ClaimHeld(c: MutateCall) {
    && c.seen.active == Some(c.id) && FileOf(c.id) in c.seen.records
    && var r := c.seen.records[FileOf(c.id)];
       r.id == c.id && r.lifecycle == MutationClaimed && r.pre.Some? && r.before.Some?
  }

  /** A record that may replace what is on disk under its name. */
  ghost predicate MayWrite(d: Durable, r: MutationRecord) {
    && GoodRecord(r)
    && (FileOf(r.id) in d.records ==> Follows(d.records[FileOf(r.id)], r))
    && (forall row :: row in d.rows ==> FileOf(row.id) != FileOf(r.id) || (Quiet(row) ==> Justifies(r, row)))
  }

  lemma WriteKeepsGood(d: Durable, r: MutationRecord)
    requires Good(d) && MayWrite(d, r)
    ensures var d' := d.(records := d.records[FileOf(r.id) := r]);
            Good(d') && Keeps(d, d')
  {
    var d' := d.(records := d.records[FileOf(r.id) := r]);
    forall row | row in d'.rows ensures GoodRow(row) && Backed(d'.records, row) {
      assert Backed(d.records, row);
    }
  }

  /** No row of the index speaks quietly for this file. */
  ghost predicate NoQuietRow(d: Durable, file: string) {
    forall row :: row in d.rows && FileOf(row.id) == file ==> !Quiet(row)
  }

  lemma AppendKeepsGood(d: Durable, row: Row)
    requires Good(d) && GoodRow(row) && Backed(d.records, row)
    ensures var d' := d.(rows := d.rows + [row]);
            Good(d') && Keeps(d, d')
  {
    var d' := d.(rows := d.rows + [row]);
    assert forall q :: q in d'.rows ==> q in d.rows || q == row;
  }

  lemma CountKeepsGood(d: Durable, s: Subject)
    requires Good(d)
    ensures var d' := d.(failures := d.failures[s := FailuresOf(d, s) + 1]);
            Good(d') && Keeps(d, d')
  {
  }

  /** Every state so far is good, each keeps what the one before held, and every mutation saw its claim. */
  ghost predicate History(log: seq<Durable>, calls: seq<MutateCall>) {
    && log != []
    && (forall i :: 0 <= i < |log| ==> Good(log[i]))
    && (forall i :: 0 <= i < |log| - 1 ==> Keeps(log[i], log[i + 1]))
    && (forall c :: c in calls ==> ClaimHeld(c) && c.seen in log)
  }

  lemma HistoryGrows(log: seq<Durable>, calls: seq<MutateCall>, d: Durable)
    requires History(log, calls) && Good(d) && Keeps(log[|log| - 1], d)
    ensures History(log + [d], calls)
  {
    var log' := log + [d];
    forall i | 0 <= i < |log'| - 1 ensures Keeps(log'[i], log'[i + 1]) {
      if i < |log| - 1 { assert Keeps(log[i], log[i + 1]); }
    }
  }

  lemma FreshHasNoRow(d: Durable, file: string)
    requires Good(d) && file !in d.records
    ensures NoQuietRow(d, file)
  {
    assert forall row :: row in d.rows ==> Backed(d.records, row);
  }

  class Store {
    var records: map<string, MutationRecord>
    var active: Option<string>
    var rows: seq<Row>
    var failures: map<Subject, nat>
    ghost var log: seq<Durable>
    ghost var calls: seq<MutateCall>

    function Now(): Durable
      reads this
    {
      Durable(records, active, rows, failures)
    }

    ghost predicate Valid()
      reads this
    {
      History(log, calls) && log[|log| - 1] == Now()
    }

    constructor ()
      ensures Valid() && Now() == Durable(map[], None, [], map[]) && log == [Now()] && calls == []
    {
      records, active, rows, failures := map[], None, [], map[];
      log, calls := [Durable(map[], None, [], map[])], [];
    }

    // ----- Single writes -----

    method WriteRecord(r: MutationRecord, o: Outcome)
      requires Valid() && MayWrite(Now(), r)
      modifies this
      ensures Valid() && calls == old(calls)
      ensures Now() == if Lands(o) then old(Now()).(records := old(records)[FileOf(r.id) := r]) else old(Now())
      ensures log == if Lands(o) then old(log) + [Now()] else old(log)
    {
      if Lands(o) {
        WriteKeepsGood(Now(), r);
        records := records[FileOf(r.id) := r];
        HistoryGrows(log, calls, Now());
        log := log + [Now()];
      }
    }

    method WritePointer(id: string, o: Outcome)
      requires Valid()
      modifies this
      ensures Valid() && calls == old(calls)
      ensures Now() == if Lands(o) then old(Now()).(active := Some(id)) else old(Now())
      ensures log == if Lands(o) then old(log) + [Now()] else old(log)
    {
      if Lands(o) {
        active := Some(id);
        HistoryGrows(log, calls, Now());
        log := log + [Now()];
      }
    }

    method PersistMutationRecord(r: MutationRecord, o1: Outcome, o2: Outcome) returns (o: Outcome)
      requires Valid() && MayWrite(Now(), r)
      modifies this
      ensures Valid() && calls == old(calls) && old(log) <= log
      ensures rows == old(rows) && failures == old(failures)
      ensures records == if Lands(o1) then old(records)[FileOf(r.id) := r] else old(records)
      ensures active == if o1.Written? && InFlight(r) && Lands(o2) then Some(r.id) else old(active)
      ensures o == if o1.Written? && InFlight(r) then o2 else o1
    {
      WriteRecord(r, o1);
      if !o1.Written? || !InFlight(r) { return o1; }
      WritePointer(r.id, o2);
      return o2;
    }

    method AppendInvalidationRecord(row: Row, o: Outcome)
      requires Valid() && GoodRow(row) && Backed(records, row)
      modifies this
      ensures Valid() && calls == old(calls)
      ensures Now() == if Lands(o) then old(Now()).(rows := old(rows) + [row]) else old(Now())
      ensures log == if Lands(o) then old(log) + [Now()] else old(log)
    {
      if Lands(o) {
        AppendKeepsGood(Now(), row);
        rows := rows + [row];
        HistoryGrows(log, calls, Now());
        log := log + [Now()];
      }
    }

    method RecordBudgetFailure(s: Subject, o: Outcome)
      requires Valid()
      modifies this
      ensures Valid() && calls == old(calls)
      ensures Now() == if Lands(o) then old(Now()).(failures := old(failures)[s := FailuresOf(old(Now()), s) + 1]) else old(Now())
      ensures log == if Lands(o) then old(log) + [Now()] else old(log)
    {
      if Lands(o) {
        CountKeepsGood(Now(), s);
        failures := failures[s := FailuresOf(Now(), s) + 1];
        HistoryGrows(log, calls, Now());
        log := log + [Now()];
      }
    }

    // ----- One run -----

    /** Capture the pre-manifest and make it durable. */
    method PrePersist(start: MutationRecord, w: World, f: Faults)
      returns (rec: MutationRecord, stop: Option<RunResult>)
      requires Valid() && start.id != [] && start.lifecycle == Idle && FileOf(start.id) !in records
      modifies this
      ensures Valid() && old(log) <= log && calls == old(calls) && rows == old(rows) && failures == old(failures)
      ensures OnlyTouches(old(Now()), Now(), start.id)
      ensures stop.Some? ==> stop.value.Died? || stop.value == NotMutated(false)
      ensures stop.None? <==> w.preRefs.Some? && w.preManifest.Some? && f.preRecord.Written? && f.prePointer.Written?
      ensures stop.None? ==> rec == Claim(start, w).(lifecycle := PrePersisted)
                             && records == old(records)[FileOf(start.id) := rec]
    {
      rec := start;
      FreshHasNoRow(Now(), FileOf(start.id));
      if w.preRefs.None? || w.preManifest.None? {
        var r := Abort(rec, f.abortRecord);
        return rec, Some(r);
      }
      rec := Claim(start, w).(lifecycle := PrePersisted);
      var o := PersistMutationRecord(rec, f.preRecord, f.prePointer);
      if o.Crashed? { return rec, Some(Died); }
      if o.Failed? {
        var r := Abort(rec, f.abortRecord);
        return rec, Some(r);
      }
      return rec, None;
    }

    /** Check the budget, then claim: nothing has moved yet when `stop` is set. */
    method ClaimMutation(pre: MutationRecord, maxExtra: int, f: Faults)
      returns (rec: MutationRecord, stop: Option<RunResult>)
      requires Valid() && pre.id != [] && pre.lifecycle == PrePersisted
      requires FileOf(pre.id) in records && records[FileOf(pre.id)] == pre && NoQuietRow(Now(), FileOf(pre.id))
      modifies this
      ensures Valid() && old(log) <= log && calls == old(calls) && rows == old(rows) && failures == old(failures)
      ensures OnlyTouches(old(Now()), Now(), pre.id)
      ensures stop.Some? ==> stop.value.Died? || stop.value == NotMutated(FailuresOf(old(Now()), pre.subject) >= 1 + maxExtra)
      ensures stop.None? <==> FailuresOf(old(Now()), pre.subject) < 1 + maxExtra
                              && f.claimRecord.Written? && f.claimPointer.Written?
      ensures stop.None? ==> rec == pre.(lifecycle := MutationClaimed) && active == Some(pre.id)
                             && records == old(records)[FileOf(pre.id) := rec]
    {
      rec := pre;
      if FailuresOf(Now(), pre.subject) >= 1 + maxExtra {
        rec := Ended(rec, Unverified, Disposed);
        var o' := PersistMutationRecord(rec, f.exhaustedRecord, Written);
        return rec, Some(if o'.Crashed? then Died else NotMutated(true));
      }
      rec := rec.(lifecycle := MutationClaimed);
      var o := PersistMutationRecord(rec, f.claimRecord, f.claimPointer);
      if o.Crashed? { return rec, Some(Died); }
      if o.Failed? {
        var r := Abort(rec, f.abortRecord);
        return rec, Some(r);
      }
      return rec, None;
    }

    method Abort(rec: MutationRecord, o: Outcome) returns (r: RunResult)
      requires Valid() && MayWrite(Now(), Ended(rec, Unverified, Disposed))
      modifies this
      ensures Valid() && old(log) <= log && calls == old(calls) && rows == old(rows) && failures == old(failures)
      ensures OnlyTouches(old(Now()), Now(), rec.id)
      ensures r.Died? || r == NotMutated(false)
    {
      var o' := PersistMutationRecord(Ended(rec, Unverified, Disposed), o, Written);
      return if o'.Crashed? then Died else NotMutated(false);
    }

    /** Call the mutation, then record that the head is being read again. */
    method Mutate(claim: MutationRecord, w: World, f: Faults) returns (rec: MutationRecord, died: bool)
      requires Valid() && claim.id != [] && claim.lifecycle == MutationClaimed && claim.pre.Some? && claim.before.Some?
      requires FileOf(claim.id) in records && records[FileOf(claim.id)] == claim && active == Some(claim.id)
      requires NoQuietRow(Now(), FileOf(claim.id))
      modifies this
      ensures Valid() && old(log) <= log && rows == old(rows) && failures == old(failures) && active == old(active)
      ensures calls == old(calls) + [MutateCall(claim.id, old(Now()))]
      ensures OnlyTouches(old(Now()), Now(), claim.id) && Drives(Now(), rec) && !Terminal(records[FileOf(claim.id)])
      ensures rec == claim.(lifecycle := AuthoritativePostRead)
      ensures died <==> !w.postReadThrows && (f.postRecord.Crashed? || (f.postRecord.Written? && f.postPointer.Crashed?))
    {
      calls := calls + [MutateCall(claim.id, Now())];
      assert log[|log| - 1] in log;
      rec, died := claim.(lifecycle := AuthoritativePostRead), false;
      if !w.postReadThrows {
        var o := PersistMutationRecord(rec, f.postRecord, f.postPointer);
        died := o.Crashed?;
      }
    }

    /** Call the mutation, read the head again, and classify what happened. */
    method MutateAndClassify(claim: MutationRecord, w: World, f: Faults)
      returns (rec: MutationRecord, v: Verdict, died: bool)
      requires Valid() && claim.id != [] && claim.lifecycle == MutationClaimed && claim.pre.Some? && claim.before.Some?
      requires FileOf(claim.id) in records && records[FileOf(claim.id)] == claim && active == Some(claim.id)
      requires NoQuietRow(Now(), FileOf(claim.id))
      modifies this
      ensures Valid() && old(log) <= log && rows == old(rows) && failures == old(failures) && active == old(active)
      ensures calls == old(calls) + [MutateCall(claim.id, old(Now()))]
      ensures OnlyTouches(old(Now()), Now(), claim.id) && Drives(Now(), rec) && rec.id == claim.id
      ensures !Terminal(records[FileOf(rec.id)])
      ensures died ==> !w.postReadThrows && (f.postRecord.Crashed? || f.postPointer.Crashed?)
      ensures !died ==>
                && v == PostVerdict(claim, Read(w), w.postManifest)
                && rec.subject == claim.subject && ShaChanged(rec) == ShaChanged(Moved(claim, w))
                && rec.pre == claim.pre && rec.before == claim.before && rec.after == Moved(claim, w).after
    {
      v := Verdict(Unverified, {});
      rec, died := Mutate(claim, w, f);
      if died { return; }
      rec, v := ClassifyPost(rec, Read(w), w.postManifest);
      var noOp := w.mutateSucceeds && OrEmpty(rec.before) != [] && rec.before == rec.after;
      if noOp && v.class_ == ScopeExpansion && v.differing == {} {
        v := Verdict(SemanticallyEquivalent, {});
      }
    }

    method PersistClassifiedDisposition(rec: MutationRecord, o1: Outcome, o2: Outcome) returns (o: Outcome)
      requires Valid() && Drives(Now(), rec) && GoodRecord(rec) && rec.lifecycle == Classified
      modifies this
      ensures Valid() && old(log) <= log && calls == old(calls) && failures == old(failures) && active == old(active)
      ensures OnlyTouches(old(Now()), Now(), rec.id)
      ensures o.Written? ==> FileOf(rec.id) in records && records[FileOf(rec.id)] == rec && RowsOnlyQuietFor(Now(), rec)
      ensures o.Failed? ==> Drives(Now(), rec) && rows == old(rows)
      ensures o.Failed? <==> Fails(rec.disposition.value, o1, o2)
      ensures o.Crashed? <==> o1.Crashed? || (o1.Written? && rec.disposition.value.invalidatedReadiness && o2.Crashed?)
      ensures o.Written? ==> Indexed(old(rows), rows, rec.id, rec.before, rec.after, rec.class_.value)
    {
      o := PersistMutationRecord(rec, o1, Written);
      if o.Written? && rec.disposition.value.invalidatedReadiness {
        var row := RowFor(rec.id, rec, rec.class_.value, rec.disposition.value);
        AppendInvalidationRecord(row, o2);
        o := o2;
      }
    }

    /** Make the disposition durable; when that fails, try to leave an unverified record and return Failed. */
    method Settle(rec: MutationRecord, f: Faults, indexRetry: bool) returns (o: Outcome)
      requires Valid() && Drives(Now(), rec) && GoodRecord(rec) && rec.lifecycle == Classified
      modifies this
      ensures Valid() && old(log) <= log && calls == old(calls) && active == old(active) && failures == old(failures)
      ensures OnlyTouches(old(Now()), Now(), rec.id)
      ensures o.Written? ==>
                FileOf(rec.id) in records && SettledAs(records[FileOf(rec.id)], rec, rec.class_.value)
      ensures !o.Crashed? ==> (o.Failed? <==> Fails(rec.disposition.value, f.classifiedRecord, f.row))
      ensures f.classifiedRecord.Failed? && !f.retryRecord.Crashed? && !f.retryRow.Crashed? ==> o.Failed?
      ensures f.classifiedRecord.Written? && f.row.Written? && !f.disposedRecord.Crashed? ==> o.Written?
      ensures o.Written? ==> Indexed(old(rows), rows, rec.id, rec.before, rec.after, rec.class_.value)
      ensures o.Failed? && Lands(f.retryRecord) ==>
                FileOf(rec.id) in records && SettledAs(records[FileOf(rec.id)], rec, Unverified)
      ensures o.Failed? && indexRetry && f.retryRow.Written? ==> Indexed(old(rows), rows, rec.id, rec.before, rec.after, Unverified)
    {
      o := PersistClassifiedDisposition(rec, f.classifiedRecord, f.row);
      if o.Crashed? { return; }
      if o.Failed? {
        o := Escalate(rec, f, indexRetry);
        return;
      }
      var crashed := Finish(rec, f.disposedRecord);
      if crashed { o := f.disposedRecord; }
    }

    /** Mark a classified record as disposed; a failed write leaves it classified. */
    method Finish(rec: MutationRecord, o: Outcome) returns (crashed: bool)
      requires Valid() && GoodRecord(rec) && rec.lifecycle == Classified
      requires FileOf(rec.id) in records && records[FileOf(rec.id)] == rec && RowsOnlyQuietFor(Now(), rec)
      modifies this
      ensures Valid() && old(log) <= log && calls == old(calls) && active == old(active)
      ensures failures == old(failures) && rows == old(rows) && OnlyTouches(old(Now()), Now(), rec.id)
      ensures FileOf(rec.id) in records && SettledAs(records[FileOf(rec.id)], rec, rec.class_.value)
      ensures crashed == o.Crashed?
    {
      var o' := PersistMutationRecord(rec.(lifecycle := Disposed), o, Written);
      return o'.Crashed?;
    }

    method Escalate(rec: MutationRecord, f: Faults, indexRetry: bool) returns (o: Outcome)
      requires Valid() && Drives(Now(), rec)
      modifies this
      ensures Valid() && old(log) <= log && calls == old(calls) && active == old(active) && failures == old(failures)
      ensures OnlyTouches(old(Now()), Now(), rec.id)
      ensures !o.Written?
      ensures !f.retryRecord.Crashed? && !f.retryRow.Crashed? ==> o.Failed?
      ensures Lands(f.retryRecord) ==> FileOf(rec.id) in records && SettledAs(records[FileOf(rec.id)], rec, Unverified)
      ensures o.Failed? && indexRetry && f.retryRow.Written? ==> Indexed(old(rows), rows, rec.id, rec.before, rec.after, Unverified)
    {
      var fail := Ended(rec, Unverified, Classified);
      o := PersistMutationRecord(fail, f.retryRecord, Written);
      if o.Crashed? { return; }
      o := Failed;
      if indexRetry {
        AppendInvalidationRecord(RowFor(rec.id, fail, Unverified, fail.disposition.value), f.retryRow);
        if f.retryRow.Crashed? { o := f.retryRow; }
      }
    }

    /** A bad class spends the budget of its subject; a write that fails reaches the caller. */
    method Spend(rec: MutationRecord, c: Class, maxExtra: int, o: Outcome) returns (stop: Option<RunResult>, exhausted: bool)
      requires Valid() && Drives(Now(), rec)
      modifies this
      ensures Valid() && old(log) <= log && calls == old(calls) && active == old(active)
      ensures records == old(records) && rows == old(rows) && Drives(Now(), rec)
      ensures failures == old(failures) || (BadClass(c) && Counted(old(failures), failures, rec.subject))
      ensures stop.None? <==> !BadClass(c) || o.Written?
      ensures stop.Some? ==> stop.value.Died? || stop.value.Threw?
      ensures stop.None? && BadClass(c) ==> Counted(old(failures), failures, rec.subject)
      ensures stop.None? ==> (exhausted <==> BadClass(c) && FailuresOf(Now(), rec.subject) >= 1 + maxExtra)
    {
      exhausted := false;
      if BadClass(c) {
        RecordBudgetFailure(rec.subject, o);
        if o.Crashed? { return Some(Died), false; }
        if o.Failed? { return Some(Threw), false; }
        exhausted := FailuresOf(Now(), rec.subject) >= 1 + maxExtra;
      }
      return None, exhausted;
    }

    /** Spend the budget, then settle the disposition. */
    method Dispose(rec: MutationRecord, v: Verdict, maxExtra: int, f: Faults) returns (res: RunResult)
      requires Valid() && Drives(Now(), rec) && !Terminal(records[FileOf(rec.id)])
      modifies this
      ensures Valid() && old(log) <= log && calls == old(calls) && active == old(active)
      ensures OnlyTouches(old(Now()), Now(), rec.id)
      ensures failures == old(failures) || (BadClass(v.class_) && Counted(old(failures), failures, rec.subject))
      ensures res.Completed? ==> res.mutated && res.computed == v.class_
                                 && res.class_ == (if res.escalated then Unverified else v.class_)
      ensures res.Completed? && BadClass(v.class_) ==> Counted(old(failures), failures, rec.subject)
      ensures res.Completed? ==> (res.escalated <==> Fails(DispositionFor(v.class_, ShaChanged(rec)), f.classifiedRecord, f.row))
      ensures res.Completed? && !res.escalated ==>
                FileOf(rec.id) in records && SettledAs(records[FileOf(rec.id)], rec, v.class_)
      ensures !BadClass(v.class_) && f.classifiedRecord.Failed? && !f.retryRecord.Crashed? && !f.retryRow.Crashed?
              ==> res == Completed(true, v.class_, Unverified, true, false)
      ensures f.budget.Written? && f.classifiedRecord.Written? && f.row.Written? && !f.disposedRecord.Crashed?
              ==> res.Completed? && !res.escalated
      ensures res.Completed? && (!res.escalated || f.retryRow.Written?) ==>
                Indexed(old(rows), rows, rec.id, rec.before, rec.after, res.class_)
      ensures res.Completed? && res.escalated && Lands(f.retryRecord) ==>
                FileOf(rec.id) in records && SettledAs(records[FileOf(rec.id)], rec, Unverified)
      ensures res.Completed? ==> (res.exhausted <==> BadClass(v.class_) && FailuresOf(Now(), rec.subject) >= 1 + maxExtra)
    {
      var stop, exhausted := Spend(rec, v.class_, maxExtra, f.budget);
      if stop.Some? { return stop.value; }
      var o := Settle(Ended(rec, v.class_, Classified), f, true);
      if o.Crashed? { return Died; }
      return Completed(true, v.class_, if o.Failed? then Unverified else v.class_, o.Failed?, exhausted);
    }

    /** The whole lifecycle of one call, from an idle record with a fresh mutation id. */
    method RunLifecycle(start: MutationRecord, maxExtra: int, w: World, f: Faults) returns (res: RunResult)
      requires Valid() && start.id != [] && start.lifecycle == Idle && FileOf(start.id) !in records
      modifies this
      ensures Valid() && old(log) <= log && OnlyTouches(old(Now()), Now(), start.id)
      ensures calls == old(calls) || (|calls| == |old(calls)| + 1 && old(calls) < calls
                                      && ClaimOf(calls[|old(calls)|], start.id, w))
      ensures res.Completed? ==> (res.mutated <==> calls != old(calls))
      ensures calls != old(calls) ==> FileOf(start.id) in records && active == Some(start.id)
      ensures failures == old(failures) || (calls != old(calls) && Counted(old(failures), failures, start.subject))
      ensures res.Completed? && res.mutated && BadClass(res.computed) ==> Counted(old(failures), failures, start.subject)
      ensures res.Completed? && !(res.mutated && BadClass(res.computed)) ==> failures == old(failures)
      ensures res.Completed? && res.mutated ==>
                && w.preRefs.Some? && res.computed == PostVerdict(Claim(start, w), Read(w), w.postManifest).class_
                && (res.escalated <==> LostAs(res.computed, Claim(start, w), w, f))
                && res.class_ == (if res.escalated then Unverified else res.computed)
                && (!res.escalated || Lands(f.retryRecord) ==>
                      FileOf(start.id) in records && SettledAs(records[FileOf(start.id)], Moved(Claim(start, w), w), res.class_))
                && (!res.escalated || f.retryRow.Written? ==>
                      Indexed(old(rows), rows, start.id, Claim(start, w).before, Moved(Claim(start, w), w).after, res.class_))
                && (res.exhausted <==> BadClass(res.computed) && FailuresOf(Now(), start.subject) >= 1 + maxExtra)
      ensures calls != old(calls) <==> MayMutate(old(Now()), start.subject, maxExtra, w, f)
      ensures res.Completed? && !res.mutated ==> res == NotMutated(BudgetGone(old(Now()), start.subject, maxExtra, w, f)) && rows == old(rows)
      ensures calls != old(calls) && NoLaterFault(f) ==> res.Completed? && !res.escalated
      ensures SmoothClaim(start.subject, maxExtra, w, f, old(Now())) && f.classifiedRecord.Failed?
              && !BadClass(PostVerdict(Claim(start, w), Read(w), w.postManifest).class_)
              ==> res.Completed? && res.mutated && res.escalated
    {
      ghost var d0 := records;
      var claim, stop := UpToClaim(start, maxExtra, w, f);
      ghost var d1 := records;
      if stop.Some? { return stop.value; }
      res := AfterClaim(claim, maxExtra, w, f);
      TouchesTrans(d0, d1, records, FileOf(start.id));
    }

    method UpToClaim(start: MutationRecord, maxExtra: int, w: World, f: Faults)
      returns (claim: MutationRecord, stop: Option<RunResult>)
      requires Valid() && start.id != [] && start.lifecycle == Idle && FileOf(start.id) !in records
      modifies this
      ensures Valid() && old(log) <= log && calls == old(calls) && rows == old(rows) && failures == old(failures)
      ensures OnlyTouches(old(Now()), Now(), start.id)
      ensures stop.Some? ==> stop.value.Died? || stop.value == NotMutated(BudgetGone(old(Now()), start.subject, maxExtra, w, f))
      ensures stop.None? <==> MayMutate(old(Now()), start.subject, maxExtra, w, f)
      ensures stop.None? ==> && claim == Claim(start, w) && active == Some(start.id)
                             && FileOf(start.id) in records && records[FileOf(start.id)] == claim
                             && NoQuietRow(Now(), FileOf(start.id))
    {
      FreshHasNoRow(Now(), FileOf(start.id));
      claim, stop := PrePersist(start, w, f);
      if stop.None? {
        claim, stop := ClaimMutation(claim, maxExtra, f);
      }
    }

    method AfterClaim(claim: MutationRecord, maxExtra: int, w: World, f: Faults) returns (res: RunResult)
      requires Valid() && claim.id != [] && claim.lifecycle == MutationClaimed && claim.pre.Some? && claim.before.Some?
      requires FileOf(claim.id) in records && records[FileOf(claim.id)] == claim && active == Some(claim.id)
      requires NoQuietRow(Now(), FileOf(claim.id))
      modifies this
      ensures Valid() && old(log) <= log && OnlyTouches(old(Now()), Now(), claim.id)
      ensures calls == old(calls) + [MutateCall(claim.id, old(Now()))]
      ensures FileOf(claim.id) in records && active == Some(claim.id)
      ensures failures == old(failures) || Counted(old(failures), failures, claim.subject)
      ensures res.Completed? ==>
                && res.mutated && res.computed == PostVerdict(claim, Read(w), w.postManifest).class_
                && res.class_ == (if res.escalated then Unverified else res.computed)
                && (res.escalated <==> LostAs(res.computed, claim, w, f))
                && (if BadClass(res.computed) then Counted(old(failures), failures, claim.subject) else failures == old(failures))
                && (!res.escalated || Lands(f.retryRecord) ==> SettledAs(records[FileOf(claim.id)], Moved(claim, w), res.class_))
                && (!res.escalated || f.retryRow.Written? ==>
                      Indexed(old(rows), rows, claim.id, claim.before, Moved(claim, w).after, res.class_))
                && (res.exhausted <==> BadClass(res.computed) && FailuresOf(Now(), claim.subject) >= 1 + maxExtra)
      ensures NoLaterFault(f) ==> res.Completed? && !res.escalated
      ensures f.classifiedRecord.Failed? && !BadClass(PostVerdict(claim, Read(w), w.postManifest).class_)
              && !f.postRecord.Crashed? && !f.postPointer.Crashed? && !f.retryRecord.Crashed? && !f.retryRow.Crashed?
              ==> res.Completed? && res.escalated
    {
      ghost var d0 := records;
      var rec, v, died := MutateAndClassify(claim, w, f);
      ghost var d1 := records;
      if died { return Died; }
      res := Dispose(rec, v, maxExtra, f);
      TouchesTrans(d0, d1, records, FileOf(claim.id));
    }

    /**
      One call with a fresh mutation id. The mutation is called at most once, and
      only under a durable claim that already holds the manifest and head captured
      before it; once it was called, recovery can find the record, and the budget
      allowed it. The budget is spent exactly when the computed class is bad; the
      call is escalated exactly when a write of its disposition fails.
    */
    method RunCandidateMovingMutation(opts: RunOptions, w: World, f: Faults) returns (res: RunResult)
      requires Valid() && opts.id != [] && FileOf(opts.id) !in records
      modifies this
      ensures Valid() && old(log) <= log && OnlyTouches(old(Now()), Now(), opts.id)
      ensures calls == old(calls) || (|calls| == |old(calls)| + 1 && old(calls) < calls
                                      && ClaimOf(calls[|old(calls)|], opts.id, w))
      ensures res.Completed? ==> (res.mutated <==> calls != old(calls))
      ensures calls != old(calls) ==> FileOf(opts.id) in records && active == Some(opts.id)
      ensures failures == old(failures) || (calls != old(calls) && Counted(old(failures), failures, opts.subject))
      ensures res.Completed? && res.mutated && BadClass(res.computed) ==> Counted(old(failures), failures, opts.subject)
      ensures res.Completed? && !(res.mutated && BadClass(res.computed)) ==> failures == old(failures)
      ensures res.Completed? && res.mutated ==>
                && w.preRefs.Some? && res.computed == PostVerdict(Claim(NewRecord(opts), w), Read(w), w.postManifest).class_
                && (res.escalated <==> LostAs(res.computed, Claim(NewRecord(opts), w), w, f))
                && res.class_ == (if res.escalated then Unverified else res.computed)
                && (!res.escalated || Lands(f.retryRecord) ==>
                      FileOf(opts.id) in records && StoredOutcome(records[FileOf(opts.id)], w, res.class_))
                && (!res.escalated || f.retryRow.Written? ==>
                      Indexed(old(rows), rows, opts.id, Some(w.preRefs.value.candidateSha), HeadRead(w), res.class_))
                && (res.exhausted <==> BadClass(res.computed) && FailuresOf(Now(), opts.subject) >= 1 + opts.maxExtra)
      ensures calls != old(calls) <==> MayMutate(old(Now()), opts.subject, opts.maxExtra, w, f)
      ensures res.Completed? && !res.mutated ==>
                res == NotMutated(BudgetGone(old(Now()), opts.subject, opts.maxExtra, w, f)) && rows == old(rows)
      ensures calls != old(calls) && NoLaterFault(f) ==> res.Completed? && !res.escalated
      ensures res.Completed? && res.mutated && CleanScope(opts.declared) ==> RunClass(opts, w, res.computed)
      ensures SmoothClaim(opts.subject, opts.maxExtra, w, f, old(Now())) && f.classifiedRecord.Failed?
              && !BadClass(PostVerdict(Claim(NewRecord(opts), w), Read(w), w.postManifest).class_)
              ==> res.Completed? && res.mutated && res.escalated
    {
      res := RunLifecycle(NewRecord(opts), opts.maxExtra, w, f);
      if w.preRefs.Some? && CleanScope(opts.declared) { RunClassMeaning(opts, w); }
    }

    /**
      Finish an interrupted mutation after a restart. A terminal record is
      returned as it is, with no write; an incomplete one is classified against
      its own durable pre-manifest, never a new one.
    */
    method HydrateAndCompleteIncompleteMutation(id: Option<string>, w: World, f: Faults) returns (res: HydrateResult)
      requires Valid()
      modifies this
      ensures Valid() && old(log) <= log && calls == old(calls) && failures == old(failures) && active == old(active)
      ensures forall f :: f in records <==> f in old(records)
      ensures var target := if id.Some? then id else old(active);
              && (res.Nothing? <==> target.None? || FileOf(target.value) !in old(records))
              && (res.Nothing? ==> log == old(log))
              && (!res.Nothing? && Terminal(old(records)[FileOf(target.value)]) ==>
                    log == old(log) && res == AlreadyTerminal(old(records)[FileOf(target.value)]))
              && (res.Finished? ==>
                    && FileOf(target.value) in records
                    && var r, r' := old(records)[FileOf(target.value)], records[FileOf(target.value)];
                       && !Terminal(r) && SettledAs(r', r.(after := AfterRead(r, w)), res.class_)
                       && RecordClass(r, w.postRefs, w.postManifest, res.class_)
                       && r'.disposition == Some(DispositionFor(res.class_, ShaChanged(r')))
                       && (if r.pre.None? then rows == old(rows)
                           else Indexed(old(rows), rows, r.id, r'.before, r'.after, res.class_)))
              && (res.EscalatedOnHydrate? && Lands(f.retryRecord) ==>
                    && FileOf(target.value) in records
                    && var r := old(records)[FileOf(target.value)];
                       SettledAs(records[FileOf(target.value)], r.(after := AfterRead(r, w)), Unverified))
              && ((!res.Nothing? && !Terminal(old(records)[FileOf(target.value)]) && !w.postReadThrows
                   && f.classifiedRecord.Written? && f.row.Written? && f.disposedRecord.Written?) ==> res.Finished?)
    {
      var target := if id.Some? then id else active;
      if target.None? || FileOf(target.value) !in records { return Nothing; }
      var rec := records[FileOf(target.value)];
      assert Good(log[|log| - 1]);
      if Terminal(rec) { return AlreadyTerminal(rec); }
      assert NoQuietRow(Now(), FileOf(rec.id));
      if rec.pre.None? {
        var o := PersistMutationRecord(Ended(rec, Unverified, Disposed), f.disposedRecord, Written);
        if o.Crashed? { return HydrateDied; }
        if o.Failed? { return HydrateThrew; }
        return Finished(Unverified);
      }
      if w.postReadThrows { return HydrateThrew; }
      var rec', v := ClassifyPost(rec, w.postRefs, w.postManifest);
      RecordClassMeaning(rec, w.postRefs, w.postManifest);
      var o := Settle(Ended(rec', v.class_, Classified), f, false);
      if o.Crashed? { return HydrateDied; }
      if o.Failed? { return EscalatedOnHydrate; }
      return Finished(v.class_);
    }
  }

  function NewRecord(opts: RunOptions): MutationRecord {
    var declared := if EmptyScopeMethod(opts.how) then DeclaredScope([], []) else opts.declared;
    MutationRecord(opts.id, Idle, opts.how, opts.subject, FreezeLists(declared), None, None, None, None, None, None)
  }

  /** The record that is durable when the mutation starts. */
  function Claim(start: MutationRecord, w: World): MutationRecord
    requires w.preRefs.Some?
  {
    start.(pre := w.preManifest, before := Some(w.preRefs.value.candidateSha), lifecycle := MutationClaimed)
  }

  function Ended(r: MutationRecord, c: Class, l: Lifecycle): MutationRecord {
    r.(lifecycle := l, class_ := Some(c), disposition := Some(DispositionFor(c, ShaChanged(r))))
  }

  /** A disposition is not stored when its record is not, or when it needs a row and the row is not. */
  predicate Fails(d: Disposition, record: Outcome, row: Outcome) {
    record.Failed? || (record.Written? && d.invalidatedReadiness && row.Failed?)
  }

  /** The head as it was read again after the mutation. */
  function Moved(claim: MutationRecord, w: World): MutationRecord {
    claim.(after := if Read(w).Some? then Some(Read(w).value.candidateSha) else claim.after)
  }

  /** The disposition of a mutation of this class is not stored under these faults. */
  predicate LostAs(c: Class, claim: MutationRecord, w: World, f: Faults) {
    Fails(DispositionFor(c, ShaChanged(Moved(claim, w))), f.classifiedRecord, f.row)
  }

  /** Records other than that of this mutation stay as they were, and none disappears. */
  ghost predicate OnlyTouches(a: Durable, b: Durable, id: string) {
    TouchesFile(a.records, b.records, FileOf(id))
  }

  ghost predicate TouchesFile(a: map<string, MutationRecord>, b: map<string, MutationRecord>, file: string) {
    && (forall f :: f in a ==> f in b && (f == file || b[f] == a[f]))
    && (forall f :: f in b ==> f in a || f == file)
  }

  lemma TouchesTrans(a: map<string, MutationRecord>, b: map<string, MutationRecord>, c: map<string, MutationRecord>, file: string)
    requires TouchesFile(a, b, file) && TouchesFile(b, c, file)
    ensures TouchesFile(a, c, file)
  {
  }

  /** Record the new head and compare it with the durable pre-manifest. */
  method ClassifyPost(rec: MutationRecord, refs: Option<Refs>, manifest: Option<seq<Entry>>)
    returns (rec': MutationRecord, v: Verdict)
    ensures v == PostVerdict(rec, refs, manifest)
    ensures v.class_ == ScopeExpansion ==> v.differing != {}
    ensures rec' == rec.(after := rec'.after, post := rec'.post)
    ensures rec'.after == if refs.Some? then Some(refs.value.candidateSha) else rec.after
  {
    rec', v := rec, Verdict(Unverified, {});
    if refs.None? { return; }
    rec' := rec'.(after := Some(refs.value.candidateSha));
    if manifest.None? { return; }
    rec' := rec'.(post := manifest);
    var verdict, _ := ClassifyTransition(rec'.pre, rec'.post, rec'.scope, rec'.how);
    v := verdict;
    if v.class_ == ScopeExpansion {
      ExpansionNamesAPath(PatchesOpt(rec'.pre), PatchesOpt(rec'.post), Freeze(rec'.scope), rec'.how);
    }
  }

  function Read(w: World): Option<Refs> {
    if w.postReadThrows then None else w.postRefs
  }

  /** The classification of what is on the branch now against the durable pre-manifest. */
  function PostVerdict(rec: MutationRecord, refs: Option<Refs>, manifest: Option<seq<Entry>>): Verdict {
    if refs.None? || manifest.None? then Verdict(Unverified, {})
    else Classify(PatchesOpt(rec.pre), PatchesOpt(manifest), Freeze(rec.scope), rec.how)
  }

  /** The class a record's own durable pre-manifest, scope and method call for, against what is on the branch now. */
  ghost predicate RecordClass(rec: MutationRecord, refs: Option<Refs>, manifest: Option<seq<Entry>>, c: Class) {
    if refs.None? then c == Unverified else RightClass(rec.pre, manifest, rec.scope, rec.how, c)
  }

  lemma RecordClassMeaning(rec: MutationRecord, refs: Option<Refs>, manifest: Option<seq<Entry>>)
    ensures RecordClass(rec, refs, manifest, PostVerdict(rec, refs, manifest).class_)
  {
    ClassifyIsRight(rec.pre, manifest, rec.scope, rec.how);
  }

  /** The class a call must compute, said of what its caller declared and what the callbacks answered. */
  ghost predicate RunClass(opts: RunOptions, w: World, c: Class) {
    if w.postReadThrows || w.postRefs.None? then c == Unverified
    else RightClass(w.preManifest, w.postManifest, opts.declared, opts.how, c)
  }

  lemma RunClassMeaning(opts: RunOptions, w: World)
    requires w.preRefs.Some? && CleanScope(opts.declared)
    ensures RunClass(opts, w, PostVerdict(Claim(NewRecord(opts), w), Read(w), w.postManifest).class_)
  {
    var claim := Claim(NewRecord(opts), w);
    RecordClassMeaning(claim, Read(w), w.postManifest);
    forall q ensures Declared(FreezeLists(opts.declared), q) <==> Declared(opts.declared, q) {
      FrozenDeclares(opts.declared, q);
    }
    SameScopeSameClass(w.preManifest, w.postManifest, claim.scope, opts.declared, opts.how, PostVerdict(claim, Read(w), w.postManifest).class_);
  }

  lemma SameScopeSameClass(pre: Option<seq<Entry>>, post: Option<seq<Entry>>, a: DeclaredScope, b: DeclaredScope,
                           how: MutationMethod, c: Class)
    requires how == Restack || how == Rebase || forall q :: Declared(a, q) <==> Declared(b, q)
    ensures RightClass(pre, post, a, how, c) <==> RightClass(pre, post, b, how, c)
  {
  }

  /** What the durable record of a finished call holds: its class, and the manifest and heads before and after. */
  predicate StoredOutcome(r: MutationRecord, w: World, c: Class) {
    && Terminal(r) && r.class_ == Some(c) && r.pre == w.preManifest
    && w.preRefs.Some? && r.before == Some(w.preRefs.value.candidateSha)
    && r.after == HeadRead(w)
  }

  /** The head after the mutation, unless it could not be read. */
  function HeadRead(w: World): Option<string> {
    if w.postReadThrows || w.postRefs.None? then None else Some(w.postRefs.value.candidateSha)
  }

  /**
    The index gains one row from the old head to the new one, with the flags the
    class calls for, unless the candidate is equivalent and its head stayed.
  */
  ghost predicate Indexed(a: seq<Row>, b: seq<Row>, id: string, before: Option<string>, after: Option<string>, c: Class) {
    var moved := OrEmpty(before) != [] && OrEmpty(after) != [] && before != after;
    var harmless := c == SemanticallyEquivalent;
    if harmless && !moved then b == a
    else b == a + [Row(OrEmpty(before), if after.Some? then after.value else OrEmpty(before), id, c, !harmless, true, !harmless)]
  }

  /** Everything the mutation waits for: both captures, both durable records, and budget left. */
  ghost predicate MayMutate(d: Durable, s: Subject, maxExtra: int, w: World, f: Faults) {
    && w.preRefs.Some? && w.preManifest.Some? && f.preRecord.Written? && f.prePointer.Written?
    && FailuresOf(d, s) < 1 + maxExtra && f.claimRecord.Written? && f.claimPointer.Written?
  }

  /** The pre-manifest is durable, and the budget of the subject is spent. */
  predicate BudgetGone(d: Durable, s: Subject, maxExtra: int, w: World, f: Faults) {
    && w.preRefs.Some? && w.preManifest.Some? && f.preRecord.Written? && f.prePointer.Written?
    && FailuresOf(d, s) >= 1 + maxExtra
  }

  function NotMutated(exhausted: bool): RunResult {
    Completed(false, Unverified, Unverified, false, exhausted)
  }

  /** No write after the mutation fails or crashes. */
  predicate NoLaterFault(f: Faults) {
    && !f.postRecord.Crashed? && !f.postPointer.Crashed? && f.budget.Written?
    && f.classifiedRecord.Written? && f.row.Written? && !f.disposedRecord.Crashed?
  }

  /** The in-memory record belongs to the durable one under its name, and no index row speaks quietly for it. */
  ghost predicate Drives(d: Durable, rec: MutationRecord) {
    && rec.id != [] && FileOf(rec.id) in d.records && NoQuietRow(d, FileOf(rec.id))
    && var r := d.records[FileOf(rec.id)];
       r.id == rec.id && r.pre == rec.pre && r.before == rec.before
       && (Terminal(r) ==> r.after == rec.after && r.class_ == rec.class_)
  }

  ghost predicate RowsOnlyQuietFor(d: Durable, rec: MutationRecord) {
    forall row :: row in d.rows && FileOf(row.id) == FileOf(rec.id) && Quiet(row) ==> Justifies(rec, row)
  }

  predicate SettledAs(r: MutationRecord, rec: MutationRecord, c: Class) {
    Terminal(r) && r.class_ == Some(c) && r.pre == rec.pre && r.before == rec.before && r.after == rec.after
  }

  predicate Counted(a: map<Subject, nat>, b: map<Subject, nat>, s: Subject) {
    b == a[s := (if s in a then a[s] else 0) + 1]
  }

  datatype HydrateResult =
    | Nothing
    | AlreadyTerminal(rec: MutationRecord)
    | Finished(class_: Class)
    | EscalatedOnHydrate
    | HydrateThrew
    | HydrateDied

  function AfterRead(r: MutationRecord, w: World): Option<string> {
    if r.pre.Some? && w.postRefs.Some? then Some(w.postRefs.value.candidateSha) else r.after
  }

  /** The mutation saw this run's claim with the manifest and head captured before it. */
  ghost predicate ClaimOf(c: MutateCall, id: string, w: World) {
    && c.id == id && ClaimHeld(c)
    && w.preRefs.Some?
    && c.seen.records[FileOf(c.id)].pre == w.preManifest
    && c.seen.records[FileOf(c.id)].before == Some(w.preRefs.value.candidateSha)
  }

  /** Nothing goes wrong before the disposition write, and nothing crashes after it. */
  ghost predicate SmoothClaim(s: Subject, maxExtra: int, w: World, f: Faults, d: Durable) {
    && w.preRefs.Some? && w.preManifest.Some? && FailuresOf(d, s) < 1 + maxExtra
    && f.preRecord.Written? && f.prePointer.Written? && f.claimRecord.Written? && f.claimPointer.Written?
    && !f.postRecord.Crashed? && !f.postPointer.Crashed? && !f.retryRecord.Crashed? && !f.retryRow.Crashed?
  }
}
