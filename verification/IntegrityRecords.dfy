/**
  The durable records of the candidate-integrity protocol and the gates that read
  them (core/scripts/candidate-integrity.ts). Timestamps and reason texts are not modelled.
*/
module IntegrityRecords {
  import opened Prelude
  import opened RepoPath
  import opened CandidateManifest
  import opened Classification

  datatype Lifecycle = Idle | PrePersisted | MutationClaimed | AuthoritativePostRead | Classified | Disposed

  datatype Disposition = Disposition(
    invalidatedReview: bool, invalidatedReadiness: bool, requiresFreshReview: bool, mergeEligible: bool)

  function DispositionFor(c: Class, shaChanged: bool): Disposition {
    if c == SemanticallyEquivalent then Disposition(false, shaChanged, false, true)
    else Disposition(true, true, true, false)
  }

  datatype Subject = Subject(issue: int, pr: Option<int>)

  datatype MutationRecord = MutationRecord(
    id: string, lifecycle: Lifecycle, how: MutationMethod, subject: Subject, scope: DeclaredScope,
    pre: Option<seq<Entry>>, post: Option<seq<Entry>>,
    class_: Option<Class>, disposition: Option<Disposition>,
    before: Option<string>, after: Option<string>)

  /** One line of the invalidation index. */
  datatype Row = Row(
    fromSha: string, toSha: string, id: string, class_: Class,
    invalidatedReview: bool, invalidatedReadiness: bool, requiresFreshReview: bool)

  /** Everything the protocol keeps on disk under one store root. */
  datatype Durable = Durable(
    records: map<string, MutationRecord>, active: Option<string>, rows: seq<Row>, failures: map<Subject, nat>)

  function OrEmpty(s: Option<string>): string {
    if s.Some? then s.value else []
  }

  function ToSha(r: MutationRecord): string {
    if r.after.Some? then r.after.value else OrEmpty(r.before)
  }

  predicate ShaChanged(r: MutationRecord) {
    OrEmpty(r.before) != [] && OrEmpty(r.after) != [] && r.before != r.after
  }

  predicate Terminal(r: MutationRecord) {
    r.lifecycle == Classified || r.lifecycle == Disposed
  }

  predicate InFlight(r: MutationRecord) {
    r.lifecycle == PrePersisted || r.lifecycle == MutationClaimed || r.lifecycle == AuthoritativePostRead
  }

  function RowFor(id: string, r: MutationRecord, c: Class, d: Disposition): Row {
    Row(OrEmpty(r.before), ToSha(r), id, c, d.invalidatedReview, d.invalidatedReadiness, d.requiresFreshReview)
  }

  // ----- File names -----

  predicate SafeChar(c: char) {
    'a' <= c <= 'z' || 'A' <= c <= 'Z' || '0' <= c <= '9' || c == '.' || c == '_' || c == '-'
  }

  /** Every maximal run of unsafe characters becomes one underscore. */
  function Sanitize(id: string, inRun: bool): string {
    if id == [] then []
    else if SafeChar(id[0]) then [id[0]] + Sanitize(id[1..], false)
    else (if inRun then [] else "_") + Sanitize(id[1..], true)
  }

  function FileOf(id: string): string {
    Sanitize(id, false) + ".json"
  }

  /** Names that the record scan of the gates skips. */
  predicate Hidden(file: string) {
    file == "active.json" || "budget-" <= file
  }

  // ----- What a file name keeps of an id -----

  /** A letter, a digit, a dot, an underscore or a dash. */
  ghost predicate FileChar(c: char) {
    c == '.' || c == '_' || c == '-' || 'a' <= c <= 'z' || 'A' <= c <= 'Z' || '0' <= c <= '9'
  }

  lemma {:induction false} SanitizedChars(id: string, inRun: bool)
    ensures forall c :: c in Sanitize(id, inRun) ==> FileChar(c)
  {
    if id != [] { SanitizedChars(id[1..], !SafeChar(id[0])); }
  }

  /** An id of such characters is its own name, and no other id is. */
  lemma SanitizedIff(id: string)
    ensures Sanitize(id, false) == id <==> forall c :: c in id ==> FileChar(c)
  {
    SanitizedChars(id, false);
    if forall c :: c in id ==> FileChar(c) {
      forall c | c in id ensures SafeChar(c) { assert FileChar(c); }
      SafeIdKept(id);
    }
  }

  /** Every maximal run of other characters becomes one underscore. */
  lemma RunBecomesUnderscore(a: string, run: string, b: string)
    requires a == [] || FileChar(a[|a| - 1])
    requires run != [] && forall c :: c in run ==> !FileChar(c)
    requires b == [] || FileChar(b[0])
    ensures Sanitize(a + (run + b), false) == Sanitize(a, false) + "_" + Sanitize(b, false)
  {
    AfterSafe(a, run + b, false);
    RunRead(run, b);
  }

  lemma RunRead(run: string, b: string)
    requires run != [] && forall c :: c in run ==> !FileChar(c)
    requires b == [] || FileChar(b[0])
    ensures Sanitize(run + b, false) == "_" + Sanitize(b, false)
  {
    assert run[0] in run && !SafeChar(run[0]);
    assert (run + b)[1..] == run[1..] + b;
    assert forall c :: c in run[1..] ==> c in run;
    RunSkipped(run[1..], b);
  }

  lemma {:induction false} AfterSafe(a: string, t: string, inRun: bool)
    requires (a == [] && !inRun) || (a != [] && FileChar(a[|a| - 1]))
    ensures Sanitize(a + t, inRun) == Sanitize(a, inRun) + Sanitize(t, false)
  {
    if a == [] {
      assert a + t == t;
    } else {
      assert (a + t)[0] == a[0] && (a + t)[1..] == a[1..] + t;
      if |a| == 1 { assert SafeChar(a[0]) && a[1..] == []; }
      AfterSafe(a[1..], t, !SafeChar(a[0]));
    }
  }

  lemma {:induction false} RunSkipped(run: string, b: string)
    requires forall c :: c in run ==> !FileChar(c)
    requires b == [] || FileChar(b[0])
    ensures Sanitize(run + b, true) == Sanitize(b, false)
  {
    if run == [] {
      assert run + b == b;
      if b != [] { assert SafeChar(b[0]); }
    } else {
      assert run[0] in run && !SafeChar(run[0]);
      assert (run + b)[1..] == run[1..] + b;
      assert forall c :: c in run[1..] ==> c in run;
      RunSkipped(run[1..], b);
    }
  }

  // ----- Authoritative invalidations -----

  /** The rows derived from the mutation records, in directory order. */
  function RecordRows(records: map<string, MutationRecord>, names: seq<string>): seq<Row> {
    if names == [] then []
    else
      var rest := RecordRows(records, names[1..]);
      if names[0] !in records || Hidden(names[0]) || !Invalidates(records[names[0]]) then rest
      else [RecordRow(records[names[0]])] + rest
  }

  predicate Invalidates(r: MutationRecord) {
    && r.id != [] && r.disposition.Some? && Terminal(r)
    && (r.disposition.value.invalidatedReview || r.disposition.value.invalidatedReadiness
        || r.disposition.value.requiresFreshReview)
  }

  function RecordRow(r: MutationRecord): Row
    requires r.disposition.Some?
  {
    RowFor(r.id, r, if r.class_.Some? then r.class_.value else Unverified, r.disposition.value)
  }

  datatype Key = Key(id: string, toSha: string)

  function KeyOf(r: Row): Key { Key(r.id, r.toSha) }

  function Merge(seen: set<Key>, extra: seq<Row>): seq<Row>
    decreases |extra|
  {
    if extra == [] then []
    else if KeyOf(extra[0]) in seen then Merge(seen, extra[1..])
    else [extra[0]] + Merge(seen + {KeyOf(extra[0])}, extra[1..])
  }

  function IndexKeys(rows: seq<Row>): set<Key> {
    set r | r in rows :: KeyOf(r)
  }

  /** The index followed by the record rows whose key is new; `names` is the directory listing. */
  function Authoritative(d: Durable, names: seq<string>): seq<Row> {
    d.rows + Merge(IndexKeys(d.rows), RecordRows(d.records, names))
  }

  method LoadAuthoritativeInvalidationRecords(d: Durable, names: seq<string>) returns (merged: seq<Row>)
    ensures merged == Authoritative(d, names)
  {
    var fromRecords: seq<Row> := [];
    assert names[0..] == names;
    for i := 0 to |names|
      invariant fromRecords + RecordRows(d.records, names[i..]) == RecordRows(d.records, names)
    {
      if names[i] in d.records && !Hidden(names[i]) && Invalidates(d.records[names[i]]) {
        fromRecords := fromRecords + [RecordRow(d.records[names[i]])];
      }
      assert names[i..][1..] == names[i + 1..];
    }
    var seen := IndexKeys(d.rows);
    merged := d.rows;
    assert fromRecords == RecordRows(d.records, names) && fromRecords[0..] == fromRecords;
    for i := 0 to |fromRecords|
      invariant merged + Merge(seen, fromRecords[i..]) == d.rows + Merge(IndexKeys(d.rows), fromRecords)
    {
      assert fromRecords[i..][1..] == fromRecords[i + 1..];
      var k := KeyOf(fromRecords[i]);
      if k !in seen {
        seen := seen + {k};
        merged := merged + [fromRecords[i]];
      }
    }
  }

  lemma {:induction false} MergeKeeps(seen: set<Key>, extra: seq<Row>, r: Row)
    requires r in extra
    ensures KeyOf(r) in seen || exists q :: q in Merge(seen, extra) && KeyOf(q) == KeyOf(r)
    decreases |extra|
  {
    if KeyOf(r) !in seen {
      if KeyOf(extra[0]) == KeyOf(r) {
        assert extra[0] in Merge(seen, extra);
      } else {
        assert r in extra[1..];
        var seen' := if KeyOf(extra[0]) in seen then seen else seen + {KeyOf(extra[0])};
        MergeKeeps(seen', extra[1..], r);
        var q :| q in Merge(seen', extra[1..]) && KeyOf(q) == KeyOf(r);
        assert q in Merge(seen, extra);
      }
    }
  }

  lemma {:induction false} MergeAddsNothing(seen: set<Key>, extra: seq<Row>, q: Row)
    requires q in Merge(seen, extra)
    ensures q in extra
    decreases |extra|
  {
    if KeyOf(extra[0]) in seen {
      MergeAddsNothing(seen, extra[1..], q);
    } else if q != extra[0] {
      MergeAddsNothing(seen + {KeyOf(extra[0])}, extra[1..], q);
    }
  }

  lemma {:induction false} RecordRowsMeaning(records: map<string, MutationRecord>, names: seq<string>, q: Row)
    ensures q in RecordRows(records, names) <==>
      exists f :: f in names && f in records && !Hidden(f) && Invalidates(records[f]) && q == RecordRow(records[f])
  {
    if names != [] {
      RecordRowsMeaning(records, names[1..], q);
      assert names == [names[0]] + names[1..];
    }
  }

  // ----- The gates -----

  function Lower(s: string): string {
    seq(|s|, i requires 0 <= i < |s| => if 'A' <= s[i] <= 'Z' then (s[i] as int + 32) as char else s[i])
  }

  /** The same letter but for the case of an ASCII letter. */
  ghost predicate SameLetter(a: char, b: char) {
    a == b || ('A' <= a <= 'Z' && b as int - a as int == 32) || ('A' <= b <= 'Z' && a as int - b as int == 32)
  }

  /** Two commits are compared letter by letter, without regard to case. */
  lemma SameCommitIff(s: string, t: string)
    ensures Lower(s) == Lower(t) <==> |s| == |t| && forall i :: 0 <= i < |s| ==> SameLetter(s[i], t[i])
  {
    if Lower(s) == Lower(t) {
      assert |Lower(s)| == |s| && |Lower(t)| == |t|;
      forall i | 0 <= i < |s| ensures SameLetter(s[i], t[i]) { assert Lower(s)[i] == Lower(t)[i]; }
    }
  }

  /** A review is bound to a head when it was made on that very commit. */
  predicate BoundTo(reviewed: Option<string>, head: string) {
    OrEmpty(reviewed) != [] && Lower(reviewed.value) == Lower(head)
  }

  predicate BlocksReview(r: Row, head: string, reviewed: Option<string>) {
    && (r.invalidatedReview || r.requiresFreshReview)
    && (|| (Lower(r.toSha) == Lower(head) && !BoundTo(reviewed, head))
        || (Lower(r.toSha) != Lower(head) && !BoundTo(reviewed, head)
            && BoundTo(reviewed, r.fromSha) && r.class_ != SemanticallyEquivalent))
  }

  predicate BlocksReadiness(r: Row, head: string, reviewed: Option<string>) {
    r.invalidatedReadiness && Lower(r.toSha) == Lower(head) && !BoundTo(reviewed, head)
  }

  /** The newest row that blocks, scanning from the end. */
  method ReviewBlockedByIntegrityInvalidation(rows: seq<Row>, head: string, reviewed: Option<string>)
    returns (r: Option<Row>)
    ensures r.Some? <==> exists q :: q in rows && BlocksReview(q, head, reviewed)
    ensures r.Some? ==> exists i :: 0 <= i < |rows| && rows[i] == r.value && BlocksReview(rows[i], head, reviewed)
                          && forall j :: i < j < |rows| ==> !BlocksReview(rows[j], head, reviewed)
  {
    var bound := BoundTo(reviewed, head);
    var i := |rows|;
    while i > 0
      invariant 0 <= i <= |rows|
      invariant forall j :: i <= j < |rows| ==> !BlocksReview(rows[j], head, reviewed)
    {
      i := i - 1;
      var q := rows[i];
      if q.invalidatedReview || q.requiresFreshReview {
        if bound && Lower(q.toSha) == Lower(head) {
          // a review of the new head supersedes this invalidation
        } else if Lower(q.toSha) == Lower(head) {
          assert rows[i] in rows;
          return Some(q);
        } else if BoundTo(reviewed, q.fromSha) && !bound && q.class_ != SemanticallyEquivalent {
          assert rows[i] in rows;
          return Some(q);
        }
      }
    }
    return None;
  }

  method ReadinessBlockedByIntegrityInvalidation(rows: seq<Row>, head: string, reviewed: Option<string>)
    returns (r: Option<Row>)
    ensures r.Some? <==> exists q :: q in rows && BlocksReadiness(q, head, reviewed)
    ensures r.Some? ==> exists i :: 0 <= i < |rows| && rows[i] == r.value && BlocksReadiness(rows[i], head, reviewed)
                          && forall j :: i < j < |rows| ==> !BlocksReadiness(rows[j], head, reviewed)
  {
    var i := |rows|;
    while i > 0
      invariant 0 <= i <= |rows|
      invariant forall j :: i <= j < |rows| ==> !BlocksReadiness(rows[j], head, reviewed)
    {
      i := i - 1;
      if rows[i].invalidatedReadiness && Lower(rows[i].toSha) == Lower(head) && !BoundTo(reviewed, head) {
        assert rows[i] in rows;
        return Some(rows[i]);
      }
    }
    return None;
  }

  ghost predicate ReviewBlocked(d: Durable, names: seq<string>, head: string, reviewed: Option<string>) {
    exists q :: q in Authoritative(d, names) && BlocksReview(q, head, reviewed)
  }

  ghost predicate ReadinessBlocked(d: Durable, names: seq<string>, head: string, reviewed: Option<string>) {
    exists q :: q in Authoritative(d, names) && BlocksReadiness(q, head, reviewed)
  }

  /** A complete directory listing of the store. */
  ghost predicate Lists(names: seq<string>, d: Durable) {
    forall f :: f in d.records ==> f in names
  }

  // ----- What every durable state keeps -----

  /** A terminal record carries the disposition of its own classification. */
  predicate GoodRecord(r: MutationRecord) {
    && r.id != []
    && (Terminal(r) ==> r.class_.Some? && r.disposition == Some(DispositionFor(r.class_.value, ShaChanged(r))))
  }

  /** A row that would not block a review. */
  predicate Quiet(row: Row) {
    !row.invalidatedReview && !row.requiresFreshReview
  }

  /** A quiet row is backed by a terminal record with the same target that is semantically equivalent. */
  predicate Justifies(r: MutationRecord, row: Row) {
    Terminal(r) && r.class_ == Some(SemanticallyEquivalent) && ToSha(r) == row.toSha
  }

  /** An index row names the record it came from and invalidates everything unless it is quiet. */
  predicate GoodRow(row: Row) {
    row.invalidatedReadiness && (if row.class_ == SemanticallyEquivalent then Quiet(row) else row.invalidatedReview)
  }

  ghost predicate Good(d: Durable) {
    && (forall f :: f in d.records ==> FileOf(d.records[f].id) == f && GoodRecord(d.records[f]))
    && (forall row :: row in d.rows ==> GoodRow(row) && Backed(d.records, row))
  }

  predicate Backed(records: map<string, MutationRecord>, row: Row) {
    && FileOf(row.id) in records
    && var r := records[FileOf(row.id)];
       OrEmpty(r.before) == row.fromSha && (Quiet(row) ==> Justifies(r, row))
  }

  lemma SameKeySameRecord(d: Durable, names: seq<string>, f: string, q: Row)
    requires Good(d) && f in d.records && d.records[f].disposition.Some?
    requires q in RecordRows(d.records, names) && q.id == d.records[f].id
    ensures q == RecordRow(d.records[f])
  {
    RecordRowsMeaning(d.records, names, q);
  }

  /** The row by which a record is represented among the authoritative rows. */
  lemma RepresentativeRow(d: Durable, names: seq<string>, f: string) returns (q: Row)
    requires Good(d) && f in names && f in d.records && !Hidden(f) && Invalidates(d.records[f])
    ensures q in Authoritative(d, names) && KeyOf(q) == KeyOf(RecordRow(d.records[f]))
    ensures q == RecordRow(d.records[f]) || q in d.rows
  {
    var row := RecordRow(d.records[f]);
    var fromRecords := RecordRows(d.records, names);
    RecordRowsMeaning(d.records, names, row);
    MergeKeeps(IndexKeys(d.rows), fromRecords, row);
    if KeyOf(row) in IndexKeys(d.rows) {
      q :| q in d.rows && KeyOf(q) == KeyOf(row);
    } else {
      q :| q in Merge(IndexKeys(d.rows), fromRecords) && KeyOf(q) == KeyOf(row);
      MergeAddsNothing(IndexKeys(d.rows), fromRecords, q);
      SameKeySameRecord(d, names, f, q);
    }
  }

  /**
    Crash-safe blocking. In a good durable state every classified or disposed
    record that is not semantically equivalent blocks its target commit, for
    every directory order and whether or not its index row was ever written.
  */
  lemma DurableRecordBlocks(d: Durable, names: seq<string>, f: string, head: string, reviewed: Option<string>)
    requires Good(d) && Lists(names, d)
    requires f in d.records && !Hidden(f)
    requires Terminal(d.records[f]) && d.records[f].class_ != Some(SemanticallyEquivalent)
    requires Lower(head) == Lower(ToSha(d.records[f])) && !BoundTo(reviewed, head)
    ensures ReviewBlocked(d, names, head, reviewed)
    ensures ReadinessBlocked(d, names, head, reviewed)
  {
    var q := RepresentativeRow(d, names, f);
    assert !Quiet(q) && q.toSha == ToSha(d.records[f]);
    assert BlocksReview(q, head, reviewed) && BlocksReadiness(q, head, reviewed);
  }

  /**
    A review of the commit before such a mutation is blocked on every other head: the
    candidate moved away from what was reviewed.
  */
  lemma OldReviewBlocked(d: Durable, names: seq<string>, f: string, head: string, reviewed: string)
    requires Good(d) && Lists(names, d)
    requires f in d.records && !Hidden(f)
    requires Terminal(d.records[f]) && d.records[f].class_ != Some(SemanticallyEquivalent)
    requires d.records[f].before.Some? && reviewed != [] && Lower(reviewed) == Lower(d.records[f].before.value)
    requires Lower(reviewed) != Lower(head)
    ensures ReviewBlocked(d, names, head, Some(reviewed))
  {
    var q := RepresentativeRow(d, names, f);
    assert !Quiet(q) && q.fromSha == d.records[f].before.value;
    assert q.class_ != SemanticallyEquivalent;
    assert BlocksReview(q, head, Some(reviewed));
  }

  /** A review of the current head is never blocked, nor is readiness after it, whatever the store holds. */
  lemma FreshReviewUnblocks(d: Durable, names: seq<string>, head: string, reviewed: string)
    requires reviewed != [] && Lower(reviewed) == Lower(head)
    ensures !ReviewBlocked(d, names, head, Some(reviewed)) && !ReadinessBlocked(d, names, head, Some(reviewed))
  {
  }

  /** Where a row the gates read comes from: the index, or an invalidating record that the scan does not skip. */
  lemma AuthoritativeSource(d: Durable, names: seq<string>, q: Row)
    requires q in Authoritative(d, names)
    ensures q in d.rows || exists f :: f in names && f in d.records && !Hidden(f) && Invalidates(d.records[f]) && q == RecordRow(d.records[f])
  {
    if q !in d.rows {
      MergeAddsNothing(IndexKeys(d.rows), RecordRows(d.records, names), q);
      RecordRowsMeaning(d.records, names, q);
    }
  }

  /**
    Nothing else is blocked: in a good state a blocked review has a row or a terminal
    record, not semantically equivalent, that came to this head or left the reviewed one.
  */
  lemma BlockedOnlyByCause(d: Durable, names: seq<string>, head: string, reviewed: Option<string>)
    requires Good(d) && ReviewBlocked(d, names, head, reviewed)
    ensures (exists q :: && q in d.rows && q.class_ != SemanticallyEquivalent
                         && (Lower(q.toSha) == Lower(head) || (reviewed.Some? && Lower(q.fromSha) == Lower(reviewed.value))))
         || (exists f :: && f in d.records && Terminal(d.records[f]) && d.records[f].class_ != Some(SemanticallyEquivalent)
                         && (|| Lower(ToSha(d.records[f])) == Lower(head)
                             || (reviewed.Some? && Lower(OrEmpty(d.records[f].before)) == Lower(reviewed.value))))
  {
    var q :| q in Authoritative(d, names) && BlocksReview(q, head, reviewed);
    AuthoritativeSource(d, names, q);
    if q in d.rows {
      assert GoodRow(q);
    } else {
      var f :| f in names && f in d.records && !Hidden(f) && Invalidates(d.records[f]) && q == RecordRow(d.records[f]);
      assert GoodRecord(d.records[f]);
    }
  }

  /** A terminal record is eligible for a merge if and only if it is semantically equivalent, and then needs no new review. */
  lemma MergeEligibleIff(d: Durable, f: string)
    requires Good(d) && f in d.records && Terminal(d.records[f])
    ensures d.records[f].disposition.Some?
    ensures d.records[f].disposition.value.mergeEligible <==> d.records[f].class_ == Some(SemanticallyEquivalent)
    ensures d.records[f].disposition.value.mergeEligible ==> !d.records[f].disposition.value.requiresFreshReview
  {
  }

  /** A commit that semantic equivalence moved still needs its readiness earned again. */
  lemma MovedCandidateBlocksReadiness(d: Durable, names: seq<string>, f: string, head: string, reviewed: Option<string>)
    requires Good(d) && Lists(names, d)
    requires f in d.records && !Hidden(f) && Terminal(d.records[f]) && ShaChanged(d.records[f])
    requires Lower(head) == Lower(ToSha(d.records[f])) && !BoundTo(reviewed, head)
    ensures ReadinessBlocked(d, names, head, reviewed)
  {
    var q := RepresentativeRow(d, names, f);
    assert BlocksReadiness(q, head, reviewed);
  }

  /** Between good states with the same records, appending index rows never unblocks a review. */
  lemma AppendingNeverUnblocks(d: Durable, d': Durable, names: seq<string>, head: string, reviewed: Option<string>)
    requires Good(d) && Good(d') && d.records == d'.records && d.rows <= d'.rows
    requires ReviewBlocked(d, names, head, reviewed)
    ensures ReviewBlocked(d', names, head, reviewed)
  {
    var q :| q in Authoritative(d, names) && BlocksReview(q, head, reviewed);
    if q in d.rows {
      assert q in d'.rows;
      assert q in Authoritative(d', names);
    } else {
      MergeAddsNothing(IndexKeys(d.rows), RecordRows(d.records, names), q);
      RecordRowsMeaning(d.records, names, q);
      var f :| f in names && f in d.records && !Hidden(f) && Invalidates(d.records[f]) && q == RecordRow(d.records[f]);
      var q' := RepresentativeRow(d', names, f);
      assert !Quiet(q') && q'.toSha == q.toSha && q'.fromSha == q.fromSha;
      assert BlocksReview(q', head, reviewed);
    }
  }

  /** The gates see their rows as a set: order and repetition do not matter. */
  lemma BlockingIgnoresOrder(rows: seq<Row>, rows': seq<Row>, head: string, reviewed: Option<string>)
    requires forall q :: q in rows ==> q in rows'
    ensures (exists q :: q in rows && BlocksReview(q, head, reviewed)) ==>
              exists q :: q in rows' && BlocksReview(q, head, reviewed)
    ensures (exists q :: q in rows && BlocksReadiness(q, head, reviewed)) ==>
              exists q :: q in rows' && BlocksReadiness(q, head, reviewed)
  {
    if q :| q in rows && BlocksReview(q, head, reviewed) { assert q in rows'; }
    if q :| q in rows && BlocksReadiness(q, head, reviewed) { assert q in rows'; }
  }

  // ----- Why the conditions are there -----

  function Unverifiable(id: string, sha: string): MutationRecord {
    MutationRecord(id, Classified, Restack, Subject(1, None), DeclaredScope([], []), None, None,
                   Some(Unverified), Some(DispositionFor(Unverified, false)), Some(sha), None)
  }

  /**
    A quiet index row with the key of an unverified record hides that record.
    No good state holds such a pair; two drivers of one mutation could write it.
  */
  lemma QuietRowShadows(id: string, sha: string)
    requires id != []
    ensures var r := Unverifiable(id, sha);
            var row := Row(sha, sha, id, SemanticallyEquivalent, false, true, false);
            var d := Durable(map[FileOf(id) := r], None, [row], map[]);
            !Good(d) && !ReviewBlocked(d, [FileOf(id)], sha, None)
  {
    var r := Unverifiable(id, sha);
    var row := Row(sha, sha, id, SemanticallyEquivalent, false, true, false);
    var d := Durable(map[FileOf(id) := r], None, [row], map[]);
    assert row in d.rows && !Backed(d.records, row);
    var fromRecords := RecordRows(d.records, [FileOf(id)]);
    assert KeyOf(row) in IndexKeys(d.rows);
    assert [FileOf(id)][1..] == [];
    assert RecordRows(d.records, []) == [];
    if fromRecords != [] {
      assert fromRecords == [RecordRow(r)] && fromRecords[1..] == [];
      assert KeyOf(RecordRow(r)) == KeyOf(row);
    }
    assert Merge(IndexKeys(d.rows), fromRecords) == [];
    assert Authoritative(d, [FileOf(id)]) == [row];
  }

  /**
    A record whose file name the scan skips blocks nothing: the active pointer's
    name, or any id that starts with "budget-".
  */
  lemma HiddenRecordDoesNotBlock(id: string, sha: string)
    requires id != [] && Hidden(FileOf(id))
    ensures var d := Durable(map[FileOf(id) := Unverifiable(id, sha)], None, [], map[]);
            Good(d) && !ReviewBlocked(d, [FileOf(id)], sha, None)
  {
    var d := Durable(map[FileOf(id) := Unverifiable(id, sha)], None, [], map[]);
    NothingListed(d, FileOf(id));
  }

  lemma NothingListed(d: Durable, file: string)
    requires Hidden(file) && d.rows == []
    ensures Authoritative(d, [file]) == []
  {
    assert [file][1..] == [];
    assert RecordRows(d.records, []) == [];
  }

  lemma BudgetIdIsHidden(rest: string)
    ensures Hidden(FileOf("budget-" + rest))
  {
    SafePrefixKept("budget-", rest);
    assert FileOf("budget-" + rest) == "budget-" + (Sanitize(rest, false) + ".json");
  }

  /** The scan skips exactly the mutation named "active" and those whose id starts with "budget-". */
  lemma HiddenIff(id: string)
    ensures Hidden(FileOf(id)) <==> id == "active" || "budget-" <= id
  {
    var s := Sanitize(id, false);
    if "budget-" <= id {
      assert id == "budget-" + id[7..];
      BudgetIdIsHidden(id[7..]);
    }
    if id == "active" { SafeIdKept(id); }
    if FileOf(id) == "active.json" {
      assert s == FileOf(id)[..|s|] && s + [] == s;
      NoUnderscoreKept(id, s, []);
    }
    if "budget-" <= FileOf(id) {
      PrefixOfName(s, "budget-");
      assert s == "budget-" + s[7..];
      NoUnderscoreKept(id, "budget-", s[7..]);
    }
  }

  lemma PrefixOfName(s: string, a: string)
    requires a <= s + ".json" && '.' !in a
    ensures a <= s
  {
    var n := s + ".json";
    assert a == n[..|a|] && n[|s|] == '.';
    assert forall i :: 0 <= i < |a| ==> a[i] == n[i] && a[i] in a;
  }

  /** A sanitized prefix without underscores was there before. */
  lemma {:induction false} NoUnderscoreKept(id: string, a: string, rest: string)
    requires Sanitize(id, false) == a + rest && '_' !in a
    ensures a <= id && (rest == [] && a != [] ==> id[|a|..] == [])
  {
    if a != [] {
      assert (a + rest)[0] == a[0] && (a + rest)[1..] == a[1..] + rest;
      assert a[0] in a && forall c :: c in a[1..] ==> c in a;
      assert SafeChar(id[0]) && id[0] == a[0];
      NoUnderscoreKept(id[1..], a[1..], rest);
    }
  }

  lemma {:induction false} SafePrefixKept(a: string, rest: string)
    requires forall c :: c in a ==> SafeChar(c)
    ensures Sanitize(a + rest, false) == a + Sanitize(rest, false)
  {
    if a == [] {
      assert a + rest == rest;
    } else {
      assert a[0] in a;
      assert forall c :: c in a[1..] ==> c in a;
      assert (a + rest)[1..] == a[1..] + rest;
      SafePrefixKept(a[1..], rest);
    }
  }

  lemma {:induction false} SafeIdKept(id: string)
    requires forall c :: c in id ==> SafeChar(c)
    ensures Sanitize(id, false) == id
  {
    if id != [] {
      assert id[0] in id;
      assert forall c :: c in id[1..] ==> c in id;
      SafeIdKept(id[1..]);
    }
  }
}
