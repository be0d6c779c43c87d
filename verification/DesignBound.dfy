/** Bounding a decision record to the configured limits (core/scripts/design-gate.ts). */
module DesignBound {
  import opened Prelude
  import opened DesignRecord

  datatype Limits = Limits(maxDecisions: nat, maxFieldChars: nat, maxArtifactBytes: nat)

  datatype Bounding = Bounding(
    fieldsTruncated: nat, decisionsDropped: nat, artifactBytesTruncated: bool,
    decisionsDroppedByByteCeiling: nat, arrayEntriesDroppedByByteCeiling: nat)

  datatype Outcome = Bounded(record: Record, bounding: Bounding) | LimitsError(minimum: nat)

  // ----- How many fields the first pass truncates -----

  function Over(s: string, cap: nat): nat {
    if |s| <= cap then 0 else 1
  }

  function OverTexts(ts: seq<string>, cap: nat): nat {
    if ts == [] then 0 else OverTexts(ts[..|ts| - 1], cap) + Over(ts[|ts| - 1], cap)
  }

  function OverAlternatives(alts: seq<Alternative>, cap: nat): nat {
    if alts == [] then 0
    else
      var a := alts[|alts| - 1];
      OverAlternatives(alts[..|alts| - 1], cap) + Over(a.option, cap) + Over(a.rejectedBecause, cap)
  }

  function OverDecision(d: Decision, cap: nat): nat {
    Over(d.title, cap) + Over(d.surface, cap) + OverAlternatives(d.alternatives, cap)
    + OverTexts(d.assumptions, cap) + OverTexts(d.invariants, cap) + OverTexts(d.evidence, cap)
    + Over(d.generalizationBoundary, cap) + Over(d.uncertainty, cap)
  }

  function OverAll(ds: seq<Decision>, cap: nat): nat {
    if ds == [] then 0 else OverAll(ds[..|ds| - 1], cap) + OverDecision(ds[|ds| - 1], cap)
  }

  // ----- The three passes -----

  function ClipAll(ds: seq<Decision>, cap: nat): (r: seq<Decision>)
    ensures |r| == |ds|
  {
    seq(|ds|, i requires 0 <= i < |ds| => Clip(ds[i], cap))
  }

  function CutAll(ds: seq<Decision>): (r: seq<Decision>)
    ensures |r| == |ds|
  {
    seq(|ds|, i requires 0 <= i < |ds| => Cut(ds[i], 1))
  }

  function DroppedEntries(ds: seq<Decision>): nat {
    if ds == [] then 0 else DroppedEntries(ds[..|ds| - 1]) + ReclipDecision(ds[|ds| - 1], 0, 1).1
  }

  function AllEntries(ds: seq<Decision>): nat {
    if ds == [] then 0 else AllEntries(ds[..|ds| - 1]) + Entries(ds[|ds| - 1])
  }

  /** How many decisions stay when trailing ones are dropped until the rest fit or one is left. */
  function Fitting(r: Record, n: nat, size: Record -> nat, max: nat): (m: nat)
    requires n <= |r.decisions|
    ensures m <= n && (n > 0 ==> m > 0)
    ensures forall k :: m < k <= n ==> size(r.(decisions := r.decisions[..k])) > max
    ensures m > 1 ==> size(r.(decisions := r.decisions[..m])) <= max
  {
    if n > 1 && size(r.(decisions := r.decisions[..n])) > max then Fitting(r, n - 1, size, max) else n
  }

  function Clipped(r: Record, cap: nat): Record {
    r.(decisions := ClipAll(r.decisions, cap))
  }

  function NextCap(cap: nat): nat {
    Max(12, cap / 2)
  }

  /** The caps that are tried, from the configured one down to the length of the marker. */
  ghost predicate Tried(start: nat, cap: nat) {
    cap == start || (start > 12 && Tried(if start < 24 then 12 else start / 2, cap))
  }

  /** The first cap at which the clipped record fits, or the last one tried. */
  function ShrinkCap(r: Record, cap: nat, size: Record -> nat, max: nat): (c: nat)
    ensures c <= cap && Tried(cap, c)
    ensures size(Clipped(r, c)) > max ==> c <= 12
    ensures size(Clipped(r, c)) > max ==> forall k :: Tried(cap, k) ==> size(Clipped(r, k)) > max
    decreases cap
  {
    if cap > 12 && size(Clipped(r, cap)) > max then ShrinkCap(r, NextCap(cap), size, max) else cap
  }

  function FirstPass(r: Record, limits: Limits): Record {
    r.(decisions := ClipAll(Take(r.decisions, limits.maxDecisions), limits.maxFieldChars))
  }

  function Bound(r: Record, limits: Limits, size: Record -> nat): Outcome {
    var first := FirstPass(r, limits);
    var n := |first.decisions|;
    var m := Fitting(first, n, size, limits.maxArtifactBytes);
    var rest := first.(decisions := first.decisions[..m]);
    var over := OverAll(Take(r.decisions, limits.maxDecisions), limits.maxFieldChars);
    var dropped := |r.decisions| - n;
    if size(rest) <= limits.maxArtifactBytes then
      Bounded(rest, Bounding(over, dropped, m < n, n - m, 0))
    else
      var one := r.(decisions := CutAll(r.decisions[..m]));
      var final := Clipped(one, ShrinkCap(one, limits.maxFieldChars, size, limits.maxArtifactBytes));
      if size(final) > limits.maxArtifactBytes then LimitsError(size(final))
      else Bounded(final, Bounding(over, dropped, true, n - m, DroppedEntries(rest.decisions)))
  }

  // ----- The operation -----

  method TruncateDecision(d: Decision, cap: nat) returns (r: Decision, fieldsTruncated: nat)
    ensures r == Clip(d, cap) && fieldsTruncated == OverDecision(d, cap)
  {
    var alternatives, n1 := TruncateAlternatives(d.alternatives, cap);
    var assumptions, n2 := TruncateTexts(d.assumptions, cap);
    var invariants, n3 := TruncateTexts(d.invariants, cap);
    var evidence, n4 := TruncateTexts(d.evidence, cap);
    r := Decision(d.id, Truncate(d.title, cap), Truncate(d.surface, cap), alternatives,
                  assumptions, invariants, evidence,
                  Truncate(d.generalizationBoundary, cap), Truncate(d.uncertainty, cap));
    fieldsTruncated := Over(d.title, cap) + Over(d.surface, cap) + n1 + n2 + n3 + n4
                       + Over(d.generalizationBoundary, cap) + Over(d.uncertainty, cap);
  }

  method TruncateTexts(ts: seq<string>, cap: nat) returns (r: seq<string>, n: nat)
    ensures r == TruncateAll(ts, cap) && n == OverTexts(ts, cap)
  {
    r, n := [], 0;
    for i := 0 to |ts|
      invariant r == TruncateAll(ts[..i], cap) && n == OverTexts(ts[..i], cap)
    {
      assert ts[..i + 1][..i] == ts[..i];
      n := n + Over(ts[i], cap);
      r := r + [Truncate(ts[i], cap)];
    }
    assert ts[..|ts|] == ts;
  }

  method TruncateAlternatives(alts: seq<Alternative>, cap: nat) returns (r: seq<Alternative>, n: nat)
    ensures r == ClipAlternatives(alts, cap) && n == OverAlternatives(alts, cap)
  {
    r, n := [], 0;
    for i := 0 to |alts|
      invariant r == ClipAlternatives(alts[..i], cap) && n == OverAlternatives(alts[..i], cap)
    {
      assert alts[..i + 1][..i] == alts[..i];
      n := n + Over(alts[i].option, cap) + Over(alts[i].rejectedBecause, cap);
      r := r + [Alternative(Truncate(alts[i].option, cap), Truncate(alts[i].rejectedBecause, cap))];
    }
    assert alts[..|alts|] == alts;
  }

  method TruncateDecisions(ds: seq<Decision>, cap: nat) returns (r: seq<Decision>, fieldsTruncated: nat)
    ensures r == ClipAll(ds, cap) && fieldsTruncated == OverAll(ds, cap)
  {
    r, fieldsTruncated := [], 0;
    for i := 0 to |ds|
      invariant r == ClipAll(ds[..i], cap) && fieldsTruncated == OverAll(ds[..i], cap)
    {
      var d, n := TruncateDecision(ds[i], cap);
      assert ds[..i + 1][..i] == ds[..i];
      fieldsTruncated := fieldsTruncated + n;
      r := r + [d];
    }
    assert ds[..|ds|] == ds;
  }

  method ReclipAll(ds: seq<Decision>, fieldCap: nat) returns (r: seq<Decision>, entriesDropped: nat)
    ensures |r| == |ds| && forall i :: 0 <= i < |ds| ==> r[i] == ReclipDecision(ds[i], fieldCap, 1).0
    ensures entriesDropped == DroppedEntries(ds)
  {
    r, entriesDropped := [], 0;
    for i := 0 to |ds|
      invariant |r| == i && forall j :: 0 <= j < i ==> r[j] == ReclipDecision(ds[j], fieldCap, 1).0
      invariant entriesDropped == DroppedEntries(ds[..i])
    {
      var (d, n) := ReclipDecision(ds[i], fieldCap, 1);
      assert ds[..i + 1][..i] == ds[..i];
      r := r + [d];
      entriesDropped := entriesDropped + n;
    }
    assert ds[..|ds|] == ds;
  }

  /** Drop whole trailing decisions while more than one remains. */
  method DropTrailing(first: Record, size: Record -> nat, max: nat) returns (bounded: Record, dropped: nat)
    ensures var n := |first.decisions|;
            var m := Fitting(first, n, size, max);
            dropped == n - m && bounded == first.(decisions := first.decisions[..m])
  {
    bounded, dropped := first, 0;
    ghost var n := |first.decisions|;
    assert first.decisions[..n] == first.decisions;
    while size(bounded) > max && |bounded.decisions| > 1
      invariant dropped <= n && bounded == first.(decisions := first.decisions[..n - dropped])
      invariant Fitting(first, n, size, max) == Fitting(first, n - dropped, size, max)
      decreases |bounded.decisions|
    {
      dropped := dropped + 1;
      bounded := bounded.(decisions := bounded.decisions[..|bounded.decisions| - 1]);
      assert bounded.decisions == first.decisions[..n - dropped];
    }
  }

  /** Halve the field cap until the record fits or the cap is the length of the marker. */
  method ShrinkFields(start: Record, cap: nat, size: Record -> nat, max: nat, ghost r: Record)
    returns (bounded: Record)
    requires start == Clipped(r.(decisions := CutAll(r.decisions)), cap)
    ensures var one := r.(decisions := CutAll(r.decisions)); bounded == Clipped(one, ShrinkCap(one, cap, size, max))
  {
    bounded := start;
    var fieldCap: nat := cap;
    var minFieldCap := |Marker|;
    MarkerLength();
    ghost var one := r.(decisions := CutAll(r.decisions));
    while size(bounded) > max && fieldCap > minFieldCap
      invariant bounded == Clipped(one, fieldCap)
      invariant ShrinkCap(one, cap, size, max) == ShrinkCap(one, fieldCap, size, max)
      decreases fieldCap
    {
      var before := fieldCap;
      fieldCap := Max(minFieldCap, fieldCap / 2);
      var smaller, _ := ReclipAll(bounded.decisions, fieldCap);
      NextReclip(r.decisions, smaller, before, fieldCap);
      bounded := bounded.(decisions := smaller);
    }
  }

  /** Cap every array field at one entry, then shrink the text fields. */
  method Squeeze(rest: Record, cap: nat, size: Record -> nat, max: nat, ghost r: Record)
    returns (bounded: Record, entriesDropped: nat)
    requires rest == Clipped(r, cap)
    ensures var one := r.(decisions := CutAll(r.decisions)); bounded == Clipped(one, ShrinkCap(one, cap, size, max))
    ensures entriesDropped == DroppedEntries(rest.decisions)
  {
    var reclipped;
    reclipped, entriesDropped := ReclipAll(rest.decisions, cap);
    FirstReclip(r.decisions, rest.decisions, reclipped, cap);
    bounded := ShrinkFields(rest.(decisions := reclipped), cap, size, max, r);
  }

  method BoundDesignDecisionRecord(record: Record, limits: Limits, size: Record -> nat) returns (result: Outcome)
    ensures result == Bound(record, limits, size)
  {
    var max, cap := limits.maxArtifactBytes, limits.maxFieldChars;
    var decisionsDropped := Max(0, |record.decisions| - limits.maxDecisions);
    var kept := Take(record.decisions, limits.maxDecisions);
    var decisions, fieldsTruncated := TruncateDecisions(kept, cap);
    var bounded, byCeiling := DropTrailing(record.(decisions := decisions), size, max);
    if size(bounded) <= max {
      return Bounded(bounded, Bounding(fieldsTruncated, decisionsDropped, byCeiling > 0, byCeiling, 0));
    }
    ghost var m := |bounded.decisions|;
    ClipAllPrefix(record.decisions, cap, |kept|, m);
    var final, entriesDropped := Squeeze(bounded, cap, size, max, record.(decisions := record.decisions[..m]));
    if size(final) > max {
      return LimitsError(size(final));
    }
    result := Bounded(final, Bounding(fieldsTruncated, decisionsDropped, true, byCeiling, entriesDropped));
  }

  lemma FirstReclip(ds: seq<Decision>, clipped: seq<Decision>, r: seq<Decision>, cap: nat)
    requires clipped == ClipAll(ds, cap) && |r| == |ds|
    requires forall i :: 0 <= i < |ds| ==> r[i] == ReclipDecision(clipped[i], cap, 1).0
    ensures r == ClipAll(CutAll(ds), cap)
  {
    forall i | 0 <= i < |ds| ensures r[i] == Clip(Cut(ds[i], 1), cap) {
      ReclipTwice(ds[i], cap, cap);
    }
  }

  lemma NextReclip(ds: seq<Decision>, r: seq<Decision>, a: nat, b: nat)
    requires b <= a && |r| == |ds|
    requires forall i :: 0 <= i < |ds| ==> r[i] == ReclipDecision(ClipAll(CutAll(ds), a)[i], b, 1).0
    ensures r == ClipAll(CutAll(ds), b)
  {
    forall i | 0 <= i < |ds| ensures r[i] == Clip(Cut(ds[i], 1), b) {
      ReclipTwice(ds[i], a, b);
    }
  }

  // ----- What a bounded record is -----

  lemma {:induction false} EntriesAfterClip(ds: seq<Decision>, cap: nat)
    ensures AllEntries(ClipAll(ds, cap)) == AllEntries(ds)
  {
    if ds != [] {
      EntriesAfterClip(ds[..|ds| - 1], cap);
      assert ClipAll(ds, cap)[..|ds| - 1] == ClipAll(ds[..|ds| - 1], cap);
    }
  }

  lemma {:induction false} EntriesAfterCut(ds: seq<Decision>, cap: nat)
    ensures AllEntries(CutAll(ds)) + DroppedEntries(ClipAll(ds, cap)) == AllEntries(ds)
  {
    if ds != [] {
      var init, d := ds[..|ds| - 1], ds[|ds| - 1];
      EntriesAfterCut(init, cap);
      assert CutAll(ds)[..|ds| - 1] == CutAll(init);
      assert ClipAll(ds, cap)[..|ds| - 1] == ClipAll(init, cap);
      CutAccounts(d, cap);
    }
  }

  lemma CutAccounts(d: Decision, cap: nat)
    ensures Entries(Cut(d, 1)) + ReclipDecision(Clip(d, cap), 0, 1).1 == Entries(d)
  {
  }

  lemma ClipAllPrefix(ds: seq<Decision>, cap: nat, n: nat, m: nat)
    requires m <= n <= |ds|
    ensures ClipAll(ds[..n], cap)[..m] == ClipAll(ds[..m], cap)
  {
  }

  /** Nothing the bounding removes goes uncounted: decisions, and array entries of the decisions that stay. */
  lemma BoundConserves(r: Record, limits: Limits, size: Record -> nat)
    requires Bound(r, limits, size).Bounded?
    ensures var Bounded(s, b) := Bound(r, limits, size);
            && |s.decisions| + b.decisionsDropped + b.decisionsDroppedByByteCeiling == |r.decisions|
            && AllEntries(s.decisions) + b.arrayEntriesDroppedByByteCeiling == AllEntries(r.decisions[..|s.decisions|])
            && (!b.artifactBytesTruncated ==> s == FirstPass(r, limits) && b.decisionsDroppedByByteCeiling == 0)
  {
    var cap := limits.maxFieldChars;
    var first := FirstPass(r, limits);
    var n := |first.decisions|;
    var m := Fitting(first, n, size, limits.maxArtifactBytes);
    var ds := r.decisions[..m];
    ClipAllPrefix(r.decisions, cap, n, m);
    assert first.decisions[..m] == ClipAll(ds, cap);
    EntriesAfterClip(ds, cap);
    EntriesAfterCut(ds, cap);
    var one := r.(decisions := CutAll(ds));
    EntriesAfterClip(CutAll(ds), ShrinkCap(one, cap, size, limits.maxArtifactBytes));
    assert first.decisions[..n] == first.decisions;
  }

  /** The decisions of the result: the first ones of the record, clipped once, with whole or one-entry arrays. */
  ghost predicate ClippedFrom(r: Record, s: Record, cap: nat) {
    && s.schemaVersion == r.schemaVersion && |s.decisions| <= |r.decisions|
    && var ds := r.decisions[..|s.decisions|];
       s.decisions == ClipAll(ds, cap) || s.decisions == ClipAll(CutAll(ds), cap)
  }

  lemma BoundClipsOnce(r: Record, limits: Limits, size: Record -> nat)
    requires Bound(r, limits, size).Bounded?
    ensures var s := Bound(r, limits, size).record;
            && size(s) <= limits.maxArtifactBytes && |s.decisions| <= limits.maxDecisions
            && (r.decisions != [] && limits.maxDecisions > 0 ==> s.decisions != [])
            && exists cap :: Tried(limits.maxFieldChars, cap) && ClippedFrom(r, s, cap)
  {
    var cap := limits.maxFieldChars;
    var first := FirstPass(r, limits);
    var n := |first.decisions|;
    var m := Fitting(first, n, size, limits.maxArtifactBytes);
    ClipAllPrefix(r.decisions, cap, n, m);
    var one := r.(decisions := CutAll(r.decisions[..m]));
    var c := ShrinkCap(one, cap, size, limits.maxArtifactBytes);
    var s := Bound(r, limits, size).record;
    assert Tried(cap, cap) && Tried(cap, c);
    assert ClippedFrom(r, s, cap) || ClippedFrom(r, s, c);
  }

  // ----- The text of every field -----

  /** The field as it was, or a beginning of it and the marker if it is longer than the cap. */
  ghost predicate FieldOf(was: string, now: string, cap: nat) {
    if |was| <= cap then now == was
    else exists k: nat :: k <= |was| && k == Max(0, cap - 12) && now == was[..k] + "…[truncated]"
  }

  ghost predicate TextsOf(was: seq<string>, now: seq<string>, cap: nat, whole: bool) {
    && |now| == (if whole then |was| else Min(|was|, 1))
    && forall j :: 0 <= j < |now| ==> FieldOf(was[j], now[j], cap)
  }

  ghost predicate AlternativesOf(was: seq<Alternative>, now: seq<Alternative>, cap: nat, whole: bool) {
    && |now| == (if whole then |was| else Min(|was|, 1))
    && forall j :: 0 <= j < |now| ==>
         FieldOf(was[j].option, now[j].option, cap) && FieldOf(was[j].rejectedBecause, now[j].rejectedBecause, cap)
  }

  /** Field by field; `whole` says that the arrays kept all their entries, not only the first. */
  ghost predicate DecisionOf(was: Decision, now: Decision, cap: nat, whole: bool) {
    && now.id == was.id
    && FieldOf(was.title, now.title, cap) && FieldOf(was.surface, now.surface, cap)
    && FieldOf(was.generalizationBoundary, now.generalizationBoundary, cap) && FieldOf(was.uncertainty, now.uncertainty, cap)
    && AlternativesOf(was.alternatives, now.alternatives, cap, whole)
    && TextsOf(was.assumptions, now.assumptions, cap, whole)
    && TextsOf(was.invariants, now.invariants, cap, whole)
    && TextsOf(was.evidence, now.evidence, cap, whole)
  }

  lemma TruncateField(was: string, cap: nat)
    ensures FieldOf(was, Truncate(was, cap), cap)
  {
    MarkerLength();
    if |was| > cap {
      var k := Max(0, cap - 12);
      assert Truncate(was, cap) == was[..k] + "…[truncated]";
    }
  }

  lemma TruncateTextsOf(was: seq<string>, cap: nat)
    ensures TextsOf(was, TruncateAll(was, cap), cap, true) && TextsOf(was, TruncateAll(Take(was, 1), cap), cap, false)
  {
    forall j | 0 <= j < |was| ensures FieldOf(was[j], Truncate(was[j], cap), cap) { TruncateField(was[j], cap); }
  }

  lemma ClipAlternativesOf(was: seq<Alternative>, cap: nat)
    ensures AlternativesOf(was, ClipAlternatives(was, cap), cap, true)
    ensures AlternativesOf(was, ClipAlternatives(Take(was, 1), cap), cap, false)
  {
    forall j | 0 <= j < |was|
      ensures FieldOf(was[j].option, Truncate(was[j].option, cap), cap)
      ensures FieldOf(was[j].rejectedBecause, Truncate(was[j].rejectedBecause, cap), cap)
    {
      TruncateField(was[j].option, cap);
      TruncateField(was[j].rejectedBecause, cap);
    }
  }

  lemma ClipDecisionOf(d: Decision, cap: nat)
    ensures DecisionOf(d, Clip(d, cap), cap, true) && DecisionOf(d, Clip(Cut(d, 1), cap), cap, false)
  {
    TruncateField(d.title, cap);
    TruncateField(d.surface, cap);
    TruncateField(d.generalizationBoundary, cap);
    TruncateField(d.uncertainty, cap);
    ClipAlternativesOf(d.alternatives, cap);
    TruncateTextsOf(d.assumptions, cap);
    TruncateTextsOf(d.invariants, cap);
    TruncateTextsOf(d.evidence, cap);
  }

  ghost predicate RecordOf(r: Record, s: Record, cap: nat, whole: bool) {
    && s.schemaVersion == r.schemaVersion && |s.decisions| <= |r.decisions|
    && forall i :: 0 <= i < |s.decisions| ==> DecisionOf(r.decisions[i], s.decisions[i], cap, whole)
  }

  lemma ClippedRecordOf(r: Record, s: Record, cap: nat)
    requires ClippedFrom(r, s, cap)
    ensures RecordOf(r, s, cap, true) || RecordOf(r, s, cap, false)
  {
    forall i | 0 <= i < |s.decisions|
      ensures DecisionOf(r.decisions[i], Clip(r.decisions[i], cap), cap, true)
      ensures DecisionOf(r.decisions[i], Clip(Cut(r.decisions[i], 1), cap), cap, false)
    {
      ClipDecisionOf(r.decisions[i], cap);
    }
  }

  /**
    Every field of the result is the same field of the record, whole or cut with the
    marker at one cap that was tried: the configured one if nothing was cut for the
    byte ceiling.
  */
  lemma BoundFields(r: Record, limits: Limits, size: Record -> nat)
    requires Bound(r, limits, size).Bounded?
    ensures var Bounded(s, b) := Bound(r, limits, size);
            exists cap, whole :: && Tried(limits.maxFieldChars, cap) && RecordOf(r, s, cap, whole)
                                 && (!b.artifactBytesTruncated ==> cap == limits.maxFieldChars && whole)
  {
    var Bounded(s, b) := Bound(r, limits, size);
    if b.artifactBytesTruncated {
      BoundClipsOnce(r, limits, size);
      var cap :| Tried(limits.maxFieldChars, cap) && ClippedFrom(r, s, cap);
      ClippedRecordOf(r, s, cap);
    } else {
      BoundConserves(r, limits, size);
      FirstPassFields(r, limits);
      assert Tried(limits.maxFieldChars, limits.maxFieldChars);
    }
  }

  lemma FirstPassFields(r: Record, limits: Limits)
    ensures RecordOf(r, FirstPass(r, limits), limits.maxFieldChars, true)
  {
    var s := FirstPass(r, limits);
    forall i | 0 <= i < |s.decisions| ensures DecisionOf(r.decisions[i], s.decisions[i], limits.maxFieldChars, true) {
      ClipDecisionOf(r.decisions[i], limits.maxFieldChars);
    }
  }

  // ----- Truncation is never silent -----

  ghost predicate ShortDecision(d: Decision, cap: nat) {
    && |d.title| <= cap && |d.surface| <= cap && |d.generalizationBoundary| <= cap && |d.uncertainty| <= cap
    && (forall a :: a in d.alternatives ==> |a.option| <= cap && |a.rejectedBecause| <= cap)
    && (forall t :: t in d.assumptions || t in d.invariants || t in d.evidence ==> |t| <= cap)
  }

  lemma {:induction false} OverTextsZero(ts: seq<string>, cap: nat)
    ensures OverTexts(ts, cap) == 0 <==> forall t :: t in ts ==> |t| <= cap
  {
    if ts != [] {
      OverTextsZero(ts[..|ts| - 1], cap);
      assert ts == ts[..|ts| - 1] + [ts[|ts| - 1]];
    }
  }

  lemma {:induction false} OverAlternativesZero(alts: seq<Alternative>, cap: nat)
    ensures OverAlternatives(alts, cap) == 0 <==> forall a :: a in alts ==> |a.option| <= cap && |a.rejectedBecause| <= cap
  {
    if alts != [] {
      OverAlternativesZero(alts[..|alts| - 1], cap);
      assert alts == alts[..|alts| - 1] + [alts[|alts| - 1]];
    }
  }

  lemma OverDecisionZero(d: Decision, cap: nat)
    ensures OverDecision(d, cap) == 0 <==> ShortDecision(d, cap)
  {
    OverAlternativesZero(d.alternatives, cap);
    OverTextsZero(d.assumptions, cap);
    OverTextsZero(d.invariants, cap);
    OverTextsZero(d.evidence, cap);
  }

  /** No field is counted as truncated if and only if none is longer than the cap. */
  lemma {:induction false} OverAllZero(ds: seq<Decision>, cap: nat)
    ensures OverAll(ds, cap) == 0 <==> forall d :: d in ds ==> ShortDecision(d, cap)
  {
    if ds != [] {
      OverAllZero(ds[..|ds| - 1], cap);
      OverDecisionZero(ds[|ds| - 1], cap);
      assert ds == ds[..|ds| - 1] + [ds[|ds| - 1]];
    }
  }

  lemma ShortIsUnclipped(d: Decision, cap: nat)
    requires ShortDecision(d, cap)
    ensures Clip(d, cap) == d
  {
    assert TruncateAll(d.assumptions, cap) == d.assumptions;
    assert TruncateAll(d.invariants, cap) == d.invariants;
    assert TruncateAll(d.evidence, cap) == d.evidence;
    assert ClipAlternatives(d.alternatives, cap) == d.alternatives;
  }

  /** A report of nothing truncated and nothing dropped means that the record is unchanged. */
  lemma SilentMeansUnchanged(r: Record, limits: Limits, size: Record -> nat)
    requires Bound(r, limits, size).Bounded? && Bound(r, limits, size).bounding == Bounding(0, 0, false, 0, 0)
    ensures Bound(r, limits, size).record == r
  {
    var cap := limits.maxFieldChars;
    BoundConserves(r, limits, size);
    assert Take(r.decisions, limits.maxDecisions) == r.decisions;
    OverAllZero(r.decisions, cap);
    forall i | 0 <= i < |r.decisions| ensures Clip(r.decisions[i], cap) == r.decisions[i] {
      assert r.decisions[i] in r.decisions;
      ShortIsUnclipped(r.decisions[i], cap);
    }
    assert ClipAll(r.decisions, cap) == r.decisions;
  }

  lemma ClippedStaysValid(r: Record, s: Record, cap: nat)
    requires Valid(r) && ClippedFrom(r, s, cap) && s.decisions != []
    ensures Valid(s)
  {
    forall i | 0 <= i < |s.decisions| ensures ValidDecision(s.decisions[i]) && s.decisions[i].id == r.decisions[i].id {
      var d := r.decisions[i];
      assert d in r.decisions;
      CutValid(d, 1);
      ClipValid(d, cap);
      ClipValid(Cut(d, 1), cap);
    }
  }

  /**
    For every valid record and positive limits the result is within the byte
    ceiling and still valid, and its decision ids are the first ones of the record.
  */
  lemma BoundedRecordIsValid(r: Record, limits: Limits, size: Record -> nat)
    requires Valid(r) && limits.maxDecisions > 0 && Bound(r, limits, size).Bounded?
    ensures var s := Bound(r, limits, size).record;
            && Valid(s) && size(s) <= limits.maxArtifactBytes && |s.decisions| <= |r.decisions|
            && forall i :: 0 <= i < |s.decisions| ==> s.decisions[i].id == r.decisions[i].id
  {
    BoundClipsOnce(r, limits, size);
    var s := Bound(r, limits, size).record;
    var cap :| Tried(limits.maxFieldChars, cap) && ClippedFrom(r, s, cap);
    ClippedStaysValid(r, s, cap);
  }

  /** The limits error is raised exactly when nothing that is tried fits. */
  lemma LimitsErrorIff(r: Record, limits: Limits, size: Record -> nat)
    requires r.decisions != [] && limits.maxDecisions > 0
    ensures Bound(r, limits, size).LimitsError? <==>
            && (forall k :: 1 <= k <= Min(|r.decisions|, limits.maxDecisions) ==>
                  size(r.(decisions := ClipAll(r.decisions[..k], limits.maxFieldChars))) > limits.maxArtifactBytes)
            && (forall cap :: Tried(limits.maxFieldChars, cap) ==>
                  size(r.(decisions := ClipAll(CutAll(r.decisions[..1]), cap))) > limits.maxArtifactBytes)
    ensures Bound(r, limits, size).LimitsError? ==>
              Bound(r, limits, size).minimum == size(r.(decisions := ClipAll(CutAll(r.decisions[..1]), Min(limits.maxFieldChars, 12))))
  {
    var max := limits.maxArtifactBytes;
    var first := FirstPass(r, limits);
    var n := |first.decisions|;
    var m := Fitting(first, n, size, max);
    forall k | 1 <= k <= n ensures first.(decisions := first.decisions[..k])
                                == r.(decisions := ClipAll(r.decisions[..k], limits.maxFieldChars)) {
      ClipAllPrefix(r.decisions, limits.maxFieldChars, n, k);
    }
    var one := r.(decisions := CutAll(r.decisions[..1]));
    var c := ShrinkCap(one, limits.maxFieldChars, size, max);
    assert Clipped(one, c) == r.(decisions := ClipAll(CutAll(r.decisions[..1]), c));
    TriedFloor(limits.maxFieldChars, c);
  }

  /** No cap below the length of the marker is tried, other than the configured one. */
  lemma {:induction false} TriedFloor(start: nat, cap: nat)
    requires Tried(start, cap)
    ensures cap == start || cap >= 12
    decreases start
  {
    if cap != start { TriedFloor(NextCap(start), cap); }
  }
}
