/** Validation of an untrusted decision record (core/scripts/design-gate.ts). */
module DesignValidate {
  import opened Prelude
  import opened DesignRecord

  /** The member names the contract uses; any other name is `Other`. */
  datatype Key =
    | SchemaVersion | Decisions | Id | Title | Surface | GeneralizationBoundary | Uncertainty
    | Assumptions | Invariants | Evidence | Alternatives | Option | RejectedBecause | Other(name: string)

  /** A parsed JSON value. */
  datatype Json =
    | Null | Bool(b: bool) | Num(n: real) | Str(s: string) | Arr(items: seq<Json>) | Obj(fields: map<Key, Json>)

  datatype Problem =
    | NotAnObject | BadVersion | NoDecisions
    | DecisionNotObject(i: nat) | FieldMissing(i: nat, key: Key) | NotStringArray(i: nat, key: Key)
    | NoAlternatives(i: nat) | AlternativeNotObject(i: nat, j: nat) | AlternativeField(i: nat, j: nat, key: Key)
    | DuplicateIds(ids: seq<string>)

  /** An array is an object too, one without the members asked for. */
  predicate IsObject(v: Json) {
    v.Obj? || v.Arr?
  }

  function Get(v: Json, key: Key): Json {
    if v.Obj? && key in v.fields then v.fields[key] else Null
  }

  predicate Text(v: Json) {
    v.Str? && !IsBlank(v.s)
  }

  predicate StringArray(v: Json) {
    v.Arr? && forall x :: x in v.items ==> x.Str?
  }

  const StringKeys := [Id, Title, Surface, GeneralizationBoundary, Uncertainty]
  const ArrayKeys := [Assumptions, Invariants, Evidence]

  function Optionally(wrong: bool, p: Problem): seq<Problem> {
    if wrong then [p] else []
  }

  function StringProblems(d: Json, i: nat, keys: seq<Key>): seq<Problem> {
    if keys == [] then []
    else
      var key := keys[|keys| - 1];
      StringProblems(d, i, keys[..|keys| - 1]) + Optionally(!Text(Get(d, key)), FieldMissing(i, key))
  }

  function ArrayProblems(d: Json, i: nat, keys: seq<Key>): seq<Problem> {
    if keys == [] then []
    else
      var key := keys[|keys| - 1];
      ArrayProblems(d, i, keys[..|keys| - 1]) + Optionally(!StringArray(Get(d, key)), NotStringArray(i, key))
  }

  function AlternativeProblems(alt: Json, i: nat, j: nat): seq<Problem> {
    if !IsObject(alt) then [AlternativeNotObject(i, j)]
    else Optionally(!Text(Get(alt, Option)), AlternativeField(i, j, Option))
         + Optionally(!Text(Get(alt, RejectedBecause)), AlternativeField(i, j, RejectedBecause))
  }

  function AlternativesProblems(alts: seq<Json>, i: nat): seq<Problem> {
    if alts == [] then []
    else AlternativesProblems(alts[..|alts| - 1], i) + AlternativeProblems(alts[|alts| - 1], i, |alts| - 1)
  }

  predicate SomeAlternatives(v: Json) {
    v.Arr? && v.items != []
  }

  function AlternativesPart(alts: Json, i: nat): seq<Problem> {
    if SomeAlternatives(alts) then AlternativesProblems(alts.items, i) else [NoAlternatives(i)]
  }

  function DecisionProblems(d: Json, i: nat): seq<Problem> {
    if !IsObject(d) then [DecisionNotObject(i)]
    else
      var alts := Get(d, Alternatives);
      StringProblems(d, i, StringKeys) + ArrayProblems(d, i, ArrayKeys)
      + AlternativesPart(alts, i)
  }

  function DecisionsProblems(ds: seq<Json>): seq<Problem> {
    if ds == [] then []
    else DecisionsProblems(ds[..|ds| - 1]) + DecisionProblems(ds[|ds| - 1], |ds| - 1)
  }

  function UsableIds(ds: seq<Json>): seq<string> {
    if ds == [] then []
    else
      var id := Get(ds[|ds| - 1], Id);
      UsableIds(ds[..|ds| - 1]) + if Text(id) then [id.s] else []
  }

  /** The ids that occur more than once, in the order in which they first recur. */
  function Repeated(ids: seq<string>): seq<string> {
    if ids == [] then []
    else
      var init, id := ids[..|ids| - 1], ids[|ids| - 1];
      Repeated(init) + if id in init && id !in Repeated(init) then [id] else []
  }

  function Problems(v: Json): seq<Problem> {
    if !IsObject(v) then [NotAnObject]
    else if Get(v, SchemaVersion) != Num(1.0) then [BadVersion]
    else
      var ds := Get(v, Decisions);
      if !(ds.Arr? && ds.items != []) then [NoDecisions]
      else
        var repeated := Repeated(UsableIds(ds.items));
        DecisionsProblems(ds.items) + Optionally(repeated != [], DuplicateIds(repeated))
  }

  // ----- The operation -----

  method ValidateDesignDecisionRecord(candidate: Json) returns (ok: bool, errors: seq<Problem>)
    ensures errors == Problems(candidate) && ok == (errors == [])
  {
    if !IsObject(candidate) {
      return false, [NotAnObject];
    }
    if Get(candidate, SchemaVersion) != Num(1.0) {
      return false, [BadVersion];
    }
    var decisions := Get(candidate, Decisions);
    if !decisions.Arr? || |decisions.items| == 0 {
      return false, [NoDecisions];
    }
    var ds := decisions.items;
    errors := [];
    for i := 0 to |ds|
      invariant errors == DecisionsProblems(ds[..i])
    {
      var more := CheckDecision(ds[i], i);
      assert ds[..i + 1][..i] == ds[..i];
      errors := errors + more;
    }
    assert ds[..|ds|] == ds;
    var dupeIds := FindDuplicates(ds);
    if |dupeIds| > 0 {
      errors := errors + [DuplicateIds(dupeIds)];
    } else {
      assert errors + [] == errors;
    }
    ok := errors == [];
  }

  method CheckDecision(d: Json, i: nat) returns (errors: seq<Problem>)
    ensures errors == DecisionProblems(d, i)
  {
    if !IsObject(d) {
      return [DecisionNotObject(i)];
    }
    var strings := CheckStrings(d, i, StringKeys);
    var arrays := CheckArrays(d, i, ArrayKeys);
    var alts := Get(d, Alternatives);
    errors := strings + arrays;
    if !alts.Arr? || |alts.items| == 0 {
      errors := errors + [NoAlternatives(i)];
    } else {
      var more := CheckAlternatives(alts.items, i);
      errors := errors + more;
    }
  }

  method CheckStrings(d: Json, i: nat, keys: seq<Key>) returns (errors: seq<Problem>)
    ensures errors == StringProblems(d, i, keys)
  {
    errors := [];
    for k := 0 to |keys|
      invariant errors == StringProblems(d, i, keys[..k])
    {
      assert keys[..k + 1][..k] == keys[..k];
      if !Text(Get(d, keys[k])) {
        errors := errors + [FieldMissing(i, keys[k])];
      } else {
        assert errors + [] == errors;
      }
    }
    assert keys[..|keys|] == keys;
  }

  method CheckArrays(d: Json, i: nat, keys: seq<Key>) returns (errors: seq<Problem>)
    ensures errors == ArrayProblems(d, i, keys)
  {
    errors := [];
    for k := 0 to |keys|
      invariant errors == ArrayProblems(d, i, keys[..k])
    {
      assert keys[..k + 1][..k] == keys[..k];
      if !StringArray(Get(d, keys[k])) {
        errors := errors + [NotStringArray(i, keys[k])];
      } else {
        assert errors + [] == errors;
      }
    }
    assert keys[..|keys|] == keys;
  }

  method CheckAlternatives(alts: seq<Json>, i: nat) returns (errors: seq<Problem>)
    ensures errors == AlternativesProblems(alts, i)
  {
    errors := [];
    for j := 0 to |alts|
      invariant errors == AlternativesProblems(alts[..j], i)
    {
      assert alts[..j + 1][..j] == alts[..j];
      errors := errors + AlternativeProblems(alts[j], i, j);
    }
    assert alts[..|alts|] == alts;
  }

  method FindDuplicates(ds: seq<Json>) returns (dupeIds: seq<string>)
    ensures dupeIds == Repeated(UsableIds(ds))
  {
    var seenIds: set<string> := {};
    dupeIds := [];
    ghost var ids: seq<string> := [];
    for i := 0 to |ds|
      invariant ids == UsableIds(ds[..i]) && dupeIds == Repeated(ids)
      invariant forall x :: x in seenIds <==> x in ids
    {
      UsableSnoc(ds[..i], ds[i]);
      assert ds[..i + 1] == ds[..i] + [ds[i]];
      if Text(Get(ds[i], Id)) {
        var id := Get(ds[i], Id).s;
        RepeatedSnoc(ids, id);
        if id in seenIds && id !in dupeIds {
          dupeIds := dupeIds + [id];
        }
        seenIds := seenIds + {id};
        ids := ids + [id];
      }
    }
    assert ds[..|ds|] == ds;
  }

  lemma UsableSnoc(ds: seq<Json>, d: Json)
    ensures UsableIds(ds + [d]) == if Text(Get(d, Id)) then UsableIds(ds) + [Get(d, Id).s] else UsableIds(ds)
  {
    assert (ds + [d])[..|ds|] == ds;
  }

  lemma RepeatedSnoc(ids: seq<string>, id: string)
    ensures Repeated(ids + [id]) == if id in ids && id !in Repeated(ids) then Repeated(ids) + [id] else Repeated(ids)
  {
    assert (ids + [id])[..|ids|] == ids;
  }

  // ----- What a candidate without problems is -----

  function ReadStrings(vs: seq<Json>): seq<string>
    requires forall v :: v in vs ==> v.Str?
  {
    seq(|vs|, i requires 0 <= i < |vs| => assert vs[i] in vs; vs[i].s)
  }

  function ReadAlternatives(vs: seq<Json>): seq<Alternative>
    requires forall v :: v in vs ==> Get(v, Option).Str? && Get(v, RejectedBecause).Str?
  {
    seq(|vs|, i requires 0 <= i < |vs| => assert vs[i] in vs; Alternative(Get(vs[i], Option).s, Get(vs[i], RejectedBecause).s))
  }

  /** Every member of the decision is there with the right type. */
  predicate TypedDecision(d: Json) {
    && Get(d, Id).Str? && Get(d, Title).Str? && Get(d, Surface).Str?
    && Get(d, GeneralizationBoundary).Str? && Get(d, Uncertainty).Str?
    && StringArray(Get(d, Assumptions)) && StringArray(Get(d, Invariants)) && StringArray(Get(d, Evidence))
    && Get(d, Alternatives).Arr?
    && forall v :: v in Get(d, Alternatives).items ==> Get(v, Option).Str? && Get(v, RejectedBecause).Str?
  }

  function ReadDecision(d: Json): Decision
    requires TypedDecision(d)
  {
    Decision(Get(d, Id).s, Get(d, Title).s, Get(d, Surface).s, ReadAlternatives(Get(d, Alternatives).items),
             ReadStrings(Get(d, Assumptions).items), ReadStrings(Get(d, Invariants).items),
             ReadStrings(Get(d, Evidence).items), Get(d, GeneralizationBoundary).s, Get(d, Uncertainty).s)
  }

  predicate TypedRecord(v: Json) {
    && Get(v, SchemaVersion).Num? && Get(v, Decisions).Arr?
    && forall d :: d in Get(v, Decisions).items ==> TypedDecision(d)
  }

  function ReadRecord(v: Json): Record
    requires TypedRecord(v)
  {
    var ds := Get(v, Decisions).items;
    var n := Get(v, SchemaVersion).n;
    Record(if n == 1.0 then 1 else 0, seq(|ds|, i requires 0 <= i < |ds| => assert ds[i] in ds; ReadDecision(ds[i])))
  }

  lemma BothEmpty(a: seq<Problem>, b: seq<Problem>)
    ensures a + b == [] <==> a == [] && b == []
  {
    if a + b == [] { assert |a + b| == 0; }
  }

  lemma AllOfSnoc(p: Json -> bool, vs: seq<Json>)
    requires vs != []
    ensures (forall v :: v in vs ==> p(v)) <==> (forall v :: v in vs[..|vs| - 1] ==> p(v)) && p(vs[|vs| - 1])
  {
    assert vs == vs[..|vs| - 1] + [vs[|vs| - 1]];
  }

  lemma {:induction false} NoStringProblems(d: Json, i: nat, keys: seq<Key>)
    ensures StringProblems(d, i, keys) == [] <==> forall k :: k in keys ==> Text(Get(d, k))
  {
    if keys != [] {
      NoStringProblems(d, i, keys[..|keys| - 1]);
      assert keys == keys[..|keys| - 1] + [keys[|keys| - 1]];
    }
  }

  lemma {:induction false} NoArrayProblems(d: Json, i: nat, keys: seq<Key>)
    ensures ArrayProblems(d, i, keys) == [] <==> forall k :: k in keys ==> StringArray(Get(d, k))
  {
    if keys != [] {
      NoArrayProblems(d, i, keys[..|keys| - 1]);
      assert keys == keys[..|keys| - 1] + [keys[|keys| - 1]];
    }
  }

  predicate GoodAlternative(v: Json) {
    Text(Get(v, Option)) && Text(Get(v, RejectedBecause))
  }

  lemma {:induction false} NoAlternativesProblems(alts: seq<Json>, i: nat)
    ensures AlternativesProblems(alts, i) == [] <==> forall v :: v in alts ==> GoodAlternative(v)
  {
    if alts != [] {
      var init, last := alts[..|alts| - 1], alts[|alts| - 1];
      NoAlternativesProblems(init, i);
      NoAlternativeProblems(last, i, |init|);
      BothEmpty(AlternativesProblems(init, i), AlternativeProblems(last, i, |init|));
      AllOfSnoc(GoodAlternative, alts);
    }
  }

  lemma NoAlternativeProblems(alt: Json, i: nat, j: nat)
    ensures AlternativeProblems(alt, i, j) == [] <==> GoodAlternative(alt)
  {
  }

  lemma AlternativesRead(vs: seq<Json>)
    requires forall v :: v in vs ==> Get(v, Option).Str? && Get(v, RejectedBecause).Str?
    ensures (forall a :: a in ReadAlternatives(vs) ==> ValidAlternative(a)) <==> (forall v :: v in vs ==> GoodAlternative(v))
  {
    var alts := ReadAlternatives(vs);
    if forall a :: a in alts ==> ValidAlternative(a) {
      forall i | 0 <= i < |vs| ensures GoodAlternative(vs[i]) { assert alts[i] in alts; }
    }
    if forall v :: v in vs ==> GoodAlternative(v) {
      forall i | 0 <= i < |vs| ensures ValidAlternative(alts[i]) { assert vs[i] in vs; }
    }
  }

  predicate GoodDecision(d: Json) {
    && Text(Get(d, Id)) && Text(Get(d, Title)) && Text(Get(d, Surface))
    && Text(Get(d, GeneralizationBoundary)) && Text(Get(d, Uncertainty))
    && StringArray(Get(d, Assumptions)) && StringArray(Get(d, Invariants)) && StringArray(Get(d, Evidence))
    && SomeAlternatives(Get(d, Alternatives)) && forall v :: v in Get(d, Alternatives).items ==> GoodAlternative(v)
  }

  lemma StringKeysMeaning(d: Json)
    ensures (forall k :: k in StringKeys ==> Text(Get(d, k)))
       <==> && Text(Get(d, Id)) && Text(Get(d, Title)) && Text(Get(d, Surface))
            && Text(Get(d, GeneralizationBoundary)) && Text(Get(d, Uncertainty))
  {
    assert StringKeys[0] == Id && StringKeys[1] == Title && StringKeys[2] == Surface
           && StringKeys[3] == GeneralizationBoundary && StringKeys[4] == Uncertainty;
  }

  lemma ArrayKeysMeaning(d: Json)
    ensures (forall k :: k in ArrayKeys ==> StringArray(Get(d, k)))
       <==> StringArray(Get(d, Assumptions)) && StringArray(Get(d, Invariants)) && StringArray(Get(d, Evidence))
  {
    assert ArrayKeys[0] == Assumptions && ArrayKeys[1] == Invariants && ArrayKeys[2] == Evidence;
  }

  lemma NoDecisionProblems(d: Json, i: nat)
    ensures DecisionProblems(d, i) == [] <==> GoodDecision(d)
  {
    NoStringProblems(d, i, StringKeys);
    NoArrayProblems(d, i, ArrayKeys);
    StringKeysMeaning(d);
    ArrayKeysMeaning(d);
    if SomeAlternatives(Get(d, Alternatives)) {
      NoAlternativesProblems(Get(d, Alternatives).items, i);
    }
    BothEmpty(StringProblems(d, i, StringKeys), ArrayProblems(d, i, ArrayKeys));
    BothEmpty(StringProblems(d, i, StringKeys) + ArrayProblems(d, i, ArrayKeys), AlternativesPart(Get(d, Alternatives), i));
  }

  lemma GoodDecisionMeaning(d: Json)
    ensures GoodDecision(d) <==> TypedDecision(d) && ValidDecision(ReadDecision(d))
  {
    if TypedDecision(d) {
      AlternativesRead(Get(d, Alternatives).items);
    }
  }

  lemma {:induction false} NoDecisionsProblems(ds: seq<Json>)
    ensures DecisionsProblems(ds) == [] <==> forall d :: d in ds ==> GoodDecision(d)
  {
    if ds != [] {
      var init, last := ds[..|ds| - 1], ds[|ds| - 1];
      NoDecisionsProblems(init);
      NoDecisionProblems(last, |init|);
      BothEmpty(DecisionsProblems(init), DecisionProblems(last, |init|));
      AllOfSnoc(GoodDecision, ds);
    }
  }

  /** The reported ids are exactly those that occur at two places. */
  lemma {:induction false} RepeatedMeaning(ids: seq<string>, x: string)
    ensures x in Repeated(ids) <==> Twice(ids, x)
  {
    if ids != [] {
      var init, last := ids[..|ids| - 1], ids[|ids| - 1];
      RepeatedMeaning(init, x);
      assert ids == init + [last];
      RepeatedSnoc(init, last);
      TwiceSnoc(init, last, x);
    }
  }

  ghost predicate Twice(ids: seq<string>, x: string) {
    exists i, j :: 0 <= i < j < |ids| && ids[i] == x && ids[j] == x
  }

  lemma TwiceSnoc(init: seq<string>, last: string, x: string)
    ensures Twice(init + [last], x) <==> Twice(init, x) || (x in init && x == last)
  {
    var ids := init + [last];
    if Twice(init, x) {
      var i, j :| 0 <= i < j < |init| && init[i] == x && init[j] == x;
      assert ids[i] == x && ids[j] == x;
    }
    if x in init && x == last {
      var i :| 0 <= i < |init| && init[i] == x;
      assert ids[i] == x && ids[|init|] == x;
    }
    if Twice(ids, x) {
      var i, j :| 0 <= i < j < |ids| && ids[i] == x && ids[j] == x;
      assert init[i] == x && (j < |init| ==> init[j] == x);
    }
  }

  lemma {:induction false} GoodIds(ds: seq<Json>)
    requires forall d :: d in ds ==> GoodDecision(d)
    ensures |UsableIds(ds)| == |ds| && forall i :: 0 <= i < |ds| ==> Get(ds[i], Id).Str? && UsableIds(ds)[i] == Get(ds[i], Id).s
  {
    if ds != [] {
      GoodIds(ds[..|ds| - 1]);
      assert ds[|ds| - 1] in ds;
    }
  }

  lemma NothingRepeated(ids: seq<string>)
    ensures Repeated(ids) == [] <==> Distinct(ids)
  {
    if Repeated(ids) != [] {
      var x := Repeated(ids)[0];
      RepeatedMeaning(ids, x);
    }
    if !Distinct(ids) {
      var i, j :| 0 <= i < j < |ids| && ids[i] == ids[j];
      RepeatedMeaning(ids, ids[i]);
    }
  }

  /** A candidate has no problems exactly when it reads as a complete valid record. */
  lemma ValidatedIff(v: Json)
    ensures Problems(v) == [] <==> TypedRecord(v) && Valid(ReadRecord(v))
  {
    if IsObject(v) && Get(v, SchemaVersion) == Num(1.0) && Get(v, Decisions).Arr? && Get(v, Decisions).items != [] {
      var ds := Get(v, Decisions).items;
      NoDecisionsProblems(ds);
      NothingRepeated(UsableIds(ds));
      RecordOfDecisions(v, ds);
    }
  }

  lemma DecisionsRead(ds: seq<Json>, rs: seq<Decision>)
    requires (forall d :: d in ds ==> TypedDecision(d)) && |rs| == |ds|
    requires forall i :: 0 <= i < |ds| ==> ds[i] in ds && rs[i] == ReadDecision(ds[i])
    ensures (forall d :: d in ds ==> GoodDecision(d)) <==> (forall r :: r in rs ==> ValidDecision(r))
  {
    forall i | 0 <= i < |ds| ensures GoodDecision(ds[i]) <==> ValidDecision(rs[i]) {
      GoodDecisionMeaning(ds[i]);
    }
    if forall r :: r in rs ==> ValidDecision(r) {
      forall i | 0 <= i < |ds| ensures GoodDecision(ds[i]) { assert rs[i] in rs; }
    }
  }

  lemma RecordOfDecisions(v: Json, ds: seq<Json>)
    requires Get(v, SchemaVersion) == Num(1.0) && Get(v, Decisions) == Arr(ds) && ds != []
    ensures (forall d :: d in ds ==> GoodDecision(d)) && Distinct(UsableIds(ds))
       <==> TypedRecord(v) && Valid(ReadRecord(v))
  {
    if TypedRecord(v) {
      DecisionsRead(ds, ReadRecord(v).decisions);
      if forall d :: d in ds ==> GoodDecision(d) {
        GoodIds(ds);
        SameIds(UsableIds(ds), ReadRecord(v).decisions);
      }
    } else if forall d :: d in ds ==> GoodDecision(d) {
      forall d | d in ds ensures TypedDecision(d) { GoodDecisionMeaning(d); }
    }
  }

  lemma SameIds(ids: seq<string>, rs: seq<Decision>)
    requires |ids| == |rs| && forall i :: 0 <= i < |rs| ==> rs[i].id == ids[i]
    ensures Distinct(ids) <==> forall i, j :: 0 <= i < j < |rs| ==> rs[i].id != rs[j].id
  {
  }

  // ----- Written records -----

  function WriteStrings(ts: seq<string>): Json {
    Arr(seq(|ts|, i requires 0 <= i < |ts| => Str(ts[i])))
  }

  function WriteAlternative(a: Alternative): Json {
    Obj(map[Option := Str(a.option), RejectedBecause := Str(a.rejectedBecause)])
  }

  function WriteDecision(d: Decision): Json {
    Obj(map[Id := Str(d.id), Title := Str(d.title), Surface := Str(d.surface),
            Alternatives := Arr(seq(|d.alternatives|, i requires 0 <= i < |d.alternatives| => WriteAlternative(d.alternatives[i]))),
            Assumptions := WriteStrings(d.assumptions), Invariants := WriteStrings(d.invariants),
            Evidence := WriteStrings(d.evidence),
            GeneralizationBoundary := Str(d.generalizationBoundary), Uncertainty := Str(d.uncertainty)])
  }

  function WriteRecord(r: Record): Json {
    Obj(map[SchemaVersion := Num(r.schemaVersion as real),
            Decisions := Arr(seq(|r.decisions|, i requires 0 <= i < |r.decisions| => WriteDecision(r.decisions[i])))])
  }

  lemma WrittenDecision(d: Decision)
    ensures TypedDecision(WriteDecision(d)) && ReadDecision(WriteDecision(d)) == d
  {
    var w := WriteDecision(d);
    assert ReadStrings(WriteStrings(d.assumptions).items) == d.assumptions;
    assert ReadStrings(WriteStrings(d.invariants).items) == d.invariants;
    assert ReadStrings(WriteStrings(d.evidence).items) == d.evidence;
    assert Get(w, Alternatives).items == seq(|d.alternatives|, i requires 0 <= i < |d.alternatives| => WriteAlternative(d.alternatives[i]));
    assert ReadAlternatives(Get(w, Alternatives).items) == d.alternatives;
  }

  /** A written record passes validation exactly when the record is valid. */
  lemma WrittenRecordValidates(r: Record)
    ensures Problems(WriteRecord(r)) == [] <==> Valid(r)
  {
    var w := WriteRecord(r);
    var ds := Get(w, Decisions).items;
    forall i | 0 <= i < |ds| ensures TypedDecision(ds[i]) && ReadDecision(ds[i]) == r.decisions[i] {
      WrittenDecision(r.decisions[i]);
    }
    ValidatedIff(w);
    assert ReadRecord(w).decisions == r.decisions;
    assert ReadRecord(w).schemaVersion == 1 <==> r.schemaVersion == 1;
  }
}
