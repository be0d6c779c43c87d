/** Which problems the validator reports, and where (core/scripts/design-gate.ts). */
module DesignProblems {
  import opened Prelude
  import opened DesignRecord
  import opened DesignValidate

  // ----- What is wrong with a candidate, said of the JSON value -----

  ghost predicate HasText(v: Json, key: Key) {
    v.Obj? && key in v.fields && v.fields[key].Str? && exists i :: 0 <= i < |v.fields[key].s| && !IsSpace(v.fields[key].s[i])
  }

  ghost predicate HasStrings(v: Json, key: Key) {
    v.Obj? && key in v.fields && v.fields[key].Arr? && forall i :: 0 <= i < |v.fields[key].items| ==> v.fields[key].items[i].Str?
  }

  /** The entries of a non-empty array at that key; none if there is no such array. */
  ghost function ArrayAt(v: Json, key: Key): seq<Json> {
    if v.Obj? && key in v.fields && v.fields[key].Arr? then v.fields[key].items else []
  }

  ghost predicate ObjectLike(v: Json) {
    !v.Null? && !v.Bool? && !v.Num? && !v.Str?
  }

  ghost predicate RightVersion(v: Json) {
    v.Obj? && SchemaVersion in v.fields && v.fields[SchemaVersion] == Num(1.0)
  }

  /** What is wrong with one decision. */
  ghost predicate WrongDecision(d: Json, p: Problem) {
    match p
    case DecisionNotObject(_) => !ObjectLike(d)
    case FieldMissing(_, key) =>
      ObjectLike(d) && (key.Id? || key.Title? || key.Surface? || key.GeneralizationBoundary? || key.Uncertainty?) && !HasText(d, key)
    case NotStringArray(_, key) =>
      ObjectLike(d) && (key.Assumptions? || key.Invariants? || key.Evidence?) && !HasStrings(d, key)
    case NoAlternatives(_) => ObjectLike(d) && ArrayAt(d, Alternatives) == []
    case AlternativeNotObject(_, j) => j < |ArrayAt(d, Alternatives)| && !ObjectLike(ArrayAt(d, Alternatives)[j])
    case AlternativeField(_, j, key) =>
      && j < |ArrayAt(d, Alternatives)| && ObjectLike(ArrayAt(d, Alternatives)[j])
      && (key.Option? || key.RejectedBecause?) && !HasText(ArrayAt(d, Alternatives)[j], key)
    case _ => false
  }

  ghost predicate Wrong(v: Json, p: Problem) {
    match p
    case NotAnObject => !ObjectLike(v)
    case BadVersion => ObjectLike(v) && !RightVersion(v)
    case NoDecisions => RightVersion(v) && ArrayAt(v, Decisions) == []
    case DuplicateIds(ids) => false
    case _ => RightVersion(v) && p.i < |ArrayAt(v, Decisions)| && WrongDecision(ArrayAt(v, Decisions)[p.i], p)
  }

  /** Two decisions have this id. */
  ghost predicate SharedId(ds: seq<Json>, id: string) {
    exists a, b :: 0 <= a < b < |ds| && IdIs(ds[a], id) && IdIs(ds[b], id)
  }

  ghost predicate IdIs(d: Json, id: string) {
    HasText(d, Id) && d.fields[Id].s == id
  }

  // ----- The parts -----

  lemma TextIff(v: Json, key: Key)
    ensures Text(Get(v, key)) <==> HasText(v, key)
  {
    if Get(v, key).Str? { BlankMeansAllSpace(Get(v, key).s); }
  }

  lemma StringsIff(v: Json, key: Key)
    ensures StringArray(Get(v, key)) <==> HasStrings(v, key)
  {
    var x := Get(v, key);
    if x.Arr? { assert forall i :: 0 <= i < |x.items| ==> x.items[i] in x.items; }
  }

  predicate OfDecision(p: Problem) {
    !p.NotAnObject? && !p.BadVersion? && !p.NoDecisions? && !p.DuplicateIds?
  }

  lemma {:induction false} StringProblemsIff(d: Json, i: nat, keys: seq<Key>, p: Problem)
    ensures p in StringProblems(d, i, keys) <==> p.FieldMissing? && p.i == i && p.key in keys && !Text(Get(d, p.key))
  {
    if keys != [] {
      StringProblemsIff(d, i, keys[..|keys| - 1], p);
      assert keys == keys[..|keys| - 1] + [keys[|keys| - 1]];
    }
  }

  lemma {:induction false} ArrayProblemsIff(d: Json, i: nat, keys: seq<Key>, p: Problem)
    ensures p in ArrayProblems(d, i, keys) <==> p.NotStringArray? && p.i == i && p.key in keys && !StringArray(Get(d, p.key))
  {
    if keys != [] {
      ArrayProblemsIff(d, i, keys[..|keys| - 1], p);
      assert keys == keys[..|keys| - 1] + [keys[|keys| - 1]];
    }
  }

  predicate OfAlternative(p: Problem) {
    p.AlternativeNotObject? || p.AlternativeField?
  }

  lemma {:induction false} AlternativesProblemsIff(alts: seq<Json>, i: nat, p: Problem)
    ensures p in AlternativesProblems(alts, i) <==>
            OfAlternative(p) && p.i == i && p.j < |alts| && p in AlternativeProblems(alts[p.j], i, p.j)
  {
    if alts != [] {
      var n := |alts| - 1;
      AlternativesProblemsIff(alts[..n], i, p);
      var before, last := AlternativesProblems(alts[..n], i), AlternativeProblems(alts[n], i, n);
      assert p in AlternativesProblems(alts, i) <==> p in before || p in last;
      if p in last { ProblemsOfAlternative(alts[n], i, n, p); }
    }
  }

  lemma ProblemsOfAlternative(alt: Json, i: nat, j: nat, p: Problem)
    requires p in AlternativeProblems(alt, i, j)
    ensures OfAlternative(p) && p.i == i && p.j == j
  {
  }

  lemma AlternativeProblemsIff(alt: Json, i: nat, j: nat, p: Problem)
    requires OfAlternative(p) && p.i == i && p.j == j
    ensures p in AlternativeProblems(alt, i, j) <==>
            if p.AlternativeNotObject? then !ObjectLike(alt)
            else ObjectLike(alt) && (p.key.Option? || p.key.RejectedBecause?) && !HasText(alt, p.key)
  {
    TextIff(alt, Option);
    TextIff(alt, RejectedBecause);
  }

  lemma AlternativesPartIff(d: Json, i: nat, p: Problem)
    requires ObjectLike(d) && OfDecision(p) && p.i == i
    ensures p in AlternativesPart(Get(d, Alternatives), i) <==> (p.NoAlternatives? || OfAlternative(p)) && WrongDecision(d, p)
  {
    var alts := Get(d, Alternatives);
    if SomeAlternatives(alts) {
      AlternativesProblemsIff(alts.items, i, p);
      if OfAlternative(p) && p.j < |alts.items| { AlternativeProblemsIff(alts.items[p.j], i, p.j, p); }
    }
  }

  lemma KeysIff(key: Key)
    ensures key in StringKeys <==> key.Id? || key.Title? || key.Surface? || key.GeneralizationBoundary? || key.Uncertainty?
    ensures key in ArrayKeys <==> key.Assumptions? || key.Invariants? || key.Evidence?
  {
    assert StringKeys[0] == Id && StringKeys[1] == Title && StringKeys[2] == Surface
           && StringKeys[3] == GeneralizationBoundary && StringKeys[4] == Uncertainty;
    assert ArrayKeys[0] == Assumptions && ArrayKeys[1] == Invariants && ArrayKeys[2] == Evidence;
  }

  lemma DecisionProblemsIff(d: Json, i: nat, p: Problem)
    requires OfDecision(p) && p.i == i
    ensures p in DecisionProblems(d, i) <==> WrongDecision(d, p)
  {
    if IsObject(d) {
      StringProblemsIff(d, i, StringKeys, p);
      ArrayProblemsIff(d, i, ArrayKeys, p);
      AlternativesPartIff(d, i, p);
      if p.FieldMissing? || p.NotStringArray? {
        KeysIff(p.key);
        TextIff(d, p.key);
        StringsIff(d, p.key);
      }
    }
  }

  lemma ProblemsOfDecision(d: Json, i: nat, p: Problem)
    requires p in DecisionProblems(d, i)
    ensures OfDecision(p) && p.i == i
  {
    if IsObject(d) {
      StringProblemsIff(d, i, StringKeys, p);
      ArrayProblemsIff(d, i, ArrayKeys, p);
      if SomeAlternatives(Get(d, Alternatives)) { AlternativesProblemsIff(Get(d, Alternatives).items, i, p); }
    }
  }

  lemma {:induction false} DecisionsProblemsIff(ds: seq<Json>, p: Problem)
    ensures p in DecisionsProblems(ds) <==> OfDecision(p) && p.i < |ds| && WrongDecision(ds[p.i], p)
  {
    if ds != [] {
      var n := |ds| - 1;
      DecisionsProblemsIff(ds[..n], p);
      if p in DecisionProblems(ds[n], n) { ProblemsOfDecision(ds[n], n, p); }
      if OfDecision(p) && p.i == n { DecisionProblemsIff(ds[n], n, p); }
    }
  }

  // ----- The report -----

  /** A problem is reported if and only if it is there, at the index and for the field it names. */
  lemma ReportedIff(v: Json, p: Problem)
    requires !p.DuplicateIds?
    ensures p in Problems(v) <==> Wrong(v, p)
  {
    if RightVersion(v) && ArrayAt(v, Decisions) != [] { DecisionsProblemsIff(ArrayAt(v, Decisions), p); }
  }

  lemma {:induction false} UsableIdIff(ds: seq<Json>, id: string)
    ensures id in UsableIds(ds) <==> exists a :: 0 <= a < |ds| && IdIs(ds[a], id)
  {
    if ds != [] {
      var init, last := ds[..|ds| - 1], ds[|ds| - 1];
      UsableIdIff(init, id);
      TextIff(last, Id);
      if a :| 0 <= a < |init| && IdIs(init[a], id) { assert IdIs(ds[a], id); }
      if a :| 0 <= a < |ds| && IdIs(ds[a], id) { assert a < |init| ==> IdIs(init[a], id); }
    }
  }

  lemma SharedSnoc(init: seq<Json>, last: Json, id: string)
    ensures SharedId(init + [last], id) <==> SharedId(init, id) || (id in UsableIds(init) && IdIs(last, id))
  {
    var ds := init + [last];
    UsableIdIff(init, id);
    if a, b :| 0 <= a < b < |init| && IdIs(init[a], id) && IdIs(init[b], id) { assert IdIs(ds[a], id) && IdIs(ds[b], id); }
    if a :| 0 <= a < |init| && IdIs(init[a], id) { assert IdIs(ds[a], id) && ds[|init|] == last; }
    if a, b :| 0 <= a < b < |ds| && IdIs(ds[a], id) && IdIs(ds[b], id) {
      assert IdIs(init[a], id) && (b < |init| ==> IdIs(init[b], id));
    }
  }

  lemma {:induction false} RepeatedIffShared(ds: seq<Json>, id: string)
    ensures id in Repeated(UsableIds(ds)) <==> SharedId(ds, id)
  {
    if ds != [] {
      var init, last := ds[..|ds| - 1], ds[|ds| - 1];
      assert ds == init + [last];
      RepeatedIffShared(init, id);
      SharedSnoc(init, last, id);
      UsableSnoc(init, last);
      TextIff(last, Id);
      if HasText(last, Id) { RepeatedSnoc(UsableIds(init), last.fields[Id].s); }
    }
  }

  /** The ids reported as repeated are exactly those that two decisions share, reported once if there are any. */
  lemma DuplicatesReported(v: Json, id: string)
    requires RightVersion(v)
    ensures (exists ids :: DuplicateIds(ids) in Problems(v) && id in ids) <==> SharedId(ArrayAt(v, Decisions), id)
  {
    var ds := ArrayAt(v, Decisions);
    RepeatedIffShared(ds, id);
    if ds != [] {
      var repeated := Repeated(UsableIds(ds));
      forall ids ensures DuplicateIds(ids) !in DecisionsProblems(ds) { DecisionsProblemsIff(ds, DuplicateIds(ids)); }
      if id in repeated { assert DuplicateIds(repeated) in Problems(v); }
    }
  }
}
