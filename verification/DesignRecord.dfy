/** Design decision records and their clipping (core/scripts/design-gate.ts). */
module DesignRecord {
  import opened Prelude

  datatype Alternative = Alternative(option: string, rejectedBecause: string)

  datatype Decision = Decision(
    id: string, title: string, surface: string,
    alternatives: seq<Alternative>, assumptions: seq<string>, invariants: seq<string>, evidence: seq<string>,
    generalizationBoundary: string, uncertainty: string)

  datatype Record = Record(schemaVersion: int, decisions: seq<Decision>)

  predicate ValidAlternative(a: Alternative) {
    !IsBlank(a.option) && !IsBlank(a.rejectedBecause)
  }

  predicate ValidDecision(d: Decision) {
    && !IsBlank(d.id) && !IsBlank(d.title) && !IsBlank(d.surface)
    && !IsBlank(d.generalizationBoundary) && !IsBlank(d.uncertainty)
    && d.alternatives != [] && forall a :: a in d.alternatives ==> ValidAlternative(a)
  }

  /** A complete record: recognized version, at least one decision, every field present, distinct ids. */
  ghost predicate Valid(r: Record) {
    && r.schemaVersion == 1 && r.decisions != []
    && (forall d :: d in r.decisions ==> ValidDecision(d))
    && forall i, j :: 0 <= i < j < |r.decisions| ==> r.decisions[i].id != r.decisions[j].id
  }

  // ----- Truncated text -----

  const Marker := "…[truncated]"

  function Truncate(s: string, maxLen: nat): string {
    if |s| <= maxLen then s else s[..Max(0, maxLen - |Marker|)] + Marker
  }

  lemma MarkerLength()
    ensures |Marker| == 12
  {
  }

  /** The truncated text fits exactly when the text did already or there is room for the marker. */
  lemma TruncateFitsIff(s: string, maxLen: nat)
    ensures |Truncate(s, maxLen)| <= maxLen <==> |s| <= maxLen || maxLen >= 12
  {
    MarkerLength();
  }

  lemma TruncateCanOverflow()
    ensures |Truncate("0123456789", 5)| > 5
  {
    MarkerLength();
  }

  /** Truncating again is truncating once, at the smaller bound. */
  lemma TruncateTwice(s: string, a: nat, b: nat)
    ensures Truncate(Truncate(s, a), b) == Truncate(s, Min(a, b))
  {
    MarkerLength();
    var k := Max(0, a - 12);
    if |s| > a && |s[..k] + Marker| > b {
      var j := Max(0, b - 12);
      assert (s[..k] + Marker)[..j] == s[..j];
    }
  }

  lemma TruncateNotBlank(s: string, maxLen: nat)
    requires !IsBlank(s)
    ensures !IsBlank(Truncate(s, maxLen))
  {
    if |s| > maxLen {
      var t := Truncate(s, maxLen);
      BlankMeansAllSpace(t);
      MarkerLength();
      assert t[|t| - 1] == Marker[11] == ']';
    }
  }

  // ----- Clipping and cutting decisions -----

  function TruncateAll(ts: seq<string>, cap: nat): seq<string> {
    seq(|ts|, i requires 0 <= i < |ts| => Truncate(ts[i], cap))
  }

  function ClipAlternatives(alts: seq<Alternative>, cap: nat): seq<Alternative> {
    seq(|alts|, i requires 0 <= i < |alts| =>
      Alternative(Truncate(alts[i].option, cap), Truncate(alts[i].rejectedBecause, cap)))
  }

  /** Every free-text field truncated; the id is left alone. */
  function Clip(d: Decision, cap: nat): Decision {
    Decision(d.id, Truncate(d.title, cap), Truncate(d.surface, cap), ClipAlternatives(d.alternatives, cap),
             TruncateAll(d.assumptions, cap), TruncateAll(d.invariants, cap), TruncateAll(d.evidence, cap),
             Truncate(d.generalizationBoundary, cap), Truncate(d.uncertainty, cap))
  }

  function Take<T>(s: seq<T>, n: nat): seq<T> {
    s[..Min(|s|, n)]
  }

  /** Every array field cut to its first n entries. */
  function Cut(d: Decision, n: nat): Decision {
    d.(alternatives := Take(d.alternatives, n), assumptions := Take(d.assumptions, n),
       invariants := Take(d.invariants, n), evidence := Take(d.evidence, n))
  }

  function Entries(d: Decision): nat {
    |d.alternatives| + |d.assumptions| + |d.invariants| + |d.evidence|
  }

  function Excess(length: nat, cap: nat): nat {
    Max(0, length - cap)
  }

  function ReclipDecision(d: Decision, fieldCap: nat, arrayCap: nat): (r: (Decision, nat)) {
    var cap := Max(1, arrayCap);
    (Clip(Cut(d, cap), fieldCap),
     Excess(|d.alternatives|, cap) + Excess(|d.assumptions|, cap) + Excess(|d.invariants|, cap) + Excess(|d.evidence|, cap))
  }

  /** The entries kept and the entries reported dropped are all the entries there were. */
  lemma ReclipAccounts(d: Decision, fieldCap: nat, arrayCap: nat)
    ensures var (r, dropped) := ReclipDecision(d, fieldCap, arrayCap); Entries(r) + dropped == Entries(d)
  {
  }

  lemma TruncateAllTwice(ts: seq<string>, a: nat, b: nat)
    ensures TruncateAll(TruncateAll(ts, a), b) == TruncateAll(ts, Min(a, b))
  {
    forall i | 0 <= i < |ts| ensures Truncate(Truncate(ts[i], a), b) == Truncate(ts[i], Min(a, b)) {
      TruncateTwice(ts[i], a, b);
    }
  }

  lemma ClipAlternativesTwice(alts: seq<Alternative>, a: nat, b: nat)
    ensures ClipAlternatives(ClipAlternatives(alts, a), b) == ClipAlternatives(alts, Min(a, b))
  {
    forall i | 0 <= i < |alts|
      ensures Truncate(Truncate(alts[i].option, a), b) == Truncate(alts[i].option, Min(a, b))
      ensures Truncate(Truncate(alts[i].rejectedBecause, a), b) == Truncate(alts[i].rejectedBecause, Min(a, b))
    {
      TruncateTwice(alts[i].option, a, b);
      TruncateTwice(alts[i].rejectedBecause, a, b);
    }
  }

  lemma ClipTwice(d: Decision, a: nat, b: nat)
    ensures Clip(Clip(d, a), b) == Clip(d, Min(a, b))
  {
    TruncateTwice(d.title, a, b);
    TruncateTwice(d.surface, a, b);
    TruncateTwice(d.generalizationBoundary, a, b);
    TruncateTwice(d.uncertainty, a, b);
    ClipAlternativesTwice(d.alternatives, a, b);
    TruncateAllTwice(d.assumptions, a, b);
    TruncateAllTwice(d.invariants, a, b);
    TruncateAllTwice(d.evidence, a, b);
  }

  lemma TakeClip(ts: seq<string>, cap: nat, n: nat)
    ensures Take(TruncateAll(ts, cap), n) == TruncateAll(Take(ts, n), cap)
  {
  }

  lemma CutClip(d: Decision, cap: nat, n: nat)
    ensures Cut(Clip(d, cap), n) == Clip(Cut(d, n), cap)
  {
    TakeClip(d.assumptions, cap, n);
    TakeClip(d.invariants, cap, n);
    TakeClip(d.evidence, cap, n);
    assert Take(ClipAlternatives(d.alternatives, cap), n) == ClipAlternatives(Take(d.alternatives, n), cap);
  }

  /** Reclipping a decision that was already reclipped only lowers the cap. */
  lemma ReclipTwice(d: Decision, a: nat, b: nat)
    ensures ReclipDecision(Clip(d, a), b, 1).0 == Clip(Cut(d, 1), Min(a, b))
    ensures ReclipDecision(Clip(Cut(d, 1), a), b, 1).0 == Clip(Cut(d, 1), Min(a, b))
  {
    CutClip(d, a, 1);
    CutClip(Cut(d, 1), a, 1);
    assert Cut(Cut(d, 1), 1) == Cut(d, 1);
    ClipTwice(Cut(d, 1), a, b);
  }

  lemma ClipValid(d: Decision, cap: nat)
    requires ValidDecision(d)
    ensures ValidDecision(Clip(d, cap))
  {
    TruncateNotBlank(d.title, cap);
    TruncateNotBlank(d.surface, cap);
    TruncateNotBlank(d.generalizationBoundary, cap);
    TruncateNotBlank(d.uncertainty, cap);
    forall i | 0 <= i < |d.alternatives| ensures ValidAlternative(Clip(d, cap).alternatives[i]) {
      assert d.alternatives[i] in d.alternatives;
      TruncateNotBlank(d.alternatives[i].option, cap);
      TruncateNotBlank(d.alternatives[i].rejectedBecause, cap);
    }
  }

  lemma CutValid(d: Decision, n: nat)
    requires ValidDecision(d) && n > 0
    ensures ValidDecision(Cut(d, n))
  {
  }
}
