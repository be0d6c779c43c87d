/** The carry-forward budget of the conventions excerpt (core/scripts/config.ts, readConventions). */
module WaterFill {
  import opened Prelude

  const Sep := "\n\n"
  const ClipMarker := "\n\n[…lessons section truncated]"

  /** The minimum shares (120 characters) kept back for the sections after this one. */
  function Reserve(remaining: nat, sectionsAfter: nat): nat {
    Min(sectionsAfter, Max(0, remaining / 120 - 1)) * 120
  }

  function Allow(remaining: nat, sectionsAfter: nat): (r: nat)
    ensures r <= remaining
  {
    remaining - Reserve(remaining, sectionsAfter)
  }

  /** What is appended for one section: its whole text, its first `kept` characters and the marker, or nothing. */
  datatype Piece = Whole | Clipped(kept: nat) | Omitted

  function Cost(full: string, p: Piece): nat {
    match p
    case Whole => 2 + |full|
    case Clipped(kept) => 2 + kept + 30
    case Omitted => 0
  }

  function Output(full: string, p: Piece): string
    requires p.Clipped? ==> p.kept <= |full|
  {
    match p
    case Whole => Sep + full
    case Clipped(kept) => Sep + full[..kept] + ClipMarker
    case Omitted => []
  }

  lemma CostIsLength(full: string, p: Piece)
    requires p.Clipped? ==> p.kept <= |full|
    ensures |Output(full, p)| == Cost(full, p)
  {
    assert |Sep| == 2 && |ClipMarker| == 30;
  }

  ghost predicate Fit(sections: seq<string>, ps: seq<Piece>) {
    |ps| <= |sections| && forall i :: 0 <= i < |ps| && ps[i].Clipped? ==> ps[i].kept <= |sections[i]|
  }

  ghost function Outputs(sections: seq<string>, ps: seq<Piece>): string
    requires Fit(sections, ps)
  {
    if ps == [] then []
    else Outputs(sections, ps[..|ps| - 1]) + Output(sections[|ps| - 1], ps[|ps| - 1])
  }

  function TotalCost(sections: seq<string>, ps: seq<Piece>): nat
    requires |ps| <= |sections|
  {
    if ps == [] then 0
    else TotalCost(sections, ps[..|ps| - 1]) + Cost(sections[|ps| - 1], ps[|ps| - 1])
  }

  lemma {:induction false} TotalIsLength(sections: seq<string>, ps: seq<Piece>)
    requires Fit(sections, ps)
    ensures |Outputs(sections, ps)| == TotalCost(sections, ps)
  {
    if ps != [] {
      TotalIsLength(sections, ps[..|ps| - 1]);
      CostIsLength(sections[|ps| - 1], ps[|ps| - 1]);
    }
  }

  function Represented(ps: seq<Piece>): nat {
    if ps == [] then 0 else Represented(ps[..|ps| - 1]) + if ps[|ps| - 1].Omitted? then 0 else 1
  }

  function Kept(full: string, room: nat): nat {
    |TrimEnd(if |full| <= room then full else full[..room])|
  }

  function Decide(full: string, allow: nat): Piece {
    if 2 + |full| <= allow then Whole
    else if allow >= 2 + 40 + 30 then Clipped(Kept(full, allow - 2 - 30))
    else Omitted
  }

  /** A chosen piece costs no more than it was allowed; 72 characters are always enough for one. */
  lemma DecideFits(full: string, allow: nat)
    ensures Cost(full, Decide(full, allow)) <= allow
    ensures allow >= 72 ==> !Decide(full, allow).Omitted?
    ensures Decide(full, allow).Clipped? ==> Decide(full, allow).kept <= |full|
  {
    if 2 + |full| > allow && allow >= 72 {
      var room := allow - 2 - 30;
      TrimEndCuts(if |full| <= room then full else full[..room]);
    }
  }

  /**
    A section that does not fit is cut where its room ends, less the whitespace before the
    cut; with less than 72 characters nothing of it is included.
  */
  lemma ClippedMeaning(full: string, allow: nat)
    requires 2 + |full| > allow
    ensures Decide(full, allow).Omitted? <==> allow < 72
    ensures allow >= 72 ==>
              var p := Decide(full, allow);
              && p.Clipped? && p.kept <= Min(|full|, allow - 32)
              && (p.kept > 0 ==> !IsSpace(full[p.kept - 1]))
              && forall i :: p.kept <= i < Min(|full|, allow - 32) ==> IsSpace(full[i])
  {
    if allow >= 72 {
      var room := allow - 32;
      var cut := if |full| <= room then full else full[..room];
      TrimEndCuts(cut);
      assert forall i :: 0 <= i < |cut| ==> cut[i] == full[i];
    }
  }

  /** The pieces chosen so far, and the budget left. */
  datatype Filling = Filling(pieces: seq<Piece>, left: nat)

  function Next(sections: seq<string>, f: Filling): (g: Filling)
    requires |f.pieces| < |sections|
    ensures |g.pieces| == |f.pieces| + 1
  {
    var i := |f.pieces|;
    var p := Decide(sections[i], Allow(f.left, |sections| - i - 1));
    DecideFits(sections[i], Allow(f.left, |sections| - i - 1));
    Filling(f.pieces + [p], f.left - Cost(sections[i], p))
  }

  /** After the first i sections, in document order. */
  function Fill(sections: seq<string>, cap: nat, i: nat): (f: Filling)
    requires i <= |sections|
    ensures |f.pieces| == i
  {
    if i == 0 then Filling([], cap) else Next(sections, Fill(sections, cap, i - 1))
  }

  /** How many of k sections can have a minimum share. */
  function Shares(remaining: nat, k: nat): nat {
    Min(k, remaining / 120)
  }

  lemma SharesArithmetic(remaining: nat, after: nat, cost: nat)
    requires cost <= Allow(remaining, after)
    ensures remaining < 120 ==> Shares(remaining, after + 1) == 0
    ensures remaining >= 120 ==> Allow(remaining, after) >= 120
    ensures remaining >= 120 ==> 1 + Shares(remaining - cost, after) >= Shares(remaining, after + 1)
  {
    var k := Min(after, Max(0, remaining / 120 - 1));
    assert remaining - cost >= k * 120;
    assert (remaining - cost) / 120 >= k;
  }

  /** One step leaves the minimum shares it reserved for the sections after it. */
  lemma SharesKept(full: string, remaining: nat, after: nat)
    ensures var p := Decide(full, Allow(remaining, after));
            && Cost(full, p) <= remaining && (p.Clipped? ==> p.kept <= |full|)
            && (if p.Omitted? then 0 else 1) + Shares(remaining - Cost(full, p), after) >= Shares(remaining, after + 1)
  {
    DecideFits(full, Allow(remaining, after));
    SharesArithmetic(remaining, after, Cost(full, Decide(full, Allow(remaining, after))));
  }

  /** Nothing is lost from the budget, and every share that could be given still can. */
  ghost predicate Accounted(sections: seq<string>, cap: nat, f: Filling) {
    && Fit(sections, f.pieces)
    && TotalCost(sections, f.pieces) + f.left == cap
    && Represented(f.pieces) + Shares(f.left, |sections| - |f.pieces|) >= Shares(cap, |sections|)
  }

  lemma Snoc(sections: seq<string>, ps: seq<Piece>, p: Piece)
    requires |ps| < |sections| && Fit(sections, ps) && (p.Clipped? ==> p.kept <= |sections[|ps|]|)
    ensures Fit(sections, ps + [p])
    ensures TotalCost(sections, ps + [p]) == TotalCost(sections, ps) + Cost(sections[|ps|], p)
    ensures Represented(ps + [p]) == Represented(ps) + if p.Omitted? then 0 else 1
  {
    assert (ps + [p])[..|ps|] == ps;
  }

  lemma OutputsSnoc(sections: seq<string>, ps: seq<Piece>, p: Piece)
    requires |ps| < |sections| && Fit(sections, ps) && (p.Clipped? ==> p.kept <= |sections[|ps|]|)
    ensures Fit(sections, ps + [p])
    ensures Outputs(sections, ps + [p]) == Outputs(sections, ps) + Output(sections[|ps|], p)
  {
    assert (ps + [p])[..|ps|] == ps;
  }

  lemma AccountStep(sections: seq<string>, cap: nat, f: Filling, p: Piece, cost: nat)
    requires |f.pieces| < |sections| && Accounted(sections, cap, f)
    requires cost == Cost(sections[|f.pieces|], p) && cost <= f.left && (p.Clipped? ==> p.kept <= |sections[|f.pieces|]|)
    requires var k := |sections| - |f.pieces| - 1;
             (if p.Omitted? then 0 else 1) + Shares(f.left - cost, k) >= Shares(f.left, k + 1)
    ensures Accounted(sections, cap, Filling(f.pieces + [p], f.left - cost))
  {
    Snoc(sections, f.pieces, p);
  }

  lemma NextAccounts(sections: seq<string>, cap: nat, f: Filling)
    requires |f.pieces| < |sections| && Accounted(sections, cap, f)
    ensures Accounted(sections, cap, Next(sections, f))
  {
    var i := |f.pieces|;
    SharesKept(sections[i], f.left, |sections| - i - 1);
    var p := Decide(sections[i], Allow(f.left, |sections| - i - 1));
    AccountStep(sections, cap, f, p, Cost(sections[i], p));
  }

  lemma {:induction false} FillAccounts(sections: seq<string>, cap: nat, i: nat)
    requires i <= |sections|
    ensures Accounted(sections, cap, Fill(sections, cap, i))
  {
    if i > 0 {
      FillAccounts(sections, cap, i - 1);
      NextAccounts(sections, cap, Fill(sections, cap, i - 1));
    }
  }

  ghost predicate IsOutput(sections: seq<string>, ps: seq<Piece>, out: string) {
    Fit(sections, ps) && out == Outputs(sections, ps)
  }

  lemma FillNext(sections: seq<string>, cap: nat, f: Filling, p: Piece, cost: nat)
    requires |f.pieces| < |sections| && f == Fill(sections, cap, |f.pieces|)
    requires p == Decide(sections[|f.pieces|], Allow(f.left, |sections| - |f.pieces| - 1))
    requires cost == Cost(sections[|f.pieces|], p) <= f.left
    ensures Filling(f.pieces + [p], f.left - cost) == Fill(sections, cap, |f.pieces| + 1)
  {
  }

  lemma OutputNext(sections: seq<string>, ps: seq<Piece>, out: string, p: Piece, text: string)
    requires |ps| < |sections| && IsOutput(sections, ps, out) && IsPiece(sections[|ps|], p, text)
    ensures IsOutput(sections, ps + [p], out + text)
    ensures Represented(ps + [p]) == Represented(ps) + if p.Omitted? then 0 else 1
  {
    Snoc(sections, ps, p);
    OutputsSnoc(sections, ps, p);
  }

  ghost predicate IsPiece(full: string, p: Piece, text: string) {
    (p.Clipped? ==> p.kept <= |full|) && text == Output(full, p)
  }

  method FillLoop(sections: seq<string>, sectionCap: nat) returns (out: string, pieces: seq<Piece>, appended: nat)
    ensures |pieces| == |sections| && pieces == Fill(sections, sectionCap, |sections|).pieces
    ensures Fit(sections, pieces) && out == Outputs(sections, pieces)
    ensures appended == Represented(pieces) <= |sections|
  {
    out, pieces, appended := "", [], 0;
    var remaining: nat := sectionCap;
    for i := 0 to |sections|
      invariant |pieces| == i && Filling(pieces, remaining) == Fill(sections, sectionCap, i)
      invariant IsOutput(sections, pieces, out) && appended == Represented(pieces) <= i
    {
      var piece, text := PieceFor(sections[i], remaining, |sections| - i - 1);
      FillNext(sections, sectionCap, Filling(pieces, remaining), piece, |text|);
      OutputNext(sections, pieces, out, piece, text);
      out := out + text;
      remaining := remaining - |text|;
      appended := appended + if piece.Omitted? then 0 else 1;
      pieces := pieces + [piece];
    }
  }

  /**
    Fill the budget over the sections in document order. The text appended for
    them is within the cap, and at least min(n, cap / 120) are represented; the
    others are counted in a note, whose wording is a parameter.
  */
  method FillSections(sections: seq<string>, sectionCap: nat, note: nat -> string)
    returns (out: string, pieces: seq<Piece>)
    ensures |pieces| == |sections| && pieces == Fill(sections, sectionCap, |sections|).pieces
    ensures Fit(sections, pieces) && |Outputs(sections, pieces)| <= sectionCap
    ensures Shares(sectionCap, |sections|) <= Represented(pieces) <= |sections|
    ensures var omitted := |sections| - Represented(pieces);
            out == Outputs(sections, pieces) + if omitted > 0 then Sep + note(omitted) else ""
  {
    var appended;
    out, pieces, appended := FillLoop(sections, sectionCap);
    FillAccounts(sections, sectionCap, |sections|);
    TotalIsLength(sections, pieces);
    var omitted := |sections| - appended;
    out := out + if omitted > 0 then Sep + note(omitted) else "";
  }

  method PieceFor(full: string, remaining: nat, sectionsAfter: nat) returns (piece: Piece, text: string)
    ensures piece == Decide(full, Allow(remaining, sectionsAfter)) && IsPiece(full, piece, text)
    ensures |text| == Cost(full, piece) <= remaining
  {
    var affordableAfter := Max(0, remaining / 120 - 1);
    var reserve := Min(sectionsAfter, affordableAfter) * 120;
    piece, text := PieceWithin(full, remaining - reserve);
  }

  method PieceWithin(full: string, allow: nat) returns (piece: Piece, text: string)
    ensures piece == Decide(full, allow) && IsPiece(full, piece, text)
    ensures |text| == Cost(full, piece) <= allow
  {
    DecideFits(full, allow);
    var costFull := |Sep| + |full|;
    if costFull <= allow {
      piece, text := Whole, Sep + full;
    } else if allow >= |Sep| + 40 + |ClipMarker| {
      var textRoom := allow - |Sep| - |ClipMarker|;
      var cut := if |full| <= textRoom then full else full[..textRoom];
      var kept := TrimEnd(cut);
      TrimEndCuts(cut);
      assert kept == full[..|kept|];
      piece, text := Clipped(|kept|), Sep + kept + ClipMarker;
    } else {
      piece, text := Omitted, "";
    }
    CostIsLength(full, piece);
  }

  // ----- When is every section included whole? -----

  function Prefix(sections: seq<string>, i: nat): nat
    requires i <= |sections|
  {
    if i == 0 then 0 else Prefix(sections, i - 1) + 2 + |sections[i - 1]|
  }

  ghost predicate AllWhole(ps: seq<Piece>) {
    forall i :: 0 <= i < |ps| ==> ps[i].Whole?
  }

  /** Section i and the shares kept back for the sections after it fit in the cap. */
  ghost predicate FitsWithReserve(sections: seq<string>, cap: nat, i: nat)
    requires i < |sections|
  {
    && Prefix(sections, i) <= cap
    && Prefix(sections, i + 1) + Reserve(cap - Prefix(sections, i), |sections| - i - 1) <= cap
  }

  ghost predicate WholeSoFar(sections: seq<string>, cap: nat, f: Filling) {
    && |f.pieces| <= |sections|
    && (AllWhole(f.pieces) <==> forall j :: 0 <= j < |f.pieces| ==> FitsWithReserve(sections, cap, j))
    && (AllWhole(f.pieces) ==> Prefix(sections, |f.pieces|) + f.left == cap)
  }

  lemma WholeSnoc(ps: seq<Piece>, p: Piece)
    ensures AllWhole(ps + [p]) <==> AllWhole(ps) && p.Whole?
  {
    if AllWhole(ps + [p]) {
      forall i | 0 <= i < |ps| ensures ps[i].Whole? { assert (ps + [p])[i] == ps[i]; }
      assert (ps + [p])[|ps|] == p;
    }
  }

  lemma WholeStep(sections: seq<string>, cap: nat, f: Filling, p: Piece, cost: nat)
    requires |f.pieces| < |sections| && WholeSoFar(sections, cap, f)
    requires p.Whole? <==> 2 + |sections[|f.pieces|]| + Reserve(f.left, |sections| - |f.pieces| - 1) <= f.left
    requires cost == Cost(sections[|f.pieces|], p) && cost <= f.left
    ensures WholeSoFar(sections, cap, Filling(f.pieces + [p], f.left - cost))
  {
    WholeSnoc(f.pieces, p);
    if AllWhole(f.pieces) {
      assert FitsWithReserve(sections, cap, |f.pieces|) <==> p.Whole?;
    }
  }

  lemma {:induction false} WholeIff(sections: seq<string>, cap: nat, i: nat)
    requires i <= |sections|
    ensures WholeSoFar(sections, cap, Fill(sections, cap, i))
  {
    if i > 0 {
      WholeIff(sections, cap, i - 1);
      var f := Fill(sections, cap, i - 1);
      var full, allow := sections[i - 1], Allow(f.left, |sections| - i);
      DecideFits(full, allow);
      WholeStep(sections, cap, f, Decide(full, allow), Cost(full, Decide(full, allow)));
    }
  }

  /** Every section is included whole exactly when each fits with the shares kept back at its turn. */
  lemma AllIncludedIff(sections: seq<string>, cap: nat)
    ensures AllWhole(Fill(sections, cap, |sections|).pieces)
       <==> forall i :: 0 <= i < |sections| ==> FitsWithReserve(sections, cap, i)
  {
    WholeIff(sections, cap, |sections|);
  }

  lemma {:induction false} PrefixMonotone(sections: seq<string>, i: nat, j: nat)
    requires i <= j <= |sections|
    ensures Prefix(sections, i) <= Prefix(sections, j)
    decreases j
  {
    if i < j { PrefixMonotone(sections, i, j - 1); }
  }

  /** For sections of at most one share each, fitting together is enough to be included whole. */
  lemma CompactSectionsAreWhole(sections: seq<string>, cap: nat)
    requires forall s :: s in sections ==> 2 + |s| <= 120
    requires Prefix(sections, |sections|) <= cap
    ensures AllWhole(Fill(sections, cap, |sections|).pieces)
  {
    forall i | 0 <= i < |sections| ensures FitsWithReserve(sections, cap, i) {
      PrefixMonotone(sections, i, |sections|);
      PrefixMonotone(sections, i + 1, |sections|);
      assert sections[i] in sections;
    }
    AllIncludedIff(sections, cap);
  }

  /** Longer sections can be clipped although all of them together fit. */
  lemma FittingSectionCanBeClipped(big: string, small: string)
    requires |big| == 1898 && |small| == 18
    ensures var sections := [big, small, small, small, small, small];
            && Prefix(sections, 6) <= 2000 && !AllWhole(Fill(sections, 2000, 6).pieces)
  {
    var sections := [big, small, small, small, small, small];
    assert Prefix(sections, 3) == Prefix(sections, 1) + 40;
    assert Prefix(sections, 5) == Prefix(sections, 3) + 40;
    AllIncludedIff(sections, 2000);
    assert !FitsWithReserve(sections, 2000, 0);
  }
}
