/** Printed dependency declarations and what the parser makes of them (core/scripts/declared-dependency-grammar.ts). */
module DependencyRoundTrip {
  import opened Prelude
  import opened DependencyGrammar

  // ----- What the parser returns on any text -----

  predicate Admissible(id: string, selfId: Option<string>) {
    && id != [] && id[0] != '0' && (forall i :: 0 <= i < |id| ==> '0' <= id[i] <= '9')
    && (selfId.None? || selfId.value != id)
  }

  ghost predicate AllAdmissible(ids: seq<string>, selfId: Option<string>) {
    forall id :: id in ids ==> Admissible(id, selfId)
  }

  lemma {:induction false} AdmitMeaning(out: seq<string>, raws: seq<string>, selfId: Option<string>)
    requires Distinct(out) && AllAdmissible(out, selfId)
    ensures var r := AdmitAll(out, raws, selfId);
            && out <= r && Distinct(r) && AllAdmissible(r, selfId)
            && forall id :: id in r <==> id in out || (id in raws && Admissible(id, selfId))
    decreases |raws|
  {
    if raws != [] {
      AdmitMeaning(out, raws[..|raws| - 1], selfId);
      assert raws == raws[..|raws| - 1] + [raws[|raws| - 1]];
    }
  }

  /** On every text: no duplicates, canonical ids only, never the own id; and nothing admissible is lost. */
  lemma ParseMeaning(text: string, selfId: Option<string>)
    ensures var r := Parse(text, selfId);
            && Distinct(r) && AllAdmissible(r, selfId)
            && forall id :: id in r <==>
                 Admissible(id, selfId) && (id in PhraseRefs(text) || id in SectionRefs(text, 0))
  {
    AdmitMeaning([], PhraseRefs(text) + SectionRefs(text, 0), selfId);
  }

  lemma {:induction false} AdmitKeeps(ids: seq<string>, selfId: Option<string>)
    requires Distinct(ids) && AllAdmissible(ids, selfId)
    ensures AdmitAll([], ids, selfId) == ids
  {
    if ids != [] {
      var init, last := ids[..|ids| - 1], ids[|ids| - 1];
      AdmitKeeps(init, selfId);
      assert ids == init + [last] && last in ids;
      assert Canonical(last) && Some(last) != selfId && last !in init;
    }
  }

  // ----- Separators -----

  /** `and` and whitespace. */
  predicate AndTail(w: string) {
    |w| > 3 && HasWord(w, "and") && AllSpace(w[3..])
  }

  /** What may follow a comma: whitespace, and perhaps `and`. */
  predicate CommaTail(w: string) {
    var t := w[Spaces(w)..]; t == [] || AndTail(t)
  }

  /** What may follow whitespace. */
  predicate BlankTail(w: string) {
    var t := w[Spaces(w)..]; t == [] || AndTail(t) || (t[0] == ',' && CommaTail(t[1..]))
  }

  /** A comma, `and` between whitespace, both, or whitespace. */
  predicate SepText(w: string) {
    w != [] && if w[0] == ',' then CommaTail(w[1..]) else IsSpace(w[0]) && BlankTail(w[1..])
  }

  lemma DropConcat(a: string, b: string, n: nat)
    requires n <= |a|
    ensures (a + b)[n..] == a[n..] + b
  {
  }

  lemma {:induction false} SpacesConcat(w: string, t: string)
    requires AllSpace(w)
    ensures Spaces(w + t) == |w| + Spaces(t)
  {
    if w == [] {
      assert w + t == t;
    } else {
      SpacesConcat(w[1..], t);
      DropConcat(w, t, 1);
    }
  }

  lemma {:induction false} SpacesAreSpace(s: string)
    ensures AllSpace(s[..Spaces(s)])
  {
    if s != [] && IsSpace(s[0]) {
      SpacesAreSpace(s[1..]);
      assert s[..Spaces(s)] == [s[0]] + s[1..][..Spaces(s[1..])];
    }
  }

  function AfterSpace(q: SepState, w: string): SepState {
    if w == [] then q else if q == Nothing then Blank else if q == And then AndBlank else q
  }

  lemma {:induction false} SpaceSteps(q: SepState, w: string, t: string)
    requires AllSpace(w)
    ensures Separator(q, w + t) == Plus(|w|, Separator(AfterSpace(q, w), t))
    decreases |w|
  {
    if w == [] {
      assert w + t == t;
    } else {
      DropConcat(w, t, 1);
      SpaceSteps(AfterSpace(q, [w[0]]), w[1..], t);
    }
  }

  lemma CommaStep(q: SepState, t: string)
    requires q == Nothing || q == Blank
    ensures Separator(q, "," + t) == Plus(1, Separator(Comma, t))
  {
    assert ("," + t)[1..] == t;
  }

  lemma {:induction false} WordPrefix(a: string, t: string, word: string)
    requires HasWord(a, word)
    ensures HasWord(a + t, word)
  {
    if word != [] {
      WordPrefix(a[1..], t, word[1..]);
      DropConcat(a, t, 1);
    }
  }

  lemma AndSteps(q: SepState, w: string, t: string)
    requires AndTail(w) && (q == Blank || q == Comma)
    ensures Separator(q, w + t) == Plus(|w|, Separator(AndBlank, t))
  {
    WordPrefix(w, t, "and");
    DropConcat(w, t, 3);
    AndStart(w);
    SpaceSteps(And, w[3..], t);
  }

  lemma AndStart(w: string)
    requires w != [] && HasWord(w, "and")
    ensures Lower(w[0]) == 'a' && !IsSpace(w[0]) && w[0] != ',' && w[0] != '#'
  {
  }

  lemma SpacesCut(w: string)
    ensures w == w[..Spaces(w)] + w[Spaces(w)..] && AllSpace(w[..Spaces(w)])
  {
    SpacesAreSpace(w);
  }

  lemma Cut(w: string, n: nat, t: string)
    requires n <= |w|
    ensures w + t == w[..n] + (w[n..] + t)
  {
  }

  lemma AfterSpaces(q: SepState, w: string, t: string)
    requires q == Comma || q == Blank
    ensures Separator(q, w + t) == Plus(Spaces(w), Separator(q, w[Spaces(w)..] + t))
  {
    SpacesCut(w);
    Cut(w, Spaces(w), t);
    SpaceSteps(q, w[..Spaces(w)], w[Spaces(w)..] + t);
  }

  lemma AndRest(q: SepState, r: string, t: string)
    requires (r == [] || AndTail(r)) && IsRef(t) && (q == Comma || q == Blank)
    ensures Separator(q, r + t) == Some(|r|)
  {
    if r == [] {
      assert r + t == t;
    } else {
      AndSteps(q, r, t);
    }
  }

  lemma CommaTailSteps(w: string, t: string)
    requires CommaTail(w) && IsRef(t)
    ensures Separator(Comma, w + t) == Some(|w|)
  {
    AfterSpaces(Comma, w, t);
    AndRest(Comma, w[Spaces(w)..], t);
  }

  lemma CommaRest(r: string, t: string)
    requires r != [] && r[0] == ',' && CommaTail(r[1..]) && IsRef(t)
    ensures Separator(Blank, r + t) == Some(|r|)
  {
    assert r + t == "," + (r[1..] + t);
    CommaStep(Blank, r[1..] + t);
    CommaTailSteps(r[1..], t);
  }

  lemma BlankTailSteps(w: string, t: string)
    requires BlankTail(w) && IsRef(t)
    ensures Separator(Blank, w + t) == Some(|w|)
  {
    AfterSpaces(Blank, w, t);
    var r := w[Spaces(w)..];
    if r == [] || AndTail(r) {
      AndRest(Blank, r, t);
    } else {
      CommaRest(r, t);
    }
  }

  /** Every separator before a reference is recognized, as a whole. */
  lemma SeparatorRecognized(w: string, t: string)
    requires SepText(w) && IsRef(t)
    ensures SepLength(w + t) == |w|
  {
    assert w + t == [w[0]] + (w[1..] + t);
    if w[0] == ',' {
      CommaStep(Nothing, w[1..] + t);
      CommaTailSteps(w[1..], t);
    } else {
      SpaceSteps(Nothing, [w[0]], w[1..] + t);
      BlankTailSteps(w[1..], t);
    }
  }

  // ----- Nothing else is a separator -----

  lemma Prepend(c: char, w: string)
    requires IsSpace(c)
    ensures Spaces([c] + w) == 1 + Spaces(w) && ([c] + w)[Spaces([c] + w)..] == w[Spaces(w)..]
  {
    assert ([c] + w)[1..] == w;
  }

  lemma TakeCons(s: string, n: nat)
    requires s != [] && n <= |s| - 1
    ensures s[..1 + n] == [s[0]] + s[1..][..n] && s[1..][n..] == s[1 + n..]
  {
  }

  lemma {:induction false} AndBlankSound(s: string, n: nat)
    requires Separator(AndBlank, s) == Some(n)
    ensures AllSpace(s[..n]) && IsRef(s[n..])
    decreases |s|
  {
    if !IsRef(s) {
      AndBlankSound(s[1..], n - 1);
      TakeCons(s, n - 1);
    }
  }

  lemma AndSound(s: string, n: nat)
    requires Separator(And, s) == Some(n)
    ensures n > 0 && AllSpace(s[..n]) && IsRef(s[n..])
  {
    AndBlankSound(s[1..], n - 1);
    TakeCons(s, n - 1);
  }

  lemma {:induction false} WordTake(s: string, word: string, n: nat)
    requires HasWord(s, word) && |word| <= n <= |s|
    ensures HasWord(s[..n], word)
  {
    if word != [] {
      WordTake(s[1..], word[1..], n - 1);
      assert s[..n][1..] == s[1..][..n - 1];
    }
  }

  /** `and` read here: an AndTail up to the reference. */
  lemma AndTailSound(s: string, n: nat)
    requires |s| >= 3 && n >= 3 && HasWord(s, "and") && Separator(And, s[3..]) == Some(n - 3)
    ensures AndTail(s[..n]) && Spaces(s[..n]) == 0 && IsRef(s[n..])
  {
    AndSound(s[3..], n - 3);
    WordTake(s, "and", n);
    AndStart(s);
    assert s[..n][3..] == s[3..][..n - 3] && s[3..][n - 3..] == s[n..];
  }

  lemma {:induction false} CommaSound(s: string, n: nat)
    requires Separator(Comma, s) == Some(n)
    ensures CommaTail(s[..n]) && IsRef(s[n..])
    decreases |s|
  {
    if !IsRef(s) {
      if IsSpace(s[0]) {
        CommaSound(s[1..], n - 1);
        TakeCons(s, n - 1);
        Prepend(s[0], s[1..][..n - 1]);
      } else {
        AndTailSound(s, n);
      }
    }
  }

  lemma {:induction false} BlankSound(s: string, n: nat)
    requires Separator(Blank, s) == Some(n)
    ensures BlankTail(s[..n]) && IsRef(s[n..])
    decreases |s|
  {
    if !IsRef(s) {
      if IsSpace(s[0]) {
        BlankSound(s[1..], n - 1);
        TakeCons(s, n - 1);
        Prepend(s[0], s[1..][..n - 1]);
      } else if s[0] == ',' {
        CommaSound(s[1..], n - 1);
        TakeCons(s, n - 1);
        assert s[..n][1..] == s[1..][..n - 1];
      } else {
        AndTailSound(s, n);
      }
    }
  }

  /** The list goes on exactly where a separator stands before a reference. */
  lemma SeparatorIff(s: string, n: nat)
    requires 0 < n <= |s|
    ensures SepLength(s) == n <==> SepText(s[..n]) && IsRef(s[n..])
  {
    if SepLength(s) == n {
      TakeCons(s, n - 1);
      assert s[..n][1..] == s[1..][..n - 1];
      if s[0] == ',' { CommaSound(s[1..], n - 1); } else { BlankSound(s[1..], n - 1); }
    }
    if SepText(s[..n]) && IsRef(s[n..]) {
      SeparatorRecognized(s[..n], s[n..]);
      assert s == s[..n] + s[n..];
    }
  }

  // ----- Printed lists -----

  /** The references after the first, each with the separator before it. */
  datatype Tail = Done | More(sep: string, id: string, rest: Tail)

  predicate AllDigits(id: string) {
    id != [] && forall i :: 0 <= i < |id| ==> IsDigit(id[i])
  }

  predicate ValidTail(t: Tail) {
    t.More? ==> SepText(t.sep) && AllDigits(t.id) && ValidTail(t.rest)
  }

  function Ref(id: string, after: string): string {
    "#" + (id + after)
  }

  function Print(t: Tail, suffix: string): string {
    if t.Done? then suffix else t.sep + Ref(t.id, Print(t.rest, suffix))
  }

  function Ids(t: Tail): seq<string> {
    if t.Done? then [] else [t.id] + Ids(t.rest)
  }

  /** A text at which a reference and its list end. */
  predicate Stops(s: string) {
    (s == [] || !IsDigit(s[0])) && SepLength(s) == 0
  }

  lemma {:induction false} DigitsConcat(id: string, t: string)
    requires (forall i :: 0 <= i < |id| ==> IsDigit(id[i])) && (t == [] || !IsDigit(t[0]))
    ensures Digits(id + t) == |id|
  {
    if id == [] {
      assert id + t == t;
    } else {
      DigitsConcat(id[1..], t);
      DropConcat(id, t, 1);
    }
  }

  lemma RefRead(id: string, t: string)
    requires AllDigits(id) && (t == [] || !IsDigit(t[0]))
    ensures var r := Ref(id, t); IsRef(r) && RefId(r) == id && r[RefLength(r)..] == t
  {
    var r := Ref(id, t);
    assert r[1..] == id + t;
    DigitsConcat(id, t);
  }

  lemma TailNoDigit(t: Tail, suffix: string)
    requires ValidTail(t) && Stops(suffix)
    ensures var p := Print(t, suffix); p == [] || !IsDigit(p[0])
  {
    if t.More? { assert Print(t, suffix)[0] == t.sep[0]; }
  }

  /** The rest of a printed list is read back, whatever text that does not go on with it follows. */
  lemma {:induction false} TailRead(t: Tail, suffix: string)
    requires ValidTail(t) && Stops(suffix)
    ensures MoreRefs(Print(t, suffix)) == Ids(t)
    decreases t
  {
    if t.More? {
      var after := Print(t.rest, suffix);
      var r := Ref(t.id, after);
      TailNoDigit(t.rest, suffix);
      RefRead(t.id, after);
      SeparatorRecognized(t.sep, r);
      DropConcat(t.sep, r, |t.sep|);
      assert t.sep[|t.sep|..] + r == r;
      MoreRefsUnfold(Print(t, suffix), r, after);
      TailRead(t.rest, suffix);
    }
  }

  /** A printed list is read back, after whitespace and before any text that does not go on with it. */
  lemma ListRead(w: string, id: string, t: Tail, suffix: string)
    requires AllSpace(w) && AllDigits(id) && ValidTail(t) && Stops(suffix)
    ensures RefList(w + Ref(id, Print(t, suffix))) == [id] + Ids(t)
  {
    var r := Ref(id, Print(t, suffix));
    SpacesConcat(w, r);
    assert Spaces(r) == 0 by { HashIsNoSpace(r); }
    DropConcat(w, r, |w|);
    assert w[|w|..] + r == r;
    TailNoDigit(t, suffix);
    RefRead(id, Print(t, suffix));
    TailRead(t, suffix);
  }

  lemma HashIsNoSpace(r: string)
    requires r != [] && r[0] == '#'
    ensures Spaces(r) == 0
  {
  }

  /** A new phrase after `and` is not taken for a list item. */
  lemma NextPhraseNotAbsorbed(w: string, and: string, v: string, c: char, s: string)
    requires AllSpace(w) && w != [] && |and| == 3 && HasWord(and, "and") && AllSpace(v) && v != []
    requires c != '#' && !IsSpace(c)
    ensures Stops(w + (and + v + ([c] + s)))
  {
    var rest := [c] + s;
    WordPrefix(and, v, "and");
    assert (and + v)[3..] == v;
    AndSteps(Blank, and + v, rest);
    SpaceSteps(Nothing, w, and + v + rest);
    assert Separator(AndBlank, rest).None?;
    assert (w + (and + v + rest))[0] == w[0];
  }

  // ----- Declarations -----

  /** A phrase head and its list. */
  datatype Declaration = Declaration(phrase: string, before: string, colon: bool, after: string, id: string, tail: Tail)

  predicate ValidDeclaration(d: Declaration) {
    && d.phrase != [] && PhraseLength(d.phrase) == |d.phrase|
    && AllSpace(d.before) && AllSpace(d.after) && AllDigits(d.id) && ValidTail(d.tail)
  }

  function Listed(d: Declaration): seq<string> {
    [d.id] + Ids(d.tail)
  }

  function Body(d: Declaration, suffix: string): string {
    d.after + Ref(d.id, Print(d.tail, suffix))
  }

  function Declare(d: Declaration, suffix: string): string {
    d.phrase + (d.before + if d.colon then ":" + Body(d, suffix) else Body(d, suffix))
  }

  lemma PhraseConcat(p: string, t: string)
    requires p != [] && PhraseLength(p) == |p|
    ensures PhraseLength(p + t) == |p|
  {
    if |p| == 10 {
      if HasWord(p, "depends on") { WordPrefix(p, t, "depends on"); } else { WordPrefix(p, t, "blocked by"); }
    } else if |p| == 8 {
      WordPrefix(p, t, "requires");
      NotOther(p + t, 'r');
    } else {
      WordPrefix(p, t, "needs");
      NotOther(p + t, 'n');
    }
  }

  lemma NotOther(s: string, c: char)
    requires s != [] && Lower(s[0]) == c
    ensures c != 'd' ==> !HasWord(s, "depends on")
    ensures c != 'b' ==> !HasWord(s, "blocked by")
    ensures c != 'r' ==> !HasWord(s, "requires")
  {
  }

  /** The text from which the list of a declaration is read. */
  lemma HeadRead(d: Declaration, suffix: string)
    requires ValidDeclaration(d)
    ensures var text := Declare(d, suffix);
            && PhraseLength(text) > 0
            && text[HeadLength(text)..] == if d.colon then Body(d, suffix) else Ref(d.id, Print(d.tail, suffix))
  {
    var r := Ref(d.id, Print(d.tail, suffix));
    HashIsNoSpace(r);
    if d.colon {
      var rest := ":" + Body(d, suffix);
      PhraseConcat(d.phrase, d.before + rest);
      HeadLengthIs(d.phrase, d.before, rest);
      assert rest[1..] == Body(d, suffix);
    } else {
      assert d.before + Body(d, suffix) == (d.before + d.after) + r;
      PhraseConcat(d.phrase, (d.before + d.after) + r);
      HeadLengthIs(d.phrase, d.before + d.after, r);
    }
  }

  lemma Slices(p: string, w: string, rest: string)
    ensures var text := p + (w + rest);
            && text[|p|..] == w + rest && text[|p| + |w|..] == rest
            && (rest != [] ==> text[|p| + |w|] == rest[0] && text[|p| + |w| + 1..] == rest[1..])
  {
  }

  lemma HeadLengthIs(p: string, w: string, rest: string)
    requires PhraseLength(p + (w + rest)) == |p| > 0 && AllSpace(w) && Spaces(rest) == 0
    ensures var text := p + (w + rest);
            text[HeadLength(text)..] == if rest != [] && rest[0] == ':' then rest[1..] else rest
  {
    Slices(p, w, rest);
    SpacesConcat(w, rest);
    HeadLengthFrom(p + (w + rest), |p|, |w|);
  }

  lemma HeadLengthFrom(text: string, p: nat, w: nat)
    requires PhraseLength(text) == p > 0 && Spaces(text[p..]) == w
    ensures HeadLength(text) == if p + w < |text| && text[p + w] == ':' then p + w + 1 else p + w
  {
  }

  // ----- Text without phrases or headings -----

  /** Letters that every phrase has second, or has none. */
  predicate QuietChar(c: char) {
    Lower(c) != 'e' && Lower(c) != 'l'
  }

  /** Text that ends in a digit and in which no phrase can start. */
  predicate Quiet(s: string) {
    s != [] && IsDigit(s[|s| - 1]) && forall i :: 0 <= i < |s| ==> QuietChar(s[i])
  }

  lemma TwoLetters(s: string, word: string)
    requires HasWord(s, word) && |word| >= 2
    ensures |s| >= 2 && Lower(s[0]) == word[0] && Lower(s[1]) == word[1]
  {
    assert s[1..][0] == s[1] && word[1..][0] == word[1];
  }

  lemma PhraseLetters(s: string)
    requires PhraseLength(s) > 0
    ensures |s| >= 2 && !IsDigit(s[0]) && !QuietChar(s[1])
  {
    if HasWord(s, "depends on") { TwoLetters(s, "depends on"); }
    else if HasWord(s, "blocked by") { TwoLetters(s, "blocked by"); }
    else if HasWord(s, "requires") { TwoLetters(s, "requires"); }
    else { TwoLetters(s, "needs"); }
  }

  lemma QuietNoPhrase(q: string, suffix: string)
    requires Quiet(q)
    ensures PhraseLength(q + suffix) == 0
  {
    assert |q| >= 2 ==> (q + suffix)[1] == q[1];
    assert (q + suffix)[0] == q[0];
    if PhraseLength(q + suffix) > 0 {
      PhraseLetters(q + suffix);
    }
  }

  lemma {:induction false} QuietSkipped(q: string, suffix: string)
    requires Quiet(q)
    ensures NextPhrase(q + suffix) == |q| + NextPhrase(suffix)
  {
    QuietNoPhrase(q, suffix);
    DropConcat(q, suffix, 1);
    if |q| == 1 {
      assert q[1..] + suffix == suffix;
    } else {
      QuietSkipped(q[1..], suffix);
    }
  }

  function RefsFromHead(h: string): seq<string> {
    if h == [] then [] else RefList(h[HeadLength(h)..]) + PhraseRefs(h[HeadLength(h)..])
  }

  lemma PhraseRefsUnfold(s: string, h: string)
    requires h == s[NextPhrase(s)..]
    ensures PhraseRefs(s) == RefsFromHead(h)
  {
  }

  lemma QuietRefs(q: string, suffix: string)
    requires Quiet(q)
    ensures PhraseRefs(q + suffix) == PhraseRefs(suffix)
  {
    QuietSkipped(q, suffix);
    var i := NextPhrase(suffix);
    assert (q + suffix)[|q| + i..] == suffix[i..];
    PhraseRefsUnfold(q + suffix, suffix[i..]);
    PhraseRefsUnfold(suffix, suffix[i..]);
  }

  lemma SpaceIsQuiet(w: string)
    requires AllSpace(w)
    ensures forall i :: 0 <= i < |w| ==> QuietChar(w[i]) && w[i] != '#'
  {
  }

  lemma AndIsQuiet(w: string)
    requires AndTail(w)
    ensures forall i :: 0 <= i < |w| ==> QuietChar(w[i]) && w[i] != '#'
  {
    assert w[1..][0] == w[1] && w[1..][1..][0] == w[2];
    assert HasWord(w[1..], "nd") && HasWord(w[1..][1..], "d");
    SpaceIsQuiet(w[3..]);
    forall i | 0 <= i < |w| ensures QuietChar(w[i]) && w[i] != '#' {
      if i >= 3 { assert w[i] == w[3..][i - 3]; }
    }
  }

  predicate PlainQuiet(w: string) {
    forall i :: 0 <= i < |w| ==> QuietChar(w[i]) && w[i] != '#'
  }

  lemma QuietConcat(a: string, b: string)
    requires PlainQuiet(a) && PlainQuiet(b)
    ensures PlainQuiet(a + b)
  {
  }

  lemma CommaTailIsQuiet(w: string)
    requires CommaTail(w)
    ensures PlainQuiet(w)
  {
    var t := w[Spaces(w)..];
    SpacesCut(w);
    SpaceIsQuiet(w[..Spaces(w)]);
    if t != [] { AndIsQuiet(t); }
    QuietConcat(w[..Spaces(w)], t);
  }

  lemma SepIsQuiet(w: string)
    requires SepText(w)
    ensures PlainQuiet(w)
  {
    assert w == [w[0]] + w[1..];
    if w[0] == ',' {
      CommaTailIsQuiet(w[1..]);
    } else {
      BlankTailIsQuiet(w[1..]);
      SpaceIsQuiet([w[0]]);
    }
    QuietConcat([w[0]], w[1..]);
  }

  lemma BlankTailIsQuiet(w: string)
    requires BlankTail(w)
    ensures PlainQuiet(w)
  {
    var t := w[Spaces(w)..];
    SpacesCut(w);
    SpaceIsQuiet(w[..Spaces(w)]);
    if t != [] {
      if AndTail(t) {
        AndIsQuiet(t);
      } else {
        CommaTailIsQuiet(t[1..]);
        assert t == [t[0]] + t[1..];
        QuietConcat([t[0]], t[1..]);
      }
    }
    QuietConcat(w[..Spaces(w)], t);
  }

  // ----- Round trip -----

  lemma RefIsQuiet(id: string, p: string, suffix: string)
    requires AllDigits(id) && (p == [] || Quiet(p))
    ensures Quiet("#" + id + p) && Ref(id, p + suffix) == ("#" + id + p) + suffix
  {
  }

  lemma SepPlusQuiet(w: string, p: string, suffix: string)
    requires PlainQuiet(w) && Quiet(p)
    ensures Quiet(w + p) && w + (p + suffix) == (w + p) + suffix
  {
  }

  /** The printed rest of a list, as quiet text before what follows it. */
  lemma {:induction false} TailIsQuiet(t: Tail, suffix: string) returns (q: string)
    requires ValidTail(t)
    ensures (q == [] || Quiet(q)) && Print(t, suffix) == q + suffix
    decreases t
  {
    if t.Done? {
      q := [];
    } else {
      var p := TailIsQuiet(t.rest, suffix);
      RefIsQuiet(t.id, p, suffix);
      SepIsQuiet(t.sep);
      SepPlusQuiet(t.sep, "#" + t.id + p, suffix);
      q := t.sep + ("#" + t.id + p);
    }
  }

  lemma BodyIsQuiet(w: string, id: string, t: Tail, suffix: string)
    requires AllSpace(w) && AllDigits(id) && ValidTail(t)
    ensures PhraseRefs(w + Ref(id, Print(t, suffix))) == PhraseRefs(suffix)
  {
    var p := TailIsQuiet(t, suffix);
    RefIsQuiet(id, p, suffix);
    SpaceIsQuiet(w);
    SepPlusQuiet(w, "#" + id + p, suffix);
    QuietRefs(w + ("#" + id + p), suffix);
  }

  /** A declaration contributes its list and leaves what follows it to be read on its own. */
  lemma DeclarationRead(d: Declaration, suffix: string)
    requires ValidDeclaration(d) && Stops(suffix)
    ensures PhraseRefs(Declare(d, suffix)) == Listed(d) + PhraseRefs(suffix)
  {
    var text := Declare(d, suffix);
    var r := Ref(d.id, Print(d.tail, suffix));
    HeadRead(d, suffix);
    assert NextPhrase(text) == 0 && text[0..] == text;
    PhraseRefsUnfold(text, text);
    ListRead(d.after, d.id, d.tail, suffix);
    ListRead([], d.id, d.tail, suffix);
    BodyIsQuiet(d.after, d.id, d.tail, suffix);
    BodyIsQuiet([], d.id, d.tail, suffix);
    assert [] + r == r;
  }

  /** Every `#` has a digit after it. */
  predicate RefHashes(s: string) {
    forall i :: 0 <= i < |s| && s[i] == '#' ==> i + 1 < |s| && IsDigit(s[i + 1])
  }

  lemma HashesConcat(a: string, b: string)
    requires RefHashes(a) && RefHashes(b)
    ensures RefHashes(a + b)
  {
  }

  lemma NoMark(s: string)
    requires s != [] && (s[0] == '#' ==> |s| > 1 && IsDigit(s[1]))
    ensures MarkLength(s) == 0
  {
    if s[0] == '#' {
      assert s[1..][0] == s[1];
      assert Hashes(s[1..]) == 0;
    }
  }

  lemma {:induction false} NoHeadings(text: string, i: nat)
    requires RefHashes(text) && i <= |text|
    ensures NextHeading(text, i) == |text|
    decreases |text| - i
  {
    if i < |text| {
      NoHeadings(text, i + 1);
      NoMark(text[i..]);
    }
  }

  lemma PlainHashes(w: string)
    requires PlainQuiet(w) || AllSpace(w)
    ensures RefHashes(w)
  {
    if AllSpace(w) { SpaceIsQuiet(w); }
  }

  lemma {:induction false} TailHashes(t: Tail)
    requires ValidTail(t)
    ensures RefHashes(Print(t, []))
    decreases t
  {
    if t.More? {
      TailHashes(t.rest);
      SepIsQuiet(t.sep);
      RefHasDigit(t.id, Print(t.rest, []));
      HashesConcat(t.sep, Ref(t.id, Print(t.rest, [])));
    }
  }

  lemma RefHasDigit(id: string, after: string)
    requires AllDigits(id) && RefHashes(after)
    ensures RefHashes(Ref(id, after))
  {
    assert RefHashes(id);
    HashesConcat(id, after);
    var r := Ref(id, after);
    assert r[1] == id[0];
    forall i | 0 <= i < |r| && r[i] == '#' ensures i + 1 < |r| && IsDigit(r[i + 1]) {
      if i > 0 { assert r[i] == (id + after)[i - 1]; }
    }
  }

  lemma {:induction false} WordHasNoHash(s: string, word: string)
    requires HasWord(s, word) && |s| == |word| && '#' !in word
    ensures '#' !in s
  {
    if word != [] {
      WordHasNoHash(s[1..], word[1..]);
      assert s == [s[0]] + s[1..];
    }
  }

  lemma PhraseHasNoHash(p: string)
    requires p != [] && PhraseLength(p) == |p|
    ensures RefHashes(p)
  {
    if |p| == 10 {
      if HasWord(p, "depends on") { WordHasNoHash(p, "depends on"); } else { WordHasNoHash(p, "blocked by"); }
    } else if |p| == 8 {
      WordHasNoHash(p, "requires");
    } else {
      WordHasNoHash(p, "needs");
    }
  }

  lemma DeclarationHasNoHeading(d: Declaration)
    requires ValidDeclaration(d)
    ensures RefHashes(Declare(d, []))
  {
    PhraseHasNoHash(d.phrase);
    PlainHashes(d.before);
    PlainHashes(d.after);
    TailHashes(d.tail);
    RefHasDigit(d.id, Print(d.tail, []));
    HashesConcat(d.after, Ref(d.id, Print(d.tail, [])));
    HashesConcat(":", Body(d, []));
    var rest := if d.colon then ":" + Body(d, []) else Body(d, []);
    HashesConcat(d.before, rest);
    HashesConcat(d.phrase, d.before + rest);
  }

  /**
    Every list of distinct canonical ids other than the own one, printed after
    any phrase head with any mix of separators, is parsed back.
  */
  lemma RoundTrip(d: Declaration, selfId: Option<string>)
    requires ValidDeclaration(d) && Distinct(Listed(d)) && AllAdmissible(Listed(d), selfId)
    ensures Parse(Declare(d, []), selfId) == Listed(d)
  {
    var text := Declare(d, []);
    DeclarationRead(d, []);
    assert PhraseRefs([]) == [];
    assert Listed(d) + [] == Listed(d);
    DeclarationHasNoHeading(d);
    NoHeadings(text, 0);
    assert PhraseRefs(text) + SectionRefs(text, 0) == Listed(d);
    AdmitKeeps(Listed(d), selfId);
  }
}
