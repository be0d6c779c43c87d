/** The declared-dependency grammar (core/scripts/declared-dependency-grammar.ts). */
module DependencyGrammar {
  import opened Prelude

  predicate IsDigit(c: char) {
    '0' <= c <= '9'
  }

  function Lower(c: char): char {
    if 'A' <= c <= 'Z' then (c as int + 32) as char else c
  }

  predicate IsWordChar(c: char) {
    'a' <= c <= 'z' || 'A' <= c <= 'Z' || IsDigit(c) || c == '_'
  }

  predicate Canonical(id: string) {
    id != [] && '1' <= id[0] <= '9' && forall i :: 0 <= i < |id| ==> IsDigit(id[i])
  }

  // ----- Matchers at the start of a text -----

  function Spaces(s: string): (n: nat)
    ensures n <= |s| && (n < |s| ==> !IsSpace(s[n]))
  {
    if s != [] && IsSpace(s[0]) then 1 + Spaces(s[1..]) else 0
  }

  function Digits(s: string): (n: nat)
    ensures n <= |s| && (n < |s| ==> !IsDigit(s[n]))
    ensures s != [] && IsDigit(s[0]) ==> n > 0
  {
    if s != [] && IsDigit(s[0]) then 1 + Digits(s[1..]) else 0
  }

  /** A `#` with digits after it. */
  predicate IsRef(s: string) {
    |s| > 1 && s[0] == '#' && IsDigit(s[1])
  }

  function RefLength(s: string): (n: nat)
    ensures n <= |s| && (IsRef(s) ==> n > 1)
  {
    if IsRef(s) then 1 + Digits(s[1..]) else 0
  }

  function RefId(s: string): string {
    if IsRef(s) then s[1..RefLength(s)] else []
  }

  /** The text starts with the word, in any case of its letters. */
  predicate HasWord(s: string, word: string) {
    word == [] || (s != [] && Lower(s[0]) == word[0] && HasWord(s[1..], word[1..]))
  }

  /** What a separator has read so far: nothing, whitespace, a comma, `and`, or whitespace after `and`. */
  datatype SepState = Nothing | Blank | Comma | And | AndBlank

  /**
    How much of the text is a separator before the next reference, if any: a
    comma, `and` with whitespace around it, both, or whitespace.
  */
  function Separator(q: SepState, s: string): (r: Option<nat>)
    ensures r.Some? ==> r.value <= |s| && (q == Nothing ==> r.value > 0)
    decreases |s|
  {
    if IsRef(s) && q != Nothing && q != And then Some(0)
    else if s == [] then None
    else if IsSpace(s[0]) then
      Plus(1, Separator(if q == Nothing then Blank else if q == And then AndBlank else q, s[1..]))
    else if s[0] == ',' && (q == Nothing || q == Blank) then Plus(1, Separator(Comma, s[1..]))
    else if |s| >= 3 && HasWord(s, "and") && (q == Blank || q == Comma) then Plus(3, Separator(And, s[3..]))
    else None
  }

  function Plus(n: nat, r: Option<nat>): Option<nat> {
    if r.None? then None else Some(n + r.value)
  }

  function SepLength(s: string): (n: nat)
    ensures n <= |s|
  {
    var r := Separator(Nothing, s);
    if r.Some? then r.value else 0
  }

  /** The references that follow one, while separators go on. */
  function MoreRefs(s: string): seq<string>
    decreases |s|
  {
    var n := SepLength(s);
    if n == 0 then [] else
      var t := s[n..];
      [RefId(t)] + MoreRefs(t[RefLength(t)..])
  }

  /** The list that follows a phrase head. */
  function RefList(s: string): seq<string> {
    var t := s[Spaces(s)..];
    if IsRef(t) then [RefId(t)] + MoreRefs(t[RefLength(t)..]) else []
  }

  lemma Shift(text: string, i: nat, j: nat)
    requires i + j <= |text|
    ensures text[i..][j..] == text[i + j..]
  {
  }

  method SkipSpaces(s: string) returns (rest: string)
    ensures rest == s[Spaces(s)..]
  {
    var pos := 0;
    assert s[0..] == s;
    while pos < |s| && IsSpace(s[pos])
      invariant pos <= |s| && Spaces(s) == pos + Spaces(s[pos..])
    {
      Shift(s, pos, 1);
      pos := pos + 1;
    }
    rest := s[pos..];
  }

  lemma RefListUnfold(s: string, t: string)
    requires t == s[Spaces(s)..]
    ensures !IsRef(t) ==> RefList(s) == []
    ensures IsRef(t) ==> RefList(s) == [RefId(t)] + MoreRefs(t[RefLength(t)..])
  {
  }

  lemma MoreRefsUnfold(s: string, t: string, u: string)
    requires SepLength(s) > 0 && t == s[SepLength(s)..] && u == t[RefLength(t)..]
    ensures MoreRefs(s) == [RefId(t)] + MoreRefs(u)
  {
  }

  method ConsumeReferenceList(text: string, start: nat) returns (ids: seq<string>)
    requires start <= |text|
    ensures ids == RefList(text[start..])
  {
    var rest := SkipSpaces(text[start..]);
    RefListUnfold(text[start..], rest);
    if !IsRef(rest) { return []; }
    var more := ConsumeMore(rest[RefLength(rest)..]);
    ids := [RefId(rest)] + more;
  }

  /** `rest` is the text from the current position on. */
  method ConsumeMore(s: string) returns (ids: seq<string>)
    ensures ids == MoreRefs(s)
  {
    ids := [];
    var rest := s;
    while rest != []
      invariant MoreRefs(s) == ids + MoreRefs(rest)
      decreases |rest|
    {
      var n := SepLength(rest);
      if n == 0 { break; }
      var next := rest[n..];
      MoreRefsUnfold(rest, next, next[RefLength(next)..]);
      ids := ids + [RefId(next)];
      rest := next[RefLength(next)..];
    }
  }

  // ----- Phrases -----

  function PhraseLength(s: string): (n: nat)
    ensures n <= |s|
  {
    if |s| >= 10 && (HasWord(s, "depends on") || HasWord(s, "blocked by")) then 10
    else if |s| >= 8 && HasWord(s, "requires") then 8
    else if |s| >= 5 && HasWord(s, "needs") then 5
    else 0
  }

  /** A phrase, the whitespace after it and a colon. */
  function HeadLength(s: string): (n: nat)
    ensures n <= |s| && (PhraseLength(s) > 0 ==> n > 0)
  {
    var p := PhraseLength(s);
    if p == 0 then 0
    else
      var e := p + Spaces(s[p..]);
      if e < |s| && s[e] == ':' then e + 1 else e
  }

  /** Where the next phrase starts. */
  function NextPhrase(s: string): (i: nat)
    ensures i <= |s| && (i < |s| ==> PhraseLength(s[i..]) > 0)
  {
    if s == [] || PhraseLength(s) > 0 then 0
    else
      var i := 1 + NextPhrase(s[1..]);
      assert s[i..] == s[1..][i - 1..];
      i
  }

  function PhraseRefs(s: string): seq<string>
    decreases |s|
  {
    var i := NextPhrase(s);
    if i == |s| then [] else
      var t := s[i..][HeadLength(s[i..])..];
      RefList(t) + PhraseRefs(t)
  }

  lemma PhraseUnfold(s: string, h: string, t: string)
    requires h == s[NextPhrase(s)..] && h != [] && t == h[HeadLength(h)..]
    ensures PhraseRefs(s) == RefList(t) + PhraseRefs(t)
  {
  }

  lemma PhraseStep(text: string, last: nat, at: nat, e: nat)
    requires last <= at < |text| && at == last + NextPhrase(text[last..]) && e == at + HeadLength(text[at..])
    ensures last < e <= |text| && PhraseRefs(text[last..]) == RefList(text[e..]) + PhraseRefs(text[e..])
  {
    Shift(text, last, at - last);
    Shift(text, at, e - at);
    PhraseUnfold(text[last..], text[at..], text[e..]);
    PhraseHere(text[last..]);
  }

  lemma PhraseHere(s: string)
    requires NextPhrase(s) < |s|
    ensures HeadLength(s[NextPhrase(s)..]) > 0
  {
  }

  // ----- Sections -----

  predicate IsLineEnd(c: char) {
    c == '\n' || c == '\r' || c as int == 0x2028 || c as int == 0x2029
  }

  predicate LineStart(text: string, i: nat)
    requires i <= |text|
  {
    i == 0 || IsLineEnd(text[i - 1])
  }

  function Hashes(s: string): (n: nat)
    ensures n <= |s|
  {
    if s != [] && s[0] == '#' then 1 + Hashes(s[1..]) else 0
  }

  /** One to six hashes and whitespace: how much there is of it, or nothing. */
  function MarkLength(s: string): (n: nat)
    ensures n <= |s|
  {
    var h := Hashes(s);
    if 1 <= h <= 6 && Spaces(s[h..]) > 0 then h + Spaces(s[h..]) else 0
  }

  predicate TitleEnds(s: string, n: nat) {
    |s| == n || (|s| > n && !IsWordChar(s[n]))
  }

  predicate IsTitle(s: string) {
    || (HasWord(s, "dependency") && TitleEnds(s, 10))
    || (HasWord(s, "dependencies") && TitleEnds(s, 12))
  }

  function LineLength(s: string): (n: nat)
    ensures n <= |s|
  {
    if s == [] || s[0] == '\n' then 0 else 1 + LineLength(s[1..])
  }

  predicate IsDependencyHeading(text: string, i: nat)
    requires i <= |text|
  {
    LineStart(text, i) && var m := MarkLength(text[i..]); m > 0 && IsTitle(text[i..][m..])
  }

  /** The heading goes to the end of the line its title is on. */
  function HeadingEnd(text: string, i: nat): (e: nat)
    requires i <= |text| && IsDependencyHeading(text, i)
    ensures i < e <= |text|
  {
    var m := i + MarkLength(text[i..]);
    m + LineLength(text[m..])
  }

  function NextHeading(text: string, i: nat): (r: nat)
    requires i <= |text|
    ensures i <= r <= |text| && (r < |text| ==> IsDependencyHeading(text, r))
    decreases |text| - i
  {
    if i == |text| || IsDependencyHeading(text, i) then i else NextHeading(text, i + 1)
  }

  predicate StartsHeading(s: string) {
    s != [] && s[0] == '\n' && var m := MarkLength(s[1..]); m > 0 && 1 + m < |s|
  }

  /** The section goes to the next heading. */
  function SectionLength(s: string): (n: nat)
    ensures n <= |s|
  {
    if s == [] || StartsHeading(s) then 0 else 1 + SectionLength(s[1..])
  }

  function Refs(s: string): seq<string>
    decreases |s|
  {
    if s == [] then [] else if IsRef(s) then [RefId(s)] + Refs(s[RefLength(s)..]) else Refs(s[1..])
  }

  function SectionRefs(text: string, i: nat): seq<string>
    requires i <= |text|
    decreases |text| - i
  {
    var h := NextHeading(text, i);
    if h == |text| then []
    else
      var e := HeadingEnd(text, h);
      Refs(text[e..][..SectionLength(text[e..])]) + SectionRefs(text, e)
  }

  // ----- The parser -----

  function Admit(out: seq<string>, raw: string, selfId: Option<string>): seq<string> {
    if !Canonical(raw) || Some(raw) == selfId || raw in out then out else out + [raw]
  }

  function AdmitAll(out: seq<string>, raws: seq<string>, selfId: Option<string>): seq<string>
    decreases |raws|
  {
    if raws == [] then out else Admit(AdmitAll(out, raws[..|raws| - 1], selfId), raws[|raws| - 1], selfId)
  }

  function Parse(text: string, selfId: Option<string>): seq<string> {
    AdmitAll([], PhraseRefs(text) + SectionRefs(text, 0), selfId)
  }

  method AddAll(out: seq<string>, raws: seq<string>, selfId: Option<string>) returns (out': seq<string>)
    ensures out' == AdmitAll(out, raws, selfId)
  {
    out' := out;
    for i := 0 to |raws|
      invariant out' == AdmitAll(out, raws[..i], selfId)
    {
      assert raws[..i + 1][..i] == raws[..i];
      var raw := raws[i];
      if Canonical(raw) && Some(raw) != selfId && raw !in out' {
        out' := out' + [raw];
      }
    }
    assert raws[..|raws|] == raws;
  }

  lemma {:induction false} AdmitConcat(out: seq<string>, a: seq<string>, b: seq<string>, selfId: Option<string>)
    ensures AdmitAll(out, a + b, selfId) == AdmitAll(AdmitAll(out, a, selfId), b, selfId)
    decreases |b|
  {
    if b == [] {
      assert a + b == a;
    } else {
      AdmitConcat(out, a, b[..|b| - 1], selfId);
      assert (a + b)[..|a + b| - 1] == a + b[..|b| - 1];
    }
  }

  method ParseDeclaredDependencyIds(text: string, selfId: Option<string>) returns (out: seq<string>)
    ensures out == Parse(text, selfId)
  {
    var phrases := AddPhrases(text, selfId);
    out := AddSections(text, phrases, selfId);
    AdmitConcat([], PhraseRefs(text), SectionRefs(text, 0), selfId);
  }

  /** The next phrase head from `last` on, if there is one: where its list starts. */
  method NextHead(text: string, last: nat) returns (listStart: Option<nat>)
    requires last <= |text|
    ensures listStart.None? ==> PhraseRefs(text[last..]) == []
    ensures listStart.Some? ==>
              && last < listStart.value <= |text|
              && PhraseRefs(text[last..]) == RefList(text[listStart.value..]) + PhraseRefs(text[listStart.value..])
  {
    var at := last + NextPhrase(text[last..]);
    if at == |text| {
      NoPhrase(text[last..]);
      return None;
    }
    var e := at + HeadLength(text[at..]);
    PhraseStep(text, last, at, e);
    return Some(e);
  }

  lemma NoPhrase(s: string)
    requires NextPhrase(s) == |s|
    ensures PhraseRefs(s) == []
  {
  }

  method AddPhrases(text: string, selfId: Option<string>) returns (out: seq<string>)
    ensures out == AdmitAll([], PhraseRefs(text), selfId)
  {
    out := [];
    assert text[0..] == text;
    var last := 0;
    var head := NextHead(text, last);
    while head.Some?
      invariant last <= |text|
      invariant head.None? ==> PhraseRefs(text[last..]) == []
      invariant head.Some? ==>
                  && last < head.value <= |text|
                  && PhraseRefs(text[last..]) == RefList(text[head.value..]) + PhraseRefs(text[head.value..])
      invariant AdmitAll([], PhraseRefs(text), selfId) == AdmitAll(out, PhraseRefs(text[last..]), selfId)
      decreases |text| - last
    {
      var ids := ConsumeReferenceList(text, head.value);
      AdmitConcat(out, ids, PhraseRefs(text[head.value..]), selfId);
      out := AddAll(out, ids, selfId);
      last := head.value;
      head := NextHead(text, last);
    }
  }

  method AddSections(text: string, start: seq<string>, selfId: Option<string>) returns (out: seq<string>)
    ensures out == AdmitAll(start, SectionRefs(text, 0), selfId)
  {
    out := start;
    var last := 0;
    while NextHeading(text, last) < |text|
      invariant last <= |text|
      invariant AdmitAll(start, SectionRefs(text, 0), selfId) == AdmitAll(out, SectionRefs(text, last), selfId)
      decreases |text| - last
    {
      var sectionStart := HeadingEnd(text, NextHeading(text, last));
      var rest := text[sectionStart..];
      var section := rest[..SectionLength(rest)];
      AdmitConcat(out, Refs(section), SectionRefs(text, sectionStart), selfId);
      var ids := FindRefs(section);
      out := AddAll(out, ids, selfId);
      last := sectionStart;
    }
  }

  method FindRefs(section: string) returns (ids: seq<string>)
    ensures ids == Refs(section)
  {
    ids := [];
    var pos := 0;
    assert section[0..] == section;
    while pos < |section|
      invariant pos <= |section| && Refs(section) == ids + Refs(section[pos..])
      decreases |section| - pos
    {
      var s := section[pos..];
      if IsRef(s) {
        ids := ids + [RefId(s)];
        assert s[RefLength(s)..] == section[pos + RefLength(s)..];
        pos := pos + RefLength(s);
      } else {
        assert s[1..] == section[pos + 1..];
        pos := pos + 1;
      }
    }
  }
}
