/** Printed dependency sections and what the parser makes of them (core/scripts/declared-dependency-grammar.ts). */
module DependencySection {
  import opened Prelude
  import opened DependencyGrammar
  import opened DependencyRoundTrip

  // ----- Words in any case -----

  /** The same letters, each in either case; `word` is in lower case. */
  ghost predicate SameLetters(a: string, word: string) {
    && |a| == |word|
    && forall i :: 0 <= i < |a| ==> a[i] == word[i] || ('A' <= a[i] <= 'Z' && a[i] as int + 32 == word[i] as int)
  }

  predicate LowerCase(word: string) {
    forall i :: 0 <= i < |word| ==> !('A' <= word[i] <= 'Z')
  }

  lemma {:induction false} HasWordIff(s: string, word: string)
    requires LowerCase(word)
    ensures HasWord(s, word) <==> |word| <= |s| && SameLetters(s[..|word|], word)
  {
    if word != [] && s != [] {
      HasWordIff(s[1..], word[1..]);
      if |word| <= |s| {
        var a := s[..|word|];
        assert s[1..][..|word| - 1] == a[1..];
        SameLettersCons(a, word);
      }
    }
  }

  lemma SameLettersCons(a: string, word: string)
    requires |a| == |word| > 0 && LowerCase(word)
    ensures SameLetters(a, word) <==> Lower(a[0]) == word[0] && SameLetters(a[1..], word[1..])
  {
    if SameLetters(a[1..], word[1..]) {
      assert forall i :: 1 <= i < |a| ==> a[i] == a[1..][i - 1] && word[i] == word[1..][i - 1];
    }
  }

  /** The phrases that head a list are exactly these four, in any case. */
  lemma PhraseIff(p: string)
    ensures p != [] && PhraseLength(p) == |p| <==>
            || SameLetters(p, "depends on") || SameLetters(p, "requires")
            || SameLetters(p, "blocked by") || SameLetters(p, "needs")
  {
    HasWordIff(p, "depends on");
    HasWordIff(p, "requires");
    HasWordIff(p, "blocked by");
    HasWordIff(p, "needs");
    assert p[..|p|] == p;
    if SameLetters(p, "requires") || SameLetters(p, "needs") { assert |p| < 10; }
  }

  // ----- Sections -----

  /** The references of a section, each with the text before it. */
  datatype Items = NoMore | Item(gap: string, id: string, rest: Items)

  ghost predicate ValidItems(t: Items, first: bool) {
    t.Item? ==>
      && '#' !in t.gap && t.gap != [] && !IsDigit(t.gap[0]) && (first ==> t.gap[0] == '\n')
      && AllDigits(t.id) && ValidItems(t.rest, false)
  }

  function PrintItems(t: Items, after: string): string {
    if t.NoMore? then after else t.gap + Ref(t.id, PrintItems(t.rest, after))
  }

  function ItemIds(t: Items): seq<string> {
    if t.NoMore? then [] else [t.id] + ItemIds(t.rest)
  }

  /** A heading of `level` hashes, whitespace, the title and the rest of its line, then the items. */
  datatype Section = Section(level: nat, ws: string, title: string, line: string, items: Items)

  function Marks(n: nat): string {
    seq(n, _ => '#')
  }

  ghost predicate ValidSection(d: Section) {
    && 1 <= d.level <= 6 && d.ws != [] && AllSpace(d.ws)
    && (SameLetters(d.title, "dependency") || SameLetters(d.title, "dependencies"))
    && '\n' !in d.line && '#' !in d.line && (d.line != [] ==> !IsWordChar(d.line[0]))
    && ValidItems(d.items, true)
  }

  function Head(d: Section): string {
    Marks(d.level) + d.ws
  }

  function PrintSection(d: Section, after: string): string {
    Head(d) + (d.title + (d.line + PrintItems(d.items, after)))
  }

  /** Where a section ends: at the end of the text, or at the next heading. */
  predicate EndsSection(after: string) {
    after == [] || StartsHeading(after)
  }

  // ----- The items -----

  lemma {:induction false} RefsGap(gap: string, t: string)
    requires '#' !in gap
    ensures Refs(gap + t) == Refs(t)
  {
    if gap == [] {
      assert gap + t == t;
    } else {
      assert (gap + t)[0] == gap[0] && gap[0] in gap;
      DropConcat(gap, t, 1);
      assert '#' !in gap[1..];
      RefsGap(gap[1..], t);
    }
  }

  lemma NoDigitNext(t: Items)
    requires ValidItems(t, false)
    ensures PrintItems(t, []) == [] || !IsDigit(PrintItems(t, [])[0])
  {
    if t.Item? { assert PrintItems(t, [])[0] == t.gap[0]; }
  }

  lemma RefsUnfold(r: string)
    requires IsRef(r)
    ensures Refs(r) == [RefId(r)] + Refs(r[RefLength(r)..])
  {
  }

  lemma ItemsWeaken(t: Items)
    requires ValidItems(t, true)
    ensures ValidItems(t, false)
  {
  }

  /** The printed items are read back, in order. */
  lemma {:induction false} ItemsRead(t: Items)
    requires ValidItems(t, false)
    ensures Refs(PrintItems(t, [])) == ItemIds(t)
    decreases t
  {
    if t.Item? {
      var after := PrintItems(t.rest, []);
      var r := Ref(t.id, after);
      NoDigitNext(t.rest);
      RefRead(t.id, after);
      RefsGap(t.gap, r);
      RefsUnfold(r);
      ItemsRead(t.rest);
    }
  }

  lemma GapHashes(gap: string)
    requires '#' !in gap
    ensures RefHashes(gap)
  {
    assert forall i :: 0 <= i < |gap| ==> gap[i] in gap;
  }

  lemma {:induction false} ItemsHashes(t: Items)
    requires ValidItems(t, false)
    ensures RefHashes(PrintItems(t, []))
    decreases t
  {
    if t.Item? {
      ItemsHashes(t.rest);
      GapHashes(t.gap);
      RefHasDigit(t.id, PrintItems(t.rest, []));
      HashesConcat(t.gap, Ref(t.id, PrintItems(t.rest, [])));
    }
  }

  lemma {:induction false} PrintItemsAfter(t: Items, after: string)
    ensures PrintItems(t, after) == PrintItems(t, []) + after
    decreases t
  {
    if t.Item? {
      PrintItemsAfter(t.rest, after);
      assert t.gap + Ref(t.id, PrintItems(t.rest, []) + after) == (t.gap + Ref(t.id, PrintItems(t.rest, []))) + after;
    } else {
      assert [] + after == after;
    }
  }

  // ----- Where the section ends -----

  lemma NotHeading(body: string, after: string)
    requires body != [] && RefHashes(body) && EndsSection(after)
    ensures !StartsHeading(body + after)
  {
    var s := body + after;
    if s[0] == '\n' && |s| > 1 {
      assert s[1..][0] == s[1];
      if |body| > 1 {
        assert s[1] == body[1] && (body[1] == '#' ==> s[2] == body[2] && s[1..][1] == s[2]);
      } else {
        assert s[1] == after[0];
      }
      NoMark(s[1..]);
    }
  }

  lemma {:induction false} SectionIsBody(body: string, after: string)
    requires RefHashes(body) && EndsSection(after)
    ensures SectionLength(body + after) == |body|
  {
    if body == [] {
      assert body + after == after;
    } else {
      NotHeading(body, after);
      DropConcat(body, after, 1);
      assert RefHashes(body[1..]) by { assert forall i :: 0 <= i < |body| - 1 ==> body[1..][i] == body[i + 1]; }
      SectionIsBody(body[1..], after);
    }
  }

  // ----- The heading -----

  lemma {:induction false} HashesOf(n: nat, t: string)
    requires t == [] || t[0] != '#'
    ensures Hashes(Marks(n) + t) == n
  {
    var s := Marks(n) + t;
    if n == 0 {
      assert s == t;
    } else {
      assert s[1..] == Marks(n - 1) + t;
      HashesOf(n - 1, t);
    }
  }

  lemma TitleStart(title: string)
    requires SameLetters(title, "dependency") || SameLetters(title, "dependencies")
    ensures (title[0] == 'd' || title[0] == 'D') && '\n' !in title && '#' !in title
  {
    forall c | c in title ensures c != '\n' && c != '#' {
      var i :| 0 <= i < |title| && title[i] == c;
      NoSpecial(title, i);
    }
  }

  lemma NoSpecial(title: string, i: nat)
    requires i < |title| && (SameLetters(title, "dependency") || SameLetters(title, "dependencies"))
    ensures title[i] != '\n' && title[i] != '#'
  {
    assert "dependencies"[i] != '\n' && "dependencies"[i] != '#';
    if i < 10 { assert "dependency"[i] != '\n' && "dependency"[i] != '#'; }
  }

  lemma HeadIsMark(d: Section, t: string)
    requires ValidSection(d) && t != [] && !IsSpace(t[0])
    ensures MarkLength(Head(d) + t) == |Head(d)|
  {
    var s := Head(d) + t;
    assert s == Marks(d.level) + (d.ws + t);
    assert (d.ws + t)[0] == d.ws[0] && IsSpace(d.ws[0]);
    HashesOf(d.level, d.ws + t);
    assert s[d.level..] == d.ws + t;
    SpacesConcat(d.ws, t);
  }

  lemma TitleRead(d: Section, rest: string)
    requires ValidSection(d) && (rest == [] || rest[0] == '\n')
    ensures IsTitle(d.title + (d.line + rest))
  {
    var tail := d.line + rest;
    var s := d.title + tail;
    assert tail == [] || !IsWordChar(tail[0]);
    assert |s| > |d.title| ==> s[|d.title|] == tail[0];
    assert d.title[..|d.title|] == d.title;
    if SameLetters(d.title, "dependency") {
      HasWordIff(d.title, "dependency");
      WordPrefix(d.title, tail, "dependency");
    } else {
      HasWordIff(d.title, "dependencies");
      WordPrefix(d.title, tail, "dependencies");
    }
  }

  lemma {:induction false} LineLengthOf(a: string, rest: string)
    requires '\n' !in a && (rest == [] || rest[0] == '\n')
    ensures LineLength(a + rest) == |a|
  {
    if a == [] {
      assert a + rest == rest;
    } else {
      assert (a + rest)[0] == a[0] && a[0] in a;
      DropConcat(a, rest, 1);
      assert '\n' !in a[1..];
      LineLengthOf(a[1..], rest);
    }
  }

  lemma Parts(a: string, b: string, c: string, rest: string)
    ensures a + (b + (c + rest)) == (a + b + c) + rest && (a + (b + (c + rest)))[|a|..] == b + (c + rest)
    ensures b + (c + rest) == (b + c) + rest && (a + (b + (c + rest)))[|a| + |b| + |c|..] == rest
  {
  }

  lemma HeadingFrom(text: string, m: nat, n: nat)
    requires text != [] && m == MarkLength(text) > 0 && IsTitle(text[m..]) && LineLength(text[m..]) == n
    ensures IsDependencyHeading(text, 0) && HeadingEnd(text, 0) == m + n
  {
    assert text[0..] == text;
  }

  lemma HeadingRead(d: Section, rest: string)
    requires ValidSection(d) && (rest == [] || rest[0] == '\n')
    ensures var text := Head(d) + (d.title + (d.line + rest));
            && IsDependencyHeading(text, 0)
            && HeadingEnd(text, 0) == |Head(d)| + |d.title| + |d.line|
            && text[|Head(d)| + |d.title| + |d.line|..] == rest
  {
    var t := d.title + (d.line + rest);
    TitleStart(d.title);
    TitleNotSpace(d, rest);
    HeadIsMark(d, t);
    TitleRead(d, rest);
    Parts(Head(d), d.title, d.line, rest);
    LineLengthOf(d.title + d.line, rest);
    HeadingFrom(Head(d) + t, |Head(d)|, |d.title| + |d.line|);
  }

  lemma TitleNotSpace(d: Section, rest: string)
    requires ValidSection(d)
    ensures var t := d.title + (d.line + rest); t != [] && !IsSpace(t[0])
  {
    TitleStart(d.title);
  }

  lemma ItemsStart(t: Items, after: string)
    requires ValidItems(t, true) && EndsSection(after)
    ensures PrintItems(t, after) == [] || PrintItems(t, after)[0] == '\n'
  {
    if t.Item? { assert PrintItems(t, after)[0] == t.gap[0]; }
  }

  lemma SectionUnfold(text: string, e: nat)
    requires text != [] && IsDependencyHeading(text, 0) && e == HeadingEnd(text, 0)
    ensures SectionRefs(text, 0) == Refs(text[e..][..SectionLength(text[e..])]) + SectionRefs(text, e)
  {
    assert NextHeading(text, 0) == 0;
  }

  lemma BodyRefs(t: Items, after: string)
    requires ValidItems(t, true) && EndsSection(after)
    ensures var rest := PrintItems(t, after); Refs(rest[..SectionLength(rest)]) == ItemIds(t)
  {
    var body := PrintItems(t, []);
    ItemsWeaken(t);
    PrintItemsAfter(t, after);
    ItemsHashes(t);
    SectionIsBody(body, after);
    assert (body + after)[..|body|] == body;
    ItemsRead(t);
  }

  /** The text gives these references up to `e`, and from there what stands there on its own. */
  ghost predicate Gives(text: string, e: nat, ids: seq<string>) {
    e <= |text| && SectionRefs(text, 0) == ids + SectionRefs(text, e)
  }

  lemma GivesBody(text: string, e: nat, rest: string, ids: seq<string>)
    requires text != [] && IsDependencyHeading(text, 0) && e == HeadingEnd(text, 0) && text[e..] == rest
    requires Refs(rest[..SectionLength(rest)]) == ids
    ensures Gives(text, e, ids)
  {
    SectionUnfold(text, e);
  }

  function HeadingLength(d: Section): nat {
    |Head(d)| + |d.title| + |d.line|
  }

  /** A section contributes its references up to the next heading, and leaves the rest to be read on its own. */
  lemma SectionRead(d: Section, after: string)
    requires ValidSection(d) && EndsSection(after)
    ensures Gives(PrintSection(d, after), HeadingLength(d), ItemIds(d.items))
  {
    ItemsStart(d.items, after);
    HeadingRead(d, PrintItems(d.items, after));
    BodyRefs(d.items, after);
    GivesBody(PrintSection(d, after), HeadingLength(d), PrintItems(d.items, after), ItemIds(d.items));
  }

  lemma {:induction false} NoMoreHeadings(text: string, i: nat)
    requires i <= |text| && forall j :: i <= j < |text| && text[j] == '#' ==> j + 1 < |text| && IsDigit(text[j + 1])
    ensures NextHeading(text, i) == |text|
    decreases |text| - i
  {
    if i < |text| {
      NoMoreHeadings(text, i + 1);
      NoMark(text[i..]);
    }
  }

  ghost predicate GivesNothing(text: string, e: nat) {
    e <= |text| && SectionRefs(text, e) == []
  }

  lemma QuietTail(text: string, e: nat, body: string)
    requires e <= |text| && text[e..] == body && RefHashes(body)
    ensures GivesNothing(text, e)
  {
    forall j | e <= j < |text| && text[j] == '#' ensures j + 1 < |text| && IsDigit(text[j + 1]) {
      assert text[j] == body[j - e];
      assert body[j - e + 1] == text[j + 1];
    }
    NoMoreHeadings(text, e);
  }

  lemma NothingAfter(d: Section)
    requires ValidSection(d)
    ensures GivesNothing(PrintSection(d, []), HeadingLength(d))
  {
    ItemsWeaken(d.items);
    ItemsHashes(d.items);
    Parts(Head(d), d.title, d.line, PrintItems(d.items, []));
    QuietTail(PrintSection(d, []), HeadingLength(d), PrintItems(d.items, []));
  }

  lemma OnlyThese(text: string, e: nat, ids: seq<string>)
    requires Gives(text, e, ids) && GivesNothing(text, e) && NextPhrase(text) == |text|
    ensures PhraseRefs(text) + SectionRefs(text, 0) == ids
  {
    NoPhrase(text);
  }

  /**
    Every list of distinct canonical ids other than the own one, printed in a
    dependency section without phrases, is parsed back.
  */
  lemma SectionRoundTrip(d: Section, selfId: Option<string>)
    requires ValidSection(d) && NextPhrase(PrintSection(d, [])) == |PrintSection(d, [])|
    requires Distinct(ItemIds(d.items)) && AllAdmissible(ItemIds(d.items), selfId)
    ensures Parse(PrintSection(d, []), selfId) == ItemIds(d.items)
  {
    SectionRead(d, []);
    NothingAfter(d);
    OnlyThese(PrintSection(d, []), HeadingLength(d), ItemIds(d.items));
    AdmitKeeps(ItemIds(d.items), selfId);
  }
}
