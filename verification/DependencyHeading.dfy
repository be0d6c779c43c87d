/** Where a dependency section starts and where it ends (core/scripts/declared-dependency-grammar.ts). */
module DependencyHeading {
  import opened Prelude
  import opened DependencyGrammar
  import opened DependencyRoundTrip
  import opened DependencySection

  // ----- What a heading is, written out -----

  /** At the start of the text, or after one of the four characters that end a line. */
  ghost predicate AtLineStart(text: string, i: nat)
    requires i <= |text|
  {
    i == 0 || text[i - 1] == '\n' || text[i - 1] == '\r' || text[i - 1] as int == 0x2028 || text[i - 1] as int == 0x2029
  }

  ghost predicate OutsideWords(c: char) {
    c != '_' && !('a' <= c <= 'z') && !('A' <= c <= 'Z') && !('0' <= c <= '9')
  }

  /** One to six hashes and whitespace before the rest. */
  ghost predicate MarkedText(s: string, level: nat, ws: string, t: string) {
    s == Marks(level) + (ws + t) && 1 <= level <= 6 && ws != [] && AllSpace(ws) && t != [] && !IsSpace(t[0])
  }

  /** The word in either number and any case, and no further letter, digit or underscore. */
  ghost predicate TitleText(t: string, n: nat) {
    && n <= |t| && (SameLetters(t[..n], "dependency") || SameLetters(t[..n], "dependencies"))
    && (n < |t| ==> OutsideWords(t[n]))
  }

  // ----- Marks -----

  lemma {:induction false} HashesAreMarks(s: string)
    ensures s[..Hashes(s)] == Marks(Hashes(s))
  {
    if s != [] && s[0] == '#' {
      var n := Hashes(s[1..]);
      HashesAreMarks(s[1..]);
      assert s[..n + 1] == [s[0]] + s[1..][..n];
      assert Marks(n + 1) == ['#'] + Marks(n);
    }
  }

  lemma MarkOf(s: string, level: nat, ws: string, t: string)
    requires MarkedText(s, level, ws, t)
    ensures MarkLength(s) == level + |ws| < |s| && s[MarkLength(s)..] == t
  {
    assert (ws + t)[0] == ws[0] && IsSpace(ws[0]);
    HashesOf(level, ws + t);
    assert s[level..] == ws + t;
    SpacesConcat(ws, t);
    assert (ws + t)[|ws|..] == t && s[level + |ws|..] == s[level..][|ws|..];
  }

  /** A text starts with a mark and something after it if and only if it has this form. */
  lemma MarkIff(s: string)
    ensures 0 < MarkLength(s) < |s| <==> exists level: nat, ws: string, t: string :: MarkedText(s, level, ws, t)
  {
    if level: nat, ws: string, t: string :| MarkedText(s, level, ws, t) { MarkOf(s, level, ws, t); }
    var m := MarkLength(s);
    if 0 < m < |s| { MarkParts(s); }
  }

  lemma MarkParts(s: string)
    requires 0 < MarkLength(s) < |s|
    ensures exists level: nat, ws: string :: MarkedText(s, level, ws, s[MarkLength(s)..])
  {
    var h := Hashes(s);
    var n := Spaces(s[h..]);
    HashesAreMarks(s);
    SpacesAreSpace(s[h..]);
    ThreeParts(s, h, n);
    JoinedMark(s, h, s[h..h + n], s[h + n..]);
  }

  lemma JoinedMark(s: string, h: nat, ws: string, t: string)
    requires h <= |s| && s == s[..h] + (ws + t) && s[..h] == Marks(h)
    requires 1 <= h <= 6 && ws != [] && AllSpace(ws) && t != [] && !IsSpace(t[0])
    ensures MarkedText(s, h, ws, t)
  {
  }

  lemma ThreeParts(s: string, h: nat, n: nat)
    requires h + n <= |s|
    ensures s == s[..h] + (s[h..h + n] + s[h + n..]) && s[h..][..n] == s[h..h + n]
    ensures h + n < |s| ==> s[h..][n] == s[h + n..][0]
  {
  }

  // ----- Titles -----

  lemma TitleIff(t: string)
    ensures IsTitle(t) <==> exists n: nat :: TitleText(t, n)
  {
    HasWordIff(t, "dependency");
    HasWordIff(t, "dependencies");
    if n: nat :| TitleText(t, n) {
      assert n == 10 || n == 12;
      assert TitleEnds(t, n);
    }
    if HasWord(t, "dependency") && TitleEnds(t, 10) { assert TitleText(t, 10); }
    if HasWord(t, "dependencies") && TitleEnds(t, 12) { assert TitleText(t, 12); }
  }

  // ----- The theorems -----

  /** A dependency section starts here if and only if a line starts here with a mark and the title. */
  lemma HeadingIff(text: string, i: nat)
    requires i <= |text|
    ensures IsDependencyHeading(text, i) <==>
            AtLineStart(text, i) && exists level: nat, ws: string, t: string, n: nat :: MarkedText(text[i..], level, ws, t) && TitleText(t, n)
  {
    var s := text[i..];
    if IsDependencyHeading(text, i) {
      var m := MarkLength(s);
      TitleIff(s[m..]);
      var n: nat :| TitleText(s[m..], n);
      MarkParts(s);
      var level: nat, ws: string :| MarkedText(s, level, ws, s[m..]);
      assert MarkedText(s, level, ws, s[m..]) && TitleText(s[m..], n);
    }
    if level: nat, ws: string, t: string, n: nat :| MarkedText(s, level, ws, t) && TitleText(t, n) {
      MarkOf(s, level, ws, t);
      TitleIff(t);
    }
  }

  /** A section ends before a line break if and only if a heading with a text of its own follows it. */
  lemma SectionEndIff(s: string)
    ensures StartsHeading(s) <==> s != [] && s[0] == '\n' && exists level: nat, ws: string, t: string :: MarkedText(s[1..], level, ws, t)
  {
    if s != [] { MarkIff(s[1..]); }
  }
}
