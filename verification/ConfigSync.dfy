/** The append-only sync candidate (core/scripts/config.ts). */
module ConfigSync {
  import opened Prelude
  import opened TextLines
  import opened ConfigMerge

  // ----- Cutting the whitespace at the end of the file -----

  /** The last block loses its trailing whitespace; everything else stays. */
  function TrimLast(es: seq<Entry>): seq<Entry> {
    if es == [] then []
    else es[..|es| - 1] + [es[|es| - 1].(text := TrimEnd(es[|es| - 1].text))]
  }

  lemma {:induction false} LinesPad(t: string, w: string)
    requires OneLine(w)
    ensures var ls := Lines(t);
            Lines(t + w) == ls[..|ls| - 1] + [ls[|ls| - 1] + w]
    decreases |t|
  {
    var ls := Lines(t);
    if t == [] {
      assert t + w == w;
      LineIsItself(w);
      assert [] + w == w;
    } else {
      assert (t + w)[1..] == t[1..] + w;
      LinesPad(t[1..], w);
      PushPad(t[0], Lines(t[1..]), w);
    }
  }

  lemma PushPad(c: char, ls: seq<string>, w: string)
    requires ls != []
    ensures var r := Push(c, ls);
            Push(c, ls[..|ls| - 1] + [ls[|ls| - 1] + w]) == r[..|r| - 1] + [r[|r| - 1] + w]
  {
    var r, padded := Push(c, ls), ls[..|ls| - 1] + [ls[|ls| - 1] + w];
    if c == '\n' {
      assert [[]] + padded == r[..|r| - 1] + [r[|r| - 1] + w];
    } else if |ls| == 1 {
      assert padded == [ls[0] + w] && padded[1..] == [] && r[..0] == [];
      assert [c] + (ls[0] + w) == ([c] + ls[0]) + w;
    } else {
      assert padded[0] == ls[0] && padded[1..] == ls[1..][..|ls| - 2] + [ls[|ls| - 1] + w];
      assert r[..|r| - 1] == [[c] + ls[0]] + ls[1..][..|ls| - 2];
    }
  }

  lemma {:induction false} SpaceLinesAreBlank(w: string)
    requires AllSpace(w)
    ensures forall l :: l in Lines(w) ==> IsBlank(l)
  {
    if w == [] {
      EmptyIsBlank();
    } else {
      assert w[0] in w && forall c :: c in w[1..] ==> c in w;
      SpaceLinesAreBlank(w[1..]);
      var r := Lines(w[1..]);
      assert r[0] in r;
      BlankMeansAllSpace(r[0]);
      BlankMeansAllSpace([w[0]] + r[0]);
      EmptyIsBlank();
      forall l | l in Lines(w) ensures IsBlank(l) {
        if w[0] != '\n' { assert l == [w[0]] + r[0] || l in r[1..]; }
      }
    }
  }

  lemma {:induction false} LastLineEnds(t: string)
    requires t != [] && t[|t| - 1] != '\n'
    ensures var ls := Lines(t);
            ls[|ls| - 1] != [] && ls[|ls| - 1][|ls[|ls| - 1]| - 1] == t[|t| - 1]
    decreases |t|
  {
    if |t| == 1 {
      LineIsItself(t);
    } else {
      LastLineEnds(t[1..]);
      PushKeepsEnd(t[0], Lines(t[1..]));
    }
  }

  lemma PushKeepsEnd(c: char, ls: seq<string>)
    requires ls != [] && ls[|ls| - 1] != []
    ensures var l, m := ls[|ls| - 1], Push(c, ls)[|Push(c, ls)| - 1];
            m != [] && m[|m| - 1] == l[|l| - 1]
  {
    if c != '\n' && |ls| > 1 { assert Push(c, ls)[|ls| - 1] == ls[|ls| - 1]; }
  }

  lemma {:induction false} TrimEndPad(s: string, w: string)
    requires s != [] && !IsSpace(s[|s| - 1]) && AllSpace(w)
    ensures TrimEnd(s + w) == s
    decreases |w|
  {
    if w == [] {
      assert s + w == s;
    } else {
      assert w[|w| - 1] in w;
      assert forall c :: c in w[..|w| - 1] ==> c in w;
      TrimEndPad(s, w[..|w| - 1]);
      assert (s + w)[..|s + w| - 1] == s + w[..|w| - 1];
    }
  }

  lemma NotBlankEnd(l: string)
    requires l != [] && !IsSpace(l[|l| - 1])
    ensures !IsBlank(l)
  {
    BlankMeansAllSpace(l);
  }

  lemma JoinPad(ls: seq<string>, l: string, w: string)
    ensures Join(ls + [l + w]) == Join(ls + [l]) + w
  {
    if ls == [] {
      assert ls + [l + w] == [l + w] && ls + [l] == [l];
    } else {
      JoinConcat(ls, [l + w]);
      JoinConcat(ls, [l]);
      assert Join(ls) + "\n" + (l + w) == Join(ls) + "\n" + l + w;
    }
  }

  lemma JoinEnds(ls: seq<string>, l: string)
    requires l != []
    ensures var t := Join(ls + [l]); t != [] && t[|t| - 1] == l[|l| - 1]
  {
    if ls == [] { assert ls + [l] == [l]; } else { JoinConcat(ls, [l]); }
  }

  lemma PaddedBlock(key: string, init: seq<string>, l: string, w: string)
    requires l != [] && !IsSpace(l[|l| - 1]) && AllSpace(w)
    ensures BlockText(Block(key, init + [l])) == TrimEnd(BlockText(Block(key, init + [l + w])))
  {
    NotBlankEnd(l);
    NotBlankPad(l, w);
    JoinPad(init, l, w);
    JoinEnds(init, l);
    TrimEndPad(Join(init + [l]), w);
    assert DropBlankTail(init + [l]) == init + [l] && DropBlankTail(init + [l + w]) == init + [l + w];
  }

  lemma TrimLastView(bs: seq<Block>, a: Block, b: Block)
    requires a.key == b.key && BlockText(a) == TrimEnd(BlockText(b))
    ensures View(bs + [a]) == TrimLast(View(bs + [b]))
  {
    ViewConcat(bs, [a]);
    ViewConcat(bs, [b]);
  }

  lemma PaddedAdd(bs: seq<Block>, l: string, w: string)
    requires l != [] && !IsSpace(l[|l| - 1]) && AllSpace(w)
    ensures View(AddLine(bs, l)) == TrimLast(View(AddLine(bs, l + w)))
  {
    KeyIgnoresPadding(l, w);
    var k := TopLevelKeyOf(l);
    if k.Some? {
      PaddedBlock(k.value, [], l, w);
      assert [] + [l] == [l] && [] + [l + w] == [l + w];
      TrimLastView(bs, Block(k.value, [l]), Block(k.value, [l + w]));
    } else if bs != [] {
      var init, b := bs[..|bs| - 1], bs[|bs| - 1];
      PaddedBlock(b.key, b.lines, l, w);
      TrimLastView(init, b.(lines := b.lines + [l]), b.(lines := b.lines + [l + w]));
    }
  }

  /** Padding the last line pads the text of the last block. */
  lemma PaddedLastLine(ls: seq<string>, l: string, w: string)
    requires l != [] && !IsSpace(l[|l| - 1]) && AllSpace(w)
    ensures View(Blocks(ls + [l])) == TrimLast(View(Blocks(ls + [l + w])))
  {
    assert (ls + [l])[..|ls|] == ls && (ls + [l + w])[..|ls|] == ls;
    PaddedAdd(Blocks(ls), l, w);
  }

  lemma NotBlankPad(l: string, w: string)
    requires l != [] && !IsSpace(l[|l| - 1])
    ensures !IsBlank(l + w)
  {
    BlankMeansAllSpace(l + w);
    assert (l + w)[|l| - 1] == l[|l| - 1];
  }

  lemma SplitAllSpace(w: string)
    requires AllSpace(w)
    ensures Split(w) == []
  {
    SpaceLinesAreBlank(w);
    BlankLinesInvisible([], Lines(w));
    assert [] + Lines(w) == Lines(w);
  }

  lemma CutAtNewline(s: string, w: string, i: nat)
    requires i < |w| && w[i] == '\n'
    ensures s + w == (s + w[..i]) + "\n" + w[i + 1..]
  {
  }

  lemma SplitPadded(s: string, w: string)
    requires s != [] && !IsSpace(s[|s| - 1]) && AllSpace(w)
    ensures Split(s) == TrimLast(Split(s + w))
  {
    var i := FirstNewline(w);
    var w0 := w[..i];
    assert forall c :: c in w0 ==> c in w;
    PaddedText(s, w0);
    if i < |w| {
      var rest := w[i + 1..];
      assert forall c :: c in rest ==> c in w;
      SpaceLinesAreBlank(rest);
      CutAtNewline(s, w, i);
      LinesConcat(s + w0, rest);
      BlankLinesInvisible(Lines(s + w0), Lines(rest));
    } else {
      assert w0 == w;
    }
  }

  /** Cutting the whitespace at the end of a file trims its last block and nothing else. */
  lemma SplitTrimEnd(t: string)
    ensures Split(TrimEnd(t)) == TrimLast(Split(t))
  {
    TrimEndCuts(t);
    var s := TrimEnd(t);
    var w := t[|s|..];
    assert t == s + w && AllSpace(w);
    if s == [] {
      assert t == w;
      SplitAllSpace(w);
      SplitAllSpace([]);
    } else {
      SplitPadded(s, w);
    }
  }

  function FirstNewline(w: string): (i: nat)
    ensures i <= |w| && '\n' !in w[..i] && (i < |w| ==> w[i] == '\n')
  {
    if w == [] || w[0] == '\n' then 0
    else
      var j := FirstNewline(w[1..]);
      assert w[..j + 1] == [w[0]] + w[1..][..j];
      j + 1
  }

  lemma PaddedText(s: string, w: string)
    requires s != [] && !IsSpace(s[|s| - 1]) && AllSpace(w) && OneLine(w)
    ensures Split(s) == TrimLast(Split(s + w))
  {
    LinesPad(s, w);
    var ls := Lines(s);
    EndsInText(s);
    PaddedLastLine(ls[..|ls| - 1], ls[|ls| - 1], w);
    LastApart(ls);
  }

  lemma LastApart(ls: seq<string>)
    requires ls != []
    ensures ls == ls[..|ls| - 1] + [ls[|ls| - 1]]
  {
  }

  lemma EndsInText(s: string)
    requires s != [] && !IsSpace(s[|s| - 1])
    ensures var l := Lines(s)[|Lines(s)| - 1]; l != [] && !IsSpace(l[|l| - 1])
  {
    LastLineEnds(s);
  }

  // ----- Keys and texts of concatenated blocks -----

  lemma {:induction false} KeysMeaning(es: seq<Entry>)
    ensures Distinct(Keys(es))
    ensures forall k :: k in Keys(es) <==> k in Texts(es)
    ensures forall k :: k in Keys(es) <==> exists e :: e in es && e.key == k
    ensures forall k :: k in Texts(es) ==> Entry(k, Texts(es)[k]) in es
  {
    if es != [] {
      var init, last := es[..|es| - 1], es[|es| - 1];
      KeysMeaning(init);
      assert es == init + [last];
      assert last in es;
    }
  }

  lemma Snoc(es: seq<Entry>, e: Entry)
    ensures Keys(es + [e]) == if e.key in Keys(es) then Keys(es) else Keys(es) + [e.key]
    ensures Texts(es + [e]) == Texts(es)[e.key := e.text]
  {
    assert (es + [e])[..|es|] == es;
  }

  lemma TrimLastSnoc(init: seq<Entry>, last: Entry, t: string)
    ensures Keys(init + [last.(text := t)]) == Keys(init + [last])
    ensures last.key in Texts(init + [last]) && Texts(init + [last])[last.key] == last.text
    ensures Texts(init + [last.(text := t)]) == Texts(init + [last])[last.key := t]
  {
    Snoc(init, last);
    Snoc(init, last.(text := t));
  }

  lemma TrimLastMeaning(es: seq<Entry>)
    ensures Keys(TrimLast(es)) == Keys(es)
    ensures es != [] ==> var last := es[|es| - 1];
                         && last.key in Texts(es) && Texts(es)[last.key] == last.text
                         && Texts(TrimLast(es)) == Texts(es)[last.key := TrimEnd(last.text)]
  {
    if es != [] {
      TrimSnocMeaning(es[..|es| - 1], es[|es| - 1]);
      CutEntries(es);
    }
  }

  lemma CutEntries(es: seq<Entry>)
    requires es != []
    ensures es[..|es| - 1] + [es[|es| - 1]] == es
  {
  }

  lemma TrimSnocMeaning(init: seq<Entry>, last: Entry)
    ensures Keys(TrimLast(init + [last])) == Keys(init + [last])
    ensures last.key in Texts(init + [last]) && Texts(init + [last])[last.key] == last.text
    ensures Texts(TrimLast(init + [last])) == Texts(init + [last])[last.key := TrimEnd(last.text)]
  {
    TrimLastSnoc(init, last, TrimEnd(last.text));
    TrimLastIs(init, last);
  }

  lemma TrimLastIs(init: seq<Entry>, last: Entry)
    ensures TrimLast(init + [last]) == init + [last.(text := TrimEnd(last.text))]
  {
  }

  /** The entries for a list of keys, with their texts from a block map. */
  function Picked(ks: seq<string>, texts: map<string, string>): seq<Entry>
    requires forall k :: k in ks ==> k in texts
  {
    seq(|ks|, i requires 0 <= i < |ks| => assert ks[i] in ks; Entry(ks[i], texts[ks[i]]))
  }

  /** The part of a block map at the given keys. */
  function At(ks: seq<string>, texts: map<string, string>): map<string, string> {
    map k | k in ks && k in texts :: texts[k]
  }

  lemma AtSnoc(m: map<string, string>, init: seq<string>, last: string, texts: map<string, string>)
    requires last in texts
    ensures (m + At(init, texts))[last := texts[last]] == m + At(init + [last], texts)
  {
  }

  lemma PickedSnoc(init: seq<string>, last: string, texts: map<string, string>)
    requires last in texts && forall k :: k in init ==> k in texts
    ensures Picked(init + [last], texts) == Picked(init, texts) + [Entry(last, texts[last])]
  {
  }

  lemma NewKey(es: seq<Entry>, before: seq<Entry>, init: seq<string>, last: string, texts: map<string, string>)
    requires last in texts && (forall k :: k in init ==> k in texts) && last !in Keys(es) && last !in init
    requires Keys(before) == Keys(es) + init && Texts(before) == Texts(es) + At(init, texts)
    ensures Keys(before + [Entry(last, texts[last])]) == Keys(es) + (init + [last])
    ensures Texts(before + [Entry(last, texts[last])]) == Texts(es) + At(init + [last], texts)
  {
    Snoc(before, Entry(last, texts[last]));
    AtSnoc(Texts(es), init, last, texts);
    assert Keys(es) + (init + [last]) == (Keys(es) + init) + [last];
  }

  lemma DistinctInit(ks: seq<string>, init: seq<string>, last: string)
    requires Distinct(ks) && ks == init + [last]
    ensures Distinct(init) && last !in init && last in ks && forall k :: k in init ==> k in ks
  {
    assert forall i :: 0 <= i < |init| ==> ks[i] == init[i];
    assert ks[|init|] == last;
  }

  lemma SnocAssociate(a: seq<Entry>, b: seq<Entry>, e: Entry)
    ensures a + (b + [e]) == (a + b) + [e]
  {
  }

  lemma {:induction false} NewKeys(es: seq<Entry>, ks: seq<string>, texts: map<string, string>)
    requires Distinct(ks) && forall k :: k in ks ==> k in texts && k !in Keys(es)
    ensures Keys(es + Picked(ks, texts)) == Keys(es) + ks
    ensures Texts(es + Picked(ks, texts)) == Texts(es) + At(ks, texts)
    decreases |ks|
  {
    if ks == [] {
      assert es + Picked(ks, texts) == es && Keys(es) + ks == Keys(es);
      assert Texts(es) + At([], texts) == Texts(es);
    } else {
      var init, last := ks[..|ks| - 1], ks[|ks| - 1];
      DistinctInit(ks, init, last);
      NewKeys(es, init, texts);
      NewKey(es, es + Picked(init, texts), init, last, texts);
      PickedSnoc(init, last, texts);
      SnocAssociate(es, Picked(init, texts), Entry(last, texts[last]));
    }
  }

  // ----- The sync candidate -----

  function Missing(render: seq<string>, current: seq<string>): seq<string> {
    if render == [] then []
    else
      var rest := Missing(render[..|render| - 1], current);
      if render[|render| - 1] in current then rest else rest + [render[|render| - 1]]
  }

  lemma {:induction false} MissingMeaning(render: seq<string>, current: seq<string>)
    ensures forall k :: k in Missing(render, current) <==> k in render && k !in current
    ensures Distinct(render) ==> Distinct(Missing(render, current))
  {
    if render != [] {
      var init, last := render[..|render| - 1], render[|render| - 1];
      MissingMeaning(init, current);
      assert render == init + [last];
      if Distinct(render) {
        DistinctInit(render, init, last);
        DistinctSnoc(Missing(init, current), last);
      }
    }
  }

  /** One key comes before another here only if it does so there. */
  ghost predicate InOrder(ks: seq<string>, all: seq<string>) {
    forall i, j :: 0 <= i < j < |ks| ==> Precedes(all, ks[i], ks[j])
  }

  ghost predicate Precedes(all: seq<string>, k: string, l: string) {
    exists a, b :: 0 <= a < b < |all| && all[a] == k && all[b] == l
  }

  lemma {:induction false} MissingInOrder(render: seq<string>, current: seq<string>)
    ensures InOrder(Missing(render, current), render)
  {
    if render != [] {
      var init, last := render[..|render| - 1], render[|render| - 1];
      MissingInOrder(init, current);
      MissingMeaning(init, current);
      var ks, before := Missing(render, current), Missing(init, current);
      forall i, j | 0 <= i < j < |ks| ensures Precedes(render, ks[i], ks[j]) {
        if j < |before| {
          var a, b :| 0 <= a < b < |init| && init[a] == before[i] && init[b] == before[j];
          assert render[a] == ks[i] && render[b] == ks[j];
        } else {
          assert before[i] in before;
          var a :| 0 <= a < |init| && init[a] == before[i];
          assert render[a] == ks[i] && render[|init|] == ks[j];
        }
      }
    }
  }

  lemma DistinctSnoc(ks: seq<string>, k: string)
    requires Distinct(ks) && k !in ks
    ensures Distinct(ks + [k])
  {
  }

  function JoinTexts(ks: seq<string>, texts: map<string, string>): string
    requires ks != [] && forall k :: k in ks ==> k in texts
  {
    assert ks[0] in ks;
    if |ks| == 1 then texts[ks[0]]
    else
      assert forall k :: k in ks[1..] ==> k in ks;
      texts[ks[0]] + "\n\n" + JoinTexts(ks[1..], texts)
  }

  function MissingKeys(current: string, render: string): seq<string> {
    Missing(Keys(Split(render)), Keys(Split(current)))
  }

  lemma MissingHaveTexts(current: string, render: string)
    ensures forall k :: k in MissingKeys(current, render) ==> k in Texts(Split(render)) && k !in Keys(Split(current))
    ensures Distinct(MissingKeys(current, render))
  {
    KeysMeaning(Split(render));
    MissingMeaning(Keys(Split(render)), Keys(Split(current)));
  }

  function BuildSyncCandidate(current: string, render: string): string {
    MissingHaveTexts(current, render);
    var missing := MissingKeys(current, render);
    if missing == [] then current
    else TrimEnd(current) + "\n\n" + JoinTexts(missing, Texts(Split(render))) + "\n"
  }

  lemma HeadSplit(key: string, head: string, tail: string)
    requires BlockTextOf(key, head) && Keyed(Lines(tail)[0])
    ensures Split(head + "\n\n" + tail) == [Entry(key, head)] + Split(tail)
    ensures Keyed(Lines(head + "\n\n" + tail)[0])
  {
    BlockTextSplit(key, head);
    SplitSeparated(head, tail);
    SeparatedLines(head, tail);
    BlockStarts(key, head);
    assert Lines(head + "\n\n" + tail)[0] == Lines(head)[0];
  }

  lemma BlockStarts(key: string, text: string)
    requires BlockTextOf(key, text)
    ensures Keyed(Lines(text)[0])
  {
  }

  lemma Associate(a: string, b: string, c: string, d: string)
    ensures (a + b + c) + d == a + b + (c + d)
  {
  }

  lemma FirstLineOf(a: string, b: string)
    ensures Lines(a + "\n" + b)[0] == Lines(a)[0]
  {
    LinesConcat(a, b);
  }

  lemma {:induction false} JoinedTextsSplit(ks: seq<string>, texts: map<string, string>)
    requires ks != [] && forall k :: k in ks ==> k in texts && BlockTextOf(k, texts[k])
    ensures Keyed(Lines(JoinTexts(ks, texts) + "\n")[0])
    ensures Split(JoinTexts(ks, texts) + "\n") == Picked(ks, texts)
    decreases |ks|
  {
    assert ks[0] in ks;
    var head := texts[ks[0]];
    PickedCons(ks, texts);
    if |ks| == 1 {
      OneText(ks[0], head);
    } else {
      assert forall k :: k in ks[1..] ==> k in ks;
      JoinedTextsSplit(ks[1..], texts);
      HeadSplit(ks[0], head, JoinTexts(ks[1..], texts) + "\n");
      Associate(head, "\n\n", JoinTexts(ks[1..], texts), "\n");
    }
  }

  lemma PickedCons(ks: seq<string>, texts: map<string, string>)
    requires ks != [] && forall k :: k in ks ==> k in texts
    ensures ks[0] in texts && (forall k :: k in ks[1..] ==> k in texts)
    ensures Picked(ks, texts) == [Entry(ks[0], texts[ks[0]])] + Picked(ks[1..], texts)
  {
    assert ks[0] in ks && forall k :: k in ks[1..] ==> k in ks;
  }

  lemma OneText(key: string, head: string)
    requires BlockTextOf(key, head)
    ensures Keyed(Lines(head + "\n")[0]) && Split(head + "\n") == [Entry(key, head)]
  {
    BlockTextSplit(key, head);
    BlockStarts(key, head);
    FirstLineOf(head, []);
    assert head + "\n" + [] == head + "\n";
  }

  lemma MissingAreBlockTexts(current: string, render: string)
    ensures forall k :: k in MissingKeys(current, render) ==>
              k in Texts(Split(render)) && BlockTextOf(k, Texts(Split(render))[k])
  {
    MissingHaveTexts(current, render);
    KeysMeaning(Split(render));
    SplitGivesBlockTexts(render);
    forall k | k in MissingKeys(current, render) ensures BlockTextOf(k, Texts(Split(render))[k]) {
      assert Entry(k, Texts(Split(render))[k]) in Split(render);
    }
  }

  /** The candidate's blocks are the current ones, the last one trimmed, followed by the render's blocks that were missing. */
  lemma SyncBlocks(current: string, render: string)
    requires MissingKeys(current, render) != []
    ensures forall k :: k in MissingKeys(current, render) ==> k in Texts(Split(render))
    ensures Split(BuildSyncCandidate(current, render))
         == TrimLast(Split(current)) + Picked(MissingKeys(current, render), Texts(Split(render)))
  {
    MissingAreBlockTexts(current, render);
    var missing, texts := MissingKeys(current, render), Texts(Split(render));
    JoinedTextsSplit(missing, texts);
    AppendedSplit(current, JoinTexts(missing, texts));
  }

  lemma AppendedSplit(current: string, added: string)
    requires Keyed(Lines(added + "\n")[0])
    ensures Split(TrimEnd(current) + "\n\n" + added + "\n") == TrimLast(Split(current)) + Split(added + "\n")
  {
    var s := TrimEnd(current);
    assert s + "\n\n" + added + "\n" == s + "\n\n" + (added + "\n");
    SplitSeparated(s, added + "\n");
    SplitTrimEnd(current);
  }

  /** Keys and block map of the candidate. */
  lemma CandidateMap(current: string, render: string)
    requires MissingKeys(current, render) != []
    ensures forall k :: k in MissingKeys(current, render) ==> k in Texts(Split(render))
    ensures var cand := Split(BuildSyncCandidate(current, render));
            var missing := MissingKeys(current, render);
            && Keys(cand) == Keys(Split(current)) + missing
            && Texts(cand) == Texts(TrimLast(Split(current))) + At(missing, Texts(Split(render)))
  {
    SyncBlocks(current, render);
    MissingHaveTexts(current, render);
    TrimLastMeaning(Split(current));
    NewKeys(TrimLast(Split(current)), MissingKeys(current, render), Texts(Split(render)));
  }

  lemma NothingMissing(render: seq<string>, current: seq<string>)
    requires forall k :: k in render ==> k in current
    ensures Missing(render, current) == []
  {
    MissingMeaning(render, current);
    assert forall i :: 0 <= i < |Missing(render, current)| ==> Missing(render, current)[i] in Missing(render, current);
  }

  /**
    The merge keeps the current text, minus trailing whitespace, as a prefix, and
    appends the missing keys in the order of the render with the render's texts.
  */
  lemma SyncAppends(current: string, render: string)
    ensures var cand := BuildSyncCandidate(current, render);
            var missing := MissingKeys(current, render);
            && TrimEnd(current) <= cand
            && Keys(Split(cand)) == Keys(Split(current)) + missing
            && Agrees(At(missing, Texts(Split(render))), Texts(Split(cand)))
            && (forall k :: k in missing <==> k in Keys(Split(render)) && k !in Keys(Split(current)))
            && InOrder(missing, Keys(Split(render)))
  {
    TrimEndCuts(current);
    MissingMeaning(Keys(Split(render)), Keys(Split(current)));
    MissingInOrder(Keys(Split(render)), Keys(Split(current)));
    if MissingKeys(current, render) == [] {
      assert Keys(Split(current)) + [] == Keys(Split(current));
    } else {
      CandidateMap(current, render);
    }
  }

  /** Merging a second time changes nothing. */
  lemma SyncIdempotent(current: string, render: string)
    ensures BuildSyncCandidate(BuildSyncCandidate(current, render), render) == BuildSyncCandidate(current, render)
  {
    var cand := BuildSyncCandidate(current, render);
    if MissingKeys(current, render) != [] {
      CandidateMap(current, render);
      MissingMeaning(Keys(Split(render)), Keys(Split(current)));
      NothingMissing(Keys(Split(render)), Keys(Split(cand)));
    }
  }

  /** Every current block has the same text in the candidate. */
  ghost predicate KeepsCurrentBlocks(current: string, render: string) {
    Agrees(Texts(Split(current)), Texts(Split(BuildSyncCandidate(current, render))))
  }

  ghost predicate Agrees(a: map<string, string>, b: map<string, string>) {
    forall k :: k in a ==> k in b && b[k] == a[k]
  }

  lemma AgreesIff(m: map<string, string>, k: string, v: string, extra: map<string, string>)
    requires k in m && m.Keys !! extra.Keys
    ensures Agrees(m, m[k := v] + extra) <==> m[k] == v
  {
  }

  /**
    Every current block survives unchanged exactly when nothing is appended or
    the last block does not end in whitespace.
  */
  lemma SyncKeepsBlocksIff(current: string, render: string)
    ensures KeepsCurrentBlocks(current, render)
       <==> || MissingKeys(current, render) == []
            || Split(current) == []
            || var last := Split(current)[|Split(current)| - 1].text; TrimEnd(last) == last
  {
    var es, missing := Split(current), MissingKeys(current, render);
    if es == [] {
      assert Texts(es) == map[];
    } else if missing != [] {
      CandidateMap(current, render);
      TrimLastMeaning(es);
      KeysMeaning(es);
      MissingHaveTexts(current, render);
      var last := es[|es| - 1];
      AgreesIff(Texts(es), last.key, TrimEnd(last.text), At(missing, Texts(Split(render))));
    }
  }

  /** A space after the last value is lost when a key is appended. */
  lemma SyncCanTrimABlock(line: string, c: char, other: string, d: char)
    requires 'a' <= c <= 'z' && |line| >= 3 && line[0] == c && line[1] == ':' && line[|line| - 1] == ' ' && OneLine(line)
    requires 'a' <= d <= 'z' && |other| >= 2 && other[0] == d && other[1] == ':' && OneLine(other) && c != d
    ensures !KeepsCurrentBlocks(line, other)
  {
    SmallConfig(c, line);
    SmallConfig(d, other);
    OneEntryKeys(Entry([c], line));
    OneEntryKeys(Entry([d], other));
    MissingMeaning([[d]], [[c]]);
    assert [d] in [[d]] && [d] !in [[c]];
    TrimEndCuts(line);
    assert TrimEnd(line) != line;
    SyncKeepsBlocksIff(line, other);
  }

  lemma OneEntryKeys(e: Entry)
    ensures Keys([e]) == [e.key]
  {
    Snoc([], e);
    assert [] + [e] == [e];
  }

  lemma SmallConfig(c: char, line: string)
    requires 'a' <= c <= 'z' && |line| >= 2 && line[0] == c && line[1] == ':' && OneLine(line)
    ensures Split(line) == [Entry([c], line)]
  {
    assert IdentLength(line[1..]) == 0;
    assert IdentLength(line) == 1 && line[..1] == [c];
    LineIsItself(line);
    assert OneBlock([c], [line]);
    KeyedIsNotBlank(line);
    BlockTextSplit([c], line);
  }
}
