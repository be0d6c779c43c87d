/** Top-level blocks of the pipeline configuration (core/scripts/config.ts). */
module ConfigMerge {
  import opened Prelude
  import opened TextLines

  // ----- Keys -----

  predicate IdentStart(c: char) {
    'a' <= c <= 'z' || 'A' <= c <= 'Z' || c == '_'
  }

  predicate IdentChar(c: char) {
    IdentStart(c) || '0' <= c <= '9'
  }

  function IdentLength(s: string): (n: nat)
    ensures n <= |s|
  {
    if s == [] || !IdentChar(s[0]) then 0 else 1 + IdentLength(s[1..])
  }

  function Uncommented(line: string): string {
    if line == [] || line[0] != '#' then line
    else if |line| >= 2 && line[1] == ' ' then line[2..]
    else line[1..]
  }

  function IdentKey(s: string): Option<string> {
    var n := IdentLength(s);
    if n > 0 && IdentStart(s[0]) && n < |s| && s[n] == ':' then Some(s[..n]) else None
  }

  function TopLevelKeyOf(line: string): Option<string> {
    IdentKey(Uncommented(line))
  }

  /** A letter or underscore, then letters, digits and underscores. */
  ghost predicate Identifier(k: string) {
    && k != [] && !('0' <= k[0] <= '9')
    && forall i :: 0 <= i < |k| ==> 'a' <= k[i] <= 'z' || 'A' <= k[i] <= 'Z' || '0' <= k[i] <= '9' || k[i] == '_'
  }

  /** The key and a colon at the start of the text. */
  ghost predicate StartsWithKey(s: string, k: string) {
    |k| < |s| && s[..|k|] == k && s[|k|] == ':'
  }

  lemma {:induction false} IdentLengthMeaning(s: string)
    ensures forall i :: 0 <= i < IdentLength(s) ==> IdentChar(s[i])
    ensures IdentLength(s) < |s| ==> !IdentChar(s[IdentLength(s)])
  {
    if s != [] && IdentChar(s[0]) {
      IdentLengthMeaning(s[1..]);
      assert forall i :: 1 <= i < IdentLength(s) ==> s[i] == s[1..][i - 1];
    }
  }

  lemma IdentKeyIff(s: string, k: string)
    ensures IdentKey(s) == Some(k) <==> Identifier(k) && StartsWithKey(s, k)
  {
    IdentLengthMeaning(s);
    var n := IdentLength(s);
    if Identifier(k) && StartsWithKey(s, k) {
      assert forall i :: 0 <= i < |k| ==> s[i] == k[i];
      assert n == |k|;
    }
  }

  /** A line declares a key if and only if it starts with it and a colon, as it is or after `#` or `# `. */
  lemma TopLevelKeyIff(line: string, k: string)
    ensures TopLevelKeyOf(line) == Some(k) <==>
            Identifier(k) && (|| StartsWithKey(line, k)
                              || (line != [] && line[0] == '#' && StartsWithKey(line[1..], k))
                              || (|line| >= 2 && line[0] == '#' && line[1] == ' ' && StartsWithKey(line[2..], k)))
  {
    IdentKeyIff(Uncommented(line), k);
    if |line| >= 2 && line[0] == '#' && line[1] == ' ' && StartsWithKey(line[1..], k) && k != [] {
      assert line[1..][0] == ' ' && line[1..][..|k|][0] == k[0];
    }
    if line != [] && line[0] == '#' && StartsWithKey(line, k) && k != [] {
      assert line[..|k|][0] == k[0];
    }
  }

  /** An active line and a commented one declare the same key. */
  lemma CommentedDeclaresSame(line: string, k: string)
    requires Identifier(k) && StartsWithKey(line, k)
    ensures TopLevelKeyOf(line) == Some(k) && TopLevelKeyOf("# " + line) == Some(k) && TopLevelKeyOf("#" + line) == Some(k)
  {
    TopLevelKeyIff(line, k);
    TopLevelKeyIff("# " + line, k);
    TopLevelKeyIff("#" + line, k);
    CommentDropped(line);
  }

  lemma CommentDropped(line: string)
    ensures ("# " + line)[2..] == line && ("#" + line)[1..] == line
  {
  }

  lemma {:induction false} IdentLengthPad(s: string, w: string)
    requires AllSpace(w)
    ensures IdentLength(s + w) == IdentLength(s)
  {
    if s == [] {
      assert s + w == w;
      if w != [] { assert w[0] in w; }
    } else {
      assert (s + w)[1..] == s[1..] + w;
      IdentLengthPad(s[1..], w);
    }
  }

  lemma IdentKeyPad(s: string, w: string)
    requires AllSpace(w)
    ensures IdentKey(s + w) == IdentKey(s)
  {
    IdentLengthPad(s, w);
    var n := IdentLength(s);
    assert (s + w)[..n] == s[..n];
    if n == |s| && w != [] { assert w[0] in w; }
  }

  /** Trailing whitespace does not change the key of a line. */
  lemma KeyIgnoresPadding(line: string, w: string)
    requires AllSpace(w)
    ensures TopLevelKeyOf(line + w) == TopLevelKeyOf(line)
  {
    if line == [] {
      assert line + w == w;
      if w != [] { assert w[0] in w; }
      IdentKeyPad([], w);
      assert [] + w == w;
    } else if line == "#" && w != [] && w[0] == ' ' {
      assert (line + w)[2..] == w[1..];
      assert forall c :: c in w[1..] ==> c in w;
      IdentKeyPad([], w[1..]);
      assert [] + w[1..] == w[1..];
    } else {
      assert Uncommented(line + w) == Uncommented(line) + w;
      IdentKeyPad(Uncommented(line), w);
    }
  }

  lemma BlankHasNoKey(line: string)
    requires IsBlank(line)
    ensures TopLevelKeyOf(line).None?
  {
    BlankMeansAllSpace(line);
    if line != [] { assert IsSpace(line[0]); }
  }

  // ----- Blocks -----

  datatype Block = Block(key: string, lines: seq<string>)

  function AddLine(bs: seq<Block>, line: string): seq<Block> {
    var k := TopLevelKeyOf(line);
    if k.Some? then bs + [Block(k.value, [line])]
    else if bs == [] then []
    else bs[..|bs| - 1] + [bs[|bs| - 1].(lines := bs[|bs| - 1].lines + [line])]
  }

  /** The blocks of a list of lines, in order; lines before the first key belong to none. */
  function Blocks(ls: seq<string>): seq<Block> {
    if ls == [] then [] else AddLine(Blocks(ls[..|ls| - 1]), ls[|ls| - 1])
  }

  function DropBlankTail(ls: seq<string>): seq<string> {
    if ls != [] && IsBlank(ls[|ls| - 1]) then DropBlankTail(ls[..|ls| - 1]) else ls
  }

  function BlockText(b: Block): string {
    Join(DropBlankTail(b.lines))
  }

  /** A top-level key and the text of its block. */
  datatype Entry = Entry(key: string, text: string)

  function View(bs: seq<Block>): (es: seq<Entry>)
    ensures |es| == |bs|
  {
    seq(|bs|, i requires 0 <= i < |bs| => Entry(bs[i].key, BlockText(bs[i])))
  }

  /** The blocks of a text, as key and text, with repeated keys kept. */
  function Split(text: string): seq<Entry> {
    View(Blocks(Lines(text)))
  }

  function Keys(es: seq<Entry>): seq<string> {
    if es == [] then []
    else
      var ks := Keys(es[..|es| - 1]);
      if es[|es| - 1].key in ks then ks else ks + [es[|es| - 1].key]
  }

  function Texts(es: seq<Entry>): map<string, string> {
    if es == [] then map[] else Texts(es[..|es| - 1])[es[|es| - 1].key := es[|es| - 1].text]
  }

  function Optional(b: Option<Block>): seq<Block> {
    if b.Some? then [b.value] else []
  }

  /** One line more, when the block being collected is kept apart from the finished ones. */
  lemma AddLineStep(done: seq<Block>, cur: Option<Block>, line: string, k: Option<string>)
    requires k == TopLevelKeyOf(line) && (cur.None? ==> done == [])
    ensures AddLine(done + Optional(cur), line)
         == if k.Some? then (done + Optional(cur)) + [Block(k.value, [line])]
            else if cur.Some? then done + [cur.value.(lines := cur.value.lines + [line])] else []
  {
    if cur.Some? { assert (done + [cur.value])[..|done|] == done; }
  }

  lemma BlocksSnoc(ls: seq<string>, i: nat)
    requires i < |ls|
    ensures Blocks(ls[..i + 1]) == AddLine(Blocks(ls[..i]), ls[i])
  {
    assert ls[..i + 1][..i] == ls[..i];
  }

  /** The ordered map of the source: keys in order of first appearance, the last text of each. */
  method SplitTopLevelBlocks(text: string) returns (keys: seq<string>, blocks: map<string, string>)
    ensures keys == Keys(Split(text)) && blocks == Texts(Split(text))
  {
    var ls := Lines(text);
    keys, blocks := [], map[];
    var current: Option<Block> := None;
    ghost var done: seq<Block> := [];
    for i := 0 to |ls|
      invariant keys == Keys(View(done)) && blocks == Texts(View(done))
      invariant Blocks(ls[..i]) == done + Optional(current)
      invariant current.None? ==> done == []
    {
      var key := TopLevelKeyOf(ls[i]);
      BlocksSnoc(ls, i);
      AddLineStep(done, current, ls[i], key);
      if key.Some? {
        keys, blocks := Flush(keys, blocks, current, done);
        done := done + Optional(current);
        current := Some(Block(key.value, [ls[i]]));
      } else if current.Some? {
        current := Some(current.value.(lines := current.value.lines + [ls[i]]));
      }
    }
    assert ls[..|ls|] == ls;
    keys, blocks := Flush(keys, blocks, current, done);
  }

  method Flush(keys: seq<string>, blocks: map<string, string>, current: Option<Block>, ghost done: seq<Block>)
    returns (keys': seq<string>, blocks': map<string, string>)
    requires keys == Keys(View(done)) && blocks == Texts(View(done))
    ensures keys' == Keys(View(done + Optional(current))) && blocks' == Texts(View(done + Optional(current)))
  {
    keys', blocks' := keys, blocks;
    if current.None? {
      assert done + [] == done;
      return;
    }
    assert View(done + [current.value])[..|done|] == View(done);
    var lines := current.value.lines;
    while lines != [] && IsBlank(lines[|lines| - 1])
      invariant DropBlankTail(lines) == DropBlankTail(current.value.lines)
      decreases |lines|
    {
      lines := lines[..|lines| - 1];
    }
    if current.value.key !in keys { keys' := keys + [current.value.key]; }
    blocks' := blocks[current.value.key := Join(lines)];
  }

  // ----- Algebra of blocks -----

  predicate Keyed(line: string) {
    TopLevelKeyOf(line).Some?
  }

  predicate StartsKeyed(ls: seq<string>) {
    ls == [] || Keyed(ls[0])
  }

  lemma AddLineRight(a: seq<Block>, b: seq<Block>, line: string)
    requires b != [] || Keyed(line)
    ensures AddLine(a + b, line) == a + AddLine(b, line)
  {
    if b != [] { assert (a + b)[..|a + b| - 1] == a + b[..|b| - 1]; }
  }

  lemma BlocksAdd(ls: seq<string>, line: string)
    ensures Blocks(ls + [line]) == AddLine(Blocks(ls), line)
  {
    assert (ls + [line])[..|ls|] == ls;
  }

  lemma ConcatStep(a: seq<string>, init: seq<string>, last: string)
    requires Blocks(a + init) == Blocks(a) + Blocks(init) && (init == [] ==> Keyed(last)) && (init != [] ==> Blocks(init) != [])
    ensures Blocks((a + init) + [last]) == Blocks(a) + Blocks(init + [last]) && Blocks(init + [last]) != []
  {
    BlocksAdd(a + init, last);
    BlocksAdd(init, last);
    AddLineRight(Blocks(a), Blocks(init), last);
  }

  lemma {:induction false} BlocksConcat(a: seq<string>, b: seq<string>)
    requires StartsKeyed(b)
    ensures Blocks(a + b) == Blocks(a) + Blocks(b)
    ensures b != [] ==> Blocks(b) != []
    decreases |b|
  {
    if b == [] {
      assert a + b == a;
    } else {
      var n := |b| - 1;
      BlocksConcat(a, b[..n]);
      ConcatStep(a, b[..n], b[n]);
      CutLast(a, b);
    }
  }

  lemma CutLast(a: seq<string>, b: seq<string>)
    requires b != []
    ensures a + b == (a + b[..|b| - 1]) + [b[|b| - 1]] && b == b[..|b| - 1] + [b[|b| - 1]]
  {
  }

  /** A keyed line followed by lines without a key. */
  predicate OneBlock(key: string, ls: seq<string>) {
    ls != [] && TopLevelKeyOf(ls[0]) == Some(key) && forall i :: 1 <= i < |ls| ==> !Keyed(ls[i])
  }

  lemma {:induction false} OneBlockBlocks(key: string, ls: seq<string>)
    requires OneBlock(key, ls)
    ensures Blocks(ls) == [Block(key, ls)]
  {
    if |ls| == 1 {
      assert Blocks(ls[..0]) == [] && ls == [ls[0]];
    } else {
      var init := ls[..|ls| - 1];
      assert init[0] == ls[0];
      OneBlockBlocks(key, init);
      assert ls == init + [ls[|ls| - 1]];
    }
  }

  ghost predicate Shaped(bs: seq<Block>, ls: seq<string>) {
    forall b :: b in bs ==> OneBlock(b.key, b.lines) && forall l :: l in b.lines ==> l in ls
  }

  lemma {:induction false} BlocksShape(ls: seq<string>)
    ensures forall b :: b in Blocks(ls) ==> OneBlock(b.key, b.lines) && forall l :: l in b.lines ==> l in ls
    ensures Blocks(ls) == [] <==> forall l :: l in ls ==> !Keyed(l)
  {
    if ls != [] {
      var init, last := ls[..|ls| - 1], ls[|ls| - 1];
      BlocksShape(init);
      assert ls == init + [last];
      BlocksAdd(init, last);
      ShapedAdd(Blocks(init), init, last);
      assert Shaped(Blocks(ls), ls);
    }
  }

  lemma ShapedAdd(bs: seq<Block>, ls: seq<string>, last: string)
    requires Shaped(bs, ls)
    ensures Shaped(AddLine(bs, last), ls + [last])
    ensures AddLine(bs, last) == [] <==> bs == [] && !Keyed(last)
  {
    if !Keyed(last) && bs != [] {
      var b := bs[|bs| - 1];
      assert b in bs;
      assert OneBlock(b.key, b.lines + [last]);
      assert forall x :: x in AddLine(bs, last) ==> x in bs || x == b.(lines := b.lines + [last]);
    }
  }

  lemma ViewConcat(a: seq<Block>, b: seq<Block>)
    ensures View(a + b) == View(a) + View(b)
  {
  }

  lemma DropBlankLast(ls: seq<string>, line: string)
    requires IsBlank(line)
    ensures DropBlankTail(ls + [line]) == DropBlankTail(ls)
  {
    assert (ls + [line])[..|ls|] == ls;
  }

  /** A blank line after the last block is invisible. */
  lemma BlankLineInvisible(ls: seq<string>, line: string)
    requires IsBlank(line)
    ensures View(Blocks(ls + [line])) == View(Blocks(ls))
  {
    BlankHasNoKey(line);
    assert (ls + [line])[..|ls|] == ls;
    var bs := Blocks(ls);
    if bs != [] {
      var b := bs[|bs| - 1];
      DropBlankLast(b.lines, line);
      assert bs == bs[..|bs| - 1] + [b];
      ViewConcat(bs[..|bs| - 1], [b]);
      ViewConcat(bs[..|bs| - 1], [b.(lines := b.lines + [line])]);
    }
  }

  lemma {:induction false} BlankLinesInvisible(ls: seq<string>, blanks: seq<string>)
    requires forall l :: l in blanks ==> IsBlank(l)
    ensures View(Blocks(ls + blanks)) == View(Blocks(ls))
  {
    if blanks == [] {
      assert ls + blanks == ls;
    } else {
      var last := |blanks| - 1;
      assert ls + blanks == (ls + blanks[..last]) + [blanks[last]];
      BlankLineInvisible(ls + blanks[..last], blanks[last]);
      BlankLinesInvisible(ls, blanks[..last]);
    }
  }

  lemma EmptyIsBlank()
    ensures IsBlank([])
  {
  }

  lemma KeyedIsNotBlank(line: string)
    requires Keyed(line)
    ensures !IsBlank(line)
  {
    if IsBlank(line) { BlankHasNoKey(line); }
  }

  // ----- Block texts -----

  /** A text that is one block of this key and does not end in a blank line. */
  ghost predicate BlockTextOf(key: string, text: string) {
    OneBlock(key, Lines(text)) && !IsBlank(Lines(text)[|Lines(text)| - 1])
  }

  lemma {:induction false} DropBlankKeepsBlock(key: string, ls: seq<string>)
    requires OneBlock(key, ls)
    ensures OneBlock(key, DropBlankTail(ls)) && DropBlankTail(ls) <= ls
    ensures !IsBlank(DropBlankTail(ls)[|DropBlankTail(ls)| - 1])
  {
    if IsBlank(ls[|ls| - 1]) {
      KeyedIsNotBlank(ls[0]);
      DropBlankKeepsBlock(key, ls[..|ls| - 1]);
    }
  }

  lemma SplitGivesBlockTexts(text: string)
    ensures forall e :: e in Split(text) ==> BlockTextOf(e.key, e.text)
  {
    var ls := Lines(text);
    var bs := Blocks(ls);
    LinesAreLines(text);
    BlocksShape(ls);
    forall i | 0 <= i < |bs| ensures BlockTextOf(bs[i].key, BlockText(bs[i])) {
      var b := bs[i];
      assert b in bs;
      DropBlankKeepsBlock(b.key, b.lines);
      var kept := DropBlankTail(b.lines);
      assert forall l :: l in kept ==> l in b.lines;
      LinesJoin(kept);
    }
  }

  lemma BlockTextSplit(key: string, text: string)
    requires BlockTextOf(key, text)
    ensures Split(text) == [Entry(key, text)] && Split(text + "\n") == [Entry(key, text)]
  {
    var ls := Lines(text);
    OneBlockBlocks(key, ls);
    JoinLines(text);
    assert View([Block(key, ls)]) == [Entry(key, text)];
    LinesConcat(text, []);
    assert text + "\n" + [] == text + "\n";
    EmptyIsBlank();
    BlankLineInvisible(ls, []);
  }

  lemma SeparatedLines(a: string, b: string)
    ensures Lines(a + "\n\n" + b) == (Lines(a) + [[]]) + Lines(b)
  {
    assert a + "\n\n" + b == a + "\n" + ([] + "\n" + b);
    LinesConcat(a, [] + "\n" + b);
    LinesConcat([], b);
    assert Lines([]) == [[]];
    assert Lines(a) + ([[]] + Lines(b)) == (Lines(a) + [[]]) + Lines(b);
  }

  lemma SeparatedBlocks(la: seq<string>, lb: seq<string>)
    requires StartsKeyed(lb)
    ensures View(Blocks((la + [[]]) + lb)) == View(Blocks(la)) + View(Blocks(lb))
  {
    EmptyIsBlank();
    BlankLineInvisible(la, []);
    BlocksConcat(la + [[]], lb);
    ViewConcat(Blocks(la + [[]]), Blocks(lb));
  }

  lemma SplitSeparated(a: string, b: string)
    requires Keyed(Lines(b)[0])
    ensures Split(a + "\n\n" + b) == Split(a) + Split(b)
  {
    SeparatedLines(a, b);
    SeparatedBlocks(Lines(a), Lines(b));
  }
}
