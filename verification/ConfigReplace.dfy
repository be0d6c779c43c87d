/** Rewriting or appending one top-level block (core/scripts/config.ts). */
module ConfigReplace {
  import opened Prelude
  import opened TextLines
  import opened ConfigMerge
  import opened ConfigSync

  function FirstWithKey(ls: seq<string>, key: string, i: nat): (r: nat)
    requires i <= |ls|
    ensures i <= r <= |ls| && (r < |ls| ==> TopLevelKeyOf(ls[r]) == Some(key))
    ensures forall k :: i <= k < r ==> TopLevelKeyOf(ls[k]) != Some(key)
    decreases |ls| - i
  {
    if i == |ls| || TopLevelKeyOf(ls[i]) == Some(key) then i else FirstWithKey(ls, key, i + 1)
  }

  function NextKeyed(ls: seq<string>, i: nat): (r: nat)
    requires i <= |ls|
    ensures i <= r <= |ls| && (r < |ls| ==> Keyed(ls[r])) && forall k :: i <= k < r ==> !Keyed(ls[k])
    decreases |ls| - i
  {
    if i == |ls| || Keyed(ls[i]) then i else NextKeyed(ls, i + 1)
  }

  function StripNewlines(s: string): string {
    if s != [] && s[|s| - 1] == '\n' then StripNewlines(s[..|s| - 1]) else s
  }

  function StripLeading(s: string): string {
    if s != [] && s[0] == '\n' then StripLeading(s[1..]) else s
  }

  function EndLine(s: string): string {
    if s != [] && s[|s| - 1] == '\n' then s else s + "\n"
  }

  function Before(pre: seq<string>): string {
    if pre == [] then [] else Join(pre) + "\n"
  }

  function After(post: seq<string>): string {
    if post == [] then [] else "\n\n" + Join(post)
  }

  /** The rewritten text, from the lines before and after the block. */
  function Rewritten(pre: seq<string>, block: string, post: seq<string>): string {
    EndLine(Before(pre) + block + After(post))
  }

  function Appended(text: string, block: string): string {
    var t := TrimEnd(text);
    if t == [] then block + "\n" else t + "\n\n" + block + "\n"
  }

  function Replace(text: string, key: string, newBlock: string): string {
    var ls, block := Lines(text), StripNewlines(newBlock);
    var start := FirstWithKey(ls, key, 0);
    if start == |ls| then Appended(text, block)
    else Rewritten(ls[..start], block, ls[NextKeyed(ls, start + 1)..])
  }

  method ReplaceOrAppendTopLevelBlock(text: string, key: string, newBlock: string) returns (result: string)
    ensures result == Replace(text, key, newBlock)
  {
    var block := StripNewlines(newBlock);
    var lines := Lines(text);
    var start, end := FindBlock(lines, key);
    if start == -1 {
      return Appended(text, block);
    }
    var afterLines := SkipBlanks(lines, start, end);
    var beforeText := if start == 0 then "" else Join(lines[..start]) + "\n";
    var afterText := StripLeading(Join(afterLines));
    if afterLines != [] {
      KeyedLineText(afterLines);
    }
    result := beforeText + block;
    if StripNewlines(afterText) != [] {
      result := result + ("\n\n" + StripLeading(afterText));
    } else {
      assert result + [] == result;
    }
    result := EndLine(result);
  }

  method FindBlock(lines: seq<string>, key: string) returns (start: int, end: nat)
    ensures var first := FirstWithKey(lines, key, 0);
            if first == |lines| then start == -1 else start == first && end == NextKeyed(lines, first + 1)
  {
    start, end := -1, |lines|;
    var i := 0;
    while i < |lines|
      invariant 0 <= i <= |lines| && end == |lines|
      invariant start == -1 ==> FirstWithKey(lines, key, 0) == FirstWithKey(lines, key, i)
      invariant start != -1 ==> && 0 <= start < i && start == FirstWithKey(lines, key, 0)
                                && NextKeyed(lines, start + 1) == NextKeyed(lines, i)
    {
      var k := TopLevelKeyOf(lines[i]);
      if start == -1 {
        if k == Some(key) { start := i; }
      } else if k.Some? {
        end := i;
        break;
      }
      i := i + 1;
    }
  }

  /** Move the end back over blank lines, then drop the blank lines at the front of what follows. */
  method SkipBlanks(lines: seq<string>, start: nat, next: nat) returns (after: seq<string>)
    requires start < next <= |lines| && Keyed(lines[start]) && (next < |lines| ==> Keyed(lines[next]))
    ensures after == lines[next..]
  {
    var end := next;
    while end > start && IsBlank(lines[end - 1])
      invariant start <= end <= next
      invariant forall i :: end <= i < next ==> IsBlank(lines[i])
    {
      end := end - 1;
    }
    after := lines[end..];
    ghost var dropped := end;
    while after != [] && IsBlank(after[0])
      invariant end <= dropped <= next && after == lines[dropped..]
      decreases |after|
    {
      if dropped == next {
        KeyedIsNotBlank(lines[next]);
      }
      after := after[1..];
      dropped := dropped + 1;
    }
  }

  lemma KeyedLineText(ls: seq<string>)
    requires ls != [] && Keyed(ls[0])
    ensures StripLeading(Join(ls)) == Join(ls) && StripNewlines(Join(ls)) != []
  {
    KeyedStart(ls[0]);
    var t := Join(ls);
    assert t != [] && t[0] == ls[0][0];
    StripNewlinesKeepsStart(t);
  }

  lemma KeyedStart(line: string)
    requires Keyed(line)
    ensures line != [] && line[0] != '\n'
  {
  }

  lemma {:induction false} StripNewlinesKeepsStart(s: string)
    requires s != [] && s[0] != '\n'
    ensures StripNewlines(s) != [] && StripNewlines(s)[0] == s[0]
  {
    if s[|s| - 1] == '\n' { StripNewlinesKeepsStart(s[..|s| - 1]); }
  }

  lemma {:induction false} StripNewlinesEnd(s: string)
    ensures StripNewlines(s) == [] || StripNewlines(s)[|StripNewlines(s)| - 1] != '\n'
  {
    if s != [] && s[|s| - 1] == '\n' { StripNewlinesEnd(s[..|s| - 1]); }
  }

  // ----- What the rewrite does to the blocks -----

  function NewText(block: string): string {
    Join(DropBlankTail(Lines(block)))
  }

  lemma ThreeParts(pre: seq<string>, key: string, mid: seq<string>, post: seq<string>)
    requires OneBlock(key, mid) && StartsKeyed(post)
    ensures View(Blocks(pre + mid + post))
         == View(Blocks(pre)) + [Entry(key, Join(DropBlankTail(mid)))] + View(Blocks(post))
  {
    BlocksConcat(pre + mid, post);
    BlocksConcat(pre, mid);
    OneBlockBlocks(key, mid);
    ViewConcat(Blocks(pre) + Blocks(mid), Blocks(post));
    ViewConcat(Blocks(pre), [Block(key, mid)]);
    assert View([Block(key, mid)]) == [Entry(key, Join(DropBlankTail(mid)))];
  }

  lemma BeforeLines(pre: seq<string>, rest: string)
    requires AllLines(pre)
    ensures Lines(Before(pre) + rest) == pre + Lines(rest)
  {
    if pre == [] {
      assert Before(pre) + rest == rest;
    } else {
      LinesJoin(pre);
      LinesConcat(Join(pre), rest);
    }
  }

  lemma RewrittenParts(pre: seq<string>, block: string, post: seq<string>)
    requires block != []
    ensures Rewritten(pre, block, post) == Before(pre) + EndLine(block + After(post))
  {
    assert (Before(pre) + block) + After(post) == Before(pre) + (block + After(post));
    EndLineConcat(Before(pre), block + After(post));
  }

  /** The lines of the rewritten text: one blank line after the new block, perhaps one at the very end. */
  lemma RewrittenLines(pre: seq<string>, block: string, post: seq<string>)
    requires AllLines(pre) && AllLines(post) && block != [] && block[|block| - 1] != '\n'
    requires post != [] ==> Keyed(post[0])
    ensures var ls := Lines(Rewritten(pre, block, post));
            var mid := Lines(block) + [[]];
            ls == pre + mid + post || (post != [] && ls == pre + mid + (post + [[]]))
  {
    RewrittenParts(pre, block, post);
    BeforeLines(pre, EndLine(block + After(post)));
    BodyLines(block, post);
    Associate3(pre, Lines(block) + [[]], post);
    Associate3(pre, Lines(block) + [[]], post + [[]]);
  }

  lemma Associate3(a: seq<string>, b: seq<string>, c: seq<string>)
    ensures a + (b + c) == a + b + c
  {
  }

  lemma EndLineConcat(a: string, b: string)
    requires b != []
    ensures EndLine(a + b) == a + EndLine(b)
  {
    assert (a + b) + "\n" == a + (b + "\n");
  }

  lemma EndLineLines(t: string)
    ensures Lines(EndLine(t)) == Lines(t) || Lines(EndLine(t)) == Lines(t) + [[]]
    ensures t != [] && t[|t| - 1] != '\n' ==> Lines(EndLine(t)) == Lines(t) + [[]]
  {
    LinesConcat(t, []);
    assert t + "\n" + [] == t + "\n" && Lines([]) == [[]];
  }

  lemma BodyLines(block: string, post: seq<string>)
    requires AllLines(post) && block != [] && block[|block| - 1] != '\n'
    ensures var ls := Lines(EndLine(block + After(post)));
            var mid := Lines(block) + [[]];
            ls == mid + post || (post != [] && ls == mid + (post + [[]]))
  {
    EndLineLines(block + After(post));
    if post == [] {
      assert block + After(post) == block;
    } else {
      LinesJoin(post);
      BlankBetween(block, Join(post));
      Associate3(Lines(block) + [[]], post, [[]]);
    }
  }

  lemma BlankBetween(a: string, b: string)
    ensures Lines(a + ("\n\n" + b)) == (Lines(a) + [[]]) + Lines(b)
  {
    assert a + ("\n\n" + b) == a + "\n\n" + b;
    SeparatedLines(a, b);
  }

  lemma BlankAfterBlock(key: string, ls: seq<string>)
    requires OneBlock(key, ls)
    ensures OneBlock(key, ls + [[]]) && DropBlankTail(ls + [[]]) == DropBlankTail(ls)
  {
    EmptyIsBlank();
    BlankHasNoKey([]);
    DropBlankLast(ls, []);
  }

  lemma BlankAtEnd(pre: seq<string>, key: string, mid: seq<string>, post: seq<string>)
    requires OneBlock(key, mid) && StartsKeyed(post) && post != []
    ensures View(Blocks(pre + mid + (post + [[]]))) == View(Blocks(pre + mid + post))
  {
    EmptyIsBlank();
    ThreeParts(pre, key, mid, post);
    ThreeParts(pre, key, mid, post + [[]]);
    BlankLineInvisible(post, []);
  }

  lemma SwapMiddle(a: seq<Entry>, e: Entry, e': Entry, c: seq<Entry>)
    ensures a + [e'] + c == (a + [e] + c)[|a| := e'] && (a + [e] + c)[|a|] == e
    ensures forall j :: 0 <= j < |a| ==> (a + [e] + c)[j] in a
  {
  }

  /** Rewriting the middle block, on lines. */
  lemma MiddleBlock(pre: seq<string>, key: string, mid: seq<string>, block: string, post: seq<string>)
    requires AllLines(pre) && AllLines(post) && OneBlock(key, mid) && StartsKeyed(post)
    requires OneBlock(key, Lines(block)) && block != [] && block[|block| - 1] != '\n'
    ensures Split(Rewritten(pre, block, post))
         == View(Blocks(pre)) + [Entry(key, NewText(block))] + View(Blocks(post))
  {
    RewrittenLines(pre, block, post);
    BlankAfterBlock(key, Lines(block));
    ThreeParts(pre, key, Lines(block) + [[]], post);
    if post != [] {
      BlankAtEnd(pre, key, Lines(block) + [[]], post);
    }
  }

  lemma Cut(ls: seq<string>, start: nat, end: nat)
    requires start <= end <= |ls|
    ensures ls == ls[..start] + ls[start..end] + ls[end..]
  {
  }

  /** The lines of the file around the first block of a key. */
  lemma Around(ls: seq<string>, key: string, start: nat, end: nat)
    requires start < end <= |ls| && TopLevelKeyOf(ls[start]) == Some(key)
    requires forall k :: start + 1 <= k < end ==> !Keyed(ls[k])
    requires end < |ls| ==> Keyed(ls[end])
    ensures OneBlock(key, ls[start..end]) && StartsKeyed(ls[end..])
  {
  }

  lemma MiddleUpdated(pre: seq<string>, key: string, mid: seq<string>, block: string, post: seq<string>)
    requires AllLines(pre) && AllLines(post) && OneBlock(key, mid) && StartsKeyed(post)
    requires OneBlock(key, Lines(block)) && block != [] && block[|block| - 1] != '\n'
    requires forall e :: e in View(Blocks(pre)) ==> e.key != key
    ensures var es, i := View(Blocks(pre + mid + post)), |Blocks(pre)|;
            && i < |es| && es[i].key == key && (forall j :: 0 <= j < i ==> es[j].key != key)
            && Split(Rewritten(pre, block, post)) == es[i := Entry(key, NewText(block))]
  {
    ThreeParts(pre, key, mid, post);
    MiddleBlock(pre, key, mid, block, post);
    SwapMiddle(View(Blocks(pre)), Entry(key, Join(DropBlankTail(mid))), Entry(key, NewText(block)), View(Blocks(post)));
  }

  /**
    Rewriting a key that is present changes the text of its first block and no
    other block of the file.
  */
  lemma ReplaceChangesOneBlock(text: string, key: string, newBlock: string)
    requires OneBlock(key, Lines(StripNewlines(newBlock)))
    requires FirstWithKey(Lines(text), key, 0) < |Lines(text)|
    ensures var es := Split(text);
            var i := |Blocks(Lines(text)[..FirstWithKey(Lines(text), key, 0)])|;
            && i < |es| && es[i].key == key && (forall j :: 0 <= j < i ==> es[j].key != key)
            && Split(Replace(text, key, newBlock)) == es[i := Entry(key, NewText(StripNewlines(newBlock)))]
  {
    var ls, block := Lines(text), StripNewlines(newBlock);
    var start := FirstWithKey(ls, key, 0);
    var end := NextKeyed(ls, start + 1);
    LinesAreLines(text);
    Cut(ls, start, end);
    Around(ls, key, start, end);
    NoEarlierKey(ls[..start], key);
    BlockNotEmpty(key, block);
    StripNewlinesEnd(newBlock);
    MiddleUpdated(ls[..start], key, ls[start..end], block, ls[end..]);
  }

  lemma BlockNotEmpty(key: string, block: string)
    requires OneBlock(key, Lines(block))
    ensures block != []
  {
    if block == [] {
      EmptyIsBlank();
      BlankHasNoKey([]);
    }
  }

  lemma NoEarlierKey(pre: seq<string>, key: string)
    requires forall k :: 0 <= k < |pre| ==> TopLevelKeyOf(pre[k]) != Some(key)
    ensures forall e :: e in View(Blocks(pre)) ==> e.key != key
  {
    BlocksShape(pre);
    var bs := Blocks(pre);
    forall i | 0 <= i < |bs| ensures bs[i].key != key {
      assert bs[i] in bs;
      assert bs[i].lines[0] in pre;
    }
  }

  /** Rewriting an absent key appends its block; the block before it loses its trailing whitespace. */
  lemma ReplaceAppends(text: string, key: string, newBlock: string)
    requires OneBlock(key, Lines(StripNewlines(newBlock)))
    requires FirstWithKey(Lines(text), key, 0) == |Lines(text)|
    ensures Split(Replace(text, key, newBlock))
         == TrimLast(Split(text)) + [Entry(key, NewText(StripNewlines(newBlock)))]
  {
    var block := StripNewlines(newBlock);
    OneBlockSplit(key, block);
    if TrimEnd(text) == [] {
      SplitTrimEnd(text);
      SplitAllSpace([]);
    } else {
      FirstLineOf(block, []);
      assert block + "\n" + [] == block + "\n";
      AppendedSplit(text, block);
    }
  }

  lemma OneBlockSplit(key: string, block: string)
    requires OneBlock(key, Lines(block))
    ensures Split(block + "\n") == [Entry(key, NewText(block))]
  {
    LinesConcat(block, []);
    assert block + "\n" + [] == block + "\n" && Lines([]) == [[]];
    BlankAfterBlock(key, Lines(block));
    OneBlockBlocks(key, Lines(block) + [[]]);
  }

  // ----- The block map -----

  lemma UpdateInit(init: seq<Entry>, last: Entry, i: nat, t: string)
    requires i < |init| && last.key != init[i].key
    requires Texts(init[i := Entry(init[i].key, t)]) == Texts(init)[init[i].key := t]
    ensures Texts(init[i := Entry(init[i].key, t)] + [last]) == Texts(init + [last])[init[i].key := t]
  {
    Snoc(init, last);
    Snoc(init[i := Entry(init[i].key, t)], last);
  }

  lemma UpdateLast(init: seq<Entry>, last: Entry, t: string)
    ensures Texts(init + [Entry(last.key, t)]) == Texts(init + [last])[last.key := t]
  {
    Snoc(init, last);
    Snoc(init, Entry(last.key, t));
  }

  lemma {:induction false} UpdateOnce(es: seq<Entry>, i: nat, t: string)
    requires i < |es| && forall j :: 0 <= j < |es| && j != i ==> es[j].key != es[i].key
    ensures Texts(es[i := Entry(es[i].key, t)]) == Texts(es)[es[i].key := t]
    decreases |es|
  {
    var init, last := es[..|es| - 1], es[|es| - 1];
    assert es == init + [last];
    if i < |init| {
      UpdateOnce(init, i, t);
      UpdateInit(init, last, i, t);
      assert es[i := Entry(es[i].key, t)] == init[i := Entry(init[i].key, t)] + [last];
    } else {
      UpdateLast(init, last, t);
      assert es[i := Entry(es[i].key, t)] == init + [Entry(last.key, t)];
    }
  }

  /** For a key that occurs once, the block map changes at that key only. */
  lemma ReplaceUpdatesMap(text: string, key: string, newBlock: string)
    requires OneBlock(key, Lines(StripNewlines(newBlock)))
    requires FirstWithKey(Lines(text), key, 0) < |Lines(text)|
    requires forall i, j :: 0 <= i < j < |Split(text)| ==> !(Split(text)[i].key == key && Split(text)[j].key == key)
    ensures Texts(Split(Replace(text, key, newBlock)))
         == Texts(Split(text))[key := NewText(StripNewlines(newBlock))]
  {
    ReplaceChangesOneBlock(text, key, newBlock);
    var i := |Blocks(Lines(text)[..FirstWithKey(Lines(text), key, 0)])|;
    UpdateOnce(Split(text), i, NewText(StripNewlines(newBlock)));
  }
}
