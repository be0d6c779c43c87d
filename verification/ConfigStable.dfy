/** Rewriting a block twice changes nothing the second time (core/scripts/config.ts). */
module ConfigStable {
  import opened Prelude
  import opened TextLines
  import opened ConfigMerge
  import opened ConfigSync
  import opened ConfigReplace

  ghost predicate EndsInNewline(t: string) {
    t != [] && t[|t| - 1] == '\n'
  }

  ghost predicate NoLineWithKey(ls: seq<string>, key: string) {
    forall i :: 0 <= i < |ls| ==> TopLevelKeyOf(ls[i]) != Some(key)
  }

  lemma SameLinesSameText(a: string, b: string)
    requires Lines(a) == Lines(b)
    ensures a == b
  {
    JoinLines(a);
    JoinLines(b);
  }

  lemma Located(pre: seq<string>, key: string, mid: seq<string>, post: seq<string>)
    requires NoLineWithKey(pre, key) && OneBlock(key, mid) && StartsKeyed(post)
    ensures var ls := pre + mid + post;
            FirstWithKey(ls, key, 0) == |pre| && NextKeyed(ls, |pre| + 1) == |pre| + |mid|
  {
    var ls := pre + mid + post;
    assert ls[|pre|] == mid[0];
    assert forall i :: 0 <= i < |pre| ==> ls[i] == pre[i];
    assert post != [] ==> ls[|pre| + |mid|] == post[0];
    assert FirstWithKey(ls, key, 0) == |pre|;
    assert forall i :: |pre| + 1 <= i < |pre| + |mid| ==> ls[i] == mid[i - |pre|];
  }

  lemma RewrittenLocated(t: string, key: string, newBlock: string, pre: seq<string>, mid: seq<string>, post: seq<string>)
    requires Lines(t) == pre + mid + post && NoLineWithKey(pre, key) && OneBlock(key, mid) && StartsKeyed(post)
    ensures Replace(t, key, newBlock) == Rewritten(pre, StripNewlines(newBlock), post)
  {
    Located(pre, key, mid, post);
    var ls := pre + mid + post;
    assert ls[..|pre|] == pre && ls[|pre| + |mid|..] == post;
  }

  lemma JoinedLines(pre: seq<string>, block: string, post: seq<string>)
    requires AllLines(pre) && AllLines(post) && post != []
    ensures Lines(Before(pre) + block + After(post)) == pre + (Lines(block) + [[]]) + post
  {
    var rest := block + After(post);
    Regroup(Before(pre), block, After(post));
    BeforeLines(pre, rest);
    BlankBetween(block, Join(post));
    LinesJoin(post);
    Associate3(pre, Lines(block) + [[]], post);
  }

  lemma Regroup(a: string, b: string, c: string)
    ensures a + b + c == a + (b + c)
  {
  }

  lemma LastBlockLines(pre: seq<string>, block: string)
    requires AllLines(pre) && block != [] && block[|block| - 1] != '\n'
    ensures Lines(Rewritten(pre, block, [])) == pre + (Lines(block) + [[]]) + []
  {
    RewrittenParts(pre, block, []);
    assert block + After([]) == block;
    BeforeLines(pre, EndLine(block));
    EndLineLines(block);
  }

  /** A text that already holds the block, a blank line after it and a last newline is left as it is. */
  lemma SettledText(t: string, key: string, newBlock: string, pre: seq<string>, post: seq<string>)
    requires OneBlock(key, Lines(StripNewlines(newBlock))) && NoLineWithKey(pre, key) && StartsKeyed(post)
    requires Lines(t) == pre + (Lines(StripNewlines(newBlock)) + [[]]) + post && EndsInNewline(t)
    ensures Replace(t, key, newBlock) == t
  {
    var block := StripNewlines(newBlock);
    BlankAfterBlock(key, Lines(block));
    RewrittenLocated(t, key, newBlock, pre, Lines(block) + [[]], post);
    SplitLines(t, pre, Lines(block) + [[]], post);
    BlockNotEmpty(key, block);
    StripNewlinesEnd(newBlock);
    if post == [] {
      LastBlockLines(pre, block);
      SameLinesSameText(Rewritten(pre, block, post), t);
    } else {
      JoinedLines(pre, block, post);
      SameLinesSameText(Before(pre) + block + After(post), t);
    }
  }

  lemma SplitLines(t: string, a: seq<string>, b: seq<string>, c: seq<string>)
    requires Lines(t) == a + b + c
    ensures AllLines(a) && AllLines(c)
  {
    LinesAreLines(t);
    forall l | l in a ensures OneLine(l) { assert l in Lines(t); }
    forall l | l in c ensures OneLine(l) { assert l in Lines(t); }
  }

  lemma {:induction false} KeyedLineHasBlock(ls: seq<string>, i: nat)
    requires i < |ls| && Keyed(ls[i])
    ensures exists b :: b in Blocks(ls) && Some(b.key) == TopLevelKeyOf(ls[i])
  {
    var n := |ls| - 1;
    var bs := Blocks(ls[..n]);
    if i == n {
      var k := TopLevelKeyOf(ls[n]).value;
      assert (bs + [Block(k, [ls[n]])])[|bs|] == Block(k, [ls[n]]);
    } else {
      KeyedLineHasBlock(ls[..n], i);
      var b :| b in bs && Some(b.key) == TopLevelKeyOf(ls[i]);
      AddLineKeepsKey(bs, ls[n], b);
    }
  }

  lemma AddLineKeepsKey(bs: seq<Block>, line: string, b: Block)
    requires b in bs
    ensures exists b' :: b' in AddLine(bs, line) && b'.key == b.key
  {
    var j :| 0 <= j < |bs| && bs[j] == b;
    assert AddLine(bs, line)[j].key == b.key && AddLine(bs, line)[j] in AddLine(bs, line);
  }

  /** Trimming the end of a text does not bring in a key. */
  lemma TrimmedHasNoKey(text: string, key: string)
    requires NoLineWithKey(Lines(text), key)
    ensures NoLineWithKey(Lines(TrimEnd(text)), key)
  {
    NoEarlierKey(Lines(text), key);
    SplitTrimEnd(text);
    var ls := Lines(TrimEnd(text));
    forall i | 0 <= i < |ls| ensures TopLevelKeyOf(ls[i]) != Some(key) {
      if TopLevelKeyOf(ls[i]) == Some(key) {
        KeyedLineHasBlock(ls, i);
        var b :| b in Blocks(ls) && b.key == key;
        var j :| 0 <= j < |Blocks(ls)| && Blocks(ls)[j] == b;
        assert Split(TrimEnd(text))[j].key == key;
        TrimLastKeys(Split(text), j);
      }
    }
  }

  lemma TrimLastKeys(es: seq<Entry>, j: nat)
    requires j < |TrimLast(es)|
    ensures |TrimLast(es)| == |es| && TrimLast(es)[j].key == es[j].key && es[j] in es
  {
  }

  lemma AppendedLines(t: string, block: string)
    ensures Lines(t + "\n\n" + block + "\n") == (Lines(t) + [[]]) + (Lines(block) + [[]]) + []
  {
    LinesConcat(block, []);
    assert block + "\n" + [] == block + "\n" && Lines([]) == [[]];
    SeparatedLines(t, block + "\n");
    assert t + "\n\n" + block + "\n" == t + "\n\n" + (block + "\n");
  }

  lemma AppendedSettles(text: string, key: string, newBlock: string)
    requires OneBlock(key, Lines(StripNewlines(newBlock))) && NoLineWithKey(Lines(text), key)
    ensures var t := Appended(text, StripNewlines(newBlock)); Replace(t, key, newBlock) == t
  {
    var block, s := StripNewlines(newBlock), TrimEnd(text);
    if s == [] {
      LinesConcat(block, []);
      assert block + "\n" + [] == block + "\n" && Lines([]) == [[]];
      assert [] + (Lines(block) + [[]]) + [] == Lines(block) + [[]];
      SettledText(block + "\n", key, newBlock, [], []);
    } else {
      TrimmedHasNoKey(text, key);
      EmptyIsBlank();
      BlankHasNoKey([]);
      AppendedLines(s, block);
      SettledText(s + "\n\n" + block + "\n", key, newBlock, Lines(s) + [[]], []);
    }
  }

  lemma RewrittenSettles(pre: seq<string>, key: string, newBlock: string, post: seq<string>)
    requires OneBlock(key, Lines(StripNewlines(newBlock))) && NoLineWithKey(pre, key) && StartsKeyed(post)
    requires AllLines(pre) && AllLines(post)
    ensures var t := Rewritten(pre, StripNewlines(newBlock), post); Replace(t, key, newBlock) == t
  {
    var block := StripNewlines(newBlock);
    BlockNotEmpty(key, block);
    StripNewlinesEnd(newBlock);
    RewrittenLines(pre, block, post);
    var t := Rewritten(pre, block, post);
    if Lines(t) == pre + (Lines(block) + [[]]) + post {
      SettledText(t, key, newBlock, pre, post);
    } else {
      SettledText(t, key, newBlock, pre, post + [[]]);
    }
  }

  /** Rewriting a key with the same block a second time leaves every byte of the file as it is. */
  lemma ReplaceIdempotent(text: string, key: string, newBlock: string)
    requires OneBlock(key, Lines(StripNewlines(newBlock)))
    ensures Replace(Replace(text, key, newBlock), key, newBlock) == Replace(text, key, newBlock)
  {
    var ls := Lines(text);
    var start := FirstWithKey(ls, key, 0);
    if start == |ls| {
      AppendedSettles(text, key, newBlock);
    } else {
      var end := NextKeyed(ls, start + 1);
      Cut(ls, start, end);
      SplitLines(text, ls[..start], ls[start..end], ls[end..]);
      RewrittenSettles(ls[..start], key, newBlock, ls[end..]);
    }
  }
}
