/** The managed block of the root .gitignore (core/scripts/artifact-ignore.ts). */
module ManagedBlock {
  import opened Prelude

  datatype Entry = Entry(name: string, comment: string, isFile: bool)

  datatype Markers = Markers(open: string, close: string)

  const MANAGED := "agent-" + "pipeline " + "artifacts " + "(managed " + "by `pipe" + "line init`)"
  const SENTINEL_OPEN := "# >>> " + MANAGED + " >>>"
  const SENTINEL_CLOSE := "# <<< " + MANAGED + " <<<"

  /** A one-line sentinel: "# " and its mark, and no second '#'. */
  predicate Sentinel(s: string, mark: char) {
    |s| >= 3 && s[0] == '#' && s[1] == ' ' && s[2] == mark && '#' !in s[1..] && '\n' !in s
  }

  predicate GoodMarkers(m: Markers) {
    Sentinel(m.open, '>') && Sentinel(m.close, '<')
  }

  predicate PlainText(s: string) {
    '#' !in s && '\n' !in s
  }

  lemma ManagedIsPlain()
    ensures PlainText(MANAGED)
  {
    assert PlainText("agent-" + "pipeline ");
    assert PlainText("artifacts " + "(managed ");
    assert PlainText("by `pipe" + "line init`)");
    assert MANAGED == ("agent-" + "pipeline ") + ("artifacts " + "(managed ") + ("by `pipe" + "line init`)");
  }

  lemma FramedIsSentinel(frame: string, mark: char, text: string, end: string)
    requires PlainText(text) && PlainText(end) && |frame| == 6
    requires frame[0] == '#' && frame[1] == ' ' && frame[2] == mark && PlainText(frame[1..])
    ensures Sentinel(frame + text + end, mark)
  {
    var s := frame + text + end;
    assert s[1..] == frame[1..] + text + end;
    assert s == [s[0]] + s[1..];
  }

  /** The engine's own sentinels meet the conditions of the theorems below. */
  lemma EngineMarkersAreGood()
    ensures GoodMarkers(Markers(SENTINEL_OPEN, SENTINEL_CLOSE))
  {
    ManagedIsPlain();
    assert "# >>> "[1..] == " >>> " && "# <<< "[1..] == " <<< ";
    FramedIsSentinel("# >>> ", '>', MANAGED, " >>>");
    FramedIsSentinel("# <<< ", '<', MANAGED, " <<<");
  }

  // ----- Rendering -----

  function IgnorePath(e: Entry): string {
    ".agent-pipeline/" + e.name + (if e.isFile then "" else "/")
  }

  function EntryLines(e: Entry): string {
    "# " + e.comment + "\n" + IgnorePath(e) + "\n"
  }

  function Body(contract: seq<Entry>): string {
    if contract == [] then [] else Body(contract[..|contract| - 1]) + EntryLines(contract[|contract| - 1])
  }

  function Render(m: Markers, contract: seq<Entry>): string {
    m.open + "\n" + Body(contract) + m.close + "\n"
  }

  method RenderArtifactIgnoreBlock(m: Markers, contract: seq<Entry>) returns (block: string)
    ensures block == Render(m, contract)
  {
    block := m.open + "\n";
    for i := 0 to |contract|
      invariant block == m.open + "\n" + Body(contract[..i])
    {
      assert contract[..i + 1][..i] == contract[..i];
      block := block + EntryLines(contract[i]);
    }
    assert contract[..|contract|] == contract;
    block := block + m.close + "\n";
  }

  // ----- Occurrences -----

  function FirstFrom(h: string, n: string, i: nat): (r: Option<nat>)
    requires i <= |h|
    ensures r.Some? ==> i <= r.value <= |h| && OccursAt(h, n, r.value)
    ensures forall k: nat :: i <= k && (r.None? || k < r.value) ==> !OccursAt(h, n, k)
    decreases |h| - i
  {
    if OccursAt(h, n, i) then Some(i) else if i == |h| then None else FirstFrom(h, n, i + 1)
  }

  /** `haystack.split(needle).length - 1`: occurrences counted from the left without overlap. */
  function Count(h: string, n: string, i: nat): nat
    requires i <= |h| && n != []
    decreases |h| - i
  {
    var k := FirstFrom(h, n, i);
    if k.None? then 0 else 1 + Count(h, n, k.value + |n|)
  }

  ghost predicate Nowhere(h: string, n: string) {
    forall k: nat :: !OccursAt(h, n, k)
  }

  ghost predicate OnlyAt(h: string, n: string, k: nat) {
    OccursAt(h, n, k) && forall j: nat :: OccursAt(h, n, j) ==> j == k
  }

  lemma CharOf(h: string, n: string, k: nat, i: nat)
    requires OccursAt(h, n, k) && i < |n|
    ensures h[k + i] == n[i]
  {
    assert h[k + i] == h[k..k + |n|][i];
  }

  lemma StartOf(h: string, n: string, mark: char, k: nat)
    requires Sentinel(n, mark) && OccursAt(h, n, k)
    ensures h[k] == '#' && h[k + 1] == ' ' && h[k + 2] == mark
  {
    CharOf(h, n, k, 0);
    CharOf(h, n, k, 1);
    CharOf(h, n, k, 2);
  }

  lemma HashOnlyFirst(h: string, n: string, mark: char, k: nat, i: nat)
    requires Sentinel(n, mark) && OccursAt(h, n, k) && k <= i < k + |n|
    ensures h[i] == '#' ==> i == k
  {
    CharOf(h, n, k, i - k);
    if i > k { assert n[1..][i - k - 1] == n[i - k]; }
  }

  lemma NoNewlineInside(h: string, n: string, k: nat, i: nat)
    requires '\n' !in n && OccursAt(h, n, k) && k <= i < k + |n|
    ensures h[i] != '\n'
  {
    CharOf(h, n, k, i - k);
    assert n[i - k] in n;
  }

  /** A sentinel cannot overlap another copy of a sentinel, because its only '#' comes first. */
  lemma NoOverlap(h: string, n: string, p: string, mark: char, mark': char, j: nat, k: nat)
    requires Sentinel(n, mark) && Sentinel(p, mark') && OccursAt(h, n, j) && OccursAt(h, p, k)
    ensures j == k || j + |n| <= k || k + |p| <= j
  {
    StartOf(h, n, mark, j);
    StartOf(h, p, mark', k);
    if j <= k < j + |n| { HashOnlyFirst(h, n, mark, j, k); }
    if k <= j < k + |p| { HashOnlyFirst(h, p, mark', k, j); }
  }

  /** What the two counts of the source mean for a sentinel. */
  lemma CountMeaning(h: string, n: string, mark: char)
    requires Sentinel(n, mark)
    ensures Count(h, n, 0) == 0 <==> Nowhere(h, n)
    ensures Count(h, n, 0) == 1 ==> FirstFrom(h, n, 0).Some? && OnlyAt(h, n, FirstFrom(h, n, 0).value)
    ensures forall k: nat :: OnlyAt(h, n, k) ==> Count(h, n, 0) == 1 && FirstFrom(h, n, 0) == Some(k)
  {
    var f := FirstFrom(h, n, 0);
    if f.Some? {
      var k := f.value;
      var g := FirstFrom(h, n, k + |n|);
      if g.None? {
        forall j: nat | OccursAt(h, n, j) ensures j == k { NoOverlap(h, n, n, mark, mark, j, k); }
        assert OnlyAt(h, n, k);
      } else {
        assert OccursAt(h, n, k) && OccursAt(h, n, g.value) && k < g.value;
      }
    }
  }

  // ----- The span -----

  datatype SpanResult = NoBlock | Block(openIdx: nat, blockEnd: nat) | Malformed

  function FindSentinelSpan(m: Markers, content: string): (r: SpanResult)
    requires GoodMarkers(m)
    ensures r.Block? ==> r.openIdx <= r.blockEnd <= |content|
  {
    var opens, closes := Count(content, m.open, 0), Count(content, m.close, 0);
    if opens == 0 && closes == 0 then NoBlock
    else
      var o, c := FirstFrom(content, m.open, 0), FirstFrom(content, m.close, 0);
      if opens != 1 || closes != 1 || o.None? || c.None? || c.value < o.value then Malformed
      else
        var end := c.value + |m.close|;
        Block(o.value, if end < |content| && content[end] == '\n' then end + 1 else end)
  }

  /** One opening sentinel at `o` and one closing sentinel at a later `c`. */
  ghost predicate WellFormed(m: Markers, content: string, o: nat, c: nat) {
    OnlyAt(content, m.open, o) && OnlyAt(content, m.close, c) && o < c
  }

  /** The call refuses exactly the contents that hold a sentinel but not one well-formed pair. */
  lemma SpanMeaning(m: Markers, content: string)
    requires GoodMarkers(m)
    ensures FindSentinelSpan(m, content).NoBlock? <==> Nowhere(content, m.open) && Nowhere(content, m.close)
    ensures FindSentinelSpan(m, content).Block? <==> exists o: nat, c: nat :: WellFormed(m, content, o, c)
    ensures forall o: nat, c: nat :: WellFormed(m, content, o, c) ==>
              var end := c + |m.close|;
              FindSentinelSpan(m, content) == Block(o, if end < |content| && content[end] == '\n' then end + 1 else end)
  {
    CountMeaning(content, m.open, '>');
    CountMeaning(content, m.close, '<');
    forall o: nat, c: nat | WellFormed(m, content, o, c)
      ensures var end := c + |m.close|;
              FindSentinelSpan(m, content) == Block(o, if end < |content| && content[end] == '\n' then end + 1 else end)
    {
      SpanOfPair(m, content, o, c);
    }
    if FindSentinelSpan(m, content).Block? {
      PairOfSpan(m, content);
    }
  }

  lemma SpanOfPair(m: Markers, content: string, o: nat, c: nat)
    requires GoodMarkers(m) && WellFormed(m, content, o, c)
    ensures var end := c + |m.close|;
            FindSentinelSpan(m, content) == Block(o, if end < |content| && content[end] == '\n' then end + 1 else end)
  {
    OnlyOnce(content, m.open, '>', o);
    OnlyOnce(content, m.close, '<', c);
  }

  lemma OnlyOnce(h: string, n: string, mark: char, k: nat)
    requires Sentinel(n, mark) && OnlyAt(h, n, k)
    ensures Count(h, n, 0) == 1 && FirstFrom(h, n, 0) == Some(k)
  {
    CountMeaning(h, n, mark);
  }

  lemma PairOfSpan(m: Markers, content: string)
    requires GoodMarkers(m) && FindSentinelSpan(m, content).Block?
    ensures exists o: nat, c: nat :: WellFormed(m, content, o, c)
  {
    var o, c := FirstFrom(content, m.open, 0).value, FirstFrom(content, m.close, 0).value;
    FoundOnce(content, m.open, '>');
    FoundOnce(content, m.close, '<');
    assert o != c;
    assert WellFormed(m, content, o, c);
  }

  lemma FoundOnce(h: string, n: string, mark: char)
    requires Sentinel(n, mark) && Count(h, n, 0) == 1
    ensures FirstFrom(h, n, 0).Some?
    ensures var k := FirstFrom(h, n, 0).value; OnlyAt(h, n, k) && k + 2 < |h| && h[k + 2] == mark
  {
    CountMeaning(h, n, mark);
    StartOf(h, n, mark, FirstFrom(h, n, 0).value);
  }

  // ----- Ensuring the block -----

  datatype Outcome = Created | Updated | Unchanged | Refused

  /** What the call reports and, unless it writes nothing, the new content. */
  datatype Result = Result(outcome: Outcome, written: Option<string>)

  predicate EndsWith(s: string, t: string) {
    |t| <= |s| && s[|s| - |t|..] == t
  }

  function Separated(current: string): string {
    if current == [] then []
    else if EndsWith(current, "\n\n") then current
    else if EndsWith(current, "\n") then current + "\n"
    else current + "\n\n"
  }

  function Ensure(m: Markers, block: string, current: Option<string>): Result
    requires GoodMarkers(m)
  {
    if current.None? then Result(Created, Some(block))
    else
      match FindSentinelSpan(m, current.value)
      case Malformed => Result(Refused, None)
      case NoBlock => Result(Updated, Some(Separated(current.value) + block))
      case Block(o, e) =>
        if current.value[o..e] == block then Result(Unchanged, None)
        else Result(Updated, Some(current.value[..o] + block + current.value[e..]))
  }

  class GitignoreFile {
    var content: Option<string>
    var writes: nat

    method EnsureArtifactIgnoreBlock(m: Markers, contract: seq<Entry>) returns (outcome: Outcome)
      requires GoodMarkers(m)
      modifies this
      ensures outcome == Ensure(m, Render(m, contract), old(content)).outcome
      ensures var w := Ensure(m, Render(m, contract), old(content)).written;
              if w.Some? then content == w && writes == old(writes) + 1
              else content == old(content) && writes == old(writes)
    {
      var block := RenderArtifactIgnoreBlock(m, contract);
      if content.None? {
        content, writes := Some(block), writes + 1;
        return Created;
      }
      var current := content.value;
      var span := FindSentinelSpan(m, current);
      match span {
        case Malformed => return Refused;
        case NoBlock =>
          content, writes := Some(Separated(current) + block), writes + 1;
          return Updated;
        case Block(o, e) =>
          if current[o..e] == block { return Unchanged; }
          content, writes := Some(current[..o] + block + current[e..]), writes + 1;
          return Updated;
      }
    }
  }

  // ----- No occurrence straddles a splice -----

  lemma OccursInPart(a: string, b: string, s: string, k: nat)
    requires OccursAt(a + b, s, k)
    ensures k + |s| <= |a| ==> OccursAt(a, s, k)
    ensures k >= |a| ==> OccursAt(b, s, k - |a|)
  {
    var t := a + b;
    if k + |s| <= |a| { assert a[k..k + |s|] == t[k..k + |s|]; }
    if k >= |a| { assert b[k - |a|..k - |a| + |s|] == t[k..k + |s|]; }
  }

  lemma AcrossNewline(a: string, b: string, s: string, k: nat)
    requires a != [] && a[|a| - 1] == '\n' && '\n' !in s && s != [] && OccursAt(a + b, s, k)
    ensures OccursAt(a, s, k) || (k >= |a| && OccursAt(b, s, k - |a|))
  {
    OccursInPart(a, b, s, k);
    if k <= |a| - 1 < k + |s| { NoNewlineInside(a + b, s, k, |a| - 1); }
  }

  lemma AcrossHash(a: string, b: string, s: string, mark: char, k: nat)
    requires b != [] && b[0] == '#' && Sentinel(s, mark) && OccursAt(a + b, s, k)
    ensures OccursAt(a, s, k) || (k >= |a| && OccursAt(b, s, k - |a|))
  {
    OccursInPart(a, b, s, k);
    if k <= |a| < k + |s| { HashOnlyFirst(a + b, s, mark, k, |a|); }
  }

  lemma OccursShift(a: string, b: string, c: string, s: string, k: nat)
    requires OccursAt(b, s, k)
    ensures OccursAt(a + b + c, s, |a| + k)
  {
    assert (a + b + c)[|a| + k..|a| + k + |s|] == b[k..k + |s|];
  }

  lemma NowhereInLines(a: string, b: string, s: string)
    requires a != [] && a[|a| - 1] == '\n' && '\n' !in s && s != [] && Nowhere(a, s) && Nowhere(b, s)
    ensures Nowhere(a + b, s)
  {
    forall k: nat ensures !OccursAt(a + b, s, k) {
      if OccursAt(a + b, s, k) { AcrossNewline(a, b, s, k); }
    }
  }

  /** No sentinel occurs in the lines of an entry. */
  ghost predicate GoodContract(m: Markers, contract: seq<Entry>) {
    forall e :: e in contract ==> Nowhere(EntryLines(e), m.open) && Nowhere(EntryLines(e), m.close)
  }

  lemma {:induction false} BodyHasNoSentinel(contract: seq<Entry>, s: string)
    requires s != [] && '\n' !in s && forall e :: e in contract ==> Nowhere(EntryLines(e), s)
    ensures Nowhere(Body(contract), s)
    ensures Body(contract) == [] || Body(contract)[|Body(contract)| - 1] == '\n'
  {
    if contract != [] {
      var init, e := contract[..|contract| - 1], contract[|contract| - 1];
      assert e in contract && forall x :: x in init ==> x in contract;
      BodyHasNoSentinel(init, s);
      if Body(init) != [] { NowhereInLines(Body(init), EntryLines(e), s); }
      else { assert Body(contract) == EntryLines(e); }
    }
  }

  /** In the rendered block the opening sentinel stands only at the start and the closing one only at the end. */
  lemma SentinelsOfBlock(m: Markers, contract: seq<Entry>, s: string, mark: char, k: nat)
    requires GoodMarkers(m) && GoodContract(m, contract)
    requires (s == m.open && mark == '>') || (s == m.close && mark == '<')
    requires OccursAt(Render(m, contract), s, k)
    ensures k == if s == m.open then 0 else |Render(m, contract)| - 1 - |m.close|
  {
    BodyHasNoSentinel(contract, s);
    BlockParts(m, contract);
    SentinelsOfParts(m.open, Body(contract), m.close, s, mark, k);
  }

  lemma BlockParts(m: Markers, contract: seq<Entry>)
    ensures Render(m, contract) == (m.open + "\n") + (Body(contract) + (m.close + "\n"))
  {
  }

  lemma SentinelsOfParts(open: string, body: string, close: string, s: string, mark: char, k: nat)
    requires Sentinel(open, '>') && Sentinel(close, '<') && Sentinel(s, mark) && '\n' !in s && Nowhere(body, s)
    requires OccursAt((open + "\n") + (body + (close + "\n")), s, k)
    ensures if mark == '>' then k == 0 else mark == '<' && k == |open| + 1 + |body|
  {
    var head, tail := open + "\n", close + "\n";
    AcrossNewline(head, body + tail, s, k);
    if OccursAt(head, s, k) {
      SentinelLine(open, '>', s, mark, k);
    } else {
      AcrossHash(body, tail, s, mark, k - |head|);
      SentinelLine(close, '<', s, mark, k - |head| - |body|);
    }
  }

  lemma SentinelLine(p: string, mark': char, s: string, mark: char, k: nat)
    requires Sentinel(p, mark') && Sentinel(s, mark) && OccursAt(p + "\n", s, k)
    ensures k == 0 && mark == mark'
  {
    var t := p + "\n";
    StartOf(t, s, mark, k);
    assert t[1..] == p[1..] + "\n";
    assert forall i :: 1 <= i < |t| ==> t[i] == t[1..][i - 1];
  }

  lemma SpliceSpan(m: Markers, contract: seq<Entry>, before: string, after: string)
    requires GoodMarkers(m) && GoodContract(m, contract)
    requires Nowhere(before, m.open) && Nowhere(before, m.close) && Nowhere(after, m.open) && Nowhere(after, m.close)
    ensures var block := Render(m, contract);
            FindSentinelSpan(m, before + block + after) == Block(|before|, |before| + |block|)
  {
    var block := Render(m, contract);
    var text := before + block + after;
    var c := |block| - 1 - |m.close|;
    OnlyInSplice(m, contract, before, after, m.open, '>', 0);
    OnlyInSplice(m, contract, before, after, m.close, '<', c);
    assert WellFormed(m, text, |before|, |before| + c);
    SpanMeaning(m, text);
    assert text[|before| + |block| - 1] == '\n';
  }

  lemma OnlyInSplice(m: Markers, contract: seq<Entry>, before: string, after: string, s: string, mark: char, pos: nat)
    requires GoodMarkers(m) && GoodContract(m, contract) && Nowhere(before, s) && Nowhere(after, s)
    requires (s == m.open && mark == '>' && pos == 0)
          || (s == m.close && mark == '<' && pos == |Render(m, contract)| - 1 - |m.close|)
    ensures OnlyAt(before + Render(m, contract) + after, s, |before| + pos)
  {
    var block := Render(m, contract);
    var text := before + block + after;
    assert OccursAt(block, s, pos);
    OccursShift(before, block, after, s, pos);
    forall k: nat | OccursAt(text, s, k) ensures k == |before| + pos {
      SpliceOccurrence(before, block, after, s, mark, k);
      SentinelsOfBlock(m, contract, s, mark, k - |before|);
    }
  }

  lemma SpliceOccurrence(before: string, block: string, after: string, s: string, mark: char, k: nat)
    requires Sentinel(s, mark) && Nowhere(before, s) && Nowhere(after, s)
    requires block != [] && block[0] == '#' && block[|block| - 1] == '\n'
    requires OccursAt(before + block + after, s, k)
    ensures k >= |before| && OccursAt(block, s, k - |before|)
  {
    assert before + block + after == before + (block + after);
    AcrossHash(before, block + after, s, mark, k);
    AcrossNewline(block, after, s, k - |before|);
  }

  lemma NewlinesKeep(current: string, tail: string, s: string)
    requires '\n' !in s && s != [] && Nowhere(current, s) && forall i :: 0 <= i < |tail| ==> tail[i] == '\n'
    ensures Nowhere(current + tail, s)
  {
    forall k: nat ensures !OccursAt(current + tail, s, k) {
      if OccursAt(current + tail, s, k) {
        OccursInPart(current, tail, s, k);
        NoNewlineInside(current + tail, s, k, k + |s| - 1);
      }
    }
  }

  lemma SeparatedKeeps(current: string, s: string)
    requires '\n' !in s && s != [] && Nowhere(current, s)
    ensures Nowhere(Separated(current), s)
    ensures current <= Separated(current)
  {
    NewlinesKeep(current, "\n", s);
    NewlinesKeep(current, "\n\n", s);
  }

  /** How a written content relates to the one before: only the span between the sentinels is replaced. */
  ghost predicate OnlySpanChanges(m: Markers, block: string, current: string, content: string) {
    || (Nowhere(current, m.open) && Nowhere(current, m.close)
        && content == Separated(current) + block && current <= content)
    || (exists o: nat, c: nat :: WellFormed(m, current, o, c) && Replaces(m, block, current, content, o, c))
  }

  predicate Replaces(m: Markers, block: string, current: string, content: string, o: nat, c: nat) {
    var end := c + |m.close|;
    && o <= end <= |current|
    && var e := if end < |current| && current[end] == '\n' then end + 1 else end;
       content == current[..o] + block + current[e..]
  }

  /**
    For every file content the call either refuses a malformed block and writes
    nothing, or leaves everything outside the managed span as it was, and a second
    call reports unchanged and writes nothing.
  */
  lemma ManagedBlockLens(m: Markers, contract: seq<Entry>, current: Option<string>)
    requires GoodMarkers(m) && GoodContract(m, contract)
    ensures var block := Render(m, contract);
            var r := Ensure(m, block, current);
            && (r.outcome == Refused <==>
                  current.Some? && !(Nowhere(current.value, m.open) && Nowhere(current.value, m.close))
                  && !exists o: nat, c: nat :: WellFormed(m, current.value, o, c))
            && (r.outcome == Refused || r.outcome == Unchanged <==> r.written.None?)
            && (r.written.Some? ==> Ensure(m, block, r.written) == Result(Unchanged, None))
            && (r.written.Some? && current.Some? ==> OnlySpanChanges(m, block, current.value, r.written.value))
  {
    var block := Render(m, contract);
    if current.None? {
      assert [] + block + [] == block;
      SpliceSpan(m, contract, [], []);
    } else {
      var text := current.value;
      SpanMeaning(m, text);
      match FindSentinelSpan(m, text) {
        case Malformed =>
        case NoBlock =>
          SeparatedKeeps(text, m.open);
          SeparatedKeeps(text, m.close);
          assert Separated(text) + block + [] == Separated(text) + block;
          SpliceSpan(m, contract, Separated(text), []);
        case Block(o, e) => BlockReplaced(m, contract, text);
      }
    }
  }

  lemma BlockReplaced(m: Markers, contract: seq<Entry>, text: string)
    requires GoodMarkers(m) && GoodContract(m, contract) && FindSentinelSpan(m, text).Block?
    ensures var block := Render(m, contract);
            var span := FindSentinelSpan(m, text);
            var content := text[..span.openIdx] + block + text[span.blockEnd..];
            && Ensure(m, block, Some(content)) == Result(Unchanged, None)
            && OnlySpanChanges(m, block, text, content)
  {
    SpanMeaning(m, text);
    var span := FindSentinelSpan(m, text);
    var o: nat, c: nat :| WellFormed(m, text, o, c);
    var before, after := text[..span.openIdx], text[span.blockEnd..];
    OutsideIsClean(m, text, o, c, span.blockEnd);
    SpliceSpan(m, contract, before, after);
    assert Replaces(m, Render(m, contract), text, before + Render(m, contract) + after, o, c);
  }

  lemma OutsideIsClean(m: Markers, text: string, o: nat, c: nat, e: nat)
    requires GoodMarkers(m) && WellFormed(m, text, o, c) && c < e <= |text|
    ensures forall s :: s == m.open || s == m.close ==> Nowhere(text[..o], s) && Nowhere(text[e..], s)
  {
    ElsewhereClean(text, m.open, o, o, e);
    ElsewhereClean(text, m.close, c, o, e);
  }

  lemma OccursBefore(text: string, s: string, o: nat, k: nat)
    requires o <= |text| && OccursAt(text[..o], s, k)
    ensures OccursAt(text, s, k)
  {
    assert text[k..k + |s|] == text[..o][k..k + |s|];
  }

  lemma OccursAfter(text: string, s: string, e: nat, k: nat)
    requires e <= |text| && OccursAt(text[e..], s, k)
    ensures OccursAt(text, s, e + k)
  {
    assert text[e + k..e + k + |s|] == text[e..][k..k + |s|];
  }

  lemma ElsewhereClean(text: string, s: string, at: nat, o: nat, e: nat)
    requires s != [] && OnlyAt(text, s, at) && o <= at < e <= |text|
    ensures Nowhere(text[..o], s) && Nowhere(text[e..], s)
  {
    forall k: nat ensures !OccursAt(text[..o], s, k) {
      if OccursAt(text[..o], s, k) { OccursBefore(text, s, o, k); }
    }
    forall k: nat ensures !OccursAt(text[e..], s, k) {
      if OccursAt(text[e..], s, k) { OccursAfter(text, s, e, k); }
    }
  }

  // ----- Writing every byte -----

  // ----- What the file holds after a call -----

  /** The artifact's path on a line of its own, with a slash at its end exactly for a directory. */
  ghost predicate Ignores(content: string, e: Entry) {
    var path := if e.isFile then ".agent-pipeline/" + e.name else ".agent-pipeline/" + e.name + "/";
    Contains(content, "\n" + path + "\n")
  }

  lemma EntryIgnored(e: Entry)
    ensures Ignores(EntryLines(e), e)
  {
    var path := if e.isFile then ".agent-pipeline/" + e.name else ".agent-pipeline/" + e.name + "/";
    var comment, line := "# " + e.comment, "\n" + path + "\n";
    assert IgnorePath(e) == path;
    assert EntryLines(e) == comment + line + [];
    assert OccursAt(comment + line + [], line, |comment|);
  }

  lemma ContainedInside(x: string, content: string, y: string, n: string)
    requires Contains(content, n)
    ensures Contains(x + content + y, n)
  {
    var k: nat :| k <= |content| && OccursAt(content, n, k);
    OccursShift(x, content, y, n, k);
  }

  lemma IgnoredInside(x: string, content: string, y: string, e: Entry)
    requires Ignores(content, e)
    ensures Ignores(x + content + y, e)
  {
    var path := if e.isFile then ".agent-pipeline/" + e.name else ".agent-pipeline/" + e.name + "/";
    ContainedInside(x, content, y, "\n" + path + "\n");
  }

  lemma {:induction false} BodyIgnores(contract: seq<Entry>, e: Entry)
    requires e in contract
    ensures Ignores(Body(contract), e)
  {
    var n := |contract| - 1;
    var init, last := Body(contract[..n]), EntryLines(contract[n]);
    if contract[n] == e {
      EntryIgnored(e);
      IgnoredInside(init, last, [], e);
      assert init + last + [] == Body(contract);
    } else {
      BodyIgnores(contract[..n], e);
      IgnoredInside([], init, last, e);
      assert [] + init + last == Body(contract);
    }
  }

  lemma BlockIgnores(m: Markers, contract: seq<Entry>, e: Entry)
    requires e in contract
    ensures Ignores(Render(m, contract), e)
  {
    BodyIgnores(contract, e);
    IgnoredInside(m.open + "\n", Body(contract), m.close + "\n", e);
    assert (m.open + "\n") + Body(contract) + (m.close + "\n") == Render(m, contract);
  }

  /** The content of the file after the call. */
  function Afterwards(m: Markers, block: string, current: Option<string>): Option<string>
    requires GoodMarkers(m)
  {
    var w := Ensure(m, block, current).written;
    if w.Some? then w else current
  }

  lemma HoldsBlock(m: Markers, block: string, current: Option<string>) returns (a: string, b: string)
    requires GoodMarkers(m) && Ensure(m, block, current).outcome != Refused
    ensures Afterwards(m, block, current) == Some(a + block + b)
  {
    if current.None? {
      a, b := [], [];
      assert a + block + b == block;
    } else if FindSentinelSpan(m, current.value).NoBlock? {
      a, b := Separated(current.value), [];
      assert a + block + b == a + block;
    } else {
      var span := FindSentinelSpan(m, current.value);
      a, b := current.value[..span.openIdx], current.value[span.blockEnd..];
      CutAround(current.value, span.openIdx, span.blockEnd);
    }
  }

  lemma CutAround(text: string, o: nat, e: nat)
    requires o <= e <= |text|
    ensures text == text[..o] + text[o..e] + text[e..]
  {
  }

  /** After every call that does not refuse, every artifact of the contract is ignored; only a missing file is created. */
  lemma EveryArtifactIgnored(m: Markers, contract: seq<Entry>, current: Option<string>)
    requires GoodMarkers(m) && Ensure(m, Render(m, contract), current).outcome != Refused
    ensures Afterwards(m, Render(m, contract), current).Some?
    ensures forall e :: e in contract ==> Ignores(Afterwards(m, Render(m, contract), current).value, e)
    ensures Ensure(m, Render(m, contract), current).outcome == Created <==> current.None?
  {
    var block := Render(m, contract);
    var a, b := HoldsBlock(m, block, current);
    forall e | e in contract ensures Ignores(a + block + b, e) {
      BlockIgnores(m, contract, e);
      IgnoredInside(a, block, b, e);
    }
  }

  lemma EndsOne(s: string)
    ensures EndsWith(s, "\n") <==> s != [] && s[|s| - 1] == '\n'
  {
    if s != [] { assert s[|s| - 1..] == [s[|s| - 1]]; }
  }

  lemma EndsTwo(s: string)
    ensures EndsWith(s, "\n\n") <==> |s| >= 2 && s[|s| - 1] == '\n' && s[|s| - 2] == '\n'
  {
    if |s| >= 2 {
      var t := s[|s| - 2..];
      assert t == [s[|s| - 2], s[|s| - 1]];
      assert "\n\n" == ['\n', '\n'];
      assert t == "\n\n" <==> t[0] == '\n' && t[1] == '\n';
    }
  }

  /** A first block is set apart from what is there by a blank line, with no more newlines than that takes. */
  lemma SeparatedByBlankLine(current: string)
    ensures var t := Separated(current);
            && current <= t
            && (current == [] ==> t == [])
            && (current != [] ==> |t| >= 2 && t[|t| - 1] == '\n' && t[|t| - 2] == '\n')
            && (forall i :: |current| <= i < |t| ==> t[i] == '\n')
            && (|t| > |current| && |t| >= 3 ==> !(t[|t| - 2] == '\n' && t[|t| - 3] == '\n'))
  {
    EndsOne(current);
    EndsTwo(current);
  }

  // ----- The contract must hold no sentinel -----

  lemma {:induction false} OccursInBody(contract: seq<Entry>, e: Entry, s: string, k: nat) returns (j: nat)
    requires e in contract && OccursAt(EntryLines(e), s, k)
    ensures OccursAt(Body(contract), s, j)
  {
    var n := |contract| - 1;
    var init := Body(contract[..n]);
    if contract[n] == e {
      OccursShift(init, EntryLines(e), [], s, k);
      assert init + EntryLines(e) + [] == Body(contract);
      j := |init| + k;
    } else {
      j := OccursInBody(contract[..n], e, s, k);
      OccursShift([], init, EntryLines(contract[n]), s, j);
      assert [] + init + EntryLines(contract[n]) == Body(contract);
    }
  }

  /** The block's own sentinel, and one in its body. */
  lemma TwoSentinels(open: string, body: string, close: string, s: string, j: nat)
    requires s != [] && OccursAt(body, s, j) && (s == open || s == close)
    ensures exists a: nat, b: nat :: a != b && OccursAt((open + "\n") + (body + (close + "\n")), s, a)
                                            && OccursAt((open + "\n") + (body + (close + "\n")), s, b)
  {
    var text := (open + "\n") + (body + (close + "\n"));
    OccursShift(open + "\n", body, close + "\n", s, j);
    assert (open + "\n") + body + (close + "\n") == text;
    if s == open {
      assert text[0..|s|] == s;
      assert OccursAt(text, s, 0);
    } else {
      var b := |open| + 1 + |body|;
      assert text[b..b + |s|] == s;
      assert OccursAt(text, s, b);
    }
  }

  lemma CountedTwice(h: string, n: string, mark: char, a: nat, b: nat)
    requires Sentinel(n, mark) && a != b && OccursAt(h, n, a) && OccursAt(h, n, b)
    ensures Count(h, n, 0) != 0 && Count(h, n, 0) != 1
  {
    CountMeaning(h, n, mark);
  }

  /** With a sentinel in an entry the call refuses the very block it wrote. */
  lemma StraySentinelRefused(m: Markers, contract: seq<Entry>)
    requires GoodMarkers(m) && !GoodContract(m, contract)
    ensures Ensure(m, Render(m, contract), Some(Render(m, contract))).outcome == Refused
  {
    var block := Render(m, contract);
    var e, s, k: nat :| e in contract && (s == m.open || s == m.close) && OccursAt(EntryLines(e), s, k);
    var j := OccursInBody(contract, e, s, k);
    TwoSentinels(m.open, Body(contract), m.close, s, j);
    BlockParts(m, contract);
    var a: nat, b: nat :| a != b && OccursAt(block, s, a) && OccursAt(block, s, b);
    CountedTwice(block, s, if s == m.open then '>' else '<', a, b);
  }

  /** A second call finds nothing to do after every write if and only if no entry holds a sentinel. */
  lemma SecondCallSilentIff(m: Markers, contract: seq<Entry>)
    requires GoodMarkers(m)
    ensures GoodContract(m, contract) <==>
            forall current: Option<string> :: SecondCallSilent(m, Render(m, contract), current)
  {
    if GoodContract(m, contract) {
      forall current: Option<string> ensures SecondCallSilent(m, Render(m, contract), current) {
        ManagedBlockLens(m, contract, current);
      }
    } else {
      StraySentinelRefused(m, contract);
      assert !SecondCallSilent(m, Render(m, contract), None);
    }
  }

  predicate SecondCallSilent(m: Markers, block: string, current: Option<string>)
    requires GoodMarkers(m)
  {
    var w := Ensure(m, block, current).written;
    w.Some? ==> Ensure(m, block, w) == Result(Unchanged, None)
  }

  /** The file behind a descriptor, and how many bytes each write call will take. */
  class Descriptor {
    var data: seq<bv8>

    constructor () ensures data == [] { data := []; }

    /** One write: it takes a prefix of what is offered, or reports no progress. */
    method Write(chunk: seq<bv8>, n: int) returns (taken: int)
      modifies this
      ensures taken == if n <= |chunk| then n else |chunk|
      ensures data == old(data) + if 0 < taken then chunk[..taken] else []
    {
      taken := if n <= |chunk| then n else |chunk|;
      if 0 < taken { data := data + chunk[..taken]; }
    }

    /** `progress(k)` is what the k-th write call reports; a report of zero or less is an error. */
    method WriteAllSync(buf: seq<bv8>, progress: nat -> int) returns (ok: bool)
      modifies this
      ensures ok ==> data == old(data) + buf
      ensures !ok ==> exists w: nat :: w < |buf| && data == old(data) + buf[..w]
      ensures (forall k :: progress(k) > 0) ==> ok
    {
      var written, calls := 0, 0;
      while written < |buf|
        invariant 0 <= written <= |buf|
        invariant data == old(data) + buf[..written]
        decreases |buf| - written
      {
        var taken := Write(buf[written..], progress(calls));
        if taken <= 0 { return false; }
        assert buf[..written] + buf[written..][..taken] == buf[..written + taken];
        written := written + taken;
        calls := calls + 1;
      }
      assert buf[..written] == buf;
      return true;
    }
  }
}
