/** The balanced-object scanner of the design gate (core/scripts/design-gate.ts). */
module JsonScan {
  import opened Prelude

  /** The scanner's variables: nesting depth, inside a string, after a backslash. */
  datatype Scan = Out(depth: nat) | InString(depth: nat) | Escape(depth: nat) | Closed

  function Step(s: Scan, c: char): Scan {
    match s
    case Out(d) =>
      if c == '"' then InString(d)
      else if c == '{' then Out(d + 1)
      else if c == '}' then (if d <= 1 then Closed else Out(d - 1))
      else s
    case InString(d) => if c == '\\' then Escape(d) else if c == '"' then Out(d) else s
    case Escape(d) => InString(d)
    case Closed => Closed
  }

  function Run(text: string, s: Scan): Scan {
    if text == [] then s else Run(text[1..], Step(s, text[0]))
  }

  lemma {:induction false} RunConcat(a: string, b: string, s: Scan)
    ensures Run(a + b, s) == Run(b, Run(a, s))
    decreases |a|
  {
    if a == [] {
      assert a + b == b;
    } else {
      assert (a + b)[1..] == a[1..] + b;
      RunConcat(a[1..], b, Step(s, a[0]));
    }
  }

  lemma {:induction false} ClosedStays(text: string)
    ensures Run(text, Closed) == Closed
  {
    if text != [] { ClosedStays(text[1..]); }
  }

  /** The object that starts at `start` is closed by the character at `end`, and not before. */
  predicate ClosesAt(text: string, start: nat, end: nat) {
    && start <= end < |text| && text[start] == '{'
    && Run(text[start..end], Out(0)) != Closed && Run(text[start..end + 1], Out(0)) == Closed
  }

  lemma RunSnoc(text: string, start: nat, i: nat, s: Scan)
    requires start <= i < |text|
    ensures Run(text[start..i + 1], s) == Step(Run(text[start..i], s), text[i])
  {
    assert text[start..i + 1] == text[start..i] + [text[i]];
    RunConcat(text[start..i], [text[i]], s);
    assert [text[i]][1..] == [];
  }

  lemma ClosedLater(text: string, start: nat, e: nat, f: nat)
    requires start <= e <= f <= |text| && Run(text[start..e], Out(0)) == Closed
    ensures Run(text[start..f], Out(0)) == Closed
  {
    assert text[start..f] == text[start..e] + text[e..f];
    RunConcat(text[start..e], text[e..f], Out(0));
    ClosedStays(text[e..f]);
  }

  lemma ClosesAtOnce(text: string, start: nat, e: nat, f: nat)
    requires ClosesAt(text, start, e) && ClosesAt(text, start, f)
    ensures e == f
  {
    if e < f { ClosedLater(text, start, e + 1, f); }
    if f < e { ClosedLater(text, start, f + 1, e); }
  }

  method FindBalancedJsonObjectEnd(text: string, start: nat) returns (r: int)
    ensures r >= -1
    ensures r >= 0 ==> ClosesAt(text, start, r)
    ensures r == -1 ==> forall e: nat :: !ClosesAt(text, start, e)
  {
    if start >= |text| || text[start] != '{' { return -1; }
    var depth, inString, escape := 0, false, false;
    var i := start;
    while i < |text|
      invariant start <= i <= |text| && depth >= 0
      invariant i > start ==> depth >= 1
      invariant i == start ==> depth == 0 && !inString
      invariant escape ==> inString
      invariant Run(text[start..i], Out(0)) == if escape then Escape(depth) else if inString then InString(depth) else Out(depth)
    {
      var c := text[i];
      RunSnoc(text, start, i, Out(0));
      if inString {
        if escape { escape := false; }
        else if c == '\\' { escape := true; }
        else if c == '"' { inString := false; }
      } else if c == '"' {
        inString := true;
      } else if c == '{' {
        depth := depth + 1;
      } else if c == '}' {
        depth := depth - 1;
        if depth == 0 { return i; }
      }
      i := i + 1;
    }
    forall e: nat ensures !ClosesAt(text, start, e) {
      if start <= e < |text| && Run(text[start..e + 1], Out(0)) == Closed { ClosedLater(text, start, e + 1, |text|); }
    }
    return -1;
  }

  // ----- JSON texts (RFC 8259, sections 2 to 7) -----

  datatype StringChar = Plain(c: char) | Escaped(c: char) | Unicode(hex: string)

  /** `before` and `after` are the whitespace around a value. */
  datatype Json =
    | Atom(text: string)                               // number, true, false, null
    | Text(chars: seq<StringChar>)
    | Array(items: Items)
    | Object(members: Members)

  datatype Items =
    | NoItems(ws: string)
    | LastItem(before: string, value: Json, after: string)
    | MoreItems(before: string, value: Json, after: string, rest: Items)

  datatype Members =
    | NoMembers(ws: string)
    | LastMember(before: string, key: seq<StringChar>, afterKey: string, beforeValue: string, value: Json, after: string)
    | MoreMembers(before: string, key: seq<StringChar>, afterKey: string, beforeValue: string, value: Json, after: string, rest: Members)

  /** Text in which no quote or brace occurs: whitespace, punctuation, numbers and literals. */
  predicate Neutral(s: string) {
    forall c :: c in s ==> c != '"' && c != '{' && c != '}'
  }

  predicate GoodChar(c: StringChar) {
    match c
    case Plain(x) => x != '"' && x != '\\'
    case Escaped(x) => true
    case Unicode(hex) => |hex| == 4 && forall x :: x in hex ==> x != '"' && x != '\\'
  }

  predicate GoodChars(cs: seq<StringChar>) {
    forall c :: c in cs ==> GoodChar(c)
  }

  predicate GoodJson(v: Json) {
    match v
    case Atom(t) => Neutral(t)
    case Text(cs) => GoodChars(cs)
    case Array(items) => GoodItems(items)
    case Object(ms) => GoodMembers(ms)
  }

  predicate GoodItems(items: Items) {
    match items
    case NoItems(ws) => Neutral(ws)
    case LastItem(b, v, a) => Neutral(b) && GoodJson(v) && Neutral(a)
    case MoreItems(b, v, a, rest) => Neutral(b) && GoodJson(v) && Neutral(a) && GoodItems(rest)
  }

  predicate GoodMembers(ms: Members) {
    match ms
    case NoMembers(ws) => Neutral(ws)
    case LastMember(b, k, ak, bv, v, a) =>
      Neutral(b) && GoodChars(k) && Neutral(ak) && Neutral(bv) && GoodJson(v) && Neutral(a)
    case MoreMembers(b, k, ak, bv, v, a, rest) =>
      Neutral(b) && GoodChars(k) && Neutral(ak) && Neutral(bv) && GoodJson(v) && Neutral(a) && GoodMembers(rest)
  }

  function PrintChar(c: StringChar): string {
    match c
    case Plain(x) => [x]
    case Escaped(x) => ['\\', x]
    case Unicode(hex) => "\\u" + hex
  }

  function PrintChars(cs: seq<StringChar>): string {
    if cs == [] then [] else PrintChar(cs[0]) + PrintChars(cs[1..])
  }

  function PrintString(cs: seq<StringChar>): string {
    "\"" + PrintChars(cs) + "\""
  }

  function Print(v: Json): string {
    match v
    case Atom(t) => t
    case Text(cs) => PrintString(cs)
    case Array(items) => "[" + PrintItems(items) + "]"
    case Object(ms) => "{" + PrintMembers(ms) + "}"
  }

  function PrintItems(items: Items): string {
    match items
    case NoItems(ws) => ws
    case LastItem(b, v, a) => b + Print(v) + a
    case MoreItems(b, v, a, rest) => b + Print(v) + a + "," + PrintItems(rest)
  }

  function PrintMembers(ms: Members): string {
    match ms
    case NoMembers(ws) => ws
    case LastMember(b, k, ak, bv, v, a) => b + PrintString(k) + (ak + ":" + bv) + Print(v) + a
    case MoreMembers(b, k, ak, bv, v, a, rest) =>
      b + PrintString(k) + (ak + ":" + bv) + Print(v) + a + "," + PrintMembers(rest)
  }

  // ----- The scanner on printed values -----

  /** Scanning `text` outside strings at depth `d` comes back to the same place. */
  predicate Passes(text: string, d: nat) {
    Run(text, Out(d)) == Out(d)
  }

  lemma PassesConcat(a: string, b: string, d: nat)
    requires Passes(a, d) && Passes(b, d)
    ensures Passes(a + b, d)
  {
    RunConcat(a, b, Out(d));
  }

  lemma {:induction false} NeutralPasses(s: string, d: nat)
    requires Neutral(s)
    ensures Passes(s, d)
  {
    if s != [] {
      assert s[0] in s;
      assert forall c :: c in s[1..] ==> c in s;
      NeutralPasses(s[1..], d);
    }
  }

  lemma {:induction false} PlainInString(s: string, d: nat)
    requires forall c :: c in s ==> c != '"' && c != '\\'
    ensures Run(s, InString(d)) == InString(d)
  {
    if s != [] {
      assert s[0] in s;
      assert forall c :: c in s[1..] ==> c in s;
      PlainInString(s[1..], d);
    }
  }

  lemma CharInString(c: StringChar, d: nat)
    requires GoodChar(c)
    ensures Run(PrintChar(c), InString(d)) == InString(d)
  {
    match c
    case Plain(x) => PlainInString([x], d);
    case Escaped(x) =>
      assert ['\\', x][1..] == [x] && [x][1..] == [];
      assert Run([x], Escape(d)) == Run([], InString(d));
    case Unicode(hex) =>
      RunConcat("\\u", hex, InString(d));
      assert "\\u"[1..] == "u" && "u"[1..] == [];
      assert Run("u", Escape(d)) == Run([], InString(d));
      PlainInString(hex, d);
  }

  lemma {:induction false} CharsInString(cs: seq<StringChar>, d: nat)
    requires GoodChars(cs)
    ensures Run(PrintChars(cs), InString(d)) == InString(d)
  {
    if cs != [] {
      assert cs[0] in cs;
      assert forall c :: c in cs[1..] ==> c in cs;
      CharInString(cs[0], d);
      CharsInString(cs[1..], d);
      RunConcat(PrintChar(cs[0]), PrintChars(cs[1..]), InString(d));
    }
  }

  lemma StringPasses(cs: seq<StringChar>, d: nat)
    requires GoodChars(cs)
    ensures Passes(PrintString(cs), d)
  {
    CharsInString(cs, d);
    RunConcat("\"", PrintChars(cs), Out(d));
    RunConcat("\"" + PrintChars(cs), "\"", Out(d));
    assert "\""[1..] == [];
  }

  lemma {:induction false} ValuePasses(v: Json, d: nat)
    requires GoodJson(v) && d >= 1
    ensures Passes(Print(v), d)
    decreases v, 0
  {
    match v
    case Atom(t) => NeutralPasses(t, d);
    case Text(cs) => StringPasses(cs, d);
    case Array(items) =>
      ItemsPass(items, d);
      NeutralPasses("[", d);
      NeutralPasses("]", d);
      PassesConcat("[", PrintItems(items), d);
      PassesConcat("[" + PrintItems(items), "]", d);
    case Object(ms) =>
      ObjectBody(ms, d);
      RunConcat("{" + PrintMembers(ms), "}", Out(d));
      assert "}"[1..] == [];
  }

  /** Everything of an object but its last brace leaves the scanner one level deeper. */
  lemma {:induction false} ObjectBody(ms: Members, d: nat)
    requires GoodMembers(ms)
    ensures Run("{" + PrintMembers(ms), Out(d)) == Out(d + 1)
    decreases ms, 1
  {
    RunConcat("{", PrintMembers(ms), Out(d));
    assert "{"[1..] == [];
    assert Run("{", Out(d)) == Out(d + 1);
    MembersPass(ms, d + 1);
  }

  lemma {:induction false} ItemsPass(items: Items, d: nat)
    requires GoodItems(items) && d >= 1
    ensures Passes(PrintItems(items), d)
    decreases items, 0
  {
    if items.NoItems? {
      NeutralPasses(items.ws, d);
    } else {
      var head := items.before + Print(items.value) + items.after;
      NeutralPasses(items.before, d);
      ValuePasses(items.value, d);
      NeutralPasses(items.after, d);
      PassesConcat(items.before, Print(items.value), d);
      PassesConcat(items.before + Print(items.value), items.after, d);
      if items.MoreItems? {
        NeutralPasses(",", d);
        ItemsPass(items.rest, d);
        PassesConcat(head, ",", d);
        PassesConcat(head + ",", PrintItems(items.rest), d);
      }
    }
  }

  lemma {:induction false} MembersPass(ms: Members, d: nat)
    requires GoodMembers(ms) && d >= 1
    ensures Passes(PrintMembers(ms), d)
    decreases ms, 0
  {
    if ms.NoMembers? {
      NeutralPasses(ms.ws, d);
    } else {
      var colon := ms.afterKey + ":" + ms.beforeValue;
      var head := ms.before + PrintString(ms.key) + colon + Print(ms.value) + ms.after;
      NeutralPasses(ms.before, d);
      StringPasses(ms.key, d);
      NeutralPasses(colon, d);
      ValuePasses(ms.value, d);
      NeutralPasses(ms.after, d);
      PassesConcat(ms.before, PrintString(ms.key), d);
      PassesConcat(ms.before + PrintString(ms.key), colon, d);
      PassesConcat(ms.before + PrintString(ms.key) + colon, Print(ms.value), d);
      PassesConcat(ms.before + PrintString(ms.key) + colon + Print(ms.value), ms.after, d);
      if ms.MoreMembers? {
        NeutralPasses(",", d);
        MembersPass(ms.rest, d);
        PassesConcat(head, ",", d);
        PassesConcat(head + ",", PrintMembers(ms.rest), d);
      }
    }
  }

  /**
    For every JSON object text, whatever stands before and after it, the scan from
    its first brace ends at its last character.
  */
  lemma ScannerFindsPrintedObject(prefix: string, v: Json, suffix: string)
    requires GoodJson(v) && v.Object?
    ensures ClosesAt(prefix + Print(v) + suffix, |prefix|, |prefix| + |Print(v)| - 1)
  {
    var text, n := prefix + Print(v) + suffix, |prefix|;
    var end := n + |Print(v)| - 1;
    var body := "{" + PrintMembers(v.members);
    assert Print(v) == body + "}";
    assert text[n..end] == body && text[n..end + 1] == Print(v);
    ObjectBody(v.members, 0);
    RunConcat(body, "}", Out(0));
    assert "}"[1..] == [];
  }

  // ----- Extraction -----

  function EndFrom(text: string, i: nat, s: Scan): (r: Option<nat>)
    requires i <= |text|
    ensures r.Some? ==> i <= r.value < |text|
    decreases |text| - i
  {
    if i == |text| then None
    else
      var s' := Step(s, text[i]);
      if s' == Closed then Some(i) else EndFrom(text, i + 1, s')
  }

  /** Where the object that starts at `start` ends, if anywhere. */
  function End(text: string, start: nat): (r: Option<nat>)
    ensures r.Some? ==> start <= r.value < |text|
  {
    if start < |text| && text[start] == '{' then EndFrom(text, start, Out(0)) else None
  }

  lemma {:induction false} EndFromMeaning(text: string, start: nat, i: nat)
    requires start <= i <= |text| && start < |text| && text[start] == '{'
    requires Run(text[start..i], Out(0)) != Closed
    ensures var r := EndFrom(text, i, Run(text[start..i], Out(0)));
            if r.Some? then ClosesAt(text, start, r.value) else Run(text[start..], Out(0)) != Closed
    decreases |text| - i
  {
    if i == |text| {
      assert text[start..i] == text[start..];
    } else {
      RunSnoc(text, start, i, Out(0));
      if Run(text[start..i + 1], Out(0)) != Closed { EndFromMeaning(text, start, i + 1); }
    }
  }

  lemma EndMeaning(text: string, start: nat)
    ensures End(text, start).Some? ==> ClosesAt(text, start, End(text, start).value)
    ensures forall e: nat :: ClosesAt(text, start, e) ==> End(text, start) == Some(e)
  {
    if start < |text| && text[start] == '{' {
      assert text[start..start] == [];
      EndFromMeaning(text, start, start);
      assert text[start..|text|] == text[start..];
      forall e: nat | ClosesAt(text, start, e) ensures End(text, start) == Some(e) {
        if End(text, start).Some? {
          ClosesAtOnce(text, start, e, End(text, start).value);
        } else {
          ClosedLater(text, start, e + 1, |text|);
        }
      }
    }
  }

  const SCHEMA_KEY := "\"schema_version\""

  function Extract(text: string, i: nat): seq<string>
    requires i <= |text|
    decreases |text| - i
  {
    if i == |text| then []
    else
      var end := End(text, i);
      if end.None? then Extract(text, i + 1)
      else
        var slice := text[i..end.value + 1];
        (if Wants(slice) then [slice] else []) + Extract(text, end.value + 1)
  }

  datatype Span = Span(start: nat, end: nat)

  predicate Wants(slice: string) {
    Contains(slice, SCHEMA_KEY)
  }

  /** An object is taken if and only if the quoted name of the schema key stands in it. */
  lemma WantsIff(slice: string)
    ensures Wants(slice) <==> exists a: string, b: string :: slice == a + ("\"schema_version\"" + b)
  {
    var key := SCHEMA_KEY;
    if Wants(slice) {
      var k: nat :| k <= |slice| && OccursAt(slice, key, k);
      assert slice == slice[..k] + (key + slice[k + |key|..]);
    }
    if a: string, b: string :| slice == a + (key + b) {
      assert OccursAt(slice, key, |a|);
    }
  }

  /** Slices that lie in order without overlap before `limit`, each one balanced and holding the schema key. */
  predicate GoodSpans(text: string, spans: seq<Span>, out: seq<string>, limit: nat) {
    && |spans| == |out|
    && (forall k :: 0 <= k < |spans| ==> GoodSpan(text, spans[k], out[k]) && spans[k].end < limit)
    && (forall k :: 0 <= k < |spans| - 1 ==> spans[k].end < spans[k + 1].start)
  }

  predicate GoodSpan(text: string, span: Span, slice: string) {
    ClosesAt(text, span.start, span.end) && slice == text[span.start..span.end + 1] && Wants(slice)
  }

  lemma OneMoreSpan(text: string, spans: seq<Span>, out: seq<string>, start: nat, end: nat)
    requires GoodSpans(text, spans, out, start) && ClosesAt(text, start, end) && Wants(text[start..end + 1])
    ensures GoodSpans(text, spans + [Span(start, end)], out + [text[start..end + 1]], end + 1)
  {
  }

  lemma Reassociate(out: seq<string>, slice: string, rest: seq<string>)
    ensures out + ([slice] + rest) == (out + [slice]) + rest
  {
  }

  lemma ExtractSkip(text: string, i: nat)
    requires i < |text| && forall e: nat :: !ClosesAt(text, i, e)
    ensures Extract(text, i) == Extract(text, i + 1)
  {
    EndMeaning(text, i);
  }

  lemma NotOpen(text: string, i: nat)
    requires i < |text| && text[i] != '{'
    ensures Extract(text, i) == Extract(text, i + 1)
  {
  }

  lemma MoreRoom(text: string, spans: seq<Span>, out: seq<string>, limit: nat, limit': nat)
    requires GoodSpans(text, spans, out, limit) && limit <= limit'
    ensures GoodSpans(text, spans, out, limit')
  {
  }

  lemma TakeSlice(text: string, spans: seq<Span>, out: seq<string>, i: nat, end: nat)
    requires GoodSpans(text, spans, out, i) && ClosesAt(text, i, end)
    ensures var slice := text[i..end + 1];
            if Wants(slice) then
              && GoodSpans(text, spans + [Span(i, end)], out + [slice], end + 1)
              && out + Extract(text, i) == (out + [slice]) + Extract(text, end + 1)
            else GoodSpans(text, spans, out, end + 1) && Extract(text, i) == Extract(text, end + 1)
  {
    ExtractAt(text, i, end);
    if Wants(text[i..end + 1]) {
      OneMoreSpan(text, spans, out, i, end);
      Reassociate(out, text[i..end + 1], Extract(text, end + 1));
    } else {
      MoreRoom(text, spans, out, i, end + 1);
    }
  }

  method ExtractSchemaVersionJsonObjects(text: string) returns (out: seq<string>, spans: seq<Span>)
    ensures out == Extract(text, 0)
    ensures GoodSpans(text, spans, out, |text|)
  {
    out, spans := [], [];
    var i := 0;
    while i < |text|
      invariant 0 <= i <= |text|
      invariant out + Extract(text, i) == Extract(text, 0)
      invariant GoodSpans(text, spans, out, i)
    {
      if text[i] != '{' {
        NotOpen(text, i);
        MoreRoom(text, spans, out, i, i + 1);
        i := i + 1;
        continue;
      }
      var end := FindBalancedJsonObjectEnd(text, i);
      if end == -1 {
        ExtractSkip(text, i);
        MoreRoom(text, spans, out, i, i + 1);
        i := i + 1;
        continue;
      }
      var slice := text[i..end + 1];
      TakeSlice(text, spans, out, i, end);
      if Wants(slice) {
        out, spans := out + [slice], spans + [Span(i, end)];
      }
      i := end + 1;
    }
  }

  // ----- Recovering every printed object -----

  /** From position i on, every object that is opened where the extraction looks is closed in this text. */
  predicate Contained(gap: string, i: nat)
    requires i <= |gap|
    decreases |gap| - i
  {
    i == |gap| || if End(gap, i).Some? then Contained(gap, End(gap, i).value + 1) else gap[i] != '{' && Contained(gap, i + 1)
  }

  /** Prose in which braces only stand for complete objects without the schema key. */
  predicate GoodGap(gap: string) {
    Contained(gap, 0) && Extract(gap, 0) == []
  }

  /** Model output: prose around printed objects. */
  datatype Document = Prose(gap: string) | Then(gap: string, value: Json, rest: Document)

  predicate GoodDocument(d: Document) {
    match d
    case Prose(gap) => GoodGap(gap)
    case Then(gap, v, rest) => GoodGap(gap) && v.Object? && GoodJson(v) && GoodDocument(rest)
  }

  function DocumentText(d: Document): string {
    match d
    case Prose(gap) => gap
    case Then(gap, v, rest) => gap + Print(v) + DocumentText(rest)
  }

  /** The printed objects that carry the schema key, in order. */
  function Wanted(d: Document): seq<string> {
    match d
    case Prose(_) => []
    case Then(_, v, rest) => (if Wants(Print(v)) then [Print(v)] else []) + Wanted(rest)
  }

  /** What closes in a part of a text closes in the text. */
  lemma ClosesInside(prefix: string, part: string, rest: string, i: nat, e: nat)
    requires ClosesAt(part, i, e)
    ensures ClosesAt(prefix + part + rest, |prefix| + i, |prefix| + e)
    ensures (prefix + part + rest)[|prefix| + i..|prefix| + e + 1] == part[i..e + 1]
  {
    var text, n := prefix + part + rest, |prefix|;
    assert text[n + i..n + e] == part[i..e] && text[n + i..n + e + 1] == part[i..e + 1] && text[n + i] == part[i];
  }

  lemma {:induction false} SkipContained(prefix: string, gap: string, rest: string, i: nat)
    requires i <= |gap| && Contained(gap, i) && Extract(gap, i) == []
    ensures Extract(prefix + gap + rest, |prefix| + i) == Extract(prefix + gap + rest, |prefix + gap|)
    decreases |gap| - i
  {
    if i < |gap| {
      if End(gap, i).Some? {
        var e := End(gap, i).value;
        EndMeaning(gap, i);
        ExtractAt(gap, i, e);
        PassOver(prefix, gap, rest, i, e);
        SkipContained(prefix, gap, rest, e + 1);
      } else {
        assert (prefix + gap + rest)[|prefix| + i] == gap[i];
        NotOpen(gap, i);
        NotOpen(prefix + gap + rest, |prefix| + i);
        SkipContained(prefix, gap, rest, i + 1);
      }
    }
  }

  lemma PassOver(prefix: string, gap: string, rest: string, i: nat, e: nat)
    requires ClosesAt(gap, i, e) && !Wants(gap[i..e + 1])
    ensures Extract(prefix + gap + rest, |prefix| + i) == Extract(prefix + gap + rest, |prefix| + e + 1)
  {
    ClosesInside(prefix, gap, rest, i, e);
    ExtractAt(prefix + gap + rest, |prefix| + i, |prefix| + e);
  }

  lemma SkipGap(prefix: string, gap: string, rest: string)
    requires GoodGap(gap)
    ensures Extract(prefix + gap + rest, |prefix|) == Extract(prefix + gap + rest, |prefix + gap|)
  {
    SkipContained(prefix, gap, rest, 0);
  }

  lemma ExtractAt(text: string, i: nat, e: nat)
    requires ClosesAt(text, i, e)
    ensures Extract(text, i) == (if Wants(text[i..e + 1]) then [text[i..e + 1]] else []) + Extract(text, e + 1)
  {
    EndMeaning(text, i);
  }

  lemma Middle(prefix: string, p: string, rest: string)
    ensures (prefix + p + rest)[|prefix|..|prefix| + |p|] == p && |prefix + p| == |prefix| + |p|
  {
  }

  lemma ExtractHead(prefix: string, p: string, rest: string)
    requires p != [] && ClosesAt(prefix + p + rest, |prefix|, |prefix| + |p| - 1)
    ensures Extract(prefix + p + rest, |prefix|)
         == (if Wants(p) then [p] else []) + Extract(prefix + p + rest, |prefix + p|)
  {
    ExtractAt(prefix + p + rest, |prefix|, |prefix| + |p| - 1);
    Middle(prefix, p, rest);
  }

  lemma ExtractThen(prefix: string, gap: string, p: string, rest: string)
    requires GoodGap(gap) && p != []
    requires ClosesAt(prefix + gap + p + rest, |prefix + gap|, |prefix + gap| + |p| - 1)
    ensures Extract(prefix + (gap + p + rest), |prefix|)
         == (if Wants(p) then [p] else []) + Extract(prefix + gap + p + rest, |prefix + gap + p|)
  {
    assert prefix + (gap + p + rest) == prefix + gap + (p + rest) == prefix + gap + p + rest;
    SkipGap(prefix, gap, p + rest);
    ExtractHead(prefix + gap, p, rest);
  }

  lemma {:induction false} ExtractDocument(prefix: string, d: Document)
    requires GoodDocument(d)
    ensures Extract(prefix + DocumentText(d), |prefix|) == Wanted(d)
    decreases d
  {
    match d
    case Prose(gap) =>
      SkipGap(prefix, gap, []);
      assert prefix + gap + [] == prefix + gap;
    case Then(gap, v, d') =>
      ScannerFindsPrintedObject(prefix + gap, v, DocumentText(d'));
      ExtractThen(prefix, gap, Print(v), DocumentText(d'));
      ExtractDocument(prefix + gap + Print(v), d');
  }

  /** Extraction returns exactly the printed objects with the schema key, in document order. */
  lemma ExtractionRecoversObjects(d: Document)
    requires GoodDocument(d)
    ensures Extract(DocumentText(d), 0) == Wanted(d)
  {
    assert [] + DocumentText(d) == DocumentText(d);
    ExtractDocument([], d);
  }

  // ----- Broken drafts before the printed objects -----

  /** Prose in which every quote and every brace is closed. */
  predicate Calm(gap: string) {
    Run(gap, Out(1)) == Out(1)
  }

  predicate CalmGaps(d: Document) {
    match d
    case Prose(gap) => Calm(gap)
    case Then(gap, _, rest) => Calm(gap) && CalmGaps(rest)
  }

  function Deeper(s: Scan, k: nat): Scan {
    match s
    case Out(d) => Out(d + k)
    case InString(d) => InString(d + k)
    case Escape(d) => Escape(d + k)
    case Closed => Closed
  }

  /** A scan that is not closed runs the same at greater depth. */
  lemma {:induction false} SameDeeper(text: string, s: Scan, k: nat)
    requires s != Closed && s.depth >= 1 && Run(text, s) != Closed
    ensures Run(text, Deeper(s, k)) == Deeper(Run(text, s), k)
  {
    if text != [] {
      if Step(s, text[0]) == Closed { ClosedStays(text[1..]); }
      SameDeeper(text[1..], Step(s, text[0]), k);
    }
  }

  lemma {:induction false} DocumentPasses(d: Document, depth: nat)
    requires GoodDocument(d) && CalmGaps(d) && depth >= 1
    ensures Passes(DocumentText(d), depth)
  {
    SameDeeper(d.gap, Out(1), depth - 1);
    if d.Then? {
      ValuePasses(d.value, depth);
      DocumentPasses(d.rest, depth);
      PassesConcat(d.gap, Print(d.value), depth);
      PassesConcat(d.gap + Print(d.value), DocumentText(d.rest), depth);
    }
  }

  lemma {:induction false} DepthStays(text: string, s: Scan)
    requires s != Closed && s.depth >= 1 && Run(text, s) != Closed
    ensures Run(text, s).depth >= 1
  {
    if text != [] {
      if Step(s, text[0]) == Closed { ClosedStays(text[1..]); }
      DepthStays(text[1..], Step(s, text[0]));
    }
  }

  lemma OpenDepth(head: string, k: nat)
    requires k < |head| && head[k] == '{' && Run(head[k..], Out(0)) != Closed
    ensures Run(head[k..], Out(0)).depth >= 1
  {
    assert Step(Out(0), head[k]) == Out(1);
    DepthStays(head[k..][1..], Out(1));
  }

  /** An object opened in the draft, whose end is outside any string, is not closed by the printed objects. */
  lemma OpenStaysOpen(head: string, d: Document, k: nat)
    requires GoodDocument(d) && CalmGaps(d) && k < |head|
    requires head[k] == '{' ==> Run(head[k..], Out(0)).Out?
    ensures End(head + DocumentText(d), k).None?
  {
    var text := head + DocumentText(d);
    assert text[k] == head[k];
    if head[k] == '{' {
      OpenDepth(head, k);
      DocumentPasses(d, Run(head[k..], Out(0)).depth);
      RunConcat(head[k..], DocumentText(d), Out(0));
      assert text[k..|text|] == head[k..] + DocumentText(d);
      NeverClosed(text, k);
    }
  }

  lemma NeverClosed(text: string, k: nat)
    requires k < |text| && Run(text[k..|text|], Out(0)) != Closed
    ensures End(text, k).None?
  {
    EndMeaning(text, k);
    if End(text, k).Some? { ClosedLater(text, k, End(text, k).value + 1, |text|); }
  }

  /** Where the extraction looks next in this text. */
  function Next(head: string, i: nat): (j: nat)
    requires i < |head|
    ensures i < j <= |head|
  {
    if End(head, i).Some? then End(head, i).value + 1 else i + 1
  }

  /** An object that is opened here is not closed, and the text ends inside one of its strings. */
  predicate CutInside(head: string, i: nat)
    requires i < |head|
  {
    End(head, i).None? && head[i] == '{' && !Run(head[i..], Out(0)).Out?
  }

  /** No object that the extraction looks at from position i on is cut inside a string. */
  predicate WalkOk(head: string, i: nat)
    requires i <= |head|
    decreases |head| - i
  {
    i == |head| || (!CutInside(head, i) && WalkOk(head, Next(head, i)))
  }

  /** From position i on, the extraction takes what it takes of the draft alone, and then the printed objects. */
  predicate Agrees(head: string, d: Document, i: nat)
    requires i <= |head|
  {
    Extract(head + DocumentText(d), i) == Extract(head, i) + Wanted(d)
  }

  lemma SamePrefix(a: seq<string>, x: seq<string>, y: seq<string>, z: seq<string>)
    ensures a + x == (a + y) + z <==> x == y + z
  {
    assert (a + y) + z == a + (y + z);
    if a + x == a + (y + z) {
      assert x == (a + x)[|a|..] && y + z == (a + (y + z))[|a|..];
    }
  }

  /** An object that is complete in the head is taken, or passed over, the same with a text after it. */
  lemma ClosedStep(head: string, doc: string, i: nat, e: nat)
    requires ClosesAt(head, i, e)
    ensures var first := if Wants(head[i..e + 1]) then [head[i..e + 1]] else [];
            && Extract(head, i) == first + Extract(head, e + 1)
            && Extract(head + doc, i) == first + Extract(head + doc, e + 1)
  {
    ClosesInside([], head, doc, i, e);
    assert [] + head + doc == head + doc;
    ExtractAt(head, i, e);
    ExtractAt(head + doc, i, e);
  }

  lemma ClosedAgrees(head: string, d: Document, i: nat, e: nat)
    requires ClosesAt(head, i, e)
    ensures Agrees(head, d, i) <==> Agrees(head, d, e + 1)
  {
    ClosedStep(head, DocumentText(d), i, e);
    var first := if Wants(head[i..e + 1]) then [head[i..e + 1]] else [];
    SamePrefix(first, Extract(head + DocumentText(d), e + 1), Extract(head, e + 1), Wanted(d));
  }

  lemma WalkStep(head: string, d: Document, i: nat)
    requires GoodDocument(d) && CalmGaps(d) && i < |head| && !CutInside(head, i)
    ensures Agrees(head, d, i) <==> Agrees(head, d, Next(head, i))
  {
    if End(head, i).Some? {
      EndMeaning(head, i);
      ClosedAgrees(head, d, i, End(head, i).value);
    } else {
      OpenStaysOpen(head, d, i);
    }
  }

  /**
    Drafts of any content, of which no object that is looked at is cut inside a
    string, do not hide the complete objects after them.
  */
  lemma {:induction false} DraftsDoNotHide(head: string, d: Document, i: nat)
    requires GoodDocument(d) && CalmGaps(d) && i <= |head| && WalkOk(head, i)
    ensures Agrees(head, d, i)
    decreases |head| - i
  {
    if i == |head| {
      ExtractDocument(head, d);
    } else {
      WalkStep(head, d, i);
      DraftsDoNotHide(head, d, Next(head, i));
    }
  }

  lemma BrokenDraftDoesNotHide(head: string, d: Document)
    requires WalkOk(head, 0) && GoodDocument(d) && CalmGaps(d)
    ensures Extract(head + DocumentText(d), 0) == Extract(head, 0) + Wanted(d)
  {
    DraftsDoNotHide(head, d, 0);
  }

  // ----- Drafts cut inside a string -----

  function Plains(s: string): seq<StringChar> {
    seq(|s|, i requires 0 <= i < |s| => Plain(s[i]))
  }

  lemma {:induction false} PlainsPrint(s: string)
    ensures PrintChars(Plains(s)) == s
  {
    if s != [] {
      assert Plains(s)[1..] == Plains(s[1..]);
      PlainsPrint(s[1..]);
    }
  }

  function Braces(n: nat): string {
    seq(n, _ => '}')
  }

  function Quoted(s: string): string {
    "\"" + s + "\""
  }

  /** A complete object with one member, whose value is a string of n closing braces. */
  function BraceObject(key: string, n: nat): Json {
    Object(LastMember("", Plains(key), "", "", Text(Plains(Braces(n))), ""))
  }

  function BraceDocument(key: string, n: nat): Document {
    Then("", BraceObject(key, n), Prose(""))
  }

  /** The object's text up to its value. */
  function UpToValue(key: string): string {
    "{" + (Quoted(key) + ":\"")
  }

  lemma BraceObjectText(key: string, n: nat)
    ensures Print(BraceObject(key, n)) == UpToValue(key) + (Braces(n) + "\"}")
  {
    PlainsPrint(key);
    PlainsPrint(Braces(n));
    var k, v := Quoted(key), Quoted(Braces(n));
    assert PrintString(Plains(key)) == k && PrintString(Plains(Braces(n))) == v;
    assert PrintMembers(BraceObject(key, n).members) == k + ":" + v;
  }

  lemma BraceDocumentText(key: string, n: nat)
    requires Neutral(key) && '\\' !in key
    ensures DocumentText(BraceDocument(key, n)) == Print(BraceObject(key, n))
    ensures GoodDocument(BraceDocument(key, n)) && CalmGaps(BraceDocument(key, n))
  {
    var p := Print(BraceObject(key, n));
    assert "" + p + "" == p;
    forall c | c in Plains(key) ensures GoodChar(c) {
      var i :| 0 <= i < |key| && c == Plain(key[i]);
      assert key[i] in key;
    }
    assert GoodChars(Plains(Braces(n)));
  }

  lemma {:induction false} BracesClose(n: nat, m: nat)
    requires m <= n && n >= 1
    ensures Run(Braces(m), Out(n)) == if m < n then Out(n - m) else Closed
  {
    if m > 0 {
      assert Braces(m) == Braces(m - 1) + ['}'];
      RunConcat(Braces(m - 1), ['}'], Out(n));
      BracesClose(n, m - 1);
      RunOne('}', Run(Braces(m - 1), Out(n)));
    }
  }

  lemma RunOne(a: char, s: Scan)
    ensures Run([a], s) == Step(s, a)
  {
    assert [a][1..] == [];
  }

  lemma RunTwo(a: char, b: char, s: Scan)
    ensures Run([a, b], s) == Step(Step(s, a), b)
  {
    assert [a, b] == [a] + [b];
    RunConcat([a], [b], s);
    RunOne(a, s);
    RunOne(b, Step(s, a));
  }

  /** Inside a string, the object's first quote ends that string and its value lies outside strings. */
  lemma ObjectFlips(key: string, n: nat, s: Scan)
    requires Neutral(key) && (s == InString(n) || s == Escape(n))
    ensures Run(UpToValue(key), s) == Out(n)
  {
    assert UpToValue(key) == ['{', '"'] + (key + (['"', ':'] + ['"']));
    RunConcat(['{', '"'], key + (['"', ':'] + ['"']), s);
    RunTwo('{', '"', s);
    RunConcat(key, ['"', ':'] + ['"'], Out(n));
    NeutralPasses(key, n);
    RunConcat(['"', ':'], ['"'], Out(n));
    RunTwo('"', ':', Out(n));
    RunOne('"', InString(n));
  }

  lemma SliceOf(head: string, k: nat, pre: string, value: string, tail: string)
    requires k <= |head|
    ensures (head + (pre + (value + tail)))[k..|head| + |pre| + |value|] == (head[k..] + pre) + value
  {
  }

  /** Where an object of the draft that is cut inside a string is closed: in the value of the next object. */
  lemma CutStringCloses(head: string, k: nat, key: string, n: nat)
    requires Neutral(key) && k < |head| && head[k] == '{' && n >= 1
    requires Run(head[k..], Out(0)) == InString(n) || Run(head[k..], Out(0)) == Escape(n)
    ensures ClosesAt(head + Print(BraceObject(key, n)), k, |head| + |UpToValue(key)| + n - 1)
  {
    var pre := UpToValue(key);
    RunConcat(head[k..], pre, Out(0));
    ObjectFlips(key, n, Run(head[k..], Out(0)));
    BraceSlices(head, k, key, n);
    ClosesByBraces(head + Print(BraceObject(key, n)), k, |head| + |pre| + n - 1, head[k..] + pre, n);
  }

  lemma BraceSlices(head: string, k: nat, key: string, n: nat)
    requires k < |head| && n >= 1
    ensures var text, e, a := head + Print(BraceObject(key, n)), |head| + |UpToValue(key)| + n - 1, head[k..] + UpToValue(key);
            e < |text| && text[k] == head[k] && text[k..e] == a + Braces(n - 1) && text[k..e + 1] == a + Braces(n)
  {
    BraceObjectText(key, n);
    SliceOf(head, k, UpToValue(key), Braces(n), "\"}");
    SliceOf(head, k, UpToValue(key), Braces(n - 1), "}" + "\"}");
    assert Braces(n) + "\"}" == Braces(n - 1) + ("}" + "\"}");
  }

  lemma ClosesByBraces(text: string, k: nat, e: nat, a: string, n: nat)
    requires k <= e < |text| && text[k] == '{' && n >= 1 && Run(a, Out(0)) == Out(n)
    requires text[k..e] == a + Braces(n - 1) && text[k..e + 1] == a + Braces(n)
    ensures ClosesAt(text, k, e)
  {
    RunConcat(a, Braces(n - 1), Out(0));
    RunConcat(a, Braces(n), Out(0));
    BracesClose(n, n - 1);
    BracesClose(n, n);
  }

  /** Whatever complete objects follow, all that carry the schema key are extracted after those of the draft. */
  ghost predicate HidesNothing(head: string) {
    forall d :: GoodDocument(d) && CalmGaps(d) ==> Extract(head + DocumentText(d), 0) == Extract(head, 0) + Wanted(d)
  }

  lemma OtherSlice(head: string, k: nat, pre: string, value: string)
    requires k < |head| && |pre| > 2 && pre[0] == '{' && pre[2] != '{'
    ensures head[k..] + (pre + value) != pre + (value + "\"}")
  {
    var a, b := head[k..] + (pre + value), pre + (value + "\"}");
    if |a| == |b| {
      assert a[2] == pre[0] && b[2] == pre[2];
    }
  }

  lemma SliceHasKey(a: string, key: string, value: string)
    ensures Contains(a + (UpToValue(key) + value), Quoted(key))
  {
    var s := a + (UpToValue(key) + value);
    assert s == (a + "{") + Quoted(key) + (":\"" + value);
    assert OccursAt(s, Quoted(key), |a| + 1);
  }

  lemma FirstSlice(text: string, k: nat, e: nat, p: string, limit: nat)
    requires ClosesAt(text, k, e) && Wants(text[k..e + 1]) && text[k..e + 1] != p && e + 1 - k > limit
    ensures Extract(text, k) != [] && Extract(text, k)[0] != p && |Extract(text, k)[0]| > limit
  {
    ExtractAt(text, k, e);
  }

  lemma CutSlice(head: string, k: nat, key: string, n: nat)
    requires Neutral(key) && key != [] && SCHEMA_KEY == Quoted(key) && k < |head|
    ensures var slice := (head[k..] + UpToValue(key)) + Braces(n);
            Wants(slice) && slice != UpToValue(key) + (Braces(n) + "\"}")
  {
    Associate(head[k..], UpToValue(key), Braces(n));
    SliceHasKey(head[k..], key, Braces(n));
    KeyAfterQuote(key);
    OtherSlice(head, k, UpToValue(key), Braces(n));
  }

  /** The extraction takes the draft together with part of the object after it for one object. */
  lemma CutStringExtract(head: string, k: nat, key: string, n: nat)
    requires Neutral(key) && key != [] && SCHEMA_KEY == Quoted(key) && k < |head| && head[k] == '{' && n >= 1
    requires Run(head[k..], Out(0)) == InString(n) || Run(head[k..], Out(0)) == Escape(n)
    ensures var r := Extract(head + Print(BraceObject(key, n)), k);
            r != [] && r[0] != Print(BraceObject(key, n)) && |r[0]| > |head| - k
  {
    CutStringCloses(head, k, key, n);
    CutWanted(head, k, key, n);
    var p := Print(BraceObject(key, n));
    FirstSlice(head + p, k, |head| + |UpToValue(key)| + n - 1, p, |head| - k);
  }

  lemma CutWanted(head: string, k: nat, key: string, n: nat)
    requires Neutral(key) && key != [] && SCHEMA_KEY == Quoted(key) && k < |head| && n >= 1
    ensures var text, e := head + Print(BraceObject(key, n)), |head| + |UpToValue(key)| + n - 1;
            && e < |text| && Wants(text[k..e + 1])
            && text[k..e + 1] != Print(BraceObject(key, n)) && e >= |head|
  {
    BraceObjectText(key, n);
    BraceSlices(head, k, key, n);
    CutSlice(head, k, key, n);
  }

  /** The slices of a text from position i on are no longer than what is left of it. */
  lemma {:induction false} SlicesFit(head: string, i: nat)
    requires i <= |head|
    ensures forall x :: x in Extract(head, i) ==> |x| <= |head| - i
    decreases |head| - i
  {
    if i < |head| {
      SlicesFit(head, Next(head, i));
      if End(head, i).Some? {
        EndMeaning(head, i);
        ExtractAt(head, i, End(head, i).value);
      }
    }
  }

  lemma Associate(a: string, b: string, c: string)
    ensures (a + b) + c == a + (b + c)
  {
  }

  lemma KeyAfterQuote(key: string)
    requires Neutral(key) && key != []
    ensures var pre := UpToValue(key); |pre| > 2 && pre[0] == '{' && pre[2] != '{'
  {
    assert UpToValue(key)[2] == key[0] && key[0] in key;
  }

  lemma SchemaKeyIsQuoted()
    ensures SCHEMA_KEY == Quoted("schema_version") && Neutral("schema_version") && '\\' !in "schema_version"
  {
  }

  /** The position of the first object that is looked at and cut inside a string. */
  function FirstCut(head: string, i: nat): (k: nat)
    requires i <= |head| && !WalkOk(head, i)
    ensures i <= k < |head| && CutInside(head, k)
    decreases |head| - i
  {
    if CutInside(head, i) then i else FirstCut(head, Next(head, i))
  }

  lemma {:induction false} AgreesAtCut(head: string, d: Document, i: nat)
    requires GoodDocument(d) && CalmGaps(d) && i <= |head| && !WalkOk(head, i)
    ensures Agrees(head, d, i) <==> Agrees(head, d, FirstCut(head, i))
    decreases |head| - i
  {
    if !CutInside(head, i) {
      WalkStep(head, d, i);
      AgreesAtCut(head, d, Next(head, i));
    }
  }

  lemma CutDepth(head: string, k: nat)
    requires k < |head| && CutInside(head, k)
    ensures var s := Run(head[k..], Out(0)); (s.InString? || s.Escape?) && s.depth >= 1
  {
    StillOpen(head, k);
    OpenDepth(head, k);
  }

  lemma StillOpen(head: string, k: nat)
    requires k < |head| && head[k] == '{' && End(head, k).None?
    ensures Run(head[k..], Out(0)) != Closed
  {
    assert head[k..k] == [];
    EndFromMeaning(head, k, k);
  }

  /** A first slice that is neither in the head nor the printed object. */
  lemma FirstDiffers(r: seq<string>, a: seq<string>, wanted: seq<string>, p: string, limit: nat)
    requires r != [] && r[0] != p && |r[0]| > limit && (wanted == [] || wanted == [p])
    requires forall x :: x in a ==> |x| <= limit
    ensures r != a + wanted
  {
    if a != [] {
      assert (a + wanted)[0] == a[0] && a[0] in a;
    } else {
      assert a + wanted == wanted;
    }
  }

  lemma WantedOne(key: string, n: nat)
    ensures var wanted := Wanted(BraceDocument(key, n)); wanted == [] || wanted == [Print(BraceObject(key, n))]
  {
    assert [Print(BraceObject(key, n))] + [] == [Print(BraceObject(key, n))];
  }

  lemma CutDisagrees(head: string, k: nat, key: string, n: nat)
    requires Neutral(key) && '\\' !in key && key != [] && SCHEMA_KEY == Quoted(key)
    requires k < |head| && head[k] == '{' && n >= 1
    requires Run(head[k..], Out(0)) == InString(n) || Run(head[k..], Out(0)) == Escape(n)
    ensures !Agrees(head, BraceDocument(key, n), k)
  {
    BraceDocumentText(key, n);
    CutStringExtract(head, k, key, n);
    SlicesFit(head, k);
    WantedOne(key, n);
    FirstDiffers(Extract(head + Print(BraceObject(key, n)), k), Extract(head, k), Wanted(BraceDocument(key, n)),
                 Print(BraceObject(key, n)), |head| - k);
  }

  /** Drafts of which an object that is looked at is cut inside a string hide an object. */
  lemma CutStringHides(head: string, key: string)
    requires !WalkOk(head, 0) && Neutral(key) && '\\' !in key && key != [] && SCHEMA_KEY == Quoted(key)
    ensures !HidesNothing(head)
  {
    var k := FirstCut(head, 0);
    CutDepth(head, k);
    var n := Run(head[k..], Out(0)).depth;
    BraceDocumentText(key, n);
    AgreesAtCut(head, BraceDocument(key, n), 0);
    CutDisagrees(head, k, key, n);
  }

  /** Any draft hides nothing exactly when no object of it that is looked at is cut inside a string. */
  lemma DraftHidesNothingIff(head: string)
    ensures HidesNothing(head) <==> WalkOk(head, 0)
  {
    if WalkOk(head, 0) {
      forall d | GoodDocument(d) && CalmGaps(d)
        ensures Extract(head + DocumentText(d), 0) == Extract(head, 0) + Wanted(d)
      {
        BrokenDraftDoesNotHide(head, d);
      }
    } else {
      SchemaKeyIsQuoted();
      CutStringHides(head, "schema_version");
    }
  }

  /** The shortest such draft: an opening brace and an opening quote. */
  lemma CutStringHidesAnObject()
    ensures !HidesNothing("{\"")
  {
    var head := ['{', '"'];
    RunTwo('{', '"', Out(0));
    assert head[0..] == head && head[0..|head|] == head;
    NeverClosed(head, 0);
    DraftHidesNothingIff(head);
  }
}
