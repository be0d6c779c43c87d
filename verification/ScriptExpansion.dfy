/**
  Trusted expansion of package-manager script runners (core/scripts/config.ts).

  A script body is a sequence of shell tokens in which every package-manager
  runner that the engine's regular expression recognises is one token. The
  expander is flat: it replaces runner tokens by parenthesised text and never
  parses the shell language. Its meaning theorem is stated against a parser and
  an evaluator of that language.
*/
module ScriptExpansion {
  import opened Prelude

  datatype Token =
    | Lit(text: string)      // a simple command: opaque text
    | Runner(name: string)   // `npm test`, `pnpm run x`, ...
    | AndTok | OrTok | SeqTok | Open | Close

  type Scripts = map<string, seq<Token>>

  // ----- Residual package-manager words -----

  predicate WordChar(c: char) {
    'a' <= c <= 'z' || 'A' <= c <= 'Z' || '0' <= c <= '9' || c == '_'
  }

  predicate WordAt(s: string, i: nat, w: string) {
    && i + |w| <= |s| && s[i..i + |w|] == w
    && (i == 0 || !WordChar(s[i - 1]))
    && (i + |w| == |s| || !WordChar(s[i + |w|]))
  }

  predicate HasPmWord(s: string) {
    exists i :: 0 <= i < |s| && (WordAt(s, i, "npm") || WordAt(s, i, "pnpm") || WordAt(s, i, "yarn"))
  }

  ghost predicate OutsideWords(c: char) {
    c != '_' && !('a' <= c <= 'z') && !('A' <= c <= 'Z') && !('0' <= c <= '9')
  }

  /**
    The text holds one of the three words, at its start or after a character that
    cannot be part of a word, and at its end or before such a character.
  */
  ghost predicate NamesManager(text: string) {
    exists a: string, w: string, b: string ::
      && text == a + w + b && (w == "npm" || w == "pnpm" || w == "yarn")
      && (a == [] || OutsideWords(a[|a| - 1])) && (b == [] || OutsideWords(b[0]))
  }

  lemma WordAtForm(s: string, i: nat, w: string)
    requires w == "npm" || w == "pnpm" || w == "yarn"
    ensures i < |s| && WordAt(s, i, w) ==> NamesManager(s)
  {
    if i < |s| && WordAt(s, i, w) {
      var a, b := s[..i], s[i + |w|..];
      assert s == a + w + b;
    }
  }

  /** The residual test finds exactly these texts. */
  lemma PmWordForm(s: string)
    ensures HasPmWord(s) <==> NamesManager(s)
  {
    forall i: nat ensures i < |s| && (WordAt(s, i, "npm") || WordAt(s, i, "pnpm") || WordAt(s, i, "yarn")) ==> NamesManager(s) {
      WordAtForm(s, i, "npm");
      WordAtForm(s, i, "pnpm");
      WordAtForm(s, i, "yarn");
    }
    if NamesManager(s) {
      var a, w, b :| && s == a + w + b && (w == "npm" || w == "pnpm" || w == "yarn")
                     && (a == [] || OutsideWords(a[|a| - 1])) && (b == [] || OutsideWords(b[0]));
      assert s[|a|..|a| + |w|] == w;
      assert WordAt(s, |a|, w);
    }
  }

  /** A token that could still re-read the candidate's package.json. */
  predicate Leftover(t: Token) {
    t.Runner? || (t.Lit? && HasPmWord(t.text))
  }

  predicate Residual(ts: seq<Token>) {
    exists t :: t in ts && Leftover(t)
  }

  // ----- The expander -----

  predicate Present(scripts: Scripts, name: string) {
    name in scripts && scripts[name] != []
  }

  function Pre(name: string): string { "pre" + name }
  function Post(name: string): string { "post" + name }

  function Paren(ts: seq<Token>): seq<Token> { [Open] + ts + [Close] }

  lemma StackGrows(scripts: Scripts, stack: set<string>, name: string)
    requires name in scripts && name !in stack
    ensures |scripts.Keys - (stack + {name})| < |scripts.Keys - stack|
  {
    assert scripts.Keys - (stack + {name}) == scripts.Keys - stack - {name};
  }

  function ExpandNamed(name: string, scripts: Scripts, stack: set<string>): (r: Option<seq<Token>>)
    ensures r.Some? ==> !Residual(r.value)
    decreases |scripts.Keys - stack|, 0, 0
  {
    if name in stack || !Present(scripts, name) then None
    else
      StackGrows(scripts, stack, name);
      var next := stack + {name};
      var hasPre, hasPost := Present(scripts, Pre(name)), Present(scripts, Post(name));
      var main := ExpandBody(scripts[name], scripts, next);
      var pre := if hasPre then ExpandBody(scripts[Pre(name)], scripts, next) else Some([]);
      var post := if hasPost then ExpandBody(scripts[Post(name)], scripts, next) else Some([]);
      if pre.None? || main.None? || post.None? then None
      else
        Some((if hasPre then Paren(pre.value) + [AndTok] else [])
             + (if hasPre || hasPost then Paren(main.value) else main.value)
             + (if hasPost then [AndTok] + Paren(post.value) else []))
  }

  function ExpandBody(body: seq<Token>, scripts: Scripts, stack: set<string>): (r: Option<seq<Token>>)
    ensures r.Some? ==> !Residual(r.value)
    decreases |scripts.Keys - stack|, 2, 0
  {
    var out := ExpandTokens(body, scripts, stack);
    if out.Some? && !Residual(out.value) then out else None
  }

  function ExpandTokens(body: seq<Token>, scripts: Scripts, stack: set<string>): Option<seq<Token>>
    decreases |scripts.Keys - stack|, 1, |body|
  {
    if body == [] then Some([])
    else
      var rest := ExpandTokens(body[1..], scripts, stack);
      match body[0]
      case Runner(name) =>
        var inner := ExpandNamed(name, scripts, stack);
        if inner.None? || rest.None? then None else Some(Paren(inner.value) + rest.value)
      case t =>
        if rest.None? then None else Some([t] + rest.value)
  }

  function Join(a: Option<seq<Token>>, b: Option<seq<Token>>): Option<seq<Token>> {
    if a.None? || b.None? then None else Some(a.value + b.value)
  }

  lemma JoinLaws(x: seq<Token>, y: seq<Token>, c: Option<seq<Token>>)
    ensures Join(Some([]), c) == c
    ensures Join(Some(x), Join(Some(y), c)) == Join(Some(x + y), c)
  {
    if c.Some? {
      assert [] + c.value == c.value;
      assert x + (y + c.value) == (x + y) + c.value;
    }
  }

  lemma {:induction false} ExpandTokensConcat(a: seq<Token>, b: seq<Token>, scripts: Scripts, stack: set<string>)
    ensures ExpandTokens(a + b, scripts, stack)
         == Join(ExpandTokens(a, scripts, stack), ExpandTokens(b, scripts, stack))
  {
    if a == [] {
      assert a + b == b;
      JoinLaws([], [], ExpandTokens(b, scripts, stack));
    } else {
      assert (a + b)[1..] == a[1..] + b;
      ExpandTokensConcat(a[1..], b, scripts, stack);
      var ra, rb := ExpandTokens(a[1..], scripts, stack), ExpandTokens(b, scripts, stack);
      var head := if a[0].Runner? then ExpandNamed(a[0].name, scripts, stack) else Some([a[0]]);
      if ra.Some? && head.Some? {
        JoinLaws(if a[0].Runner? then Paren(head.value) else head.value, ra.value, rb);
      }
    }
  }

  // The cursor loop of the body function and its mutual recursion.

  method ExpandTrustedNamedScript(name: string, scripts: Scripts, stack: set<string>)
    returns (r: Option<seq<Token>>)
    ensures r == ExpandNamed(name, scripts, stack)
    decreases |scripts.Keys - stack|, 0
  {
    if name in stack || !Present(scripts, name) { return None; }
    StackGrows(scripts, stack, name);
    var next := stack + {name};
    var hasPre, hasPost := Present(scripts, Pre(name)), Present(scripts, Post(name));
    var parts: seq<Token> := [];
    if hasPre {
      var pre := ExpandTrustedPackageScriptBody(scripts[Pre(name)], scripts, next);
      if pre.None? { return None; }
      parts := Paren(pre.value) + [AndTok];
    }
    var main := ExpandTrustedPackageScriptBody(scripts[name], scripts, next);
    if main.None? { return None; }
    parts := parts + (if hasPre || hasPost then Paren(main.value) else main.value);
    if hasPost {
      var post := ExpandTrustedPackageScriptBody(scripts[Post(name)], scripts, next);
      if post.None? { return None; }
      parts := parts + ([AndTok] + Paren(post.value));
    } else {
      assert parts + [] == parts;
    }
    return Some(parts);
  }

  lemma RunnerStep(out: seq<Token>, body: seq<Token>, last: nat, i: nat, scripts: Scripts, stack: set<string>)
    requires last <= i < |body| && body[i].Runner?
    requires forall k :: last <= k < i ==> !body[k].Runner?
    ensures var inner := ExpandNamed(body[i].name, scripts, stack);
            Join(Some(out), ExpandTokens(body[last..], scripts, stack))
            == if inner.None? then None
               else Join(Some(out + body[last..i] + Paren(inner.value)), ExpandTokens(body[i + 1..], scripts, stack))
  {
    assert body[last..] == body[last..i] + body[i..];
    ExpandTokensConcat(body[last..i], body[i..], scripts, stack);
    NoRunnersNoChange(body[last..i], scripts, stack);
    assert body[i..][1..] == body[i + 1..];
    var inner, rest := ExpandNamed(body[i].name, scripts, stack), ExpandTokens(body[i + 1..], scripts, stack);
    if inner.Some? {
      assert ExpandTokens(body[i..], scripts, stack) == Join(Some(Paren(inner.value)), rest);
      JoinLaws(body[last..i], Paren(inner.value), rest);
      JoinLaws(out, body[last..i] + Paren(inner.value), rest);
      assert out + (body[last..i] + Paren(inner.value)) == out + body[last..i] + Paren(inner.value);
    }
  }

  method ExpandTrustedPackageScriptBody(body: seq<Token>, scripts: Scripts, stack: set<string>)
    returns (r: Option<seq<Token>>)
    ensures r == ExpandBody(body, scripts, stack)
    decreases |scripts.Keys - stack|, 1
  {
    var out: seq<Token> := [];
    var last, i := 0, 0;
    assert body[0..] == body;
    JoinLaws([], [], ExpandTokens(body, scripts, stack));
    while i < |body|
      invariant 0 <= last <= i <= |body|
      invariant forall k :: last <= k < i ==> !body[k].Runner?
      invariant ExpandTokens(body, scripts, stack) == Join(Some(out), ExpandTokens(body[last..], scripts, stack))
    {
      if body[i].Runner? {
        var inner := ExpandTrustedNamedScript(body[i].name, scripts, stack);
        RunnerStep(out, body, last, i, scripts, stack);
        if inner.None? { return None; }
        out := out + body[last..i] + Paren(inner.value);
        last := i + 1;
      }
      i := i + 1;
    }
    NoRunnersNoChange(body[last..], scripts, stack);
    out := out + body[last..];
    if exists t :: t in out && Leftover(t) { return None; }
    return Some(out);
  }

  lemma {:induction false} NoRunnersNoChange(ts: seq<Token>, scripts: Scripts, stack: set<string>)
    requires forall t :: t in ts ==> !t.Runner?
    ensures ExpandTokens(ts, scripts, stack) == Some(ts)
  {
    if ts != [] {
      NoRunnersNoChange(ts[1..], scripts, stack);
      assert ts[0] in ts && ts == [ts[0]] + ts[1..];
    }
  }

  // ----- When the expander gives up -----

  /** The runner names that appear in the pre, main and post bodies of a script. */
  predicate Calls(scripts: Scripts, a: string, b: string) {
    exists body :: body in Bodies(scripts, a) && Runner(b) in body
  }

  function Bodies(scripts: Scripts, name: string): set<seq<Token>> {
    set n | n in {"pre" + name, name, "post" + name} && Present(scripts, n) :: scripts[n]
  }

  ghost predicate Stuck(scripts: Scripts, name: string) {
    || !Present(scripts, name)
    || exists body, t :: body in Bodies(scripts, name) && t in body && t.Lit? && NamesManager(t.text)
  }

  predicate CallPath(scripts: Scripts, p: seq<string>) {
    && p != []
    && forall i :: 0 <= i < |p| - 1 ==> Present(scripts, p[i]) && Calls(scripts, p[i], p[i + 1])
  }

  /** A call path that ends in a stuck script or comes back to a script being expanded. */
  ghost predicate Doomed(scripts: Scripts, p: seq<string>, stack: set<string>) {
    && CallPath(scripts, p)
    && var last := p[|p| - 1];
       Stuck(scripts, last) || last in stack || last in p[..|p| - 1]
  }

  lemma {:induction false} RunnerFailureSpreads(body: seq<Token>, n: string, scripts: Scripts, stack: set<string>)
    requires Runner(n) in body && ExpandNamed(n, scripts, stack).None?
    ensures ExpandTokens(body, scripts, stack).None?
  {
    if body[0] != Runner(n) {
      assert Runner(n) in body[1..];
      RunnerFailureSpreads(body[1..], n, scripts, stack);
    }
  }

  lemma {:induction false} LiteralsSurvive(body: seq<Token>, t: Token, scripts: Scripts, stack: set<string>)
    requires t in body && t.Lit?
    requires ExpandTokens(body, scripts, stack).Some?
    ensures t in ExpandTokens(body, scripts, stack).value
  {
    if body[0] != t {
      assert t in body[1..];
      LiteralsSurvive(body[1..], t, scripts, stack);
    }
  }

  lemma {:induction false} DoomedFails(p: seq<string>, scripts: Scripts, stack: set<string>)
    requires Doomed(scripts, p, stack)
    ensures ExpandNamed(p[0], scripts, stack).None?
    decreases |p|
  {
    var name := p[0];
    if name !in stack && Present(scripts, name) {
      var next := stack + {name};
      if |p| == 1 {
        var body, t :| body in Bodies(scripts, name) && t in body && t.Lit? && NamesManager(t.text);
        PmWordForm(t.text);
        if ExpandTokens(body, scripts, next).Some? {
          LiteralsSurvive(body, t, scripts, next);
        }
        assert ExpandBody(body, scripts, next).None?;
      } else {
        var q := p[1..];
        assert p[|p| - 1] == q[|q| - 1];
        forall i | 0 <= i < |q| - 1 ensures Present(scripts, q[i]) && Calls(scripts, q[i], q[i + 1]) {
          assert q[i] == p[i + 1] && q[i + 1] == p[i + 2];
        }
        assert p[..|p| - 1] == [name] + q[..|q| - 1];
        DoomedFails(q, scripts, next);
        assert Calls(scripts, p[0], p[1]);
        var body :| body in Bodies(scripts, name) && Runner(q[0]) in body;
        RunnerFailureSpreads(body, q[0], scripts, next);
        assert ExpandBody(body, scripts, next).None?;
      }
    }
  }

  lemma {:induction false} BodyFailureReason(body: seq<Token>, scripts: Scripts, stack: set<string>)
    returns (n: Option<string>)
    requires ExpandBody(body, scripts, stack).None?
    ensures n.Some? ==> Runner(n.value) in body && ExpandNamed(n.value, scripts, stack).None?
    ensures n.None? ==> exists t :: t in body && t.Lit? && NamesManager(t.text)
    decreases |body|
  {
    if body == [] {
      assert false;
    } else if body[0].Runner? && ExpandNamed(body[0].name, scripts, stack).None? {
      n := Some(body[0].name);
    } else if ExpandBody(body[1..], scripts, stack).None? {
      n := BodyFailureReason(body[1..], scripts, stack);
    } else {
      n := None;
      assert forall ts: seq<Token>, us: seq<Token>, t :: t in Paren(ts) + us && Leftover(t) ==> t in ts || t in us;
      var t :| t in ExpandTokens(body, scripts, stack).value && Leftover(t);
      assert t in body;
      PmWordForm(t.text);
    }
  }

  lemma {:induction false} FailureIsDoomed(name: string, scripts: Scripts, stack: set<string>) returns (p: seq<string>)
    requires ExpandNamed(name, scripts, stack).None?
    ensures Doomed(scripts, p, stack) && p[0] == name
    decreases |scripts.Keys - stack|
  {
    if name in stack || Stuck(scripts, name) {
      p := [name];
    } else {
      StackGrows(scripts, stack, name);
      var next := stack + {name};
      var body :| body in Bodies(scripts, name) && ExpandBody(body, scripts, next).None?;
      var n := BodyFailureReason(body, scripts, next);
      var q := FailureIsDoomed(n.value, scripts, next);
      p := [name] + q;
      assert Calls(scripts, name, q[0]);
      forall i | 0 <= i < |p| - 1 ensures Present(scripts, p[i]) && Calls(scripts, p[i], p[i + 1]) {
        if i > 0 { assert p[i] == q[i - 1] && p[i + 1] == q[i]; }
      }
      assert p[..|p| - 1] == [name] + q[..|q| - 1];
    }
  }

  /**
    The expansion of a named script fails exactly when some chain of runner calls
    from it reaches a missing script, a script with a leftover package-manager
    word, or a script already on the chain.
  */
  lemma ExpansionFailsIff(name: string, scripts: Scripts)
    ensures ExpandNamed(name, scripts, {}).None?
       <==> exists p :: Doomed(scripts, p, {}) && p[0] == name
  {
    if ExpandNamed(name, scripts, {}).None? {
      var p := FailureIsDoomed(name, scripts, {});
    }
    if p :| Doomed(scripts, p, {}) && p[0] == name {
      DoomedFails(p, scripts, {});
    }
  }

  /** A non-null expansion holds no runner and no literal that names a package manager. */
  lemma ExpansionNamesNoManager(name: string, scripts: Scripts, stack: set<string>)
    requires ExpandNamed(name, scripts, stack).Some?
    ensures forall t :: t in ExpandNamed(name, scripts, stack).value ==> !t.Runner? && (t.Lit? ==> !NamesManager(t.text))
  {
    forall t | t in ExpandNamed(name, scripts, stack).value ensures !t.Runner? && (t.Lit? ==> !NamesManager(t.text)) {
      assert !Leftover(t);
      if t.Lit? { PmWordForm(t.text); }
    }
  }

  /** Nor does any script that a chain of runner calls reaches from it: each is there, and none recurs. */
  lemma ReachedScriptsAreClean(p: seq<string>, scripts: Scripts)
    requires CallPath(scripts, p) && ExpandNamed(p[0], scripts, {}).Some?
    ensures Present(scripts, p[|p| - 1]) && p[|p| - 1] !in p[..|p| - 1]
    ensures forall body, t :: body in Bodies(scripts, p[|p| - 1]) && t in body && t.Lit? ==> !NamesManager(t.text)
  {
    if Doomed(scripts, p, {}) { DoomedFails(p, scripts, {}); }
  }
}
