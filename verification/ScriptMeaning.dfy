/**
  What an expanded script does when a shell runs it, compared with what the
  package manager does when it runs the script by name (core/scripts/config.ts).

  Simple commands are opaque: `sem` is any function of the command text, the
  shell environment and the outside world. Subshells and package-manager runs
  start from a copy of the environment and cannot change the caller's.
*/
module ScriptMeaning {
  import opened Prelude
  import opened ScriptExpansion

  // ----- Shell syntax: lists of left-associative && and || chains -----

  datatype Script = One(chain: Chain) | Then(chain: Chain, rest: Script)
  datatype Chain = Single(cmd: Cmd) | And(prev: Chain, cmd: Cmd) | Or(prev: Chain, cmd: Cmd)
  datatype Cmd = Simple(text: string) | Run(name: string) | Group(script: Script)

  function Print(s: Script): (r: seq<Token>)
    ensures r != []
  {
    match s
    case One(c) => PrintChain(c)
    case Then(c, rest) => PrintChain(c) + [SeqTok] + Print(rest)
  }

  function PrintChain(c: Chain): (r: seq<Token>)
    ensures r != []
  {
    match c
    case Single(x) => PrintCmd(x)
    case And(p, x) => PrintChain(p) + [AndTok] + PrintCmd(x)
    case Or(p, x) => PrintChain(p) + [OrTok] + PrintCmd(x)
  }

  function PrintCmd(c: Cmd): (r: seq<Token>)
    ensures r != []
  {
    match c
    case Simple(t) => [Lit(t)]
    case Run(n) => [Runner(n)]
    case Group(s) => Paren(Print(s))
  }

  datatype Parsed<T> = Parsed(value: T, rest: seq<Token>)

  function ParseCmd(ts: seq<Token>): (r: Option<Parsed<Cmd>>)
    ensures r.Some? ==> |r.value.rest| < |ts|
    decreases |ts|, 0
  {
    if ts == [] then None
    else match ts[0]
      case Lit(t) => Some(Parsed(Simple(t), ts[1..]))
      case Runner(n) => Some(Parsed(Run(n), ts[1..]))
      case Open =>
        var p := ParseScript(ts[1..]);
        if p.None? || p.value.rest == [] || p.value.rest[0] != Close then None
        else Some(Parsed(Group(p.value.value), p.value.rest[1..]))
      case _ => None
  }

  function ParseTail(acc: Chain, ts: seq<Token>): (r: Option<Parsed<Chain>>)
    ensures r.Some? ==> |r.value.rest| <= |ts|
    decreases |ts|, 1
  {
    if ts == [] || ts[0] !in {AndTok, OrTok} then Some(Parsed(acc, ts))
    else
      var p := ParseCmd(ts[1..]);
      if p.None? then None
      else ParseTail(if ts[0] == AndTok then And(acc, p.value.value) else Or(acc, p.value.value), p.value.rest)
  }

  function ParseChain(ts: seq<Token>): (r: Option<Parsed<Chain>>)
    ensures r.Some? ==> |r.value.rest| < |ts|
    decreases |ts|, 2
  {
    var p := ParseCmd(ts);
    if p.None? then None else ParseTail(Single(p.value.value), p.value.rest)
  }

  function ParseScript(ts: seq<Token>): (r: Option<Parsed<Script>>)
    ensures r.Some? ==> |r.value.rest| < |ts|
    decreases |ts|, 3
  {
    var p := ParseChain(ts);
    if p.None? then None
    else if p.value.rest == [] || p.value.rest[0] != SeqTok then Some(Parsed(One(p.value.value), p.value.rest))
    else
      var q := ParseScript(p.value.rest[1..]);
      if q.None? then None else Some(Parsed(Then(p.value.value, q.value.value), q.value.rest))
  }

  /** The shell's reading of a whole command text. */
  function Parse(ts: seq<Token>): Option<Script> {
    var p := ParseScript(ts);
    if p.Some? && p.value.rest == [] then Some(p.value.value) else None
  }

  predicate EndsScript(rest: seq<Token>) {
    rest == [] || rest[0] == Close
  }

  lemma {:induction false} ParsePrintScript(s: Script, rest: seq<Token>)
    requires EndsScript(rest)
    ensures ParseScript(Print(s) + rest) == Some(Parsed(s, rest))
    decreases s
  {
    match s
    case One(c) => ParsePrintChain(c, rest);
    case Then(c, s') =>
      var tail := [SeqTok] + (Print(s') + rest);
      assert Print(s) + rest == PrintChain(c) + tail;
      ParsePrintChain(c, tail);
      assert tail[1..] == Print(s') + rest;
      ParsePrintScript(s', rest);
  }

  lemma {:induction false} ParsePrintChain(c: Chain, rest: seq<Token>)
    ensures ParseChain(PrintChain(c) + rest) == ParseTail(c, rest)
    decreases c
  {
    match c
    case Single(x) => ParsePrintCmd(x, rest);
    case And(p, x) =>
      var tail := [AndTok] + (PrintCmd(x) + rest);
      assert PrintChain(c) + rest == PrintChain(p) + tail;
      ParsePrintChain(p, tail);
      assert tail[1..] == PrintCmd(x) + rest;
      ParsePrintCmd(x, rest);
    case Or(p, x) =>
      var tail := [OrTok] + (PrintCmd(x) + rest);
      assert PrintChain(c) + rest == PrintChain(p) + tail;
      ParsePrintChain(p, tail);
      assert tail[1..] == PrintCmd(x) + rest;
      ParsePrintCmd(x, rest);
  }

  lemma {:induction false} ParsePrintCmd(c: Cmd, rest: seq<Token>)
    ensures ParseCmd(PrintCmd(c) + rest) == Some(Parsed(c, rest))
    decreases c
  {
    match c
    case Simple(_) => assert (PrintCmd(c) + rest)[1..] == rest;
    case Run(_) => assert (PrintCmd(c) + rest)[1..] == rest;
    case Group(s) =>
      var tail := [Close] + rest;
      assert (PrintCmd(c) + rest)[1..] == Print(s) + tail;
      ParsePrintScript(s, tail);
      assert tail[1..] == rest;
  }

  /** Printing loses nothing: the shell reads back the script that was printed. */
  lemma ParseAfterPrint(s: Script)
    ensures Parse(Print(s)) == Some(s)
  {
    ParsePrintScript(s, []);
    assert Print(s) + [] == Print(s);
  }

  // ----- Shell and package-manager semantics -----

  datatype State<E, W> = State(env: E, world: W, trace: seq<string>)
  datatype Exit<E, W> = Exit(st: State<E, W>, status: int)
  datatype Effect<E, W> = Effect(env: E, world: W, status: int)
  type Commands<!E, !W> = (string, E, W) -> Effect<E, W>

  function EvalScript<E, W>(s: Script, scripts: map<string, Script>, sem: Commands<E, W>, st: State<E, W>, fuel: nat)
    : Option<Exit<E, W>>
    decreases fuel, 1, s, 0
  {
    match s
    case One(c) => EvalChain(c, scripts, sem, st, fuel)
    case Then(c, rest) =>
      var e := EvalChain(c, scripts, sem, st, fuel);
      if e.None? then None else EvalScript(rest, scripts, sem, e.value.st, fuel)
  }

  function EvalChain<E, W>(c: Chain, scripts: map<string, Script>, sem: Commands<E, W>, st: State<E, W>, fuel: nat)
    : Option<Exit<E, W>>
    decreases fuel, 1, c, 0
  {
    match c
    case Single(x) => EvalCmd(x, scripts, sem, st, fuel)
    case And(p, x) =>
      var e := EvalChain(p, scripts, sem, st, fuel);
      if e.None? || e.value.status != 0 then e else EvalCmd(x, scripts, sem, e.value.st, fuel)
    case Or(p, x) =>
      var e := EvalChain(p, scripts, sem, st, fuel);
      if e.None? || e.value.status == 0 then e else EvalCmd(x, scripts, sem, e.value.st, fuel)
  }

  /** `fuel` bounds the nesting of package-manager runs; `None` means it ran out. */
  function EvalCmd<E, W>(c: Cmd, scripts: map<string, Script>, sem: Commands<E, W>, st: State<E, W>, fuel: nat)
    : Option<Exit<E, W>>
    decreases fuel, 1, c, 0
  {
    match c
    case Simple(t) =>
      var e := sem(t, st.env, st.world);
      Some(Exit(State(e.env, e.world, st.trace + [t]), e.status))
    case Group(s) => Child(s, scripts, sem, st, fuel)
    case Run(n) => if fuel == 0 then None else RunNamed(n, scripts, sem, st, fuel - 1)
  }

  function Child<E, W>(s: Script, scripts: map<string, Script>, sem: Commands<E, W>, st: State<E, W>, fuel: nat)
    : Option<Exit<E, W>>
    decreases fuel, 1, s, 1
  {
    var e := EvalScript(s, scripts, sem, st, fuel);
    if e.None? then None else Some(Exit(e.value.st.(env := st.env), e.value.status))
  }

  /** `npm run <name>`: the pre script, the script, the post script, each in its own shell, stopping at a failure. */
  function RunNamed<E, W>(name: string, scripts: map<string, Script>, sem: Commands<E, W>, st: State<E, W>, fuel: nat)
    : Option<Exit<E, W>>
    decreases fuel, 2
  {
    if name !in scripts then Some(Exit(st, 1))
    else
      var before, after := "pre" + name, "post" + name;
      var pre := if before in scripts then Child(scripts[before], scripts, sem, st, fuel) else Some(Exit(st, 0));
      if pre.None? || pre.value.status != 0 then pre
      else
        var main := Child(scripts[name], scripts, sem, pre.value.st, fuel);
        if main.None? || main.value.status != 0 || after !in scripts then main
        else Child(scripts[after], scripts, sem, main.value.st, fuel)
  }

  // ----- The expansion on syntax trees -----

  function TreeNamed(name: string, base: map<string, Script>, stack: set<string>): Option<Script>
    decreases |base.Keys - stack|, 0
  {
    if name in stack || name !in base then None
    else
      var next := stack + {name};
      assert base.Keys - next == base.Keys - stack - {name};
      var main := TreeScript(base[name], base, next);
      var pre := if Pre(name) in base then TreeScript(base[Pre(name)], base, next) else None;
      var post := if Post(name) in base then TreeScript(base[Post(name)], base, next) else None;
      if main.None? || (Pre(name) in base && pre.None?) || (Post(name) in base && post.None?) then None
      else if Pre(name) !in base && Post(name) !in base then main
      else Some(One(Lifecycle(pre, main.value, post)))
  }

  function Lifecycle(pre: Option<Script>, main: Script, post: Option<Script>): Chain {
    var withPre :=
      if pre.Some? then And(Single(Group(pre.value)), Group(main)) else Single(Group(main));
    if post.Some? then And(withPre, Group(post.value)) else withPre
  }

  function TreeScript(s: Script, base: map<string, Script>, stack: set<string>): Option<Script>
    decreases |base.Keys - stack|, 1, s
  {
    match s
    case One(c) =>
      var c' := TreeChain(c, base, stack);
      if c'.None? then None else Some(One(c'.value))
    case Then(c, rest) =>
      var c', rest' := TreeChain(c, base, stack), TreeScript(rest, base, stack);
      if c'.None? || rest'.None? then None else Some(Then(c'.value, rest'.value))
  }

  function TreeChain(c: Chain, base: map<string, Script>, stack: set<string>): Option<Chain>
    decreases |base.Keys - stack|, 1, c
  {
    match c
    case Single(x) =>
      var x' := TreeCmd(x, base, stack);
      if x'.None? then None else Some(Single(x'.value))
    case And(p, x) =>
      var p', x' := TreeChain(p, base, stack), TreeCmd(x, base, stack);
      if p'.None? || x'.None? then None else Some(And(p'.value, x'.value))
    case Or(p, x) =>
      var p', x' := TreeChain(p, base, stack), TreeCmd(x, base, stack);
      if p'.None? || x'.None? then None else Some(Or(p'.value, x'.value))
  }

  function TreeCmd(c: Cmd, base: map<string, Script>, stack: set<string>): Option<Cmd>
    decreases |base.Keys - stack|, 1, c
  {
    match c
    case Simple(t) => if HasPmWord(t) then None else Some(c)
    case Run(n) =>
      var s := TreeNamed(n, base, stack);
      if s.None? then None else Some(Group(s.value))
    case Group(s) =>
      var s' := TreeScript(s, base, stack);
      if s'.None? then None else Some(Group(s'.value))
  }

  // ----- The flat expander prints the tree expansion -----

  /** `texts` is the base scripts map as written: each body prints a script, or is blank. */
  ghost predicate Written(texts: Scripts, base: map<string, Script>) {
    && base.Keys <= texts.Keys
    && forall n :: n in texts ==> texts[n] == if n in base then Print(base[n]) else []
  }

  function PrintOpt(s: Option<Script>): Option<seq<Token>> {
    if s.None? then None else Some(Print(s.value))
  }

  lemma ExpandBodyConcat(a: seq<Token>, b: seq<Token>, scripts: Scripts, stack: set<string>)
    ensures ExpandBody(a + b, scripts, stack) == Join(ExpandBody(a, scripts, stack), ExpandBody(b, scripts, stack))
  {
    ExpandTokensConcat(a, b, scripts, stack);
    var x, y := ExpandTokens(a, scripts, stack), ExpandTokens(b, scripts, stack);
    if x.Some? && y.Some? {
      assert Residual(x.value + y.value) <==> Residual(x.value) || Residual(y.value) by {
        assert forall t :: t in x.value + y.value <==> t in x.value || t in y.value;
      }
    }
  }

  lemma ExpandBodyToken(t: Token, scripts: Scripts, stack: set<string>)
    ensures t.AndTok? || t.OrTok? || t.SeqTok? || t.Open? || t.Close? ==> ExpandBody([t], scripts, stack) == Some([t])
    ensures t.Lit? ==> ExpandBody([t], scripts, stack) == if HasPmWord(t.text) then None else Some([t])
    ensures t.Runner? ==>
              var r := ExpandNamed(t.name, scripts, stack);
              ExpandBody([t], scripts, stack) == if r.None? then None else Some(Paren(r.value))
  {
    assert [t][1..] == [];
    if t.Runner? {
      var r := ExpandNamed(t.name, scripts, stack);
      if r.Some? {
        assert ExpandTokens([], scripts, stack) == Some([]);
        assert Paren(r.value) + [] == Paren(r.value);
        assert !Residual(Paren(r.value)) by { assert forall u :: u in Paren(r.value) ==> u in r.value || u in {Open, Close}; }
      }
    } else {
      NoRunnersNoChange([t], scripts, stack);
      assert t in [t];
    }
  }

  lemma {:induction false} NamedRefines(name: string, texts: Scripts, base: map<string, Script>, stack: set<string>)
    requires Written(texts, base)
    ensures ExpandNamed(name, texts, stack) == PrintOpt(TreeNamed(name, base, stack))
    decreases |base.Keys - stack|, 0
  {
    assert forall n :: Present(texts, n) <==> n in base;
    if name !in stack && name in base {
      var next := stack + {name};
      assert base.Keys - next == base.Keys - stack - {name};
      ScriptRefines(base[name], texts, base, next);
      if Pre(name) in base { ScriptRefines(base[Pre(name)], texts, base, next); }
      if Post(name) in base { ScriptRefines(base[Post(name)], texts, base, next); }
      if TreeNamed(name, base, stack).Some? {
        var main := TreeScript(base[name], base, next).value;
        var pre := if Pre(name) in base then TreeScript(base[Pre(name)], base, next) else None;
        var post := if Post(name) in base then TreeScript(base[Post(name)], base, next) else None;
        PrintLifecycle(pre, main, post);
      }
    }
  }

  lemma PrintLifecycle(pre: Option<Script>, main: Script, post: Option<Script>)
    ensures pre.Some? || post.Some? ==>
              PrintChain(Lifecycle(pre, main, post))
              == (if pre.Some? then Paren(Print(pre.value)) + [AndTok] else [])
                 + Paren(Print(main))
                 + (if post.Some? then [AndTok] + Paren(Print(post.value)) else [])
    ensures [] + Print(main) + [] == Print(main)
  {
    if pre.None? { assert [] + Paren(Print(main)) == Paren(Print(main)); }
    var withPre := Lifecycle(pre, main, None);
    if pre.Some? {
      assert PrintChain(Single(Group(pre.value))) == Paren(Print(pre.value));
      assert PrintChain(withPre) == Paren(Print(pre.value)) + [AndTok] + Paren(Print(main));
    }
    if post.Some? {
      assert PrintChain(Lifecycle(pre, main, post)) == PrintChain(withPre) + [AndTok] + Paren(Print(post.value));
    }
    if post.Some? && pre.Some? {
      var a, b, c := Paren(Print(pre.value)) + [AndTok], Paren(Print(main)), Paren(Print(post.value));
      assert (a + b) + [AndTok] + c == a + b + ([AndTok] + c);
    }
  }

  lemma {:induction false} ScriptRefines(s: Script, texts: Scripts, base: map<string, Script>, stack: set<string>)
    requires Written(texts, base)
    ensures ExpandBody(Print(s), texts, stack) == PrintOpt(TreeScript(s, base, stack))
    decreases |base.Keys - stack|, 1, s
  {
    match s
    case One(c) => ChainRefines(c, texts, base, stack);
    case Then(c, rest) =>
      ChainRefines(c, texts, base, stack);
      ScriptRefines(rest, texts, base, stack);
      ExpandBodyConcat(PrintChain(c) + [SeqTok], Print(rest), texts, stack);
      ExpandBodyConcat(PrintChain(c), [SeqTok], texts, stack);
      ExpandBodyToken(SeqTok, texts, stack);
  }

  lemma {:induction false} ChainRefines(c: Chain, texts: Scripts, base: map<string, Script>, stack: set<string>)
    requires Written(texts, base)
    ensures var c' := TreeChain(c, base, stack);
            ExpandBody(PrintChain(c), texts, stack) == if c'.None? then None else Some(PrintChain(c'.value))
    decreases |base.Keys - stack|, 1, c
  {
    match c
    case Single(x) => CmdRefines(x, texts, base, stack);
    case And(p, x) =>
      ChainRefines(p, texts, base, stack);
      CmdRefines(x, texts, base, stack);
      ExpandBodyConcat(PrintChain(p) + [AndTok], PrintCmd(x), texts, stack);
      ExpandBodyConcat(PrintChain(p), [AndTok], texts, stack);
      ExpandBodyToken(AndTok, texts, stack);
    case Or(p, x) =>
      ChainRefines(p, texts, base, stack);
      CmdRefines(x, texts, base, stack);
      ExpandBodyConcat(PrintChain(p) + [OrTok], PrintCmd(x), texts, stack);
      ExpandBodyConcat(PrintChain(p), [OrTok], texts, stack);
      ExpandBodyToken(OrTok, texts, stack);
  }

  lemma {:induction false} CmdRefines(c: Cmd, texts: Scripts, base: map<string, Script>, stack: set<string>)
    requires Written(texts, base)
    ensures var c' := TreeCmd(c, base, stack);
            ExpandBody(PrintCmd(c), texts, stack) == if c'.None? then None else Some(PrintCmd(c'.value))
    decreases |base.Keys - stack|, 1, c
  {
    match c
    case Simple(t) => ExpandBodyToken(Lit(t), texts, stack);
    case Run(n) =>
      ExpandBodyToken(Runner(n), texts, stack);
      NamedRefines(n, texts, base, stack);
    case Group(s) =>
      ScriptRefines(s, texts, base, stack);
      ExpandBodyConcat([Open] + Print(s), [Close], texts, stack);
      ExpandBodyConcat([Open], Print(s), texts, stack);
      ExpandBodyToken(Open, texts, stack);
      ExpandBodyToken(Close, texts, stack);
  }

  // ----- The tree expansion means what the package manager does -----

  lemma {:induction false} NamedMeaning<E, W>(name: string, base: map<string, Script>, stack: set<string>,
      cand: map<string, Script>, sem: Commands<E, W>, st: State<E, W>, fuel: nat, fuel': nat)
    requires TreeNamed(name, base, stack).Some?
    requires |base.Keys - stack| <= fuel + 1
    ensures RunNamed(name, base, sem, st, fuel) == Child(TreeNamed(name, base, stack).value, cand, sem, st, fuel')
    ensures RunNamed(name, base, sem, st, fuel).Some?
    decreases |base.Keys - stack|, 0
  {
    var next := stack + {name};
    assert base.Keys - next == base.Keys - stack - {name};
    var st1 := st;
    if Pre(name) in base {
      ScriptMeansSame(base[Pre(name)], base, next, cand, sem, st, fuel, fuel');
      st1 := Child(base[Pre(name)], base, sem, st, fuel).value.st;
    }
    ScriptMeansSame(base[name], base, next, cand, sem, st1, fuel, fuel');
    var st2 := Child(base[name], base, sem, st1, fuel).value.st;
    if Post(name) in base {
      ScriptMeansSame(base[Post(name)], base, next, cand, sem, st2, fuel, fuel');
    }
    if Pre(name) in base || Post(name) in base {
      var main := TreeScript(base[name], base, next).value;
      var pre := if Pre(name) in base then TreeScript(base[Pre(name)], base, next) else None;
      var post := if Post(name) in base then TreeScript(base[Post(name)], base, next) else None;
      LifecycleRun(pre, main, post, cand, sem, st, fuel');
    }
  }

  function RunParts<E, W>(pre: Option<Script>, main: Script, post: Option<Script>,
      scripts: map<string, Script>, sem: Commands<E, W>, st: State<E, W>, fuel: nat): Option<Exit<E, W>>
  {
    var a := if pre.Some? then Child(pre.value, scripts, sem, st, fuel) else Some(Exit(st, 0));
    if a.None? || a.value.status != 0 then a
    else
      var b := Child(main, scripts, sem, a.value.st, fuel);
      if b.None? || b.value.status != 0 || post.None? then b
      else Child(post.value, scripts, sem, b.value.st, fuel)
  }

  lemma LifecycleRun<E, W>(pre: Option<Script>, main: Script, post: Option<Script>,
      scripts: map<string, Script>, sem: Commands<E, W>, st: State<E, W>, fuel: nat)
    ensures Child(One(Lifecycle(pre, main, post)), scripts, sem, st, fuel)
         == RunParts(pre, main, post, scripts, sem, st, fuel)
  {
    var withPre := Lifecycle(pre, main, None);
    if pre.Some? {
      var a := Child(pre.value, scripts, sem, st, fuel);
      assert EvalCmd(Group(pre.value), scripts, sem, st, fuel) == a;
      assert EvalChain(Single(Group(pre.value)), scripts, sem, st, fuel) == a;
      if a.Some? { assert EvalCmd(Group(main), scripts, sem, a.value.st, fuel) == Child(main, scripts, sem, a.value.st, fuel); }
    } else {
      assert EvalCmd(Group(main), scripts, sem, st, fuel) == Child(main, scripts, sem, st, fuel);
    }
    var e := EvalChain(withPre, scripts, sem, st, fuel);
    assert e == RunParts(pre, main, None, scripts, sem, st, fuel);
    if post.Some? {
      if e.Some? { assert EvalCmd(Group(post.value), scripts, sem, e.value.st, fuel) == Child(post.value, scripts, sem, e.value.st, fuel); }
      assert EvalChain(And(withPre, Group(post.value)), scripts, sem, st, fuel)
          == if e.None? || e.value.status != 0 then e else Child(post.value, scripts, sem, e.value.st, fuel);
    }
  }

  lemma {:induction false} ScriptMeansSame<E, W>(s: Script, base: map<string, Script>, stack: set<string>,
      cand: map<string, Script>, sem: Commands<E, W>, st: State<E, W>, fuel: nat, fuel': nat)
    requires TreeScript(s, base, stack).Some?
    requires |base.Keys - stack| <= fuel
    ensures EvalScript(s, base, sem, st, fuel) == EvalScript(TreeScript(s, base, stack).value, cand, sem, st, fuel')
    ensures EvalScript(s, base, sem, st, fuel).Some?
    decreases |base.Keys - stack|, 1, s
  {
    ChainMeansSame(s.chain, base, stack, cand, sem, st, fuel, fuel');
    if s.Then? {
      ScriptMeansSame(s.rest, base, stack, cand, sem, EvalChain(s.chain, base, sem, st, fuel).value.st, fuel, fuel');
    }
  }

  lemma {:induction false} ChainMeansSame<E, W>(c: Chain, base: map<string, Script>, stack: set<string>,
      cand: map<string, Script>, sem: Commands<E, W>, st: State<E, W>, fuel: nat, fuel': nat)
    requires TreeChain(c, base, stack).Some?
    requires |base.Keys - stack| <= fuel
    ensures EvalChain(c, base, sem, st, fuel) == EvalChain(TreeChain(c, base, stack).value, cand, sem, st, fuel')
    ensures EvalChain(c, base, sem, st, fuel).Some?
    decreases |base.Keys - stack|, 1, c
  {
    if c.Single? {
      CmdMeansSame(c.cmd, base, stack, cand, sem, st, fuel, fuel');
    } else {
      ChainMeansSame(c.prev, base, stack, cand, sem, st, fuel, fuel');
      CmdMeansSame(c.cmd, base, stack, cand, sem, EvalChain(c.prev, base, sem, st, fuel).value.st, fuel, fuel');
    }
  }

  lemma {:induction false} CmdMeansSame<E, W>(c: Cmd, base: map<string, Script>, stack: set<string>,
      cand: map<string, Script>, sem: Commands<E, W>, st: State<E, W>, fuel: nat, fuel': nat)
    requires TreeCmd(c, base, stack).Some?
    requires |base.Keys - stack| <= fuel
    ensures EvalCmd(c, base, sem, st, fuel) == EvalCmd(TreeCmd(c, base, stack).value, cand, sem, st, fuel')
    ensures EvalCmd(c, base, sem, st, fuel).Some?
    decreases |base.Keys - stack|, 1, c
  {
    match c
    case Simple(_) =>
    case Group(s) => ScriptMeansSame(s, base, stack, cand, sem, st, fuel, fuel');
    case Run(n) =>
      assert n in base.Keys - stack;
      NamedMeaning(n, base, stack, cand, sem, st, fuel - 1, fuel');
  }

  /**
    Whenever the flat expander returns a text, the shell parses it, and running
    that text gives the same commands in the same order, the same world and the
    same exit status as the package manager running the script by name against
    the base scripts, whatever scripts the candidate declares.
  */
  lemma ExpansionPreservesMeaning<E, W>(name: string, texts: Scripts, base: map<string, Script>,
      cand: map<string, Script>, sem: Commands<E, W>, st: State<E, W>, fuel: nat, fuel': nat)
    requires Written(texts, base)
    requires ExpandNamed(name, texts, {}).Some?
    requires |base| <= fuel + 1
    ensures var text := Parse(ExpandNamed(name, texts, {}).value);
            && text.Some?
            && RunNamed(name, base, sem, st, fuel).Some?
            && Child(text.value, cand, sem, st, fuel') == RunNamed(name, base, sem, st, fuel)
  {
    NamedRefines(name, texts, base, {});
    ParseAfterPrint(TreeNamed(name, base, {}).value);
    assert base.Keys - {} == base.Keys;
    NamedMeaning(name, base, {}, cand, sem, st, fuel, fuel');
  }
}
