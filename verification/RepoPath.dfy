/** Repository path normalization and declared repair scopes (core/scripts/candidate-integrity.ts). */
module RepoPath {
  import opened Prelude

  function Slashes(p: string): string {
    seq(|p|, i requires 0 <= i < |p| => if p[i] == '\\' then '/' else p[i])
  }

  predicate DotSlash(s: string) { |s| >= 2 && s[0] == '.' && s[1] == '/' }
  predicate Slash(s: string) { |s| >= 1 && s[0] == '/' }

  function StripDots(s: string): string {
    if DotSlash(s) then StripDots(s[2..]) else s
  }

  function StripSlashes(s: string): string {
    if Slash(s) then StripSlashes(s[1..]) else s
  }

  function Normalize(p: string): string {
    StripSlashes(StripDots(Trim(Slashes(p))))
  }

  method NormalizeRepoPath(p: string) returns (s: string)
    ensures s == Normalize(p)
  {
    s := Trim(Slashes(p));
    while DotSlash(s)
      invariant StripDots(s) == StripDots(Trim(Slashes(p)))
      decreases |s|
    {
      s := s[2..];
    }
    while Slash(s)
      invariant StripSlashes(s) == Normalize(p)
      decreases |s|
    {
      s := s[1..];
    }
  }

  predicate IsSuffix(r: string, s: string) {
    |r| <= |s| && r == s[|s| - |r|..]
  }

  lemma {:induction false} StripDotsSuffix(s: string)
    ensures IsSuffix(StripDots(s), s) && !DotSlash(StripDots(s))
    ensures DotSlash(s) ==> |StripDots(s)| < |s|
  {
    if DotSlash(s) { StripDotsSuffix(s[2..]); }
  }

  lemma {:induction false} StripSlashesSuffix(s: string)
    ensures IsSuffix(StripSlashes(s), s) && !Slash(StripSlashes(s))
  {
    if Slash(s) { StripSlashesSuffix(s[1..]); }
  }

  lemma TrimParts(s: string)
    ensures |Trim(s)| <= |s|
    ensures forall c :: c in Trim(s) ==> c in s
    ensures Trim(s) == [] || !IsSpace(Trim(s)[|Trim(s)| - 1])
    ensures s != [] && IsSpace(s[0]) ==> |Trim(s)| < |s|
  {
    TrimStartCuts(s);
    var t := TrimStart(s);
    TrimEndCuts(t);
    assert forall c :: c in t ==> c in s;
    assert forall c :: c in TrimEnd(t) ==> c in t;
  }

  /** A normalized path has only forward slashes, no leading slash and no trailing whitespace. */
  lemma NormalizeShape(p: string)
    ensures !Slash(Normalize(p)) && '\\' !in Normalize(p)
    ensures Normalize(p) == [] || !IsSpace(Normalize(p)[|Normalize(p)| - 1])
  {
    var s := Slashes(p);
    assert '\\' !in s;
    TrimParts(s);
    StripDotsSuffix(Trim(s));
    StripSlashesSuffix(StripDots(Trim(s)));
    SuffixFacts(StripDots(Trim(s)), Trim(s));
    SuffixFacts(Normalize(p), StripDots(Trim(s)));
  }

  lemma SuffixFacts(r: string, s: string)
    requires IsSuffix(r, s)
    ensures forall c :: c in r ==> c in s
    ensures r != [] ==> r[|r| - 1] == s[|s| - 1]
  {
  }

  // ----- When is a second normalization needed? -----

  /** `a` times "./" and then `b` slashes. */
  function Marks(a: nat, b: nat): string {
    if a > 0 then "./" + Marks(a - 1, b) else if b > 0 then "/" + Marks(0, b - 1) else []
  }

  /**
    Past some leading "./" and slashes there is whitespace, or past at least one
    slash there is another "./": what one pass uncovers and does not remove.
  */
  ghost predicate HidesMore(s: string) {
    exists a: nat, b: nat, t: string :: Uncovers(s, a, b, t)
  }

  predicate Uncovers(s: string, a: nat, b: nat, t: string) {
    a + b > 0 && s == Marks(a, b) + t && t != [] && (IsSpace(t[0]) || (b > 0 && DotSlash(t)))
  }

  lemma {:induction false} StripMarks(a: nat, b: nat, t: string)
    requires t != [] && t[0] != '/' && (b == 0 ==> !DotSlash(t))
    ensures StripSlashes(StripDots(Marks(a, b) + t)) == t
    decreases a, b
  {
    var s := Marks(a, b) + t;
    if a > 0 {
      assert s == "./" + (Marks(a - 1, b) + t);
      assert s[2..] == Marks(a - 1, b) + t;
      StripMarks(a - 1, b, t);
    } else {
      assert !DotSlash(s) by { if b > 0 { assert s[0] == '/'; } else { assert s == t; } }
      StripSlashMarks(b, t);
    }
  }

  lemma {:induction false} StripSlashMarks(b: nat, t: string)
    requires t != [] && t[0] != '/'
    ensures StripSlashes(Marks(0, b) + t) == t
  {
    var s := Marks(0, b) + t;
    if b > 0 {
      assert s == "/" + (Marks(0, b - 1) + t);
      assert s[1..] == Marks(0, b - 1) + t;
      StripSlashMarks(b - 1, t);
    } else {
      assert s == t;
    }
  }

  lemma {:induction false} SlashesStripped(s: string) returns (b: nat)
    ensures s == Marks(0, b) + StripSlashes(s) && (b == 0 ==> StripSlashes(s) == s)
  {
    if Slash(s) {
      b := SlashesStripped(s[1..]);
      b := b + 1;
      assert s == "/" + s[1..];
    } else {
      b := 0;
    }
  }

  lemma {:induction false} MarksStripped(s: string) returns (a: nat, b: nat)
    ensures var n := StripSlashes(StripDots(s));
            s == Marks(a, b) + n && (b == 0 ==> n == StripDots(s)) && (a + b == 0 ==> n == s)
  {
    if DotSlash(s) {
      a, b := MarksStripped(s[2..]);
      assert s == "./" + s[2..];
      a := a + 1;
    } else {
      a := 0;
      b := SlashesStripped(s);
    }
  }

  lemma StripsAllIff(s: string)
    requires s == [] || !IsSpace(s[0])
    ensures var n := StripSlashes(StripDots(s));
            n != [] && (DotSlash(n) || IsSpace(n[0])) <==> HidesMore(s)
  {
    var n := StripSlashes(StripDots(s));
    if n != [] && (DotSlash(n) || IsSpace(n[0])) {
      var a, b := MarksStripped(s);
      StripDotsSuffix(s);
      assert Uncovers(s, a, b, n);
    }
    if HidesMore(s) {
      var a: nat, b: nat, t :| Uncovers(s, a, b, t);
      StripMarks(a, b, t);
    }
  }

  lemma TrimStarts(s: string)
    ensures Trim(s) == [] || !IsSpace(Trim(s)[0])
  {
    TrimStartCuts(s);
    TrimEndCuts(TrimStart(s));
  }

  /** Normalizing twice gives the same path if and only if the path hides nothing that one pass uncovers. */
  lemma NormalizeTwiceIff(p: string)
    ensures Normalize(Normalize(p)) == Normalize(p) <==> !HidesMore(Trim(Slashes(p)))
  {
    NormalizeShape(p);
    FixedIff(Normalize(p));
    TrimStarts(Slashes(p));
    StripsAllIff(Trim(Slashes(p)));
  }

  lemma FixedIff(n: string)
    requires !Slash(n) && '\\' !in n
    requires n == [] || !IsSpace(n[|n| - 1])
    ensures Normalize(n) == n <==> !DotSlash(n) && (n == [] || !IsSpace(n[0]))
  {
    assert Slashes(n) == n by { assert forall i :: 0 <= i < |n| ==> n[i] in n; }
    if n != [] && IsSpace(n[0]) {
      TrimParts(n);
      StripDotsSuffix(Trim(n));
      StripSlashesSuffix(StripDots(Trim(n)));
    } else {
      assert TrimStart(n) == n && TrimEnd(n) == n;
      StripDotsSuffix(n);
      StripSlashesSuffix(StripDots(n));
    }
  }

  lemma NormalizeNotIdempotent()
    ensures Normalize("/./a") == "./a" && Normalize("./a") == "a"
  {
    var p, q := "/./a", "./a";
    assert Slashes(p) == p && Slashes(q) == q;
    assert TrimStart(p) == p && TrimEnd(p) == p && TrimStart(q) == q && TrimEnd(q) == q;
    assert StripDots(p) == p;
    assert p[1..] == q && StripSlashes(q) == q;
    assert q[2..] == "a" && StripDots("a") == "a" && StripSlashes("a") == "a";
  }

  predicate Clean(p: string) {
    p != [] && Normalize(p) == p
  }

  lemma OneLetterIsClean(c: char)
    requires !IsSpace(c) && c != '/' && c != '\\'
    ensures Clean([c])
  {
    FixedIff([c]);
  }

  // ----- Declared repair scope -----

  datatype DeclaredScope = DeclaredScope(paths: seq<string>, directories: seq<string>)
  datatype Scope = Scope(paths: set<string>, directories: set<string>)

  function Directory(d: string): string {
    var n := Normalize(d);
    if n != [] && n[|n| - 1] != '/' then n + "/" else n
  }

  function Freeze(s: DeclaredScope): Scope {
    Scope(set p | p in s.paths && Normalize(p) != [] :: Normalize(p),
          set d | d in s.directories && Directory(d) != [] :: Directory(d))
  }

  /** The frozen scope as a record stores it. */
  function FreezeLists(s: DeclaredScope): DeclaredScope {
    DeclaredScope(FrozenPaths(s.paths), FrozenDirectories(s.directories))
  }

  function FrozenPaths(ps: seq<string>): seq<string> {
    if ps == [] then []
    else (if Normalize(ps[0]) == [] then [] else [Normalize(ps[0])]) + FrozenPaths(ps[1..])
  }

  function FrozenDirectories(ds: seq<string>): seq<string> {
    if ds == [] then []
    else (if Directory(ds[0]) == [] then [] else [Directory(ds[0])]) + FrozenDirectories(ds[1..])
  }

  /** Scope membership of an already normalized path. */
  predicate InScope(p: string, scope: Scope) {
    p != [] && (p in scope.paths || exists d :: d in scope.directories && d <= p)
  }

  /** The path lies below a directory that is given with or without its last slash. */
  ghost predicate Under(n: string, q: string) {
    n != [] && exists rest :: q == n + "/" + rest || (n[|n| - 1] == '/' && q == n + rest)
  }

  /** The declared scope names the path, or a directory above it. */
  ghost predicate Declared(declared: DeclaredScope, q: string) {
    && q != []
    && ((exists x :: x in declared.paths && q == Normalize(x))
        || exists d :: d in declared.directories && Under(Normalize(d), q))
  }

  lemma DirectoryMeaning(d: string, q: string)
    ensures Directory(d) != [] && Directory(d) <= q <==> Under(Normalize(d), q)
  {
    var n := Normalize(d);
    if Directory(d) != [] && Directory(d) <= q {
      var rest := q[|Directory(d)|..];
      assert q == Directory(d) + rest;
      assert if n[|n| - 1] == '/' then q == n + rest else q == n + "/" + rest;
    }
    if Under(n, q) {
      var rest :| q == n + "/" + rest || (n[|n| - 1] == '/' && q == n + rest);
      assert n <= q && (n[|n| - 1] != '/' ==> n + "/" <= q);
    }
  }

  /** A path is in the frozen scope if and only if the declared scope names it or a directory above it. */
  lemma ScopeMeaning(declared: DeclaredScope, q: string)
    ensures InScope(q, Freeze(declared)) <==> Declared(declared, q)
  {
    var scope := Freeze(declared);
    if InScope(q, scope) && q !in scope.paths {
      var f :| f in scope.directories && f <= q;
      var d :| d in declared.directories && Directory(d) != [] && f == Directory(d);
      DirectoryMeaning(d, q);
    }
    if Declared(declared, q) {
      if d :| d in declared.directories && Under(Normalize(d), q) {
        DirectoryMeaning(d, q);
        assert Directory(d) in scope.directories;
      }
    }
  }

  // ----- A scope that is frozen twice -----

  predicate CleanScope(declared: DeclaredScope) {
    && (forall x :: x in declared.paths ==> Clean(x))
    && (forall d :: d in declared.directories ==> Clean(d) && d != ".")
  }

  lemma {:induction false} FrozenPathsMeaning(ps: seq<string>, y: string)
    ensures y in FrozenPaths(ps) <==> y != [] && exists x :: x in ps && y == Normalize(x)
  {
    if ps != [] {
      FrozenPathsMeaning(ps[1..], y);
      assert ps == [ps[0]] + ps[1..];
    }
  }

  lemma {:induction false} FrozenDirectoriesMeaning(ds: seq<string>, y: string)
    ensures y in FrozenDirectories(ds) <==> y != [] && exists d :: d in ds && y == Directory(d)
  {
    if ds != [] {
      FrozenDirectoriesMeaning(ds[1..], y);
      assert ds == [ds[0]] + ds[1..];
    }
  }

  lemma CleanShape(d: string)
    requires Clean(d)
    ensures !Slash(d) && '\\' !in d && !IsSpace(d[|d| - 1]) && !IsSpace(d[0]) && !DotSlash(d)
  {
    NormalizeShape(d);
    FixedIff(d);
  }

  /** A clean directory is frozen once and for all. */
  lemma CleanDirectory(d: string)
    requires Clean(d) && d != "."
    ensures Normalize(Directory(d)) == Directory(d) && Directory(d) != []
  {
    CleanShape(d);
    var n := Directory(d);
    assert n != d ==> n == d + "/";
    assert n != d && DotSlash(n) ==> DotSlash(d) || d == ".";
    FixedIff(n);
  }

  lemma SameDirectory(d: string, q: string)
    requires Clean(d) && d != "."
    ensures Under(Normalize(Directory(d)), q) <==> Under(Normalize(d), q)
  {
    CleanDirectory(d);
    DirectoryMeaning(d, q);
    DirectoryMeaning(Directory(d), q);
    assert Directory(Directory(d)) == Directory(d);
  }

  /** What a record stores of a clean scope declares what was declared. */
  lemma FrozenDeclares(declared: DeclaredScope, q: string)
    requires CleanScope(declared)
    ensures Declared(FreezeLists(declared), q) <==> Declared(declared, q)
  {
    var stored := FreezeLists(declared);
    forall y ensures y in stored.paths <==> y in declared.paths {
      FrozenPathsMeaning(declared.paths, y);
    }
    if Declared(stored, q) {
      if f :| f in stored.directories && Under(Normalize(f), q) {
        FrozenDirectoriesMeaning(declared.directories, f);
        var d :| d in declared.directories && f == Directory(d);
        SameDirectory(d, q);
      }
    }
    if Declared(declared, q) {
      if d :| d in declared.directories && Under(Normalize(d), q) {
        SameDirectory(d, q);
        CleanDirectory(d);
        FrozenDirectoriesMeaning(declared.directories, Directory(d));
      }
    }
  }

  predicate Wider(a: Scope, b: Scope) {
    a.paths <= b.paths && a.directories <= b.directories
  }

  lemma FreezeMonotone(a: DeclaredScope, b: DeclaredScope)
    requires forall p :: p in a.paths ==> p in b.paths
    requires forall d :: d in a.directories ==> d in b.directories
    ensures Wider(Freeze(a), Freeze(b))
  {
  }
}
