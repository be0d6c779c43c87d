/** Classification of a candidate transition against a declared scope (core/scripts/candidate-integrity.ts). */
module Classification {
  import opened Prelude
  import opened RepoPath
  import opened CandidateManifest

  datatype Class = SemanticallyEquivalent | ExpectedScopedChange | ScopeExpansion | Unverified

  datatype MutationMethod = Restack | Rebase | ConflictRepair | PreMergeAutofix | RecoveryRepair

  datatype Verdict = Verdict(class_: Class, differing: set<string>)

  predicate EmptyScopeMethod(how: MutationMethod) {
    how == Restack || how == Rebase
  }

  predicate AnyIncomplete(es: seq<Patch>) {
    exists e :: e in es && Incomplete(e)
  }

  function Differing(a: SideMap, b: SideMap): set<string> {
    set p | p in a.Keys + b.Keys && (p !in a || p !in b || a[p] != b[p])
  }

  predicate Mentions(e: Patch, p: string) {
    e.path == p || (if e.source.Some? then e.source.value else []) == p
  }

  /** The first entry that mentions a path, as `find` returns it. */
  function FirstMention(es: seq<Patch>, p: string): (r: Option<Patch>)
    ensures r.Some? <==> exists e :: e in es && Mentions(e, p)
    ensures r.Some? ==> r.value in es && Mentions(r.value, p)
  {
    if es == [] then None
    else if Mentions(es[0], p) then Some(es[0])
    else
      assert es == [es[0]] + es[1..];
      FirstMention(es[1..], p)
  }

  lemma {:induction false} FirstMentionMeaning(es: seq<Patch>, p: string, i: nat)
    requires i < |es| && IsFirst(es, p, i)
    ensures FirstMention(es, p) == Some(es[i])
  {
    if i > 0 {
      assert !NamesPath(es[0], p);
      forall j | 0 <= j < i - 1 ensures !NamesPath(es[1..][j], p) { assert es[1..][j] == es[j + 1]; }
      FirstMentionMeaning(es[1..], p, i - 1);
    }
  }

  lemma {:induction false} FirstMentionIndex(es: seq<Patch>, p: string) returns (i: nat)
    requires FirstMention(es, p).Some?
    ensures i < |es| && IsFirst(es, p, i) && FirstMention(es, p) == Some(es[i])
  {
    if Mentions(es[0], p) {
      i := 0;
    } else {
      var k := FirstMentionIndex(es[1..], p);
      i := k + 1;
      forall j | 0 <= j < i ensures !NamesPath(es[j], p) {
        if j > 0 { assert es[j] == es[1..][j - 1]; }
      }
    }
  }

  predicate IsMove(e: Patch) {
    e.status == Renamed || e.status == Copied
  }

  predicate MoveInScope(e: Patch, scope: Scope) {
    (e.source.Some? ==> InScope(e.source.value, scope)) && InScope(e.path, scope)
  }

  predicate OutOfScope(post: seq<Patch>, p: string, scope: Scope) {
    var e := FirstMention(post, p);
    if e.Some? && IsMove(e.value) then !MoveInScope(e.value, scope) else !InScope(Normalize(p), scope)
  }

  function Classify(pre: Option<seq<Patch>>, post: Option<seq<Patch>>, scope: Scope, how: MutationMethod): Verdict {
    if pre.None? || post.None? || AnyIncomplete(pre.value) || AnyIncomplete(post.value) then Verdict(Unverified, {})
    else
      var a, b := SideMapOf(pre.value), SideMapOf(post.value);
      if a.None? || b.None? then Verdict(Unverified, {})
      else if a == b then Verdict(SemanticallyEquivalent, {})
      else
        var differing := Differing(a.value, b.value);
        if EmptyScopeMethod(how) || EmptyScope(scope)
           || exists p :: p in differing && OutOfScope(post.value, p, scope)
        then Verdict(ScopeExpansion, differing)
        else Verdict(ExpectedScopedChange, differing)
  }

  function PatchesOpt(es: Option<seq<Entry>>): Option<seq<Patch>> {
    if es.None? then None else Some(Patches(es.value))
  }

  predicate EmptyScope(scope: Scope) {
    scope.paths == {} && scope.directories == {}
  }

  // ----- What a class means, said of the manifests and the declared scope -----

  /** The entry names the path, as its own or as its old one; a missing old path counts as the empty one. */
  ghost predicate NamesPath(e: Patch, p: string) {
    e.path == p || e.source == Some(p) || (e.source.None? && p == [])
  }

  ghost predicate IsFirst(es: seq<Patch>, p: string, i: nat) {
    i < |es| && NamesPath(es[i], p) && forall j :: 0 <= j < i ==> !NamesPath(es[j], p)
  }

  /** What a candidate does with a path. */
  ghost function SideAt(es: seq<Patch>, p: string): Option<SideValue>
    requires SideMapOf(es).Some?
  {
    var m := SideMapOf(es).value;
    if p in m then Some(m[p]) else None
  }

  ghost predicate Differs(pre: seq<Patch>, post: seq<Patch>, p: string)
    requires SideMapOf(pre).Some? && SideMapOf(post).Some?
  {
    SideAt(pre, p) != SideAt(post, p)
  }

  /** The first entry that names `p` is a rename or copy. */
  ghost predicate MovedFirst(post: seq<Patch>, p: string, i: nat) {
    IsFirst(post, p, i) && (post[i].status == Renamed || post[i].status == Copied)
  }

  /**
    A differing path is compared with the scope as both ends of the rename or copy
    that names it first; otherwise as itself, normalized once more.
  */
  ghost predicate ComparedFor(post: seq<Patch>, p: string, q: string) {
    || (exists i: nat :: MovedFirst(post, p, i) && (q == post[i].path || post[i].source == Some(q)))
    || (q == Normalize(p) && forall i: nat :: !MovedFirst(post, p, i))
  }

  ghost predicate Compared(pre: seq<Patch>, post: seq<Patch>, q: string)
    requires SideMapOf(pre).Some? && SideMapOf(post).Some?
  {
    exists p :: Differs(pre, post, p) && ComparedFor(post, p, q)
  }

  /** Some entry lacks a blob its status needs, or is marked incomplete. */
  ghost predicate HasGap(es: seq<Entry>) {
    exists e :: e in es && (|| e.incomplete
                            || (e.status != Deleted && e.candidateBlob.None?)
                            || (e.status != Added && e.baseBlob.None?))
  }

  /** The class that the two manifests, the declared scope and the method call for. */
  ghost predicate RightClass(pre: Option<seq<Entry>>, post: Option<seq<Entry>>, declared: DeclaredScope, how: MutationMethod, c: Class) {
    if pre.None? || post.None? || HasGap(pre.value) || HasGap(post.value) then c == Unverified
    else
      CompleteHasMap(pre.value);
      CompleteHasMap(post.value);
      var a, b := Patches(pre.value), Patches(post.value);
      if forall p :: !Differs(a, b, p) then c == SemanticallyEquivalent
      else if how == Restack || how == Rebase then c == ScopeExpansion
      else if forall q :: Compared(a, b, q) ==> Declared(declared, q) then c == ExpectedScopedChange
      else c == ScopeExpansion
  }

  lemma GapIff(es: seq<Entry>)
    ensures AnyIncomplete(Patches(es)) <==> HasGap(es)
  {
    var ps := Patches(es);
    if HasGap(es) {
      var e :| e in es && (e.incomplete || (e.status != Deleted && e.candidateBlob.None?) || (e.status != Added && e.baseBlob.None?));
      var i :| 0 <= i < |es| && es[i] == e;
      assert ps[i] in ps && Incomplete(ps[i]);
    }
    if AnyIncomplete(ps) {
      var e :| e in ps && Incomplete(e);
      var i :| 0 <= i < |ps| && ps[i] == e;
      assert es[i] in es;
    }
  }

  lemma {:induction false} UnpoisonedHasMap(ps: seq<Patch>)
    requires forall e :: e in ps ==> !Poisoned(e)
    ensures SideMapOf(ps).Some?
  {
    if ps != [] {
      assert ps[|ps| - 1] in ps && forall e :: e in ps[..|ps| - 1] ==> e in ps;
      UnpoisonedHasMap(ps[..|ps| - 1]);
    }
  }

  lemma CompleteHasMap(es: seq<Entry>)
    requires !HasGap(es)
    ensures SideMapOf(Patches(es)).Some?
  {
    GapIff(es);
    forall e | e in Patches(es) ensures !Poisoned(e) { assert !Incomplete(e); }
    UnpoisonedHasMap(Patches(es));
  }

  lemma CheckedForIff(post: seq<Patch>, p: string, q: string)
    ensures q in CheckedFor(p, post) <==> ComparedFor(post, p, q)
  {
    forall i: nat | MovedFirst(post, p, i) ensures FirstMention(post, p) == Some(post[i]) {
      FirstMentionMeaning(post, p, i);
    }
    if FirstMention(post, p).Some? {
      var i := FirstMentionIndex(post, p);
      assert IsMove(post[i]) ==> MovedFirst(post, p, i);
    }
  }

  lemma ChangedIff(pre: seq<Patch>, post: seq<Patch>, p: string)
    requires SideMapOf(pre).Some? && SideMapOf(post).Some?
    ensures p in Changed(pre, post) <==> Differs(pre, post, p)
  {
  }

  lemma CheckedIff(pre: seq<Patch>, post: seq<Patch>, q: string)
    requires SideMapOf(pre).Some? && SideMapOf(post).Some?
    ensures q in Checked(pre, post) <==> Compared(pre, post, q)
  {
    forall p ensures q in CheckedFor(p, post) <==> ComparedFor(post, p, q) { CheckedForIff(post, p, q); }
    forall p ensures p in Changed(pre, post) <==> Differs(pre, post, p) { ChangedIff(pre, post, p); }
  }

  lemma SameMapIff(pre: seq<Patch>, post: seq<Patch>)
    requires SideMapOf(pre).Some? && SideMapOf(post).Some?
    ensures SideMapOf(pre) == SideMapOf(post) <==> forall p :: !Differs(pre, post, p)
  {
    if forall p :: !Differs(pre, post, p) {
      forall p ensures p !in Changed(pre, post) { ChangedIff(pre, post, p); }
      assert Changed(pre, post) == {};
      NoDifferenceMeansEqual(SideMapOf(pre).value, SideMapOf(post).value);
    }
  }

  lemma AcceptedIff(pre: seq<Patch>, post: seq<Patch>, declared: DeclaredScope, how: MutationMethod)
    requires Comparable(pre, post) && how != Restack && how != Rebase
    ensures Classify(Some(pre), Some(post), Freeze(declared), how).class_ == ExpectedScopedChange
       <==> forall q :: Compared(pre, post, q) ==> Declared(declared, q)
  {
    var scope := Freeze(declared);
    ExpectedIff(pre, post, scope, how);
    forall q ensures (q in Checked(pre, post) <==> Compared(pre, post, q)) && (InScope(q, scope) <==> Declared(declared, q)) {
      CheckedIff(pre, post, q);
      ScopeMeaning(declared, q);
    }
    SomethingCompared(pre, post);
    var q :| q in Checked(pre, post);
    assert InScope(q, scope) ==> !EmptyScope(scope);
  }

  /** The same entry with its paths spelled in another way. */
  ghost predicate Respelled(a: Entry, b: Entry) {
    && Normalize(a.path) == Normalize(b.path) && a.status == b.status && a.incomplete == b.incomplete
    && a.baseBlob == b.baseBlob && a.candidateBlob == b.candidateBlob
    && var prior, prior' := a.oldPath.Some? && a.oldPath.value != [], b.oldPath.Some? && b.oldPath.value != [];
       prior == prior' && (prior ==> Normalize(a.oldPath.value) == Normalize(b.oldPath.value))
  }

  /** The spelling of paths does not matter: the map and the classification are the same. */
  lemma SpellingDoesNotMatter(es: seq<Entry>, es': seq<Entry>, other: Option<seq<Entry>>, scope: Scope, how: MutationMethod)
    requires |es| == |es'| && forall i :: 0 <= i < |es| ==> Respelled(es[i], es'[i])
    ensures SideMapOf(Patches(es)) == SideMapOf(Patches(es'))
    ensures Classify(PatchesOpt(Some(es)), PatchesOpt(other), scope, how) == Classify(PatchesOpt(Some(es')), PatchesOpt(other), scope, how)
    ensures Classify(PatchesOpt(other), PatchesOpt(Some(es)), scope, how) == Classify(PatchesOpt(other), PatchesOpt(Some(es')), scope, how)
  {
    assert Patches(es) == Patches(es') by {
      forall i | 0 <= i < |es| ensures Patches(es)[i] == Patches(es')[i] { assert Respelled(es[i], es'[i]); }
    }
  }

  /** A listing that failed leaves nothing to compare: the class is unverified. */
  lemma FailedListingIsUnverified(other: Option<seq<Entry>>, scope: Scope, how: MutationMethod)
    ensures Classify(PatchesOpt(Some([LIST_FAILED])), PatchesOpt(other), scope, how).class_ == Unverified
    ensures Classify(PatchesOpt(other), PatchesOpt(Some([LIST_FAILED])), scope, how).class_ == Unverified
  {
    assert LIST_FAILED in [LIST_FAILED];
    GapIff([LIST_FAILED]);
  }

  /** The classifier gives the right class for every pair of manifests, scope and method. */
  lemma ClassifyIsRight(pre: Option<seq<Entry>>, post: Option<seq<Entry>>, declared: DeclaredScope, how: MutationMethod)
    ensures RightClass(pre, post, declared, how, Classify(PatchesOpt(pre), PatchesOpt(post), Freeze(declared), how).class_)
  {
    if pre.Some? && post.Some? {
      GapIff(pre.value);
      GapIff(post.value);
      if !HasGap(pre.value) && !HasGap(post.value) {
        CompleteHasMap(pre.value);
        CompleteHasMap(post.value);
        var a, b := Patches(pre.value), Patches(post.value);
        SameMapIff(a, b);
        if SideMapOf(a) != SideMapOf(b) && how != Restack && how != Rebase {
          AcceptedIff(a, b, declared, how);
        }
      }
    }
  }

  /** The verdict, and the paths that the reason of a comparison with the scope names. */
  method ClassifyTransition(pre: Option<seq<Entry>>, post: Option<seq<Entry>>, declared: DeclaredScope, how: MutationMethod)
    returns (v: Verdict, outOfScope: set<string>)
    ensures v == Classify(PatchesOpt(pre), PatchesOpt(post), Freeze(declared), how)
    ensures RightClass(pre, post, declared, how, v.class_)
    ensures v.class_ == ScopeExpansion && !EmptyScopeMethod(how) && !EmptyScope(Freeze(declared)) <==> outOfScope != {}
    ensures outOfScope != {} ==>
              post.Some? && outOfScope == set p | p in v.differing && OutOfScope(Patches(post.value), p, Freeze(declared))
  {
    ClassifyIsRight(pre, post, declared, how);
    outOfScope := {};
    if pre.None? || post.None? { return Verdict(Unverified, {}), {}; }
    var post' := Patches(post.value);
    if AnyIncomplete(Patches(pre.value)) || AnyIncomplete(post') { return Verdict(Unverified, {}), {}; }
    var a := CandidateSideMap(pre.value);
    var b := CandidateSideMap(post.value);
    if a.None? || b.None? { return Verdict(Unverified, {}), {}; }
    if a == b { return Verdict(SemanticallyEquivalent, {}), {}; }
    var differing := Differing(a.value, b.value);
    var scope := Freeze(declared);
    if EmptyScopeMethod(how) { return Verdict(ScopeExpansion, differing), {}; }
    if EmptyScope(scope) { return Verdict(ScopeExpansion, differing), {}; }
    outOfScope := CollectOutOfScope(differing, post', scope);
    if outOfScope != {} {
      var p :| p in outOfScope;
      return Verdict(ScopeExpansion, differing), outOfScope;
    }
    assert forall p :: p in differing ==> (OutOfScope(post', p, scope) <==> p in outOfScope);
    return Verdict(ExpectedScopedChange, differing), outOfScope;
  }

  method CollectOutOfScope(differing: set<string>, post: seq<Patch>, scope: Scope) returns (outOfScope: set<string>)
    ensures outOfScope == set p | p in differing && OutOfScope(post, p, scope)
  {
    var todo := differing;
    outOfScope := {};
    while todo != {}
      invariant todo <= differing && outOfScope <= differing - todo
      invariant forall p :: p in differing - todo ==> (p in outOfScope <==> OutOfScope(post, p, scope))
    {
      var p :| p in todo;
      if OutOfScope(post, p, scope) { outOfScope := outOfScope + {p}; }
      todo := todo - {p};
    }
  }

  // ----- Semantic equivalence means one same patch -----

  lemma EquivalentIffSameMap(pre: seq<Patch>, post: seq<Patch>, scope: Scope, how: MutationMethod)
    requires forall e :: e in pre ==> !Incomplete(e)
    requires forall e :: e in post ==> !Incomplete(e)
    requires SideMapOf(pre).Some? && SideMapOf(post).Some?
    ensures var c := Classify(Some(pre), Some(post), scope, how).class_;
            c != Unverified && (c == SemanticallyEquivalent <==> SideMapOf(pre) == SideMapOf(post))
  {
  }

  /**
    For faithful listings of two candidates, `semantically_equivalent` says that
    one map turns each base into its own candidate. For listings that name only
    changed paths it holds exactly when the two trees differ from their bases alike.
  */
  lemma EquivalentMeansSamePatch(
      pre: seq<Item>, base1: Tree, cand1: Tree, post: seq<Item>, base2: Tree, cand2: Tree,
      scope: Scope, how: MutationMethod)
    requires Faithful(pre, base1, cand1) && CopySourcesListed(pre, cand1)
    requires Faithful(post, base2, cand2) && CopySourcesListed(post, cand2)
    ensures var v := Classify(Some(TreePatches(pre, base1, cand1)), Some(TreePatches(post, base2, cand2)), scope, how);
            && v.class_ != Unverified
            && (v.class_ == SemanticallyEquivalent ==>
                  exists m :: Overlay(base1, m) == cand1 && Overlay(base2, m) == cand2)
            && (v.class_ == SemanticallyEquivalent && base1 == base2 ==> cand1 == cand2)
            && (Tight(pre, base1, cand1) && Tight(post, base2, cand2) ==>
                  (v.class_ == SemanticallyEquivalent <==> TreeDiff(base1, cand1) == TreeDiff(base2, cand2)))
  {
    var p1, p2 := TreePatches(pre, base1, cand1), TreePatches(post, base2, cand2);
    assert SideMapOf(p1).Some? && forall e :: e in p1 ==> !Incomplete(e) by { FaithfulSideMap(pre, base1, cand1); }
    assert SideMapOf(p2).Some? && forall e :: e in p2 ==> !Incomplete(e) by { FaithfulSideMap(post, base2, cand2); }
    EquivalentIffSameMap(p1, p2, scope, how);
    var m := SideMapOf(p1).value;
    assert Overlay(base1, m) == cand1 by { OverlayTheorem(pre, base1, cand1); }
    assert Overlay(base2, SideMapOf(p2).value) == cand2 by { OverlayTheorem(post, base2, cand2); }
    if Tight(pre, base1, cand1) && Tight(post, base2, cand2) {
      SideMapIsTreeDiff(pre, base1, cand1);
      SideMapIsTreeDiff(post, base2, cand2);
    }
  }

  // ----- Scope soundness -----

  ghost predicate Comparable(pre: seq<Patch>, post: seq<Patch>) {
    && !AnyIncomplete(pre) && !AnyIncomplete(post)
    && SideMapOf(pre).Some? && SideMapOf(post).Some? && SideMapOf(pre) != SideMapOf(post)
  }

  function Changed(pre: seq<Patch>, post: seq<Patch>): set<string>
    requires SideMapOf(pre).Some? && SideMapOf(post).Some?
  {
    Differing(SideMapOf(pre).value, SideMapOf(post).value)
  }

  function CheckedFor(p: string, post: seq<Patch>): set<string> {
    var e := FirstMention(post, p);
    if e.Some? && IsMove(e.value) then {e.value.path} + (if e.value.source.Some? then {e.value.source.value} else {})
    else {Normalize(p)}
  }

  /** The paths the classifier compares with the scope. */
  function Checked(pre: seq<Patch>, post: seq<Patch>): set<string>
    requires SideMapOf(pre).Some? && SideMapOf(post).Some?
  {
    set p, q | p in Changed(pre, post) && q in CheckedFor(p, post) :: q
  }

  lemma OutOfScopeIff(post: seq<Patch>, p: string, scope: Scope)
    ensures OutOfScope(post, p, scope) <==> exists q :: q in CheckedFor(p, post) && !InScope(q, scope)
  {
    var e := FirstMention(post, p);
    if e.Some? && IsMove(e.value) {
      assert e.value.path in CheckedFor(p, post);
      if e.value.source.Some? { assert e.value.source.value in CheckedFor(p, post); }
    } else {
      assert Normalize(p) in CheckedFor(p, post);
    }
  }

  /** The exact condition for `expected_scoped_change`. */
  lemma ExpectedIff(pre: seq<Patch>, post: seq<Patch>, scope: Scope, how: MutationMethod)
    ensures Classify(Some(pre), Some(post), scope, how).class_ == ExpectedScopedChange
       <==> && Comparable(pre, post) && !EmptyScopeMethod(how)
            && !EmptyScope(scope)
            && forall q :: q in Checked(pre, post) ==> InScope(q, scope)
  {
    if Comparable(pre, post) {
      forall p ensures OutOfScope(post, p, scope) <==> exists q :: q in CheckedFor(p, post) && !InScope(q, scope) {
        OutOfScopeIff(post, p, scope);
      }
    }
  }

  /**
    An accepted scoped change keeps every differing path inside the declared scope,
    as it is or normalized once more, with both ends of the rename or copy that names
    it first. Only the empty path is never declared: it passes with a rename or copy
    that has no old path.
  */
  lemma ScopeSound(pre: seq<Patch>, post: seq<Patch>, declared: DeclaredScope, how: MutationMethod, p: string)
    requires Classify(Some(pre), Some(post), Freeze(declared), how).class_ == ExpectedScopedChange
    requires SideMapOf(pre).Some? && SideMapOf(post).Some? && Differs(pre, post, p)
    ensures how != Restack && how != Rebase
    ensures Declared(declared, p) || Declared(declared, Normalize(p))
            || (p == [] && exists i: nat :: MovedFirst(post, p, i) && post[i].source.None?)
    ensures forall i: nat :: MovedFirst(post, p, i) ==>
              Declared(declared, post[i].path) && (post[i].source.Some? ==> Declared(declared, post[i].source.value))
  {
    ExpectedIff(pre, post, Freeze(declared), how);
    AcceptedIff(pre, post, declared, how);
    forall q | ComparedFor(post, p, q) ensures Declared(declared, q) { assert Compared(pre, post, q); }
    forall i: nat | MovedFirst(post, p, i)
      ensures Declared(declared, post[i].path) && (post[i].source.Some? ==> Declared(declared, post[i].source.value))
    {
      assert ComparedFor(post, p, post[i].path);
      if post[i].source.Some? { assert ComparedFor(post, p, post[i].source.value); }
    }
    if forall i: nat :: !MovedFirst(post, p, i) {
      assert ComparedFor(post, p, Normalize(p));
    }
  }

  /** Declaring more never turns an accepted change into an expansion. */
  lemma ScopeMonotone(pre: seq<Patch>, post: seq<Patch>, narrow: DeclaredScope, wide: DeclaredScope, how: MutationMethod)
    requires forall p :: p in narrow.paths ==> p in wide.paths
    requires forall d :: d in narrow.directories ==> d in wide.directories
    requires Classify(Some(pre), Some(post), Freeze(narrow), how).class_ == ExpectedScopedChange
    ensures Classify(Some(pre), Some(post), Freeze(wide), how).class_ == ExpectedScopedChange
  {
    FreezeMonotone(narrow, wide);
    WiderKeepsExpected(pre, post, Freeze(narrow), Freeze(wide), how);
  }

  lemma WiderKeepsExpected(pre: seq<Patch>, post: seq<Patch>, narrow: Scope, wide: Scope, how: MutationMethod)
    requires Wider(narrow, wide)
    requires Classify(Some(pre), Some(post), narrow, how).class_ == ExpectedScopedChange
    ensures Classify(Some(pre), Some(post), wide, how).class_ == ExpectedScopedChange
  {
    ExpectedIff(pre, post, narrow, how);
    ExpectedIff(pre, post, wide, how);
  }

  /** An expansion always names a differing path, so a no-op can never be reported as one. */
  lemma ExpansionNamesAPath(pre: Option<seq<Patch>>, post: Option<seq<Patch>>, scope: Scope, how: MutationMethod)
    requires Classify(pre, post, scope, how).class_ == ScopeExpansion
    ensures Classify(pre, post, scope, how).differing != {}
  {
    NoDifferenceMeansEqual(SideMapOf(pre.value).value, SideMapOf(post.value).value);
  }

  // ----- Renames on both sides -----

  /** Both ends of every rename or copy whose destination changed. */
  function MoveEnds(pre: seq<Patch>, post: seq<Patch>): set<string>
    requires SideMapOf(pre).Some? && SideMapOf(post).Some?
  {
    (set e | e in post && IsMove(e) && e.source.Some? && e.path in Changed(pre, post) :: e.path)
    + (set e | e in post && IsMove(e) && e.source.Some? && e.path in Changed(pre, post) :: e.source.value)
  }

  /** No scope of exact paths lets a one-sided rename through. */
  ghost predicate RenamesCheckedOnBothSides(pre: seq<Patch>, post: seq<Patch>, how: MutationMethod)
    requires SideMapOf(pre).Some? && SideMapOf(post).Some?
  {
    forall scope: Scope {:trigger Classify(Some(pre), Some(post), scope, how)} ::
      Classify(Some(pre), Some(post), scope, how).class_ == ExpectedScopedChange ==>
        forall q :: q in MoveEnds(pre, post) ==> InScope(q, scope)
  }

  lemma NoDifferenceMeansEqual(a: SideMap, b: SideMap)
    ensures Differing(a, b) == {} ==> a == b
  {
    if Differing(a, b) == {} {
      forall p ensures p in a <==> p in b { assert p !in Differing(a, b); }
      forall p | p in a ensures a[p] == b[p] { assert p !in Differing(a, b); }
    }
  }

  /**
    Every accepted change has both ends of each rename in scope whose destination
    changed, exactly when nothing can be accepted at all (a method without a scope, or
    the empty path to compare) or the paths the classifier compares include those
    ends. A rename whose destination is first mentioned by another entry can escape.
  */
  lemma RenameCheckIff(pre: seq<Patch>, post: seq<Patch>, how: MutationMethod)
    requires Comparable(pre, post)
    ensures RenamesCheckedOnBothSides(pre, post, how)
       <==> EmptyScopeMethod(how) || [] in Checked(pre, post) || MoveEnds(pre, post) <= Checked(pre, post)
  {
    var covered := Checked(pre, post);
    if EmptyScopeMethod(how) || [] in covered || MoveEnds(pre, post) <= covered {
      forall scope | Classify(Some(pre), Some(post), scope, how).class_ == ExpectedScopedChange
        ensures forall q :: q in MoveEnds(pre, post) ==> InScope(q, scope)
      {
        ExpectedIff(pre, post, scope, how);
      }
    } else {
      var scope := Scope(covered, {});
      SomethingCompared(pre, post);
      ExpectedIff(pre, post, scope, how);
      assert Classify(Some(pre), Some(post), scope, how).class_ == ExpectedScopedChange;
      var q :| q in MoveEnds(pre, post) && q !in covered;
      assert !InScope(q, scope);
    }
  }

  lemma SomethingCompared(pre: seq<Patch>, post: seq<Patch>)
    requires Comparable(pre, post)
    ensures Checked(pre, post) != {}
  {
    NoDifferenceMeansEqual(SideMapOf(pre).value, SideMapOf(post).value);
    var p :| p in Changed(pre, post);
    var e := FirstMention(post, p);
    var q := if e.Some? && IsMove(e.value) then e.value.path else Normalize(p);
    assert q in CheckedFor(p, post) && q in Checked(pre, post);
  }

  function Whole(path: string, status: Status, source: Option<string>, oid: string): Patch {
    Patch(path, status, source, Some("0"), if status == Deleted then None else Some(oid), false)
  }

  /** A chain of renames in which the source of the second is never compared with the scope. */
  lemma ChainedRenameEscapes(a: string, p: string, q: string)
    requires a != [] && p != [] && q != [] && a != p && a != q && p != q
    ensures var pre := [Whole(a, Deleted, None, "")];
            var post := [Whole(q, Renamed, Some(p), "1"), Whole(p, Renamed, Some(a), "2")];
            && Comparable(pre, post) && a in MoveEnds(pre, post)
            && Classify(Some(pre), Some(post), Scope({p, q}, {}), RecoveryRepair).class_ == ExpectedScopedChange
  {
    var e, f := Whole(q, Renamed, Some(p), "1"), Whole(p, Renamed, Some(a), "2");
    var pre, post := [Whole(a, Deleted, None, "")], [e, f];
    ChainMaps(a, p, q, "1", "2");
    assert e in post && f in post;
    assert Changed(pre, post) == {p, q};
    assert f.source.value in MoveEnds(pre, post);
    forall x | x in Checked(pre, post) ensures InScope(x, Scope({p, q}, {})) {
      ChainChecked(e, f, p, q, x);
    }
    ExpectedIff(pre, post, Scope({p, q}, {}), RecoveryRepair);
  }

  lemma ChainChecked(e: Patch, f: Patch, p: string, q: string, x: string)
    requires IsMove(e) && e.path == q && e.source == Some(p) && (x in CheckedFor(p, [e, f]) || x in CheckedFor(q, [e, f]))
    ensures x in {p, q}
  {
    assert FirstMention([e, f], p) == Some(e) && FirstMention([e, f], q) == Some(e);
  }

  lemma ChainMaps(a: string, p: string, q: string, x: string, y: string)
    requires a != [] && p != [] && q != [] && a != p && a != q && p != q
    ensures SideMapOf([Whole(a, Deleted, None, "")]) == Some(map[a := Delete])
    ensures SideMapOf([Whole(q, Renamed, Some(p), x), Whole(p, Renamed, Some(a), y)])
         == Some(map[q := Content(x), p := Content(y), a := Delete])
  {
    var d, e, f := Whole(a, Deleted, None, ""), Whole(q, Renamed, Some(p), x), Whole(p, Renamed, Some(a), y);
    assert SideMapOf([]) == Some(map[]);
    assert [d][..0] == [] && [e, f][..1] == [e] && [e][..0] == [];
    assert SideMapOf([e]) == Some(map[q := Content(x), p := Delete]);
    assert AddPatch(map[q := Content(x), p := Delete], f) == map[q := Content(x), p := Content(y), a := Delete];
  }
}
