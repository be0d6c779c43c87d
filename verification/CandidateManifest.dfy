/**
  Candidate manifests and their candidate-side maps (core/scripts/candidate-integrity.ts).
  Blob ids are opaque strings; a tree maps repository paths to blob ids.
*/
module CandidateManifest {
  import opened Prelude
  import opened RepoPath

  datatype Status = Added | Modified | Deleted | Renamed | Copied

  datatype Entry = Entry(
    path: string, status: Status, oldPath: Option<string>,
    baseBlob: Option<string>, candidateBlob: Option<string>, incomplete: bool)

  datatype Item = Item(status: Status, path: string, oldPath: Option<string>)

  /** The answer of a blob lookup: an id, no such path, or an error thrown by git. */
  datatype Probe = Blob(oid: string) | Absent | Unreadable

  type Tree = map<string, string>

  datatype SideValue = Delete | Content(oid: string)

  type SideMap = map<string, SideValue>

  // ----- Building the manifest -----

  function NormalizeOpt(p: Option<string>): Option<string> {
    if p.None? || p.value == [] then None else Some(Normalize(p.value))
  }

  function Oid(p: Probe): Option<string> {
    if p.Blob? then Some(p.oid) else None
  }

  function BuildEntry(item: Item, baseAt: string -> Probe, candAt: string -> Probe): Entry {
    EntryAt(item.status, Normalize(item.path), NormalizeOpt(item.oldPath), baseAt, candAt)
  }

  function EntryAt(status: Status, path: string, prior: Option<string>,
                   baseAt: string -> Probe, candAt: string -> Probe): Entry {
    match status
    case Added =>
      var c := candAt(path);
      Entry(path, Added, prior, None, Oid(c), !c.Blob?)
    case Deleted =>
      var b := baseAt(if prior.Some? then prior.value else path);
      Entry(path, Deleted, prior, Oid(b), None, !b.Blob?)
    case _ =>
      var b := baseAt(if status == Modified then path else MovedFrom(path, prior));
      var c := if b.Unreadable? then Unreadable else candAt(path);
      Entry(path, status, prior, Oid(b), Oid(c), !(b.Blob? && c.Blob?))
  }

  function MovedFrom(path: string, prior: Option<string>): string {
    if prior.Some? && prior.value != [] then prior.value else path
  }

  const LIST_FAILED := Entry("__list_failed__", Modified, None, None, None, true)

  function Entries(items: seq<Item>, baseAt: string -> Probe, candAt: string -> Probe): seq<Entry> {
    seq(|items|, i requires 0 <= i < |items| => BuildEntry(items[i], baseAt, candAt))
  }

  /** `listed` is None when the name-status listing itself throws. */
  method BuildManifestFromDeps(listed: Option<seq<Item>>, baseAt: string -> Probe, candAt: string -> Probe)
    returns (entries: seq<Entry>)
    ensures entries == if listed.None? then [LIST_FAILED] else Entries(listed.value, baseAt, candAt)
    ensures listed.None? ==> exists e :: e in entries && e.incomplete
    ensures listed.Some? ==> |entries| == |listed.value|
                             && forall i :: 0 <= i < |entries| ==> Records(listed.value[i], entries[i], baseAt, candAt)
  {
    if listed.None? { return [LIST_FAILED]; }
    entries := [];
    for i := 0 to |listed.value|
      invariant entries == Entries(listed.value, baseAt, candAt)[..i]
    {
      entries := entries + [BuildEntry(listed.value[i], baseAt, candAt)];
    }
    forall i | 0 <= i < |entries| ensures Records(listed.value[i], entries[i], baseAt, candAt) {
      EntryRecords(listed.value[i], baseAt, candAt);
    }
  }

  /** Where the content before the change is looked up: an old path stands in, except for a modification. */
  ghost predicate LooksUp(it: Item, p: string) {
    var prior := it.oldPath.Some? && it.oldPath.value != [] && it.status != Modified;
    if prior && (it.status == Deleted || Normalize(it.oldPath.value) != []) then p == Normalize(it.oldPath.value)
    else p == Normalize(it.path)
  }

  /**
    What an entry says of a listed change: both paths normalized; the content before,
    unless it was added; the content after, unless it was deleted or the first
    lookup threw; and whether a content it should have is missing.
  */
  ghost predicate Records(it: Item, e: Entry, baseAt: string -> Probe, candAt: string -> Probe) {
    && e.path == Normalize(it.path) && e.status == it.status
    && (e.oldPath.Some? <==> it.oldPath.Some? && it.oldPath.value != [])
    && (e.oldPath.Some? ==> e.oldPath.value == Normalize(it.oldPath.value))
    && (forall p, x :: LooksUp(it, p) ==> (e.baseBlob == Some(x) <==> it.status != Added && baseAt(p) == Blob(x)))
    && (forall p, x :: LooksUp(it, p) ==>
          (e.candidateBlob == Some(x) <==>
            it.status != Deleted && candAt(e.path) == Blob(x) && (it.status == Added || baseAt(p) != Unreadable)))
    && (e.incomplete <==> (it.status != Added && e.baseBlob.None?) || (it.status != Deleted && e.candidateBlob.None?))
  }

  lemma EntryRecords(it: Item, baseAt: string -> Probe, candAt: string -> Probe)
    ensures Records(it, BuildEntry(it, baseAt, candAt), baseAt, candAt)
  {
  }

  // ----- The candidate-side map -----

  /** A manifest entry as the map and the classifier read it, with its paths normalized. */
  datatype Patch = Patch(
    path: string, status: Status, source: Option<string>,
    baseBlob: Option<string>, candidateBlob: Option<string>, incomplete: bool)

  function ToPatch(e: Entry): Patch {
    Patch(Normalize(e.path), e.status, NormalizeOpt(e.oldPath), e.baseBlob, e.candidateBlob, e.incomplete)
  }

  function Patches(es: seq<Entry>): (ps: seq<Patch>) {
    seq(|es|, i requires 0 <= i < |es| => ToPatch(es[i]))
  }

  predicate Poisoned(e: Patch) {
    e.status != Deleted && (e.candidateBlob.None? || e.incomplete)
  }

  function Value(e: Patch): SideValue
    requires !Poisoned(e)
  {
    if e.status == Deleted then Delete else Content(e.candidateBlob.value)
  }

  predicate Moves(e: Patch) {
    (e.status == Renamed || e.status == Copied) && e.source.Some? && e.source.value != []
  }

  function AddPatch(m: SideMap, e: Patch): SideMap
    requires !Poisoned(e)
  {
    var m1 := m[e.path := Value(e)];
    if Moves(e) && e.source.value !in m1 then m1[e.source.value := Delete] else m1
  }

  function SideMapOf(es: seq<Patch>): Option<SideMap> {
    if es == [] then Some(map[])
    else
      var m, e := SideMapOf(es[..|es| - 1]), es[|es| - 1];
      if m.None? || Poisoned(e) then None else Some(AddPatch(m.value, e))
  }

  method CandidateSideMap(es: seq<Entry>) returns (m: Option<SideMap>)
    ensures m == SideMapOf(Patches(es))
  {
    var acc: SideMap := map[];
    ghost var ps := Patches(es);
    for i := 0 to |es|
      invariant SideMapOf(ps[..i]) == Some(acc)
    {
      var e := ToPatch(es[i]);
      if Poisoned(e) {
        PoisonSpreads(ps, i);
        return None;
      }
      NextPatch(ps, i, acc);
      acc := AddPatch(acc, e);
    }
    assert ps[..|es|] == ps;
    return Some(acc);
  }

  lemma NextPatch(es: seq<Patch>, i: nat, m: SideMap)
    requires i < |es| && SideMapOf(es[..i]) == Some(m) && !Poisoned(es[i])
    ensures SideMapOf(es[..i + 1]) == Some(AddPatch(m, es[i]))
  {
    assert es[..i + 1][..i] == es[..i];
  }

  lemma {:induction false} PoisonSpreads(es: seq<Patch>, i: nat)
    requires i < |es| && Poisoned(es[i])
    ensures SideMapOf(es).None?
  {
    if i < |es| - 1 { PoisonSpreads(es[..|es| - 1], i); }
  }

  function Destinations(es: seq<Patch>): set<string> {
    set e | e in es :: e.path
  }

  function Sources(es: seq<Patch>): set<string> {
    set e | e in es && Moves(e) :: e.source.value
  }

  predicate DistinctDestinations(es: seq<Patch>) {
    forall i, j :: 0 <= i < j < |es| ==> es[i].path != es[j].path
  }

  /** What a candidate-side map must be, with no reference to the order of the entries. */
  ghost predicate IsSideMap(es: seq<Patch>, m: SideMap) {
    && (forall e :: e in es ==> !Poisoned(e))
    && m.Keys == Destinations(es) + Sources(es)
    && (forall e :: e in es ==> e.path in m && m[e.path] == Value(e))
    && (forall p :: p in m && p !in Destinations(es) ==> m[p] == Delete)
  }

  lemma AddPatchMeaning(es: seq<Patch>, e: Patch, m: SideMap)
    requires IsSideMap(es, m) && e.path !in Destinations(es) && !Poisoned(e)
    ensures IsSideMap(es + [e], AddPatch(m, e))
  {
    var es', m' := es + [e], AddPatch(m, e);
    assert forall x :: x in es' <==> x in es || x == e;
    assert Destinations(es') == Destinations(es) + {e.path};
    assert Sources(es') == Sources(es) + (if Moves(e) then {e.source.value} else {});
    forall x | x in es' ensures x.path in m' && m'[x.path] == Value(x) {
      if x in es { assert x.path in Destinations(es); }
    }
  }

  lemma {:induction false} SideMapShape(es: seq<Patch>)
    requires DistinctDestinations(es)
    ensures SideMapOf(es).None? <==> exists e :: e in es && Poisoned(e)
    ensures SideMapOf(es).Some? ==> IsSideMap(es, SideMapOf(es).value)
  {
    if es != [] {
      var init, e := es[..|es| - 1], es[|es| - 1];
      SideMapShape(init);
      assert es == init + [e];
      assert forall x :: x in es <==> x in init || x == e;
      if SideMapOf(es).Some? {
        AddPatchMeaning(init, e, SideMapOf(init).value);
      }
    }
  }

  /** The entry speaks of the path: as its own, or as the source of a rename or copy. */
  ghost predicate SpeaksOf(e: Patch, p: string) {
    e.path == p || (p != [] && e.source == Some(p) && (e.status == Renamed || e.status == Copied))
  }

  /** Every listed path has its content or is deleted, and so is a source that is not listed itself. */
  ghost predicate ReadsAs(es: seq<Patch>, m: SideMap) {
    && (forall p :: p in m <==> Spoken(es, p))
    && (forall e :: e in es ==> e.path in m && SaysOf(e, m[e.path]))
    && (forall p :: p in m ==> m[p] == Delete || exists e :: e in es && e.path == p)
  }

  ghost predicate Spoken(es: seq<Patch>, p: string) {
    exists e :: e in es && SpeaksOf(e, p)
  }

  ghost predicate SaysOf(e: Patch, v: SideValue) {
    if e.status == Deleted then v == Delete else v.Content? && e.candidateBlob == Some(v.oid)
  }

  /**
    A manifest has no map if and only if an entry that is not a deletion is incomplete or has
    no content; otherwise the map is read off the entries, whatever their order.
  */
  lemma SideMapMeaning(es: seq<Patch>)
    requires DistinctDestinations(es)
    ensures SideMapOf(es).None? <==> exists e :: e in es && e.status != Deleted && (e.incomplete || e.candidateBlob.None?)
    ensures SideMapOf(es).Some? ==> ReadsAs(es, SideMapOf(es).value)
  {
    SideMapShape(es);
    if SideMapOf(es).Some? { MapReadsAs(es, SideMapOf(es).value); }
  }

  lemma SpokenOf(es: seq<Patch>, p: string)
    ensures p in Destinations(es) + Sources(es) <==> Spoken(es, p)
  {
    if p in Destinations(es) + Sources(es) {
      var e :| e in es && (e.path == p || (Moves(e) && e.source.value == p));
      assert SpeaksOf(e, p);
    }
    if e :| e in es && SpeaksOf(e, p) {
      assert e.path == p || (Moves(e) && e.source.value == p);
    }
  }

  lemma MapReadsAs(es: seq<Patch>, m: SideMap)
    requires IsSideMap(es, m)
    ensures ReadsAs(es, m)
  {
    forall p ensures p in m <==> Spoken(es, p) {
      SpokenOf(es, p);
    }
    UnlistedDeleted(es, m);
  }

  lemma UnlistedDeleted(es: seq<Patch>, m: SideMap)
    requires IsSideMap(es, m)
    ensures forall p :: p in m ==> m[p] == Delete || exists e :: e in es && e.path == p
    ensures forall e :: e in es ==> e.path in m && SaysOf(e, m[e.path])
  {
    forall p | p in m && m[p] != Delete ensures exists e :: e in es && e.path == p {
      assert p in Destinations(es);
    }
  }

  lemma SideMapUnique(es: seq<Patch>, m1: SideMap, m2: SideMap)
    requires IsSideMap(es, m1) && IsSideMap(es, m2)
    ensures m1 == m2
  {
    forall p | p in m1 ensures m1[p] == m2[p] {
      if p in Destinations(es) {
        var e :| e in es && e.path == p;
      }
    }
  }

  /** With distinct destinations the map does not depend on the order of the entries. */
  lemma SideMapOrderIndependent(es: seq<Patch>, es': seq<Patch>)
    requires DistinctDestinations(es) && DistinctDestinations(es')
    requires forall e :: e in es <==> e in es'
    ensures SideMapOf(es) == SideMapOf(es')
  {
    SideMapShape(es);
    SideMapShape(es');
    if SideMapOf(es).Some? {
      var m := SideMapOf(es').value;
      assert Destinations(es) == Destinations(es') && Sources(es) == Sources(es');
      assert IsSideMap(es, m);
      SideMapUnique(es, SideMapOf(es).value, m);
    }
  }

  // ----- Overlaying a tree -----

  function Lookup(t: Tree, p: string): Option<string> {
    if p in t then Some(t[p]) else None
  }

  function ProbeTree(t: Tree): string -> Probe {
    p => if p in t then Blob(t[p]) else Absent
  }

  function Overlay(t: Tree, m: SideMap): Tree {
    map p | p in t.Keys + m.Keys && (p in m ==> m[p].Content?) :: if p in m then m[p].oid else t[p]
  }

  function Listed(items: seq<Item>): set<string> {
    set it | it in items :: it.path
  }

  function MoveSources(items: seq<Item>, status: Status): set<string> {
    set it | it in items && it.status == status && it.oldPath.Some? :: it.oldPath.value
  }

  predicate Consistent(it: Item, base: Tree, cand: Tree) {
    match it.status
    case Added => it.path in cand
    case Modified => it.path in base && it.path in cand
    case Deleted => it.path in base && it.path !in cand && it.oldPath.None?
    case _ => it.oldPath.Some? && it.oldPath.value in base && it.path in cand
  }

  /** A truthful name-status listing of the changes from `base` to `cand`. */
  ghost predicate Faithful(items: seq<Item>, base: Tree, cand: Tree) {
    && (forall it :: it in items ==> Clean(it.path) && (it.oldPath.Some? ==> Clean(it.oldPath.value)))
    && (forall i, j :: 0 <= i < j < |items| ==> items[i].path != items[j].path)
    && (forall it :: it in items ==> Consistent(it, base, cand))
    && (forall p :: p in MoveSources(items, Renamed) ==> p !in cand || p in Listed(items))
    && (forall p :: p in base.Keys + cand.Keys && Lookup(base, p) != Lookup(cand, p) ==>
          p in Listed(items) || p in MoveSources(items, Renamed))
  }

  /** No copy entry has a source that lives on, unlisted, in the candidate. */
  ghost predicate CopySourcesListed(items: seq<Item>, cand: Tree) {
    forall p :: p in MoveSources(items, Copied) ==> p !in cand || p in Listed(items)
  }

  function TreePatches(items: seq<Item>, base: Tree, cand: Tree): seq<Patch> {
    Patches(Entries(items, ProbeTree(base), ProbeTree(cand)))
  }

  predicate Incomplete(e: Patch) {
    || e.incomplete
    || (if e.status == Deleted then e.baseBlob.None?
        else if e.status == Added then e.candidateBlob.None?
        else e.candidateBlob.None? || e.baseBlob.None?)
  }

  predicate FaithfulPatch(it: Item, e: Patch, cand: Tree) {
    && e.path == it.path && !Poisoned(e) && !Incomplete(e)
    && Value(e) == (if it.path in cand then Content(cand[it.path]) else Delete)
    && (Moves(e) <==> it.status == Renamed || it.status == Copied)
    && (Moves(e) ==> it.oldPath == e.source)
  }

  lemma CleanItemPatch(it: Item, base: Tree, cand: Tree)
    requires Clean(it.path) && (it.oldPath.Some? ==> Clean(it.oldPath.value)) && Consistent(it, base, cand)
    ensures FaithfulPatch(it, ToPatch(BuildEntry(it, ProbeTree(base), ProbeTree(cand))), cand)
  {
    assert NormalizeOpt(it.oldPath) == it.oldPath;
  }

  lemma FaithfulSideMap(items: seq<Item>, base: Tree, cand: Tree)
    requires Faithful(items, base, cand)
    ensures var es := TreePatches(items, base, cand);
            && SideMapOf(es).Some?
            && (forall e :: e in es ==> !Incomplete(e))
            && var m := SideMapOf(es).value;
            && m.Keys == Listed(items) + MoveSources(items, Renamed) + MoveSources(items, Copied)
            && forall p :: p in m ==>
                 m[p] == if p in Listed(items) && p in cand then Content(cand[p]) else Delete
  {
    var es := TreePatches(items, base, cand);
    forall i | 0 <= i < |items| ensures FaithfulPatch(items[i], es[i], cand) {
      assert items[i] in items;
      CleanItemPatch(items[i], base, cand);
    }
    SideMapShape(es);
    SameKeys(items, es, cand);
    forall p | p in SideMapOf(es).value
      ensures SideMapOf(es).value[p] == if p in Listed(items) && p in cand then Content(cand[p]) else Delete
    {
      FaithfulValue(items, es, cand, SideMapOf(es).value, p);
    }
  }

  lemma FaithfulValue(items: seq<Item>, es: seq<Patch>, cand: Tree, m: SideMap, p: string)
    requires |items| == |es| && forall i :: 0 <= i < |items| ==> FaithfulPatch(items[i], es[i], cand)
    requires IsSideMap(es, m) && p in m && Destinations(es) == Listed(items)
    ensures m[p] == if p in Listed(items) && p in cand then Content(cand[p]) else Delete
  {
    if p in Destinations(es) {
      var e :| e in es && e.path == p;
      var i :| 0 <= i < |es| && es[i] == e;
      assert FaithfulPatch(items[i], es[i], cand);
    }
  }

  lemma SameKeys(items: seq<Item>, es: seq<Patch>, cand: Tree)
    requires |items| == |es|
    requires forall i :: 0 <= i < |items| ==> FaithfulPatch(items[i], es[i], cand)
    requires forall it :: it in items && (it.status == Renamed || it.status == Copied) ==> it.oldPath.Some?
    ensures Destinations(es) == Listed(items)
    ensures Sources(es) == MoveSources(items, Renamed) + MoveSources(items, Copied)
  {
    forall p | p in Listed(items) ensures p in Destinations(es) {
      var it :| it in items && it.path == p;
      var i :| 0 <= i < |items| && items[i] == it;
      assert es[i] in es;
    }
    forall p | p in Destinations(es) ensures p in Listed(items) {
      var e :| e in es && e.path == p;
      var i :| 0 <= i < |es| && es[i] == e;
      assert items[i] in items;
    }
    var moved := MoveSources(items, Renamed) + MoveSources(items, Copied);
    forall p | p in moved ensures p in Sources(es) {
      var it :| it in items && (it.status == Renamed || it.status == Copied) && it.oldPath == Some(p);
      var i :| 0 <= i < |items| && items[i] == it;
      assert es[i] in es;
    }
    forall p | p in Sources(es) ensures p in moved {
      var e :| e in es && Moves(e) && e.source.value == p;
      var i :| 0 <= i < |es| && es[i] == e;
      assert items[i] in items;
    }
  }

  lemma SameTree(t: Tree, u: Tree)
    requires forall p :: p in t.Keys + u.Keys ==> Lookup(t, p) == Lookup(u, p)
    ensures t == u
  {
    forall p ensures p in t <==> p in u {
      if p in t { assert p in t.Keys + u.Keys; }
      if p in u { assert p in t.Keys + u.Keys; }
    }
    forall p | p in t ensures t[p] == u[p] {
      assert Lookup(t, p) == Lookup(u, p);
    }
  }

  /**
    Overlaying the candidate-side map of a faithful listing on the base gives the
    candidate tree exactly when no copy entry marks a surviving file as deleted.
  */
  lemma OverlayTheorem(items: seq<Item>, base: Tree, cand: Tree)
    requires Faithful(items, base, cand)
    ensures var m := SideMapOf(TreePatches(items, base, cand));
            m.Some? && (Overlay(base, m.value) == cand <==> CopySourcesListed(items, cand))
  {
    FaithfulSideMap(items, base, cand);
    var m := SideMapOf(TreePatches(items, base, cand)).value;
    var t := Overlay(base, m);
    if CopySourcesListed(items, cand) {
      forall p | p in t.Keys + cand.Keys ensures Lookup(t, p) == Lookup(cand, p) {
        if p in m {
          if p !in Listed(items) { assert false; }
        } else {
          assert p in base.Keys + cand.Keys;
        }
      }
      SameTree(t, cand);
    } else {
      var p :| p in MoveSources(items, Copied) && p in cand && p !in Listed(items);
      assert p in m && p !in t;
    }
  }

  /** A listing without copies always overlays to the candidate tree. */
  lemma OverlayWithoutCopies(items: seq<Item>, base: Tree, cand: Tree)
    requires Faithful(items, base, cand)
    requires forall it :: it in items ==> it.status != Copied
    ensures var m := SideMapOf(TreePatches(items, base, cand));
            m.Some? && Overlay(base, m.value) == cand
  {
    OverlayTheorem(items, base, cand);
  }

  /** A copy of a file that stays in place is recorded as if the file were gone. */
  lemma CopyLosesItsSource()
    ensures var base: Tree := map["a" := "1"];
            var cand: Tree := map["a" := "1", "b" := "1"];
            var items := [Item(Copied, "b", Some("a"))];
            && Faithful(items, base, cand)
            && SideMapOf(TreePatches(items, base, cand)).Some?
            && "a" !in Overlay(base, SideMapOf(TreePatches(items, base, cand)).value)
  {
    var base: Tree := map["a" := "1"];
    var cand: Tree := map["a" := "1", "b" := "1"];
    var item := Item(Copied, "b", Some("a"));
    OneLetterIsClean('a');
    OneLetterIsClean('b');
    assert item in [item];
    assert "b" in Listed([item]) && "a" !in Listed([item]);
    FaithfulSideMap([item], base, cand);
  }

  /** The difference of two trees, computed without any listing. */
  function TreeDiff(base: Tree, cand: Tree): SideMap {
    map p | p in base.Keys + cand.Keys && Lookup(base, p) != Lookup(cand, p)
      :: if p in cand then Content(cand[p]) else Delete
  }

  /** Every listed path really changes. */
  ghost predicate Tight(items: seq<Item>, base: Tree, cand: Tree) {
    forall p :: p in Listed(items) ==> Lookup(base, p) != Lookup(cand, p)
  }

  lemma SideMapIsTreeDiff(items: seq<Item>, base: Tree, cand: Tree)
    requires Faithful(items, base, cand) && CopySourcesListed(items, cand) && Tight(items, base, cand)
    ensures SideMapOf(TreePatches(items, base, cand)) == Some(TreeDiff(base, cand))
  {
    FaithfulSideMap(items, base, cand);
    OverlayTheorem(items, base, cand);
    var m := SideMapOf(TreePatches(items, base, cand)).value;
    forall p | p in m ensures Lookup(base, p) != Lookup(cand, p) {
      if p !in Listed(items) {
        MoveSourceInBase(items, base, cand, p);
        assert p !in Overlay(base, m);
      }
    }
    OverlayDeterminesDiff(base, cand, m);
  }

  /** A map that overlays one tree to another and holds only changed paths is their difference. */
  lemma OverlayDeterminesDiff(base: Tree, cand: Tree, m: SideMap)
    requires Overlay(base, m) == cand
    requires forall p :: p in m ==> Lookup(base, p) != Lookup(cand, p)
    ensures m == TreeDiff(base, cand)
  {
    var d := TreeDiff(base, cand);
    forall p | p in m ensures p in d && m[p] == d[p] {
      if p in Overlay(base, m) { assert p in cand; }
    }
    assert forall p :: p !in m ==> Lookup(base, p) == Lookup(Overlay(base, m), p);
    assert d.Keys <= m.Keys;
  }

  lemma MoveSourceInBase(items: seq<Item>, base: Tree, cand: Tree, p: string)
    requires Faithful(items, base, cand)
    requires p in MoveSources(items, Renamed) + MoveSources(items, Copied)
    ensures p in base
  {
    var it :| it in items && (it.status == Renamed || it.status == Copied) && it.oldPath == Some(p);
    assert Consistent(it, base, cand);
  }
}
