/** Process groups of a process tree (core/scripts/detach.ts). */
module ProcessTree {
  import opened Prelude

  datatype Proc = Proc(pid: int, ppid: int, pgid: int)

  predicate DistinctPids(table: seq<Proc>) {
    forall i, j :: 0 <= i < j < |table| ==> table[i].pid != table[j].pid
  }

  /** `pid` is `n` parent links below `root`. */
  ghost predicate ReachedIn(table: seq<Proc>, root: int, pid: int, n: nat)
    decreases n
  {
    if n == 0 then pid == root
    else exists p :: p in table && p.pid == pid && ReachedIn(table, root, p.ppid, n - 1)
  }

  /** The root and every process below it by parent links. */
  ghost function Below(table: seq<Proc>, root: int): iset<int> {
    iset pid, n: nat | ReachedIn(table, root, pid, n) :: pid
  }

  /** A set that holds the root and the children of its members. */
  ghost predicate Closed(table: seq<Proc>, root: int, s: iset<int>) {
    root in s && forall p :: p in table && p.ppid in s ==> p.pid in s
  }

  lemma BelowClosed(table: seq<Proc>, root: int)
    ensures Closed(table, root, Below(table, root))
  {
    assert ReachedIn(table, root, root, 0);
    forall p | p in table && p.ppid in Below(table, root) ensures p.pid in Below(table, root) {
      var n: nat :| ReachedIn(table, root, p.ppid, n);
      assert ReachedIn(table, root, p.pid, n + 1);
    }
  }

  lemma {:induction false} ClosedContainsReached(table: seq<Proc>, root: int, s: iset<int>, pid: int, n: nat)
    requires Closed(table, root, s) && ReachedIn(table, root, pid, n)
    ensures pid in s
    decreases n
  {
    if n > 0 {
      var p :| p in table && p.pid == pid && ReachedIn(table, root, p.ppid, n - 1);
      ClosedContainsReached(table, root, s, p.ppid, n - 1);
    }
  }

  lemma BelowIsLeast(table: seq<Proc>, root: int, s: iset<int>)
    requires Closed(table, root, s)
    ensures Below(table, root) <= s
  {
    forall pid | pid in Below(table, root) ensures pid in s {
      var n: nat :| ReachedIn(table, root, pid, n);
      ClosedContainsReached(table, root, s, pid, n);
    }
  }

  function Children(table: seq<Proc>, pid: int): seq<Proc> {
    if table == [] then []
    else
      var last := table[|table| - 1];
      Children(table[..|table| - 1], pid) + if last.ppid == pid then [last] else []
  }

  lemma {:induction false} ChildrenMeaning(table: seq<Proc>, pid: int)
    ensures forall p :: p in Children(table, pid) <==> p in table && p.ppid == pid
  {
    if table != [] {
      ChildrenMeaning(table[..|table| - 1], pid);
      assert table == table[..|table| - 1] + [table[|table| - 1]];
    }
  }

  function At(m: map<int, seq<Proc>>, pid: int): seq<Proc> {
    if pid in m then m[pid] else []
  }

  lemma ChildrenSnoc(m: map<int, seq<Proc>>, table: seq<Proc>, p: Proc, pid: int)
    requires At(m, pid) == Children(table, pid)
    ensures At(m[p.ppid := At(m, p.ppid) + [p]], pid) == Children(table + [p], pid)
  {
    assert (table + [p])[..|table|] == table;
  }

  method GroupByParent(table: seq<Proc>) returns (byParent: map<int, seq<Proc>>)
    ensures forall pid :: At(byParent, pid) == Children(table, pid)
  {
    byParent := map[];
    for i := 0 to |table|
      invariant forall pid :: At(byParent, pid) == Children(table[..i], pid)
    {
      var p := table[i];
      forall pid ensures At(byParent[p.ppid := At(byParent, p.ppid) + [p]], pid) == Children(table[..i] + [p], pid) {
        ChildrenSnoc(byParent, table[..i], p, pid);
      }
      assert table[..i + 1] == table[..i] + [p];
      byParent := byParent[p.ppid := At(byParent, p.ppid) + [p]];
    }
    assert table[..|table|] == table;
  }

  function Find(table: seq<Proc>, pid: int): (r: Option<Proc>)
    ensures r.Some? ==> r.value in table && r.value.pid == pid
    ensures r.None? ==> forall p :: p in table ==> p.pid != pid
  {
    if table == [] then None else if table[0].pid == pid then Some(table[0]) else Find(table[1..], pid)
  }

  function Pids(table: seq<Proc>): set<int> {
    set p | p in table :: p.pid
  }

  /** Insertion into a set that keeps insertion order. */
  function Add(s: seq<int>, x: int): (r: seq<int>)
    requires Distinct(s)
    ensures Distinct(r) && s <= r && forall y :: y in r <==> y in s || y == x
  {
    if x in s then s else s + [x]
  }

  ghost predicate HasGroup(table: seq<Proc>, below: iset<int>, g: int) {
    exists p :: p in table && p.pgid == g && p.pid in below
  }

  ghost predicate Recorded(table: seq<Proc>, pgids: seq<int>, pid: int) {
    exists p :: p in table && p.pid == pid && p.pgid in pgids
  }

  /** Every recorded group belongs to a process below the root. */
  ghost predicate Sound(table: seq<Proc>, below: iset<int>, pgids: seq<int>) {
    forall g :: g in pgids ==> HasGroup(table, below, g)
  }

  /** Every process that was seen has a row whose group is recorded. */
  ghost predicate Complete(table: seq<Proc>, seen: iset<int>, pgids: seq<int>) {
    forall p :: p in table && p.pid in seen ==> Recorded(table, pgids, p.pid)
  }

  /** Whatever the table, groups of the tree and no others, once each; the root's own group first. */
  ghost predicate GroupsOfTree(table: seq<Proc>, root: int, pgids: seq<int>) {
    && Distinct(pgids) && Sound(table, Below(table, root), pgids) && Complete(table, Below(table, root), pgids)
    && (Find(table, root).Some? ==> pgids != [] && pgids[0] == Find(table, root).value.pgid)
  }

  ghost function Members(s: set<int>): iset<int> {
    iset x | x in s
  }

  /** What the search has done so far. */
  ghost predicate Searched(table: seq<Proc>, root: int, seen: set<int>, pgids: seq<int>) {
    && Distinct(pgids) && root in seen && seen <= Pids(table) + {root}
    && Members(seen) <= Below(table, root)
    && Sound(table, Below(table, root), pgids) && Complete(table, Members(seen), pgids)
  }

  lemma AddChild(table: seq<Proc>, root: int, seen: set<int>, pgids: seq<int>, p: Proc)
    requires Searched(table, root, seen, pgids) && p in table && p.ppid in seen
    ensures Searched(table, root, seen + {p.pid}, Add(pgids, p.pgid))
  {
    BelowClosed(table, root);
    var more := Add(pgids, p.pgid);
    assert Recorded(table, more, p.pid);
    forall q | q in table && q.pid in seen ensures Recorded(table, more, q.pid) {
      assert Recorded(table, pgids, q.pid);
    }
    forall g | g in more ensures HasGroup(table, Below(table, root), g) {
      if g !in pgids { assert g == p.pgid; }
    }
  }

  lemma Start(table: seq<Proc>, root: int)
    ensures var self := Find(table, root); Searched(table, root, {root}, if self.Some? then [self.value.pgid] else [])
  {
    BelowClosed(table, root);
    var self := Find(table, root);
    var pgids := if self.Some? then [self.value.pgid] else [];
    forall p | p in table && p.pid == root ensures Recorded(table, pgids, p.pid) {
      assert self.value.pgid in pgids;
    }
    forall g | g in pgids ensures HasGroup(table, Below(table, root), g) {}
  }

  lemma Finish(table: seq<Proc>, root: int, seen: set<int>, pgids: seq<int>)
    requires Searched(table, root, seen, pgids) && forall p :: p in table && p.ppid in seen ==> p.pid in seen
    ensures Complete(table, Below(table, root), pgids)
  {
    BelowIsLeast(table, root, Members(seen));
  }

  method DescendantProcessGroups(table: seq<Proc>, rootPid: int) returns (pgids: seq<int>)
    ensures GroupsOfTree(table, rootPid, pgids)
  {
    var byParent := GroupByParent(table);
    var self := Find(table, rootPid);
    pgids := if self.Some? then [self.value.pgid] else [];
    var queue, seen := [rootPid], {rootPid};
    ghost var first := pgids;
    Start(table, rootPid);
    while queue != []
      invariant first <= pgids && Searched(table, rootPid, seen, pgids)
      invariant forall x :: x in queue ==> x in seen
      invariant forall p :: p in table && p.ppid in seen && p.ppid !in queue ==> p.pid in seen
      decreases |Pids(table) + {rootPid} - seen|, |queue|
    {
      var pid := queue[0];
      var children := At(byParent, pid);
      ChildrenMeaning(table, pid);
      ghost var queue0, seen0 := queue, seen;
      seen, queue, pgids := Visit(table, rootPid, pid, children, seen, queue[1..], pgids);
      QueueStep(queue0, queue, seen0, seen);
      Smaller(Pids(table) + {rootPid}, seen0, seen);
    }
    Finish(table, rootPid, seen, pgids);
  }

  lemma QueueStep(queue0: seq<int>, queue: seq<int>, seen0: set<int>, seen: set<int>)
    requires queue0 != [] && Queued(seen0, queue0[1..], seen, queue)
    ensures forall x :: x in seen && x !in queue ==> x in seen0 && (x == queue0[0] || x !in queue0)
  {
    forall x | x in queue0 && x != queue0[0] ensures x in queue {
      var i :| 0 <= i < |queue0| && queue0[i] == x;
      assert queue[i - 1] == queue0[1..][i - 1];
    }
  }

  lemma Smaller(all: set<int>, seen0: set<int>, seen: set<int>)
    requires seen0 <= seen <= all
    ensures |all - seen| <= |all - seen0| && (seen != seen0 ==> |all - seen| < |all - seen0|)
  {
    assert all - seen0 == (all - seen) + (seen - seen0);
    if seen - seen0 == {} {
      assert seen == seen0;
    }
  }

  /** One step of the search: the children of `pid` that were not seen yet. */
  method Visit(table: seq<Proc>, root: int, pid: int, children: seq<Proc>, seen0: set<int>, queue0: seq<int>, pgids0: seq<int>)
    returns (seen: set<int>, queue: seq<int>, pgids: seq<int>)
    requires Searched(table, root, seen0, pgids0) && pid in seen0
    requires (forall p :: p in children ==> p in table && p.ppid == pid)
    requires forall x :: x in queue0 ==> x in seen0
    ensures Searched(table, root, seen, pgids) && pgids0 <= pgids && Queued(seen0, queue0, seen, queue)
    ensures forall p :: p in children ==> p.pid in seen
  {
    seen, queue, pgids := seen0, queue0, pgids0;
    for i := 0 to |children|
      invariant Searched(table, root, seen, pgids) && pgids0 <= pgids && Queued(seen0, queue0, seen, queue)
      invariant forall j :: 0 <= j < i ==> children[j].pid in seen
    {
      var child := children[i];
      assert child in children;
      if child.pid !in seen {
        AddChild(table, root, seen, pgids, child);
        QueueChild(seen0, queue0, seen, queue, child.pid);
        seen := seen + {child.pid};
        pgids := Add(pgids, child.pgid);
        queue := queue + [child.pid];
      }
    }
  }

  /** Whatever is newly seen is queued, and nothing else. */
  ghost predicate Queued(seen0: set<int>, queue0: seq<int>, seen: set<int>, queue: seq<int>) {
    && seen0 <= seen && queue0 <= queue && (seen == seen0 ==> queue == queue0)
    && (forall x :: x in queue ==> x in seen)
    && (forall x :: x in seen && x !in seen0 ==> x in queue)
  }

  lemma QueueChild(seen0: set<int>, queue0: seq<int>, seen: set<int>, queue: seq<int>, pid: int)
    requires Queued(seen0, queue0, seen, queue) && pid !in seen
    ensures Queued(seen0, queue0, seen + {pid}, queue + [pid])
  {
    assert pid in seen + {pid};
  }

  /** With one row per pid: exactly the groups of the processes below the root. */
  lemma ExactGroups(table: seq<Proc>, root: int, pgids: seq<int>)
    requires DistinctPids(table) && GroupsOfTree(table, root, pgids)
    ensures forall g :: g in pgids <==> HasGroup(table, Below(table, root), g)
  {
    forall g | HasGroup(table, Below(table, root), g) ensures g in pgids {
      var p :| p in table && p.pgid == g && p.pid in Below(table, root);
      OnlyRow(table, pgids, p);
    }
  }

  lemma OnlyRow(table: seq<Proc>, pgids: seq<int>, p: Proc)
    requires DistinctPids(table) && p in table && Recorded(table, pgids, p.pid)
    ensures p.pgid in pgids
  {
    var q :| q in table && q.pid == p.pid && q.pgid in pgids;
    var i :| 0 <= i < |table| && table[i] == p;
    var j :| 0 <= j < |table| && table[j] == q;
  }

  // ----- Signalling -----

  function Filter(s: seq<int>, x: int, keep: bool): seq<int> {
    if s == [] then []
    else Filter(s[..|s| - 1], x, keep) + if (s[|s| - 1] == x) == keep then [s[|s| - 1]] else []
  }

  lemma DistinctSnoc(init: seq<int>, last: int)
    ensures Distinct(init + [last]) <==> Distinct(init) && last !in init
  {
    var s := init + [last];
    if Distinct(s) {
      forall i | 0 <= i < |init| ensures init[i] != last { assert s[i] != s[|init|]; }
      forall i, j | 0 <= i < j < |init| ensures init[i] != init[j] { assert s[i] != s[j]; }
    }
  }

  lemma {:induction false} FilterMeaning(s: seq<int>, x: int, keep: bool)
    ensures forall y :: y in Filter(s, x, keep) <==> y in s && (y == x) == keep
    ensures Distinct(s) ==> Distinct(Filter(s, x, keep))
    ensures |Filter(s, x, true)| + |Filter(s, x, false)| == |s|
  {
    if s != [] {
      var init, last := s[..|s| - 1], s[|s| - 1];
      FilterMeaning(init, x, keep);
      assert |Filter(s, x, true)| + |Filter(s, x, false)| == |Filter(init, x, true)| + |Filter(init, x, false)| + 1;
      assert s == init + [last];
      DistinctSnoc(init, last);
    }
  }

  /** The groups in the order in which they are signalled: the one numbered like the root comes last. */
  function Ordered(groups: seq<int>, root: int): seq<int> {
    Filter(groups, root, false) + Filter(groups, root, true)
  }

  lemma OrderedMeaning(groups: seq<int>, root: int)
    requires Distinct(groups)
    ensures Distinct(Ordered(groups, root)) && forall g :: g in Ordered(groups, root) <==> g in groups
    ensures |Ordered(groups, root)| == |groups|
    ensures root in groups ==> var o := Ordered(groups, root); o != [] && o[|o| - 1] == root
  {
    FilterMeaning(groups, root, false);
    FilterMeaning(groups, root, true);
    var a, b := Filter(groups, root, false), Filter(groups, root, true);
    if root in groups {
      assert b[|b| - 1] in b;
    }
    forall g ensures g in a + b <==> g in groups {
      assert g in a + b <==> g in a || g in b;
    }
    forall i, j | 0 <= i < j < |a + b| ensures (a + b)[i] != (a + b)[j] {
      if i < |a| <= j { assert a[i] in a && b[j - |a|] in b; }
    }
  }

  lemma OrderedOne(root: int)
    ensures Ordered([root], root) == [root]
  {
    assert [root][..0] == [];
    assert Filter([], root, false) == [] && Filter([], root, true) == [];
  }

  method KillProcessTree(table: seq<Proc>, rootPid: int) returns (signalled: seq<int>, ghost groups: seq<int>)
    ensures Distinct(signalled) && signalled != [] && GroupsOfTree(table, rootPid, groups)
    ensures rootPid in signalled ==> signalled[|signalled| - 1] == rootPid
    ensures if groups == [] then signalled == [rootPid]
            else signalled == Ordered(groups, rootPid) && forall g :: g in signalled <==> g in groups
  {
    var found := DescendantProcessGroups(table, rootPid);
    groups := found;
    if found == [] {
      found := [rootPid];
    }
    OrderedMeaning(found, rootPid);
    signalled := Ordered(found, rootPid);
    OrderedOne(rootPid);
  }

  method KillDescendantGroupsOnly(table: seq<Proc>, rootPid: int) returns (signalled: seq<int>, ghost groups: seq<int>)
    ensures GroupsOfTree(table, rootPid, groups) && Distinct(signalled)
    ensures var self := Find(table, rootPid);
            var own := if self.Some? then self.value.pgid else rootPid;
            forall g :: g in signalled <==> g in groups && g != own
  {
    var self := Find(table, rootPid);
    var selfPgid := if self.Some? then self.value.pgid else rootPid;
    var found := DescendantProcessGroups(table, rootPid);
    groups := found;
    FilterMeaning(found, selfPgid, false);
    signalled := Filter(found, selfPgid, false);
  }

  lemma {:induction false} FilterAll(s: seq<int>, x: int)
    requires x !in s
    ensures Filter(s, x, false) == s && Filter(s, x, true) == []
  {
    if s != [] {
      FilterAll(s[..|s| - 1], x);
      assert s == s[..|s| - 1] + [s[|s| - 1]];
    }
  }

  /**
    The root's own group is signalled last exactly when it is numbered like the
    root, or is the only one; with distinct pids, when every process below the root
    is in it.
  */
  lemma OwnGroupLastIff(table: seq<Proc>, root: int, groups: seq<int>)
    requires GroupsOfTree(table, root, groups) && Find(table, root).Some?
    ensures var o, own := Ordered(groups, root), Find(table, root).value.pgid;
            o != [] && (o[|o| - 1] == own <==> own == root || |groups| == 1)
    ensures var o, own := Ordered(groups, root), Find(table, root).value.pgid;
            DistinctPids(table) ==> (o[|o| - 1] == own <==> own == root || OneGroup(table, root, own))
  {
    LastOrdered(groups, root);
    if DistinctPids(table) { SingleGroupIff(table, root, groups); }
  }

  /** Every process below the root is in this group. */
  ghost predicate OneGroup(table: seq<Proc>, root: int, group: int) {
    forall p :: p in table && p.pid in Below(table, root) ==> p.pgid == group
  }

  lemma SingleGroupIff(table: seq<Proc>, root: int, groups: seq<int>)
    requires GroupsOfTree(table, root, groups) && Find(table, root).Some? && DistinctPids(table)
    ensures |groups| == 1 <==> OneGroup(table, root, Find(table, root).value.pgid)
  {
    ExactGroups(table, root, groups);
    SingleIff(table, Below(table, root), groups);
  }

  lemma SingleIff(table: seq<Proc>, below: iset<int>, groups: seq<int>)
    requires Distinct(groups) && groups != [] && forall g :: g in groups <==> HasGroup(table, below, g)
    ensures |groups| == 1 <==> forall p :: p in table && p.pid in below ==> p.pgid == groups[0]
  {
    if |groups| == 1 {
      forall p | p in table && p.pid in below ensures p.pgid == groups[0] {
        assert HasGroup(table, below, p.pgid);
      }
    } else {
      TwoDiffer(groups);
      assert HasGroup(table, below, groups[1]);
    }
  }

  lemma TwoDiffer(groups: seq<int>)
    requires Distinct(groups) && |groups| > 1
    ensures groups[1] in groups && groups[0] != groups[1]
  {
  }

  lemma LastOrdered(groups: seq<int>, root: int)
    requires Distinct(groups) && groups != []
    ensures var o := Ordered(groups, root);
            o != [] && (o[|o| - 1] == groups[0] <==> groups[0] == root || |groups| == 1)
  {
    OrderedMeaning(groups, root);
    if root in groups {
      if |groups| == 1 { assert groups[0] == root; }
    } else {
      FilterAll(groups, root);
      assert Ordered(groups, root) == groups;
      assert |groups| > 1 ==> groups[0] != groups[|groups| - 1];
    }
  }

  /** A root that does not lead its group signals its own group before the others. */
  lemma OwnGroupSignalledFirst()
    ensures var table := [Proc(10, 1, 5), Proc(11, 10, 11)];
            GroupsOfTree(table, 10, [5, 11]) && Ordered([5, 11], 10) == [5, 11]
  {
    var table := [Proc(10, 1, 5), Proc(11, 10, 11)];
    assert table[0] in table && table[1] in table;
    TwoProcesses(table, Proc(10, 1, 5), Proc(11, 10, 11));
    FilterAll([5, 11], 10);
  }

  lemma TwoProcesses(table: seq<Proc>, p: Proc, q: Proc)
    requires table == [p, q] && q.ppid == p.pid && p.ppid != q.pid && p.pgid != q.pgid && p.pid != q.pid
    ensures GroupsOfTree(table, p.pid, [p.pgid, q.pgid])
  {
    Start(table, p.pid);
    assert q in table;
    AddChild(table, p.pid, {p.pid}, [p.pgid], q);
    assert Add([p.pgid], q.pgid) == [p.pgid, q.pgid];
    Finish(table, p.pid, {p.pid} + {q.pid}, [p.pgid, q.pgid]);
  }
}
