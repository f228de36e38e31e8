/** The /proc process source: reading one process, building the
    parent-to-children map from one scan of /proc, collecting the
    descendants of a process, and reading a whole process group. */
module ProcessSource {
  import opened Wrappers
  import opened PhpText
  import Seqs
  import opened Process

  // ---------------------------------------------------------------
  // read
  // ---------------------------------------------------------------

  /** read(pid): a failed read of /proc/<pid>/stat is passed through
      unchanged; otherwise the parser decides.  A snapshot read this way
      carries the pid asked for, and its parent is the one the tree scan
      takes from the same stat file.  `readStat` stands for the file
      reader, `pageSize` and `openFds` for what the parser learns from
      the system. */
  function ReadProcess(pid: int, readStat: int -> Result<string>, pageSize: int, openFds: int -> int): (r: Result<ProcessSnapshot>)
    ensures readStat(pid).Failure? ==> r == Failure(readStat(pid).error)
    ensures r.Success? ==> readStat(pid).Success? && r.value.pid == pid
    ensures r.Success? ==> ParentOfStat(readStat(pid).value) == Some(r.value.parentPid)
  {
    match readStat(pid)
    case Failure(e) => Failure(e)
    case Success(content) =>
      var p := ParsePidStat(content, pid, pageSize, openFds(pid));
      if p.Success? then
        ParentAgreesWithParse(content, pid, pageSize, openFds(pid));
        p
      else p
  }

  // ---------------------------------------------------------------
  // buildProcessTree
  // ---------------------------------------------------------------

  /** One directory of the /proc scan: the pid its name gives and the
      outcome of reading its stat file at scan time. */
  datatype ProcEntry = ProcEntry(pid: int, stat: Result<string>)

  /** The parent pid the scan takes from a stat line: the second field
      after the last ')', without trimming; None when there is no ')'
      or fewer than two fields. */
  function ParentOfStat(content: string): (r: Option<int>)
    ensures r.Some? <==> FieldsAfterName(content).Some? && |FieldsAfterName(content).value| >= 2
  {
    match FieldsAfterName(content)
    case None => None
    case Some(fields) => if |fields| < 2 then None else Some(IntCast(fields[1]))
  }

  /** The tree scan and the process read agree on the parent: when the
      parser accepts a stat file, the scan takes from the same file the
      parent pid the parser reports.  The parser trims the file first and
      the scan does not, but trimming only touches the last field. */
  lemma ParentAgreesWithParse(content: string, pid: int, pageSize: int, openFds: int)
    requires ParsePidStat(content, pid, pageSize, openFds).Success?
    ensures ParentOfStat(content) == Some(ParsePidStat(content, pid, pageSize, openFds).value.parentPid)
  {
    PidStatFieldMapping(content, pid, pageSize, openFds);
    FieldsAfterNameUnderTrim(content);
  }

  function ParentOfEntry(e: ProcEntry): Option<int> {
    if e.stat.Failure? then None else ParentOfStat(e.stat.value)
  }

  type Tree = map<int, seq<int>>

  /** The children listed for `p`, [] when it has none. */
  function ChildrenOf(tree: Tree, p: int): seq<int> {
    if p in tree then tree[p] else []
  }

  /** The map after one more entry: its pid joins the end of its
      parent's list when its stat names a parent. */
  function AddEntry(t: Tree, e: ProcEntry): Tree {
    match ParentOfEntry(e)
    case None => t
    case Some(pp) => t[pp := ChildrenOf(t, pp) + [e.pid]]
  }

  lemma AddEntryCases(t: Tree, e: ProcEntry, parent: Option<int>)
    requires parent == ParentOfEntry(e)
    ensures parent.None? ==> AddEntry(t, e) == t
    ensures parent.Some? ==> AddEntry(t, e) == t[parent.value := ChildrenOf(t, parent.value) + [e.pid]]
  {
  }

  /** The parent-to-children map after scanning `scan` in order. */
  function TreeOf(scan: seq<ProcEntry>): Tree
    decreases |scan|
  {
    if scan == [] then map[] else AddEntry(TreeOf(scan[..|scan| - 1]), scan[|scan| - 1])
  }

  /** The pid an entry contributes to the children of `p`, if any. */
  function ChildOf(p: int): ProcEntry -> Option<int> {
    (e: ProcEntry) => if ParentOfEntry(e) == Some(p) then Some(e.pid) else None
  }

  /** The children of `p` are exactly the scanned pids whose stat names
      `p` as parent, in scan order; unreadable or malformed entries are
      skipped. */
  lemma {:induction false} ChildrenInScanOrder(scan: seq<ProcEntry>, p: int)
    ensures ChildrenOf(TreeOf(scan), p) == Seqs.FilterMap(scan, ChildOf(p))
    ensures p in TreeOf(scan) <==> ChildrenOf(TreeOf(scan), p) != []
    decreases |scan|
  {
    if scan != [] {
      ChildrenInScanOrder(scan[..|scan| - 1], p);
    }
  }

  /** buildProcessTree: one pass over the scan, appending each pid to
      its parent's list. */
  method BuildProcessTree(scan: seq<ProcEntry>) returns (tree: Tree)
    ensures tree == TreeOf(scan)
  {
    tree := map[];
    var i := 0;
    while i < |scan|
      invariant 0 <= i <= |scan|
      invariant tree == TreeOf(scan[..i])
    {
      var e := scan[i];
      assert TreeOf(scan[..i + 1]) == AddEntry(tree, e) by {
        assert scan[..i + 1][..i] == scan[..i];
      }
      ghost var before := tree;
      var parent := ParentOfEntry(e);
      if parent.Some? {
        var ppid := parent.value;
        var siblings := if ppid in tree then tree[ppid] else [];
        tree := tree[ppid := siblings + [e.pid]];
      }
      assert tree == AddEntry(before, e) by {
        AddEntryCases(before, e, parent);
      }
      i := i + 1;
    }
    assert scan[..i] == scan;
  }

  // ---------------------------------------------------------------
  // collectDescendants
  // ---------------------------------------------------------------

  /** Acyclicity, witnessed by a rank that every child sits strictly
      below its parent in.  The source keeps no visited set, so on a
      map with a cycle it would not terminate. */
  predicate Ranked(tree: Tree, rank: map<int, nat>) {
    forall p :: p in tree ==> p in rank && forall i :: 0 <= i < |tree[p]| ==> tree[p][i] in rank && rank[tree[p][i]] < rank[p]
  }

  function Rank(rank: map<int, nat>, p: int): nat {
    if p in rank then rank[p] else 0
  }

  /** collectDescendants as a function: each child, immediately
      followed by its own descendants, in list order. */
  function Descendants(tree: Tree, rank: map<int, nat>, p: int): seq<int>
    requires Ranked(tree, rank)
    decreases Rank(rank, p), 1, 0
  {
    if p in tree then Forest(tree, rank, tree[p], Rank(rank, p)) else []
  }

  /** The pre-order walk of a list of siblings. */
  function Forest(tree: Tree, rank: map<int, nat>, cs: seq<int>, bound: nat): seq<int>
    requires Ranked(tree, rank)
    requires forall i :: 0 <= i < |cs| ==> cs[i] in rank && rank[cs[i]] < bound
    decreases bound, 0, |cs|
  {
    if cs == [] then []
    else
      var c := cs[|cs| - 1];
      Forest(tree, rank, cs[..|cs| - 1], bound) + [c] + Descendants(tree, rank, c)
  }

  /** collectDescendants: walks the children in order, appending each
      child and then, recursively, its descendants. */
  method CollectDescendants(parentPid: int, tree: Tree, ghost rank: map<int, nat>) returns (ds: seq<int>)
    requires Ranked(tree, rank)
    ensures ds == Descendants(tree, rank, parentPid)
    decreases Rank(rank, parentPid)
  {
    ds := [];
    var children := ChildrenOf(tree, parentPid);
    var i := 0;
    while i < |children|
      invariant 0 <= i <= |children|
      invariant ds == Forest(tree, rank, children[..i], Rank(rank, parentPid))
    {
      var c := children[i];
      assert children[..i + 1][..i] == children[..i];
      var grandchildren := CollectDescendants(c, tree, rank);
      ds := ds + [c] + grandchildren;
      i := i + 1;
    }
    assert children[..i] == children;
  }

  /** `x` is the sibling `cs[i]` or lies below it. */
  predicate UnderChild(tree: Tree, rank: map<int, nat>, cs: seq<int>, i: int, x: int)
    requires Ranked(tree, rank)
  {
    0 <= i < |cs| && (x == cs[i] || x in Descendants(tree, rank, cs[i]))
  }

  /** What the walk of a sibling list contains. */
  lemma {:induction false} ForestMembers(tree: Tree, rank: map<int, nat>, cs: seq<int>, bound: nat, x: int)
    requires Ranked(tree, rank)
    requires forall i :: 0 <= i < |cs| ==> cs[i] in rank && rank[cs[i]] < bound
    ensures x in Forest(tree, rank, cs, bound) <==> exists i :: UnderChild(tree, rank, cs, i, x)
    decreases |cs|
  {
    if cs != [] {
      var init := cs[..|cs| - 1];
      ForestMembers(tree, rank, init, bound, x);
      if exists i :: UnderChild(tree, rank, init, i, x) {
        var i :| UnderChild(tree, rank, init, i, x);
        assert UnderChild(tree, rank, cs, i, x);
      }
      if exists i :: UnderChild(tree, rank, cs, i, x) {
        var i :| UnderChild(tree, rank, cs, i, x);
        if i < |cs| - 1 {
          assert UnderChild(tree, rank, init, i, x);
        }
      }
      var c := cs[|cs| - 1];
      if x == c || x in Descendants(tree, rank, c) {
        assert UnderChild(tree, rank, cs, |cs| - 1, x);
      }
    }
  }

  /** A pid is a descendant of `p` exactly when it is one of p's
      children or a descendant of one of them. */
  lemma DescendantsMembers(tree: Tree, rank: map<int, nat>, p: int, x: int)
    requires Ranked(tree, rank)
    ensures x in Descendants(tree, rank, p) <==> exists i :: UnderChild(tree, rank, ChildrenOf(tree, p), i, x)
  {
    if p in tree {
      assert ChildrenOf(tree, p) == tree[p];
      ForestMembers(tree, rank, tree[p], Rank(rank, p), x);
    }
  }

  /** Every descendant ranks strictly below the root, so the root is
      never among its own descendants. */
  lemma {:induction false} DescendantsBelow(tree: Tree, rank: map<int, nat>, p: int, x: int)
    requires Ranked(tree, rank)
    requires x in Descendants(tree, rank, p)
    ensures x in rank && rank[x] < Rank(rank, p)
    ensures x != p
    decreases Rank(rank, p)
  {
    DescendantsMembers(tree, rank, p, x);
    var cs := ChildrenOf(tree, p);
    var i :| UnderChild(tree, rank, cs, i, x);
    if x != cs[i] {
      DescendantsBelow(tree, rank, cs[i], x);
    }
  }

  /** Descendants are closed under the child relation: a child of `p`
      and everything below it are descendants of `p`. */
  lemma ChildDescendantsIncluded(tree: Tree, rank: map<int, nat>, p: int, i: int, x: int)
    requires Ranked(tree, rank)
    requires 0 <= i < |ChildrenOf(tree, p)|
    requires x == ChildrenOf(tree, p)[i] || x in Descendants(tree, rank, ChildrenOf(tree, p)[i])
    ensures x in Descendants(tree, rank, p)
  {
    assert UnderChild(tree, rank, ChildrenOf(tree, p), i, x);
    DescendantsMembers(tree, rank, p, x);
  }

  /** The walk from the documentation: with 2 and 3 under 1 and 4 under
      2, the descendants of 1 are 2, 4, 3 in that order. */
  lemma PreOrderExample()
    ensures Descendants(map[1 := [2, 3], 2 := [4]], map[1 := 2, 2 := 1, 3 := 0, 4 := 0], 1) == [2, 4, 3]
  {
    var tree: Tree := map[1 := [2, 3], 2 := [4]];
    var rank: map<int, nat> := map[1 := 2, 2 := 1, 3 := 0, 4 := 0];
    assert Descendants(tree, rank, 4) == [];
    assert Descendants(tree, rank, 3) == [];
    assert Forest(tree, rank, [4], 1) == [4];
    assert Descendants(tree, rank, 2) == [4];
    assert [2, 3][..1] == [2];
    assert Forest(tree, rank, [2], 2) == [2, 4];
    assert Forest(tree, rank, [2, 3], 2) == [2, 4, 3];
  }

  /** Every pid has at most one place in the map: one parent, one slot
      in its list.  A scan of distinct pids builds such a map. */
  predicate UniqueChildren(tree: Tree) {
    forall p, q, i, j :: p in tree && q in tree && 0 <= i < |tree[p]| && 0 <= j < |tree[q]| && tree[p][i] == tree[q][j] ==> p == q && i == j
  }

  predicate NoDuplicates(s: seq<int>) {
    forall i, j :: 0 <= i < j < |s| ==> s[i] != s[j]
  }

  lemma NoDuplicatesConcat(a: seq<int>, b: seq<int>)
    requires NoDuplicates(a) && NoDuplicates(b)
    requires forall x :: x in a ==> x !in b
    ensures NoDuplicates(a + b)
  {
    forall i, j | 0 <= i < j < |a + b|
      ensures (a + b)[i] != (a + b)[j]
    {
      if i < |a| && j >= |a| {
        assert (a + b)[i] in a && (a + b)[j] == b[j - |a|];
      }
    }
  }

  /** `x` is `a` or lies below it. */
  predicate Below(tree: Tree, rank: map<int, nat>, a: int, x: int)
    requires Ranked(tree, rank)
  {
    x == a || x in Descendants(tree, rank, a)
  }

  /** A descendant of `a` is listed under some parent that is `a` or
      lies below `a`. */
  lemma {:induction false} ParentWithin(tree: Tree, rank: map<int, nat>, a: int, x: int) returns (y: int, k: int)
    requires Ranked(tree, rank)
    requires x in Descendants(tree, rank, a)
    ensures y in tree && 0 <= k < |tree[y]| && tree[y][k] == x && Below(tree, rank, a, y)
    decreases Rank(rank, a)
  {
    DescendantsMembers(tree, rank, a, x);
    var cs := ChildrenOf(tree, a);
    var i :| UnderChild(tree, rank, cs, i, x);
    if x == cs[i] {
      y, k := a, i;
    } else {
      DescendantsBelow(tree, rank, a, cs[i]) by {
        ChildDescendantsIncluded(tree, rank, a, i, cs[i]);
      }
      y, k := ParentWithin(tree, rank, cs[i], x);
      if y != cs[i] {
        ChildDescendantsIncluded(tree, rank, a, i, y);
      } else {
        ChildDescendantsIncluded(tree, rank, a, i, cs[i]);
      }
    }
  }

  /** Below a map of unique children, the pids above any one pid form a
      chain: two of them are always related. */
  lemma {:induction false} AncestorsAreChained(tree: Tree, rank: map<int, nat>, a: int, b: int, x: int)
    requires Ranked(tree, rank) && UniqueChildren(tree)
    requires Below(tree, rank, a, x) && Below(tree, rank, b, x)
    ensures Below(tree, rank, a, b) || Below(tree, rank, b, a)
    decreases Rank(rank, a) - Rank(rank, x)
  {
    if x != a && x != b {
      DescendantsBelow(tree, rank, a, x);
      var y, k := ParentWithin(tree, rank, a, x);
      var y', k' := ParentWithin(tree, rank, b, x);
      assert y == y';
      if y != a {
        DescendantsBelow(tree, rank, a, y);
      }
      AncestorsAreChained(tree, rank, a, b, y);
    }
  }

  /** Distinct children of one parent have disjoint subtrees. */
  lemma SiblingsDisjoint(tree: Tree, rank: map<int, nat>, p: int, i: int, j: int, x: int)
    requires Ranked(tree, rank) && UniqueChildren(tree)
    requires p in tree && 0 <= i < |tree[p]| && 0 <= j < |tree[p]| && i != j
    requires Below(tree, rank, tree[p][i], x)
    ensures !Below(tree, rank, tree[p][j], x)
  {
    var a, b := tree[p][i], tree[p][j];
    if Below(tree, rank, b, x) {
      AncestorsAreChained(tree, rank, a, b, x);
      if Below(tree, rank, a, b) {
        NotBelowSibling(tree, rank, p, i, j);
      } else {
        NotBelowSibling(tree, rank, p, j, i);
      }
      assert false;
    }
  }

  /** A child never lies below one of its siblings. */
  lemma NotBelowSibling(tree: Tree, rank: map<int, nat>, p: int, i: int, j: int)
    requires Ranked(tree, rank) && UniqueChildren(tree)
    requires p in tree && 0 <= i < |tree[p]| && 0 <= j < |tree[p]| && i != j
    ensures !Below(tree, rank, tree[p][i], tree[p][j])
  {
    var a, b := tree[p][i], tree[p][j];
    if b in Descendants(tree, rank, a) {
      var y, k := ParentWithin(tree, rank, a, b);
      assert y == p;
      if p != a {
        DescendantsBelow(tree, rank, a, p);
      }
      assert false;
    }
  }

  /** The walk over the first `n` children of `p` lists no pid twice. */
  lemma {:induction false} ForestNoDuplicates(tree: Tree, rank: map<int, nat>, p: int, n: int)
    requires Ranked(tree, rank) && UniqueChildren(tree)
    requires p in tree && 0 <= n <= |tree[p]|
    ensures NoDuplicates(Forest(tree, rank, tree[p][..n], Rank(rank, p)))
    decreases Rank(rank, p), 0, n
  {
    if n > 0 {
      var bound := Rank(rank, p);
      var cs := tree[p][..n];
      var init := tree[p][..n - 1];
      assert cs[..|cs| - 1] == init;
      var c := tree[p][n - 1];
      var left := Forest(tree, rank, init, bound);
      var right := [c] + Descendants(tree, rank, c);
      ForestNoDuplicates(tree, rank, p, n - 1);
      DescendantsNoDuplicates(tree, rank, c);
      forall x | x in Descendants(tree, rank, c)
        ensures x != c
      {
        DescendantsBelow(tree, rank, c, x);
      }
      forall x | x in left
        ensures x !in right
      {
        ForestMembers(tree, rank, init, bound, x);
        var k :| UnderChild(tree, rank, init, k, x);
        SiblingsDisjoint(tree, rank, p, k, n - 1, x);
      }
      NoDuplicatesConcat([c], Descendants(tree, rank, c));
      NoDuplicatesConcat(left, right);
      assert Forest(tree, rank, cs, bound) == left + right;
    }
  }

  /** collectDescendants lists every descendant exactly once when each
      pid sits under one parent. */
  lemma {:induction false} DescendantsNoDuplicates(tree: Tree, rank: map<int, nat>, p: int)
    requires Ranked(tree, rank) && UniqueChildren(tree)
    ensures NoDuplicates(Descendants(tree, rank, p))
    decreases Rank(rank, p), 1
  {
    if p in tree {
      assert tree[p][..|tree[p]|] == tree[p];
      ForestNoDuplicates(tree, rank, p, |tree[p]|);
    }
  }

  predicate DistinctPids(scan: seq<ProcEntry>) {
    forall i, j :: 0 <= i < j < |scan| ==> scan[i].pid != scan[j].pid
  }

  /** Every pid the map lists comes from the scan. */
  lemma {:induction false} TreeChildrenScanned(scan: seq<ProcEntry>, p: int, i: int)
    requires p in TreeOf(scan) && 0 <= i < |TreeOf(scan)[p]|
    ensures exists k :: 0 <= k < |scan| && scan[k].pid == TreeOf(scan)[p][i]
    decreases |scan|
  {
    var init := scan[..|scan| - 1];
    var e := scan[|scan| - 1];
    var t := TreeOf(init);
    var parent := ParentOfEntry(e);
    AddEntryCases(t, e, parent);
    var x := TreeOf(scan)[p][i];
    if x == e.pid {
      assert scan[|scan| - 1].pid == x;
    } else {
      assert p in t && i < |t[p]| && x == t[p][i] by {
        if parent.Some? && parent.value == p {
          assert TreeOf(scan)[p] == ChildrenOf(t, p) + [e.pid];
        }
      }
      TreeChildrenScanned(init, p, i);
      var k :| 0 <= k < |init| && init[k].pid == x;
      assert scan[k].pid == init[k].pid;
    }
  }

  /** /proc lists each pid once, so the map it builds puts each pid under
      one parent, once. */
  lemma {:induction false} ScanGivesUniqueChildren(scan: seq<ProcEntry>)
    requires DistinctPids(scan)
    ensures UniqueChildren(TreeOf(scan))
    decreases |scan|
  {
    if scan != [] {
      var init := scan[..|scan| - 1];
      var e := scan[|scan| - 1];
      var t := TreeOf(init);
      assert DistinctPids(init);
      ScanGivesUniqueChildren(init);
      var parent := ParentOfEntry(e);
      AddEntryCases(t, e, parent);
      if parent.Some? {
        forall p, i | p in t && 0 <= i < |t[p]|
          ensures t[p][i] != e.pid
        {
          TreeChildrenScanned(init, p, i);
        }
        AppendKeepsUnique(t, parent.value, e.pid);
      }
    }
  }

  /** Appending a pid listed nowhere keeps every pid under one parent, once. */
  lemma AppendKeepsUnique(t: Tree, pp: int, x: int)
    requires UniqueChildren(t)
    requires forall p, i :: p in t && 0 <= i < |t[p]| ==> t[p][i] != x
    ensures UniqueChildren(t[pp := ChildrenOf(t, pp) + [x]])
  {
    var t2 := t[pp := ChildrenOf(t, pp) + [x]];
    forall p, q, i, j | p in t2 && q in t2 && 0 <= i < |t2[p]| && 0 <= j < |t2[q]| && t2[p][i] == t2[q][j]
      ensures p == q && i == j
    {
      assert i < |t2[p]| - 1 || p != pp ==> p in t && t2[p][i] == t[p][i];
      assert j < |t2[q]| - 1 || q != pp ==> q in t && t2[q][j] == t[q][j];
    }
  }

  /** With the pids of one scan, readProcessGroup reads each descendant
      once. */
  lemma GroupReadsEachPidOnce(scan: seq<ProcEntry>, rank: map<int, nat>, rootPid: int)
    requires Ranked(TreeOf(scan), rank) && DistinctPids(scan)
    ensures NoDuplicates(Descendants(TreeOf(scan), rank, rootPid))
  {
    ScanGivesUniqueChildren(scan);
    DescendantsNoDuplicates(TreeOf(scan), rank, rootPid);
  }

  // ---------------------------------------------------------------
  // readProcessGroup
  // ---------------------------------------------------------------

  datatype ProcessGroupSnapshot = ProcessGroupSnapshot(rootPid: int, root: ProcessSnapshot, children: seq<ProcessSnapshot>)

  /** `read` with the system's facts fixed: one process per pid. */
  function Reader(readStat: int -> Result<string>, pageSize: int, openFds: int -> int): int -> Result<ProcessSnapshot> {
    (pid: int) => ReadProcess(pid, readStat, pageSize, openFds)
  }

  /** The snapshot a child read contributes: its process on success,
      nothing on failure. */
  function Successes(read: int -> Result<ProcessSnapshot>): int -> Option<ProcessSnapshot> {
    (pid: int) => if read(pid).Success? then Some(read(pid).value) else None
  }

  /** The kept reads are exactly the successful reads of listed pids. */
  lemma SuccessesMembers(pids: seq<int>, read: int -> Result<ProcessSnapshot>, s: ProcessSnapshot)
    ensures s in Seqs.FilterMap(pids, Successes(read)) <==> exists k :: 0 <= k < |pids| && read(pids[k]) == Success(s)
  {
    Seqs.FilterMapMembers(pids, Successes(read), s);
    assert forall k :: 0 <= k < |pids| ==> (Successes(read)(pids[k]) == Some(s) <==> read(pids[k]) == Success(s));
  }

  /** One more pid read: its process joins the list when the read succeeds. */
  /** The foreach over the descendants: a child whose read fails (it
      may have exited) is skipped. */
  method ReadChildren(childPids: seq<int>, read: int -> Result<ProcessSnapshot>) returns (children: seq<ProcessSnapshot>)
    ensures children == Seqs.FilterMap(childPids, Successes(read))
  {
    children := [];
    var i := 0;
    while i < |childPids|
      invariant 0 <= i <= |childPids|
      invariant children == Seqs.FilterMap(childPids[..i], Successes(read))
    {
      var childResult := read(childPids[i]);
      if childResult.Success? {
        children := children + [childResult.value];
      }
      assert children == Seqs.FilterMap(childPids[..i + 1], Successes(read)) by {
        KeepIfRead(childPids, i, read, childResult);
      }
      i := i + 1;
    }
    assert childPids[..i] == childPids;
  }

  lemma KeepIfRead(pids: seq<int>, i: int, read: int -> Result<ProcessSnapshot>, r: Result<ProcessSnapshot>)
    requires 0 <= i < |pids| && r == read(pids[i])
    ensures Seqs.FilterMap(pids[..i + 1], Successes(read))
      == Seqs.FilterMap(pids[..i], Successes(read)) + (if r.Success? then [r.value] else [])
  {
    assert pids[..i + 1][..i] == pids[..i];
  }

  /** readProcessGroup as a function of the scan and the later reads. */
  function ProcessGroup(rootPid: int, readStat: int -> Result<string>, pageSize: int, openFds: int -> int,
                        scan: seq<ProcEntry>, rank: map<int, nat>): Result<ProcessGroupSnapshot>
    requires Ranked(TreeOf(scan), rank)
  {
    match ReadProcess(rootPid, readStat, pageSize, openFds)
    case Failure(e) => Failure(e)
    case Success(root) =>
      var pids := Descendants(TreeOf(scan), rank, rootPid);
      Success(ProcessGroupSnapshot(rootPid, root, Seqs.FilterMap(pids, Successes(Reader(readStat, pageSize, openFds)))))
  }

  /** readProcessGroup: a failed root read is the answer; otherwise the
      tree is built, the descendants collected, and each descendant read
      in turn, keeping the reads that succeed. */
  method ReadProcessGroup(rootPid: int, readStat: int -> Result<string>, pageSize: int, openFds: int -> int,
                          scan: seq<ProcEntry>, ghost rank: map<int, nat>) returns (r: Result<ProcessGroupSnapshot>)
    requires Ranked(TreeOf(scan), rank)
    ensures r == ProcessGroup(rootPid, readStat, pageSize, openFds, scan, rank)
  {
    var read := Reader(readStat, pageSize, openFds);
    var rootResult := read(rootPid);
    if rootResult.Failure? {
      return Failure(rootResult.error);
    }
    var tree := BuildProcessTree(scan);
    var childPids := CollectDescendants(rootPid, tree, rank);
    var children := ReadChildren(childPids, read);
    return Success(ProcessGroupSnapshot(rootPid, rootResult.value, children));
  }

  /** Only the root read can fail the group: its error comes back as is,
      and once it succeeds the group succeeds with every descendant
      whose read succeeds, in descendant order. */
  lemma ProcessGroupOutcome(rootPid: int, readStat: int -> Result<string>, pageSize: int, openFds: int -> int,
                            scan: seq<ProcEntry>, rank: map<int, nat>)
    requires Ranked(TreeOf(scan), rank)
    ensures var g := ProcessGroup(rootPid, readStat, pageSize, openFds, scan, rank);
      var root := ReadProcess(rootPid, readStat, pageSize, openFds);
      && (root.Failure? ==> g == Failure(root.error))
      && (root.Success? ==> g.Success? && g.value.root == root.value && g.value.rootPid == rootPid)
      && (root.Success? ==> forall s :: s in g.value.children <==>
            exists k :: 0 <= k < |Descendants(TreeOf(scan), rank, rootPid)|
              && Reader(readStat, pageSize, openFds)(Descendants(TreeOf(scan), rank, rootPid)[k]) == Success(s))
  {
    var pids := Descendants(TreeOf(scan), rank, rootPid);
    var read := Reader(readStat, pageSize, openFds);
    forall s | true
      ensures s in Seqs.FilterMap(pids, Successes(read)) <==> exists k :: 0 <= k < |pids| && read(pids[k]) == Success(s)
    {
      SuccessesMembers(pids, read, s);
    }
  }
}
