/** The `.kici/` tree, the rules that apply to it, and the pruning walk that
    collects the members the digest covers. */
module SourceTree {
  import opened Strings
  import opened KiciIgnore

  /** What a symbolic link leads to: `stat` and `readFile` go through it. */
  datatype Behind = ToDirectory | ToFile(text: string) | Unresolved

  datatype Node =
    | File(text: Option<string>)  // None: the read fails
    | Link(target: string, behind: Behind)
    | Dir(entries: seq<Entry>)

  datatype Entry = Entry(name: string, node: Node)

  /** A name a directory listing can hold. */
  predicate ValidName(name: string) {
    name != "" && '/' !in name && '\0' !in name
  }

  predicate ValidTree(entries: seq<Entry>) {
    && (forall i | 0 <= i < |entries| :: ValidName(entries[i].name))
    && (forall i, j | 0 <= i < j < |entries| :: entries[i].name != entries[j].name)
    && (forall i | 0 <= i < |entries| :: entries[i].node.Dir? ==> ValidTree(entries[i].node.entries))
  }

  function ChildPath(dir: string, name: string): string {
    if dir == "" then name else dir + "/" + name
  }

  /** `matchesAsDirectory`: a link to a directory counts as one. */
  predicate AsDir(node: Node) {
    node.Dir? || (node.Link? && node.behind.ToDirectory?)
  }

  const MEMBER_PREFIX := ".kici/"

  // ----- Rules.

  datatype IgnoreRules = IgnoreRules(fromFile: bool, patterns: seq<string>, forced: seq<string>,
                                     missingRunRewritten: seq<string>)

  /** Forced inclusion: the root `.kiciignore`, whenever it is not a directory. */
  predicate Pinned(path: string, node: Node) {
    !AsDir(node) && path == IGNORE_FILENAME
  }

  /** The digest's verdict on one entry, its place in the walk aside. */
  predicate Kept(rules: IgnoreRules, path: string, node: Node) {
    || Pinned(path, node)
    || !(Excluded(Rules(rules.forced), path, AsDir(node)) || Excluded(Rules(rules.patterns), path, AsDir(node)))
  }

  // ----- The tree laid out flat.

  /** Every entry that is not a directory, with its path, in walk order. */
  function Leaves(entries: seq<Entry>, dir: string): seq<(string, Node)> {
    if entries == [] then []
    else
      var last := entries[|entries| - 1];
      var path := ChildPath(dir, last.name);
      Leaves(entries[..|entries| - 1], dir)
      + (match last.node case Dir(children) => Leaves(children, path) case _ => [(path, last.node)])
  }

  /** The members a plain filter over every leaf keeps, in walk order. */
  function Filtered(rules: IgnoreRules, leaves: seq<(string, Node)>): seq<string> {
    if leaves == [] then []
    else
      var last := leaves[|leaves| - 1];
      Filtered(rules, leaves[..|leaves| - 1])
      + (if Kept(rules, last.0, last.1) then [MEMBER_PREFIX + last.0] else [])
  }

  lemma {:induction false} FilteredConcat(rules: IgnoreRules, a: seq<(string, Node)>, b: seq<(string, Node)>)
    ensures Filtered(rules, a + b) == Filtered(rules, a) + Filtered(rules, b)
  {
    if b == [] {
      assert a + b == a;
    } else {
      var n := |b| - 1;
      assert a + b == (a + b[..n]) + [b[n]];
      assert (a + b)[..|a + b| - 1] == a + b[..n];
      FilteredConcat(rules, a, b[..n]);
    }
  }

  lemma {:induction false} FilteredNone(rules: IgnoreRules, leaves: seq<(string, Node)>)
    requires forall l | l in leaves :: !Kept(rules, l.0, l.1)
    ensures Filtered(rules, leaves) == []
  {
    if leaves != [] {
      FilteredNone(rules, leaves[..|leaves| - 1]);
    }
  }

  predicate Beneath(path: string, dir: string) {
    StartsWith(path, dir + "/")
  }

  lemma {:induction false} LeavesBeneath(entries: seq<Entry>, dir: string)
    requires dir != ""
    ensures forall l | l in Leaves(entries, dir) :: Beneath(l.0, dir)
    decreases entries
  {
    if entries != [] {
      var last := entries[|entries| - 1];
      LeavesBeneath(entries[..|entries| - 1], dir);
      var path := ChildPath(dir, last.name);
      assert Beneath(path, dir);
      if last.node.Dir? {
        LeavesBeneath(last.node.entries, path);
        forall l | l in Leaves(last.node.entries, path) ensures Beneath(l.0, dir) {
          assert l.0 == (path + "/") + l.0[|path| + 1..];
        }
      }
    }
  }

  lemma ExcludedBeneath(rules: seq<Rule>, dir: string, path: string, isDir: bool)
    requires Excluded(rules, dir, true) && Beneath(path, dir)
    ensures Excluded(rules, path, isDir)
  {
    var rest := path[|dir| + 1..];
    assert path == dir + "/" + rest;
    ExclusionIsClosed(rules, dir, rest, isDir);
  }

  lemma BeneathIsNotRoot(path: string, dir: string)
    requires Beneath(path, dir)
    ensures path != IGNORE_FILENAME
  {
    assert path[|dir|] == '/' && '/' !in IGNORE_FILENAME;
  }

  lemma DroppedLeaf(rules: IgnoreRules, entries: seq<Entry>, dir: string, path: string, node: Node)
    requires !Kept(rules, dir, Dir(entries)) && Beneath(path, dir)
    ensures !Kept(rules, path, node)
  {
    BeneathIsNotRoot(path, dir);
    if Excluded(Rules(rules.forced), dir, true) {
      ExcludedBeneath(Rules(rules.forced), dir, path, AsDir(node));
    } else {
      ExcludedBeneath(Rules(rules.patterns), dir, path, AsDir(node));
    }
  }

  /** Nothing under a dropped directory would have been kept. */
  lemma DroppedSubtree(rules: IgnoreRules, entries: seq<Entry>, dir: string)
    requires dir != "" && !Kept(rules, dir, Dir(entries))
    ensures Filtered(rules, Leaves(entries, dir)) == []
  {
    LeavesBeneath(entries, dir);
    forall l | l in Leaves(entries, dir) ensures !Kept(rules, l.0, l.1) {
      DroppedLeaf(rules, entries, dir, l.0, l.1);
    }
    FilteredNone(rules, Leaves(entries, dir));
  }

  // ----- The walk.

  /** `collectSourcePaths`'s closure: the two matchers and the list `walk` pushes to. */
  class Collector {
    const isExcluded: seq<CompiledPattern>
    const isForced: seq<CompiledPattern>
    ghost const rules: IgnoreRules
    var found: seq<string>

    ghost predicate Valid() {
      && AllImplement(isExcluded, Rules(rules.patterns))
      && AllImplement(isForced, Rules(rules.forced))
    }

    constructor (rules: IgnoreRules)
      ensures Valid() && this.rules == rules && found == []
    {
      var excluded := CompileAll(rules.patterns);
      var forced := CompileAll(rules.forced);
      isExcluded, isForced, this.rules, found := excluded, forced, rules, [];
    }

    method IsDropped(rel: string, node: Node) returns (dropped: bool)
      requires Valid()
      ensures dropped <==> !Kept(rules, rel, node)
    {
      var asDir := AsDir(node);
      var pinned := !asDir && rel == IGNORE_FILENAME;
      if pinned { return false; }
      dropped := IsExcluded(isForced, Rules(rules.forced), rel, asDir);
      if !dropped {
        dropped := IsExcluded(isExcluded, Rules(rules.patterns), rel, asDir);
      }
    }

    /** Pushes what a filter over the whole subtree would keep, though it never
        enters a directory that is excluded. */
    method Walk(entries: seq<Entry>, relDir: string)
      requires Valid() && ValidTree(entries)
      modifies this`found
      ensures found == old(found) + Filtered(rules, Leaves(entries, relDir))
      decreases entries
    {
      for i := 0 to |entries|
        invariant found == old(found) + Filtered(rules, Leaves(entries[..i], relDir))
      {
        var entry := entries[i];
        var rel := ChildPath(relDir, entry.name);
        ghost var soFar, more := Filtered(rules, Leaves(entries[..i], relDir)), EntryMembers(rules, rel, entry.node);
        WalkStep(rules, entries, i, relDir);
        Associative(old(found), soFar, more);
        var dropped := IsDropped(rel, entry.node);
        if dropped { continue; }
        if entry.node.Dir? {
          Walk(entry.node.entries, rel);
        } else {
          found := found + [MEMBER_PREFIX + rel];
        }
      }
      assert entries[..|entries|] == entries;
    }
  }

  function EntryMembers(rules: IgnoreRules, rel: string, node: Node): seq<string> {
    if !Kept(rules, rel, node) then []
    else if node.Dir? then Filtered(rules, Leaves(node.entries, rel))
    else [MEMBER_PREFIX + rel]
  }

  /** What one entry adds to the filtered list. */
  lemma WalkStep(rules: IgnoreRules, entries: seq<Entry>, i: nat, dir: string)
    requires i < |entries| && ValidName(entries[i].name)
    ensures var node, rel := entries[i].node, ChildPath(dir, entries[i].name);
            Filtered(rules, Leaves(entries[..i + 1], dir)) ==
            Filtered(rules, Leaves(entries[..i], dir)) + EntryMembers(rules, rel, node)
  {
    var node, rel := entries[i].node, ChildPath(dir, entries[i].name);
    var more := if node.Dir? then Leaves(node.entries, rel) else [(rel, node)];
    assert entries[..i + 1][..i] == entries[..i];
    FilteredConcat(rules, Leaves(entries[..i], dir), more);
    if !node.Dir? {
      assert [(rel, node)][..0] == [];
    } else if !Kept(rules, rel, node) {
      DroppedSubtree(rules, node.entries, rel);
    }
  }

  // ----- Reading order does not matter: the tree as a map from path to leaf.

  type LeafMap = map<string, Node>

  function ToMap(leaves: seq<(string, Node)>): LeafMap {
    if leaves == [] then map[] else ToMap(leaves[..|leaves| - 1])[leaves[|leaves| - 1].0 := leaves[|leaves| - 1].1]
  }

  function LeavesOf(tree: seq<Entry>): LeafMap {
    ToMap(Leaves(tree, ""))
  }

  ghost predicate DistinctPaths(leaves: seq<(string, Node)>) {
    forall i, j | 0 <= i < j < |leaves| :: leaves[i].0 != leaves[j].0
  }

  lemma {:induction false} ToMapOf(leaves: seq<(string, Node)>)
    requires DistinctPaths(leaves)
    ensures forall l | l in leaves :: l.0 in ToMap(leaves) && ToMap(leaves)[l.0] == l.1
    ensures forall p | p in ToMap(leaves) :: exists i | 0 <= i < |leaves| :: leaves[i].0 == p
  {
    if leaves != [] {
      var n := |leaves| - 1;
      ToMapOf(leaves[..n]);
      forall l | l in leaves ensures l.0 in ToMap(leaves) && ToMap(leaves)[l.0] == l.1 {
        var i :| 0 <= i < |leaves| && leaves[i] == l;
        if i < n {
          assert leaves[..n][i] == l;
        }
      }
      forall p | p in ToMap(leaves) ensures exists i | 0 <= i < |leaves| :: leaves[i].0 == p {
        if p != leaves[n].0 {
          assert p in ToMap(leaves[..n]);
          var i :| 0 <= i < n && leaves[..n][i].0 == p;
          assert leaves[i].0 == p;
        }
      }
    }
  }

  /** A leaf under `dir` starts with the name of the entry it came from. */
  predicate UnderEntry(path: string, dir: string, name: string) {
    path == ChildPath(dir, name) || Beneath(path, ChildPath(dir, name))
  }

  lemma {:induction false} LeafHasEntry(entries: seq<Entry>, dir: string, l: (string, Node))
    requires ValidTree(entries)
    requires l in Leaves(entries, dir)
    ensures exists i :: 0 <= i < |entries| && UnderEntry(l.0, dir, entries[i].name)
    ensures !l.1.Dir?
    decreases entries
  {
    var n := |entries| - 1;
    var last := entries[n];
    if l in Leaves(entries[..n], dir) {
      LeafHasEntry(entries[..n], dir, l);
      var i :| 0 <= i < n && UnderEntry(l.0, dir, entries[..n][i].name);
      assert UnderEntry(l.0, dir, entries[i].name);
    } else {
      if last.node.Dir? {
        LeavesBeneath(last.node.entries, ChildPath(dir, last.name));
        LeafHasEntry(last.node.entries, ChildPath(dir, last.name), l);
      }
      assert UnderEntry(l.0, dir, last.name);
    }
  }

  /** The text after `dir` in a path under entry `name`: the name, then nothing or a slash. */
  lemma NameComesFirst(path: string, dir: string, name: string, rest: string)
    requires UnderEntry(path, dir, name) && path == ChildPath(dir, rest)
    ensures |name| <= |rest| && rest[..|name|] == name && (|rest| > |name| ==> rest[|name|] == '/')
  {
    var start := if dir == "" then 0 else |dir| + 1;
    assert path[start..] == rest;
    assert path[start..][..|name|] == path[start..start + |name|] == ChildPath(dir, name)[start..] == name;
  }

  lemma UnderOneEntry(path: string, dir: string, a: string, b: string)
    requires ValidName(a) && ValidName(b)
    requires UnderEntry(path, dir, a) && UnderEntry(path, dir, b)
    ensures a == b
  {
    var rest := path[if dir == "" then 0 else |dir| + 1..];
    assert path == ChildPath(dir, rest);
    NameComesFirst(path, dir, a, rest);
    NameComesFirst(path, dir, b, rest);
    assert forall k | 0 <= k < |a| :: rest[k] == rest[..|a|][k] != '/';
    assert forall k | 0 <= k < |b| :: rest[k] == rest[..|b|][k] != '/';
  }

  lemma {:induction false} LeavesDistinct(entries: seq<Entry>, dir: string)
    requires ValidTree(entries)
    ensures DistinctPaths(Leaves(entries, dir))
    decreases entries
  {
    if entries != [] {
      var n := |entries| - 1;
      var last := entries[n];
      var path := ChildPath(dir, last.name);
      var front := Leaves(entries[..n], dir);
      var back := if last.node.Dir? then Leaves(last.node.entries, path) else [(path, last.node)];
      LeavesDistinct(entries[..n], dir);
      if last.node.Dir? {
        LeavesDistinct(last.node.entries, path);
        LeavesBeneath(last.node.entries, path);
      }
      forall f, b | f in front && b in back ensures f.0 != b.0 {
        LeafHasEntry(entries[..n], dir, f);
        var i :| 0 <= i < n && UnderEntry(f.0, dir, entries[..n][i].name);
        assert UnderEntry(b.0, dir, last.name);
        if f.0 == b.0 {
          UnderOneEntry(f.0, dir, entries[i].name, last.name);
        }
      }
      assert Leaves(entries, dir) == front + back;
    }
  }

  // ----- The leaves are what a walk down by names can find.

  /** Going down by `names`, one directory each, ends at `node`. */
  ghost predicate Stands(entries: seq<Entry>, names: seq<string>, node: Node)
    decreases |names|
  {
    names != [] && exists i | 0 <= i < |entries| :: StandsAt(entries, i, names, node)
  }

  ghost predicate StandsAt(entries: seq<Entry>, i: nat, names: seq<string>, node: Node)
    requires names != [] && i < |entries|
    decreases |names|, 0
  {
    && entries[i].name == names[0]
    && if |names| == 1 then entries[i].node == node
       else entries[i].node.Dir? && Stands(entries[i].node.entries, names[1..], node)
  }

  function Below(dir: string, names: seq<string>): string {
    if dir == "" then Join(names, '/') else dir + "/" + Join(names, '/')
  }

  lemma BelowChild(dir: string, name: string, names: seq<string>)
    requires name != ""
    ensures Below(dir, [name]) == ChildPath(dir, name)
    ensures names != [] ==> Below(dir, [name] + names) == Below(ChildPath(dir, name), names)
  {
    assert ([name] + names)[1..] == names;
    var tail := Join(names, '/');
    assert dir + "/" + (name + ['/'] + tail) == dir + "/" + name + "/" + tail;
  }

  lemma {:induction false} LeafStands(entries: seq<Entry>, dir: string, leaf: (string, Node)) returns (names: seq<string>)
    requires ValidTree(entries) && leaf in Leaves(entries, dir)
    ensures !leaf.1.Dir? && Stands(entries, names, leaf.1) && leaf.0 == Below(dir, names)
    decreases entries
  {
    var n := |entries| - 1;
    var last, front := entries[n], entries[..n];
    BelowChild(dir, last.name, []);
    if leaf in Leaves(front, dir) {
      names := LeafStands(front, dir, leaf);
      var i :| 0 <= i < n && StandsAt(front, i, names, leaf.1);
      assert StandsAt(entries, i, names, leaf.1);
    } else if last.node.Dir? {
      var below := LeafStands(last.node.entries, ChildPath(dir, last.name), leaf);
      names := [last.name] + below;
      BelowChild(dir, last.name, below);
      assert names[1..] == below;
      assert StandsAt(entries, n, names, leaf.1);
    } else {
      names := [last.name];
      assert StandsAt(entries, n, names, leaf.1);
    }
  }

  lemma {:induction false} StandingIsLeaf(entries: seq<Entry>, dir: string, names: seq<string>, node: Node)
    requires ValidTree(entries) && !node.Dir? && Stands(entries, names, node)
    ensures (Below(dir, names), node) in Leaves(entries, dir)
    decreases |names|, |entries|
  {
    var n := |entries| - 1;
    var last, front := entries[n], entries[..n];
    var i :| 0 <= i < |entries| && StandsAt(entries, i, names, node);
    BelowChild(dir, last.name, []);
    if i < n {
      assert StandsAt(front, i, names, node);
      StandingIsLeaf(front, dir, names, node);
    } else if |names| > 1 {
      StandingIsLeaf(last.node.entries, ChildPath(dir, last.name), names[1..], node);
      BelowChild(dir, last.name, names[1..]);
      assert names == [last.name] + names[1..];
    } else {
      assert names == [last.name];
    }
  }

  ghost predicate Reaches(tree: seq<Entry>, path: string, node: Node) {
    exists names :: Stands(tree, names, node) && path == Join(names, '/')
  }

  lemma LeafIffReached(tree: seq<Entry>, path: string, node: Node)
    requires ValidTree(tree)
    ensures (path, node) in Leaves(tree, "") <==> !node.Dir? && Reaches(tree, path, node)
  {
    if (path, node) in Leaves(tree, "") {
      var names := LeafStands(tree, "", (path, node));
      assert path == Join(names, '/');
    }
    if !node.Dir? && Reaches(tree, path, node) {
      var names :| Stands(tree, names, node) && path == Join(names, '/');
      StandingIsLeaf(tree, "", names, node);
    }
  }

  /** The flat tree holds exactly what is no directory, at the path that leads to it. */
  lemma LeavesAreWhatStands(tree: seq<Entry>, path: string, node: Node)
    requires ValidTree(tree)
    ensures path in LeavesOf(tree) && LeavesOf(tree)[path] == node <==> !node.Dir? && Reaches(tree, path, node)
  {
    LeafIffReached(tree, path, node);
    LeavesDistinct(tree, "");
    MapHoldsLeaves(Leaves(tree, ""), path, node);
  }

  lemma MapHoldsLeaves(leaves: seq<(string, Node)>, path: string, node: Node)
    requires DistinctPaths(leaves)
    ensures path in ToMap(leaves) && ToMap(leaves)[path] == node <==> (path, node) in leaves
  {
    ToMapOf(leaves);
    if path in ToMap(leaves) {
      var i :| 0 <= i < |leaves| && leaves[i].0 == path;
      assert leaves[i] in leaves;
    }
  }

  /** The members the digest covers, as a set: what the plain filter keeps. */
  ghost function MemberSet(rules: IgnoreRules, m: LeafMap): set<string> {
    set p | p in m && Kept(rules, p, m[p]) :: MEMBER_PREFIX + p
  }

  lemma SamePathSameMember(a: string, b: string)
    ensures MEMBER_PREFIX + a == MEMBER_PREFIX + b <==> a == b
  {
    assert (MEMBER_PREFIX + a)[|MEMBER_PREFIX|..] == a && (MEMBER_PREFIX + b)[|MEMBER_PREFIX|..] == b;
  }

  predicate KeptAs(rules: IgnoreRules, leaf: (string, Node), member: string) {
    Kept(rules, leaf.0, leaf.1) && member == MEMBER_PREFIX + leaf.0
  }

  lemma {:induction false} FilteredHolds(rules: IgnoreRules, leaves: seq<(string, Node)>, member: string)
    ensures member in Filtered(rules, leaves) <==> exists i :: 0 <= i < |leaves| && KeptAs(rules, leaves[i], member)
  {
    if leaves != [] {
      var n := |leaves| - 1;
      FilteredHolds(rules, leaves[..n], member);
      assert member in Filtered(rules, leaves) <==> member in Filtered(rules, leaves[..n]) || KeptAs(rules, leaves[n], member);
      assert forall i | 0 <= i < n :: leaves[..n][i] == leaves[i];
    }
  }

  lemma {:induction false} FilteredOnce(rules: IgnoreRules, leaves: seq<(string, Node)>, member: string)
    requires DistinctPaths(leaves)
    ensures multiset(Filtered(rules, leaves))[member] <= 1
  {
    if leaves != [] {
      var n := |leaves| - 1;
      var front := Filtered(rules, leaves[..n]);
      FilteredOnce(rules, leaves[..n], member);
      FilteredHolds(rules, leaves[..n], member);
      if i :| 0 <= i < n && KeptAs(rules, leaves[..n][i], member) {
        SamePathSameMember(leaves[i].0, leaves[n].0);
      } else {
        assert member !in front && multiset(front)[member] == 0;
      }
    }
  }

  /** The sorted list of a set of strings: the only one there is. */
  ghost predicate Lists(xs: seq<string>, s: set<string>) {
    Sorted(xs) && multiset(xs) == multiset(s)
  }

  lemma ListsUnique(xs: seq<string>, ys: seq<string>, s: set<string>)
    requires Lists(xs, s) && Lists(ys, s)
    ensures xs == ys
  {
    SortedUnique(xs, ys);
  }

  /** Pruning refines filtering: for any tree in any reading order, the members
      are the sorted non-directory entries the plain filter keeps. */
  method CollectSourcePaths(tree: seq<Entry>, rules: IgnoreRules) returns (members: seq<string>)
    requires ValidTree(tree)
    ensures Lists(members, MemberSet(rules, LeavesOf(tree)))
  {
    var collector := new Collector(rules);
    collector.Walk(tree, "");
    var found := collector.found;
    members := Sort(found);
    SortSorts(found);
    assert found == Filtered(rules, Leaves(tree, ""));
    FilteredIsMemberSet(rules, tree);
  }

  lemma FoundIsMember(rules: IgnoreRules, leaves: seq<(string, Node)>, member: string)
    requires DistinctPaths(leaves)
    ensures member in Filtered(rules, leaves) <==> member in MemberSet(rules, ToMap(leaves))
  {
    var m := ToMap(leaves);
    ToMapOf(leaves);
    FilteredHolds(rules, leaves, member);
    if i :| 0 <= i < |leaves| && KeptAs(rules, leaves[i], member) {
      assert leaves[i] in leaves;
    }
    if p :| p in m && Kept(rules, p, m[p]) && member == MEMBER_PREFIX + p {
      var i :| 0 <= i < |leaves| && leaves[i].0 == p;
      assert leaves[i] in leaves && KeptAs(rules, leaves[i], member);
    }
  }

  lemma FilteredIsMemberSet(rules: IgnoreRules, tree: seq<Entry>)
    requires ValidTree(tree)
    ensures multiset(Filtered(rules, Leaves(tree, ""))) == multiset(MemberSet(rules, LeavesOf(tree)))
  {
    var leaves := Leaves(tree, "");
    LeavesDistinct(tree, "");
    forall x ensures multiset(Filtered(rules, leaves))[x] == multiset(MemberSet(rules, LeavesOf(tree)))[x] {
      FilteredOnce(rules, leaves, x);
      FoundIsMember(rules, leaves, x);
    }
  }
}
