/** Does the agent compute the digest the compiling machine computed? What the
    source tarball, extraction, a run's own rewrites and a CRLF checkout do to a
    tree, what the compiler warns about, and exactly when the two sides agree. */
module DigestAgreement {
  import opened Strings
  import opened LineEndings
  import opened KiciIgnore
  import opened SourceTree
  import opened SourceDigest
  import Posix = PosixPath

  // ----- Symlinks the tarball cannot carry.

  datatype SymlinkFault = Absolute | Escapes

  predicate IsLetter(c: char) {
    'a' <= c <= 'z' || 'A' <= c <= 'Z'
  }

  /** `target.startsWith('/') || /^[a-zA-Z]:[\\/]/.test(target)`. */
  predicate IsRooted(target: string) {
    || StartsWith(target, "/")
    || (|target| >= 3 && IsLetter(target[0]) && target[1] == ':' && (target[2] == '\\' || target[2] == '/'))
  }

  function SymlinkPackFault(member: string, target: string): Option<SymlinkFault> {
    if IsRooted(target) then Some(Absolute)
    else
      var resolved := Posix.Normalize(Posix.JoinPaths(Posix.Dirname(member), target));
      if resolved == ".." || StartsWith(resolved, "../") then Some(Escapes) else None
  }

  /** Absolute is what begins with a slash, or with a drive letter, a colon and a
      slash of either kind; nothing else is answered so. */
  lemma AbsoluteIffRooted(member: string, target: string)
    ensures SymlinkPackFault(member, target) == Some(Absolute) <==>
      || (target != "" && target[0] == '/')
      || (|target| >= 3 && target[1] == ':' && target[2] in "/\\"
          && ('a' <= target[0] <= 'z' || 'A' <= target[0] <= 'Z'))
  {
    assert StartsWith(target, "/") <==> target != "" && target[0] == '/';
  }

  /** For a target that is not absolute the normalizing test is the depth count:
      from the member's directory, the target's segments climb above the root. */
  lemma EscapesIffClimbsOut(member: string, target: string)
    requires !StartsWith(member, "/") && member != ""
    requires !IsRooted(target)
    ensures SymlinkPackFault(member, target) == Some(Escapes)
       <==> Posix.ClimbsOut(Split(Posix.Dirname(member), '/') + Split(target, '/'))
  {
    var dir := Posix.Dirname(member);
    DirnameRelative(member);
    if target == "" {
      Posix.NormalizeTellsEscape(dir);
      Posix.ClimbsOutSnoc(Split(dir, '/') + [""]);
      assert (Split(dir, '/') + [""])[..|Split(dir, '/')|] == Split(dir, '/');
      assert Posix.Depth(Split(dir, '/') + [""]) == Posix.Depth(Split(dir, '/'));
      DepthSeen(Split(dir, '/'));
    } else {
      SplitConcat(dir, target, '/');
      assert dir + ['/'] + target == dir + "/" + target;
      Posix.NormalizeTellsEscape(dir + "/" + target);
    }
  }

  lemma DepthSeen(segments: seq<string>)
    ensures Posix.Depth(segments) < 0 ==> Posix.ClimbsOut(segments)
  {
    assert segments[..|segments|] == segments;
    assert Posix.Depth(segments) < 0 ==> Posix.AboveAt(segments, |segments|);
  }

  lemma DirnameRelative(member: string)
    requires !StartsWith(member, "/") && member != ""
    ensures Posix.Dirname(member) != "" && Posix.Dirname(member)[0] != '/'
  {
    var segments := Split(member, '/');
    SplitPiecesPlain(member, '/');
    assert segments[0] != "" by {
      assert member[0] != '/';
    }
    var front := segments[..|segments| - 1];
    if front != [] {
      assert front[0] == segments[0] && segments[0] in segments;
      Posix.JoinHead(front);
    }
  }

  // ----- What a run rewrites.

  /** The first run-rewritten path that `rel` is, or lies under. */
  function UnderRunRewritten(rel: string): Option<string> {
    FirstTarget(rel, RUN_REWRITTEN_PATHS)
  }

  function FirstTarget(rel: string, targets: seq<string>): (r: Option<string>)
    ensures r.Some? ==> r.value in targets
  {
    if targets == [] then None
    else if IsUnder(rel, targets[0]) then Some(targets[0])
    else FirstTarget(rel, targets[1..])
  }

  predicate IsUnder(rel: string, target: string) {
    if EndsWith(target, "/") then rel == target[..|target| - 1] || StartsWith(rel, target) else rel == target
  }

  lemma RunRewrittenPlaces(rel: string)
    ensures UnderRunRewritten(rel).Some?
       <==> rel == NODE_MODULES || Beneath(rel, NODE_MODULES) || rel == NPMRC || rel == PACKAGE_LOCK
  {
    RunRewrittenTarget(rel);
  }

  /** The path answered is the one that covers it. */
  lemma RunRewrittenTarget(rel: string)
    ensures UnderRunRewritten(rel) ==
      if rel == NODE_MODULES || Beneath(rel, NODE_MODULES) then Some(NODE_MODULES + "/")
      else if rel == NPMRC then Some(NPMRC)
      else if rel == PACKAGE_LOCK then Some(PACKAGE_LOCK)
      else None
  {
    var t := RUN_REWRITTEN_PATHS;
    NoTrailingSlash();
    assert t[0][..|t[0]| - 1] == NODE_MODULES && t[0][|t[0]| - 1..] == "/";
    FileTargets(rel, t[1..]);
    assert UnderRunRewritten(rel) == if IsUnder(rel, t[0]) then Some(t[0]) else FirstTarget(rel, t[1..]);
  }

  lemma FileTargets(rel: string, t: seq<string>)
    requires t == [NPMRC, PACKAGE_LOCK]
    ensures FirstTarget(rel, t) ==
      if rel == NPMRC then Some(NPMRC) else if rel == PACKAGE_LOCK then Some(PACKAGE_LOCK) else None
  {
    NoTrailingSlash();
    var last := t[1..];
    assert last == [PACKAGE_LOCK] && last[1..] == [];
    assert FirstTarget(rel, last) == if rel == PACKAGE_LOCK then Some(PACKAGE_LOCK) else None;
  }

  lemma NoTrailingSlash()
    ensures !EndsWith(NPMRC, "/") && !EndsWith(PACKAGE_LOCK, "/")
  {
    assert NPMRC[|NPMRC| - 1] == 'c' && PACKAGE_LOCK[|PACKAGE_LOCK| - 1] == 'n';
  }

  // ----- Warnings.

  datatype Warning =
    | CoveredThoughRewritten(member: string, target: string)
    | UncarriableLink(member: string, target: string, fault: SymlinkFault)

  /** The warnings a member earns. */
  predicate Earns(rules: IgnoreRules, m: LeafMap, member: string, w: Warning)
    requires PathOf(member) in m
  {
    match w
    case CoveredThoughRewritten(member', target) =>
      && member' == member
      && UnderRunRewritten(PathOf(member)) == Some(target)
      && target !in rules.missingRunRewritten
    case UncarriableLink(member', target, fault) =>
      && member' == member
      && m[PathOf(member)].Link? && m[PathOf(member)].target == target
      && SymlinkPackFault(member, target) == Some(fault)
  }

  datatype SourceSymlink = SourceSymlink(member: string, target: string)

  /** The links among some members, in their order. */
  function LinksAmong(m: LeafMap, members: seq<string>): seq<SourceSymlink> {
    if members == [] then []
    else
      var n := |members| - 1;
      var path := PathOf(members[n]);
      LinksAmong(m, members[..n])
      + if path in m && m[path].Link? then [SourceSymlink(members[n], m[path].target)] else []
  }

  lemma {:induction false} LinksAmongMembers(m: LeafMap, members: seq<string>)
    ensures forall s :: s in LinksAmong(m, members) <==>
              && s.member in members && PathOf(s.member) in m
              && m[PathOf(s.member)].Link? && m[PathOf(s.member)].target == s.target
  {
    if members != [] {
      var n := |members| - 1;
      LinksAmongMembers(m, members[..n]);
      assert members == members[..n] + [members[n]];
    }
  }

  /** Every hashed link, once, in member order. */
  method CollectSourceSymlinks(tree: seq<Entry>, rules: IgnoreRules) returns (found: seq<SourceSymlink>)
    requires ValidTree(tree)
    ensures exists members :: Lists(members, MemberSet(rules, LeavesOf(tree))) && found == LinksAmong(LeavesOf(tree), members)
  {
    var members := CollectSourcePaths(tree, rules);
    var disk := LeavesOf(tree);
    found := [];
    for i := 0 to |members|
      invariant found == LinksAmong(disk, members[..i])
    {
      var member := members[i];
      assert members[..i + 1][..i] == members[..i];
      if PathOf(member) in disk && disk[PathOf(member)].Link? {
        found := found + [SourceSymlink(member, disk[PathOf(member)].target)];
      }
    }
    assert members[..|members|] == members;
  }

  function RewrittenAmong(members: seq<string>, rules: IgnoreRules): seq<Warning> {
    if members == [] then []
    else
      var n := |members| - 1;
      var target := UnderRunRewritten(PathOf(members[n]));
      RewrittenAmong(members[..n], rules)
      + if target.Some? && target.value !in rules.missingRunRewritten
        then [CoveredThoughRewritten(members[n], target.value)] else []
  }

  method RewrittenWarnings(members: seq<string>, rules: IgnoreRules) returns (warnings: seq<Warning>)
    ensures warnings == RewrittenAmong(members, rules)
  {
    warnings := [];
    for i := 0 to |members|
      invariant warnings == RewrittenAmong(members[..i], rules)
    {
      var member := members[i];
      assert members[..i + 1][..i] == members[..i];
      var target := UnderRunRewritten(PathOf(member));
      if target.None? || target.value in rules.missingRunRewritten { continue; }
      warnings := warnings + [CoveredThoughRewritten(member, target.value)];
    }
    assert members[..|members|] == members;
  }

  function FaultsAmong(links: seq<SourceSymlink>): seq<Warning> {
    if links == [] then [] else FaultsAmong(links[..|links| - 1]) + FaultOf(links[|links| - 1])
  }

  function FaultOf(link: SourceSymlink): seq<Warning> {
    match SymlinkPackFault(link.member, link.target)
    case None => []
    case Some(fault) => [UncarriableLink(link.member, link.target, fault)]
  }

  method LinkWarnings(links: seq<SourceSymlink>) returns (warnings: seq<Warning>)
    ensures warnings == FaultsAmong(links)
  {
    warnings := [];
    for i := 0 to |links|
      invariant warnings == FaultsAmong(links[..i])
    {
      assert links[..i + 1][..i] == links[..i] && warnings + [] == warnings;
      var fault := SymlinkPackFault(links[i].member, links[i].target);
      if fault.None? { continue; }
      warnings := warnings + [UncarriableLink(links[i].member, links[i].target, fault.value)];
    }
    assert links[..|links|] == links;
  }

  lemma {:induction false} RewrittenAmongMembers(members: seq<string>, rules: IgnoreRules)
    ensures forall w :: w in RewrittenAmong(members, rules) <==>
              && w.CoveredThoughRewritten? && w.member in members
              && UnderRunRewritten(PathOf(w.member)) == Some(w.target)
              && w.target !in rules.missingRunRewritten
  {
    if members != [] {
      var n := |members| - 1;
      RewrittenAmongMembers(members[..n], rules);
      assert members == members[..n] + [members[n]];
    }
  }

  lemma {:induction false} FaultsAmongLinks(links: seq<SourceSymlink>)
    ensures forall w :: w in FaultsAmong(links) <==>
              && w.UncarriableLink? && SourceSymlink(w.member, w.target) in links
              && SymlinkPackFault(w.member, w.target) == Some(w.fault)
  {
    if links != [] {
      var n := |links| - 1;
      FaultsAmongLinks(links[..n]);
      assert links == links[..n] + [links[n]];
    }
  }

  /** The warnings for one listing of the members: first those for paths a run
      rewrites, then those for links, each in member order. */
  function WarningsFor(rules: IgnoreRules, m: LeafMap, members: seq<string>): seq<Warning> {
    RewrittenAmong(members, rules) + FaultsAmong(LinksAmong(m, members))
  }

  ghost predicate WarnsOf(rules: IgnoreRules, m: LeafMap, warnings: seq<Warning>) {
    exists members :: Lists(members, MemberSet(rules, m)) && warnings == WarningsFor(rules, m, members)
  }

  method FindDigestReproducibilityWarnings(tree: seq<Entry>, rules: IgnoreRules) returns (warnings: seq<Warning>)
    requires ValidTree(tree)
    ensures WarnsOf(rules, LeavesOf(tree), warnings)
  {
    var members := CollectSourcePaths(tree, rules);
    var rewritten := RewrittenWarnings(members, rules);
    var links := CollectSourceSymlinks(tree, rules);
    ghost var again :| Lists(again, MemberSet(rules, LeavesOf(tree))) && links == LinksAmong(LeavesOf(tree), again);
    ListsUnique(members, again, MemberSet(rules, LeavesOf(tree)));
    var uncarriable := LinkWarnings(links);
    warnings := rewritten + uncarriable;
    assert warnings == WarningsFor(rules, LeavesOf(tree), members);
  }

  lemma RewrittenAreEarned(rules: IgnoreRules, m: LeafMap, members: seq<string>, w: Warning)
    requires w.CoveredThoughRewritten? && PathOf(w.member) in m
    ensures w in RewrittenAmong(members, rules) <==> w.member in members && Earns(rules, m, w.member, w)
  {
    RewrittenAmongMembers(members, rules);
  }

  lemma FaultsAreEarned(rules: IgnoreRules, m: LeafMap, members: seq<string>, w: Warning)
    requires w.UncarriableLink? && PathOf(w.member) in m
    ensures w in FaultsAmong(LinksAmong(m, members)) <==> w.member in members && Earns(rules, m, w.member, w)
  {
    LinksAmongMembers(m, members);
    FaultsAmongLinks(LinksAmong(m, members));
    var link := SourceSymlink(w.member, w.target);
    assert link in LinksAmong(m, members) <==>
      link.member in members && PathOf(link.member) in m && m[PathOf(link.member)].Link? && m[PathOf(link.member)].target == link.target;
  }

  lemma WarnedIsMember(rules: IgnoreRules, m: LeafMap, members: seq<string>, w: Warning)
    requires w in WarningsFor(rules, m, members)
    ensures w.member in members
    ensures w in RewrittenAmong(members, rules) ==> w.CoveredThoughRewritten?
    ensures w in FaultsAmong(LinksAmong(m, members)) ==> w.UncarriableLink?
  {
    RewrittenAmongMembers(members, rules);
    FaultsAmongLinks(LinksAmong(m, members));
    LinksAmongMembers(m, members);
    if w !in RewrittenAmong(members, rules) {
      assert w in FaultsAmong(LinksAmong(m, members));
    }
  }

  lemma ListedMembers(rules: IgnoreRules, m: LeafMap, members: seq<string>)
    requires Lists(members, MemberSet(rules, m))
    ensures forall x :: x in members <==> x in MemberSet(rules, m)
    ensures forall x | x in members :: PathOf(x) in m
  {
    MembersOfContent(rules, m, members);
    assert forall x :: x in members <==> x in multiset(members);
  }

  /** Each warning is earned by a hashed member, and each that is earned is given. */
  lemma WarningsAreEarned(rules: IgnoreRules, m: LeafMap, warnings: seq<Warning>)
    requires WarnsOf(rules, m, warnings)
    ensures forall w :: w in warnings <==>
              w.member in MemberSet(rules, m) && PathOf(w.member) in m && Earns(rules, m, w.member, w)
  {
    var members :| Lists(members, MemberSet(rules, m)) && warnings == WarningsFor(rules, m, members);
    ListedMembers(rules, m, members);
    forall w ensures w in warnings <==> w.member in members && PathOf(w.member) in m && Earns(rules, m, w.member, w) {
      if w in warnings { WarnedIsMember(rules, m, members, w); }
      if PathOf(w.member) in m {
        if w.CoveredThoughRewritten? { RewrittenAreEarned(rules, m, members, w); }
        else { FaultsAreEarned(rules, m, members, w); }
      }
    }
  }

  // ----- In which order.

  predicate Ascending(names: seq<string>) {
    forall i, j | 0 <= i < j < |names| :: Less(names[i], names[j])
  }

  lemma ListedAscending(names: seq<string>, s: set<string>)
    requires Lists(names, s)
    ensures Ascending(names)
  {
    ListedDistinct(names, s);
    forall i, j | 0 <= i < j < |names| ensures Less(names[i], names[j]) {
      assert AtMost(names[i], names[j]);
    }
  }

  function MembersOf(warnings: seq<Warning>): (names: seq<string>)
    ensures |names| == |warnings| && forall i | 0 <= i < |names| :: names[i] == warnings[i].member
  {
    seq(|warnings|, i requires 0 <= i < |warnings| => warnings[i].member)
  }

  function LinkMembers(links: seq<SourceSymlink>): (names: seq<string>)
    ensures |names| == |links| && forall i | 0 <= i < |names| :: names[i] == links[i].member
  {
    seq(|links|, i requires 0 <= i < |links| => links[i].member)
  }

  lemma {:induction false} RewrittenAscend(members: seq<string>, rules: IgnoreRules)
    requires Ascending(members)
    ensures Ascending(MembersOf(RewrittenAmong(members, rules)))
    ensures forall w | w in RewrittenAmong(members, rules) :: w.CoveredThoughRewritten? && w.member in members
  {
    if members != [] {
      var n := |members| - 1;
      RewrittenAscend(members[..n], rules);
      assert members == members[..n] + [members[n]];
      var front := RewrittenAmong(members[..n], rules);
      assert forall i | 0 <= i < |front| :: front[i] in front;
    }
  }

  lemma {:induction false} LinksAscend(m: LeafMap, members: seq<string>)
    requires Ascending(members)
    ensures Ascending(LinkMembers(LinksAmong(m, members)))
    ensures forall s | s in LinksAmong(m, members) :: s.member in members
  {
    if members != [] {
      var n := |members| - 1;
      LinksAscend(m, members[..n]);
      assert members == members[..n] + [members[n]];
      var front := LinksAmong(m, members[..n]);
      assert forall i | 0 <= i < |front| :: front[i] in front;
    }
  }

  /** `names` go up and stay below `last`. */
  predicate AscendingTo(names: seq<string>, last: string) {
    Ascending(names) && forall i | 0 <= i < |names| :: Less(names[i], last)
  }

  lemma AscendingSnoc(names: seq<string>, last: string)
    ensures Ascending(names + [last]) <==> AscendingTo(names, last)
  {
    var all := names + [last];
    assert all[|names|] == last && forall i | 0 <= i < |names| :: all[i] == names[i];
  }

  lemma MembersSnoc(front: seq<Warning>, w: Warning)
    ensures MembersOf(front + [w]) == MembersOf(front) + [w.member]
  {
  }

  lemma LinkMembersSnoc(links: seq<SourceSymlink>)
    requires links != []
    ensures LinkMembers(links) == LinkMembers(links[..|links| - 1]) + [links[|links| - 1].member]
  {
  }

  /** Leaving out the links without a fault keeps the order, and what they stay below. */
  lemma {:induction false} FaultsAscend(links: seq<SourceSymlink>, last: string)
    requires Ascending(LinkMembers(links))
    ensures Ascending(MembersOf(FaultsAmong(links)))
    ensures AscendingTo(LinkMembers(links), last) ==> AscendingTo(MembersOf(FaultsAmong(links)), last)
  {
    if links != [] {
      var n := |links| - 1;
      var next := links[n].member;
      LinkMembersSnoc(links);
      AscendingSnoc(LinkMembers(links[..n]), next);
      FaultsAscend(links[..n], next);
      FaultsAscend(links[..n], last);
      FaultsSnoc(links);
      AscendingSnoc(MembersOf(FaultsAmong(links[..n])), next);
      assert AscendingTo(LinkMembers(links), last) ==> AscendingTo(LinkMembers(links[..n]), last) && Less(next, last) by {
        assert LinkMembers(links)[n] == next;
        assert forall i | 0 <= i < n :: LinkMembers(links)[i] == LinkMembers(links[..n])[i];
      }
    }
  }

  lemma FaultsSnoc(links: seq<SourceSymlink>)
    requires links != []
    ensures
      var n := |links| - 1;
      var front := MembersOf(FaultsAmong(links[..n]));
      MembersOf(FaultsAmong(links)) == front || MembersOf(FaultsAmong(links)) == front + [links[n].member]
  {
    var n := |links| - 1;
    var front := FaultsAmong(links[..n]);
    var more := FaultOf(links[n]);
    if more == [] {
      assert front + more == front;
    } else {
      assert more == [more[0]];
      MembersSnoc(front, more[0]);
    }
  }

  /** Up to `k` the warnings are for rewritten paths, after it for links. */
  ghost predicate InTwoRuns(warnings: seq<Warning>, k: nat) {
    && k <= |warnings|
    && (forall i | 0 <= i < |warnings| :: warnings[i].CoveredThoughRewritten? <==> i < k)
    && Ascending(MembersOf(warnings[..k])) && Ascending(MembersOf(warnings[k..]))
  }

  lemma TwoRuns(covered: seq<Warning>, faulty: seq<Warning>)
    requires forall w | w in covered :: w.CoveredThoughRewritten?
    requires forall w | w in faulty :: w.UncarriableLink?
    requires Ascending(MembersOf(covered)) && Ascending(MembersOf(faulty))
    ensures InTwoRuns(covered + faulty, |covered|)
  {
    var all, n := covered + faulty, |covered|;
    assert all[..n] == covered && all[n..] == faulty;
    forall i | 0 <= i < |all| ensures all[i].CoveredThoughRewritten? <==> i < n {
      assert if i < n then all[i] in covered else all[i] in faulty;
    }
  }

  /** First the warnings for rewritten paths, then those for links; each kind once
      a member, in ascending order of member. */
  lemma WarningsInOrder(rules: IgnoreRules, m: LeafMap, warnings: seq<Warning>)
    requires WarnsOf(rules, m, warnings)
    ensures exists k: nat :: InTwoRuns(warnings, k)
  {
    var members :| Lists(members, MemberSet(rules, m)) && warnings == WarningsFor(rules, m, members);
    ListedAscending(members, MemberSet(rules, m));
    RewrittenAscend(members, rules);
    LinksAscend(m, members);
    FaultsAscend(LinksAmong(m, members), "");
    FaultsAmongLinks(LinksAmong(m, members));
    TwoRuns(RewrittenAmong(members, rules), FaultsAmong(LinksAmong(m, members)));
  }

  /** The collected links stand in ascending order of member. */
  lemma LinksInOrder(rules: IgnoreRules, m: LeafMap, members: seq<string>)
    requires Lists(members, MemberSet(rules, m))
    ensures Ascending(LinkMembers(LinksAmong(m, members)))
  {
    ListedAscending(members, MemberSet(rules, m));
    LinksAscend(m, members);
  }

  /** No hashed member is, or lies under, a path a run rewrites; no hashed link
      has a target the tarball changes. */
  ghost predicate Reproducible(rules: IgnoreRules, m: LeafMap) {
    forall p | p in HashedContent(rules, m) ::
      && UnderRunRewritten(p).None?
      && (m[p].Link? ==> SymlinkPackFault(MEMBER_PREFIX + p, m[p].target).None?)
  }

  /** Whatever is not reproducible earns a warning. */
  lemma UnreproducibleEarns(rules: IgnoreRules, m: LeafMap, p: string) returns (w: Warning)
    requires rules.missingRunRewritten == [] && p in HashedContent(rules, m)
    requires UnderRunRewritten(p).Some? || (m[p].Link? && SymlinkPackFault(MEMBER_PREFIX + p, m[p].target).Some?)
    ensures w.member in MemberSet(rules, m) && PathOf(w.member) in m && Earns(rules, m, w.member, w)
  {
    var member := MEMBER_PREFIX + p;
    PathMember(p);
    w := if UnderRunRewritten(p).Some? then CoveredThoughRewritten(member, UnderRunRewritten(p).value)
         else UncarriableLink(member, m[p].target, SymlinkPackFault(member, m[p].target).value);
  }

  lemma EarnedIsUnreproducible(rules: IgnoreRules, m: LeafMap, w: Warning)
    requires w.member in MemberSet(rules, m) && PathOf(w.member) in m && Earns(rules, m, w.member, w)
    ensures !Reproducible(rules, m)
  {
    var p :| p in m && Kept(rules, p, m[p]) && w.member == MEMBER_PREFIX + p;
    PathMember(p);
    assert p in HashedContent(rules, m);
  }

  /** With nothing missing, an empty warning list says exactly that. */
  lemma NoWarningsMeansReproducible(rules: IgnoreRules, m: LeafMap, warnings: seq<Warning>)
    requires rules.missingRunRewritten == [] && WarnsOf(rules, m, warnings)
    ensures warnings == [] <==> Reproducible(rules, m)
  {
    WarningsAreEarned(rules, m, warnings);
    if !Reproducible(rules, m) {
      var p :| p in HashedContent(rules, m) && !(UnderRunRewritten(p).None?
        && (m[p].Link? ==> SymlinkPackFault(MEMBER_PREFIX + p, m[p].target).None?));
      var w := UnreproducibleEarns(rules, m, p);
      assert w in warnings;
    }
    if warnings != [] {
      assert warnings[0] in warnings;
      EarnedIsUnreproducible(rules, m, warnings[0]);
    }
  }

  // ----- The agent's tree.

  /** The tarball's filter: it drops every path that starts with this text. */
  const TAR_EXCLUDED_PREFIX := MEMBER_PREFIX + NODE_MODULES

  predicate TarOmits(path: string) {
    StartsWith(MEMBER_PREFIX + path, TAR_EXCLUDED_PREFIX)
  }

  /** A checkout keeps a text or converts its line endings. */
  predicate CheckedOut(before: string, after: string) {
    after == before || after == CheckoutCrlf(before)
  }

  predicate CheckedOutText(before: Option<string>, after: Option<string>) {
    (before.None? <==> after.None?) && (before.Some? ==> CheckedOut(before.value, after.value))
  }

  /** A link resolves to a directory on one side exactly when it does on the
      other, and the text read through the root `.kiciignore` is the same. */
  predicate ResolvesAlike(path: string, before: Node, after: Node)
    requires before.Link? && after.Link?
  {
    && (before.behind.ToDirectory? <==> after.behind.ToDirectory?)
    && (path == IGNORE_FILENAME ==>
          && (before.behind.ToFile? <==> after.behind.ToFile?)
          && (before.behind.ToFile? ==> CheckedOut(before.behind.text, after.behind.text)))
  }

  /** A leaf the tarball carries. */
  predicate Carried(path: string, before: Node, after: Node)
    requires !before.Dir?
  {
    match before
    case File(text) => after.File? && CheckedOutText(text, after.text)
    case Link(target, _) => after.Link? && after.target == target && ResolvesAlike(path, before, after)
  }

  /** What a run leaves at a path it rewrites: files it wrote, and under
      `node_modules` anything at all, `node_modules` itself being a directory
      or a link to one. */
  predicate RunLeaves(path: string, node: Node) {
    && (path == NODE_MODULES ==> AsDir(node))
    && (path == NPMRC || path == PACKAGE_LOCK ==> !AsDir(node))
  }

  /** `agent` is what packing, extraction, checkout and the run itself can make
      of the part of `producer` that `rules` keep. A link with a pack fault arrives
      with some other target, or not at all. Of leaves the rules do not keep
      nothing is said: they may change, appear or go. */
  ghost predicate ArrivesAs(rules: IgnoreRules, producer: LeafMap, agent: LeafMap) {
    && (forall p | p in producer :: !producer[p].Dir?)
    && (forall p | p in agent && Kept(rules, p, agent[p]) ::
          if UnderRunRewritten(p).Some? then RunLeaves(p, agent[p])
          else p in producer && !TarOmits(p) && Kept(rules, p, producer[p]))
    && (forall p | p in producer && Kept(rules, p, producer[p]) && UnderRunRewritten(p).None? && !TarOmits(p) ::
          Arrives(p, producer[p], agent))
  }

  /** One leaf's journey. */
  ghost predicate Arrives(path: string, before: Node, agent: LeafMap)
    requires !before.Dir?
  {
    if before.Link? && SymlinkPackFault(MEMBER_PREFIX + path, before.target).Some? then
      path in agent ==> agent[path].Link? && ResolvesAlike(path, before, agent[path])
    else
      path in agent && Carried(path, before, agent[path])
  }

  lemma CarriedContribution(path: string, before: Node, after: Node)
    requires !before.Dir? && Carried(path, before, after)
    ensures LineEndings.Normalize(Contribution(before)) == LineEndings.Normalize(Contribution(after))
    ensures AsDir(before) == AsDir(after)
  {
    if before.File? && before.text.Some? {
      CheckoutIsInvisible(before.text.value);
    }
  }

  lemma IgnoreFileIsCarried()
    ensures UnderRunRewritten(IGNORE_FILENAME).None? && !TarOmits(IGNORE_FILENAME)
  {
    RunRewrittenPlaces(IGNORE_FILENAME);
    assert IGNORE_FILENAME[0] == '.' && NODE_MODULES[0] == 'n' && PACKAGE_LOCK[0] == 'p';
    assert IGNORE_FILENAME[1] == 'k' && NPMRC[1] == 'n';
    assert (MEMBER_PREFIX + IGNORE_FILENAME)[6] == '.' && TAR_EXCLUDED_PREFIX[6] == 'n';
  }

  /** The ignore file reads alike on both sides: whatever is not a directory is
      kept, so the relation speaks of it. */
  lemma IgnoreFileArrives(rules: IgnoreRules, producer: LeafMap, agent: LeafMap)
    requires ArrivesAs(rules, producer, agent) && Reproducible(rules, producer)
    ensures CheckedOutText(IgnoreFileText(producer), IgnoreFileText(agent))
  {
    var p := IGNORE_FILENAME;
    IgnoreFileIsCarried();
    if p in producer && Kept(rules, p, producer[p]) {
      assert p in HashedContent(rules, producer);
      assert Arrives(p, producer[p], agent) && Carried(p, producer[p], agent[p]);
    } else {
      assert p in producer ==> AsDir(producer[p]);
      assert p in agent ==> !Kept(rules, p, agent[p]);
    }
  }

  /** Both sides declare the same patterns, the ignore file's own CRLF checkout included. */
  lemma SamePatterns(producer: LeafMap, agent: LeafMap, rules: IgnoreRules)
    requires ArrivesAs(rules, producer, agent)
    requires RulesFor(rules, producer) && Reproducible(rules, producer)
    ensures RulesFor(rules, agent)
  {
    IgnoreFileArrives(rules, producer, agent);
    var text := IgnoreFileText(producer);
    if text.Some? {
      CrlfDeclaresTheSame(text.value);
    }
    assert PatternsFor(agent) == PatternsFor(producer);
  }

  /** Whatever a run left at the paths it rewrites, a list that misses none of
      them excludes it. */
  lemma RunLeftoversExcluded(rules: IgnoreRules, m: LeafMap, path: string, node: Node)
    requires RulesFor(rules, m) && rules.missingRunRewritten == []
    requires UnderRunRewritten(path).Some? && RunLeaves(path, node)
    ensures !Kept(rules, path, node)
  {
    RunRewrittenPlaces(path);
    CoversAll(rules, m);
    IgnoreFileIsCarried();
    if Beneath(path, NODE_MODULES) {
      ExcludedBeneath(Rules(rules.patterns), NODE_MODULES, path, AsDir(node));
    }
    assert Excluded(Rules(rules.patterns), path, AsDir(node));
    assert path != IGNORE_FILENAME;
  }

  lemma CoversAll(rules: IgnoreRules, m: LeafMap)
    requires RulesFor(rules, m) && rules.missingRunRewritten == []
    ensures var r := Rules(rules.patterns);
            Excluded(r, NODE_MODULES, true) && Excluded(r, NPMRC, false) && Excluded(r, PACKAGE_LOCK, false)
  {
    var t := RUN_REWRITTEN_PATHS;
    NoTrailingSlash();
    assert t[0] in t && t[1] in t && t[2] in t;
    assert t[0][..|t[0]| - 1] == NODE_MODULES && t[0][|t[0]| - 1..] == "/";
  }

  /** A hashed leaf the tarball carries is hashed on the agent, with its text. */
  lemma HashedArrives(producer: LeafMap, agent: LeafMap, rules: IgnoreRules, p: string)
    requires ArrivesAs(rules, producer, agent) && Reproducible(rules, producer)
    requires p in HashedContent(rules, producer) && !TarOmits(p)
    ensures p in HashedContent(rules, agent) && HashedContent(rules, agent)[p] == HashedContent(rules, producer)[p]
  {
    assert UnderRunRewritten(p).None?;
    assert Arrives(p, producer[p], agent) && Carried(p, producer[p], agent[p]);
    CarriedContribution(p, producer[p], agent[p]);
  }

  /** What the agent hashes, the compiler hashed. */
  lemma AgentHashedBefore(producer: LeafMap, agent: LeafMap, rules: IgnoreRules, p: string)
    requires ArrivesAs(rules, producer, agent) && RulesFor(rules, agent) && rules.missingRunRewritten == []
    requires p in HashedContent(rules, agent)
    ensures p in HashedContent(rules, producer) && !TarOmits(p)
  {
    assert UnderRunRewritten(p).Some? ==> RunLeaves(p, agent[p]);
    if UnderRunRewritten(p).Some? {
      RunLeftoversExcluded(rules, agent, p, agent[p]);
      assert false;
    }
  }

  /** What the agent hashes is what the compiler hashed, less what the tarball's
      prefix test dropped. */
  lemma AgentContent(producer: LeafMap, agent: LeafMap, rules: IgnoreRules)
    requires ArrivesAs(rules, producer, agent)
    requires RulesFor(rules, producer) && rules.missingRunRewritten == []
    requires Reproducible(rules, producer)
    ensures forall p :: p in HashedContent(rules, agent) <==> p in HashedContent(rules, producer) && !TarOmits(p)
    ensures forall p | p in HashedContent(rules, agent) ::
              HashedContent(rules, agent)[p] == HashedContent(rules, producer)[p]
  {
    SamePatterns(producer, agent, rules);
    forall p | p in HashedContent(rules, producer) && !TarOmits(p)
      ensures p in HashedContent(rules, agent) && HashedContent(rules, agent)[p] == HashedContent(rules, producer)[p]
    {
      HashedArrives(producer, agent, rules, p);
    }
    forall p | p in HashedContent(rules, agent) ensures p in HashedContent(rules, producer) && !TarOmits(p) {
      AgentHashedBefore(producer, agent, rules, p);
    }
  }

  /** The agreement the digest exists for, and its exact limit. When the patterns
      miss no run-rewritten path and the compiler has nothing to warn about, the
      agent reproduces the hash input if and only if no hashed path starts with
      the text the tarball filters on. */
  lemma AgreementIff(producer: LeafMap, agent: LeafMap, rules: IgnoreRules, x: string, y: string)
    requires ArrivesAs(rules, producer, agent)
    requires RulesFor(rules, producer) && rules.missingRunRewritten == []
    requires Reproducible(rules, producer)
    requires HashInput(producer, x) && HashInput(agent, y)
    ensures x == y <==> forall p | p in HashedContent(rules, producer) :: !TarOmits(p)
  {
    AgentContent(producer, agent, rules);
    SamePatterns(producer, agent, rules);
    if p :| p in HashedContent(rules, producer) && TarOmits(p) {
      LessContentOtherInput(producer, agent, rules, rules, x, y, p);
    } else {
      MapsEqual(HashedContent(rules, producer), HashedContent(rules, agent));
      SameContentSameInput(producer, agent, rules, rules, x, y);
    }
  }

  /** The same, read off what the compiler reports: nothing missing and an empty
      warning list. */
  lemma SilenceMeansAgreementIff(
      producer: LeafMap, agent: LeafMap, rules: IgnoreRules, warnings: seq<Warning>, x: string, y: string)
    requires ArrivesAs(rules, producer, agent)
    requires RulesFor(rules, producer) && rules.missingRunRewritten == []
    requires WarnsOf(rules, producer, warnings) && warnings == []
    requires HashInput(producer, x) && HashInput(agent, y)
    ensures x == y <==> forall p | p in HashedContent(rules, producer) :: !TarOmits(p)
  {
    NoWarningsMeansReproducible(rules, producer, warnings);
    AgreementIff(producer, agent, rules, x, y);
  }

  // ----- A routine run.

  /** Where a routine run may leave its marks when the default patterns stand: the
      paths the install rewrites, the lock file, written after hashing, and the
      generated types, which no clone has. */
  predicate RunMayTouch(path: string) {
    UnderRunRewritten(path).Some? || path == KICI_LOCK || path == PNPM_LOCK || Beneath(path, TYPES)
  }

  lemma UntouchedByRules(rules: IgnoreRules, m: LeafMap, path: string, node: Node)
    requires RulesFor(rules, m) && rules.patterns == DIGEST_DEFAULT_EXCLUSIONS && rules.missingRunRewritten == []
    requires RunMayTouch(path) && (UnderRunRewritten(path).Some? ==> RunLeaves(path, node))
    ensures !Kept(rules, path, node)
  {
    if UnderRunRewritten(path).Some? {
      RunLeftoversExcluded(rules, m, path, node);
    } else {
      DefaultsExclude(path, AsDir(node));
      assert IGNORE_FILENAME[0] == '.' && KICI_LOCK[0] == 'k' && PNPM_LOCK[0] == 'p' && (TYPES + "/")[0] == 't';
    }
  }

  lemma DefaultsExclude(path: string, isDir: bool)
    requires path == KICI_LOCK || path == PNPM_LOCK || Beneath(path, TYPES)
    ensures Excluded(Rules(DIGEST_DEFAULT_EXCLUSIONS), path, isDir)
  {
    var rules := DEFAULT_RULES;
    DefaultRules();
    DefaultRulesPlain();
    assert rules[1] in rules && rules[4] in rules && rules[5] in rules;
    if Beneath(path, TYPES) {
      PlainTypes();
      PlainTopLevelVerdict(rules, TYPES, true);
      ExcludedBeneath(rules, TYPES, path, isDir);
    } else {
      PlainPnpmLock();
      PlainKiciLock();
      PlainTopLevelVerdict(rules, path, isDir);
    }
  }

  /** Two trees before and after a routine run. */
  ghost predicate RoutineRun(producer: LeafMap, agent: LeafMap) {
    && (forall p | p in producer :: !producer[p].Dir?)
    && (forall p | p in producer && UnderRunRewritten(p).Some? :: RunLeaves(p, producer[p]))
    && (forall p | p in agent && UnderRunRewritten(p).Some? :: RunLeaves(p, agent[p]))
    && (forall p | p in agent && !RunMayTouch(p) :: p in producer)
    && (forall p | p in producer && !RunMayTouch(p) ::
          && !TarOmits(p)
          && (producer[p].Link? ==> SymlinkPackFault(MEMBER_PREFIX + p, producer[p].target).None?)
          && p in agent && Carried(p, producer[p], agent[p]))
  }

  lemma RoutineRunArrives(rules: IgnoreRules, producer: LeafMap, agent: LeafMap)
    requires RoutineRun(producer, agent) && RulesFor(rules, producer)
    requires rules.patterns == DIGEST_DEFAULT_EXCLUSIONS && rules.missingRunRewritten == []
    ensures Reproducible(rules, producer) && ArrivesAs(rules, producer, agent)
    ensures forall p | p in HashedContent(rules, producer) :: !TarOmits(p)
  {
    forall p | p in producer && Kept(rules, p, producer[p]) ensures !RunMayTouch(p) {
      if RunMayTouch(p) { UntouchedByRules(rules, producer, p, producer[p]); }
    }
    forall p | p in agent && Kept(rules, p, agent[p])
      ensures p in producer && !TarOmits(p) && UnderRunRewritten(p).None? && Kept(rules, p, producer[p])
    {
      if RunMayTouch(p) { UntouchedByRules(rules, producer, p, agent[p]); }
      CarriedContribution(p, producer[p], agent[p]);
    }
  }

  /** With no ignore file the digest survives a routine run: whatever became of the
      types, the lock files, `.npmrc` and the installed modules, the agent computes
      the compiler's hash input. */
  lemma RoutineRunAgrees(producer: LeafMap, agent: LeafMap, x: string, y: string)
    requires IGNORE_FILENAME !in producer
    requires RoutineRun(producer, agent)
    requires HashInput(producer, x) && HashInput(agent, y)
    ensures x == y
  {
    DefaultsStand(producer);
    RoutineRunArrives(DEFAULTS, producer, agent);
    AgreementIff(producer, agent, DEFAULTS, x, y);
  }

  /** A file at the top level that only the tar filter takes for a run's. */
  ghost predicate MistakenForModules(name: string) {
    && '/' !in name && TarOmits(name) && UnderRunRewritten(name).None?
    && forall r | r in DEFAULT_RULES :: r.body != name
  }

  lemma MistakenFileIsLost(rules: IgnoreRules, name: string, text: string)
    requires MistakenForModules(name) && name != IGNORE_FILENAME
    requires RulesFor(rules, map[name := File(Some(text))])
    ensures var producer: LeafMap := map[name := File(Some(text))];
            && rules.missingRunRewritten == []
            && Reproducible(rules, producer)
            && ArrivesAs(rules, producer, map[])
            && name in HashedContent(rules, producer)
  {
    DefaultsMissNothing(rules);
    PlainNameKept(rules, name);
  }

  /** The limit is real: a file whose name merely begins with `node_modules` is
      hashed, earns no warning, and never reaches the agent. */
  lemma PrefixTestLosesAFile(rules: IgnoreRules)
    requires RulesFor(rules, map["node_modules.md" := File(Some("notes"))])
    ensures var producer: LeafMap := map["node_modules.md" := File(Some("notes"))];
            && rules.missingRunRewritten == []
            && Reproducible(rules, producer)
            && ArrivesAs(rules, producer, map[])
            && "node_modules.md" in HashedContent(rules, producer) && TarOmits("node_modules.md")
  {
    OddName();
    MistakenFileIsLost(rules, "node_modules.md", "notes");
  }

  /** So with no warning given, the two sides compute different hashes. */
  lemma PrefixTestBreaksAgreement(rules: IgnoreRules, warnings: seq<Warning>, x: string, y: string)
    requires RulesFor(rules, map["node_modules.md" := File(Some("notes"))])
    requires WarnsOf(rules, map["node_modules.md" := File(Some("notes"))], warnings)
    requires HashInput(map["node_modules.md" := File(Some("notes"))], x) && HashInput(map[], y)
    ensures rules.missingRunRewritten == [] && warnings == [] && x != y
  {
    var producer: LeafMap := map["node_modules.md" := File(Some("notes"))];
    PrefixTestLosesAFile(rules);
    NoWarningsMeansReproducible(rules, producer, warnings);
    AgreementIff(producer, map[], rules, x, y);
  }

  /** The name used in the counterexample: none of the listed ones, but it
      starts like one. */
  lemma OddName()
    ensures '/' !in "node_modules.md" && TarOmits("node_modules.md") && UnderRunRewritten("node_modules.md").None?
    ensures "node_modules.md" != IGNORE_FILENAME
    ensures forall r | r in DEFAULT_RULES :: r.body != "node_modules.md"
  {
    var name := "node_modules.md";
    RunRewrittenPlaces(name);
    assert name == NODE_MODULES + ".md" && name[0] != IGNORE_FILENAME[0];
    assert MEMBER_PREFIX + name == TAR_EXCLUDED_PREFIX + ".md";
    assert (NODE_MODULES + ".md")[|NODE_MODULES|] == '.' && (NODE_MODULES + "/")[|NODE_MODULES|] == '/';
    assert name[0] == 'n' && NPMRC[0] == '.' && TYPES[0] == 't' && PACKAGE_LOCK[0] == 'p' && PNPM_LOCK[0] == 'p'
        && KICI_LOCK[0] == 'k' && |NODE_MODULES| == 12 && |name| == 15;
  }
}
