/** The digest's hash input: which rules a tree picks for itself, what each
    member contributes, how the contributions are laid end to end, and when two
    trees give the same input. SHA-256 itself is a parameter. */
module SourceDigest {
  import opened Strings
  import opened LineEndings
  import opened KiciIgnore
  import opened SourceTree

  // ----- Rules.

  /** `readFile(.kici/.kiciignore)`, which follows a link; None when it fails. */
  function IgnoreFileText(m: LeafMap): Option<string> {
    if IGNORE_FILENAME !in m then None
    else
      match m[IGNORE_FILENAME]
      case File(text) => text
      case Link(_, ToFile(text)) => Some(text)
      case _ => None
  }

  /** A readable file is the whole list; otherwise the defaults stand. */
  function PatternsFor(m: LeafMap): seq<string> {
    match IgnoreFileText(m)
    case Some(text) => Patterns(text)
    case None => DIGEST_DEFAULT_EXCLUSIONS
  }

  /** `rules` are the ones the tree declares for itself. */
  ghost predicate RulesFor(rules: IgnoreRules, m: LeafMap) {
    && rules.fromFile == IgnoreFileText(m).Some?
    && rules.patterns == PatternsFor(m)
    && rules.forced == DIGEST_FORCED_EXCLUSIONS
    && (forall t :: t in rules.missingRunRewritten <==> t in RUN_REWRITTEN_PATHS && !Covers(Rules(rules.patterns), t))
    && Sorted(rules.missingRunRewritten)
    && (forall t :: multiset(rules.missingRunRewritten)[t] <= 1)
  }

  /** Only a hand-written file is asked what it misses; the defaults miss nothing. */
  method LoadKiciIgnoreRules(tree: seq<Entry>) returns (rules: IgnoreRules)
    ensures RulesFor(rules, LeavesOf(tree))
  {
    var patterns, fromFile := DIGEST_DEFAULT_EXCLUSIONS, false;
    var content := IgnoreFileText(LeavesOf(tree));
    if content.Some? {
      patterns := ParseKiciIgnore(content.value);
      fromFile := true;
    }
    var missing: seq<string> := [];
    if fromFile {
      missing := FindUncoveredRunRewrittenPaths(patterns);
    } else {
      forall t | t in RUN_REWRITTEN_PATHS ensures Covers(Rules(patterns), t) {
        DefaultsCoverRunRewritten(t);
      }
    }
    rules := IgnoreRules(fromFile, patterns, DIGEST_FORCED_EXCLUSIONS, missing);
  }

  // ----- The hash input.

  /** What a member adds: a link its target, a file its text, a failed read nothing. */
  function Contribution(node: Node): string {
    match node
    case Link(target, _) => "symlink:" + target
    case File(Some(text)) => text
    case _ => ""
  }

  function PathOf(member: string): string {
    if StartsWith(member, MEMBER_PREFIX) then member[|MEMBER_PREFIX|..] else member
  }

  /** A member with the normalized text hashed for it. */
  function Hashed(m: LeafMap, member: string): (string, string) {
    (member, if PathOf(member) in m then Normalize(Contribution(m[PathOf(member)])) else "")
  }

  /** `name\0content\0`. */
  function Piece(part: (string, string)): string {
    part.0 + "\0" + part.1 + "\0"
  }

  /** The pieces, end to end. */
  function Encode(parts: seq<(string, string)>): string {
    if parts == [] then "" else Encode(parts[..|parts| - 1]) + Piece(parts[|parts| - 1])
  }

  function Parts(m: LeafMap, members: seq<string>): (parts: seq<(string, string)>)
    ensures |parts| == |members|
    ensures forall i | 0 <= i < |members| :: parts[i] == Hashed(m, members[i])
  {
    seq(|members|, i requires 0 <= i < |members| => Hashed(m, members[i]))
  }

  /** What a tree feeds to the hash, as a relation: it depends on the tree only
      through its map of leaves, so neither reading order nor empty directories
      reach it. */
  ghost predicate HashInput(m: LeafMap, input: string) {
    exists rules, members ::
      RulesFor(rules, m) && Lists(members, MemberSet(rules, m)) && input == Encode(Parts(m, members))
  }

  /** SHA-256 over the tree's hash input; the empty string for a missing directory. */
  method HashKiciSourceTree(kiciDir: Option<seq<Entry>>, sha256: string -> string) returns (hash: string)
    requires kiciDir.Some? ==> ValidTree(kiciDir.value)
    ensures kiciDir.None? ==> hash == ""
    ensures kiciDir.Some? ==> exists input :: HashInput(LeavesOf(kiciDir.value), input) && hash == sha256(input)
  {
    if kiciDir.None? { return ""; }
    var tree := kiciDir.value;
    var rules := LoadKiciIgnoreRules(tree);
    var members := CollectSourcePaths(tree, rules);
    var disk := LeavesOf(tree);
    var text := MemberText(disk, members);
    hash := sha256(text);
    InputOf(rules, disk, members);
  }

  /** The loop over the members: each read and laid out, then joined. */
  method MemberText(disk: LeafMap, members: seq<string>) returns (text: string)
    ensures text == Encode(Parts(disk, members))
  {
    var parts: seq<string> := [];
    ghost var all := Parts(disk, members);
    for i := 0 to |members|
      invariant Concatenated(parts) == Encode(all[..i])
    {
      var part := MemberPart(disk, members[i]);
      ConcatenatedNext(parts, part);
      assert all[..i + 1][..i] == all[..i];
      parts := parts + [part];
    }
    assert all[..|members|] == all;
    text := Concatenated(parts);
  }

  lemma ConcatenatedNext(parts: seq<string>, part: string)
    ensures Concatenated(parts + [part]) == Concatenated(parts) + part
  {
    assert (parts + [part])[..|parts|] == parts;
  }

  /** The body of the loop: one member read and laid out. */
  method MemberPart(disk: LeafMap, member: string) returns (part: string)
    ensures part == Piece(Hashed(disk, member))
  {
    var content := if PathOf(member) in disk then Contribution(disk[PathOf(member)]) else "";
    part := member + "\0" + Normalize(content) + "\0";
    NormalizeEmpty();
  }

  lemma NormalizeEmpty()
    ensures Normalize("") == ""
  {
  }

  /** `parts.join('')`. */
  function Concatenated(parts: seq<string>): string {
    if parts == [] then "" else Concatenated(parts[..|parts| - 1]) + parts[|parts| - 1]
  }

  // ----- One input per tree.

  lemma RulesUnique(a: IgnoreRules, b: IgnoreRules, m: LeafMap)
    requires RulesFor(a, m) && RulesFor(b, m)
    ensures a == b
  {
    forall t ensures multiset(a.missingRunRewritten)[t] == multiset(b.missingRunRewritten)[t] {
      assert t in a.missingRunRewritten <==> t in b.missingRunRewritten;
    }
    SortedUnique(a.missingRunRewritten, b.missingRunRewritten);
  }

  lemma HashInputUnique(m: LeafMap, a: string, b: string)
    requires HashInput(m, a) && HashInput(m, b)
    ensures a == b
  {
    var ra, ma :| RulesFor(ra, m) && Lists(ma, MemberSet(ra, m)) && a == Encode(Parts(m, ma));
    var rb, mb :| RulesFor(rb, m) && Lists(mb, MemberSet(rb, m)) && b == Encode(Parts(m, mb));
    RulesUnique(ra, rb, m);
    ListsUnique(ma, mb, MemberSet(ra, m));
  }

  // ----- The encoding is uniquely decodable.

  predicate NulFree(s: string) {
    '\0' !in s
  }

  /** A delimiter and the start of a member name, as they follow each other in the
      encoding. */
  const NEXT_MEMBER := "\0" + MEMBER_PREFIX

  /** A text inside which no next member seems to begin. */
  predicate Sealed(text: string) {
    forall i | 0 <= i <= |text| :: !StartsWith(text[i..], NEXT_MEMBER)
  }

  lemma NulFreeIsSealed(text: string)
    ensures NulFree(text) ==> Sealed(text)
  {
    if i :| 0 <= i <= |text| && StartsWith(text[i..], NEXT_MEMBER) {
      assert NEXT_MEMBER[0] == '\0' && text[i..][..|NEXT_MEMBER|] == NEXT_MEMBER;
      assert text[i] == text[i..][0] == '\0';
    }
  }

  predicate MemberName(name: string) {
    StartsWith(name, MEMBER_PREFIX) && NulFree(name)
  }

  predicate SealedParts(parts: seq<(string, string)>) {
    forall i | 0 <= i < |parts| :: MemberName(parts[i].0) && Sealed(parts[i].1)
  }

  lemma {:induction false} EncodeFront(parts: seq<(string, string)>)
    requires parts != []
    ensures Encode(parts) == Piece(parts[0]) + Encode(parts[1..])
  {
    var n := |parts| - 1;
    if n == 0 {
      assert parts[..0] == [] && parts[1..] == [];
    } else {
      EncodeFront(parts[..n]);
      var rest := parts[1..];
      assert parts[..n][1..] == rest[..n - 1] && rest[n - 1] == parts[n];
      Associates(Piece(parts[0]), Encode(rest[..n - 1]), Piece(parts[n]));
    }
  }

  lemma Associates(a: string, b: string, c: string)
    ensures (a + b) + c == a + (b + c)
  {
  }

  lemma PieceThen(part: (string, string), rest: string)
    ensures Piece(part) + rest == part.0 + "\0" + (part.1 + "\0" + rest)
  {
  }

  /** A name ends at the first NUL. */
  lemma NameEnds(a: string, b: string, restA: string, restB: string)
    requires NulFree(a) && NulFree(b) && a + "\0" + restA == b + "\0" + restB
    ensures a == b && restA == restB
  {
    var text := a + "\0" + restA;
    Cut(a, restA);
    Cut(b, restB);
    assert forall k | 0 <= k < |a| :: text[k] == a[k] != '\0';
    assert forall k | 0 <= k < |b| :: text[k] == b[k] != '\0';
  }

  /** What can follow a text: nothing, or the next member. */
  predicate Follows(rest: string) {
    rest == "" || StartsWith(rest, MEMBER_PREFIX)
  }

  lemma Cut(a: string, rest: string)
    ensures var text := a + "\0" + rest;
            |text| == |a| + 1 + |rest| && text[..|a|] == a && text[|a|] == '\0' && text[|a| + 1..] == rest
  {
  }

  lemma PrefixIsNulFree(rest: string)
    requires StartsWith(rest, MEMBER_PREFIX)
    ensures forall k | 0 <= k < |MEMBER_PREFIX| :: rest[k] == MEMBER_PREFIX[k] != '\0'
  {
    assert NulFree(MEMBER_PREFIX) && rest[..|MEMBER_PREFIX|] == MEMBER_PREFIX;
  }

  /** A delimiter that a member follows: the next NUL is past that member's prefix. */
  lemma MarkBefore(text: string, n: nat, m: nat)
    requires n < m < |text| && text[n] == '\0' && text[m] == '\0' && Follows(text[n + 1..])
    ensures n + |NEXT_MEMBER| <= m && StartsWith(text[n..m], NEXT_MEMBER)
  {
    var rest := text[n + 1..];
    PrefixIsNulFree(rest);
    assert forall k | 0 <= k < |MEMBER_PREFIX| :: text[n + 1 + k] == rest[k];
    assert rest[m - n - 1] == '\0';
    assert text[n..m][..|NEXT_MEMBER|] == NEXT_MEMBER;
  }

  /** If one text ends before the other, the next member begins inside the longer one. */
  lemma LongerIsUnsealed(a: string, b: string, restA: string, restB: string)
    requires a + "\0" + restA == b + "\0" + restB
    requires Follows(restA) && |a| < |b|
    ensures !Sealed(b)
  {
    var text := a + "\0" + restA;
    Cut(a, restA);
    Cut(b, restB);
    MarkBefore(text, |a|, |b|);
    assert b[|a|..] == text[|a|..|b|];
  }

  lemma TextEnds(a: string, b: string, restA: string, restB: string)
    requires a + "\0" + restA == b + "\0" + restB
    requires Sealed(a) && Sealed(b) && Follows(restA) && Follows(restB)
    ensures a == b && restA == restB
  {
    if |a| < |b| { LongerIsUnsealed(a, b, restA, restB); }
    if |b| < |a| { LongerIsUnsealed(b, a, restB, restA); }
    Cut(a, restA);
    Cut(b, restB);
  }

  lemma EncodeFollows(parts: seq<(string, string)>)
    requires SealedParts(parts)
    ensures Follows(Encode(parts)) && (Encode(parts) == "" <==> parts == [])
  {
    if parts != [] {
      EncodeFront(parts);
      PieceThen(parts[0], Encode(parts[1..]));
      assert MemberName(parts[0].0);
      assert Encode(parts)[..|MEMBER_PREFIX|] == parts[0].0[..|MEMBER_PREFIX|];
    }
  }

  /** Members whose texts are sealed encode alike exactly when they are the same. */
  lemma {:induction false} EncodeDetermines(a: seq<(string, string)>, b: seq<(string, string)>)
    requires SealedParts(a) && SealedParts(b)
    ensures Encode(a) == Encode(b) <==> a == b
  {
    EncodeFollows(a);
    EncodeFollows(b);
    if Encode(a) == Encode(b) && a != [] {
      var moreA, moreB := a[1..], b[1..];
      EncodeFront(a);
      EncodeFront(b);
      PieceThen(a[0], Encode(moreA));
      PieceThen(b[0], Encode(moreB));
      assert MemberName(a[0].0) && MemberName(b[0].0) && Sealed(a[0].1) && Sealed(b[0].1);
      NameEnds(a[0].0, b[0].0, a[0].1 + "\0" + Encode(moreA), b[0].1 + "\0" + Encode(moreB));
      EncodeFollows(moreA);
      EncodeFollows(moreB);
      TextEnds(a[0].1, b[0].1, Encode(moreA), Encode(moreB));
      EncodeDetermines(moreA, moreB);
      assert a == [a[0]] + moreA && b == [b[0]] + moreB;
    }
  }

  // ----- Fewer members encode shorter, whatever their texts hold.

  lemma {:induction false} EncodeWithout(parts: seq<(string, string)>, i: nat)
    requires i < |parts|
    ensures |Encode(parts)| == |Encode(parts[..i] + parts[i + 1..])| + |Piece(parts[i])|
  {
    var n := |parts| - 1;
    var rest := parts[..i] + parts[i + 1..];
    if i == n {
      assert rest == parts[..n];
    } else {
      EncodeWithout(parts[..n], i);
      assert parts[..n][..i] + parts[..n][i + 1..] == rest[..|rest| - 1];
      assert rest[|rest| - 1] == parts[n];
    }
  }

  ghost predicate Distinct<T>(xs: seq<T>) {
    forall i, j | 0 <= i < j < |xs| :: xs[i] != xs[j]
  }

  lemma OthersRemain<T>(xs: seq<T>, i: nat, x: T)
    requires i < |xs| && x in xs && x != xs[i]
    ensures x in xs[..i] + xs[i + 1..]
  {
    assert xs == xs[..i] + [xs[i]] + xs[i + 1..];
  }

  /** Leaving a part out makes the encoding shorter. */
  lemma {:induction false} FewerEncodeShorter(few: seq<(string, string)>, all: seq<(string, string)>, left: (string, string))
    requires Distinct(few) && (forall x | x in few :: x in all)
    requires left in all && left !in few
    ensures |Encode(few)| < |Encode(all)|
  {
    if few == [] {
      assert |Piece(all[|all| - 1])| > 0;
    } else {
      var n := |few| - 1;
      assert few[n] in few;
      var i :| 0 <= i < |all| && all[i] == few[n];
      var others := all[..i] + all[i + 1..];
      OthersRemain(all, i, left);
      forall x | x in few[..n] ensures x in others {
        assert x in few && x != few[n];
        OthersRemain(all, i, x);
      }
      FewerEncodeShorter(few[..n], others, left);
      EncodeWithout(all, i);
    }
  }

  /** A NUL inside one text can stand for a delimiter: one part reads as two. */
  lemma NulsAreAmbiguous(p: string, x: string, q: string, y: string)
    ensures Encode([(p, x + "\0" + q + "\0" + y)]) == Encode([(p, x), (q, y)])
  {
    var one, two := [(p, x + "\0" + q + "\0" + y)], [(p, x), (q, y)];
    assert one[..0] == [] && two[..1] == [two[0]] && [two[0]][..0] == [];
    var last := p + "\0" + (x + "\0" + q + "\0" + y) + "\0";
    assert Encode(one) == Encode(one[..0]) + last;
    assert Encode([two[0]]) == Encode([two[0]][..0]) + (p + "\0" + x + "\0");
    assert Encode(two) == Encode([two[0]]) + (q + "\0" + y + "\0");
    assert last == (p + "\0" + x + "\0") + (q + "\0" + y + "\0");
  }

  // ----- Two trees agree exactly when their hashed contents do.

  /** The hashed part of a tree: each member's path with its normalized contribution. */
  ghost function HashedContent(rules: IgnoreRules, m: LeafMap): map<string, string> {
    map p | p in m && Kept(rules, p, m[p]) :: Normalize(Contribution(m[p]))
  }

  /** No path holds a NUL, as none can, and inside no hashed text a next member
      seems to begin. */
  ghost predicate SealedTree(rules: IgnoreRules, m: LeafMap) {
    forall p | p in HashedContent(rules, m) :: NulFree(p) && Sealed(HashedContent(rules, m)[p])
  }

  lemma MembersOfContent(rules: IgnoreRules, m: LeafMap, members: seq<string>)
    requires Lists(members, MemberSet(rules, m))
    ensures forall x :: x in members <==> StartsWith(x, MEMBER_PREFIX) && PathOf(x) in HashedContent(rules, m)
    ensures forall i | 0 <= i < |members| ::
              PathOf(members[i]) in HashedContent(rules, m)
              && Parts(m, members)[i] == (members[i], HashedContent(rules, m)[PathOf(members[i])])
  {
    forall x ensures x in members <==> StartsWith(x, MEMBER_PREFIX) && PathOf(x) in HashedContent(rules, m) {
      assert x in members <==> x in multiset(members);
      if StartsWith(x, MEMBER_PREFIX) {
        assert x == MEMBER_PREFIX + PathOf(x);
      }
    }
    assert forall i | 0 <= i < |members| :: members[i] in members;
  }

  lemma PathMember(p: string)
    ensures StartsWith(MEMBER_PREFIX + p, MEMBER_PREFIX) && PathOf(MEMBER_PREFIX + p) == p
  {
    assert (MEMBER_PREFIX + p)[|MEMBER_PREFIX|..] == p;
  }

  /** Equal contents list equal members. */
  lemma SameContentSameMembers(ra: IgnoreRules, a: LeafMap, rb: IgnoreRules, b: LeafMap)
    requires HashedContent(ra, a) == HashedContent(rb, b)
    ensures MemberSet(ra, a) == MemberSet(rb, b)
  {
    forall x | x in MemberSet(ra, a) ensures x in MemberSet(rb, b) {
      var p :| p in a && Kept(ra, p, a[p]) && x == MEMBER_PREFIX + p;
      assert p in HashedContent(rb, b);
    }
    forall x | x in MemberSet(rb, b) ensures x in MemberSet(ra, a) {
      var p :| p in b && Kept(rb, p, b[p]) && x == MEMBER_PREFIX + p;
      assert p in HashedContent(ra, a);
    }
  }

  lemma TheListing(rules: IgnoreRules, m: LeafMap, input: string) returns (members: seq<string>)
    requires RulesFor(rules, m) && HashInput(m, input)
    ensures Lists(members, MemberSet(rules, m)) && input == Encode(Parts(m, members))
  {
    var rules', members' :| RulesFor(rules', m) && Lists(members', MemberSet(rules', m)) && input == Encode(Parts(m, members'));
    RulesUnique(rules, rules', m);
    members := members';
  }

  lemma SameContentSameInput(a: LeafMap, b: LeafMap, ra: IgnoreRules, rb: IgnoreRules, x: string, y: string)
    requires RulesFor(ra, a) && RulesFor(rb, b)
    requires HashInput(a, x) && HashInput(b, y)
    requires HashedContent(ra, a) == HashedContent(rb, b)
    ensures x == y
  {
    var ma := TheListing(ra, a, x);
    var mb := TheListing(rb, b, y);
    SameContentSameMembers(ra, a, rb, b);
    ListsUnique(ma, mb, MemberSet(ra, a));
    MembersOfContent(ra, a, ma);
    MembersOfContent(rb, b, mb);
    assert Parts(a, ma) == Parts(b, mb);
  }

  lemma SameInputSameContent(a: LeafMap, b: LeafMap, ra: IgnoreRules, rb: IgnoreRules, x: string)
    requires RulesFor(ra, a) && RulesFor(rb, b)
    requires HashInput(a, x) && HashInput(b, x)
    requires SealedTree(ra, a) && SealedTree(rb, b)
    ensures HashedContent(ra, a) == HashedContent(rb, b)
  {
    var ma := TheListing(ra, a, x);
    var mb := TheListing(rb, b, x);
    SealedMembers(ra, a, ma);
    SealedMembers(rb, b, mb);
    EncodeDetermines(Parts(a, ma), Parts(b, mb));
    SamePartsSameContent(ra, a, ma, rb, b, mb);
    SamePartsSameContent(rb, b, mb, ra, a, ma);
    MapsEqual(HashedContent(ra, a), HashedContent(rb, b));
  }

  /** For sealed trees the hash input is a faithful name for the hashed content. */
  lemma InputIffContent(a: LeafMap, b: LeafMap, ra: IgnoreRules, rb: IgnoreRules, x: string, y: string)
    requires RulesFor(ra, a) && RulesFor(rb, b)
    requires HashInput(a, x) && HashInput(b, y)
    requires SealedTree(ra, a) && SealedTree(rb, b)
    ensures x == y <==> HashedContent(ra, a) == HashedContent(rb, b)
  {
    if x == y {
      SameInputSameContent(a, b, ra, rb, x);
    } else if HashedContent(ra, a) == HashedContent(rb, b) {
      SameContentSameInput(a, b, ra, rb, x, y);
    }
  }

  lemma ListedDistinct(xs: seq<string>, s: set<string>)
    requires Lists(xs, s)
    ensures Distinct(xs)
  {
    forall i, j | 0 <= i < j < |xs| ensures xs[i] != xs[j] {
      assert multiset(s)[xs[i]] <= 1;
      assert xs == xs[..j] + [xs[j]] + xs[j + 1..];
      assert xs[..j][i] == xs[i] && xs[i] in multiset(xs[..j]);
    }
  }

  lemma PartsDistinct(rules: IgnoreRules, m: LeafMap, members: seq<string>)
    requires Lists(members, MemberSet(rules, m))
    ensures Distinct(Parts(m, members))
  {
    ListedDistinct(members, MemberSet(rules, m));
    forall i, j | 0 <= i < j < |members| ensures Parts(m, members)[i] != Parts(m, members)[j] {
      assert Parts(m, members)[i].0 == members[i] != members[j] == Parts(m, members)[j].0;
    }
  }

  /** The content of `b` is some of the content of `a`. */
  ghost predicate HashesLess(ra: IgnoreRules, a: LeafMap, rb: IgnoreRules, b: LeafMap) {
    forall p | p in HashedContent(rb, b) ::
      p in HashedContent(ra, a) && HashedContent(rb, b)[p] == HashedContent(ra, a)[p]
  }

  lemma PartsAmong(ra: IgnoreRules, a: LeafMap, ma: seq<string>, rb: IgnoreRules, b: LeafMap, mb: seq<string>, i: nat)
    requires Lists(ma, MemberSet(ra, a)) && Lists(mb, MemberSet(rb, b)) && HashesLess(ra, a, rb, b)
    requires i < |mb|
    ensures Parts(b, mb)[i] in Parts(a, ma)
  {
    MembersOfContent(rb, b, mb);
    assert mb[i] in mb;
    ListedPart(ra, a, ma, mb[i]);
  }

  lemma NotListed(rules: IgnoreRules, m: LeafMap, members: seq<string>, path: string, part: (string, string))
    requires Lists(members, MemberSet(rules, m)) && path !in HashedContent(rules, m)
    requires part.0 == MEMBER_PREFIX + path
    ensures part !in Parts(m, members)
  {
    MembersOfContent(rules, m, members);
    PathMember(path);
    assert forall i | 0 <= i < |members| :: members[i] in members && Parts(m, members)[i].0 == members[i];
  }

  /** A tree that hashes only some of what another hashes, with the same texts, has
      another input: a shorter one. */
  lemma LessContentOtherInput(
      a: LeafMap, b: LeafMap, ra: IgnoreRules, rb: IgnoreRules, x: string, y: string, lost: string)
    requires RulesFor(ra, a) && RulesFor(rb, b) && HashInput(a, x) && HashInput(b, y)
    requires HashesLess(ra, a, rb, b)
    requires lost in HashedContent(ra, a) && lost !in HashedContent(rb, b)
    ensures |y| < |x|
  {
    var ma := TheListing(ra, a, x);
    var mb := TheListing(rb, b, y);
    PartsDistinct(rb, b, mb);
    forall i | 0 <= i < |mb| ensures Parts(b, mb)[i] in Parts(a, ma) {
      PartsAmong(ra, a, ma, rb, b, mb, i);
    }
    PathMember(lost);
    ListedPart(ra, a, ma, MEMBER_PREFIX + lost);
    var part := Hashed(a, MEMBER_PREFIX + lost);
    NotListed(rb, b, mb, lost, part);
    FewerEncodeShorter(Parts(b, mb), Parts(a, ma), part);
  }

  lemma ListedPart(rules: IgnoreRules, m: LeafMap, members: seq<string>, member: string)
    requires Lists(members, MemberSet(rules, m)) && StartsWith(member, MEMBER_PREFIX)
    requires PathOf(member) in HashedContent(rules, m)
    ensures Hashed(m, member) == (member, HashedContent(rules, m)[PathOf(member)])
    ensures Hashed(m, member) in Parts(m, members)
  {
    MembersOfContent(rules, m, members);
    var i :| 0 <= i < |members| && members[i] == member;
    assert Parts(m, members)[i] == Hashed(m, member);
  }

  lemma MapsEqual(a: map<string, string>, b: map<string, string>)
    requires forall p | p in a :: p in b && a[p] == b[p]
    requires forall p | p in b :: p in a
    ensures a == b
  {
  }

  lemma SealedMembers(rules: IgnoreRules, m: LeafMap, members: seq<string>)
    requires Lists(members, MemberSet(rules, m)) && SealedTree(rules, m)
    ensures SealedParts(Parts(m, members))
  {
    MembersOfContent(rules, m, members);
    forall i | 0 <= i < |members| ensures MemberName(Parts(m, members)[i].0) && Sealed(Parts(m, members)[i].1) {
      var p := PathOf(members[i]);
      assert members[i] in members && members[i] == MEMBER_PREFIX + p;
      assert p in HashedContent(rules, m) && NulFree(p);
      assert NulFree(MEMBER_PREFIX);
    }
  }

  lemma SamePartsSameContent(ra: IgnoreRules, a: LeafMap, ma: seq<string>, rb: IgnoreRules, b: LeafMap, mb: seq<string>)
    requires Lists(ma, MemberSet(ra, a)) && Lists(mb, MemberSet(rb, b))
    requires Parts(a, ma) == Parts(b, mb)
    ensures forall p | p in HashedContent(ra, a) ::
              p in HashedContent(rb, b) && HashedContent(ra, a)[p] == HashedContent(rb, b)[p]
  {
    MembersOfContent(ra, a, ma);
    MembersOfContent(rb, b, mb);
    forall p | p in HashedContent(ra, a)
      ensures p in HashedContent(rb, b) && HashedContent(ra, a)[p] == HashedContent(rb, b)[p]
    {
      PathMember(p);
      var i :| 0 <= i < |ma| && ma[i] == MEMBER_PREFIX + p;
      assert Parts(a, ma)[i] == Parts(b, mb)[i];
    }
  }

  // ----- What one leaf adds.

  /** Every hashed text and link target is sealed, and no path holds a NUL. */
  ghost predicate PlainLeaves(m: LeafMap) {
    forall p | p in m ::
      && NulFree(p)
      && (m[p].File? && m[p].text.Some? ==> Sealed(Normalize(m[p].text.value)))
      && (m[p].Link? ==> Sealed(Normalize(m[p].target)))
  }

  lemma SealedAfter(plain: string, text: string)
    requires NulFree(plain) && Sealed(text)
    ensures Sealed(plain + text)
  {
    forall i | 0 <= i <= |plain + text| ensures !StartsWith((plain + text)[i..], NEXT_MEMBER) {
      assert NEXT_MEMBER[0] == '\0';
      if i < |plain| {
        assert (plain + text)[i] == plain[i] != '\0';
      } else {
        assert (plain + text)[i..] == text[i - |plain|..];
      }
    }
  }

  lemma NormalizedLink(target: string)
    ensures Normalize("symlink:" + target) == "symlink:" + Normalize(target)
    ensures Sealed(Normalize(target)) ==> Sealed("symlink:" + Normalize(target))
  {
    NormalizeConcat("symlink:", target);
    NormalizeWithoutCr("symlink:");
    if Sealed(Normalize(target)) { SealedAfter("symlink:", Normalize(target)); }
  }

  lemma PlainIsSealed(rules: IgnoreRules, m: LeafMap)
    requires PlainLeaves(m)
    ensures SealedTree(rules, m)
  {
    NormalizeEmpty();
    NulFreeIsSealed("");
    forall p | p in m ensures Sealed(Normalize(Contribution(m[p]))) {
      if m[p].Link? { NormalizedLink(m[p].target); }
    }
  }

  lemma SameRules(rules: IgnoreRules, m: LeafMap, p: string, a: Node, b: Node)
    requires p != IGNORE_FILENAME && RulesFor(rules, m[p := a])
    ensures RulesFor(rules, m[p := b])
  {
    assert IgnoreFileText(m[p := a]) == IgnoreFileText(m[p := b]);
  }

  lemma LeafHashedAlike(rules: IgnoreRules, m: LeafMap, p: string, a: Node, b: Node)
    requires Kept(rules, p, a) && Kept(rules, p, b) && Normalize(Contribution(a)) == Normalize(Contribution(b))
    ensures HashedContent(rules, m[p := a]) == HashedContent(rules, m[p := b])
  {
    MapsEqual(HashedContent(rules, m[p := a]), HashedContent(rules, m[p := b]));
  }

  lemma LeafHashedApart(rules: IgnoreRules, m: LeafMap, p: string, a: Node, b: Node)
    requires Kept(rules, p, a) && Kept(rules, p, b) && Normalize(Contribution(a)) != Normalize(Contribution(b))
    ensures HashedContent(rules, m[p := a]) != HashedContent(rules, m[p := b])
  {
    assert HashedContent(rules, m[p := a])[p] != HashedContent(rules, m[p := b])[p];
  }

  /** Two trees that differ in one kept leaf have one input if they hash it alike,
      and, their texts being sealed, only then. */
  lemma OneLeafDecides(rules: IgnoreRules, m: LeafMap, p: string, a: Node, b: Node, x: string, y: string)
    requires p != IGNORE_FILENAME && RulesFor(rules, m[p := a]) && Kept(rules, p, a) && Kept(rules, p, b)
    requires HashInput(m[p := a], x) && HashInput(m[p := b], y)
    ensures Normalize(Contribution(a)) == Normalize(Contribution(b)) ==> x == y
    ensures PlainLeaves(m[p := a]) && PlainLeaves(m[p := b]) && x == y ==>
              Normalize(Contribution(a)) == Normalize(Contribution(b))
  {
    SameRules(rules, m, p, a, b);
    if Normalize(Contribution(a)) == Normalize(Contribution(b)) {
      LeafHashedAlike(rules, m, p, a, b);
      SameContentSameInput(m[p := a], m[p := b], rules, rules, x, y);
    } else if PlainLeaves(m[p := a]) && PlainLeaves(m[p := b]) {
      PlainIsSealed(rules, m[p := a]);
      PlainIsSealed(rules, m[p := b]);
      LeafHashedApart(rules, m, p, a, b);
      InputIffContent(m[p := a], m[p := b], rules, rules, x, y);
    }
  }

  /** Repointing a link moves the input, and nothing else about the link does: not
      what it leads to. */
  lemma RepointingMovesTheInput(
      rules: IgnoreRules, m: LeafMap, p: string, t1: string, b1: Behind, t2: string, b2: Behind, x: string, y: string)
    requires p != IGNORE_FILENAME && RulesFor(rules, m[p := Link(t1, b1)])
    requires Kept(rules, p, Link(t1, b1)) && Kept(rules, p, Link(t2, b2))
    requires PlainLeaves(m[p := Link(t1, b1)]) && PlainLeaves(m[p := Link(t2, b2)])
    requires HashInput(m[p := Link(t1, b1)], x) && HashInput(m[p := Link(t2, b2)], y)
    ensures x == y <==> Normalize(t1) == Normalize(t2)
  {
    OneLeafDecides(rules, m, p, Link(t1, b1), Link(t2, b2), x, y);
    NormalizedLink(t1);
    NormalizedLink(t2);
    var n := |"symlink:"|;
    assert ("symlink:" + Normalize(t1))[n..] == Normalize(t1) && ("symlink:" + Normalize(t2))[n..] == Normalize(t2);
  }

  /** So does editing a file, line endings aside. */
  lemma EditingMovesTheInput(
      rules: IgnoreRules, m: LeafMap, p: string, t1: string, t2: string, x: string, y: string)
    requires p != IGNORE_FILENAME && RulesFor(rules, m[p := File(Some(t1))]) && Kept(rules, p, File(Some(t1)))
    requires PlainLeaves(m[p := File(Some(t1))]) && PlainLeaves(m[p := File(Some(t2))])
    requires HashInput(m[p := File(Some(t1))], x) && HashInput(m[p := File(Some(t2))], y)
    ensures x == y <==> Normalize(t1) == Normalize(t2)
  {
    OneLeafDecides(rules, m, p, File(Some(t1)), File(Some(t2)), x, y);
  }

  /** A link is hashed as the text `symlink:` and its target, and a file that cannot
      be read as an empty one. */
  lemma HashedAsText(rules: IgnoreRules, m: LeafMap, p: string, node: Node, text: string, x: string, y: string)
    requires p != IGNORE_FILENAME && RulesFor(rules, m[p := node]) && Kept(rules, p, node) && Kept(rules, p, File(Some(text)))
    requires if node.Link? then text == "symlink:" + node.target else node == File(None) && text == ""
    requires HashInput(m[p := node], x) && HashInput(m[p := File(Some(text))], y)
    ensures x == y
  {
    OneLeafDecides(rules, m, p, node, File(Some(text)), x, y);
  }

  /** The text at the root ignore file, read through a link if it is one, is the
      whole list; if there is none to read, the defaults are. */
  lemma DeclaredOrDefault(rules: IgnoreRules, m: LeafMap, text: string)
    requires RulesFor(rules, m)
    ensures IGNORE_FILENAME in m && (m[IGNORE_FILENAME] == File(Some(text))
              || (m[IGNORE_FILENAME].Link? && m[IGNORE_FILENAME].behind == ToFile(text))) ==>
              rules.fromFile && rules.patterns == Patterns(text)
    ensures IGNORE_FILENAME !in m || m[IGNORE_FILENAME].Dir? || m[IGNORE_FILENAME] == File(None)
              || (m[IGNORE_FILENAME].Link? && !m[IGNORE_FILENAME].behind.ToFile?) ==>
              !rules.fromFile && rules.patterns == DIGEST_DEFAULT_EXCLUSIONS
  {
  }

  // ----- Two fixed points of the design.

  /** The lock file the digest is written into is never hashed, whatever the
      patterns say. */
  lemma LockFileNeverHashed(rules: IgnoreRules, node: Node)
    requires rules.forced == DIGEST_FORCED_EXCLUSIONS
    ensures !Kept(rules, KICI_LOCK, node)
  {
    LockFileForced(AsDir(node));
    assert KICI_LOCK[0] != IGNORE_FILENAME[0];
  }

  lemma UnhashedChange(rules: IgnoreRules, m: LeafMap, path: string, node: Node)
    requires forall n :: !Kept(rules, path, n)
    ensures HashedContent(rules, m[path := node]) == HashedContent(rules, m)
  {
    MapsEqual(HashedContent(rules, m[path := node]), HashedContent(rules, m));
  }

  lemma LockKeepsRules(rules: IgnoreRules, m: LeafMap, node: Node)
    requires RulesFor(rules, m)
    ensures RulesFor(rules, m[KICI_LOCK := node])
  {
    assert KICI_LOCK[0] != IGNORE_FILENAME[0];
    assert IgnoreFileText(m[KICI_LOCK := node]) == IgnoreFileText(m);
  }

  /** So writing the digest into it, or deleting it, moves nothing. */
  lemma WritingTheLockMovesNothing(m: LeafMap, node: Node, x: string, y: string)
    requires HashInput(m, x) && HashInput(m[KICI_LOCK := node], y)
    ensures x == y
  {
    var rules, members :| RulesFor(rules, m) && Lists(members, MemberSet(rules, m)) && x == Encode(Parts(m, members));
    LockKeepsRules(rules, m, node);
    forall n ensures !Kept(rules, KICI_LOCK, n) {
      LockFileNeverHashed(rules, n);
    }
    UnhashedChange(rules, m, KICI_LOCK, node);
    SameContentSameInput(m, m[KICI_LOCK := node], rules, rules, x, y);
  }

  lemma LockFileForced(isDir: bool)
    ensures Excluded(Rules(DIGEST_FORCED_EXCLUSIONS), KICI_LOCK, isDir)
  {
    DefaultRules();
    PlainKiciLock();
    PlainTopLevelVerdict(FORCED_RULES, KICI_LOCK, isDir);
    assert FORCED_RULES[0] in FORCED_RULES;
  }

  /** The file that declares the exclusions is always hashed, even by a list that
      excludes it: behind every hash input of the tree stands a listing that holds
      it with its text. */
  lemma IgnoreFileAlwaysHashed(m: LeafMap, x: string)
    requires IGNORE_FILENAME in m && !AsDir(m[IGNORE_FILENAME]) && HashInput(m, x)
    ensures exists rules, members ::
      && RulesFor(rules, m) && Lists(members, MemberSet(rules, m)) && x == Encode(Parts(m, members))
      && (MEMBER_PREFIX + IGNORE_FILENAME, Normalize(Contribution(m[IGNORE_FILENAME]))) in Parts(m, members)
  {
    var rules, members :| RulesFor(rules, m) && Lists(members, MemberSet(rules, m)) && x == Encode(Parts(m, members));
    IgnoreFileListed(rules, m, members);
  }

  lemma IgnoreFileListed(rules: IgnoreRules, m: LeafMap, members: seq<string>)
    requires IGNORE_FILENAME in m && !AsDir(m[IGNORE_FILENAME]) && Lists(members, MemberSet(rules, m))
    ensures (MEMBER_PREFIX + IGNORE_FILENAME, Normalize(Contribution(m[IGNORE_FILENAME]))) in Parts(m, members)
  {
    MembersOfContent(rules, m, members);
    PathMember(IGNORE_FILENAME);
    assert IGNORE_FILENAME in HashedContent(rules, m);
    var i :| 0 <= i < |members| && members[i] == MEMBER_PREFIX + IGNORE_FILENAME;
    assert Parts(m, members)[i] == (members[i], Normalize(Contribution(m[IGNORE_FILENAME])));
  }

  /** So editing it moves the input: no one changes what is covered unseen. */
  lemma EditingTheRulesMovesTheInput(a: LeafMap, b: LeafMap, ra: IgnoreRules, rb: IgnoreRules, x: string, y: string)
    requires RulesFor(ra, a) && RulesFor(rb, b) && SealedTree(ra, a) && SealedTree(rb, b)
    requires HashInput(a, x) && HashInput(b, y)
    requires IGNORE_FILENAME in a && a[IGNORE_FILENAME].File? && a[IGNORE_FILENAME].text.Some?
    requires IGNORE_FILENAME in b && b[IGNORE_FILENAME].File? && b[IGNORE_FILENAME].text.Some?
    requires Normalize(a[IGNORE_FILENAME].text.value) != Normalize(b[IGNORE_FILENAME].text.value)
    ensures x != y
  {
    InputIffContent(a, b, ra, rb, x, y);
    assert IGNORE_FILENAME in HashedContent(ra, a) && IGNORE_FILENAME in HashedContent(rb, b);
  }

  // ----- Trees under the default patterns.

  lemma DefaultsMissNothing(rules: IgnoreRules)
    requires rules.patterns == DIGEST_DEFAULT_EXCLUSIONS
    requires forall t :: t in rules.missingRunRewritten <==> t in RUN_REWRITTEN_PATHS && !Covers(Rules(rules.patterns), t)
    ensures rules.missingRunRewritten == []
  {
    forall t | t in RUN_REWRITTEN_PATHS ensures Covers(Rules(rules.patterns), t) {
      DefaultsCoverRunRewritten(t);
    }
    FirstIsIn(rules.missingRunRewritten);
  }

  lemma FirstIsIn(xs: seq<string>)
    ensures xs != [] ==> xs[0] in xs
  {
  }

  lemma PlainNameKept(rules: IgnoreRules, name: string)
    requires rules.patterns == DIGEST_DEFAULT_EXCLUSIONS && rules.forced == DIGEST_FORCED_EXCLUSIONS
    requires '/' !in name && forall r | r in DEFAULT_RULES :: r.body != name
    ensures forall text :: Kept(rules, name, File(text))
  {
    DefaultRules();
    DefaultRulesPlain();
    assert FORCED_RULES[0] == DEFAULT_RULES[5];
    PlainTopLevelVerdict(DEFAULT_RULES, name, false);
    PlainTopLevelVerdict(FORCED_RULES, name, false);
  }

  /** Under the defaults a `node_modules` is left out if it is a directory or a link
      to one, and hashed if it is anything else. */
  lemma LinkedModulesExcluded(rules: IgnoreRules, target: string, text: Option<string>, entries: seq<Entry>)
    requires rules.patterns == DIGEST_DEFAULT_EXCLUSIONS && rules.forced == DIGEST_FORCED_EXCLUSIONS
    ensures !Kept(rules, NODE_MODULES, Dir(entries)) && !Kept(rules, NODE_MODULES, Link(target, ToDirectory))
    ensures Kept(rules, NODE_MODULES, File(text)) && Kept(rules, NODE_MODULES, Link(target, Unresolved))
    ensures forall behind: Behind | behind.ToFile? :: Kept(rules, NODE_MODULES, Link(target, behind))
  {
    ModulesVerdicts();
    assert NODE_MODULES[0] == 'n' && IGNORE_FILENAME[0] == '.';
  }

  lemma ModulesVerdicts()
    ensures Excluded(Rules(DIGEST_DEFAULT_EXCLUSIONS), NODE_MODULES, true)
    ensures !Excluded(Rules(DIGEST_DEFAULT_EXCLUSIONS), NODE_MODULES, false)
    ensures !Excluded(Rules(DIGEST_FORCED_EXCLUSIONS), NODE_MODULES, false)
  {
    DefaultRules();
    DefaultRulesPlain();
    PlainNodeModules();
    ModulesNamedOnce();
    var all, forced := DEFAULT_RULES, FORCED_RULES;
    assert all[0] in all && all[5] in all && forced[0] == all[5];
    PlainTopLevelVerdict(all, NODE_MODULES, true);
    PlainTopLevelVerdict(all, NODE_MODULES, false);
    PlainTopLevelVerdict(forced, NODE_MODULES, false);
  }

  lemma ModulesNamedOnce()
    ensures forall r | r in DEFAULT_RULES && r.body == NODE_MODULES :: r.dirOnly
    ensures forall r | r in FORCED_RULES :: r.body != NODE_MODULES
  {
    assert NODE_MODULES[0] == 'n' && NPMRC[0] == '.' && PACKAGE_LOCK[0] == 'p' && PNPM_LOCK[0] == 'p' && KICI_LOCK[0] == 'k';
  }

  /** A top-level name no default pattern names. */
  predicate Ordinary(name: string) {
    '/' !in name && name != IGNORE_FILENAME && forall r | r in DEFAULT_RULES :: r.body != name
  }

  const DEFAULTS := IgnoreRules(false, DIGEST_DEFAULT_EXCLUSIONS, DIGEST_FORCED_EXCLUSIONS, [])

  lemma DefaultsStand(m: LeafMap)
    requires IGNORE_FILENAME !in m
    ensures RulesFor(DEFAULTS, m)
  {
    forall t | t in RUN_REWRITTEN_PATHS ensures Covers(Rules(DEFAULTS.patterns), t) {
      DefaultsCoverRunRewritten(t);
    }
  }

  lemma HashedAs(m: LeafMap, p: string)
    requires p in m
    ensures Hashed(m, MEMBER_PREFIX + p) == (MEMBER_PREFIX + p, Normalize(Contribution(m[p])))
  {
    PathMember(p);
  }

  function OneFile(p: string, x: string): LeafMap {
    map[p := File(Some(x))]
  }

  function TwoFiles(p: string, x: string, q: string, y: string): LeafMap {
    map[p := File(Some(x)), q := File(Some(y))]
  }

  lemma TwoParts(m: LeafMap, p: string, q: string)
    requires p in m && q in m
    ensures Parts(m, [MEMBER_PREFIX + p, MEMBER_PREFIX + q]) ==
      [(MEMBER_PREFIX + p, Normalize(Contribution(m[p]))), (MEMBER_PREFIX + q, Normalize(Contribution(m[q])))]
  {
    HashedAs(m, p);
    HashedAs(m, q);
  }

  lemma OneFileInput(p: string, x: string)
    requires Ordinary(p)
    ensures HashInput(OneFile(p, x), Encode([(MEMBER_PREFIX + p, Normalize(x))]))
  {
    var m, members := OneFile(p, x), [MEMBER_PREFIX + p];
    DefaultsStand(m);
    PlainNameKept(DEFAULTS, p);
    assert m.Keys == {p};
    OneListed(DEFAULTS, m, p);
    HashedAs(m, p);
    assert Parts(m, members) == [(MEMBER_PREFIX + p, Normalize(x))];
  }

  lemma TwoFilesListed(p: string, x: string, q: string, y: string)
    requires Ordinary(p) && Ordinary(q) && Less(p, q)
    ensures Lists([MEMBER_PREFIX + p, MEMBER_PREFIX + q], MemberSet(DEFAULTS, TwoFiles(p, x, q, y)))
  {
    LessIrreflexive(p);
    TwoFilesKept(p, x, q, y);
    LessUnderPrefix(MEMBER_PREFIX, p, q);
    TwoListed(DEFAULTS, TwoFiles(p, x, q, y), p, q);
  }

  lemma TwoFilesKept(p: string, x: string, q: string, y: string)
    requires Ordinary(p) && Ordinary(q) && p != q
    ensures var m := TwoFiles(p, x, q, y);
            m.Keys == {p, q} && Kept(DEFAULTS, p, m[p]) && Kept(DEFAULTS, q, m[q])
  {
    PlainNameKept(DEFAULTS, p);
    PlainNameKept(DEFAULTS, q);
  }

  lemma TwoFilesRules(p: string, x: string, q: string, y: string)
    requires Ordinary(p) && Ordinary(q)
    ensures RulesFor(DEFAULTS, TwoFiles(p, x, q, y))
  {
    DefaultsStand(TwoFiles(p, x, q, y));
  }

  lemma TwoFilesParts(p: string, x: string, q: string, y: string)
    requires p != q
    ensures Parts(TwoFiles(p, x, q, y), [MEMBER_PREFIX + p, MEMBER_PREFIX + q]) ==
      [(MEMBER_PREFIX + p, Normalize(x)), (MEMBER_PREFIX + q, Normalize(y))]
  {
    TwoParts(TwoFiles(p, x, q, y), p, q);
  }

  lemma InputOf(rules: IgnoreRules, m: LeafMap, members: seq<string>)
    requires RulesFor(rules, m) && Lists(members, MemberSet(rules, m))
    ensures HashInput(m, Encode(Parts(m, members)))
  {
  }

  lemma TwoFileInput(p: string, x: string, q: string, y: string)
    requires Ordinary(p) && Ordinary(q) && Less(p, q)
    ensures HashInput(TwoFiles(p, x, q, y), Encode([(MEMBER_PREFIX + p, Normalize(x)), (MEMBER_PREFIX + q, Normalize(y))]))
  {
    LessIrreflexive(p);
    TwoFilesRules(p, x, q, y);
    TwoFilesListed(p, x, q, y);
    TwoFilesParts(p, x, q, y);
    InputOf(DEFAULTS, TwoFiles(p, x, q, y), [MEMBER_PREFIX + p, MEMBER_PREFIX + q]);
  }

  /** Two trees of which only one has a file are hashed differently. */
  lemma OneNameFewer(p: string, text: string, x: string, q: string, y: string)
    requires Ordinary(p) && Ordinary(q) && p != q
    ensures RulesFor(DEFAULTS, OneFile(p, text)) && RulesFor(DEFAULTS, TwoFiles(p, x, q, y))
    ensures HashedContent(DEFAULTS, OneFile(p, text)) != HashedContent(DEFAULTS, TwoFiles(p, x, q, y))
  {
    DefaultsStand(OneFile(p, text));
    DefaultsStand(TwoFiles(p, x, q, y));
    PlainNameKept(DEFAULTS, q);
    assert q in HashedContent(DEFAULTS, TwoFiles(p, x, q, y)) && q !in HashedContent(DEFAULTS, OneFile(p, text));
  }

  /** One file's text, with another's name and text in it between delimiters. */
  function Imitation(x: string, q: string, y: string): string {
    x + "\0" + (MEMBER_PREFIX + q) + "\0" + y
  }

  lemma ImitationEncodes(p: string, x: string, q: string, y: string)
    requires '\r' !in x && '\r' !in y && '\r' !in q
    ensures Encode([(MEMBER_PREFIX + p, Normalize(Imitation(x, q, y)))]) ==
            Encode([(MEMBER_PREFIX + p, Normalize(x)), (MEMBER_PREFIX + q, Normalize(y))])
  {
    NormalizeWithoutCr(x);
    NormalizeWithoutCr(y);
    assert '\r' !in MEMBER_PREFIX;
    NormalizeWithoutCr(Imitation(x, q, y));
    NulsAreAmbiguous(MEMBER_PREFIX + p, x, MEMBER_PREFIX + q, y);
  }

  lemma ImitationInput(p: string, x: string, q: string, y: string)
    requires Ordinary(p) && Ordinary(q) && Less(p, q)
    requires '\r' !in x && '\r' !in y && '\r' !in q
    ensures exists input :: HashInput(OneFile(p, Imitation(x, q, y)), input) && HashInput(TwoFiles(p, x, q, y), input)
  {
    OneFileInput(p, Imitation(x, q, y));
    TwoFileInput(p, x, q, y);
    ImitationEncodes(p, x, q, y);
  }

  /** Texts with NULs imitate another tree: hashed differently, they have one hash
      input. */
  lemma NulsImitateAnotherTree(p: string, x: string, q: string, y: string)
    requires Ordinary(p) && Ordinary(q) && Less(p, q)
    requires '\r' !in x && '\r' !in y && '\r' !in q
    ensures
      var one, two := OneFile(p, Imitation(x, q, y)), TwoFiles(p, x, q, y);
      && RulesFor(DEFAULTS, one) && RulesFor(DEFAULTS, two)
      && HashedContent(DEFAULTS, one) != HashedContent(DEFAULTS, two)
      && exists input :: HashInput(one, input) && HashInput(two, input)
  {
    LessIrreflexive(p);
    OneNameFewer(p, Imitation(x, q, y), x, q, y);
    ImitationInput(p, x, q, y);
  }

  lemma OneListed(rules: IgnoreRules, m: LeafMap, p: string)
    requires m.Keys == {p} && Kept(rules, p, m[p])
    ensures Lists([MEMBER_PREFIX + p], MemberSet(rules, m))
  {
  }

  lemma TwoListed(rules: IgnoreRules, m: LeafMap, p: string, q: string)
    requires m.Keys == {p, q} && Kept(rules, p, m[p]) && Kept(rules, q, m[q])
    requires Less(MEMBER_PREFIX + p, MEMBER_PREFIX + q)
    ensures Lists([MEMBER_PREFIX + p, MEMBER_PREFIX + q], MemberSet(rules, m))
  {
    LessIrreflexive(MEMBER_PREFIX + p);
  }
}
