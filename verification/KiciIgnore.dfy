/** `.kici/.kiciignore`: reading the file, compiling its patterns, and deciding
    which paths they exclude. */
module KiciIgnore {
  import opened Strings
  import opened EcmaRegExp
  import opened Glob
  import opened LineEndings
  import opened Whitespace

  const NODE_MODULES := "node_modules"
  const TYPES := "types"
  const NPMRC := ".npmrc"
  const PACKAGE_LOCK := "package-lock.json"
  const PNPM_LOCK := "pnpm-lock.yaml"
  const KICI_LOCK := "kici.lock.json"

  const DIGEST_DEFAULT_EXCLUSIONS: seq<string> :=
    [NODE_MODULES + "/", TYPES + "/", NPMRC, PACKAGE_LOCK, PNPM_LOCK, KICI_LOCK]

  const DIGEST_FORCED_EXCLUSIONS: seq<string> := [KICI_LOCK]

  const RUN_REWRITTEN_PATHS: seq<string> := [NODE_MODULES + "/", NPMRC, PACKAGE_LOCK]

  const IGNORE_FILENAME: string := ".kiciignore"

  // ----- Reading the file.

  /** What `f` gives for each element, where it gives anything. */
  function Present<A, B>(xs: seq<A>, f: A -> Option<B>): seq<B> {
    if xs == [] then []
    else
      var earlier := Present(xs[..|xs| - 1], f);
      match f(xs[|xs| - 1])
      case None => earlier
      case Some(y) => earlier + [y]
  }

  lemma {:induction false} PresentAll<A, B>(xs: seq<A>, f: A -> Option<B>, ys: seq<B>)
    requires |xs| == |ys| && forall i | 0 <= i < |xs| :: f(xs[i]) == Some(ys[i])
    ensures Present(xs, f) == ys
  {
    if xs != [] {
      var n := |xs| - 1;
      PresentAll(xs[..n], f, ys[..n]);
      assert ys == ys[..n] + [ys[n]];
    }
  }

  /** The pattern one line declares, if any. */
  function LinePattern(rawLine: string): Option<string> {
    var line := Trim(rawLine);
    if line == "" || line[0] == '#' then None
    else if StartsWith(line, "\\#") then Some(line[1..])
    else Some(line)
  }

  /** The patterns a `.kiciignore` declares. */
  function Patterns(content: string): seq<string> {
    Present(Split(content, '\n'), LinePattern)
  }

  method ParseKiciIgnore(content: string) returns (patterns: seq<string>)
    ensures patterns == Patterns(content)
  {
    patterns := [];
    var lines := Split(content, '\n');
    for i := 0 to |lines|
      invariant patterns == Present(lines[..i], LinePattern)
    {
      assert lines[..i + 1][..i] == lines[..i];
      var line := Trim(lines[i]);
      if |line| == 0 || line[0] == '#' { continue; }
      patterns := patterns + [if StartsWith(line, "\\#") then line[1..] else line];
    }
    assert lines[..|lines|] == lines;
  }

  // ----- What a file says, written line by line.

  datatype Line = Blank | Comment(text: string) | Declares(pattern: string)

  /** A pattern that begins with `#` is written with a backslash in front. */
  function LineText(line: Line): string {
    match line
    case Blank => ""
    case Comment(text) => "#" + text
    case Declares(pattern) => if StartsWith(pattern, "#") then "\\" + pattern else pattern
  }

  predicate EndsPlain(s: string) {
    s == "" || !IsTrimmed(s[|s| - 1])
  }

  /** What can stand on one line; white space around it is told apart. */
  predicate Writable(line: Line) {
    match line
    case Blank => true
    case Comment(text) => EndsPlain(text)
    case Declares(pattern) =>
      pattern != "" && !IsTrimmed(pattern[0]) && EndsPlain(pattern) && !StartsWith(pattern, "\\#")
  }

  datatype WrittenLine = WrittenLine(left: string, line: Line, right: string)

  function TextOf(w: WrittenLine): string {
    w.left + LineText(w.line) + w.right
  }

  predicate OneLine(w: WrittenLine) {
    AllTrimmed(w.left) && AllTrimmed(w.right) && Writable(w.line) && '\n' !in TextOf(w)
  }

  function DeclaredBy(w: WrittenLine): Option<string> {
    if w.line.Declares? then Some(w.line.pattern) else None
  }

  lemma LineDeclares(w: WrittenLine)
    requires OneLine(w)
    ensures LinePattern(TextOf(w)) == DeclaredBy(w)
  {
    var text := LineText(w.line);
    assert w.line.Comment? ==> EndsPlain(text) && text[0] == '#';
    assert w.line.Declares? ==> text[|text| - 1] == w.line.pattern[|w.line.pattern| - 1];
    TrimIs(w.left, text, w.right);
    if w.line.Declares? && StartsWith(w.line.pattern, "#") {
      assert text == "\\#" + w.line.pattern[1..] && text[1..] == w.line.pattern;
    }
  }

  function Texts(lines: seq<WrittenLine>): (texts: seq<string>)
    ensures |texts| == |lines| && forall i | 0 <= i < |lines| :: texts[i] == TextOf(lines[i])
  {
    seq(|lines|, i requires 0 <= i < |lines| => TextOf(lines[i]))
  }

  lemma {:induction false} PresentAlike<A, B, C>(xs: seq<A>, f: A -> Option<C>, ys: seq<B>, g: B -> Option<C>)
    requires |xs| == |ys| && forall i | 0 <= i < |xs| :: f(xs[i]) == g(ys[i])
    ensures Present(xs, f) == Present(ys, g)
  {
    if xs != [] {
      PresentAlike(xs[..|xs| - 1], f, ys[..|ys| - 1], g);
    }
  }

  /** A file declares exactly the patterns written in it, in order: comments, blank
      lines and outer white space say nothing, and a leading `#` can be written. */
  lemma FileDeclares(lines: seq<WrittenLine>)
    requires lines != [] && forall i | 0 <= i < |lines| :: OneLine(lines[i])
    ensures Patterns(Join(Texts(lines), '\n')) == Present(lines, DeclaredBy)
  {
    var texts := Texts(lines);
    SplitJoin(texts, '\n');
    forall i | 0 <= i < |lines| ensures LinePattern(texts[i]) == DeclaredBy(lines[i]) {
      LineDeclares(lines[i]);
    }
    PresentAlike(texts, LinePattern, lines, DeclaredBy);
  }

  lemma TrailingCrIsTrimmed(line: string)
    ensures LinePattern(line + "\r") == LinePattern(line)
  {
    TrimPadded("", line, "\r");
    assert "" + line + "\r" == line + "\r";
  }

  lemma SplitAfterCrlf(u: string)
    ensures Split("\r\n" + u, '\n') == ["\r"] + Split(u, '\n')
  {
    SplitConcat("\r", u, '\n');
    SplitOfPlain("\r", '\n');
    assert "\r" + ['\n'] + u == "\r\n" + u;
  }

  /** Line for line the same, some with a carriage return at the end. */
  predicate SameButCr(a: seq<string>, b: seq<string>) {
    |a| == |b| && forall i | 0 <= i < |a| :: b[i] == a[i] || b[i] == a[i] + "\r"
  }

  lemma SameAfterLine(a: seq<string>, b: seq<string>, converted: bool)
    requires SameButCr(a, b)
    ensures SameButCr([""] + a, [if converted then "\r" else ""] + b)
  {
    assert "" + "\r" == "\r";
  }

  lemma SameAfterChar(c: char, a: seq<string>, b: seq<string>)
    requires SameButCr(a, b) && a != []
    ensures SameButCr([[c] + a[0]] + a[1..], [[c] + b[0]] + b[1..])
  {
    assert [c] + (a[0] + "\r") == ([c] + a[0]) + "\r";
  }

  /** The lines of a converted file are the lines of the original, some of them
      with a carriage return at the end. */
  lemma {:induction false} CrlfLines(s: string, afterCr: bool)
    ensures SameButCr(Split(s, '\n'), Split(CrlfAfter(s, afterCr), '\n'))
  {
    if s != "" {
      var t := CrlfAfter(s, afterCr);
      var converts := s[0] == '\n' && !afterCr;
      var u := CrlfAfter(s[1..], !converts && s[0] == '\r');
      CrlfLines(s[1..], !converts && s[0] == '\r');
      var a, b := Split(s[1..], '\n'), Split(u, '\n');
      if converts { SplitAfterCrlf(u); } else { assert t[1..] == u; }
      if s[0] == '\n' { SameAfterLine(a, b, converts); } else { SameAfterChar(s[0], a, b); }
    }
  }

  lemma {:induction false} SamePatternPerLine(a: seq<string>, b: seq<string>)
    requires SameButCr(a, b)
    ensures Present(a, LinePattern) == Present(b, LinePattern)
  {
    if a != [] {
      var n := |a| - 1;
      TrailingCrIsTrimmed(a[n]);
      SamePatternPerLine(a[..n], b[..n]);
    }
  }

  /** A CRLF checkout of the ignore file declares the same patterns. */
  lemma CrlfDeclaresTheSame(content: string)
    ensures Patterns(CheckoutCrlf(content)) == Patterns(content)
  {
    CrlfLines(content, false);
    SamePatternPerLine(Split(content, '\n'), Split(CheckoutCrlf(content), '\n'));
  }

  // ----- One pattern.

  /** A pattern taken apart: what to match, where, and what a match decides. */
  datatype Rule = Rule(body: string, anchored: bool, dirOnly: bool, negated: bool)

  /** A text without one leading or trailing mark, if it has it. */
  function WithoutHead(s: string, mark: string): string
    requires mark != ""
  {
    if StartsWith(s, mark) then s[1..] else s
  }

  function WithoutSlash(s: string): string {
    if EndsWith(s, "/") then s[..|s| - 1] else s
  }

  /** How the file format reads a pattern; None when nothing is left to match. */
  function ReadPattern(pattern: string): (r: Option<Rule>)
    ensures r.Some? ==> r.value.body != "" && (!r.value.anchored ==> '/' !in r.value.body)
  {
    ReadPositive(WithoutHead(WithoutHead(pattern, "!"), "\\!"), StartsWith(pattern, "!"))
  }

  /** The rest of the reading, once the marks of negation are off. */
  function ReadPositive(q: string, negated: bool): (r: Option<Rule>)
    ensures r.Some? ==> r.value.body != "" && (!r.value.anchored ==> '/' !in r.value.body)
  {
    ReadUnmarked(WithoutSlash(q), EndsWith(q, "/"), negated)
  }

  function ReadUnmarked(u: string, dirOnly: bool, negated: bool): (r: Option<Rule>)
    ensures r.Some? ==> r.value.body != "" && (!r.value.anchored ==> '/' !in r.value.body)
  {
    var body := WithoutHead(u, "/");
    if body == "" then None else Some(Rule(body, StartsWith(u, "/") || '/' in body, dirOnly, negated))
  }

  /** How a rule is written: a leading slash if it is `rooted`, and a backslash in
      front of a `!` that negates nothing. */
  function WrittenPattern(body: string, rooted: bool, dirOnly: bool, negated: bool): string {
    var rest := (if rooted then "/" else "") + body + (if dirOnly then "/" else "");
    (if negated then "!" else "") + (if StartsWith(rest, "!") then "\\" else "") + rest
  }

  lemma StartsWithChar(s: string, mark: string)
    requires |mark| == 1
    ensures StartsWith(s, mark) <==> s != "" && s[0] == mark[0]
  {
  }

  lemma EndsWithChar(s: string, mark: string)
    requires |mark| == 1
    ensures EndsWith(s, mark) <==> s != "" && s[|s| - 1] == mark[0]
  {
  }

  lemma RootReadsBack(body: string, rooted: bool, dirOnly: bool, negated: bool)
    requires body != "" && (rooted || body[0] != '/')
    ensures ReadUnmarked((if rooted then "/" else "") + body, dirOnly, negated)
         == Some(Rule(body, rooted || '/' in body, dirOnly, negated))
  {
    var u := (if rooted then "/" else "") + body;
    StartsWithChar(u, "/");
    assert if rooted then u[0] == '/' && u[1..] == body else u == body;
  }

  lemma SlashReadsBack(u: string, dirOnly: bool, negated: bool)
    requires u != "" && (dirOnly || u[|u| - 1] != '/')
    ensures ReadPositive(u + (if dirOnly then "/" else ""), negated) == ReadUnmarked(u, dirOnly, negated)
  {
    var q := u + (if dirOnly then "/" else "");
    EndsWithChar(q, "/");
    assert if dirOnly then q[|q| - 1] == '/' && q[..|q| - 1] == u else q == u;
  }

  lemma BangReadsBack(rest: string, negated: bool)
    requires rest != "" && !StartsWith(rest, "\\!")
    ensures
      var pattern := (if negated then "!" else "") + (if StartsWith(rest, "!") then "\\" else "") + rest;
      StartsWith(pattern, "!") == negated && WithoutHead(WithoutHead(pattern, "!"), "\\!") == rest
  {
    var escaped := (if StartsWith(rest, "!") then "\\" else "") + rest;
    var pattern := (if negated then "!" else "") + escaped;
    assert pattern == (if negated then "!" else "") + (if StartsWith(rest, "!") then "\\" else "") + rest;
    StartsWithChar(rest, "!");
    StartsWithChar(pattern, "!");
    assert if negated then pattern[1..] == escaped else pattern == escaped;
    if rest[0] == '!' {
      assert escaped[1..] == rest && escaped == "\\!" + rest[1..];
    } else {
      assert escaped == rest;
    }
  }

  lemma NoEscapeInBody(body: string, tail: string)
    requires body != "" && (tail == "" || tail == "/")
    ensures StartsWith(body + tail, "\\!") ==> StartsWith(body, "\\!")
  {
    var rest := body + tail;
    if StartsWith(rest, "\\!") {
      assert rest[..2] == "\\!" && rest[1] == '!';
      assert |body| >= 2 && body[..2] == rest[..2];
    }
  }

  /** Every rule can be written and is read back: what negates, what anchors, what
      asks for a directory, and the body itself. */
  lemma WrittenReadsBack(body: string, rooted: bool, dirOnly: bool, negated: bool)
    requires body != "" && (rooted || body[0] != '/') && (dirOnly || body[|body| - 1] != '/')
    requires rooted || !StartsWith(body, "\\!")
    ensures ReadPattern(WrittenPattern(body, rooted, dirOnly, negated))
         == Some(Rule(body, rooted || '/' in body, dirOnly, negated))
  {
    var u, tail := (if rooted then "/" else "") + body, if dirOnly then "/" else "";
    NoEscapeInBody(u, tail);
    assert rooted ==> u[0] == '/';
    assert !rooted ==> u == body;
    BangReadsBack(u + tail, negated);
    SlashReadsBack(u, dirOnly, negated);
    RootReadsBack(body, rooted, dirOnly, negated);
  }

  /** Does the rule's glob match the path: whole when anchored, else from some
      segment boundary on. */
  predicate RuleMatches(rule: Rule, path: string) {
    if rule.anchored then GlobMatches(rule.body, path)
    else exists k | 0 <= k <= |path| :: SegmentStart(path, k) && GlobMatches(rule.body, path[k..])
  }

  datatype CompiledPattern = CompiledPattern(re: string, dirOnly: bool, negated: bool)

  /** The compiled pattern is a regular expression that accepts what the rule matches. */
  ghost predicate Implements(c: CompiledPattern, rule: Rule) {
    && c.dirOnly == rule.dirOnly
    && c.negated == rule.negated
    && Parse(c.re).Some?
    && forall path :: Test(c.re, path) <==> RuleMatches(rule, path)
  }

  method CompilePattern(pattern: string) returns (c: Option<CompiledPattern>)
    ensures c.Some? <==> ReadPattern(pattern).Some?
    ensures c.Some? ==> Implements(c.value, ReadPattern(pattern).value)
  {
    var body := pattern;
    var negated := StartsWith(body, "!");
    if negated { body := body[1..]; }
    if StartsWith(body, "\\!") { body := body[1..]; }
    c := CompilePositive(body, negated);
  }

  /** The rest of the compilation, once the marks of negation are off. */
  method CompilePositive(q: string, negated: bool) returns (c: Option<CompiledPattern>)
    ensures c.Some? <==> ReadPositive(q, negated).Some?
    ensures c.Some? ==> Implements(c.value, ReadPositive(q, negated).value)
  {
    var body := q;
    if |body| == 0 { return None; }
    var dirOnly := EndsWith(body, "/");
    if dirOnly { body := body[..|body| - 1]; }
    if |body| == 0 { return None; }
    c := CompileUnmarked(body, dirOnly, negated);
  }

  method CompileUnmarked(u: string, dirOnly: bool, negated: bool) returns (c: Option<CompiledPattern>)
    ensures c.Some? <==> ReadUnmarked(u, dirOnly, negated).Some?
    ensures c.Some? ==> Implements(c.value, ReadUnmarked(u, dirOnly, negated).value)
  {
    var body := u;
    var leadingSlash := StartsWith(body, "/");
    if leadingSlash { body := body[1..]; }
    if |body| == 0 { return None; }
    var compiled := Emit(Rule(body, leadingSlash || '/' in body, dirOnly, negated));
    c := Some(compiled);
  }

  method Emit(rule: Rule) returns (c: CompiledPattern)
    ensures Implements(c, rule)
  {
    var source := GlobToRegExpSource(rule.body);
    var re := if rule.anchored then "^" + source + "$" else "(?:^|/)" + source + "$";
    c := CompiledPattern(re, rule.dirOnly, rule.negated);
    SourceMeans(rule);
  }

  function RuleSource(rule: Rule): string {
    if rule.anchored then AnchoredSource(rule.body) else FloatingSource(rule.body)
  }

  lemma SourceMeans(rule: Rule)
    ensures Implements(CompiledPattern(RuleSource(rule), rule.dirOnly, rule.negated), rule)
  {
    forall path ensures Parse(RuleSource(rule)).Some? && (Test(RuleSource(rule), path) <==> RuleMatches(rule, path)) {
      if rule.anchored { AnchoredMeaning(rule.body, path); } else { FloatingMeaning(rule.body, path); }
    }
    assert Parse(RuleSource(rule)).Some? by { AnchoredMeaning(rule.body, ""); FloatingMeaning(rule.body, ""); }
  }

  // ----- The matcher.

  function Rules(patterns: seq<string>): seq<Rule> {
    Present(patterns, ReadPattern)
  }

  predicate Applies(rule: Rule, path: string, isDir: bool) {
    (rule.dirOnly ==> isDir) && RuleMatches(rule, path)
  }

  /** The last applicable rule decides, ancestors not considered. */
  predicate ExcludedItself(rules: seq<Rule>, path: string, isDir: bool) {
    rules != [] &&
    var last := rules[|rules| - 1];
    if Applies(last, path, isDir) then !last.negated else ExcludedItself(rules[..|rules| - 1], path, isDir)
  }

  /** The `n` shallowest segments of a path. */
  function Ancestor(path: string, n: nat): string
    requires n <= |Split(path, '/')|
  {
    Join(Split(path, '/')[..n], '/')
  }

  /** The path itself, or a directory above it, is excluded. */
  predicate Excluded(rules: seq<Rule>, path: string, isDir: bool) {
    || (exists n | 1 <= n < |Split(path, '/')| :: ExcludedItself(rules, Ancestor(path, n), true))
    || ExcludedItself(rules, path, isDir)
  }

  ghost predicate AllImplement(compiled: seq<CompiledPattern>, rules: seq<Rule>) {
    |compiled| == |rules| && forall i | 0 <= i < |rules| :: Implements(compiled[i], rules[i])
  }

  method DecideSelf(compiled: seq<CompiledPattern>, ghost rules: seq<Rule>, relPath: string, isDir: bool)
    returns (ignored: bool)
    requires AllImplement(compiled, rules)
    ensures ignored <==> ExcludedItself(rules, relPath, isDir)
  {
    ignored := false;
    for i := 0 to |compiled|
      invariant ignored <==> ExcludedItself(rules[..i], relPath, isDir)
    {
      assert rules[..i + 1][..i] == rules[..i];
      assert Implements(compiled[i], rules[i]);
      if compiled[i].dirOnly && !isDir { continue; }
      if Test(compiled[i].re, relPath) { ignored := !compiled[i].negated; }
    }
    assert rules[..|rules|] == rules;
  }

  method CompileAll(patterns: seq<string>) returns (compiled: seq<CompiledPattern>)
    ensures AllImplement(compiled, Rules(patterns))
  {
    compiled := [];
    for i := 0 to |patterns|
      invariant AllImplement(compiled, Rules(patterns[..i]))
    {
      assert patterns[..i + 1][..i] == patterns[..i];
      var entry := CompilePattern(patterns[i]);
      if entry.Some? {
        compiled := compiled + [entry.value];
      }
    }
    assert patterns[..|patterns|] == patterns;
  }

  /** The predicate `buildKiciIgnoreMatcher` returns. */
  method IsExcluded(compiled: seq<CompiledPattern>, ghost rules: seq<Rule>, relPath: string, isDir: bool)
    returns (r: bool)
    requires AllImplement(compiled, rules)
    ensures r <==> Excluded(rules, relPath, isDir)
  {
    if |compiled| == 0 { return false; }
    var segments := Split(relPath, '/');
    for i := 1 to |segments|
      invariant forall n | 1 <= n < i :: !ExcludedItself(rules, Ancestor(relPath, n), true)
    {
      var above := DecideSelf(compiled, rules, Join(segments[..i], '/'), true);
      if above {
        assert ExcludedItself(rules, Ancestor(relPath, i), true);
        return true;
      }
    }
    r := DecideSelf(compiled, rules, relPath, isDir);
  }

  // ----- What exclusion promises.

  lemma AncestorOfPath(p: string, q: string, n: nat)
    requires n <= |Split(p, '/')|
    ensures n <= |Split(p + "/" + q, '/')| && Ancestor(p + "/" + q, n) == Ancestor(p, n)
  {
    SplitConcat(p, q, '/');
    assert (Split(p, '/') + Split(q, '/'))[..n] == Split(p, '/')[..n];
  }

  /** Excluding a directory excludes everything under it, whatever a later
      pattern re-includes: no `!` reaches below an excluded directory. */
  lemma ExclusionIsClosed(rules: seq<Rule>, p: string, q: string, isDir: bool)
    requires Excluded(rules, p, true)
    ensures Excluded(rules, p + "/" + q, isDir)
  {
    var below := p + "/" + q;
    SplitConcat(p, q, '/');
    if ExcludedItself(rules, p, true) {
      var n := |Split(p, '/')|;
      AncestorOfPath(p, q, n);
      JoinSplit(p, '/');
      assert Split(p, '/')[..n] == Split(p, '/');
      assert Ancestor(below, n) == p;
    } else {
      var n :| 1 <= n < |Split(p, '/')| && ExcludedItself(rules, Ancestor(p, n), true);
      AncestorOfPath(p, q, n);
    }
  }

  lemma SlashFree(path: string, isDir: bool, rules: seq<Rule>)
    requires '/' !in path
    ensures Excluded(rules, path, isDir) <==> ExcludedItself(rules, path, isDir)
  {
    SplitOfPlain(path, '/');
  }

  /** A path is excluded exactly when the directory it stands in is, or it is
      itself; at the top, exactly when it is itself. */
  lemma ExcludedByParent(rules: seq<Rule>, dir: string, name: string, isDir: bool)
    requires '/' !in name
    ensures Excluded(rules, dir + "/" + name, isDir) <==>
              Excluded(rules, dir, true) || ExcludedItself(rules, dir + "/" + name, isDir)
    ensures Excluded(rules, name, isDir) <==> ExcludedItself(rules, name, isDir)
  {
    SlashFree(name, isDir, rules);
    var path := dir + "/" + name;
    SplitConcat(dir, name, '/');
    SplitOfPlain(name, '/');
    var m := |Split(dir, '/')|;
    if Excluded(rules, dir, true) {
      ExclusionIsClosed(rules, dir, name, isDir);
    }
    if n :| 1 <= n < |Split(path, '/')| && ExcludedItself(rules, Ancestor(path, n), true) {
      AncestorOfPath(dir, name, n);
      if n == m {
        JoinSplit(dir, '/');
        assert Split(dir, '/')[..m] == Split(dir, '/');
      }
    }
  }

  /** The last pattern that applies decides, by whether it is negated. */
  lemma {:induction false} LastApplicableDecides(rules: seq<Rule>, i: nat, path: string, isDir: bool)
    requires i < |rules| && Applies(rules[i], path, isDir)
    requires forall j | i < j < |rules| :: !Applies(rules[j], path, isDir)
    ensures ExcludedItself(rules, path, isDir) <==> !rules[i].negated
  {
    var n := |rules| - 1;
    if i < n {
      LastApplicableDecides(rules[..n], i, path, isDir);
    }
  }

  /** With no re-including pattern, matching any pattern excludes. */
  lemma {:induction false} AnyMatchExcludes(rules: seq<Rule>, i: nat, path: string, isDir: bool)
    requires i < |rules| && Applies(rules[i], path, isDir)
    requires forall r | r in rules :: !r.negated
    ensures ExcludedItself(rules, path, isDir)
  {
    var n := |rules| - 1;
    if !Applies(rules[n], path, isDir) {
      AnyMatchExcludes(rules[..n], i, path, isDir);
    }
  }

  /** A path outside every rule's reach is kept. */
  lemma {:induction false} NoMatchKeeps(rules: seq<Rule>, path: string, isDir: bool)
    requires forall r | r in rules :: !Applies(r, path, isDir)
    ensures !ExcludedItself(rules, path, isDir)
  {
    if rules != [] {
      NoMatchKeeps(rules[..|rules| - 1], path, isDir);
    }
  }

  // ----- The run-rewritten paths.

  /** Does a pattern list cover one run-rewritten path, probed as the code probes it? */
  predicate Covers(rules: seq<Rule>, target: string) {
    if EndsWith(target, "/") then Excluded(rules, target[..|target| - 1], true) else Excluded(rules, target, false)
  }

  /** What covering each of them means: `node_modules` as a directory, the others as
      files. */
  lemma CoveringMeans(rules: seq<Rule>)
    ensures Covers(rules, NODE_MODULES + "/") <==> Excluded(rules, NODE_MODULES, true)
    ensures Covers(rules, NPMRC) <==> Excluded(rules, NPMRC, false)
    ensures Covers(rules, PACKAGE_LOCK) <==> Excluded(rules, PACKAGE_LOCK, false)
  {
    var target := NODE_MODULES + "/";
    assert target[..|target| - 1] == NODE_MODULES && target[|target| - 1..] == "/";
    EndsWithChar(NPMRC, "/");
    EndsWithChar(PACKAGE_LOCK, "/");
    assert NPMRC[|NPMRC| - 1] == 'c' && PACKAGE_LOCK[|PACKAGE_LOCK| - 1] == 'n';
  }

  lemma RunRewrittenDistinct()
    ensures |RUN_REWRITTEN_PATHS| == 3 && "" !in RUN_REWRITTEN_PATHS
    ensures forall i, j | 0 <= i < j < 3 :: RUN_REWRITTEN_PATHS[i] != RUN_REWRITTEN_PATHS[j]
  {
    assert RUN_REWRITTEN_PATHS[0][0] == 'n' && RUN_REWRITTEN_PATHS[1][0] == '.' && PACKAGE_LOCK[0] == 'p';
  }

  method IsCovered(compiled: seq<CompiledPattern>, ghost rules: seq<Rule>, target: string) returns (covered: bool)
    requires AllImplement(compiled, rules) && target != ""
    ensures covered <==> Covers(rules, target)
  {
    var isDir := EndsWith(target, "/");
    var probe := if isDir then target[..|target| - 1] else target;
    covered := IsExcluded(compiled, rules, probe, isDir);
  }

  /** `found` lists the targets the rules do not cover, once each. */
  ghost predicate Misses(found: seq<string>, targets: seq<string>, rules: seq<Rule>) {
    && (forall t :: t in found <==> t in targets && !Covers(rules, t))
    && (forall t :: multiset(found)[t] <= 1)
  }

  lemma MissesNext(found: seq<string>, targets: seq<string>, rules: seq<Rule>, target: string)
    requires Misses(found, targets, rules) && target !in targets
    ensures Misses(if Covers(rules, target) then found else found + [target], targets + [target], rules)
  {
    assert target !in found && target !in multiset(found);
  }

  lemma SortedMisses(found: seq<string>, targets: seq<string>, rules: seq<Rule>)
    requires Misses(found, targets, rules)
    ensures Misses(Sort(found), targets, rules) && Sorted(Sort(found))
  {
    SortSorts(found);
    assert forall t :: t in Sort(found) <==> t in multiset(Sort(found));
  }

  /** Each run-rewritten path the patterns miss, once, in order. */
  method FindUncoveredRunRewrittenPaths(patterns: seq<string>) returns (uncovered: seq<string>)
    ensures Sorted(uncovered) && Misses(uncovered, RUN_REWRITTEN_PATHS, Rules(patterns))
  {
    var compiled := CompileAll(patterns);
    RunRewrittenDistinct();
    var found := FindMissed(compiled, Rules(patterns), RUN_REWRITTEN_PATHS);
    uncovered := Sort(found);
    SortedMisses(found, RUN_REWRITTEN_PATHS, Rules(patterns));
  }

  /** The loop, over any distinct targets. */
  method FindMissed(compiled: seq<CompiledPattern>, ghost rules: seq<Rule>, targets: seq<string>) returns (found: seq<string>)
    requires AllImplement(compiled, rules) && "" !in targets
    requires forall i, j | 0 <= i < j < |targets| :: targets[i] != targets[j]
    ensures Misses(found, targets, rules)
  {
    found := [];
    for i := 0 to |targets|
      invariant Misses(found, targets[..i], rules)
    {
      var target := targets[i];
      assert target in targets;
      var covered := IsCovered(compiled, rules, target);
      MissesNext(found, targets[..i], rules, target);
      assert targets[..i + 1] == targets[..i] + [target];
      if !covered { found := found + [target]; }
    }
    assert targets[..|targets|] == targets;
  }

  /** A pattern that is a plain name, for the constants below. */
  predicate PlainName(name: string) {
    name != "" && Literal(name) && '/' !in name && name[0] != '!' && name[0] != '\\'
  }

  lemma ReadPlainName(pattern: string, name: string, dirOnly: bool)
    requires PlainName(name)
    requires pattern == if dirOnly then name + "/" else name
    ensures ReadPattern(pattern) == Some(Rule(name, false, dirOnly, false))
  {
    assert pattern[0] == name[0];
    assert name[|name| - 1] in name;
    assert !StartsWith(pattern, "!") && !StartsWith(pattern, "\\!") && !StartsWith(name, "/");
    if dirOnly {
      assert pattern[..|pattern| - 1] == name && pattern[|pattern| - 1..] == "/";
    } else {
      assert pattern[|pattern| - 1..][0] == name[|name| - 1] != '/';
    }
  }

  /** A rule that is a plain name covers exactly the paths whose last segment it is. */
  lemma PlainNameMatches(name: string, dirOnly: bool, path: string)
    requires PlainName(name)
    ensures RuleMatches(Rule(name, false, dirOnly, false), path) <==> LastSegment(path) == name
  {
    assert !HasDoubleStar(name) by {
      assert forall i | 0 <= i < |name| :: name[i] in name;
    }
    BareDependsOnLastSegment(name, path);
    FloatingMeaning(name, path);
    LiteralMatchesItself(name, LastSegment(path));
  }

  lemma OnePattern(pattern: string, rule: Rule, path: string, isDir: bool)
    requires ReadPattern(pattern) == Some(rule)
    ensures ExcludedItself(Rules([pattern]), path, isDir) <==> !rule.negated && Applies(rule, path, isDir)
  {
    PresentAll([pattern], ReadPattern, [rule]);
    assert [rule][..0] == [];
  }

  /** A bare name is matched at any depth, a rooted one at the top alone, and a
      literal with a slash inside where it says. */
  lemma NamesMatchByPlace(name: string, dir: string, path: string, isDir: bool)
    requires PlainName(name) && dir != "" && Literal(dir) && dir[0] != '/' && dir[0] != '!' && dir[0] != '\\'
    ensures ExcludedItself(Rules([name]), path, isDir) <==> LastSegment(path) == name
    ensures ExcludedItself(Rules(["/" + name]), path, isDir) <==> path == name
    ensures ExcludedItself(Rules([dir + "/" + name]), path, isDir) <==> path == dir + "/" + name
  {
    assert name[|name| - 1] in name && name[0] in name;
    ReadPlainName(name, name, false);
    OnePattern(name, Rule(name, false, false, false), path, isDir);
    PlainNameMatches(name, false, path);
    RootedReads(name);
    OnePattern("/" + name, Rule(name, true, false, false), path, isDir);
    LiteralMatchesItself(name, path);
    var body := dir + "/" + name;
    InnerSlashReads(dir, name);
    OnePattern(body, Rule(body, true, false, false), path, isDir);
    LiteralMatchesItself(body, path);
  }

  lemma RootedReads(name: string)
    requires PlainName(name)
    ensures ReadPattern("/" + name) == Some(Rule(name, true, false, false))
  {
    assert name[|name| - 1] in name;
    WrittenReadsBack(name, true, false, false);
    StartsWithChar("/" + name, "!");
    assert "" + "" + ("/" + name + "") == "/" + name;
  }

  lemma InnerSlashReads(dir: string, name: string)
    requires PlainName(name) && dir != "" && dir[0] != '/' && dir[0] != '!' && dir[0] != '\\'
    ensures ReadPattern(dir + "/" + name) == Some(Rule(dir + "/" + name, true, false, false))
  {
    var body := dir + "/" + name;
    assert name[|name| - 1] in name && body[|body| - 1] == name[|name| - 1];
    assert body[|dir|] == '/' && body[0] == dir[0];
    StartsWithChar(body, "!");
    WrittenReadsBack(body, false, false, false);
    assert "" + "" + ("" + body + "") == body;
  }

  const DEFAULT_RULES: seq<Rule> := [
    Rule(NODE_MODULES, false, true, false),
    Rule(TYPES, false, true, false),
    Rule(NPMRC, false, false, false),
    Rule(PACKAGE_LOCK, false, false, false),
    Rule(PNPM_LOCK, false, false, false),
    Rule(KICI_LOCK, false, false, false)]

  const FORCED_RULES: seq<Rule> := [Rule(KICI_LOCK, false, false, false)]

  lemma PlainNodeModules() ensures PlainName(NODE_MODULES) {}

  lemma PlainTypes() ensures PlainName(TYPES) {}

  lemma PlainNpmrc() ensures PlainName(NPMRC) {}

  lemma PlainPackageLock() ensures PlainName(PACKAGE_LOCK) {}

  lemma PlainPnpmLock() ensures PlainName(PNPM_LOCK) {}

  lemma PlainKiciLock() ensures PlainName(KICI_LOCK) {}

  lemma DefaultRulesPlain()
    ensures forall r | r in DEFAULT_RULES :: PlainName(r.body) && !r.anchored && !r.negated
  {
    PlainNodeModules();
    PlainTypes();
    PlainNpmrc();
    PlainPackageLock();
    PlainPnpmLock();
    PlainKiciLock();
  }

  /** `pattern` is how a plain, unanchored, unnegated rule is written. */
  predicate Writes(pattern: string, rule: Rule) {
    && PlainName(rule.body) && !rule.anchored && !rule.negated
    && pattern == if rule.dirOnly then rule.body + "/" else rule.body
  }

  lemma RulesWritten(patterns: seq<string>, rules: seq<Rule>)
    requires |patterns| == |rules| && forall i | 0 <= i < |rules| :: Writes(patterns[i], rules[i])
    ensures Rules(patterns) == rules
  {
    forall i | 0 <= i < |rules| ensures ReadPattern(patterns[i]) == Some(rules[i]) {
      assert Writes(patterns[i], rules[i]);
      ReadPlainName(patterns[i], rules[i].body, rules[i].dirOnly);
    }
    PresentAll(patterns, ReadPattern, rules);
  }

  lemma DefaultRules()
    ensures Rules(DIGEST_DEFAULT_EXCLUSIONS) == DEFAULT_RULES
    ensures Rules(DIGEST_FORCED_EXCLUSIONS) == FORCED_RULES
  {
    DefaultRulesPlain();
    assert forall r | r in FORCED_RULES :: r in DEFAULT_RULES;
    RulesWritten(DIGEST_DEFAULT_EXCLUSIONS, DEFAULT_RULES);
    RulesWritten(DIGEST_FORCED_EXCLUSIONS, FORCED_RULES);
  }

  /** A list of plain names excludes exactly the paths with a listed name among
      their segments, counting a directory-only name on directories alone. */
  lemma PlainTopLevelVerdict(rules: seq<Rule>, path: string, isDir: bool)
    requires forall r | r in rules :: PlainName(r.body) && !r.anchored && !r.negated
    requires '/' !in path
    ensures Excluded(rules, path, isDir) <==> exists r | r in rules :: r.body == path && (r.dirOnly ==> isDir)
  {
    SplitOfPlain(path, '/');
    assert LastSegment(path) == path;
    forall r | r in rules
      ensures Applies(r, path, isDir) <==> r.body == path && (r.dirOnly ==> isDir)
    {
      PlainNameMatches(r.body, r.dirOnly, path);
      assert r == Rule(r.body, false, r.dirOnly, false);
    }
    if exists r | r in rules :: r.body == path && (r.dirOnly ==> isDir) {
      var r :| r in rules && r.body == path && (r.dirOnly ==> isDir);
      var i :| 0 <= i < |rules| && rules[i] == r;
      AnyMatchExcludes(rules, i, path, isDir);
    } else {
      NoMatchKeeps(rules, path, isDir);
    }
  }

  /** The defaults cover every run-rewritten path, so only a hand-written file can warn. */
  lemma DefaultsCoverRunRewritten(target: string)
    requires target in RUN_REWRITTEN_PATHS
    ensures Covers(Rules(DIGEST_DEFAULT_EXCLUSIONS), target)
  {
    DefaultRules();
    DefaultRulesPlain();
    CoveringMeans(DEFAULT_RULES);
    var all := DEFAULT_RULES;
    assert all[0] in all && all[2] in all && all[3] in all;
    PlainNodeModules();
    PlainNpmrc();
    PlainPackageLock();
    PlainTopLevelVerdict(all, NODE_MODULES, true);
    PlainTopLevelVerdict(all, NPMRC, false);
    PlainTopLevelVerdict(all, PACKAGE_LOCK, false);
  }
}
