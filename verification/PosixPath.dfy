/** The `path.posix` functions `symlinkPackFault` is written with. */
module PosixPath {
  import opened Strings

  /** `normalizeString`: one pass over the segments with a stack. */
  function Resolve(segments: seq<string>, allowAboveRoot: bool): (stack: seq<string>)
    ensures forall i | 0 <= i < |stack| :: stack[i] in segments && stack[i] != "" && stack[i] != "."
  {
    if segments == [] then []
    else
      var stack := Resolve(segments[..|segments| - 1], allowAboveRoot);
      var last := segments[|segments| - 1];
      if last == "" || last == "." then stack
      else if last != ".." then stack + [last]
      else if stack != [] && stack[|stack| - 1] != ".." then stack[..|stack| - 1]
      else if allowAboveRoot then stack + [".."]
      else stack
  }

  /** `path.posix.normalize`. */
  function Normalize(path: string): string {
    if path == "" then "."
    else
      var absolute, trailing := path[0] == '/', path[|path| - 1] == '/';
      var body := Join(Resolve(Split(path, '/'), !absolute), '/');
      if body == "" then (if absolute then "/" else if trailing then "./" else ".")
      else (if absolute then "/" else "") + body + (if trailing then "/" else "")
  }

  /** `path.posix.join` of two arguments. */
  function JoinPaths(a: string, b: string): string {
    if a == "" && b == "" then "."
    else if a == "" then Normalize(b)
    else if b == "" then Normalize(a)
    else Normalize(a + "/" + b)
  }

  /** `path.posix.dirname` of a relative path that does not end in a slash. */
  function Dirname(path: string): string {
    var segments := Split(path, '/');
    if |segments| == 1 then "." else Join(segments[..|segments| - 1], '/')
  }

  /** The directory of a path is what stands before its last slash. */
  lemma DirnameDropsTheName(dir: string, name: string)
    requires '/' !in name
    ensures Dirname(dir + "/" + name) == dir && Dirname(name) == "."
  {
    SplitOfPlain(name, '/');
    SplitConcat(dir, name, '/');
    JoinSplit(dir, '/');
    var segments := Split(dir, '/') + [name];
    assert dir + ['/'] + name == dir + "/" + name && segments[..|segments| - 1] == Split(dir, '/');
  }

  // ----- Walking a path, counting depth.

  function Step(segment: string): int {
    if segment == "" || segment == "." then 0 else if segment == ".." then -1 else 1
  }

  function Depth(segments: seq<string>): int {
    if segments == [] then 0 else Depth(segments[..|segments| - 1]) + Step(segments[|segments| - 1])
  }

  predicate AboveAt(segments: seq<string>, n: int) {
    0 <= n <= |segments| && Depth(segments[..n]) < 0
  }

  /** Some prefix of the walk stands above where it began. */
  predicate ClimbsOut(segments: seq<string>) {
    exists n | 0 <= n <= |segments| :: AboveAt(segments, n)
  }

  lemma AboveAtFront(segments: seq<string>, n: int)
    requires segments != [] && 0 <= n < |segments|
    ensures AboveAt(segments, n) <==> AboveAt(segments[..|segments| - 1], n)
  {
    assert segments[..|segments| - 1][..n] == segments[..n];
  }

  lemma ClimbsOutSnoc(segments: seq<string>)
    requires segments != []
    ensures ClimbsOut(segments) <==> ClimbsOut(segments[..|segments| - 1]) || Depth(segments) < 0
  {
    var front := segments[..|segments| - 1];
    assert segments[..|segments|] == segments;
    if ClimbsOut(segments) {
      var n :| 0 <= n <= |segments| && AboveAt(segments, n);
      if n < |segments| { AboveAtFront(segments, n); }
    }
    if ClimbsOut(front) {
      var n :| 0 <= n <= |front| && AboveAt(front, n);
      AboveAtFront(segments, n);
    }
    assert Depth(segments) < 0 ==> AboveAt(segments, |segments|);
  }

  /** The stack ends with `..` at its bottom exactly when the walk climbed out;
      otherwise its height is the depth. */
  lemma {:induction false} StackTellsDepth(segments: seq<string>)
    ensures var stack := Resolve(segments, true);
            if ClimbsOut(segments) then stack != [] && stack[0] == ".."
            else |stack| == Depth(segments) && ".." !in stack
  {
    if segments == [] {
      assert !AboveAt(segments, 0);
    } else {
      StackTellsDepth(segments[..|segments| - 1]);
      ClimbsOutSnoc(segments);
    }
  }

  /** Resolving what is already resolved changes nothing. */
  lemma {:induction false} ResolveResolved(segments: seq<string>, tail: seq<string>)
    requires tail == [] || tail == [""]
    ensures Resolve(Resolve(segments, true) + tail, true) == Resolve(segments, true)
  {
    var stack := Resolve(segments, true);
    StackIsResolved(segments);
    if tail == [""] {
      assert (stack + tail)[..|stack|] == stack;
    } else {
      assert stack + tail == stack;
    }
  }

  /** A relative stack: some `..`s, then no more. */
  predicate UpThenDown(stack: seq<string>) {
    forall i, j | 0 <= i < j < |stack| :: stack[j] == ".." ==> stack[i] == ".."
  }

  lemma {:induction false} ResolveShape(segments: seq<string>)
    ensures UpThenDown(Resolve(segments, true))
  {
    if segments != [] {
      ResolveShape(segments[..|segments| - 1]);
    }
  }

  predicate Stacked(stack: seq<string>) {
    UpThenDown(stack) && forall i | 0 <= i < |stack| :: stack[i] != "" && stack[i] != "."
  }

  lemma StackedFront(stack: seq<string>)
    requires stack != [] && Stacked(stack)
    ensures Stacked(stack[..|stack| - 1])
    ensures |stack| > 1 && stack[|stack| - 1] == ".." ==> stack[|stack| - 2] == ".."
  {
  }

  lemma {:induction false} ResolveFixed(stack: seq<string>)
    requires Stacked(stack)
    ensures Resolve(stack, true) == stack
  {
    if stack != [] {
      StackedFront(stack);
      ResolveFixed(stack[..|stack| - 1]);
    }
  }

  lemma StackIsResolved(segments: seq<string>)
    ensures Resolve(Resolve(segments, true), true) == Resolve(segments, true)
  {
    ResolveShape(segments);
    ResolveFixed(Resolve(segments, true));
  }

  /** `r === '..' || r.startsWith('../')`. */
  predicate IsAboveRoot(r: string) {
    r == ".." || StartsWith(r, "../")
  }

  lemma AboveRootIsFirstSegment(r: string)
    ensures IsAboveRoot(r) <==> Split(r, '/')[0] == ".."
  {
    SplitOfPlain("..", '/');
    if StartsWith(r, "../") {
      assert r == ".." + ['/'] + r[3..];
      SplitConcat("..", r[3..], '/');
    }
    JoinSplit(r, '/');
    var segments := Split(r, '/');
    if |segments| > 1 && segments[0] == ".." {
      assert r == ".." + ['/'] + Join(segments[1..], '/');
    }
  }

  /** The segments of a normalized relative path: the resolved stack, and an
      empty one for a trailing slash. */
  lemma NormalizedSegments(path: string)
    requires path != "" && path[0] != '/'
    ensures var stack := Resolve(Split(path, '/'), true);
            if stack == [] then Normalize(path) == "." || Normalize(path) == "./"
            else Split(Normalize(path), '/') == stack || Split(Normalize(path), '/') == stack + [""]
    ensures Normalize(path) != "" && Normalize(path)[0] != '/'
  {
    var stack := Resolve(Split(path, '/'), true);
    if stack != [] {
      SplitPiecesPlain(path, '/');
      assert forall p | p in stack :: '/' !in p;
      SplitJoin(stack, '/');
      var body := Join(stack, '/');
      JoinHead(stack);
      SplitConcat(body, "", '/');
      assert body + ['/'] + "" == body + "/";
      SplitOfPlain("", '/');
      assert Normalize(path) == body || Normalize(path) == body + "/" by {
        assert "" + body + "" == body && "" + body + "/" == body + "/";
      }
    }
  }

  lemma JoinHead(stack: seq<string>)
    requires stack != [] && stack[0] != "" && '/' !in stack[0]
    ensures Join(stack, '/') != "" && Join(stack, '/')[0] != '/'
  {
    assert stack[0][0] in stack[0];
  }

  /** A second normalization resolves to the same stack. */
  lemma Renormalize(path: string)
    requires path != "" && path[0] != '/'
    ensures var once := Normalize(path);
            once != "" && once[0] != '/' && Resolve(Split(once, '/'), true) == Resolve(Split(path, '/'), true)
  {
    var segments := Split(path, '/');
    NormalizedSegments(path);
    if Resolve(segments, true) == [] {
      DotSegments();
      DotResolves();
    } else {
      ResolveResolved(segments, []);
      ResolveResolved(segments, [""]);
      assert Resolve(segments, true) + [] == Resolve(segments, true);
    }
  }

  lemma NormalizedFirst(path: string)
    requires path != "" && path[0] != '/'
    ensures Split(Normalize(path), '/')[0] == ".."
       <==> Resolve(Split(path, '/'), true) != [] && Resolve(Split(path, '/'), true)[0] == ".."
  {
    NormalizedSegments(path);
    DotSegments();
    var stack := Resolve(Split(path, '/'), true);
    if stack != [] {
      assert (stack + [""])[0] == stack[0];
    }
  }

  lemma DotSegments()
    ensures Split(".", '/') == ["."] && Split("./", '/') == [".", ""]
    ensures "." != ".."
  {
    SplitOfPlain(".", '/');
    SplitOfPlain("", '/');
    assert "." + ['/'] + "" == "./";
    SplitConcat(".", "", '/');
    assert ["."] + [""] == [".", ""];
  }

  /** Normalizing twice, then looking for a leading `..`, is the depth count. */
  lemma NormalizeTellsEscape(path: string)
    requires path != "" && path[0] != '/'
    ensures IsAboveRoot(Normalize(Normalize(path))) <==> ClimbsOut(Split(path, '/'))
  {
    StackTellsDepth(Split(path, '/'));
    Renormalize(path);
    NormalizedFirst(Normalize(path));
    AboveRootIsFirstSegment(Normalize(Normalize(path)));
  }

  lemma DotResolves()
    ensures Resolve(["."], true) == [] && Resolve([".", ""], true) == []
  {
    assert ["."][..0] == [] && [".", ""][..1] == ["."];
  }
}
