/** Ignore patterns as globs, and the regular expressions they compile to
    (`globToRegExpSource` and the last lines of `compilePattern`). */
module Glob {
  import opened Strings
  import opened EcmaRegExp

  // ----- What a glob means, with no regular expression in sight.

  predicate CrossesNoLine(text: string) {
    forall c | c in text :: !IsLineTerminator(c)
  }

  /** `*` runs inside one segment, `**` runs across segments (but, as the code
      has it, not across a line terminator), `?` is one non-slash character,
      every other character is itself. */
  predicate GlobMatches(glob: string, text: string)
    decreases |glob|
  {
    if glob == "" then text == ""
    else if glob[0] == '*' then
      if |glob| > 1 && glob[1] == '*' then
        exists k | 0 <= k <= |text| :: CrossesNoLine(text[..k]) && GlobMatches(glob[2..], text[k..])
      else
        exists k | 0 <= k <= |text| :: '/' !in text[..k] && GlobMatches(glob[1..], text[k..])
    else
      && text != ""
      && (if glob[0] == '?' then text[0] != '/' else text[0] == glob[0])
      && GlobMatches(glob[1..], text[1..])
  }

  /** The same reading with `**` crossing anything, as the file format documents it. */
  predicate DocumentedGlob(glob: string, text: string)
    decreases |glob|
  {
    if glob == "" then text == ""
    else if glob[0] == '*' then
      if |glob| > 1 && glob[1] == '*' then
        exists k | 0 <= k <= |text| :: DocumentedGlob(glob[2..], text[k..])
      else
        exists k | 0 <= k <= |text| :: '/' !in text[..k] && DocumentedGlob(glob[1..], text[k..])
    else
      && text != ""
      && (if glob[0] == '?' then text[0] != '/' else text[0] == glob[0])
      && DocumentedGlob(glob[1..], text[1..])
  }

  /** Every path the code matches is documented to match; on a path without line
      terminators the two readings agree. */
  lemma {:induction false} CodeAndDocumentation(glob: string, text: string)
    ensures GlobMatches(glob, text) ==> DocumentedGlob(glob, text)
    ensures CrossesNoLine(text) ==> (GlobMatches(glob, text) <==> DocumentedGlob(glob, text))
    decreases |glob|
  {
    if glob != "" {
      if glob[0] == '*' {
        var rest := if |glob| > 1 && glob[1] == '*' then glob[2..] else glob[1..];
        forall k | 0 <= k <= |text|
          ensures GlobMatches(rest, text[k..]) ==> DocumentedGlob(rest, text[k..])
          ensures CrossesNoLine(text) ==>
                    CrossesNoLine(text[..k]) && (GlobMatches(rest, text[k..]) <==> DocumentedGlob(rest, text[k..]))
        {
          CodeAndDocumentation(rest, text[k..]);
        }
      } else if text != "" {
        CodeAndDocumentation(glob[1..], text[1..]);
      }
    }
  }

  lemma DoubleStar(text: string)
    ensures DocumentedGlob("**", text)
    ensures GlobMatches("**", text) <==> CrossesNoLine(text)
  {
    assert "**"[2..] == "" && text[|text|..] == "" && text[..|text|] == text;
    assert DocumentedGlob("", text[|text|..]) && GlobMatches("", text[|text|..]);
    assert forall k | 0 <= k <= |text| :: GlobMatches("", text[k..]) ==> k == |text|;
  }

  /** The two readings agree on a path, over all patterns, exactly when the path
      holds no line terminator: on any that does, `**` tells them apart. */
  lemma ReadingsAgreeIff(text: string)
    ensures (forall glob :: GlobMatches(glob, text) <==> DocumentedGlob(glob, text)) <==> CrossesNoLine(text)
  {
    DoubleStar(text);
    if CrossesNoLine(text) {
      forall glob ensures GlobMatches(glob, text) <==> DocumentedGlob(glob, text) {
        CodeAndDocumentation(glob, text);
      }
    }
  }

  /** For one, a path that is a line break. */
  lemma LineBreakPartsThem()
    ensures DocumentedGlob("**", "\n") && !GlobMatches("**", "\n")
  {
    DoubleStar("\n");
    assert "\n"[0] in "\n";
  }

  predicate Literal(glob: string) {
    '*' !in glob && '?' !in glob
  }

  lemma {:induction false} LiteralMatchesItself(glob: string, text: string)
    requires Literal(glob)
    ensures GlobMatches(glob, text) <==> text == glob
  {
    if glob != "" && text != "" {
      LiteralMatchesItself(glob[1..], text[1..]);
      assert glob == [glob[0]] + glob[1..] && text == [text[0]] + text[1..];
    }
  }

  // ----- A glob means what its parts mean, one after the other.

  /** The first wildcard or character alone. */
  lemma OneWildcard(text: string)
    ensures GlobMatches("?", text) <==> |text| == 1 && text[0] != '/'
    ensures GlobMatches("*", text) <==> '/' !in text
  {
    assert "?"[1..] == "" && "*"[1..] == "" && text[|text|..] == "" && text[..|text|] == text;
    assert GlobMatches("", text[|text|..]);
    assert forall k | 0 <= k <= |text| :: GlobMatches("", text[k..]) ==> k == |text|;
    assert text != "" ==> (text[1..] == "" <==> |text| == 1);
  }

  /** Where `glob` ends in `text` and `more` begins. */
  predicate MeetAt(glob: string, more: string, text: string, k: int) {
    0 <= k <= |text| && GlobMatches(glob, text[..k]) && GlobMatches(more, text[k..])
  }

  /** A star, of either width, at the head of a glob. */
  predicate StarTakes(glob: string, text: string, k: int)
    requires glob != "" && glob[0] == '*'
  {
    0 <= k <= |text| && (if HeadWidth(glob) == 2 then CrossesNoLine(text[..k]) else '/' !in text[..k])
  }

  lemma StarAtHead(glob: string, text: string)
    requires glob != "" && glob[0] == '*'
    ensures GlobMatches(glob, text) <==>
              exists k :: StarTakes(glob, text, k) && GlobMatches(glob[HeadWidth(glob)..], text[k..])
  {
    if GlobMatches(glob, text) {
      if HeadWidth(glob) == 2 {
        var k :| 0 <= k <= |text| && CrossesNoLine(text[..k]) && GlobMatches(glob[2..], text[k..]);
        assert StarTakes(glob, text, k);
      } else {
        var k :| 0 <= k <= |text| && '/' !in text[..k] && GlobMatches(glob[1..], text[k..]);
        assert StarTakes(glob, text, k);
      }
    }
  }

  lemma StarShifts(glob: string, more: string, text: string, k: int, m: int)
    requires glob != "" && glob[0] == '*' && 0 <= k <= m <= |text|
    requires HeadWidth(glob + more) == HeadWidth(glob)
    ensures StarTakes(glob + more, text, k) <==> StarTakes(glob, text[..m], k)
  {
    assert text[..m][..k] == text[..k];
  }

  /** Two globs written one after the other match what splits between them, unless a
      star would be torn apart. */
  lemma {:induction false} GlobConcat(glob: string, more: string, text: string)
    requires glob == "" || more == "" || glob[|glob| - 1] != '*' || more[0] != '*'
    ensures GlobMatches(glob + more, text) <==> exists k :: MeetAt(glob, more, text, k)
    decreases |glob|
  {
    if glob == "" {
      assert glob + more == more && text[0..] == text && text[..0] == "";
      assert GlobMatches(more, text) ==> MeetAt(glob, more, text, 0);
    } else {
      var w := HeadWidth(glob);
      var rest := glob[w..];
      assert (glob + more)[w..] == rest + more;
      if glob[0] == '*' {
        assert HeadWidth(glob + more) == w;
        if GlobMatches(glob + more, text) { StarSplits(glob, more, text); }
        if k :| MeetAt(glob, more, text, k) { StarMeets(glob, more, text, k); }
      } else if text != "" {
        GlobConcat(rest, more, text[1..]);
        if k :| MeetAt(rest, more, text[1..], k) {
          assert text[..k + 1][1..] == text[1..][..k] && text[k + 1..] == text[1..][k..];
          assert GlobMatches(glob + more, text) ==> MeetAt(glob, more, text, k + 1);
        }
        if k :| MeetAt(glob, more, text, k) {
          assert text[..k][1..] == text[1..][..k - 1] && text[k..] == text[1..][k - 1..];
          assert MeetAt(rest, more, text[1..], k - 1);
        }
      }
    }
  }

  lemma {:induction false} StarSplits(glob: string, more: string, text: string)
    requires glob != "" && glob[0] == '*' && GlobMatches(glob + more, text)
    requires more == "" || glob[|glob| - 1] != '*' || more[0] != '*'
    ensures exists k :: MeetAt(glob, more, text, k)
    decreases |glob|, 0
  {
    var w := HeadWidth(glob);
    var rest := glob[w..];
    assert (glob + more)[w..] == rest + more && HeadWidth(glob + more) == w;
    StarAtHead(glob + more, text);
    var k :| StarTakes(glob + more, text, k) && GlobMatches(rest + more, text[k..]);
    GlobConcat(rest, more, text[k..]);
    var m :| MeetAt(rest, more, text[k..], m);
    assert text[..k + m][k..] == text[k..][..m] && text[k + m..] == text[k..][m..];
    StarShifts(glob, more, text, k, k + m);
    StarAtHead(glob, text[..k + m]);
    assert MeetAt(glob, more, text, k + m);
  }

  lemma {:induction false} StarMeets(glob: string, more: string, text: string, m: int)
    requires glob != "" && glob[0] == '*' && MeetAt(glob, more, text, m)
    requires more == "" || glob[|glob| - 1] != '*' || more[0] != '*'
    ensures GlobMatches(glob + more, text)
    decreases |glob|, 0
  {
    var w := HeadWidth(glob);
    var rest := glob[w..];
    assert (glob + more)[w..] == rest + more && HeadWidth(glob + more) == w;
    StarAtHead(glob, text[..m]);
    var k :| StarTakes(glob, text[..m], k) && GlobMatches(rest, text[..m][k..]);
    assert text[..m][k..] == text[k..][..m - k] && text[m..] == text[k..][m - k..];
    assert MeetAt(rest, more, text[k..], m - k);
    GlobConcat(rest, more, text[k..]);
    StarShifts(glob, more, text, k, m);
    StarAtHead(glob + more, text);
  }

  // ----- Compilation.

  function Escaped(c: char): string {
    if IsSyntaxCharacter(c) then ['\\', c] else [c]
  }

  /** How many characters the first wildcard or literal of a glob takes. */
  function HeadWidth(glob: string): (n: nat)
    requires glob != ""
    ensures 0 < n <= |glob|
  {
    if glob[0] == '*' && |glob| > 1 && glob[1] == '*' then 2 else 1
  }

  function HeadSource(glob: string): string
    requires glob != ""
  {
    if glob[0] == '*' then (if HeadWidth(glob) == 2 then ".*" else "[^/]*")
    else if glob[0] == '?' then "[^/]"
    else Escaped(glob[0])
  }

  function GlobSource(glob: string): string
    decreases |glob|
  {
    if glob == "" then "" else HeadSource(glob) + GlobSource(glob[HeadWidth(glob)..])
  }

  method GlobToRegExpSource(glob: string) returns (out: string)
    ensures out == GlobSource(glob)
  {
    out := "";
    var i := 0;
    while i < |glob|
      invariant 0 <= i <= |glob|
      invariant GlobSource(glob) == out + GlobSource(glob[i..])
    {
      var ch := glob[i];
      ghost var before, rest := out, glob[i..];
      var piece;
      if ch == '*' {
        if i + 1 < |glob| && glob[i + 1] == '*' {
          piece := ".*";
          i := i + 1;
        } else {
          piece := "[^/]*";
        }
      } else if ch == '?' {
        piece := "[^/]";
      } else {
        piece := Escaped(ch);
      }
      out := out + piece;
      i := i + 1;
      assert rest[HeadWidth(rest)..] == glob[i..] && piece == HeadSource(rest);
      Associative(before, piece, GlobSource(glob[i..]));
    }
    assert out + "" == out;
  }

  /** The one term a glob's head compiles to. */
  function HeadRe(glob: string): Re
    requires glob != ""
  {
    if glob[0] == '*' then Star(if HeadWidth(glob) == 2 then Dot else Class(true, "/"))
    else if glob[0] == '?' then Class(true, "/")
    else Chr(glob[0])
  }

  /** The pattern `GlobSource(glob)` denotes, followed by `tail`. */
  function GlobRe(glob: string, tail: Re): Re
    decreases |glob|
  {
    if glob == "" then tail else Cat(HeadRe(glob), GlobRe(glob[HeadWidth(glob)..], tail))
  }

  const TO_END: Re := Cat(Eol, Empty)

  function AnchoredSource(body: string): string {
    "^" + GlobSource(body) + "$"
  }

  function FloatingSource(body: string): string {
    "(?:^|/)" + GlobSource(body) + "$"
  }

  // ----- The text parses to that pattern.

  lemma ParseNotSlash(s: string, t: string)
    requires s == "[^/]" + t
    ensures ParseAtom(s) == Some((Class(true, "/"), t))
  {
    var u := s[2..];
    assert u[0] == '/' && u[1] == ']' && u[1..][0] == ']' && u[1..][1..] == t;
    assert "" + ['/'] == "/";
    assert ParseClass(u[1..], true, "/") == Some((Class(true, "/"), t));
  }

  lemma {:induction false} GlobSourceStartsNoQuantifier(glob: string, t: string)
    requires !StartsWithQuantifier(t)
    ensures !StartsWithQuantifier(GlobSource(glob) + t)
  {
    if glob == "" {
      assert GlobSource(glob) + t == t;
    }
  }

  /** One term, starred or not, in front of text that is already understood. */
  lemma ParseOneTerm(s: string, atom: Re, after: string, star: bool, t: string, tail: Re, rest: string)
    requires s != "" && s[0] !in "^$|)"
    requires ParseAtom(s) == Some((atom, after))
    requires after == if star then "*" + t else t
    requires !StartsWithQuantifier(t)
    requires ParseAlternative(t) == Some((tail, rest))
    ensures ParseAlternative(s) == Some((Cat(if star then Star(atom) else atom, tail), rest))
  {
    if star {
      assert after[1..] == t;
    }
    assert ParseTerm(s) == Some((if star then Star(atom) else atom, t));
  }

  lemma {:induction false} ParseGlob(glob: string, t: string, tail: Re, rest: string)
    requires !StartsWithQuantifier(t)
    requires ParseAlternative(t) == Some((tail, rest))
    ensures ParseAlternative(GlobSource(glob) + t) == Some((GlobRe(glob, tail), rest))
    decreases |glob|
  {
    if glob == "" {
      assert GlobSource(glob) + t == t;
    } else {
      var more := glob[HeadWidth(glob)..];
      var t' := GlobSource(more) + t;
      GlobSourceStartsNoQuantifier(more, t);
      ParseGlob(more, t, tail, rest);
      ParseGlobHead(glob, HeadSource(glob) + t', t', GlobRe(more, tail), rest);
      Associative(HeadSource(glob), GlobSource(more), t);
    }
  }

  lemma ParseGlobHead(glob: string, s: string, t: string, tail: Re, rest: string)
    requires glob != ""
    requires !StartsWithQuantifier(t) && ParseAlternative(t) == Some((tail, rest))
    requires s == HeadSource(glob) + t
    ensures ParseAlternative(s) == Some((Cat(HeadRe(glob), tail), rest))
  {
    if glob[0] == '*' {
      var after := "*" + t;
      if HeadWidth(glob) == 2 {
        assert s[1..] == after;
        ParseOneTerm(s, Dot, after, true, t, tail, rest);
      } else {
        assert s == "[^/]" + after;
        ParseNotSlash(s, after);
        ParseOneTerm(s, Class(true, "/"), after, true, t, tail, rest);
      }
    } else if glob[0] == '?' {
      ParseNotSlash(s, t);
      ParseOneTerm(s, Class(true, "/"), t, false, t, tail, rest);
    } else {
      assert s[|Escaped(glob[0])|..] == t;
      ParseOneTerm(s, Chr(glob[0]), t, false, t, tail, rest);
    }
  }

  lemma ParseToEnd()
    ensures ParseAlternative("$") == Some((TO_END, ""))
  {
    assert "$"[1..] == "";
  }

  lemma ParseAnchored(body: string)
    ensures Parse(AnchoredSource(body)) == Some(Cat(Bol, GlobRe(body, TO_END)))
  {
    ParseToEnd();
    ParseGlob(body, "$", TO_END, "");
    var s := AnchoredSource(body);
    var t := GlobSource(body) + "$";
    assert s[1..] == t;
    assert ParseTerm(s) == Some((Bol, t));
    assert ParseAlternative(s) == Some((Cat(Bol, GlobRe(body, TO_END)), ""));
  }

  const BOUNDARY: Re := Or(Cat(Bol, Empty), Cat(Chr('/'), Empty))

  lemma ParseBoundary(s: string, t: string)
    requires s == "(?:^|/)" + t
    ensures ParseAtom(s) == Some((BOUNDARY, t))
  {
    var u := s[3..];
    var v := u[1..];
    var w := v[1..];
    var x := w[1..];
    assert u[0] == '^' && v[0] == '|' && w[0] == '/' && x[0] == ')' && x[1..] == t;
    assert ParseAlternative(v) == Some((Empty, v));
    assert ParseAlternative(u) == Some((Cat(Bol, Empty), v));
    assert ParseAlternative(x) == Some((Empty, x));
    assert ParseTerm(w) == Some((Chr('/'), x));
    assert ParseAlternative(w) == Some((Cat(Chr('/'), Empty), x));
    assert ParseDisjunction(w) == Some((Cat(Chr('/'), Empty), x));
    assert ParseDisjunction(u) == Some((BOUNDARY, x));
  }

  lemma ParseFloating(body: string)
    ensures Parse(FloatingSource(body)) == Some(Cat(BOUNDARY, GlobRe(body, TO_END)))
  {
    ParseToEnd();
    ParseGlob(body, "$", TO_END, "");
    GlobSourceStartsNoQuantifier(body, "$");
    var s := FloatingSource(body);
    var t := GlobSource(body) + "$";
    assert s == "(?:^|/)" + t;
    ParseBoundary(s, t);
    ParseOneTerm(s, BOUNDARY, t, false, t, GlobRe(body, TO_END), "");
  }

  // ----- That pattern means the glob.

  predicate AcceptsOne(body: Re, c: char)
    requires body.Dot? || body.Class?
  {
    if body.Dot? then !IsLineTerminator(c) else ClassHas(body.negated, body.members, c)
  }

  lemma {:induction false} StarOfOne(body: Re, s: string, i: nat, j: nat)
    requires body.Dot? || body.Class?
    requires i <= j <= |s|
    ensures Matches(Star(body), s, i, j) <==> forall k | i <= k < j :: AcceptsOne(body, s[k])
    decreases j - i
  {
    forall k | i < k <= j
      ensures Matches(Star(body), s, k, j) <==> forall m | k <= m < j :: AcceptsOne(body, s[m])
    {
      StarOfOne(body, s, k, j);
    }
    if i < j && forall k | i <= k < j :: AcceptsOne(body, s[k]) {
      assert Between(i, i + 1, j) && Matches(body, s, i, i + 1) && Matches(Star(body), s, i + 1, j);
    }
  }

  predicate RunOf(body: Re, text: string)
    requires body.Dot? || body.Class?
  {
    forall c | c in text :: AcceptsOne(body, c)
  }

  lemma RunOfSlice(body: Re, s: string, i: nat, n: nat)
    requires body.Dot? || body.Class?
    requires i + n <= |s|
    ensures RunOf(body, s[i..][..n]) <==> Matches(Star(body), s, i, i + n)
    ensures s[i..][n..] == s[i + n..]
  {
    StarOfOne(body, s, i, i + n);
    var run := s[i..][..n];
    assert forall k | i <= k < i + n :: run[k - i] == s[k];
  }

  predicate SplitsAt(body: Re, glob: string, text: string, n: int)
    requires body.Dot? || body.Class?
  {
    0 <= n <= |text| && RunOf(body, text[..n]) && GlobMatches(glob, text[n..])
  }

  /** `text` splits into a run of `body` and a rest the glob matches. */
  ghost predicate RunThenGlob(body: Re, glob: string, text: string)
    requires body.Dot? || body.Class?
  {
    exists n :: SplitsAt(body, glob, text, n)
  }

  lemma RunSplitsAt(body: Re, glob: string, s: string, i: nat, n: nat)
    requires body.Dot? || body.Class?
    requires i + n <= |s|
    ensures SplitsAt(body, glob, s[i..], n) <==> Matches(Star(body), s, i, i + n) && GlobMatches(glob, s[i + n..])
  {
    RunOfSlice(body, s, i, n);
  }

  lemma StarThenSplits(body: Re, glob: string, s: string, i: nat, j: nat)
    requires body.Dot? || body.Class?
    requires i <= j <= |s| && Matches(Cat(Star(body), GlobRe(glob, TO_END)), s, i, j)
    requires forall k | i <= k <= j :: Matches(GlobRe(glob, TO_END), s, k, j) ==> j == |s| && GlobMatches(glob, s[k..])
    ensures j == |s| && RunThenGlob(body, glob, s[i..])
  {
    var tail := GlobRe(glob, TO_END);
    var k :| 0 <= k <= j && Between(i, k, j) && Matches(Star(body), s, i, k) && Matches(tail, s, k, j);
    RunSplitsAt(body, glob, s, i, k - i);
  }

  lemma StarThen(body: Re, glob: string, s: string, i: nat, j: nat)
    requires body.Dot? || body.Class?
    requires i <= j <= |s|
    requires forall k | i <= k <= j ::
               Matches(GlobRe(glob, TO_END), s, k, j) <==> j == |s| && GlobMatches(glob, s[k..])
    ensures Matches(Cat(Star(body), GlobRe(glob, TO_END)), s, i, j) <==> j == |s| && RunThenGlob(body, glob, s[i..])
  {
    var tail := GlobRe(glob, TO_END);
    if Matches(Cat(Star(body), tail), s, i, j) {
      StarThenSplits(body, glob, s, i, j);
    }
    if j == |s| && RunThenGlob(body, glob, s[i..]) {
      var n :| SplitsAt(body, glob, s[i..], n);
      RunSplitsAt(body, glob, s, i, n);
      assert Between(i, i + n, j) && Matches(tail, s, i + n, j);
    }
  }

  /** What one leading `*` or `**` repeats. */
  function StarBody(glob: string): Re
    requires glob != ""
  {
    if HeadWidth(glob) == 2 then Dot else Class(true, "/")
  }

  lemma StarIsRun(glob: string, text: string)
    requires glob != "" && glob[0] == '*'
    ensures RunThenGlob(StarBody(glob), glob[HeadWidth(glob)..], text) <==> GlobMatches(glob, text)
  {
    var body, rest := StarBody(glob), glob[HeadWidth(glob)..];
    assert forall t: string :: RunOf(body, t) <==> if body.Dot? then CrossesNoLine(t) else '/' !in t;
    if GlobMatches(glob, text) {
      var n :| 0 <= n <= |text| && RunOf(body, text[..n]) && GlobMatches(rest, text[n..]);
      assert SplitsAt(body, rest, text, n);
    }
  }

  lemma {:induction false} GlobReMeaning(glob: string, s: string, i: nat, j: nat)
    requires i <= j <= |s|
    ensures Matches(GlobRe(glob, TO_END), s, i, j) <==> j == |s| && GlobMatches(glob, s[i..])
    decreases |glob|
  {
    if glob == "" {
      assert Matches(TO_END, s, i, j) <==> i == j == |s| by {
        if i == j == |s| { assert Between(i, i, j) && Matches(Eol, s, i, i) && Matches(Empty, s, i, j); }
      }
    } else if glob[0] == '*' {
      var body, rest := StarBody(glob), glob[HeadWidth(glob)..];
      forall k | i <= k <= j
        ensures Matches(GlobRe(rest, TO_END), s, k, j) <==> j == |s| && GlobMatches(rest, s[k..])
      {
        GlobReMeaning(rest, s, k, j);
      }
      StarThen(body, rest, s, i, j);
      StarIsRun(glob, s[i..]);
    } else {
      var tail := GlobRe(glob[1..], TO_END);
      if i < j {
        GlobReMeaning(glob[1..], s, i + 1, j);
        assert s[i..][1..] == s[i + 1..];
        assert Between(i, i + 1, j);
      }
    }
  }

  // ----- Glob compilation preserves meaning.

  /** The anchored text accepts exactly the paths the glob matches whole. */
  lemma AnchoredMeaning(body: string, path: string)
    ensures Parse(AnchoredSource(body)).Some?
    ensures Test(AnchoredSource(body), path) <==> GlobMatches(body, path)
  {
    ParseAnchored(body);
    var tail := GlobRe(body, TO_END);
    assert path[0..] == path;
    GlobReMeaning(body, path, 0, |path|);
    if GlobMatches(body, path) {
      assert Between(0, 0, |path|) && Matches(Bol, path, 0, 0) && Matches(tail, path, 0, |path|);
      assert Matches(Cat(Bol, tail), path, 0, |path|);
    }
    if Finds(Cat(Bol, tail), path) {
      var i: nat, j: nat :| i <= j <= |path| && Matches(Cat(Bol, tail), path, i, j);
      var k :| 0 <= k <= j && Between(i, k, j) && Matches(Bol, path, i, k) && Matches(tail, path, k, j);
      GlobReMeaning(body, path, 0, j);
    }
  }

  /** Where a bare pattern may start: the path's start, or just after a slash. */
  predicate SegmentStart(path: string, k: nat)
    requires k <= |path|
  {
    k == 0 || path[k - 1] == '/'
  }

  lemma FloatingFinds(body: string, path: string, k: nat)
    requires k <= |path| && SegmentStart(path, k) && GlobMatches(body, path[k..])
    ensures Finds(Cat(BOUNDARY, GlobRe(body, TO_END)), path)
  {
    var i := if k == 0 then 0 else k - 1;
    var tail := GlobRe(body, TO_END);
    GlobReMeaning(body, path, k, |path|);
    BoundaryMeaning(path, i, k);
    assert Between(i, k, |path|) && Matches(BOUNDARY, path, i, k) && Matches(tail, path, k, |path|);
    assert Matches(Cat(BOUNDARY, tail), path, i, |path|);
  }

  lemma FoundFloating(body: string, path: string)
    requires Finds(Cat(BOUNDARY, GlobRe(body, TO_END)), path)
    ensures exists k | 0 <= k <= |path| :: SegmentStart(path, k) && GlobMatches(body, path[k..])
  {
    var tail := GlobRe(body, TO_END);
    var i: nat, j: nat :| i <= j <= |path| && Matches(Cat(BOUNDARY, tail), path, i, j);
    var k :| 0 <= k <= j && Between(i, k, j) && Matches(BOUNDARY, path, i, k) && Matches(tail, path, k, j);
    BoundaryMeaning(path, i, k);
    GlobReMeaning(body, path, k, j);
    assert SegmentStart(path, k);
  }

  /** The floating text accepts exactly the paths with a matching suffix that
      begins at a segment boundary. */
  lemma FloatingMeaning(body: string, path: string)
    ensures Parse(FloatingSource(body)).Some?
    ensures Test(FloatingSource(body), path)
       <==> exists k | 0 <= k <= |path| :: SegmentStart(path, k) && GlobMatches(body, path[k..])
  {
    ParseFloating(body);
    if Finds(Cat(BOUNDARY, GlobRe(body, TO_END)), path) {
      FoundFloating(body, path);
    }
    if k :| 0 <= k <= |path| && SegmentStart(path, k) && GlobMatches(body, path[k..]) {
      FloatingFinds(body, path, k);
    }
  }

  lemma BoundaryMeaning(path: string, i: nat, k: nat)
    requires i <= k <= |path|
    ensures Matches(BOUNDARY, path, i, k) <==> (i == k == 0 || (k == i + 1 && path[i] == '/'))
  {
    assert Between(i, i, k) && Between(i, k, k);
    if i < k {
      assert Between(i, i + 1, k);
    }
    assert Matches(Cat(Bol, Empty), path, i, k) <==> i == k == 0;
    assert Matches(Cat(Chr('/'), Empty), path, i, k) <==> k == i + 1 && path[i] == '/';
  }

  // ----- A bare pattern without `**` looks at the last segment only.

  predicate HasDoubleStar(glob: string) {
    exists i | 0 <= i < |glob| - 1 :: glob[i] == '*' && glob[i + 1] == '*'
  }

  lemma {:induction false} BareMatchesOneSegment(glob: string, text: string)
    requires '/' !in glob && !HasDoubleStar(glob)
    requires GlobMatches(glob, text)
    ensures '/' !in text
    decreases |glob|
  {
    if glob != "" {
      assert !HasDoubleStar(glob[1..]) by {
        forall i | 0 <= i < |glob| - 2 ensures !(glob[1..][i] == '*' && glob[1..][i + 1] == '*') {
          assert glob[i + 1] == glob[1..][i] && glob[i + 2] == glob[1..][i + 1];
        }
      }
      if glob[0] == '*' {
        var k :| 0 <= k <= |text| && '/' !in text[..k] && GlobMatches(glob[1..], text[k..]);
        BareMatchesOneSegment(glob[1..], text[k..]);
        assert text == text[..k] + text[k..];
      } else {
        BareMatchesOneSegment(glob[1..], text[1..]);
        assert text == [text[0]] + text[1..];
      }
    }
  }

  function LastSegment(path: string): (r: string)
    ensures '/' !in r
    ensures exists k | 0 <= k <= |path| :: SegmentStart(path, k) && r == path[k..]
  {
    if '/' !in path then
      assert SegmentStart(path, 0) && path == path[0..];
      path
    else
      var r := LastSegment(path[1..]);
      assert exists k | 0 <= k <= |path| :: SegmentStart(path, k) && r == path[k..] by {
        var k :| 0 <= k <= |path[1..]| && SegmentStart(path[1..], k) && r == path[1..][k..];
        assert path[1..][k..] == path[k + 1..];
        assert path == [path[0]] + path[1..];
        assert SegmentStart(path, k + 1);
      }
      r
  }

  /** Only one segment boundary has no slash after it. */
  lemma OneLastSegment(path: string, k: nat, m: nat)
    requires k <= |path| && SegmentStart(path, k) && '/' !in path[k..]
    requires m <= |path| && SegmentStart(path, m) && '/' !in path[m..]
    ensures k == m
  {
    assert forall i | k <= i < |path| :: path[i] == path[k..][i - k];
    assert forall i | m <= i < |path| :: path[i] == path[m..][i - m];
  }

  lemma BareDependsOnLastSegment(body: string, path: string)
    requires '/' !in body && !HasDoubleStar(body)
    ensures Test(FloatingSource(body), path) <==> GlobMatches(body, LastSegment(path))
  {
    FloatingMeaning(body, path);
    var last := LastSegment(path);
    var m :| 0 <= m <= |path| && SegmentStart(path, m) && last == path[m..];
    forall k | 0 <= k <= |path| && SegmentStart(path, k) && GlobMatches(body, path[k..])
      ensures path[k..] == last
    {
      BareMatchesOneSegment(body, path[k..]);
      OneLastSegment(path, k, m);
    }
  }
}
