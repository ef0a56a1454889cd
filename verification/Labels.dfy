/** The canonical form of a runner label. */
module Labels {
  import opened Strings
  import opened Whitespace

  /** What is used of `toLowerCase`, whatever the script: doing it twice changes
      nothing more, and it leaves no white space at the ends of a trimmed string. */
  ghost predicate LowersLabels(lower: string -> string) {
    && (forall s :: lower(lower(s)) == lower(s))
    && (forall s :: Trim(s) == s ==> Trim(lower(s)) == lower(s))
  }

  function CanonicalizeLabel(lower: string -> string, raw: string): string {
    lower(Trim(raw))
  }

  function CanonicalizeLabels(lower: string -> string, raw: seq<string>): (r: seq<string>)
    ensures |r| == |raw| && forall i | 0 <= i < |raw| :: r[i] == CanonicalizeLabel(lower, raw[i])
  {
    seq(|raw|, i requires 0 <= i < |raw| => CanonicalizeLabel(lower, raw[i]))
  }

  predicate Padded(a: string, p: string, x: string, q: string) {
    AllTrimmed(p) && AllTrimmed(q) && a == p + x + q
  }

  /** `x` is what `a` holds between its outer white space. */
  ghost predicate Inside(a: string, x: string) {
    Trim(x) == x && exists p, q :: Padded(a, p, x, q)
  }

  /** The same letters, whatever their case and the white space around them. */
  ghost predicate SpelledAlike(lower: string -> string, a: string, b: string) {
    exists x, y :: Inside(a, x) && Inside(b, y) && lower(x) == lower(y)
  }

  lemma CanonicalizeIdempotent(lower: string -> string, raw: string)
    requires LowersLabels(lower)
    ensures CanonicalizeLabel(lower, CanonicalizeLabel(lower, raw)) == CanonicalizeLabel(lower, raw)
  {
    TrimDone(raw);
    assert lower(lower(Trim(raw))) == lower(Trim(raw));
  }

  /** Two labels have one canonical form exactly when they are spelled alike. */
  lemma CanonicalIffSpelledAlike(lower: string -> string, a: string, b: string)
    ensures CanonicalizeLabel(lower, a) == CanonicalizeLabel(lower, b) <==> SpelledAlike(lower, a, b)
  {
    if SpelledAlike(lower, a, b) {
      var x, y :| Inside(a, x) && Inside(b, y) && lower(x) == lower(y);
      PadsAreTrimmed(a, x);
      PadsAreTrimmed(b, y);
    }
    TrimIsInside(a);
    TrimIsInside(b);
  }

  lemma PadsAreTrimmed(a: string, x: string)
    requires Inside(a, x)
    ensures Trim(a) == x
  {
    var p, q :| Padded(a, p, x, q);
    TrimPadded(p, x, q);
  }

  lemma TrimIsInside(s: string)
    ensures Inside(s, Trim(s))
  {
    TrimDone(s);
    var p, q := StartPad(s), EndPad(TrimStart(s));
    assert s == p + (Trim(s) + q);
    assert Padded(s, p, Trim(s), q);
  }

  function StartPad(s: string): (p: string)
    ensures AllTrimmed(p) && s == p + TrimStart(s)
  {
    if s != "" && IsTrimmed(s[0]) then [s[0]] + StartPad(s[1..]) else ""
  }

  function EndPad(s: string): (q: string)
    ensures AllTrimmed(q) && s == TrimEnd(s) + q
  {
    if s != "" && IsTrimmed(s[|s| - 1]) then EndPad(s[..|s| - 1]) + [s[|s| - 1]] else ""
  }

  // ----- Lower-casing ASCII letters is one such function.

  function LowerChar(c: char): char {
    if 'A' <= c <= 'Z' then 'a' + (c - 'A') else c
  }

  function LowerAscii(s: string): string {
    seq(|s|, i requires 0 <= i < |s| => LowerChar(s[i]))
  }

  lemma {:induction false} LowerTrimStart(s: string)
    ensures TrimStart(LowerAscii(s)) == LowerAscii(TrimStart(s))
  {
    if s != "" && IsTrimmed(s[0]) {
      assert LowerAscii(s)[1..] == LowerAscii(s[1..]);
      LowerTrimStart(s[1..]);
    }
  }

  lemma {:induction false} LowerTrimEnd(s: string)
    ensures TrimEnd(LowerAscii(s)) == LowerAscii(TrimEnd(s))
  {
    if s != "" && IsTrimmed(s[|s| - 1]) {
      assert LowerAscii(s)[..|s| - 1] == LowerAscii(s[..|s| - 1]);
      LowerTrimEnd(s[..|s| - 1]);
    }
  }

  lemma AsciiLowersLabels()
    ensures LowersLabels(LowerAscii)
  {
    forall s ensures LowerAscii(LowerAscii(s)) == LowerAscii(s) && Trim(LowerAscii(s)) == LowerAscii(Trim(s)) {
      LowerTrimStart(s);
      LowerTrimEnd(TrimStart(s));
    }
  }
}
