/** Release versions and the order they are sorted in. */
module ReleaseVersion {
  import opened Strings

  predicate IsDigit(c: char) {
    '0' <= c <= '9'
  }

  predicate AllDigits(s: string) {
    s != "" && forall c | c in s :: IsDigit(c)
  }

  predicate IsPrereleaseChar(c: char) {
    IsDigit(c) || 'A' <= c <= 'Z' || 'a' <= c <= 'z' || c == '.' || c == '-'
  }

  predicate IsPrerelease(s: string) {
    s != "" && forall c | c in s :: IsPrereleaseChar(c)
  }

  datatype Version = Version(major: string, minor: string, patch: string, prerelease: Option<string>)

  predicate WellFormed(v: Version) {
    AllDigits(v.major) && AllDigits(v.minor) && AllDigits(v.patch) && (v.prerelease.Some? ==> IsPrerelease(v.prerelease.value))
  }

  function Base(v: Version): string {
    v.major + "." + v.minor + "." + v.patch
  }

  function Print(v: Version): string {
    Base(v) + if v.prerelease.Some? then "-" + v.prerelease.value else ""
  }

  // ----- Reading a version.

  /** The pieces before and after the first hyphen. */
  function CutAtHyphen(s: string): (string, Option<string>) {
    if s == "" then ("", None)
    else if s[0] == '-' then ("", Some(s[1..]))
    else var rest := CutAtHyphen(s[1..]); ([s[0]] + rest.0, rest.1)
  }

  function Parse(s: string): Option<Version> {
    var cut := CutAtHyphen(s);
    var parts := Split(cut.0, '.');
    if |parts| != 3 then None
    else
      var v := Version(parts[0], parts[1], parts[2], cut.1);
      if WellFormed(v) then Some(v) else None
  }

  lemma {:induction false} CutRejoins(s: string)
    ensures var cut := CutAtHyphen(s);
      && '-' !in cut.0
      && s == cut.0 + match cut.1 case None => "" case Some(p) => "-" + p
  {
    if s != "" && s[0] != '-' {
      CutRejoins(s[1..]);
    }
  }

  lemma {:induction false} CutOf(base: string, tail: string)
    requires '-' !in base && (tail == "" || tail[0] == '-')
    ensures CutAtHyphen(base + tail) == (base, if tail == "" then None else Some(tail[1..]))
  {
    if base == "" {
      assert base + tail == tail;
    } else {
      assert (base + tail)[0] == base[0] && (base + tail)[1..] == base[1..] + tail;
      CutOf(base[1..], tail);
      assert base[0] != '-' && [base[0]] + base[1..] == base;
    }
  }

  lemma ThreeParts(a: string, b: string, c: string)
    ensures Join([a, b, c], '.') == a + "." + b + "." + c
  {
    assert [a, b, c][1..] == [b, c] && [b, c][1..] == [c];
    assert Join([b, c], '.') == b + "." + Join([c], '.');
  }

  /** A string is a version exactly when it is the print of a well-formed one, and
      reading finds that one: nothing else is accepted. */
  lemma ParseIff(s: string, v: Version)
    ensures Parse(s) == Some(v) <==> WellFormed(v) && s == Print(v)
  {
    if Parse(s) == Some(v) {
      var cut := CutAtHyphen(s);
      CutRejoins(s);
      JoinSplit(cut.0, '.');
      ThreeParts(v.major, v.minor, v.patch);
      assert Split(cut.0, '.') == [v.major, v.minor, v.patch];
    }
    if WellFormed(v) && s == Print(v) {
      PrintParses(v);
    }
  }

  lemma PrintParses(v: Version)
    requires WellFormed(v)
    ensures Parse(Print(v)) == Some(v)
  {
    var parts := [v.major, v.minor, v.patch];
    ThreeParts(v.major, v.minor, v.patch);
    SplitJoin(parts, '.');
    var tail := if v.prerelease.Some? then "-" + v.prerelease.value else "";
    CutOf(Base(v), tail);
  }

  // ----- Comparing.

  /** `Number` on digits, without its rounding. */
  function Numeral(s: string): int
    requires forall c | c in s :: IsDigit(c)
  {
    if s == "" then 0 else 10 * Numeral(s[..|s| - 1]) + (s[|s| - 1] as int - '0' as int)
  }

  function CompareStrings(a: string, b: string): int {
    if Less(a, b) then -1 else if Less(b, a) then 1 else 0
  }

  function ComparePrerelease(a: string, b: string): int {
    if AllDigits(a) && AllDigits(b) then Numeral(a) - Numeral(b) else CompareStrings(a, b)
  }

  function Part(v: Version, i: nat): int
    requires WellFormed(v) && i < 3
  {
    Numeral(if i == 0 then v.major else if i == 1 then v.minor else v.patch)
  }

  predicate SameBase(a: Version, b: Version)
    requires WellFormed(a) && WellFormed(b)
  {
    forall i | 0 <= i < 3 :: Part(a, i) == Part(b, i)
  }

  function CompareTail(a: Option<string>, b: Option<string>): int {
    match (a, b)
    case (None, None) => 0
    case (None, Some(_)) => 1
    case (Some(_), None) => -1
    case (Some(p), Some(q)) => ComparePrerelease(p, q)
  }

  function Compare(a: Version, b: Version): int
    requires WellFormed(a) && WellFormed(b)
  {
    if Part(a, 0) != Part(b, 0) then Part(a, 0) - Part(b, 0)
    else if Part(a, 1) != Part(b, 1) then Part(a, 1) - Part(b, 1)
    else if Part(a, 2) != Part(b, 2) then Part(a, 2) - Part(b, 2)
    else CompareTail(a.prerelease, b.prerelease)
  }

  /** Throws exactly when one of the strings is no version. */
  method CompareReleaseVersions(a: string, b: string) returns (result: Option<int>)
    ensures result.Some? <==> Parse(a).Some? && Parse(b).Some?
    ensures result.Some? ==> result.value == Compare(Parse(a).value, Parse(b).value)
  {
    var ma, mb := Parse(a), Parse(b);
    if ma.None? || mb.None? { return None; }
    var i := 0;
    while i < 3
      invariant 0 <= i <= 3
      invariant forall j | 0 <= j < i :: Part(ma.value, j) == Part(mb.value, j)
    {
      var d := Part(ma.value, i) - Part(mb.value, i);
      if d != 0 { return Some(d); }
      i := i + 1;
    }
    assert Part(ma.value, 0) == Part(mb.value, 0) && Part(ma.value, 1) == Part(mb.value, 1) && Part(ma.value, 2) == Part(mb.value, 2);
    var pa, pb := ma.value.prerelease, mb.value.prerelease;
    if pa.None? && pb.None? { return Some(0); }
    if pa.None? { return Some(1); }
    if pb.None? { return Some(-1); }
    return Some(ComparePrerelease(pa.value, pb.value));
  }

  // ----- What kind of order it is.

  lemma CompareStringsFlips(a: string, b: string)
    ensures CompareStrings(a, b) == -CompareStrings(b, a)
    ensures CompareStrings(a, b) == 0 <==> a == b
  {
    LessTotal(a, b);
    LessIrreflexive(a);
    if Less(a, b) && Less(b, a) {
      LessTransitive(a, b, a);
    }
  }

  /** The first place two texts of one length differ in, and the first is smaller there. */
  predicate SmallerAt(a: string, b: string, i: nat) {
    i < |a| == |b| && a[..i] == b[..i] && a[i] < b[i]
  }

  lemma SmallerSnoc(x: string, c: char, y: string, d: char)
    requires |x| == |y|
    ensures (exists i :: SmallerAt(x + [c], y + [d], i)) <==> (exists i :: SmallerAt(x, y, i)) || (x == y && c < d)
  {
    var a, b, n := x + [c], y + [d], |x|;
    assert a[..n] == x && b[..n] == y;
    if i: nat :| SmallerAt(a, b, i) && i < n {
      assert x[..i] == a[..i] && y[..i] == b[..i];
      assert SmallerAt(x, y, i);
    }
    if i: nat :| SmallerAt(x, y, i) {
      assert x[..i] == a[..i] && y[..i] == b[..i];
      assert SmallerAt(a, b, i);
    }
    if x == y && c < d {
      assert SmallerAt(a, b, n);
    }
  }

  lemma NumeralSnoc(x: string, c: char)
    requires (forall e | e in x :: IsDigit(e)) && IsDigit(c)
    ensures (forall e | e in x + [c] :: IsDigit(e)) && Numeral(x + [c]) == 10 * Numeral(x) + (c as int - '0' as int)
  {
    assert (x + [c])[..|x|] == x;
  }

  /** Of two numerals of one length the smaller has the smaller digit where they
      first differ. */
  lemma {:induction false} NumeralOrder(a: string, b: string)
    requires |a| == |b| && (forall c | c in a :: IsDigit(c)) && (forall c | c in b :: IsDigit(c))
    ensures Numeral(a) < Numeral(b) <==> exists i :: SmallerAt(a, b, i)
    ensures Numeral(a) == Numeral(b) <==> a == b
  {
    if a != "" {
      var n := |a| - 1;
      var x, y := a[..n], b[..n];
      assert a == x + [a[n]] && b == y + [b[n]] && a[n] in a && b[n] in b;
      NumeralOrder(x, y);
      NumeralSnoc(x, a[n]);
      NumeralSnoc(y, b[n]);
      SmallerSnoc(x, a[n], y, b[n]);
    }
  }

  lemma {:induction false} LeadingZero(s: string)
    requires forall c | c in s :: IsDigit(c)
    ensures Numeral("0" + s) == Numeral(s)
  {
    var t := "0" + s;
    if s == "" {
      assert t[..0] == "";
    } else {
      LeadingZero(s[..|s| - 1]);
      assert t[..|t| - 1] == "0" + s[..|s| - 1];
    }
  }

  /** A prerelease comes before none; two that are digits by their numbers, any
      others as strings. */
  predicate TailBefore(a: Option<string>, b: Option<string>) {
    match (a, b)
    case (None, _) => false
    case (Some(_), None) => true
    case (Some(p), Some(q)) => if AllDigits(p) && AllDigits(q) then Numeral(p) < Numeral(q) else Less(p, q)
  }

  /** The larger major part is later, whatever follows; then the minor, then the
      patch part; and only between equal parts do the prereleases count. */
  lemma PartsDecideInTurn(a: Version, b: Version)
    requires WellFormed(a) && WellFormed(b)
    ensures Numeral(a.major) < Numeral(b.major) ==> Compare(a, b) < 0
    ensures Numeral(a.major) == Numeral(b.major) && Numeral(a.minor) < Numeral(b.minor) ==> Compare(a, b) < 0
    ensures var same := Numeral(a.major) == Numeral(b.major) && Numeral(a.minor) == Numeral(b.minor);
            same && Numeral(a.patch) < Numeral(b.patch) ==> Compare(a, b) < 0
    ensures var same := Numeral(a.major) == Numeral(b.major) && Numeral(a.minor) == Numeral(b.minor);
            same && Numeral(a.patch) == Numeral(b.patch) ==> (Compare(a, b) < 0 <==> TailBefore(a.prerelease, b.prerelease))
  {
  }

  /** Swapping the two arguments changes the sign, whatever the versions. */
  lemma CompareFlips(a: Version, b: Version)
    requires WellFormed(a) && WellFormed(b)
    ensures Compare(a, b) == -Compare(b, a)
  {
    if a.prerelease.Some? && b.prerelease.Some? {
      CompareStringsFlips(a.prerelease.value, b.prerelease.value);
    }
  }

  /** A prerelease is below its own base, and above every smaller base. */
  lemma PrereleaseBelowItsBase(pre: Version, base: Version)
    requires WellFormed(pre) && WellFormed(base) && pre.prerelease.Some? && base.prerelease.None?
    ensures SameBase(pre, base) ==> Compare(pre, base) < 0
    ensures !SameBase(pre, base) ==> (Compare(pre, base) < 0 <==> Compare(pre.(prerelease := None), base) < 0)
  {
    assert Part(pre, 0) == Part(pre.(prerelease := None), 0);
    assert Part(pre, 1) == Part(pre.(prerelease := None), 1);
    assert Part(pre, 2) == Part(pre.(prerelease := None), 2);
    assert SameBase(pre, base) <==> Part(pre, 0) == Part(base, 0) && Part(pre, 1) == Part(base, 1) && Part(pre, 2) == Part(base, 2);
  }

  /** x and y are all digits, x no larger than y as a number, yet z, which is not,
      lies between y and x as a string. */
  predicate Sandwiched(x: string, y: string, z: string) {
    && AllDigits(x) && AllDigits(y) && !AllDigits(z)
    && Numeral(x) <= Numeral(y)
    && Less(y, z) && Less(z, x)
  }

  /** a is at most b and b at most c, yet a is above c. */
  predicate Breaks(a: string, b: string, c: string) {
    ComparePrerelease(a, b) <= 0 && ComparePrerelease(b, c) <= 0 && ComparePrerelease(a, c) > 0
  }

  lemma StringsDoNotBreak(a: string, b: string, c: string)
    requires CompareStrings(a, b) <= 0 && CompareStrings(b, c) <= 0
    ensures CompareStrings(a, c) <= 0
  {
    CompareStringsFlips(a, b);
    CompareStringsFlips(b, c);
    CompareStringsFlips(a, c);
    if Less(a, b) && Less(b, c) {
      LessTransitive(a, b, c);
    }
  }

  /** Every break comes from a sandwich among the three. */
  lemma BreakIsSandwich(a: string, b: string, c: string)
    requires Breaks(a, b, c)
    ensures Sandwiched(a, b, c) || Sandwiched(b, c, a) || Sandwiched(c, a, b)
  {
    CompareStringsFlips(a, b);
    CompareStringsFlips(b, c);
    CompareStringsFlips(a, c);
    LessTotal(a, b);
    LessTotal(b, c);
    if CompareStrings(a, b) <= 0 && CompareStrings(b, c) <= 0 {
      StringsDoNotBreak(a, b, c);
    }
  }

  lemma SandwichBreaks(x: string, y: string, z: string)
    requires Sandwiched(x, y, z)
    ensures Breaks(x, y, z)
  {
    CompareStringsFlips(x, z);
    CompareStringsFlips(y, z);
  }

  ghost predicate Transitive(versions: seq<Version>) {
    forall a, b, c | a in versions && b in versions && c in versions && WellFormed(a) && WellFormed(b) && WellFormed(c) ::
      Compare(a, b) <= 0 && Compare(b, c) <= 0 ==> Compare(a, c) <= 0
  }

  ghost predicate SandwichOf(x: Version, y: Version, z: Version) {
    && WellFormed(x) && WellFormed(y) && WellFormed(z)
    && SameBase(x, y) && SameBase(y, z)
    && x.prerelease.Some? && y.prerelease.Some? && z.prerelease.Some?
    && Sandwiched(x.prerelease.value, y.prerelease.value, z.prerelease.value)
  }

  ghost predicate HasSandwich(versions: seq<Version>) {
    exists x, y, z | x in versions && y in versions && z in versions :: SandwichOf(x, y, z)
  }

  lemma CompareBySteps(a: Version, b: Version)
    requires WellFormed(a) && WellFormed(b)
    ensures SameBase(a, b) <==> Part(a, 0) == Part(b, 0) && Part(a, 1) == Part(b, 1) && Part(a, 2) == Part(b, 2)
    ensures SameBase(a, b) ==> Compare(a, b) == CompareTail(a.prerelease, b.prerelease)
  {
  }

  lemma BreakNeedsSandwich(a: Version, b: Version, c: Version)
    requires WellFormed(a) && WellFormed(b) && WellFormed(c)
    requires Compare(a, b) <= 0 && Compare(b, c) <= 0 && Compare(a, c) > 0
    ensures SandwichOf(a, b, c) || SandwichOf(b, c, a) || SandwichOf(c, a, b)
  {
    CompareBySteps(a, b);
    CompareBySteps(b, c);
    CompareBySteps(a, c);
    assert SameBase(a, b) && SameBase(b, c) && SameBase(c, a);
    BreakIsSandwich(a.prerelease.value, b.prerelease.value, c.prerelease.value);
  }

  /** The comparison is a total preorder on a set of versions exactly when no three
      of one base are sandwiched. */
  lemma TransitiveIff(versions: seq<Version>)
    ensures Transitive(versions) <==> !HasSandwich(versions)
  {
    if !HasSandwich(versions) {
      forall a, b, c | a in versions && b in versions && c in versions && WellFormed(a) && WellFormed(b) && WellFormed(c)
          && Compare(a, b) <= 0 && Compare(b, c) <= 0
        ensures Compare(a, c) <= 0
      {
        if Compare(a, c) > 0 {
          BreakNeedsSandwich(a, b, c);
        }
      }
    } else {
      var x, y, z :| x in versions && y in versions && z in versions && SandwichOf(x, y, z);
      SandwichBreaks(x.prerelease.value, y.prerelease.value, z.prerelease.value);
      CompareBySteps(x, y);
      CompareBySteps(y, z);
      CompareBySteps(x, z);
      assert SameBase(x, z);
      assert !Transitive(versions);
    }
  }

  predicate OfOneKind(versions: seq<Version>, digits: bool) {
    forall v | v in versions && v.prerelease.Some? :: AllDigits(v.prerelease.value) == digits
  }

  /** In particular it is one when every prerelease is all digits, and when none is. */
  lemma OneKindIsOrdered(versions: seq<Version>, digits: bool)
    requires OfOneKind(versions, digits)
    ensures Transitive(versions)
  {
    TransitiveIff(versions);
  }

  /** Mixing the kinds gives a cycle: 10, then 1a, then 9, then 10 again. */
  lemma MixedKindsCycle()
    ensures ComparePrerelease("10", "1a") < 0
    ensures ComparePrerelease("1a", "9") < 0
    ensures ComparePrerelease("9", "10") < 0
  {
    Ten();
    assert 'a' in "1a" && !IsDigit('a');
    assert "10"[1..] == "0" && "1a"[1..] == "a" && "9"[1..] == "";
    assert Less("0", "a");
    CompareStringsFlips("10", "1a");
    CompareStringsFlips("1a", "9");
  }

  lemma Ten()
    ensures AllDigits("10") && AllDigits("9") && Numeral("10") == 10 && Numeral("9") == 9
  {
    assert "10"[..1] == "1" && "1"[..0] == "" && "9"[..0] == "";
    assert Numeral("1") == 1;
  }
}
