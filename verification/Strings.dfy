/** Options, and the JavaScript string operations the other modules rely on. */
module Strings {

  datatype Option<+T> = None | Some(value: T)

  /** `s.startsWith(prefix)`. */
  predicate StartsWith(s: string, prefix: string) {
    prefix <= s
  }

  /** `s.endsWith(suffix)`. */
  predicate EndsWith(s: string, suffix: string) {
    |suffix| <= |s| && s[|s| - |suffix|..] == suffix
  }

  /** `s.split(sep)` for a one-character separator: always at least one piece. */
  function Split(s: string, sep: char): (pieces: seq<string>)
    ensures |pieces| > 0
  {
    if s == "" then [""]
    else if s[0] == sep then [""] + Split(s[1..], sep)
    else
      var rest := Split(s[1..], sep);
      [[s[0]] + rest[0]] + rest[1..]
  }

  /** `pieces.join(sep)` for a one-character separator. */
  function Join(pieces: seq<string>, sep: char): string {
    if |pieces| == 0 then ""
    else if |pieces| == 1 then pieces[0]
    else pieces[0] + [sep] + Join(pieces[1..], sep)
  }

  lemma Associative<T>(a: seq<T>, b: seq<T>, c: seq<T>)
    ensures (a + b) + c == a + (b + c)
  {
  }

  /** One more character in front of a split. */
  function Prepend(c: char, pieces: seq<string>, sep: char): seq<string>
    requires pieces != []
  {
    if c == sep then [""] + pieces else [[c] + pieces[0]] + pieces[1..]
  }

  lemma SplitPrepend(c: char, s: string, sep: char)
    ensures Split([c] + s, sep) == Prepend(c, Split(s, sep), sep)
  {
    assert ([c] + s)[1..] == s;
  }

  lemma PrependConcat(c: char, front: seq<string>, back: seq<string>, sep: char)
    requires front != []
    ensures Prepend(c, front + back, sep) == Prepend(c, front, sep) + back
  {
    assert (front + back)[0] == front[0] && (front + back)[1..] == front[1..] + back;
  }

  lemma {:induction false} SplitConcat(a: string, b: string, sep: char)
    ensures Split(a + [sep] + b, sep) == Split(a, sep) + Split(b, sep)
  {
    if a == "" {
      assert a + [sep] + b == [sep] + b;
      SplitPrepend(sep, b, sep);
    } else {
      var c, rest := a[0], a[1..];
      SplitConcat(rest, b, sep);
      assert a == [c] + rest && a + [sep] + b == [c] + (rest + [sep] + b);
      SplitPrepend(c, rest, sep);
      SplitPrepend(c, rest + [sep] + b, sep);
      PrependConcat(c, Split(rest, sep), Split(b, sep), sep);
    }
  }

  lemma {:induction false} JoinSplit(s: string, sep: char)
    ensures Join(Split(s, sep), sep) == s
  {
    if s != "" {
      JoinSplit(s[1..], sep);
      var rest := Split(s[1..], sep);
      if s[0] == sep {
        assert Split(s, sep)[1..] == rest;
      } else {
        assert Split(s, sep)[1..] == rest[1..];
      }
    }
  }

  lemma {:induction false} SplitOfPlain(s: string, sep: char)
    requires sep !in s
    ensures Split(s, sep) == [s]
  {
    if s != "" {
      SplitOfPlain(s[1..], sep);
      var rest := Split(s[1..], sep);
      assert s[0] != sep && rest == [s[1..]];
      assert [s[0]] + rest[0] == s;
    }
  }

  lemma {:induction false} SplitPiecesPlain(s: string, sep: char)
    ensures forall p | p in Split(s, sep) :: sep !in p
  {
    if s != "" {
      SplitPiecesPlain(s[1..], sep);
    }
  }

  /** Splitting undoes joining when no piece holds the separator. */
  lemma {:induction false} SplitJoin(pieces: seq<string>, sep: char)
    requires |pieces| > 0
    requires forall p | p in pieces :: sep !in p
    ensures Split(Join(pieces, sep), sep) == pieces
  {
    SplitOfPlain(pieces[0], sep);
    if |pieces| > 1 {
      SplitJoin(pieces[1..], sep);
      SplitConcat(pieces[0], Join(pieces[1..], sep), sep);
    }
  }

  // ----- The order `Array.prototype.sort` and `<` give strings, character by
  // character: by code point here, which is by code unit where no character lies
  // outside the Basic Multilingual Plane.

  predicate Less(a: string, b: string) {
    if b == "" then false
    else if a == "" then true
    else a[0] < b[0] || (a[0] == b[0] && Less(a[1..], b[1..]))
  }

  predicate AtMost(a: string, b: string) {
    a == b || Less(a, b)
  }

  lemma {:induction false} LessTransitive(a: string, b: string, c: string)
    requires Less(a, b) && Less(b, c)
    ensures Less(a, c)
  {
    if a != "" && a[0] == b[0] && b[0] == c[0] {
      LessTransitive(a[1..], b[1..], c[1..]);
    }
  }

  lemma {:induction false} LessIrreflexive(a: string)
    ensures !Less(a, a)
  {
    if a != "" {
      LessIrreflexive(a[1..]);
    }
  }

  lemma {:induction false} LessTotal(a: string, b: string)
    ensures Less(a, b) || a == b || Less(b, a)
  {
    if a != "" && b != "" && a[0] == b[0] {
      LessTotal(a[1..], b[1..]);
    }
  }

  lemma {:induction false} LessUnderPrefix(p: string, a: string, b: string)
    ensures Less(p + a, p + b) <==> Less(a, b)
  {
    if p == "" {
      assert p + a == a && p + b == b;
    } else {
      assert (p + a)[1..] == p[1..] + a && (p + b)[1..] == p[1..] + b;
      LessUnderPrefix(p[1..], a, b);
    }
  }

  // ----- `Array.prototype.sort` on strings.

  ghost predicate Sorted(xs: seq<string>) {
    forall i, j | 0 <= i < j < |xs| :: AtMost(xs[i], xs[j])
  }

  function Insert(x: string, xs: seq<string>): (r: seq<string>)
    ensures multiset(r) == multiset{x} + multiset(xs)
  {
    if xs == [] then [x]
    else if Less(xs[0], x) then
      assert xs == [xs[0]] + xs[1..];
      [xs[0]] + Insert(x, xs[1..])
    else [x] + xs
  }

  function Sort(xs: seq<string>): (r: seq<string>)
    ensures multiset(r) == multiset(xs)
  {
    if xs == [] then []
    else
      assert xs == [xs[0]] + xs[1..];
      Insert(xs[0], Sort(xs[1..]))
  }

  lemma {:induction false} InsertSorted(x: string, xs: seq<string>)
    requires Sorted(xs)
    ensures Sorted(Insert(x, xs))
  {
    var r := Insert(x, xs);
    if xs == [] {
    } else if Less(xs[0], x) {
      InsertSorted(x, xs[1..]);
      forall j | 0 < j < |r| ensures AtMost(r[0], r[j]) {
        assert r[j] in multiset(r[1..]);
        assert r[j] == x || r[j] in xs[1..];
      }
    } else {
      LessTotal(x, xs[0]);
      forall j | 0 < j < |r| ensures AtMost(r[0], r[j]) {
        if j > 1 && x != xs[0] && xs[0] != xs[j - 1] {
          LessTransitive(x, xs[0], xs[j - 1]);
        }
      }
    }
  }

  lemma {:induction false} SortSorts(xs: seq<string>)
    ensures Sorted(Sort(xs))
  {
    if xs != [] {
      SortSorts(xs[1..]);
      InsertSorted(xs[0], Sort(xs[1..]));
    }
  }

  /** A sorted list is determined by its elements, so sorting forgets the input order. */
  lemma {:induction false} SortedUnique(xs: seq<string>, ys: seq<string>)
    requires Sorted(xs) && Sorted(ys) && multiset(xs) == multiset(ys)
    ensures xs == ys
  {
    assert |ys| == |multiset(ys)| == |multiset(xs)| == |xs|;
    if xs != [] {
      SameLeast(xs, ys);
      assert xs == [xs[0]] + xs[1..] && ys == [ys[0]] + ys[1..];
      assert multiset(xs[1..]) == multiset(xs) - multiset{xs[0]};
      assert multiset(ys[1..]) == multiset(ys) - multiset{ys[0]};
      SortedUnique(xs[1..], ys[1..]);
    }
  }

  lemma SameLeast(xs: seq<string>, ys: seq<string>)
    requires xs != [] && ys != []
    requires Sorted(xs) && Sorted(ys) && multiset(xs) == multiset(ys)
    ensures xs[0] == ys[0]
  {
    assert xs[0] in multiset(ys) && ys[0] in multiset(xs);
    var i :| 0 <= i < |ys| && ys[i] == xs[0];
    var j :| 0 <= j < |xs| && xs[j] == ys[0];
    if xs[0] != ys[0] {
      assert Less(xs[0], ys[0]) && Less(ys[0], xs[0]);
      LessTransitive(xs[0], ys[0], xs[0]);
      LessIrreflexive(xs[0]);
    }
  }
}
