/** What `String.prototype.trim` does. */
module Whitespace {
  import opened EcmaRegExp

  /** What `String.prototype.trim` removes: white space and line terminators,
      sections 12.2 and 12.3 of ECMA-262. */
  predicate IsTrimmed(c: char) {
    || c == '\t' || c == '\U{B}' || c == '\U{C}' || c == ' ' || c == '\U{A0}' || c == '\U{FEFF}'
    || c == '\U{1680}' || '\U{2000}' <= c <= '\U{200A}' || c == '\U{202F}' || c == '\U{205F}' || c == '\U{3000}'
    || IsLineTerminator(c)
  }

  function TrimStart(s: string): string {
    if s != "" && IsTrimmed(s[0]) then TrimStart(s[1..]) else s
  }

  function TrimEnd(s: string): string {
    if s != "" && IsTrimmed(s[|s| - 1]) then TrimEnd(s[..|s| - 1]) else s
  }

  function Trim(s: string): string {
    TrimEnd(TrimStart(s))
  }

  predicate AllTrimmed(s: string) {
    forall c | c in s :: IsTrimmed(c)
  }

  lemma {:induction false} TrimStartPadded(p: string, s: string)
    requires AllTrimmed(p)
    ensures TrimStart(p + s) == TrimStart(s)
  {
    if p == "" {
      assert p + s == s;
    } else {
      assert (p + s)[0] == p[0] && (p + s)[1..] == p[1..] + s;
      TrimStartPadded(p[1..], s);
    }
  }

  lemma {:induction false} TrimEndPadded(s: string, q: string)
    requires AllTrimmed(q)
    ensures TrimEnd(s + q) == TrimEnd(s)
  {
    if q == "" {
      assert s + q == s;
    } else {
      assert (s + q)[|s + q| - 1] == q[|q| - 1] && (s + q)[..|s + q| - 1] == s + q[..|q| - 1];
      TrimEndPadded(s, q[..|q| - 1]);
    }
  }

  lemma {:induction false} TrimStartAppended(s: string, q: string)
    requires AllTrimmed(q)
    ensures TrimStart(s + q) == TrimStart(s) + q || (TrimStart(s) == "" == TrimStart(s + q))
  {
    if s == "" {
      assert s + q == q + "";
      TrimStartPadded(q, "");
    } else {
      assert (s + q)[0] == s[0] && (s + q)[1..] == s[1..] + q;
      if IsTrimmed(s[0]) { TrimStartAppended(s[1..], q); }
    }
  }

  /** Outer white space never shows. */
  lemma TrimPadded(p: string, s: string, q: string)
    requires AllTrimmed(p) && AllTrimmed(q)
    ensures Trim(p + s + q) == Trim(s)
  {
    assert p + s + q == p + (s + q);
    TrimStartPadded(p, s + q);
    TrimStartAppended(s, q);
    TrimEndPadded(TrimStart(s), q);
  }

  /** Exactly the outer white space goes: what stands between it, if it begins and
      ends otherwise, is the result. */
  lemma TrimIs(p: string, t: string, q: string)
    requires AllTrimmed(p) && AllTrimmed(q)
    requires t == "" || (!IsTrimmed(t[0]) && !IsTrimmed(t[|t| - 1]))
    ensures Trim(p + t + q) == t
  {
    TrimPadded(p, t, q);
  }

  lemma {:induction false} TrimEndKeepsStart(s: string)
    ensures TrimEnd(s) <= s
  {
    if s != "" && IsTrimmed(s[|s| - 1]) {
      TrimEndKeepsStart(s[..|s| - 1]);
    }
  }

  lemma {:induction false} TrimEndDone(s: string)
    ensures TrimEnd(s) == "" || !IsTrimmed(TrimEnd(s)[|TrimEnd(s)| - 1])
  {
    if s != "" && IsTrimmed(s[|s| - 1]) {
      TrimEndDone(s[..|s| - 1]);
    }
  }

  lemma {:induction false} TrimStartDone(s: string)
    ensures TrimStart(s) == "" || !IsTrimmed(TrimStart(s)[0])
  {
    if s != "" && IsTrimmed(s[0]) {
      TrimStartDone(s[1..]);
    }
  }

  /** A trimmed string neither begins nor ends with anything `trim` removes. */
  lemma TrimDone(s: string)
    ensures Trim(s) == "" || (!IsTrimmed(Trim(s)[0]) && !IsTrimmed(Trim(s)[|Trim(s)| - 1]))
    ensures Trim(Trim(s)) == Trim(s)
  {
    TrimStartDone(s);
    TrimEndDone(TrimStart(s));
    TrimEndKeepsStart(TrimStart(s));
  }
}
