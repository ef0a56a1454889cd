/** Line endings: what a checkout may do to them and what hashing undoes. */
module LineEndings {

  /** `input.replace(/\r\n?/g, '\n')`. */
  function Normalize(s: string): string
    decreases |s|
  {
    if s == "" then ""
    else if s[0] == '\r' then "\n" + Normalize(if |s| > 1 && s[1] == '\n' then s[2..] else s[1..])
    else [s[0]] + Normalize(s[1..])
  }

  /** What a checkout that converts line endings does: every LF not already
      preceded by CR gains one. */
  function CheckoutCrlf(s: string): string {
    CrlfAfter(s, false)
  }

  function CrlfAfter(s: string, afterCr: bool): string {
    if s == "" then ""
    else if s[0] == '\n' && !afterCr then "\r\n" + CrlfAfter(s[1..], false)
    else [s[0]] + CrlfAfter(s[1..], s[0] == '\r')
  }

  lemma {:induction false} NormalizeLeavesNoCr(s: string)
    ensures '\r' !in Normalize(s)
    decreases |s|
  {
    if s != "" {
      NormalizeLeavesNoCr(if s[0] == '\r' && |s| > 1 && s[1] == '\n' then s[2..] else s[1..]);
    }
  }

  lemma {:induction false} NormalizeWithoutCr(s: string)
    requires '\r' !in s
    ensures Normalize(s) == s
  {
    if s != "" {
      NormalizeWithoutCr(s[1..]);
      assert s == [s[0]] + s[1..];
    }
  }

  lemma NormalizeIdempotent(s: string)
    ensures Normalize(Normalize(s)) == Normalize(s)
  {
    NormalizeLeavesNoCr(s);
    NormalizeWithoutCr(Normalize(s));
  }

  /** Normalizing works piece by piece, as long as no CRLF is torn apart. */
  lemma {:induction false} NormalizeConcat(a: string, t: string)
    requires a == "" || t == "" || a[|a| - 1] != '\r' || t[0] != '\n'
    ensures Normalize(a + t) == Normalize(a) + Normalize(t)
    decreases |a|
  {
    if a == "" {
      assert a + t == t;
    } else {
      var n := if a[0] == '\r' && |a| > 1 && a[1] == '\n' then 2 else 1;
      assert (a + t)[n..] == a[n..] + t;
      NormalizeConcat(a[n..], t);
    }
  }

  lemma BreakFirst(b: string)
    ensures Normalize("\r\n" + b) == "\n" + Normalize(b) == Normalize("\n" + b)
    ensures (b != "" ==> b[0] != '\n') ==> Normalize("\r" + b) == "\n" + Normalize(b)
  {
    assert ("\r\n" + b)[2..] == b && ("\n" + b)[1..] == b && ("\r" + b)[1..] == b;
  }

  /** Each of the three line breaks becomes one LF, whatever stands around it. */
  lemma EachBreakBecomesLf(a: string, b: string)
    ensures Normalize(a + ("\r\n" + b)) == Normalize(a) + ("\n" + Normalize(b))
    ensures (b != "" ==> b[0] != '\n') ==> Normalize(a + ("\r" + b)) == Normalize(a) + ("\n" + Normalize(b))
    ensures (a != "" ==> a[|a| - 1] != '\r') ==> Normalize(a + ("\n" + b)) == Normalize(a) + ("\n" + Normalize(b))
  {
    BreakFirst(b);
    NormalizeConcat(a, "\r\n" + b);
    NormalizeConcat(a, "\r" + b);
    if a == "" || a[|a| - 1] != '\r' { NormalizeConcat(a, "\n" + b); }
  }

  lemma {:induction false} NormalizeUndoesCrlf(s: string, afterCr: bool)
    ensures if afterCr then Normalize("\r" + CrlfAfter(s, true)) == Normalize("\r" + s)
            else Normalize(CrlfAfter(s, false)) == Normalize(s)
  {
    var front := if afterCr then "\r" else "";
    var before, after := front + s, front + CrlfAfter(s, afterCr);
    if s != "" {
      NormalizeUndoesCrlf(s[1..], s[0] == '\r');
      var rest := CrlfAfter(s[1..], s[0] == '\r');
      assert afterCr ==> before[1..] == s && after[1..] == CrlfAfter(s, true);
      if s[0] == '\n' {
        assert if afterCr then after[2..] == rest && before[2..] == s[1..]
               else after == "\r\n" + rest && after[2..] == rest && before[1..] == s[1..];
      } else if s[0] == '\r' {
        assert CrlfAfter(s, afterCr) == "\r" + rest && s == "\r" + s[1..];
      } else {
        assert CrlfAfter(s, afterCr)[1..] == rest;
      }
    }
  }

  /** Whatever the endings were, hashing sees a converted checkout as the original. */
  lemma CheckoutIsInvisible(s: string)
    ensures Normalize(CheckoutCrlf(s)) == Normalize(s)
    ensures '\r' !in s ==> Normalize(CheckoutCrlf(s)) == s
  {
    NormalizeUndoesCrlf(s, false);
    if '\r' !in s {
      NormalizeWithoutCr(s);
    }
  }
}
