/** The part of ECMAScript's pattern language (section 22.2 of ECMA-262) that
    compiled ignore patterns are written in, read from text: a parser for its
    grammar and the meaning of what it parses. No flag is set. Anything the
    grammar below does not cover is refused, never guessed at.
 */
module EcmaRegExp {
  import opened Strings

  datatype Re =
    | Empty
    | Chr(c: char)
    | Dot
    | Class(negated: bool, members: string)
    | Bol
    | Eol
    | Cat(first: Re, rest: Re)
    | Or(left: Re, right: Re)
    | Star(body: Re)

  /** LineTerminator, section 12.3 of ECMA-262: what `.` refuses. */
  predicate IsLineTerminator(c: char) {
    c == '\n' || c == '\r' || c == '\U{2028}' || c == '\U{2029}'
  }

  /** SyntaxCharacter, section 22.2.1 of ECMA-262. */
  predicate IsSyntaxCharacter(c: char) {
    c in "^$\\.*+?()[]{}|"
  }

  predicate ClassHas(negated: bool, members: string, c: char) {
    (c in members) != negated
  }

  predicate Between(i: int, k: int, j: int) {
    i <= k <= j
  }

  /** `r` consumes exactly `s[i..j]`. A star's iterations are non-empty, which is
      the empty check of RepeatMatcher (section 22.2.2.3.1 of ECMA-262). */
  predicate Matches(r: Re, s: string, i: nat, j: nat)
    requires i <= j <= |s|
    decreases r, j - i
  {
    match r
    case Empty => i == j
    case Chr(c) => j == i + 1 && s[i] == c
    case Dot => j == i + 1 && !IsLineTerminator(s[i])
    case Class(negated, members) => j == i + 1 && ClassHas(negated, members, s[i])
    case Bol => i == j == 0
    case Eol => i == j == |s|
    case Cat(first, rest) => exists k | 0 <= k <= j :: Between(i, k, j) && Matches(first, s, i, k) && Matches(rest, s, k, j)
    case Or(left, right) => Matches(left, s, i, j) || Matches(right, s, i, j)
    case Star(body) => i == j || exists k | i < k <= j :: Between(i, k, j) && Matches(body, s, i, k) && Matches(r, s, k, j)
  }

  // ----- Pattern text. Each parser returns what it read and the text left over.

  type Parsed = Option<(Re, string)>

  function ParseDisjunction(t: string): (p: Parsed)
    ensures p.Some? ==> |p.value.1| <= |t|
    decreases |t|, 3
  {
    match ParseAlternative(t)
    case None => None
    case Some((left, rest)) =>
      if rest == "" || rest[0] != '|' then Some((left, rest))
      else
        match ParseDisjunction(rest[1..])
        case None => None
        case Some((right, rest')) => Some((Or(left, right), rest'))
  }

  function ParseAlternative(t: string): (p: Parsed)
    ensures p.Some? ==> |p.value.1| <= |t|
    decreases |t|, 2
  {
    if t == "" || t[0] == '|' || t[0] == ')' then Some((Empty, t))
    else
      match ParseTerm(t)
      case None => None
      case Some((first, rest)) =>
        match ParseAlternative(rest)
        case None => None
        case Some((tail, rest')) => Some((Cat(first, tail), rest'))
  }

  function ParseTerm(t: string): (p: Parsed)
    requires t != ""
    ensures p.Some? ==> |p.value.1| < |t|
    decreases |t|, 1
  {
    if t[0] == '^' then Some((Bol, t[1..]))
    else if t[0] == '$' then Some((Eol, t[1..]))
    else
      match ParseAtom(t)
      case None => None
      case Some((atom, rest)) =>
        if rest != "" && rest[0] == '*' then
          if StartsWithQuantifier(rest[1..]) then None else Some((Star(atom), rest[1..]))
        else if StartsWithQuantifier(rest) then None
        else Some((atom, rest))
  }

  predicate StartsWithQuantifier(t: string) {
    t != "" && t[0] in "*+?{"
  }

  function ParseAtom(t: string): (p: Parsed)
    requires t != ""
    ensures p.Some? ==> |p.value.1| < |t|
    decreases |t|, 0
  {
    if t[0] == '.' then Some((Dot, t[1..]))
    else if t[0] == '\\' then
      if |t| > 1 && (IsSyntaxCharacter(t[1]) || t[1] == '/') then Some((Chr(t[1]), t[2..])) else None
    else if t[0] == '[' then
      if |t| > 1 && t[1] == '^' then ParseClass(t[2..], true, "") else ParseClass(t[1..], false, "")
    else if StartsWith(t, "(?:") then
      match ParseDisjunction(t[3..])
      case None => None
      case Some((group, rest)) => if rest != "" && rest[0] == ')' then Some((group, rest[1..])) else None
    else if IsSyntaxCharacter(t[0]) then None
    else Some((Chr(t[0]), t[1..]))
  }

  /** A class of single characters: no ranges and no escapes. */
  function ParseClass(t: string, negated: bool, members: string): (p: Parsed)
    ensures p.Some? ==> |p.value.1| < |t|
    decreases |t|
  {
    if t == "" || t[0] == '\\' || t[0] == '-' then None
    else if t[0] == ']' then Some((Class(negated, members), t[1..]))
    else ParseClass(t[1..], negated, members + [t[0]])
  }

  /** The whole text as one pattern. */
  function Parse(source: string): Option<Re> {
    match ParseDisjunction(source)
    case None => None
    case Some((re, rest)) => if rest == "" then Some(re) else None
  }

  predicate Finds(re: Re, s: string) {
    exists i: nat, j: nat | i <= j <= |s| :: Matches(re, s, i, j)
  }

  /** `new RegExp(source).test(s)`: some position matches; false also stands for
      a source outside the grammar, which `Parse` tells apart. */
  predicate Test(source: string, s: string) {
    match Parse(source)
    case None => false
    case Some(re) => Finds(re, s)
  }
}
