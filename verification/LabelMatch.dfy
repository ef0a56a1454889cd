/** Label selectors: regular expressions kept as mutable objects in a memo table,
    and the routing decisions built on them. */
module LabelMatch {
  import opened Strings
  import opened Labels

  // ----- `RegExp` objects, after section 22.2.7 of ECMA-262.

  /** What the lock file's JSON can hold where a matcher is expected. */
  datatype Json =
    | Null
    | Bool(b: bool)
    | Number(n: real)
    | String(s: string)
    | Array(items: seq<Json>)
    | Object(fields: map<string, Json>)

  /** The parts of JavaScript the model does not look into: which sources and flags
      compile, where a match starting at one index ends, which indices begin a
      surrogate pair, `toLowerCase`, and the text of a value that is no string. */
  datatype Engine = Engine(
    compiles: (string, string) -> bool,
    matchAt: (string, string, string, nat) -> Option<nat>,
    isPair: (string, nat) -> bool,
    lower: string -> string,
    show: Json -> string)

  /** No valid flag is a space. */
  ghost predicate KnowsFlags(e: Engine) {
    forall source, flags :: e.compiles(source, flags) ==> ' ' !in flags
  }

  function Advance(e: Engine, flags: string, text: string, i: nat): (j: nat)
    ensures j > i
  {
    if ('u' in flags || 'v' in flags) && e.isPair(text, i) then i + 2 else i + 1
  }

  /** Where the first match at or after `i` ends; only at `i` for a sticky one. */
  function Search(e: Engine, source: string, flags: string, text: string, i: nat): Option<nat>
    decreases |text| + 1 - i
  {
    if i > |text| then None
    else match e.matchAt(source, flags, text, i)
      case Some(end) => Some(end)
      case None => if 'y' in flags then None else Search(e, source, flags, text, Advance(e, flags, text, i))
  }

  /** No index is passed over: `u` and `v`, which skip the second half of a surrogate
      pair, are off, or the text holds none. */
  predicate EveryIndex(e: Engine, flags: string, text: string) {
    ('u' !in flags && 'v' !in flags) || forall k: nat | k <= |text| :: !e.isPair(text, k)
  }

  /** A search ends where the first match that begins at or after `i` ends; it finds
      nothing exactly when none begins there. A sticky one looks at `i` alone. */
  lemma {:induction false} SearchFindsFirst(e: Engine, source: string, flags: string, text: string, i: nat)
    requires 'y' !in flags && EveryIndex(e, flags, text)
    ensures match Search(e, source, flags, text, i)
      case None => forall k: nat | i <= k <= |text| :: e.matchAt(source, flags, text, k) == None
      case Some(end) => exists k: nat | i <= k <= |text| ::
        && e.matchAt(source, flags, text, k) == Some(end)
        && forall j: nat | i <= j < k :: e.matchAt(source, flags, text, j) == None
    decreases |text| + 1 - i
  {
    if i <= |text| && e.matchAt(source, flags, text, i) == None {
      SearchFindsFirst(e, source, flags, text, i + 1);
    }
  }

  lemma StickyLooksOnce(e: Engine, source: string, flags: string, text: string, i: nat)
    requires 'y' in flags
    ensures Search(e, source, flags, text, i) == if i <= |text| then e.matchAt(source, flags, text, i) else None
  {
  }

  predicate Stateful(flags: string) {
    'g' in flags || 'y' in flags
  }

  datatype Exec = Exec(found: bool, lastIndex: nat)

  /** What `test` answers and leaves in `lastIndex`. */
  function BuiltinExec(e: Engine, source: string, flags: string, text: string, lastIndex: nat): Exec {
    match Search(e, source, flags, text, if Stateful(flags) then lastIndex else 0)
    case Some(end) => Exec(true, if Stateful(flags) then end else lastIndex)
    case None => Exec(false, if Stateful(flags) then 0 else lastIndex)
  }

  class RegExp {
    const source: string
    const flags: string
    var lastIndex: nat

    constructor (source: string, flags: string)
      ensures this.source == source && this.flags == flags && lastIndex == 0
    {
      this.source, this.flags, lastIndex := source, flags, 0;
    }

    method Test(e: Engine, text: string) returns (found: bool)
      modifies this`lastIndex
      ensures Exec(found, lastIndex) == BuiltinExec(e, source, flags, text, old(lastIndex))
    {
      var start := if Stateful(flags) then lastIndex else 0;
      var i := start;
      while i <= |text|
        invariant Search(e, source, flags, text, start) == Search(e, source, flags, text, i)
        invariant lastIndex == old(lastIndex)
        decreases |text| + 1 - i
      {
        var end := e.matchAt(source, flags, text, i);
        if end.Some? {
          if Stateful(flags) { lastIndex := end.value; }
          return true;
        }
        if 'y' in flags { lastIndex := 0; return false; }
        i := Advance(e, flags, text, i);
      }
      if Stateful(flags) { lastIndex := 0; }
      return false;
    }
  }

  // ----- Flags and keys.

  function StripStateful(flags: string): string {
    if flags == "" then ""
    else (if flags[0] in "gy" then "" else [flags[0]]) + StripStateful(flags[1..])
  }

  lemma {:induction false} StripKeepsTheRest(flags: string)
    ensures forall c :: c in StripStateful(flags) <==> c in flags && c != 'g' && c != 'y'
    ensures !Stateful(flags) ==> StripStateful(flags) == flags
  {
    if flags != "" {
      assert flags == [flags[0]] + flags[1..];
      StripKeepsTheRest(flags[1..]);
    }
  }

  function MemoKey(flags: string, source: string): string {
    flags + " " + source
  }

  /** Among flags without a space, a key determines both flags and source. */
  lemma KeyDeterminesBoth(flags: string, source: string, flags2: string, source2: string)
    requires ' ' !in flags && ' ' !in flags2
    requires MemoKey(flags, source) == MemoKey(flags2, source2)
    ensures flags == flags2 && source == source2
  {
    var key := MemoKey(flags, source);
    assert key[|flags|] == ' ' && key[|flags2|] == ' ';
    assert forall k | 0 <= k < |flags| :: key[k] == flags[k] != ' ';
    assert forall k | 0 <= k < |flags2| :: key[k] == flags2[k] != ' ';
    assert flags == key[..|flags|] == flags2;
    assert source == key[|flags| + 1..] == source2;
  }

  /** With a space in the flags it does not: two matchers, one key. */
  lemma KeysCanClash(flags: string, extra: string, source: string)
    ensures MemoKey(flags + " " + extra, source) == MemoKey(flags, extra + " " + source)
  {
  }

  // ----- Matchers.

  datatype LabelMatcher = Exact(value: string) | Regex(source: string, flags: string)

  /** A newly built regex with `g` and `y` dropped: its verdict on one string, or
      nothing when the constructor throws. */
  function Fresh(e: Engine, source: string, flags: string, text: string): Option<bool> {
    if e.compiles(source, StripStateful(flags)) then Some(Search(e, source, StripStateful(flags), text, 0).Some?)
    else None
  }

  /** The memo table never confuses two matchers unless this holds: the flags hold
      a space, and some other matcher's regex already sits under the key. */
  predicate Clashes(m: LabelMatcher, keys: set<string>) {
    m.Regex? && ' ' in m.flags && MemoKey(StripStateful(m.flags), m.source) in keys
  }

  class RegexCache {
    var entries: map<string, RegExp>

    ghost predicate Valid(e: Engine)
      reads this
    {
      forall k | k in entries ::
        var re := entries[k];
        && k == MemoKey(re.flags, re.source)
        && !Stateful(re.flags)
        && e.compiles(re.source, re.flags)
    }

    constructor ()
      ensures entries == map[]
    {
      entries := map[];
    }

    /** Only adds; a regex that does not compile throws and leaves no entry. */
    method CompileRegexMatcher(e: Engine, source: string, flags: string) returns (re: Option<RegExp>)
      requires Valid(e) && KnowsFlags(e)
      modifies this
      ensures Valid(e)
      ensures old(entries).Keys <= entries.Keys <= old(entries).Keys + {MemoKey(StripStateful(flags), source)}
      ensures forall k | k in old(entries) :: entries[k] == old(entries)[k]
      ensures forall k | k in entries && k !in old(entries) :: fresh(entries[k])
      ensures re.Some? ==> MemoKey(StripStateful(flags), source) in entries && !Stateful(re.value.flags)
      ensures re.Some? ==> re.value == entries[MemoKey(StripStateful(flags), source)]
      ensures re.Some? <==> e.compiles(source, StripStateful(flags)) || Clashes(Regex(source, flags), old(entries).Keys)
      ensures re.Some? && !Clashes(Regex(source, flags), old(entries).Keys) ==>
        re.value.source == source && re.value.flags == StripStateful(flags)
    {
      var stripped := StripStateful(flags);
      StripKeepsTheRest(flags);
      var key := MemoKey(stripped, source);
      if key in entries {
        var found := entries[key];
        if ' ' !in flags {
          KeyDeterminesBoth(stripped, source, found.flags, found.source);
        }
        return Some(found);
      }
      if !e.compiles(source, stripped) { return None; }
      var made := new RegExp(source, stripped);
      entries := entries[key := made];
      assert entries[key] == made;
      return Some(made);
    }

    /** In any state of the table the verdict is a fresh regex's verdict, exactly
        when the matcher's key is not taken by another matcher's regex; else it is
        that one's. */
    method MatcherMatches(e: Engine, m: LabelMatcher, tag: string) returns (verdict: Option<bool>)
      requires Valid(e) && KnowsFlags(e)
      modifies this, entries.Values
      ensures Valid(e)
      ensures m.Exact? ==> verdict == Some(tag == m.value) && entries == old(entries)
      ensures m.Regex? ==> (verdict == Fresh(e, m.source, m.flags, tag) <==> !Clashes(m, old(entries).Keys))
      ensures Clashes(m, old(entries).Keys) ==>
        var taken := old(entries)[MemoKey(StripStateful(m.flags), m.source)];
        verdict == Fresh(e, taken.source, taken.flags, tag)
    {
      match m
      case Exact(value) =>
        return Some(tag == value);
      case Regex(source, flags) =>
        var re := CompileRegexMatcher(e, source, flags);
        StripKeepsTheRest(flags);
        match re
        case None => return None;
        case Some(r) =>
          StripKeepsTheRest(r.flags);
          var found := r.Test(e, tag);
          return Some(found);
    }

    /** One compiled object is tried on every label of the set; nothing carries over
        from one label to the next. */
    method MatcherSatisfiedBy(e: Engine, m: LabelMatcher, labels: seq<string>) returns (verdict: Option<bool>)
      requires Valid(e) && KnowsFlags(e)
      modifies this, entries.Values
      ensures Valid(e)
      ensures verdict == SatisfiedBy(e, m, labels) <==> !Clashes(m, old(entries).Keys)
    {
      match m
      case Exact(value) =>
        return Some(value in labels);
      case Regex(source, flags) =>
        var re := CompileRegexMatcher(e, source, flags);
        StripKeepsTheRest(flags);
        match re
        case None => return None;
        case Some(r) =>
          for i := 0 to |labels|
            invariant Valid(e)
            invariant forall j | 0 <= j < i :: Search(e, r.source, r.flags, labels[j], 0).None?
          {
            var found := r.Test(e, labels[i]);
            if found {
              assert labels[i] in labels && Search(e, r.source, r.flags, labels[i], 0).Some?;
              return Some(true);
            }
          }
          return Some(false);
    }
  }

  /** A clash, carried through: once one matcher is compiled, another that no regex
      can be built for is given the first one's verdict instead of an error. */
  method ClashAnswersForAnother(e: Engine, flags: string, extra: string, source: string, tag: string)
    returns (verdict: Option<bool>)
    requires KnowsFlags(e) && !Stateful(flags) && !Stateful(extra)
    requires e.compiles(extra + " " + source, flags)
    ensures Fresh(e, source, flags + " " + extra, tag) == None
    ensures verdict == Fresh(e, extra + " " + source, flags, tag) != None
  {
    var spaced := flags + " " + extra;
    assert spaced[|flags|] == ' ';
    StripKeepsTheRest(flags);
    StripKeepsTheRest(spaced);
    KeysCanClash(flags, extra, source);
    var cache := new RegexCache();
    var re := cache.CompileRegexMatcher(e, extra + " " + source, flags);
    verdict := cache.MatcherMatches(e, Regex(source, spaced), tag);
  }

  /** Whether some label of the set satisfies the matcher, by fresh regexes. */
  ghost function SatisfiedBy(e: Engine, m: LabelMatcher, labels: seq<string>): Option<bool> {
    match m
    case Exact(value) => Some(value in labels)
    case Regex(source, flags) =>
      if !e.compiles(source, StripStateful(flags)) then None
      else Some(exists tag | tag in labels :: Fresh(e, source, flags, tag) == Some(true))
  }

  ghost predicate MatchesSome(e: Engine, source: string, flags: string, labels: seq<string>) {
    exists tag, k: nat | tag in labels && k <= |tag| :: e.matchAt(source, flags, tag, k).Some?
  }

  lemma FreshIffMatches(e: Engine, source: string, flags: string, tag: string)
    requires !Stateful(flags) && 'u' !in flags && 'v' !in flags && e.compiles(source, flags)
    ensures Fresh(e, source, flags, tag) == Some(exists k: nat | k <= |tag| :: e.matchAt(source, flags, tag, k).Some?)
  {
    StripKeepsTheRest(flags);
    SearchFindsFirst(e, source, flags, tag, 0);
  }

  /** A label set satisfies a regex exactly when it matches somewhere in some label
      of the set; one that does not compile throws. */
  lemma SatisfiedIffSomeMatch(e: Engine, source: string, flags: string, labels: seq<string>)
    requires !Stateful(flags) && 'u' !in flags && 'v' !in flags
    ensures SatisfiedBy(e, Regex(source, flags), labels) ==
            if e.compiles(source, flags) then Some(MatchesSome(e, source, flags, labels)) else None
  {
    StripKeepsTheRest(flags);
    if e.compiles(source, flags) {
      forall tag | tag in labels
        ensures Fresh(e, source, flags, tag) == Some(true) <==>
                  exists k: nat | k <= |tag| :: e.matchAt(source, flags, tag, k).Some?
      {
        FreshIffMatches(e, source, flags, tag);
      }
    }
  }

  /** Why the flags are dropped: a memoized `g` regex that matches a whole text
      denies the same text on the next call. */
  lemma MemoizedGlobalAlternates(e: Engine, source: string, text: string, i: nat)
    requires |text| > 0 && e.matchAt(source, "g", text, 0) == Some(|text|)
    requires e.matchAt(source, "g", text, |text|) == None
    ensures
      var first := BuiltinExec(e, source, "g", text, 0);
      first.found && !BuiltinExec(e, source, "g", text, first.lastIndex).found
  {
    assert 'g' in "g";
    assert Search(e, source, "g", text, |text| + 1) == None;
    assert Advance(e, "g", text, |text|) > |text|;
  }

  // ----- Canonical matchers.

  function CanonicalizeMatcher(e: Engine, m: LabelMatcher): LabelMatcher {
    match m
    case Exact(value) => Exact(CanonicalizeLabel(e.lower, value))
    case Regex(source, flags) =>
      var stripped := StripStateful(flags);
      Regex(source, if 'i' in stripped then stripped else stripped + "i")
  }

  lemma CanonicalizeMatcherIdempotent(e: Engine, m: LabelMatcher)
    requires LowersLabels(e.lower)
    ensures CanonicalizeMatcher(e, CanonicalizeMatcher(e, m)) == CanonicalizeMatcher(e, m)
  {
    match m
    case Exact(value) => CanonicalizeIdempotent(e.lower, value);
    case Regex(source, flags) =>
      StripKeepsTheRest(flags);
      StripKeepsTheRest(CanonicalizeMatcher(e, m).flags);
  }

  /** Folding a regex adds `i` and drops what would make it stateful; the source
      and every other flag stay as they were. */
  lemma CanonicalRegexFolds(e: Engine, source: string, flags: string)
    ensures
      var m := CanonicalizeMatcher(e, Regex(source, flags));
      && m.Regex? && m.source == source
      && 'i' in m.flags && !Stateful(m.flags)
      && forall c | c != 'i' && c != 'g' && c != 'y' :: c in m.flags <==> c in flags
  {
    StripKeepsTheRest(flags);
  }

  /** An exact selector is met by a host exactly when one of the host's labels is
      spelled like it, whatever the case and the white space of either. */
  lemma ExactIgnoresSpelling(e: Engine, value: string, raw: seq<string>)
    ensures SatisfiedBy(e, CanonicalizeMatcher(e, Exact(value)), CanonicalizeLabels(e.lower, raw)) ==
            Some(exists i | 0 <= i < |raw| :: SpelledAlike(e.lower, raw[i], value))
  {
    var labels := CanonicalizeLabels(e.lower, raw);
    forall i | 0 <= i < |raw| ensures labels[i] == CanonicalizeLabel(e.lower, value) <==> SpelledAlike(e.lower, raw[i], value) {
      CanonicalIffSpelledAlike(e.lower, raw[i], value);
    }
    if CanonicalizeLabel(e.lower, value) in labels {
      var i :| 0 <= i < |labels| && labels[i] == CanonicalizeLabel(e.lower, value);
      assert SpelledAlike(e.lower, raw[i], value);
    }
  }

  // ----- Partitioned matcher lists.

  function Field(element: Json, name: string): Option<Json> {
    if element.Object? && name in element.fields then Some(element.fields[name]) else None
  }

  predicate IsText(field: Option<Json>) {
    field.Some? && field.value.String?
  }

  /** The schema for one matcher; unknown fields are ignored. */
  function ParseMatcher(element: Json): Option<LabelMatcher> {
    var kind, value := Field(element, "kind"), Field(element, "value");
    var source, flags := Field(element, "source"), Field(element, "flags");
    if kind == Some(String("exact")) then (if IsText(value) then Some(Exact(value.value.s)) else None)
    else if kind == Some(String("regex")) then
      (if IsText(source) && IsText(flags) then Some(Regex(source.value.s, flags.value.s)) else None)
    else None
  }

  predicate Says(element: Json, name: string, text: string) {
    element.Object? && name in element.fields && element.fields[name] == String(text)
  }

  /** A matcher is read from exactly the fields that hold it. */
  lemma MatcherIsSaid(element: Json, m: LabelMatcher)
    ensures ParseMatcher(element) == Some(m) <==>
      match m
      case Exact(value) => Says(element, "kind", "exact") && Says(element, "value", value)
      case Regex(source, flags) =>
        Says(element, "kind", "regex") && Says(element, "source", source) && Says(element, "flags", flags)
  {
    KindsDiffer();
  }

  /** What the splitter takes without throwing. It looks at `kind` and then uses
      the fields as they come: a value it must trim, flags it must replace in. A
      missing or null `flags` reads as none, and the source is not looked at. */
  predicate SplitterAccepts(element: Json) {
    var kind, flags := Field(element, "kind"), Field(element, "flags");
    || (kind == Some(String("exact")) && IsText(Field(element, "value")))
    || (kind == Some(String("regex")) && (flags.None? || flags.value.Null? || flags.value.String?))
  }

  /** The pattern `new RegExp(source)` makes of a source: an absent one is empty. */
  function PatternText(e: Engine, source: Option<Json>): string {
    match source
    case None => ""
    case Some(String(s)) => s
    case Some(other) => e.show(other)
  }

  /** The matcher an accepted element stands for. */
  function SplitterReads(e: Engine, element: Json): LabelMatcher
    requires SplitterAccepts(element)
  {
    if Field(element, "kind") == Some(String("exact")) then Exact(Field(element, "value").value.s)
    else
      var flags := Field(element, "flags");
      Regex(PatternText(e, Field(element, "source")), if IsText(flags) then flags.value.s else "")
  }

  /** On what the schema admits the splitter does not throw, and reads the same. */
  lemma ValidElementsSplit(e: Engine, element: Json)
    requires ParseMatcher(element).Some?
    ensures SplitterAccepts(element) && SplitterReads(e, element) == ParseMatcher(element).value
  {
  }

  /** The splitter is no validator: it accepts what the schema does not exactly on
      a `regex` element whose source is no string, or whose flags are absent or null. */
  lemma SplitterIsLooserIff(element: Json)
    ensures SplitterAccepts(element) && ParseMatcher(element).None? <==>
      && Field(element, "kind") == Some(String("regex"))
      && (Field(element, "flags").None? || Field(element, "flags").value.Null? || Field(element, "flags").value.String?)
      && !(IsText(Field(element, "source")) && IsText(Field(element, "flags")))
  {
    KindsDiffer();
  }

  /** A `regex` element with nothing else is taken for a pattern that matches any
      host with a label: what validation before splitting keeps out. */
  lemma SourcelessRegexMatchesAny(e: Engine, labels: seq<string>)
    requires e.compiles("", "i") && forall text :: e.matchAt("", "i", text, 0).Some?
    requires labels != []
    ensures
      var element := Object(map["kind" := String("regex")]);
      && ParseMatcher(element).None? && SplitterAccepts(element)
      && SatisfiedBy(e, CanonicalizeMatcher(e, SplitterReads(e, element)), labels) == Some(true)
  {
    var element := Object(map["kind" := String("regex")]);
    assert Field(element, "kind") == Some(String("regex")) && "exact"[0] != "regex"[0];
    assert "flags"[0] != "kind"[0] && "source"[0] != "kind"[0];
    assert StripStateful("") == "" && "" + "i" == "i";
    StripKeepsTheRest("i");
    assert StripStateful("i") == "i" by { assert !Stateful("i"); }
    assert Search(e, "", "i", labels[0], 0).Some?;
    assert labels[0] in labels && Fresh(e, "", "i", labels[0]) == Some(true);
  }

  datatype Partition = Partition(exact: seq<string>, regex: seq<LabelMatcher>)

  predicate AllAccepted(elements: seq<Json>) {
    forall el | el in elements :: SplitterAccepts(el)
  }

  function Matchers(e: Engine, elements: seq<Json>): (ms: seq<LabelMatcher>)
    requires AllAccepted(elements)
    ensures |ms| == |elements| && forall i | 0 <= i < |ms| :: ms[i] == SplitterReads(e, elements[i])
  {
    seq(|elements|, i requires 0 <= i < |elements| => SplitterReads(e, elements[i]))
  }

  ghost predicate AllSatisfied(e: Engine, ms: seq<LabelMatcher>, labels: seq<string>) {
    forall m | m in ms :: SatisfiedBy(e, CanonicalizeMatcher(e, m), labels) == Some(true)
  }

  ghost predicate PartitionSatisfied(e: Engine, p: Partition, labels: seq<string>) {
    && (forall v | v in p.exact :: v in labels)
    && (forall m | m in p.regex :: SatisfiedBy(e, m, labels) == Some(true))
  }

  ghost predicate Splits(e: Engine, p: Partition, ms: seq<LabelMatcher>) {
    && (forall v :: v in p.exact <==> exists m | m in ms :: m.Exact? && CanonicalizeLabel(e.lower, m.value) == v)
    && (forall c :: c in p.regex <==> exists m | m in ms :: m.Regex? && CanonicalizeMatcher(e, m) == c)
    && |p.exact| + |p.regex| == |ms|
  }

  lemma MatchersSnoc(e: Engine, elements: seq<Json>, i: nat)
    requires i < |elements| && AllAccepted(elements[..i]) && SplitterAccepts(elements[i])
    ensures AllAccepted(elements[..i + 1])
    ensures Matchers(e, elements[..i + 1]) == Matchers(e, elements[..i]) + [SplitterReads(e, elements[i])]
  {
    assert elements[..i + 1] == elements[..i] + [elements[i]];
  }

  lemma SplitsOneMore(e: Engine, p: Partition, ms: seq<LabelMatcher>, m: LabelMatcher)
    requires Splits(e, p, ms)
    ensures Splits(e, if m.Exact? then Partition(p.exact + [CanonicalizeLabel(e.lower, m.value)], p.regex)
                      else Partition(p.exact, p.regex + [CanonicalizeMatcher(e, m)]), ms + [m])
  {
    match m
    case Exact(value) => SplitsExact(e, p, ms, value);
    case Regex(source, flags) => SplitsRegex(e, p, ms, m);
  }

  lemma KindsDiffer()
    ensures String("exact") != String("regex")
  {
    assert "exact"[0] != "regex"[0];
  }

  /** The branches on one element: nothing when one of them throws. */
  method TakeElement(e: Engine, element: Json) returns (read: Option<LabelMatcher>)
    ensures read.Some? <==> SplitterAccepts(element)
    ensures read.Some? ==> read.value == SplitterReads(e, element)
  {
    KindsDiffer();
    var kind := Field(element, "kind");
    if kind == Some(String("exact")) {
      var value := Field(element, "value");
      if !IsText(value) { return None; }
      return Some(Exact(value.value.s));
    } else if kind == Some(String("regex")) {
      var flags := Field(element, "flags");
      if flags.Some? && !flags.value.Null? && !flags.value.String? { return None; }
      return Some(Regex(PatternText(e, Field(element, "source")), if IsText(flags) then flags.value.s else ""));
    }
    return None;
  }

  /** Throws exactly on a list with an element it cannot take apart; what comes out
      is satisfied by exactly the label sets that satisfy every matcher read. */
  method PartitionMatchers(e: Engine, elements: seq<Json>) returns (result: Option<Partition>)
    ensures result.Some? <==> AllAccepted(elements)
    ensures result.Some? ==> Splits(e, result.value, Matchers(e, elements))
    ensures result.Some? ==> forall labels ::
      PartitionSatisfied(e, result.value, labels) <==> AllSatisfied(e, Matchers(e, elements), labels)
  {
    var exact: seq<string>, regex: seq<LabelMatcher> := [], [];
    for i := 0 to |elements|
      invariant AllAccepted(elements[..i])
      invariant Splits(e, Partition(exact, regex), Matchers(e, elements[..i]))
    {
      var read := TakeElement(e, elements[i]);
      if read.None? {
        assert elements[i] in elements;
        return None;
      }
      MatchersSnoc(e, elements, i);
      SplitsOneMore(e, Partition(exact, regex), Matchers(e, elements[..i]), read.value);
      match read.value {
        case Exact(value) => exact := exact + [CanonicalizeLabel(e.lower, value)];
        case Regex(source, flags) => regex := regex + [CanonicalizeMatcher(e, read.value)];
      }
    }
    assert elements[..|elements|] == elements;
    result := Some(Partition(exact, regex));
    forall labels
      ensures PartitionSatisfied(e, result.value, labels) <==> AllSatisfied(e, Matchers(e, elements), labels)
    {
      PartitionMeansTheList(e, result.value, Matchers(e, elements), labels);
    }
  }

  lemma SplitsExact(e: Engine, p: Partition, ms: seq<LabelMatcher>, value: string)
    requires Splits(e, p, ms)
    ensures Splits(e, Partition(p.exact + [CanonicalizeLabel(e.lower, value)], p.regex), ms + [Exact(value)])
  {
    var all := ms + [Exact(value)];
    assert all[|ms|] == Exact(value);
    forall c ensures c in p.regex <==> exists m | m in all :: m.Regex? && CanonicalizeMatcher(e, m) == c {
      if c in p.regex {
        var m :| m in ms && m.Regex? && CanonicalizeMatcher(e, m) == c;
        assert m in all;
      }
    }
    forall v ensures v in p.exact + [CanonicalizeLabel(e.lower, value)] <==> exists m | m in all :: m.Exact? && CanonicalizeLabel(e.lower, m.value) == v {
      if v in p.exact {
        var m :| m in ms && m.Exact? && CanonicalizeLabel(e.lower, m.value) == v;
        assert m in all;
      }
    }
  }

  lemma SplitsRegex(e: Engine, p: Partition, ms: seq<LabelMatcher>, r: LabelMatcher)
    requires Splits(e, p, ms) && r.Regex?
    ensures Splits(e, Partition(p.exact, p.regex + [CanonicalizeMatcher(e, r)]), ms + [r])
  {
    var all := ms + [r];
    assert all[|ms|] == r;
    forall c ensures c in p.regex + [CanonicalizeMatcher(e, r)] <==> exists m | m in all :: m.Regex? && CanonicalizeMatcher(e, m) == c {
      if c in p.regex {
        var m :| m in ms && m.Regex? && CanonicalizeMatcher(e, m) == c;
        assert m in all;
      }
    }
    forall v ensures v in p.exact <==> exists m | m in all :: m.Exact? && CanonicalizeLabel(e.lower, m.value) == v {
      if v in p.exact {
        var m :| m in ms && m.Exact? && CanonicalizeLabel(e.lower, m.value) == v;
        assert m in all;
      }
    }
  }

  /** Satisfying a partition is satisfying the list it was made from. */
  lemma PartitionMeansTheList(e: Engine, p: Partition, ms: seq<LabelMatcher>, labels: seq<string>)
    requires Splits(e, p, ms)
    ensures PartitionSatisfied(e, p, labels) <==> AllSatisfied(e, ms, labels)
  {
    if PartitionSatisfied(e, p, labels) {
      forall m | m in ms ensures SatisfiedBy(e, CanonicalizeMatcher(e, m), labels) == Some(true) {
        if m.Exact? {
          assert CanonicalizeLabel(e.lower, m.value) in p.exact;
        } else {
          assert CanonicalizeMatcher(e, m) in p.regex;
        }
      }
    }
    if AllSatisfied(e, ms, labels) {
      forall v | v in p.exact ensures v in labels {
        var m :| m in ms && m.Exact? && CanonicalizeLabel(e.lower, m.value) == v;
        assert SatisfiedBy(e, CanonicalizeMatcher(e, m), labels) == Some(true);
      }
      forall c | c in p.regex ensures SatisfiedBy(e, c, labels) == Some(true) {
        var m :| m in ms && m.Regex? && CanonicalizeMatcher(e, m) == c;
      }
    }
  }

  // ----- Host targets.

  datatype TargetValue = TargetValue(includes: seq<LabelMatcher>, excludes: seq<LabelMatcher>)

  /** `every`, left to right, stopping at the first false; a throw stops it too. */
  function Every(verdicts: seq<Option<bool>>): Option<bool> {
    if verdicts == [] then Some(true)
    else if verdicts[0] == Some(true) then Every(verdicts[1..])
    else verdicts[0]
  }

  function Negate(v: Option<bool>): Option<bool> {
    match v case None => None case Some(b) => Some(!b)
  }

  ghost function MatcherVerdicts(e: Engine, ms: seq<LabelMatcher>, labels: seq<string>, wanted: bool): (r: seq<Option<bool>>)
    ensures |r| == |ms|
    ensures forall i | 0 <= i < |ms| ::
      var v := SatisfiedBy(e, CanonicalizeMatcher(e, ms[i]), labels);
      r[i] == if wanted then v else Negate(v)
  {
    if ms == [] then []
    else
      var v := SatisfiedBy(e, CanonicalizeMatcher(e, ms[0]), labels);
      [if wanted then v else Negate(v)] + MatcherVerdicts(e, ms[1..], labels, wanted)
  }

  /** One value: every include matches, then no exclude does. */
  ghost function ValueVerdict(e: Engine, v: TargetValue, labels: seq<string>): Option<bool> {
    var included := Every(MatcherVerdicts(e, v.includes, labels, true));
    if included == Some(true) then Every(MatcherVerdicts(e, v.excludes, labels, false)) else included
  }

  ghost function ValueVerdicts(e: Engine, values: seq<TargetValue>, labels: seq<string>): (r: seq<Option<bool>>)
    ensures |r| == |values| && forall i | 0 <= i < |values| :: r[i] == ValueVerdict(e, values[i], labels)
  {
    if values == [] then [] else [ValueVerdict(e, values[0], labels)] + ValueVerdicts(e, values[1..], labels)
  }

  ghost function HostSatisfiesTarget(e: Engine, labels: seq<string>, values: seq<TargetValue>): Option<bool> {
    Every(ValueVerdicts(e, values, labels))
  }

  lemma {:induction false} EveryMeansAll(verdicts: seq<Option<bool>>)
    ensures Every(verdicts) == Some(true) <==> forall i | 0 <= i < |verdicts| :: verdicts[i] == Some(true)
  {
    if verdicts != [] {
      EveryMeansAll(verdicts[1..]);
      assert verdicts == [verdicts[0]] + verdicts[1..];
    }
  }

  /** Evaluation stops at the first verdict that is no plain yes, and gives that one:
      a throw counts only if nothing before it said no. */
  lemma {:induction false} EveryStopsAtTheFirst(verdicts: seq<Option<bool>>, i: nat)
    requires i < |verdicts| && verdicts[i] != Some(true)
    requires forall j | 0 <= j < i :: verdicts[j] == Some(true)
    ensures Every(verdicts) == verdicts[i]
  {
    if i > 0 {
      EveryStopsAtTheFirst(verdicts[1..], i - 1);
    }
  }

  /** So a target throws on a host exactly when the first of its values that does not
      admit the host throws on it. */
  lemma TargetThrowsIff(e: Engine, labels: seq<string>, values: seq<TargetValue>, i: nat)
    requires i < |values| && !Admits(e, values[i], labels)
    requires forall j | 0 <= j < i :: Admits(e, values[j], labels)
    ensures HostSatisfiesTarget(e, labels, values) == ValueVerdict(e, values[i], labels)
  {
    forall v ensures ValueVerdict(e, v, labels) == Some(true) <==> Admits(e, v, labels) {
      EveryMeansAll(MatcherVerdicts(e, v.includes, labels, true));
      EveryMeansAll(MatcherVerdicts(e, v.excludes, labels, false));
    }
    EveryStopsAtTheFirst(ValueVerdicts(e, values, labels), i);
  }

  /** Whether one value admits a host, said without an order of evaluation. */
  ghost predicate Admits(e: Engine, v: TargetValue, labels: seq<string>) {
    && (forall m | m in v.includes :: SatisfiedBy(e, CanonicalizeMatcher(e, m), labels) == Some(true))
    && (forall m | m in v.excludes :: SatisfiedBy(e, CanonicalizeMatcher(e, m), labels) == Some(false))
  }

  /** A host is kept exactly when every value admits it, so values compose by
      intersection and adding one only narrows. */
  lemma TargetsIntersect(e: Engine, labels: seq<string>, values: seq<TargetValue>)
    ensures HostSatisfiesTarget(e, labels, values) == Some(true) <==> forall v | v in values :: Admits(e, v, labels)
  {
    EveryMeansAll(ValueVerdicts(e, values, labels));
    forall v ensures ValueVerdict(e, v, labels) == Some(true) <==> Admits(e, v, labels) {
      EveryMeansAll(MatcherVerdicts(e, v.includes, labels, true));
      EveryMeansAll(MatcherVerdicts(e, v.excludes, labels, false));
    }
  }

  lemma TargetsOnlyNarrow(e: Engine, labels: seq<string>, values: seq<TargetValue>, more: seq<TargetValue>)
    ensures HostSatisfiesTarget(e, labels, values + more) == Some(true) <==>
      && HostSatisfiesTarget(e, labels, values) == Some(true)
      && HostSatisfiesTarget(e, labels, more) == Some(true)
  {
    TargetsIntersect(e, labels, values);
    TargetsIntersect(e, labels, more);
    TargetsIntersect(e, labels, values + more);
  }
}
