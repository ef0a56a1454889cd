/** What a job sees of the outputs of the jobs it needs: which rows are read, and
    how a fanned-out job's rows fold into one envelope. */
module UpstreamOutputs {
  import opened Strings

  // ----- Selecting rows with LIKE.

  /** SQL `LIKE` with backslash as the escape. */
  ghost predicate Like(pattern: string, s: string)
    decreases |pattern|
  {
    if pattern == "" then s == ""
    else if pattern[0] == '%' then exists k :: Suffix(s, k) && Like(pattern[1..], s[k..])
    else if pattern[0] == '_' then s != "" && Like(pattern[1..], s[1..])
    else if pattern[0] == '\\' && |pattern| > 1 then s != "" && s[0] == pattern[1] && Like(pattern[2..], s[1..])
    else s != "" && s[0] == pattern[0] && Like(pattern[1..], s[1..])
  }

  predicate Suffix(s: string, k: int) {
    0 <= k <= |s|
  }

  function EscapeLikePattern(value: string): string {
    if value == "" then ""
    else EscapeOne(value[0]) + EscapeLikePattern(value[1..])
  }

  function EscapeOne(c: char): string {
    if c in "\\%_" then ['\\', c] else [c]
  }

  lemma EscapedChar(c: char, rest: string, s: string)
    ensures Like(EscapeOne(c) + rest, s) <==> s != "" && s[0] == c && Like(rest, s[1..])
  {
    var pattern := EscapeOne(c) + rest;
    if c in "\\%_" {
      assert pattern[0] == '\\' && pattern[1] == c && pattern[2..] == rest;
    } else {
      assert pattern[0] == c && pattern[1..] == rest;
    }
  }

  /** An escaped value matches itself and nothing else. */
  lemma {:induction false} EscapedMatchesItself(value: string, tail: string, s: string)
    ensures Like(EscapeLikePattern(value) + tail, s) <==> StartsWith(s, value) && Like(tail, s[|value|..])
  {
    if value == "" {
      assert EscapeLikePattern(value) + tail == tail && s[0..] == s;
    } else {
      var c, rest := value[0], EscapeLikePattern(value[1..]) + tail;
      assert EscapeLikePattern(value) + tail == EscapeOne(c) + rest;
      EscapedChar(c, rest, s);
      if s != "" {
        EscapedMatchesItself(value[1..], tail, s[1..]);
        assert s == [s[0]] + s[1..] && value == [c] + value[1..];
        assert StartsWith(s, value) <==> s[0] == c && StartsWith(s[1..], value[1..]);
        assert StartsWith(s, value) ==> s[1..][|value[1..]|..] == s[|value|..];
      }
    }
  }

  /** The children's pattern selects exactly the names that start with the base
      name, a space and a parenthesis, whatever wildcards the base name holds. */
  lemma ChildPatternIsPrefix(base: string, name: string)
    ensures Like(EscapeLikePattern(base) + " (%", name) <==> StartsWith(name, base + " (")
  {
    EscapedMatchesItself(base, " (%", name);
    if StartsWith(name, base) {
      var t := name[|base|..];
      OpenParen(t);
      assert name == base + t;
      assert StartsWith(name, base + " (") <==> StartsWith(t, " (");
    }
  }

  lemma OpenParen(t: string)
    ensures Like(" (%", t) <==> StartsWith(t, " (")
  {
    assert " (%"[1..] == "(%" && "(%"[1..] == "%" && "%"[1..] == "";
    if |t| >= 2 {
      var u := t[1..][1..];
      assert Suffix(u, |u|) && Like("", u[|u|..]);
      assert Like("%", u);
    }
  }

  // ----- Rows and their children.

  type Outputs<V> = map<string, V>

  /** One row. `outputs` is its cell as parsed: nothing when it is empty or not an
      object. */
  datatype Row<V> = Row(
    jobName: string,
    outputs: Option<Outputs<V>>,
    hasMatrix: bool,
    isHost: bool,
    variantLabel: Option<string>,
    status: Option<string>)

  /** One child of a fanned-out job, under its host or its name. */
  datatype Child<V> = Child(name: string, status: Option<string>, parsed: Outputs<V>)

  function ChildPrefix(base: string): string {
    base + " ("
  }

  /** `slice(base.length + 2, -1)`. */
  function SliceSuffix(base: string, name: string): string {
    if |base| + 2 <= |name| - 1 then name[|base| + 2..|name| - 1] else ""
  }

  function ChildName(base: string, suffix: string): string {
    base + " (" + suffix + ")"
  }

  /** Slicing inverts the way a child's name is built. */
  lemma SlicingInvertsNaming(base: string, suffix: string)
    ensures SliceSuffix(base, ChildName(base, suffix)) == suffix
    ensures StartsWith(ChildName(base, suffix), ChildPrefix(base))
  {
    var name := ChildName(base, suffix);
    assert name[|base| + 2..|name| - 1] == suffix;
    assert name == ChildPrefix(base) + (suffix + ")");
  }

  function HostPick<V>(base: string): Row<V> -> Option<Child<V>> {
    (r: Row<V>) =>
      if r.isHost && StartsWith(r.jobName, ChildPrefix(base)) then
        Some(Child(
          if r.variantLabel.Some? then r.variantLabel.value else SliceSuffix(base, r.jobName),
          r.status,
          if r.outputs.Some? then r.outputs.value else map[]))
      else None
  }

  function MatrixPick<V>(base: string): Row<V> -> Option<Child<V>> {
    (r: Row<V>) =>
      if r.hasMatrix && StartsWith(r.jobName, ChildPrefix(base)) && r.outputs.Some?
      then Some(Child(r.jobName, r.status, r.outputs.value)) else None
  }

  function ExactPick<V>(base: string): Row<V> -> Option<Child<V>> {
    (r: Row<V>) =>
      if r.jobName == base && !r.hasMatrix
      then Some(Child(r.jobName, r.status, if r.outputs.Some? then r.outputs.value else map[])) else None
  }

  /** `filter` and `map` in one. */
  function Picked<V>(rows: seq<Row<V>>, pick: Row<V> -> Option<Child<V>>): seq<Child<V>> {
    if rows == [] then []
    else
      var n := |rows| - 1;
      match pick(rows[n])
      case None => Picked(rows[..n], pick)
      case Some(c) => Picked(rows[..n], pick) + [c]
  }

  // ----- Sorting by name, in any strict total order.

  ghost predicate StrictOrder(before: (string, string) -> bool) {
    && (forall a :: !before(a, a))
    && (forall a, b :: before(a, b) || a == b || before(b, a))
    && (forall a, b, c :: before(a, b) && before(b, c) ==> before(a, c))
  }

  function Insert<V>(c: Child<V>, xs: seq<Child<V>>, before: (string, string) -> bool): (r: seq<Child<V>>)
    ensures multiset(r) == multiset(xs) + multiset{c}
  {
    if xs == [] then [c]
    else
      var n := |xs| - 1;
      assert xs == xs[..n] + [xs[n]];
      if before(c.name, xs[n].name) then Insert(c, xs[..n], before) + [xs[n]] else xs + [c]
  }

  function SortByName<V>(xs: seq<Child<V>>, before: (string, string) -> bool): (r: seq<Child<V>>)
    ensures multiset(r) == multiset(xs)
  {
    if xs == [] then []
    else
      assert xs == xs[..|xs| - 1] + [xs[|xs| - 1]];
      Insert(xs[|xs| - 1], SortByName(xs[..|xs| - 1], before), before)
  }

  ghost predicate InOrder<V>(xs: seq<Child<V>>, before: (string, string) -> bool) {
    forall i, j | 0 <= i < j < |xs| :: before(xs[i].name, xs[j].name)
  }

  ghost predicate DistinctNames<V>(xs: seq<Child<V>>) {
    forall i, j | 0 <= i < j < |xs| :: xs[i].name != xs[j].name
  }

  lemma {:induction false} InsertInOrder<V>(c: Child<V>, xs: seq<Child<V>>, before: (string, string) -> bool)
    requires StrictOrder(before) && InOrder(xs, before) && forall x | x in xs :: x.name != c.name
    ensures InOrder(Insert(c, xs, before), before)
  {
    if xs != [] {
      var n := |xs| - 1;
      assert xs[n] in xs;
      if before(c.name, xs[n].name) {
        InsertInOrder(c, xs[..n], before);
        var front := Insert(c, xs[..n], before);
        forall i | 0 <= i < |front| ensures before(front[i].name, xs[n].name) {
          assert front[i] in multiset(front);
          assert front[i] == c || front[i] in xs[..n];
        }
      } else {
        assert before(xs[n].name, c.name);
      }
    }
  }

  lemma {:induction false} SortInOrder<V>(xs: seq<Child<V>>, before: (string, string) -> bool)
    requires StrictOrder(before) && DistinctNames(xs)
    ensures InOrder(SortByName(xs, before), before)
  {
    if xs != [] {
      var n := |xs| - 1;
      var front := SortByName(xs[..n], before);
      SortInOrder(xs[..n], before);
      forall x | x in front ensures x.name != xs[n].name {
        assert x in multiset(front) && x in xs[..n];
      }
      InsertInOrder(xs[n], front, before);
    }
  }

  lemma {:induction false} OrderIsUnique<V>(xs: seq<Child<V>>, ys: seq<Child<V>>, before: (string, string) -> bool)
    requires StrictOrder(before) && InOrder(xs, before) && InOrder(ys, before) && multiset(xs) == multiset(ys)
    ensures xs == ys
  {
    assert |xs| == |multiset(xs)| == |multiset(ys)| == |ys|;
    if xs != [] {
      var n := |xs| - 1;
      LastIsSame(xs, ys, before);
      WithoutLast(xs);
      WithoutLast(ys);
      OrderIsUnique(xs[..n], ys[..n], before);
    }
  }

  lemma WithoutLast<T>(xs: seq<T>)
    requires xs != []
    ensures xs == xs[..|xs| - 1] + [xs[|xs| - 1]]
    ensures multiset(xs[..|xs| - 1]) == multiset(xs) - multiset{xs[|xs| - 1]}
  {
    assert xs == xs[..|xs| - 1] + [xs[|xs| - 1]];
  }

  lemma NotBoth(before: (string, string) -> bool, a: string, b: string)
    requires StrictOrder(before)
    ensures !(before(a, b) && before(b, a)) && !before(a, a)
  {
  }

  lemma LastIsSame<V>(xs: seq<Child<V>>, ys: seq<Child<V>>, before: (string, string) -> bool)
    requires StrictOrder(before) && InOrder(xs, before) && InOrder(ys, before)
    requires xs != [] && |xs| == |ys| && multiset(xs) == multiset(ys)
    ensures xs[|xs| - 1] == ys[|ys| - 1]
  {
    var n := |xs| - 1;
    assert xs[n] in multiset(ys) && ys[n] in multiset(xs);
    var i :| 0 <= i < |ys| && ys[i] == xs[n];
    var j :| 0 <= j < |xs| && xs[j] == ys[n];
    NotBoth(before, xs[n].name, ys[n].name);
  }

  /** Sorting forgets the order the children came in. */
  lemma SortForgetsOrder<V>(xs: seq<Child<V>>, ys: seq<Child<V>>, before: (string, string) -> bool)
    requires StrictOrder(before) && DistinctNames(xs) && DistinctNames(ys) && multiset(xs) == multiset(ys)
    ensures SortByName(xs, before) == SortByName(ys, before)
  {
    SortInOrder(xs, before);
    SortInOrder(ys, before);
    OrderIsUnique(SortByName(xs, before), SortByName(ys, before), before);
  }

  // ----- The two envelopes.

  datatype HostEnvelope<V> = HostEnvelope(
    byHost: map<string, Outputs<V>>,
    succeededHosts: seq<string>,
    failedHosts: seq<string>,
    outputs: map<string, seq<V>>)

  datatype MatrixEnvelope<V> = MatrixEnvelope(byMatrix: map<string, Outputs<V>>, merged: Outputs<V>)

  const SUCCESS: string := "success"
  const FAILED: string := "failed"

  function Push<V>(outputs: map<string, seq<V>>, key: string, value: V): map<string, seq<V>> {
    outputs[key := (if key in outputs then outputs[key] else []) + [value]]
  }

  /** One host's outputs, each pushed onto the list for its key. */
  function PushAll<V>(outputs: map<string, seq<V>>, parsed: Outputs<V>): map<string, seq<V>> {
    map k | k in outputs.Keys + parsed.Keys ::
      (if k in outputs then outputs[k] else []) + (if k in parsed then [parsed[k]] else [])
  }

  function FoldHosts<V>(ordered: seq<Child<V>>): HostEnvelope<V> {
    if ordered == [] then HostEnvelope(map[], [], [], map[])
    else
      var n := |ordered| - 1;
      var e, c := FoldHosts(ordered[..n]), ordered[n];
      HostEnvelope(
        e.byHost[c.name := c.parsed],
        if c.status == Some(SUCCESS) then e.succeededHosts + [c.name] else e.succeededHosts,
        if c.status == Some(FAILED) then e.failedHosts + [c.name] else e.failedHosts,
        PushAll(e.outputs, c.parsed))
  }

  function HostEnvelopeOf<V>(children: seq<Child<V>>, before: (string, string) -> bool): HostEnvelope<V> {
    FoldHosts(SortByName(children, before))
  }

  method BuildHostOutputsEnvelope<V>(children: seq<Child<V>>, before: (string, string) -> bool) returns (e: HostEnvelope<V>)
    ensures e == HostEnvelopeOf(children, before)
  {
    var ordered := SortByName(children, before);
    var byHost: map<string, Outputs<V>>, succeededHosts, failedHosts := map[], [], [];
    var outputs: map<string, seq<V>> := map[];
    for i := 0 to |ordered|
      invariant HostEnvelope(byHost, succeededHosts, failedHosts, outputs) == FoldHosts(ordered[..i])
    {
      var child := ordered[i];
      assert ordered[..i + 1][..i] == ordered[..i];
      byHost := byHost[child.name := child.parsed];
      if child.status == Some(SUCCESS) {
        succeededHosts := succeededHosts + [child.name];
      } else if child.status == Some(FAILED) {
        failedHosts := failedHosts + [child.name];
      }
      outputs := PushEntries(outputs, child.parsed);
    }
    assert ordered[..|ordered|] == ordered;
    return HostEnvelope(byHost, succeededHosts, failedHosts, outputs);
  }

  lemma PushNone<V>(outputs: map<string, seq<V>>)
    ensures PushAll(outputs, map[]) == outputs
  {
    assert forall k | k in outputs :: PushAll(outputs, map[])[k] == outputs[k];
  }

  /** Entries may be pushed one at a time, in any order. */
  lemma PushOneOf<V>(outputs: map<string, seq<V>>, parsed: Outputs<V>, key: string)
    requires key in parsed
    ensures PushAll(outputs, parsed) == Push(PushAll(outputs, parsed - {key}), key, parsed[key])
  {
    var all, one := PushAll(outputs, parsed), Push(PushAll(outputs, parsed - {key}), key, parsed[key]);
    assert all.Keys == one.Keys;
    forall k | k in all ensures all[k] == one[k] {
    }
  }

  method PushEntries<V>(start: map<string, seq<V>>, parsed: Outputs<V>) returns (outputs: map<string, seq<V>>)
    ensures outputs == PushAll(start, parsed)
  {
    outputs := start;
    var keys := parsed.Keys;
    PushNone(start);
    assert parsed - keys == map[];
    while keys != {}
      invariant keys <= parsed.Keys
      invariant outputs == PushAll(start, parsed - keys)
      decreases keys
    {
      var key :| key in keys;
      PushOneOf(start, parsed - (keys - {key}), key);
      assert parsed - (keys - {key}) - {key} == parsed - keys;
      outputs := Push(outputs, key, parsed[key]);
      keys := keys - {key};
    }
    assert parsed - {} == parsed;
  }

  function MergeAll<V>(ordered: seq<Child<V>>): Outputs<V> {
    if ordered == [] then map[]
    else MergeAll(ordered[..|ordered| - 1]) + ordered[|ordered| - 1].parsed
  }

  function FoldMatrix<V>(base: string, ordered: seq<Child<V>>): map<string, Outputs<V>> {
    if ordered == [] then map[]
    else
      var n := |ordered| - 1;
      FoldMatrix(base, ordered[..n])[SliceSuffix(base, ordered[n].name) := ordered[n].parsed]
  }

  function MatrixEnvelopeOf<V>(base: string, children: seq<Child<V>>, before: (string, string) -> bool): MatrixEnvelope<V> {
    var ordered := SortByName(children, before);
    MatrixEnvelope(FoldMatrix(base, ordered), MergeAll(ordered))
  }

  method BuildMatrixOutputsEnvelope<V>(base: string, children: seq<Child<V>>, before: (string, string) -> bool)
    returns (e: MatrixEnvelope<V>)
    ensures e == MatrixEnvelopeOf(base, children, before)
  {
    var merged: Outputs<V> := map[];
    var ordered := SortByName(children, before);
    for i := 0 to |ordered|
      invariant merged == MergeAll(ordered[..i])
    {
      assert ordered[..i + 1][..i] == ordered[..i];
      merged := merged + ordered[i].parsed;
    }
    assert ordered[..|ordered|] == ordered;
    return MatrixEnvelope(FoldMatrix(base, ordered), merged);
  }

  // ----- What the envelopes say.

  /** `merged` takes each key from the last child, in name order, that defines it. */
  lemma {:induction false} MergedTakesTheLast<V>(ordered: seq<Child<V>>, key: string)
    ensures key in MergeAll(ordered) <==> exists i | 0 <= i < |ordered| :: key in ordered[i].parsed
    ensures forall i | 0 <= i < |ordered| && key in ordered[i].parsed
        && (forall j | i < j < |ordered| :: key !in ordered[j].parsed) ::
      MergeAll(ordered)[key] == ordered[i].parsed[key]
  {
    if ordered != [] {
      MergedTakesTheLast(ordered[..|ordered| - 1], key);
    }
  }

  /** The values one key has across hosts, in host order. */
  function ValuesOf<V>(ordered: seq<Child<V>>, key: string): seq<V> {
    if ordered == [] then []
    else
      var n := |ordered| - 1;
      ValuesOf(ordered[..n], key) + if key in ordered[n].parsed then [ordered[n].parsed[key]] else []
  }

  lemma {:induction false} OutputsListValues<V>(ordered: seq<Child<V>>, key: string)
    ensures key in FoldHosts(ordered).outputs <==> ValuesOf(ordered, key) != []
    ensures key in FoldHosts(ordered).outputs ==> FoldHosts(ordered).outputs[key] == ValuesOf(ordered, key)
  {
    if ordered != [] {
      OutputsListValues(ordered[..|ordered| - 1], key);
    }
  }

  /** The names of the children with one status, in order. */
  function NamesWith<V>(ordered: seq<Child<V>>, status: string): seq<string> {
    if ordered == [] then []
    else
      var n := |ordered| - 1;
      NamesWith(ordered[..n], status) + if ordered[n].status == Some(status) then [ordered[n].name] else []
  }

  /** `succeededHosts` and `failedHosts` name the hosts that ended so, in host order;
      a host with another status is in neither. */
  lemma {:induction false} OutcomesAreListed<V>(ordered: seq<Child<V>>)
    ensures FoldHosts(ordered).succeededHosts == NamesWith(ordered, SUCCESS)
    ensures FoldHosts(ordered).failedHosts == NamesWith(ordered, FAILED)
  {
    assert SUCCESS[0] != FAILED[0];
    if ordered != [] {
      OutcomesAreListed(ordered[..|ordered| - 1]);
    }
  }

  /** One more host, the last in order, adds its value at the end of each list it has
      a key for, and changes no other. */
  lemma OneMoreHost<V>(ordered: seq<Child<V>>, c: Child<V>, key: string)
    ensures
      var before, after := FoldHosts(ordered).outputs, FoldHosts(ordered + [c]).outputs;
      if key in c.parsed then key in after && after[key] == (if key in before then before[key] else []) + [c.parsed[key]]
      else key in after <==> key in before
    ensures
      var before, after := FoldHosts(ordered).outputs, FoldHosts(ordered + [c]).outputs;
      key !in c.parsed && key in before ==> key in after && after[key] == before[key]
  {
    assert (ordered + [c])[..|ordered|] == ordered;
  }

  /** `byHost` holds each host's own outputs ... */
  lemma {:induction false} ByHostFindsEachHost<V>(ordered: seq<Child<V>>)
    requires DistinctNames(ordered)
    ensures forall i | 0 <= i < |ordered| ::
      ordered[i].name in FoldHosts(ordered).byHost && FoldHosts(ordered).byHost[ordered[i].name] == ordered[i].parsed
  {
    if ordered != [] {
      ByHostFindsEachHost(ordered[..|ordered| - 1]);
    }
  }

  /** ... and no entry but the hosts'. */
  lemma {:induction false} ByHostHoldsHosts<V>(ordered: seq<Child<V>>, host: string)
    requires host in FoldHosts(ordered).byHost
    ensures exists c | c in ordered :: c.name == host
  {
    var n := |ordered| - 1;
    assert ordered[n] in ordered;
    if host != ordered[n].name {
      ByHostHoldsHosts(ordered[..n], host);
      var c :| c in ordered[..n] && c.name == host;
      assert c in ordered;
    }
  }

  ghost function TotalLength<V>(outputs: map<string, seq<V>>): nat
    decreases |outputs|
  {
    if outputs == map[] then 0
    else var k :| k in outputs; |outputs[k]| + TotalLength(outputs - {k})
  }

  lemma {:induction false} TotalWithout<V>(outputs: map<string, seq<V>>, key: string)
    requires key in outputs
    ensures TotalLength(outputs) == |outputs[key]| + TotalLength(outputs - {key})
    decreases |outputs|
  {
    var k :| k in outputs && TotalLength(outputs) == |outputs[k]| + TotalLength(outputs - {k});
    if k != key {
      TotalWithout(outputs - {k}, key);
      TotalWithout(outputs - {key}, k);
      assert outputs - {k} - {key} == outputs - {key} - {k};
    }
  }

  lemma TotalPush<V>(outputs: map<string, seq<V>>, key: string, value: V)
    ensures TotalLength(Push(outputs, key, value)) == TotalLength(outputs) + 1
  {
    var more := Push(outputs, key, value);
    TotalWithout(more, key);
    assert more - {key} == outputs - {key};
    if key in outputs {
      TotalWithout(outputs, key);
    } else {
      assert outputs - {key} == outputs;
    }
  }

  lemma {:induction false} TotalPushAll<V>(outputs: map<string, seq<V>>, parsed: Outputs<V>)
    ensures TotalLength(PushAll(outputs, parsed)) == TotalLength(outputs) + |parsed|
    decreases |parsed|
  {
    if parsed == map[] {
      PushNone(outputs);
    } else {
      var key :| key in parsed;
      var fewer := parsed - {key};
      assert fewer.Keys == parsed.Keys - {key};
      TotalPushAll(outputs, fewer);
      TotalPush(PushAll(outputs, fewer), key, parsed[key]);
      PushOneOf(outputs, parsed, key);
    }
  }

  function EntryCount<V>(children: seq<Child<V>>): nat {
    if children == [] then 0 else EntryCount(children[..|children| - 1]) + |children[|children| - 1].parsed|
  }

  /** No output entry is lost or repeated: the lists together hold as many values
      as the hosts have entries. */
  lemma {:induction false} OutputsAreConserved<V>(ordered: seq<Child<V>>)
    ensures TotalLength(FoldHosts(ordered).outputs) == EntryCount(ordered)
  {
    if ordered != [] {
      var n := |ordered| - 1;
      OutputsAreConserved(ordered[..n]);
      TotalPushAll(FoldHosts(ordered[..n]).outputs, ordered[n].parsed);
    }
  }

  /** Children named from distinct suffixes are found again under them. */
  lemma {:induction false} ByMatrixFindsEachChild<V>(base: string, ordered: seq<Child<V>>, suffixes: seq<string>)
    requires |suffixes| == |ordered| && DistinctNames(ordered)
    requires forall i | 0 <= i < |ordered| :: ordered[i].name == ChildName(base, suffixes[i])
    ensures forall i | 0 <= i < |ordered| ::
      suffixes[i] in FoldMatrix(base, ordered) && FoldMatrix(base, ordered)[suffixes[i]] == ordered[i].parsed
  {
    if ordered != [] {
      var n := |ordered| - 1;
      ByMatrixFindsEachChild(base, ordered[..n], suffixes[..n]);
      SlicingInvertsNaming(base, suffixes[n]);
      assert forall i | 0 <= i < n :: suffixes[i] != suffixes[n];
    }
  }

  // ----- Rows to envelopes.

  datatype Shape<V> = Hosts(h: HostEnvelope<V>) | Matrix(m: MatrixEnvelope<V>) | Flat(outputs: Outputs<V>)

  function ForBase<V>(base: string, rows: seq<Row<V>>, before: (string, string) -> bool): Option<Shape<V>> {
    var hosts := Picked(rows, HostPick(base));
    var children := Picked(rows, MatrixPick(base));
    var exact := Picked(rows, ExactPick(base));
    if hosts != [] then Some(Hosts(HostEnvelopeOf(hosts, before)))
    else if children != [] then Some(Matrix(MatrixEnvelopeOf(base, children, before)))
    else if exact != [] && exact[0].parsed != map[] then Some(Flat(exact[0].parsed))
    else None
  }

  lemma {:induction false} PickedFrom<V>(rows: seq<Row<V>>, pick: Row<V> -> Option<Child<V>>)
    ensures forall c | c in Picked(rows, pick) :: exists r | r in rows :: pick(r) == Some(c)
    ensures forall r | r in rows && pick(r).Some? :: pick(r).value in Picked(rows, pick)
  {
    if rows != [] {
      var n := |rows| - 1;
      PickedFrom(rows[..n], pick);
      assert rows == rows[..n] + [rows[n]];
    }
  }

  predicate IsHostChild<V>(base: string, r: Row<V>) {
    r.isHost && StartsWith(r.jobName, ChildPrefix(base))
  }

  predicate IsMatrixChild<V>(base: string, r: Row<V>) {
    r.hasMatrix && StartsWith(r.jobName, ChildPrefix(base)) && r.outputs.Some?
  }

  predicate IsPlain<V>(base: string, r: Row<V>) {
    r.jobName == base && !r.hasMatrix
  }

  /** The row `rows.find` gives: the first of that very name that is no matrix child. */
  predicate FirstPlain<V>(base: string, rows: seq<Row<V>>, i: nat) {
    i < |rows| && IsPlain(base, rows[i]) && forall j | 0 <= j < i :: !IsPlain(base, rows[j])
  }

  ghost predicate FirstPlainHolds<V>(base: string, rows: seq<Row<V>>, outputs: Outputs<V>) {
    exists i: nat :: FirstPlain(base, rows, i) && rows[i].outputs == Some(outputs)
  }

  lemma {:induction false} FirstPicked<V>(base: string, rows: seq<Row<V>>, i: nat)
    requires FirstPlain(base, rows, i)
    ensures Picked(rows, ExactPick(base)) != [] && ExactPick(base)(rows[i]) == Some(Picked(rows, ExactPick(base))[0])
  {
    var n := |rows| - 1;
    if i < n {
      FirstPicked(base, rows[..n], i);
    } else {
      NonePlain(base, rows[..n]);
    }
  }

  lemma {:induction false} NonePlain<V>(base: string, rows: seq<Row<V>>)
    requires forall j | 0 <= j < |rows| :: !IsPlain(base, rows[j])
    ensures Picked(rows, ExactPick(base)) == []
  {
    if rows != [] {
      NonePlain(base, rows[..|rows| - 1]);
    }
  }

  lemma {:induction false} SomeFirst<V>(base: string, rows: seq<Row<V>>, j: nat) returns (i: nat)
    requires j < |rows| && IsPlain(base, rows[j])
    ensures FirstPlain(base, rows, i)
    decreases j
  {
    if k: nat :| k < j && IsPlain(base, rows[k]) {
      i := SomeFirst(base, rows, k);
    } else {
      i := j;
    }
  }

  lemma FlatTellsTheRow<V>(base: string, rows: seq<Row<V>>, outputs: Outputs<V>)
    requires outputs != map[]
    ensures var exact := Picked(rows, ExactPick(base));
            exact != [] && exact[0].parsed == outputs <==> FirstPlainHolds(base, rows, outputs)
  {
    var exact := Picked(rows, ExactPick(base));
    if exact != [] && exact[0].parsed == outputs {
      PickedFrom(rows, ExactPick(base));
      assert exact[0] in exact;
      var r :| r in rows && ExactPick(base)(r) == Some(exact[0]);
      var j :| 0 <= j < |rows| && rows[j] == r;
      var i := SomeFirst(base, rows, j);
      FirstPicked(base, rows, i);
    }
    if i: nat :| FirstPlain(base, rows, i) && rows[i].outputs == Some(outputs) {
      FirstPicked(base, rows, i);
    }
  }

  /** Any host child makes the shape a host envelope; failing that, any matrix child
      with outputs makes it a matrix envelope; failing both, the shape is flat
      exactly when the first row of that very name has outputs, and it is those. */
  lemma ShapeTellsTheRows<V>(
      base: string, rows: seq<Row<V>>, before: (string, string) -> bool, outputs: Outputs<V>)
    ensures
      var shape := ForBase(base, rows, before);
      var hosts, children := exists r | r in rows :: IsHostChild(base, r), exists r | r in rows :: IsMatrixChild(base, r);
      && (shape.Some? && shape.value.Hosts? <==> hosts)
      && (shape.Some? && shape.value.Matrix? <==> !hosts && children)
      && (shape == Some(Flat(outputs)) <==>
            !hosts && !children && outputs != map[] && FirstPlainHolds(base, rows, outputs))
  {
    EnvelopesTellTheRows(base, rows);
    if outputs != map[] {
      FlatTellsTheRow(base, rows, outputs);
    }
  }

  lemma EnvelopesTellTheRows<V>(base: string, rows: seq<Row<V>>)
    ensures Picked(rows, HostPick(base)) != [] <==> exists r | r in rows :: IsHostChild(base, r)
    ensures Picked(rows, MatrixPick(base)) != [] <==> exists r | r in rows :: IsMatrixChild(base, r)
  {
    PickedFrom(rows, HostPick(base));
    PickedFrom(rows, MatrixPick(base));
    var hosts, children := Picked(rows, HostPick(base)), Picked(rows, MatrixPick(base));
    if r :| r in rows && IsHostChild(base, r) {
      assert HostPick(base)(r).value in hosts;
    }
    if r :| r in rows && IsMatrixChild(base, r) {
      assert MatrixPick(base)(r).value in children;
    }
    if hosts != [] {
      assert hosts[0] in hosts;
      var r :| r in rows && HostPick(base)(r) == Some(hosts[0]);
      assert IsHostChild(base, r);
    }
    if children != [] {
      assert children[0] in children;
      var r :| r in rows && MatrixPick(base)(r) == Some(children[0]);
      assert IsMatrixChild(base, r);
    }
  }

  function Build<V>(bases: seq<string>, rows: seq<Row<V>>, before: (string, string) -> bool): map<string, Shape<V>> {
    if bases == [] then map[]
    else
      var n := |bases| - 1;
      WithShape(Build(bases[..n], rows, before), bases[n], ForBase(bases[n], rows, before))
  }

  function WithShape<V>(built: map<string, Shape<V>>, base: string, shape: Option<Shape<V>>): map<string, Shape<V>> {
    match shape case None => built case Some(s) => built[base := s]
  }

  /** The body of the loop: host children first, then matrix children, then the
      one row of that very name. */
  method BuildForBase<V(==)>(base: string, rows: seq<Row<V>>, before: (string, string) -> bool) returns (shape: Option<Shape<V>>)
    ensures shape == ForBase(base, rows, before)
  {
    var hostChildren := Picked(rows, HostPick(base));
    if |hostChildren| > 0 {
      var e := BuildHostOutputsEnvelope(hostChildren, before);
      return Some(Hosts(e));
    }
    var exact := Picked(rows, ExactPick(base));
    var children := Picked(rows, MatrixPick(base));
    if |children| > 0 {
      var e := BuildMatrixOutputsEnvelope(base, children, before);
      return Some(Matrix(e));
    }
    if |exact| > 0 && exact[0].parsed != map[] { return Some(Flat(exact[0].parsed)); }
    return None;
  }

  /** `undefined` when nothing was produced. */
  method BuildUpstreamOutputsByBase<V(==)>(bases: seq<string>, rows: seq<Row<V>>, before: (string, string) -> bool)
    returns (result: Option<map<string, Shape<V>>>)
    ensures result == if Build(bases, rows, before) == map[] then None else Some(Build(bases, rows, before))
  {
    var built: map<string, Shape<V>> := map[];
    for i := 0 to |bases|
      invariant built == Build(bases[..i], rows, before)
    {
      assert bases[..i + 1][..i] == bases[..i];
      var shape := BuildForBase(bases[i], rows, before);
      if shape.Some? { built := built[bases[i] := shape.value]; }
    }
    assert bases[..|bases|] == bases;
    return if built == map[] then None else Some(built);
  }

  // ----- The query loses nothing, and the order of its rows does not matter.

  ghost predicate Selected<V>(bases: seq<string>, r: Row<V>) {
    exists base | base in bases :: r.jobName == base || Like(EscapeLikePattern(base) + " (%", r.jobName)
  }

  ghost function Query<V>(bases: seq<string>, rows: seq<Row<V>>): seq<Row<V>> {
    if rows == [] then []
    else
      var n := |rows| - 1;
      Query(bases, rows[..n]) + if Selected(bases, rows[n]) then [rows[n]] else []
  }

  lemma {:induction false} QueryKeepsPicked<V>(bases: seq<string>, rows: seq<Row<V>>, pick: Row<V> -> Option<Child<V>>)
    requires forall r | r in rows && pick(r).Some? :: Selected(bases, r)
    ensures Picked(Query(bases, rows), pick) == Picked(rows, pick)
  {
    if rows != [] {
      var n := |rows| - 1;
      QueryKeepsPicked(bases, rows[..n], pick);
      var front := Query(bases, rows[..n]);
      assert rows[n] in rows;
      if Selected(bases, rows[n]) {
        assert (front + [rows[n]])[..|front|] == front;
      } else {
        assert front + [] == front;
      }
    }
  }

  lemma QueryKeepsForBase<V>(bases: seq<string>, base: string, rows: seq<Row<V>>, before: (string, string) -> bool)
    requires base in bases
    ensures ForBase(base, Query(bases, rows), before) == ForBase(base, rows, before)
  {
    forall r | r in rows && (r.jobName == base || StartsWith(r.jobName, ChildPrefix(base))) ensures Selected(bases, r) {
      ChildPatternIsPrefix(base, r.jobName);
    }
    QueryKeepsPicked(bases, rows, HostPick(base));
    QueryKeepsPicked(bases, rows, MatrixPick(base));
    QueryKeepsPicked(bases, rows, ExactPick(base));
  }

  lemma {:induction false} SameForBase<V>(bases: seq<string>, rows: seq<Row<V>>, others: seq<Row<V>>, before: (string, string) -> bool)
    requires forall base | base in bases :: ForBase(base, rows, before) == ForBase(base, others, before)
    ensures Build(bases, rows, before) == Build(bases, others, before)
  {
    if bases != [] {
      assert bases[|bases| - 1] in bases;
      SameForBase(bases[..|bases| - 1], rows, others, before);
    }
  }

  /** Building from the selected rows gives what building from every row would: the
      SQL filter and the one in memory agree. */
  lemma QueryLosesNothing<V>(bases: seq<string>, rows: seq<Row<V>>, before: (string, string) -> bool)
    ensures Build(bases, Query(bases, rows), before) == Build(bases, rows, before)
  {
    forall base | base in bases ensures ForBase(base, Query(bases, rows), before) == ForBase(base, rows, before) {
      QueryKeepsForBase(bases, base, rows, before);
    }
    SameForBase(bases, Query(bases, rows), rows, before);
  }

  ghost function PickedOne<V>(r: Row<V>, pick: Row<V> -> Option<Child<V>>): multiset<Child<V>> {
    match pick(r) case None => multiset{} case Some(c) => multiset{c}
  }

  lemma PickedSnoc<V>(rows: seq<Row<V>>, r: Row<V>, pick: Row<V> -> Option<Child<V>>)
    ensures multiset(Picked(rows + [r], pick)) == multiset(Picked(rows, pick)) + PickedOne(r, pick)
  {
    assert (rows + [r])[..|rows|] == rows;
  }

  lemma SwapBags<T>(a: multiset<T>, b: multiset<T>, c: multiset<T>)
    ensures (a + b) + c == (a + c) + b
  {
  }

  lemma {:induction false} PickedWithout<V>(a: seq<Row<V>>, r: Row<V>, b: seq<Row<V>>, pick: Row<V> -> Option<Child<V>>)
    ensures multiset(Picked(a + [r] + b, pick)) == multiset(Picked(a + b, pick)) + PickedOne(r, pick)
  {
    if b == [] {
      assert a + [r] + b == a + [r] && a + b == a;
      PickedSnoc(a, r, pick);
    } else {
      var n := |b| - 1;
      var long, short, last := a + [r] + b[..n], a + b[..n], b[n];
      assert a + [r] + b == long + [last] && a + b == short + [last];
      PickedWithout(a, r, b[..n], pick);
      PickedSnoc(long, last, pick);
      PickedSnoc(short, last, pick);
      SwapBags(multiset(Picked(short, pick)), PickedOne(r, pick), PickedOne(last, pick));
    }
  }

  lemma RemoveAt<T>(xs: seq<T>, i: nat)
    requires i < |xs|
    ensures xs == xs[..i] + [xs[i]] + xs[i + 1..]
    ensures multiset(xs[..i] + xs[i + 1..]) == multiset(xs) - multiset{xs[i]}
  {
    assert xs == xs[..i] + [xs[i]] + xs[i + 1..];
  }

  /** The children picked depend on which rows there are, not on their order. */
  lemma {:induction false} PickedPermutes<V>(rows: seq<Row<V>>, others: seq<Row<V>>, pick: Row<V> -> Option<Child<V>>)
    requires multiset(rows) == multiset(others)
    ensures multiset(Picked(rows, pick)) == multiset(Picked(others, pick))
  {
    if rows == [] {
      assert |others| == |multiset(others)| == 0;
    } else {
      var r, rest := rows[0], rows[1..];
      RemoveAt(rows, 0);
      assert rows[..0] + rest == rest;
      assert r in multiset(others);
      var i :| 0 <= i < |others| && others[i] == r;
      RemoveAt(others, i);
      PickedPermutes(rest, others[..i] + others[i + 1..], pick);
      PickedWithout(rows[..0], r, rest, pick);
      PickedWithout(others[..i], r, others[i + 1..], pick);
    }
  }

  /** The names a base's rows are folded under are distinct. */
  ghost predicate WellNamed<V>(base: string, rows: seq<Row<V>>) {
    && DistinctNames(Picked(rows, HostPick(base)))
    && DistinctNames(Picked(rows, MatrixPick(base)))
    && |Picked(rows, ExactPick(base))| <= 1
  }

  lemma EmptyTogether<T>(a: seq<T>, b: seq<T>)
    requires multiset(a) == multiset(b)
    ensures |a| == |b|
    ensures |a| == 1 ==> a == b
  {
    assert |a| == |multiset(a)| == |multiset(b)| == |b|;
    if |a| == 1 {
      assert a[0] in multiset(b);
    }
  }

  lemma DistinctWithout<V>(xs: seq<Child<V>>, i: nat)
    requires DistinctNames(xs) && i < |xs|
    ensures DistinctNames(xs[..i] + xs[i + 1..])
    ensures forall c | c in xs[..i] + xs[i + 1..] :: c.name != xs[i].name
  {
    var rest := xs[..i] + xs[i + 1..];
    assert forall j | 0 <= j < |rest| :: rest[j] == if j < i then xs[j] else xs[j + 1];
  }

  lemma DistinctAppend<V>(xs: seq<Child<V>>, c: Child<V>)
    requires DistinctNames(xs) && forall x | x in xs :: x.name != c.name
    ensures DistinctNames(xs + [c])
  {
  }

  lemma SameElements<T>(xs: seq<T>, ys: seq<T>)
    requires multiset(xs) == multiset(ys)
    ensures forall y | y in ys :: y in xs
  {
    forall y | y in ys ensures y in xs {
      assert y in multiset(ys);
    }
  }

  lemma {:induction false} NamesPermute<V>(xs: seq<Child<V>>, ys: seq<Child<V>>)
    requires DistinctNames(xs) && multiset(xs) == multiset(ys)
    ensures DistinctNames(ys)
  {
    if ys != [] {
      var front, last := ys[..|ys| - 1], ys[|ys| - 1];
      assert last in multiset(xs);
      var i :| 0 <= i < |xs| && xs[i] == last;
      var rest := xs[..i] + xs[i + 1..];
      RemoveAt(xs, i);
      WithoutLast(ys);
      DistinctWithout(xs, i);
      NamesPermute(rest, front);
      SameElements(rest, front);
      DistinctAppend(front, last);
    }
  }

  /** The query asks for no order, and none is needed: any two orders of the same
      rows give the same result. */
  lemma RowOrderDoesNotMatter<V>(bases: seq<string>, rows: seq<Row<V>>, others: seq<Row<V>>, before: (string, string) -> bool)
    requires StrictOrder(before) && multiset(rows) == multiset(others)
    requires forall base | base in bases :: WellNamed(base, rows)
    ensures Build(bases, rows, before) == Build(bases, others, before)
  {
    forall base | base in bases ensures ForBase(base, rows, before) == ForBase(base, others, before) {
      RowOrderForBase(base, rows, others, before);
    }
    SameForBase(bases, rows, others, before);
  }

  lemma RowOrderForBase<V>(base: string, rows: seq<Row<V>>, others: seq<Row<V>>, before: (string, string) -> bool)
    requires StrictOrder(before) && multiset(rows) == multiset(others)
    requires WellNamed(base, rows)
    ensures ForBase(base, rows, before) == ForBase(base, others, before)
  {
    PickedPermutes(rows, others, HostPick(base));
    PickedPermutes(rows, others, MatrixPick(base));
    PickedPermutes(rows, others, ExactPick(base));
    EmptyTogether(Picked(rows, HostPick(base)), Picked(others, HostPick(base)));
    EmptyTogether(Picked(rows, MatrixPick(base)), Picked(others, MatrixPick(base)));
    EmptyTogether(Picked(rows, ExactPick(base)), Picked(others, ExactPick(base)));
    NamesPermute(Picked(rows, HostPick(base)), Picked(others, HostPick(base)));
    NamesPermute(Picked(rows, MatrixPick(base)), Picked(others, MatrixPick(base)));
    SortForgetsOrder(Picked(rows, HostPick(base)), Picked(others, HostPick(base)), before);
    SortForgetsOrder(Picked(rows, MatrixPick(base)), Picked(others, MatrixPick(base)), before);
  }

  // ----- From the rows themselves to what a job sees.

  lemma {:induction false} PickedDistinct<V>(rows: seq<Row<V>>, pick: Row<V> -> Option<Child<V>>, names: seq<string>)
    requires |names| == |rows|
    requires forall j | 0 <= j < |rows| && pick(rows[j]).Some? :: pick(rows[j]).value.name == names[j]
    requires forall j, k | 0 <= j < k < |rows| && pick(rows[j]).Some? && pick(rows[k]).Some? :: names[j] != names[k]
    ensures DistinctNames(Picked(rows, pick))
    ensures forall c | c in Picked(rows, pick) :: exists j | 0 <= j < |rows| :: pick(rows[j]) == Some(c)
  {
    if rows != [] {
      var n := |rows| - 1;
      PickedDistinct(rows[..n], pick, names[..n]);
      forall c | c in Picked(rows[..n], pick)
        ensures exists j | 0 <= j < n :: pick(rows[j]) == Some(c)
      {
        var j :| 0 <= j < n && pick(rows[..n][j]) == Some(c);
        assert pick(rows[j]) == Some(c);
      }
      if pick(rows[n]).Some? {
        DistinctAppend(Picked(rows[..n], pick), pick(rows[n]).value);
      }
    }
  }

  lemma SortedHolds<V>(xs: seq<Child<V>>, before: (string, string) -> bool, c: Child<V>) returns (k: nat)
    requires DistinctNames(xs) && c in xs
    ensures DistinctNames(SortByName(xs, before))
    ensures k < |SortByName(xs, before)| && SortByName(xs, before)[k] == c
  {
    var ordered := SortByName(xs, before);
    NamesPermute(xs, ordered);
    SameElements(ordered, xs);
    k :| 0 <= k < |ordered| && ordered[k] == c;
  }

  lemma {:induction false} NamesWithIff<V>(ordered: seq<Child<V>>, status: string, k: nat)
    requires DistinctNames(ordered) && k < |ordered|
    ensures ordered[k].name in NamesWith(ordered, status) <==> ordered[k].status == Some(status)
  {
    var n := |ordered| - 1;
    if k < n {
      NamesWithIff(ordered[..n], status, k);
    } else {
      NamesAmong(ordered[..n], status);
    }
  }

  lemma {:induction false} NamesAmong<V>(ordered: seq<Child<V>>, status: string)
    ensures forall x | x in NamesWith(ordered, status) :: exists i | 0 <= i < |ordered| :: ordered[i].name == x
  {
    if ordered != [] {
      var n := |ordered| - 1;
      NamesAmong(ordered[..n], status);
      forall x | x in NamesWith(ordered, status) ensures exists i | 0 <= i < |ordered| :: ordered[i].name == x {
        if x in NamesWith(ordered[..n], status) {
          var i :| 0 <= i < n && ordered[..n][i].name == x;
          assert ordered[i].name == x;
        } else {
          assert ordered[n].name == x;
        }
      }
    }
  }

  /** A host child's row names its host: by its label, or else in its own name. */
  predicate HostNamed<V>(base: string, r: Row<V>, host: string) {
    r.variantLabel == Some(host) || (r.variantLabel.None? && r.jobName == base + " (" + host + ")")
  }

  function OutputsOf<V>(r: Row<V>): Outputs<V> {
    if r.outputs.Some? then r.outputs.value else map[]
  }

  lemma HostChildOf<V>(base: string, r: Row<V>, host: string)
    requires HostNamed(base, r, host)
    ensures HostPick(base)(r) ==
      if r.isHost && StartsWith(r.jobName, base + " (") then Some(Child(host, r.status, OutputsOf(r))) else None
  {
    SlicingInvertsNaming(base, host);
  }

  /** Each host child's row is found in the envelope: its outputs under its host, and
      the host in the list its status says. */
  lemma HostRowsAreFound<V>(
      base: string, rows: seq<Row<V>>, before: (string, string) -> bool, hosts: seq<string>, i: nat)
    requires |hosts| == |rows| && i < |rows| && IsHostChild(base, rows[i])
    requires forall j | 0 <= j < |rows| && IsHostChild(base, rows[j]) :: HostNamed(base, rows[j], hosts[j])
    requires forall j, k | 0 <= j < k < |rows| && IsHostChild(base, rows[j]) && IsHostChild(base, rows[k]) ::
               hosts[j] != hosts[k]
    ensures
      var shape := ForBase(base, rows, before);
      && shape.Some? && shape.value.Hosts?
      && hosts[i] in shape.value.h.byHost && shape.value.h.byHost[hosts[i]] == OutputsOf(rows[i])
      && (hosts[i] in shape.value.h.succeededHosts <==> rows[i].status == Some("success"))
      && (hosts[i] in shape.value.h.failedHosts <==> rows[i].status == Some("failed"))
  {
    var pick := HostPick(base);
    forall j | 0 <= j < |rows|
      ensures IsHostChild(base, rows[j]) ==> pick(rows[j]) == Some(Child(hosts[j], rows[j].status, OutputsOf(rows[j])))
      ensures pick(rows[j]).Some? <==> IsHostChild(base, rows[j])
    {
      if IsHostChild(base, rows[j]) { HostChildOf(base, rows[j], hosts[j]); }
    }
    PickedDistinct(rows, pick, hosts);
    PickedFrom(rows, pick);
    var c := pick(rows[i]).value;
    var children := Picked(rows, pick);
    assert rows[i] in rows && c in children;
    EnvelopeHolds(children, before, c);
  }

  lemma EnvelopeHolds<V>(children: seq<Child<V>>, before: (string, string) -> bool, c: Child<V>)
    requires DistinctNames(children) && c in children
    ensures
      var e := HostEnvelopeOf(children, before);
      && c.name in e.byHost && e.byHost[c.name] == c.parsed
      && (c.name in e.succeededHosts <==> c.status == Some("success"))
      && (c.name in e.failedHosts <==> c.status == Some("failed"))
  {
    var ordered := SortByName(children, before);
    var k := SortedHolds(children, before, c);
    ByHostFindsEachHost(ordered);
    OutcomesAreListed(ordered);
    NamesWithIff(ordered, SUCCESS, k);
    NamesWithIff(ordered, FAILED, k);
  }

  /** Each matrix child's outputs are found under the suffix of its name. */
  lemma MatrixRowsAreFound<V>(
      base: string, rows: seq<Row<V>>, before: (string, string) -> bool, suffixes: seq<string>, i: nat)
    requires |suffixes| == |rows| && i < |rows| && IsMatrixChild(base, rows[i])
    requires forall r | r in rows :: !IsHostChild(base, r)
    requires forall j | 0 <= j < |rows| && IsMatrixChild(base, rows[j]) :: rows[j].jobName == base + " (" + suffixes[j] + ")"
    requires forall j, k | 0 <= j < k < |rows| && IsMatrixChild(base, rows[j]) && IsMatrixChild(base, rows[k]) ::
               suffixes[j] != suffixes[k]
    ensures
      var shape := ForBase(base, rows, before);
      && shape.Some? && shape.value.Matrix?
      && suffixes[i] in shape.value.m.byMatrix && Some(shape.value.m.byMatrix[suffixes[i]]) == rows[i].outputs
      && forall key | key in rows[i].outputs.value :: key in shape.value.m.merged
  {
    var c := Child(rows[i].jobName, rows[i].status, rows[i].outputs.value);
    MatrixChildren(base, rows, suffixes);
    SlicingInvertsNaming(base, suffixes[i]);
    EnvelopesTellTheRows(base, rows);
    assert rows[i] in rows && MatrixPick(base)(rows[i]) == Some(c) && c in Picked(rows, MatrixPick(base));
    MatrixHolds(base, Picked(rows, MatrixPick(base)), before, c);
  }

  lemma MatrixChildren<V>(base: string, rows: seq<Row<V>>, suffixes: seq<string>)
    requires |suffixes| == |rows|
    requires forall j | 0 <= j < |rows| && IsMatrixChild(base, rows[j]) :: rows[j].jobName == base + " (" + suffixes[j] + ")"
    requires forall j, k | 0 <= j < k < |rows| && IsMatrixChild(base, rows[j]) && IsMatrixChild(base, rows[k]) ::
               suffixes[j] != suffixes[k]
    ensures DistinctNames(Picked(rows, MatrixPick(base)))
    ensures forall x | x in Picked(rows, MatrixPick(base)) :: x.name == ChildName(base, SliceSuffix(base, x.name))
    ensures forall r | r in rows && IsMatrixChild(base, r) :: MatrixPick(base)(r).value in Picked(rows, MatrixPick(base))
  {
    var pick := MatrixPick(base);
    forall j | 0 <= j < |rows| && IsMatrixChild(base, rows[j])
      ensures SliceSuffix(base, rows[j].jobName) == suffixes[j]
    {
      SlicingInvertsNaming(base, suffixes[j]);
    }
    PickedDistinct(rows, pick, JobNames(rows));
    PickedFrom(rows, pick);
    forall x | x in Picked(rows, pick) ensures x.name == ChildName(base, SliceSuffix(base, x.name)) {
      var j :| 0 <= j < |rows| && pick(rows[j]) == Some(x);
    }
  }

  function JobNames<V>(rows: seq<Row<V>>): (names: seq<string>)
    ensures |names| == |rows| && forall i | 0 <= i < |names| :: names[i] == rows[i].jobName
  {
    seq(|rows|, i requires 0 <= i < |rows| => rows[i].jobName)
  }

  function Suffixes<V>(base: string, children: seq<Child<V>>): (r: seq<string>)
    ensures |r| == |children| && forall i | 0 <= i < |r| :: r[i] == SliceSuffix(base, children[i].name)
  {
    seq(|children|, i requires 0 <= i < |children| => SliceSuffix(base, children[i].name))
  }

  lemma MatrixHolds<V>(base: string, children: seq<Child<V>>, before: (string, string) -> bool, c: Child<V>)
    requires DistinctNames(children) && c in children
    requires forall x | x in children :: x.name == ChildName(base, SliceSuffix(base, x.name))
    ensures
      var e, suffix := MatrixEnvelopeOf(base, children, before), SliceSuffix(base, c.name);
      && suffix in e.byMatrix && e.byMatrix[suffix] == c.parsed
      && forall key | key in c.parsed :: key in e.merged
  {
    var ordered := SortByName(children, before);
    var k := SortedHolds(children, before, c);
    SameElements(children, ordered);
    forall i | 0 <= i < |ordered| ensures ordered[i].name == ChildName(base, Suffixes(base, ordered)[i]) {
      assert ordered[i] in ordered;
    }
    ByMatrixFindsEachChild(base, ordered, Suffixes(base, ordered));
    forall key | key in c.parsed ensures key in MergeAll(ordered) {
      MergedTakesTheLast(ordered, key);
      assert key in ordered[k].parsed;
    }
  }

  /** The query selects exactly the rows of a base's own name and those whose name
      goes on from it with a space and a parenthesis. */
  lemma QuerySelects<V>(bases: seq<string>, r: Row<V>)
    ensures Selected(bases, r) <==> exists base | base in bases :: r.jobName == base || StartsWith(r.jobName, base + " (")
  {
    forall base ensures Like(EscapeLikePattern(base) + " (%", r.jobName) <==> StartsWith(r.jobName, base + " (") {
      ChildPatternIsPrefix(base, r.jobName);
    }
  }

  /** A job sees exactly the bases it asked for that have a shape, each with its own. */
  lemma {:induction false} BuiltByBase<V>(bases: seq<string>, rows: seq<Row<V>>, before: (string, string) -> bool, base: string)
    ensures base in Build(bases, rows, before) <==> base in bases && ForBase(base, rows, before).Some?
    ensures base in Build(bases, rows, before) ==> Some(Build(bases, rows, before)[base]) == ForBase(base, rows, before)
  {
    if bases != [] {
      var n := |bases| - 1;
      BuiltByBase(bases[..n], rows, before, base);
      BuiltLast(Build(bases[..n], rows, before), bases[n], ForBase(bases[n], rows, before), base);
      InFront(bases, base);
    }
  }

  lemma BuiltLast<V>(built: map<string, Shape<V>>, last: string, shape: Option<Shape<V>>, base: string)
    ensures base in WithShape(built, last, shape) <==> base in built || (base == last && shape.Some?)
    ensures base in WithShape(built, last, shape) && (base != last || shape.None?) ==>
              base in built && WithShape(built, last, shape)[base] == built[base]
    ensures shape.Some? ==> WithShape(built, last, shape)[last] == shape.value
  {
  }

  lemma InFront<T>(xs: seq<T>, x: T)
    requires xs != []
    ensures x in xs <==> x in xs[..|xs| - 1] || x == xs[|xs| - 1]
  {
    assert xs == xs[..|xs| - 1] + [xs[|xs| - 1]];
  }
}
