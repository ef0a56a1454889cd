/** Claims on a machine-wide budget of test workers: a registry directory that
    processes write without locks, count, and reap for each other. */
module VitestWorkers {
  import opened Strings

  // ----- Arithmetic of a share.

  function Max(a: int, b: int): int {
    if a >= b then a else b
  }

  function Min(a: int, b: int): int {
    if a <= b then a else b
  }

  function Budget(cores: int): (b: int)
    ensures b >= 1
  {
    Max(1, cores - 1)
  }

  function Share(total: int, claimants: int): (r: int)
    ensures 1 <= r <= Max(1, total)
  {
    var whole, n := Max(1, total), Max(1, claimants);
    Min(whole, Max(1, whole / n))
  }

  lemma TimesAtMost(a: int, b: int, c: nat)
    requires a <= b
    ensures a * c <= b * c
  {
  }

  lemma TimesQuotient(a: nat, m: nat)
    requires m >= 1
    ensures m * (a / m) <= a < m * (a / m) + m
  {
  }

  lemma QuotientAtLeast(a: nat, m: nat, q: nat)
    requires m >= 1 && q * m <= a
    ensures q <= a / m
  {
    TimesQuotient(a, m);
    if a / m + 1 <= q {
      TimesAtMost(a / m + 1, q, m);
    }
  }

  lemma DivAntitone(a: nat, m: nat, n: nat)
    requires 1 <= m <= n
    ensures a / n <= a / m
  {
    TimesQuotient(a, n);
    TimesAtMost(m, n, a / n);
    QuotientAtLeast(a, m, a / n);
  }

  /** More claimants never make a share wider. */
  lemma ShareAntitone(total: int, m: int, n: int)
    requires m <= n
    ensures Share(total, n) <= Share(total, m)
  {
    DivAntitone(Max(1, total), Max(1, m), Max(1, n));
  }

  lemma ShareOf(total: int, n: nat)
    requires n >= 1
    ensures Share(total, n) == Max(1, Max(1, total) / n)
  {
    TimesQuotient(Max(1, total), n);
    TimesAtMost(1, n, Max(1, total) / n);
  }

  /** Alone, a suite takes every core but one; a machine of one core gives it that. */
  lemma AloneTakesAllButOne(cores: int)
    ensures Share(Budget(cores), 1) == if cores >= 2 then cores - 1 else 1
  {
    TimesQuotient(Budget(cores), 1);
  }

  /** No wider share would do: one worker more each and n claimants were over. */
  lemma ShareIsWidest(total: int, n: nat)
    requires n >= 1 && total >= 1
    ensures n * (Share(total, n) + 1) > total
    ensures n <= total ==> n * Share(total, n) <= total
  {
    ShareOf(total, n);
    TimesQuotient(total, n);
    if n <= total { QuotientAtLeast(total, n, 1); }
  }

  /** n equal shares of the budget take all of it at most, or one worker each. */
  lemma EqualSharesFit(total: int, n: nat)
    ensures n * Share(total, n) <= Max(Max(1, total), n)
  {
    if n > 0 {
      ShareOf(total, n);
      TimesQuotient(Max(1, total), n);
    }
  }

  /** What n claimants hold when each sees exactly the ones before it. */
  function ShareSum(total: int, n: nat): nat {
    if n == 0 then 0 else ShareSum(total, n - 1) + Share(total, n)
  }

  lemma StaggeredExamples()
    ensures ShareSum(7, 4) == 13 && ShareSum(7, 7) == 16
  {
    assert ShareSum(7, 1) == 7 && ShareSum(7, 2) == 10 && ShareSum(7, 3) == 12;
    assert ShareSum(7, 5) == 14 && ShareSum(7, 6) == 15;
  }

  function Log2(n: nat): nat
    requires n >= 1
  {
    if n == 1 then 0 else 1 + Log2(n / 2)
  }

  lemma {:induction false} TailOfShares(total: int, m: nat, n: nat)
    requires m <= n
    ensures ShareSum(total, n) <= ShareSum(total, m) + (n - m) * Share(total, m + 1)
  {
    if n > m {
      TailOfShares(total, m, n - 1);
      ShareAntitone(total, m + 1, n);
      assert (n - m) * Share(total, m + 1) == (n - 1 - m) * Share(total, m + 1) + Share(total, m + 1);
    } else {
      assert (n - m) * Share(total, m + 1) == 0;
    }
  }

  /** The later half of the claimants together take no more than the budget. */
  lemma HalfStep(total: int, n: nat)
    requires 2 <= n <= Max(1, total)
    ensures ShareSum(total, n) <= ShareSum(total, n / 2) + Max(1, total)
  {
    var half := n / 2;
    TailOfShares(total, half, n);
    EqualSharesFit(total, half + 1);
    TimesAtMost(n - half, half + 1, Share(total, half + 1));
  }

  /** Claims overshoot the budget by a logarithm at most. */
  lemma {:induction false} ShareSumBound(total: int, n: nat)
    requires 1 <= n <= Max(1, total)
    ensures ShareSum(total, n) <= Max(1, total) * (1 + Log2(n))
  {
    if n == 1 {
      assert ShareSum(total, 1) == ShareSum(total, 0) + Share(total, 1);
    } else {
      ShareSumBound(total, n / 2);
      HalfStep(total, n);
      TimesPlusOne(Max(1, total), 1 + Log2(n / 2));
    }
  }

  lemma OneEach(total: int)
    ensures Share(total, Max(1, total) + 1) == 1
  {
    var whole := Max(1, total);
    ShareOf(total, whole + 1);
    TimesQuotient(whole, whole + 1);
    if whole / (whole + 1) >= 1 {
      TimesAtMost(1, whole / (whole + 1), whole + 1);
    }
  }

  /** Past the budget each further claimant takes one worker. */
  lemma ShareSumBeyond(total: int, n: nat)
    requires n > Max(1, total)
    ensures ShareSum(total, n) <= ShareSum(total, Max(1, total)) + (n - Max(1, total))
  {
    TailOfShares(total, Max(1, total), n);
    OneEach(total);
  }

  lemma TimesPlusOne(a: nat, k: nat)
    ensures a * (1 + k) == a * k + a
  {
  }

  // ----- Reading the registry.

  /** What a name says: an integer, or nothing. */
  type Reader = string -> Option<int>

  predicate NamesLive(name: string, number: Reader, alive: int -> bool) {
    var pid := number(name);
    pid.Some? && pid.value > 0 && alive(pid.value)
  }

  function LiveOf(entries: seq<string>, number: Reader, alive: int -> bool): seq<int> {
    if entries == [] then []
    else
      var n := |entries| - 1;
      LiveOf(entries[..n], number, alive) + if NamesLive(entries[n], number, alive) then [number(entries[n]).value] else []
  }

  /** The entries that stay: the live ones, and dead ones that cannot be deleted. */
  function KeptOf(entries: seq<string>, number: Reader, alive: int -> bool, deletable: string -> bool): seq<string> {
    if entries == [] then []
    else
      var n := |entries| - 1;
      KeptOf(entries[..n], number, alive, deletable)
      + if NamesLive(entries[n], number, alive) || !deletable(entries[n]) then [entries[n]] else []
  }

  datatype Env = Env(maxWorkers: string, poolId: string)

  lemma OneEntry(names: seq<string>, i: nat, number: Reader, alive: int -> bool, deletable: string -> bool)
    requires i < |names|
    ensures names[i..] == [names[i]] + names[i + 1..]
    ensures LiveOf(names[..i + 1], number, alive) ==
            LiveOf(names[..i], number, alive) + if NamesLive(names[i], number, alive) then [number(names[i]).value] else []
    ensures KeptOf(names[..i + 1], number, alive, deletable) ==
            KeptOf(names[..i], number, alive, deletable)
            + if NamesLive(names[i], number, alive) || !deletable(names[i]) then [names[i]] else []
  {
    assert names[..i + 1][..i] == names[..i];
  }

  /** An entry is counted exactly when it reads as a positive number whose process is
      alive, and stays exactly when it is counted or cannot be deleted. */
  lemma {:induction false} CountedAndKept(
      entries: seq<string>, number: Reader, alive: int -> bool, deletable: string -> bool, pid: int, name: string)
    ensures pid in LiveOf(entries, number, alive) <==>
              pid > 0 && alive(pid) && exists x | x in entries :: number(x) == Some(pid)
    ensures name in KeptOf(entries, number, alive, deletable) <==>
              && name in entries
              && (!deletable(name) || (number(name).Some? && number(name).value > 0 && alive(number(name).value)))
  {
    if entries != [] {
      var n := |entries| - 1;
      CountedAndKept(entries[..n], number, alive, deletable, pid, name);
      assert entries == entries[..n] + [entries[n]];
    }
  }

  class Registry {
    var entries: seq<string>

    constructor ()
      ensures entries == []
    {
      entries := [];
    }

    method Remove(name: string)
      modifies this
      ensures entries == Without(old(entries), name)
    {
      var rest: seq<string> := [];
      for i := 0 to |entries|
        invariant rest == Without(entries[..i], name) && entries == old(entries)
      {
        assert entries[..i + 1][..i] == entries[..i];
        if entries[i] != name { rest := rest + [entries[i]]; }
      }
      assert entries[..|entries|] == entries;
      entries := rest;
    }

    /** One entry: counted if it names a live process, reaped otherwise. */
    method Probe(name: string, number: Reader, alive: int -> bool, deletable: string -> bool,
                 ghost before: seq<string>, ghost after: seq<string>)
      returns (counted: bool)
      requires entries == before + [name] + after && Distinct(entries)
      modifies this
      ensures counted == NamesLive(name, number, alive)
      ensures entries == before + (if counted || !deletable(name) then [name] else []) + after && Distinct(entries)
    {
      counted := NamesLive(name, number, alive);
      if !counted && deletable(name) {
        DistinctAround(before, name, after);
        RemoveMiddle(before, name, after);
        Remove(name);
        assert before + [] + after == before + after;
      }
    }

    /** Counts each entry that names a live process, and reaps the others; a
        directory that cannot be read counts as empty. */
    method LiveClaimants(readable: bool, number: Reader, alive: int -> bool, deletable: string -> bool)
      returns (live: seq<int>)
      requires Distinct(entries)
      modifies this
      ensures !readable ==> live == [] && entries == old(entries)
      ensures readable ==> live == LiveOf(old(entries), number, alive)
      ensures readable ==> entries == KeptOf(old(entries), number, alive, deletable) && Distinct(entries)
    {
      if !readable { return []; }
      live := ProbeAll(number, alive, deletable);
    }

    method ProbeAll(number: Reader, alive: int -> bool, deletable: string -> bool) returns (live: seq<int>)
      requires Distinct(entries)
      modifies this
      ensures live == LiveOf(old(entries), number, alive)
      ensures entries == KeptOf(old(entries), number, alive, deletable) && Distinct(entries)
    {
      var names := entries;
      live := [];
      for i := 0 to |names|
        invariant names == old(entries)
        invariant live == LiveOf(names[..i], number, alive)
        invariant entries == KeptOf(names[..i], number, alive, deletable) + names[i..] && Distinct(entries)
      {
        ghost var kept := KeptOf(names[..i], number, alive, deletable);
        OneEntry(names, i, number, alive, deletable);
        Associative(kept, [names[i]], names[i + 1..]);
        var counted := Probe(names[i], number, alive, deletable, kept, names[i + 1..]);
        if counted { live := live + [number(names[i]).value]; }
      }
      assert names[..|names|] == names;
    }

    /** Registers before it counts, so the caller is among the counted, unless its
        entry cannot be written or the directory read. An explicit setting, or a
        pool worker's inherited one, claims nothing. */
    method Claim(env: Env, cores: int, self: string, pid: int, writable: bool, readable: bool,
                 number: Reader, alive: int -> bool, deletable: string -> bool)
      returns (cap: Option<int>)
      requires Distinct(entries)
      requires number(self) == Some(pid) && pid > 0 && alive(pid)
      modifies this
      ensures cap.None? <==> env.maxWorkers != "" || env.poolId != ""
      ensures cap.None? ==> entries == old(entries)
      ensures cap.Some? ==>
        var known := if self in old(entries) || !writable then old(entries) else old(entries) + [self];
        if !readable then entries == known && cap.value == Budget(cores)
        else
          && entries == KeptOf(known, number, alive, deletable)
          && cap.value == Share(Budget(cores), |LiveOf(known, number, alive)|)
          && (self in known ==> self in entries && pid in LiveOf(known, number, alive))
    {
      if env.maxWorkers != "" { return None; }
      if env.poolId != "" { return None; }
      if self !in entries && writable { entries := entries + [self]; }
      ghost var known := entries;
      var live := LiveClaimants(readable, number, alive, deletable);
      if self in known {
        LiveOnesStay(known, self, number, alive, deletable);
      }
      NoneSeen(Budget(cores));
      return Some(Share(Budget(cores), |live|));
    }
  }

  /** Whoever sees no claimant takes the whole budget. */
  lemma NoneSeen(total: int)
    requires total >= 1
    ensures Share(total, 0) == total
  {
    TimesQuotient(total, 1);
  }

  ghost predicate Distinct(names: seq<string>) {
    forall i, j | 0 <= i < j < |names| :: names[i] != names[j]
  }

  function Without(names: seq<string>, name: string): seq<string> {
    if names == [] then []
    else
      var n := |names| - 1;
      Without(names[..n], name) + if names[n] != name then [names[n]] else []
  }

  lemma {:induction false} WithoutAbsent(names: seq<string>, name: string)
    requires name !in names
    ensures Without(names, name) == names
  {
    if names != [] {
      var n := |names| - 1;
      WithoutAbsent(names[..n], name);
      assert names[n] in names && names == names[..n] + [names[n]];
    }
  }

  lemma {:induction false} WithoutConcat(a: seq<string>, b: seq<string>, name: string)
    ensures Without(a + b, name) == Without(a, name) + Without(b, name)
  {
    if b == [] {
      assert a + b == a;
    } else {
      var n := |b| - 1;
      assert (a + b)[..|a + b| - 1] == a + b[..n];
      WithoutConcat(a, b[..n], name);
    }
  }

  lemma DistinctAround(before: seq<string>, name: string, after: seq<string>)
    requires Distinct(before + [name] + after)
    ensures name !in before && name !in after && Distinct(before + after)
  {
    var all := before + [name] + after;
    assert all[|before|] == name;
    assert forall i | 0 <= i < |before| :: before[i] == all[i];
    assert forall i | 0 <= i < |after| :: after[i] == all[|before| + 1 + i];
  }

  lemma RemoveMiddle(before: seq<string>, name: string, after: seq<string>)
    requires name !in before && name !in after
    ensures Without(before + [name] + after, name) == before + after
  {
    var front := before + [name];
    assert front[..|before|] == before && front[|before|] == name;
    assert Without(front, name) == Without(before, name);
    WithoutConcat(front, after, name);
    WithoutAbsent(before, name);
    WithoutAbsent(after, name);
  }

  lemma {:induction false} LiveOnesStay(entries: seq<string>, self: string, number: Reader, alive: int -> bool, deletable: string -> bool)
    requires self in entries && NamesLive(self, number, alive)
    ensures self in KeptOf(entries, number, alive, deletable)
    ensures number(self).value in LiveOf(entries, number, alive)
  {
    var n := |entries| - 1;
    if entries[n] != self {
      assert entries == entries[..n] + [entries[n]];
      LiveOnesStay(entries[..n], self, number, alive, deletable);
    }
  }

  // ----- The protocol: any number of processes, one file-system step at a time.

  /** `seen` is what the directory listing returned, `remaining` what of it is yet
      to be probed, `count` how many probes found a live process. */
  datatype Phase =
    | Registered
    | Counting(seen: set<nat>, remaining: set<nat>, count: nat)
    | Capped(seen: set<nat>, count: nat, cap: nat)

  /** `order` is every process that has registered, in the order they did. */
  datatype Box = Box(order: seq<nat>, alive: set<nat>, dir: set<nat>, phase: map<nat, Phase>)

  datatype Event =
    | Register(pid: nat)
    | List(pid: nat)
    | Probe(pid: nat, other: nat, deletable: bool)
    | TakeCap(pid: nat)
    | Exit(pid: nat)
    | Kill(pid: nat)

  function Initial(): Box {
    Box([], {}, {}, map[])
  }

  predicate At(b: Box, pid: nat) {
    pid in b.alive && pid in b.phase
  }

  /** One step; an event that cannot happen changes nothing. Process ids are not
      reused. */
  function Step(total: int, b: Box, e: Event): Box {
    match e
    case Register(p) =>
      if p in b.order then b
      else Box(b.order + [p], b.alive + {p}, b.dir + {p}, b.phase[p := Registered])
    case List(p) =>
      if At(b, p) && b.phase[p].Registered? then b.(phase := b.phase[p := Counting(b.dir, b.dir, 0)]) else b
    case Probe(p, q, deletable) =>
      if At(b, p) && b.phase[p].Counting? && q in b.phase[p].remaining then
        var c := b.phase[p];
        if q in b.alive then b.(phase := b.phase[p := Counting(c.seen, c.remaining - {q}, c.count + 1)])
        else b.(phase := b.phase[p := Counting(c.seen, c.remaining - {q}, c.count)],
                dir := if deletable then b.dir - {q} else b.dir)
      else b
    case TakeCap(p) =>
      if At(b, p) && b.phase[p].Counting? && b.phase[p].remaining == {} then
        var c := b.phase[p];
        b.(phase := b.phase[p := Capped(c.seen, c.count, Share(total, c.count))])
      else b
    case Exit(p) =>
      b.(alive := b.alive - {p}, dir := if At(b, p) && b.phase[p].Capped? then b.dir - {p} else b.dir)
    case Kill(p) => b.(alive := b.alive - {p})
  }

  function Run(total: int, events: seq<Event>): Box {
    if events == [] then Initial() else Step(total, Run(total, events[..|events| - 1]), events[|events| - 1])
  }

  ghost predicate Ordered(b: Box) {
    && (forall i, j | 0 <= i < j < |b.order| :: b.order[i] != b.order[j])
    && (forall p | p in b.order :: p in b.phase)
    && (forall p | p in b.phase :: p in b.order)
    && (forall p | p in b.alive :: p in b.order)
  }

  /** No live claimant's entry is ever lost. */
  ghost predicate LiveAreListed(b: Box) {
    forall p | p in b.alive :: p in b.dir
  }

  predicate HasListed(b: Box, p: nat) {
    p in b.phase && !b.phase[p].Registered?
  }

  /** A claimant that has listed the directory saw every claimant that registered
      no later and is still alive. */
  ghost predicate SawEarlier(b: Box) {
    forall i, j | 0 <= i <= j < |b.order| && HasListed(b, b.order[j]) && b.order[i] in b.alive ::
      b.order[i] in b.phase[b.order[j]].seen
  }

  /** Every live claimant it has probed is in its count. */
  ghost predicate CountsLive(total: int, b: Box, f: Phase) {
    match f
    case Registered => true
    case Counting(seen, remaining, count) => remaining <= seen && |(seen - remaining) * b.alive| <= count
    case Capped(seen, count, cap) => |seen * b.alive| <= count && cap == Share(total, count)
  }

  ghost predicate AllCountLive(total: int, b: Box) {
    forall p | p in b.phase :: CountsLive(total, b, b.phase[p])
  }

  lemma StepKeepsOrder(total: int, b: Box, e: Event)
    requires Ordered(b) && LiveAreListed(b)
    ensures Ordered(Step(total, b, e)) && LiveAreListed(Step(total, b, e))
  {
  }

  lemma StepKeepsSaw(total: int, b: Box, e: Event)
    requires Ordered(b) && LiveAreListed(b) && SawEarlier(b)
    ensures SawEarlier(Step(total, b, e))
  {
  }

  lemma SmallerSet<T>(a: set<T>, b: set<T>)
    requires a <= b
    ensures |a| <= |b|
  {
    assert b == a + (b - a);
  }

  lemma FewerAlive(total: int, b: Box, c: Box, f: Phase)
    requires CountsLive(total, b, f) && c.alive <= b.alive
    ensures CountsLive(total, c, f)
  {
    match f
    case Registered =>
    case Counting(seen, remaining, count) => SmallerSet((seen - remaining) * c.alive, (seen - remaining) * b.alive);
    case Capped(seen, count, cap) => SmallerSet(seen * c.alive, seen * b.alive);
  }

  lemma ProbeCounts(total: int, b: Box, f: Phase, q: nat)
    requires f.Counting? && CountsLive(total, b, f) && q in f.remaining
    ensures CountsLive(total, b, Counting(f.seen, f.remaining - {q}, if q in b.alive then f.count + 1 else f.count))
  {
    var before, after := (f.seen - f.remaining) * b.alive, (f.seen - (f.remaining - {q})) * b.alive;
    if q in b.alive {
      assert after == before + {q};
    } else {
      assert after == before;
    }
  }

  /** Names a listing returned belong to processes that have registered. */
  ghost predicate SeenAreKnown(b: Box) {
    && (forall q | q in b.dir :: q in b.order)
    && (forall p | HasListed(b, p) :: forall q | q in b.phase[p].seen :: q in b.order)
  }

  lemma StepKeepsKnown(total: int, b: Box, e: Event)
    requires Ordered(b) && SeenAreKnown(b)
    ensures SeenAreKnown(Step(total, b, e))
  {
  }

  lemma NewcomerUnseen(total: int, b: Box, p: nat)
    requires Ordered(b) && SeenAreKnown(b) && AllCountLive(total, b) && p !in b.order
    ensures AllCountLive(total, Step(total, b, Register(p)))
  {
    var c := Step(total, b, Register(p));
    forall r | r in c.phase ensures CountsLive(total, c, c.phase[r]) {
      if r != p {
        var f := b.phase[r];
        assert CountsLive(total, b, f);
        if f.Counting? {
          assert (f.seen - f.remaining) * c.alive == (f.seen - f.remaining) * b.alive;
        } else if f.Capped? {
          assert f.seen * c.alive == f.seen * b.alive;
        }
      }
    }
  }

  lemma DeathKeepsCounts(total: int, b: Box, c: Box)
    requires AllCountLive(total, b) && c.phase == b.phase && c.alive <= b.alive
    ensures AllCountLive(total, c)
  {
    forall r | r in c.phase ensures CountsLive(total, c, c.phase[r]) {
      FewerAlive(total, b, c, b.phase[r]);
    }
  }

  /** A step of one claimant keeps everyone's count if it keeps its own. */
  lemma OneMoves(total: int, b: Box, c: Box, p: nat, f: Phase)
    requires AllCountLive(total, b) && c.alive == b.alive && c.phase == b.phase[p := f] && CountsLive(total, b, f)
    ensures AllCountLive(total, c)
  {
    forall r | r in c.phase ensures CountsLive(total, c, c.phase[r]) {
      if r != p {
        FewerAlive(total, b, c, b.phase[r]);
      }
    }
    FewerAlive(total, b, c, f);
  }

  lemma StepKeepsCounts(total: int, b: Box, e: Event)
    requires Ordered(b) && SeenAreKnown(b) && AllCountLive(total, b)
    ensures AllCountLive(total, Step(total, b, e))
  {
    var c := Step(total, b, e);
    if c != b {
      match e
      case Register(p) => NewcomerUnseen(total, b, p);
      case List(p) =>
        assert (b.dir - b.dir) * b.alive == {};
        OneMoves(total, b, c, p, Counting(b.dir, b.dir, 0));
      case Probe(p, q, deletable) =>
        ProbeCounts(total, b, b.phase[p], q);
        OneMoves(total, b, c, p, c.phase[p]);
      case TakeCap(p) =>
        var f := b.phase[p];
        assert (f.seen - f.remaining) * b.alive == f.seen * b.alive;
        assert CountsLive(total, b, f);
        OneMoves(total, b, c, p, c.phase[p]);
      case Exit(p) => DeathKeepsCounts(total, b, c);
      case Kill(p) => DeathKeepsCounts(total, b, c);
    }
  }

  ghost predicate Inv(total: int, b: Box) {
    Ordered(b) && LiveAreListed(b) && SawEarlier(b) && SeenAreKnown(b) && AllCountLive(total, b)
  }

  lemma {:induction false} RunInv(total: int, events: seq<Event>)
    ensures Inv(total, Run(total, events))
  {
    if events != [] {
      var before, e := events[..|events| - 1], events[|events| - 1];
      RunInv(total, before);
      StepKeepsOrder(total, Run(total, before), e);
      StepKeepsSaw(total, Run(total, before), e);
      StepKeepsKnown(total, Run(total, before), e);
      StepKeepsCounts(total, Run(total, before), e);
    }
  }

  // ----- No count is idle: it never exceeds those alive when the directory was listed.

  /** `known` were alive when the directory was listed; only they are counted. */
  ghost predicate PhaseKnown(alive: set<nat>, f: Phase, known: set<nat>) {
    match f
    case Registered => false
    case Counting(seen, remaining, count) =>
      remaining <= seen && seen * alive <= known && count <= |(seen - remaining) * known|
    case Capped(seen, count, cap) => count <= |seen * known|
  }

  ghost predicate CountsKnown(b: Box, p: nat, known: set<nat>) {
    p in b.phase && PhaseKnown(b.alive, b.phase[p], known)
  }

  lemma ProbeKnown(alive: set<nat>, f: Phase, q: nat, known: set<nat>)
    requires f.Counting? && PhaseKnown(alive, f, known) && q in f.remaining
    ensures PhaseKnown(alive, Counting(f.seen, f.remaining - {q}, if q in alive then f.count + 1 else f.count), known)
  {
    var before, after := (f.seen - f.remaining) * known, (f.seen - (f.remaining - {q})) * known;
    if q in alive {
      assert q in f.seen * alive;
      assert after == before + {q};
    } else {
      SmallerSet(before, after);
    }
  }

  lemma CapKnown(alive: set<nat>, f: Phase, cap: nat, known: set<nat>)
    requires f.Counting? && PhaseKnown(alive, f, known) && f.remaining == {}
    ensures PhaseKnown(alive, Capped(f.seen, f.count, cap), known)
  {
    assert (f.seen - f.remaining) * known == f.seen * known;
  }

  /** Whoever is seen and alive after a step was so before it. */
  lemma NoneComesAlive(total: int, b: Box, p: nat, e: Event)
    requires Ordered(b) && SeenAreKnown(b) && HasListed(b, p)
    ensures b.phase[p].seen * Step(total, b, e).alive <= b.phase[p].seen * b.alive
  {
  }

  lemma StepCountsKnown(total: int, b: Box, p: nat, known: set<nat>, e: Event)
    requires Ordered(b) && SeenAreKnown(b) && CountsKnown(b, p, known)
    ensures CountsKnown(Step(total, b, e), p, known)
  {
    var c, f := Step(total, b, e), b.phase[p];
    NoneComesAlive(total, b, p, e);
    if e.Probe? && e.pid == p && c != b {
      ProbeKnown(b.alive, f, e.other, known);
    } else if e.TakeCap? && e.pid == p && c != b {
      CapKnown(b.alive, f, Share(total, f.count), known);
    } else {
      assert c.phase[p] == f;
    }
  }

  lemma ListCountsKnown(total: int, events: seq<Event>, p: nat)
    requires At(Run(total, events), p) && Run(total, events).phase[p].Registered?
    ensures var b := Run(total, events); CountsKnown(Run(total, events + [List(p)]), p, b.dir * b.alive)
  {
    var b, all := Run(total, events), events + [List(p)];
    assert all[..|events|] == events && all[|events|] == List(p);
    assert (b.dir - b.dir) * (b.dir * b.alive) == {};
  }

  lemma NextCountsKnown(total: int, events: seq<Event>, p: nat, known: set<nat>, e: Event)
    requires CountsKnown(Run(total, events), p, known)
    ensures CountsKnown(Step(total, Run(total, events), e), p, known)
  {
    RunInv(total, events);
    StepCountsKnown(total, Run(total, events), p, known, e);
  }

  lemma OneMoreEvent(total: int, events: seq<Event>, more: seq<Event>)
    requires more != []
    ensures Run(total, events + more) == Step(total, Run(total, events + more[..|more| - 1]), more[|more| - 1])
  {
    assert events + more == (events + more[..|more| - 1]) + [more[|more| - 1]];
    RunSnoc(total, events + more[..|more| - 1], more[|more| - 1]);
  }

  lemma RunSnoc(total: int, events: seq<Event>, e: Event)
    ensures Run(total, events + [e]) == Step(total, Run(total, events), e)
  {
    assert (events + [e])[..|events|] == events;
  }

  lemma {:induction false} RunCountsKnown(total: int, events: seq<Event>, p: nat, known: set<nat>, more: seq<Event>)
    requires CountsKnown(Run(total, events), p, known)
    ensures CountsKnown(Run(total, events + more), p, known)
  {
    if more == [] {
      assert events + more == events;
    } else {
      var n := |more| - 1;
      RunCountsKnown(total, events, p, known, more[..n]);
      NextCountsKnown(total, events + more[..n], p, known, more[n]);
      OneMoreEvent(total, events, more);
    }
  }

  /** So a cap is never narrower than the share of those that were listed and alive
      when its holder looked. */
  lemma CapIsNotIdle(total: int, events: seq<Event>, p: nat, more: seq<Event>)
    requires At(Run(total, events), p) && Run(total, events).phase[p].Registered?
    requires p in Run(total, events + [List(p)] + more).phase
    requires Run(total, events + [List(p)] + more).phase[p].Capped?
    ensures
      var b := Run(total, events);
      Run(total, events + [List(p)] + more).phase[p].cap >= Share(total, |b.dir * b.alive|)
  {
    var b, c := Run(total, events), Run(total, events + [List(p)] + more);
    ListCountsKnown(total, events, p);
    RunCountsKnown(total, events + [List(p)], p, b.dir * b.alive, more);
    RunInv(total, events + [List(p)] + more);
    var f, known := c.phase[p], b.dir * b.alive;
    assert CountsLive(total, c, f);
    SmallerSet(f.seen * known, known);
    ShareAntitone(total, f.count, |known|);
  }

  lemma {:induction false} GoneStaysGone(total: int, events: seq<Event>, p: nat, more: seq<Event>)
    requires p in Run(total, events).order && p !in Run(total, events).dir
    ensures p in Run(total, events + more).order && p !in Run(total, events + more).dir
  {
    if more == [] {
      assert events + more == events;
    } else {
      GoneStaysGone(total, events, p, more[..|more| - 1]);
      OneMoreEvent(total, events, more);
    }
  }

  /** Who exits with a cap takes its entry along: no one who looks later counts it. */
  lemma ExitLeavesNothing(total: int, events: seq<Event>, p: nat, more: seq<Event>)
    requires At(Run(total, events), p) && Run(total, events).phase[p].Capped?
    ensures p !in Run(total, events + [Exit(p)] + more).dir
  {
    var all := events + [Exit(p)];
    assert all[..|events|] == events && all[|events|] == Exit(p);
    RunInv(total, events);
    GoneStaysGone(total, all, p, more);
  }

  // ----- What the live claimants hold.

  predicate Holds(b: Box, p: nat) {
    At(b, p) && b.phase[p].Capped?
  }

  function CapOf(b: Box, p: nat): nat {
    if Holds(b, p) then b.phase[p].cap else 0
  }

  /** The live claimants that have taken a cap, in the order they registered. */
  function Holders(b: Box, k: nat): (r: seq<nat>)
    requires k <= |b.order|
    ensures forall p | p in r :: Holds(b, p) && p in b.order[..k]
  {
    if k == 0 then []
    else if Holds(b, b.order[k - 1]) then Holders(b, k - 1) + [b.order[k - 1]]
    else Holders(b, k - 1)
  }

  function Elements(s: seq<nat>): (r: set<nat>)
    ensures forall x :: x in r <==> x in s
  {
    set x | x in s
  }

  lemma DistinctSnoc(r: seq<nat>, p: nat)
    requires p !in r
    ensures |Elements(r + [p])| == |Elements(r)| + 1
  {
    assert Elements(r + [p]) == Elements(r) + {p};
  }

  lemma {:induction false} HoldersDistinct(b: Box, k: nat)
    requires Ordered(b) && k <= |b.order|
    ensures |Elements(Holders(b, k))| == |Holders(b, k)|
  {
    if k == 0 {
      assert Elements([]) == {};
    } else {
      HoldersDistinct(b, k - 1);
      var r, p := Holders(b, k - 1), b.order[k - 1];
      if Holds(b, p) {
        assert p !in b.order[..k - 1];
        DistinctSnoc(r, p);
        assert Holders(b, k) == r + [p];
      }
    }
  }

  predicate CountedEnough(total: int, b: Box, k: nat) {
    k < |b.order| && Holds(b, b.order[k]) ==>
      var f := b.phase[b.order[k]];
      |Holders(b, k)| < f.count && f.cap == Share(total, f.count)
  }

  /** Each holder counted at least the holders that registered no later. */
  lemma HolderCounted(total: int, b: Box, k: nat)
    requires Inv(total, b) && k < |b.order| && Holds(b, b.order[k])
    ensures CountedEnough(total, b, k)
  {
    var p, r := b.order[k], Holders(b, k + 1);
    HoldersDistinct(b, k + 1);
    assert CountsLive(total, b, b.phase[p]);
    assert Elements(r) <= b.phase[p].seen * b.alive;
    SmallerSet(Elements(r), b.phase[p].seen * b.alive);
  }

  function ShareLimit(total: int): nat -> int {
    (n: nat) => Share(total, n)
  }

  /** The i-th of the holders is within the limit for i claimants. */
  predicate Within(b: Box, holders: seq<nat>, limit: nat -> int) {
    forall i | 0 <= i < |holders| :: CapOf(b, holders[i]) <= limit(i + 1)
  }

  predicate WithinAt(b: Box, j: nat, limit: nat -> int)
    requires j < |b.order|
  {
    Holds(b, b.order[j]) ==> CapOf(b, b.order[j]) <= limit(|Holders(b, j)| + 1)
  }

  lemma {:induction false} HoldersWithin(b: Box, k: nat, limit: nat -> int)
    requires k <= |b.order| && forall j | 0 <= j < |b.order| :: WithinAt(b, j, limit)
    ensures Within(b, Holders(b, k), limit)
  {
    if k > 0 {
      HoldersWithin(b, k - 1, limit);
      assert WithinAt(b, k - 1, limit);
    }
  }

  lemma RunCounted(total: int, events: seq<Event>, k: nat)
    ensures CountedEnough(total, Run(total, events), k)
  {
    RunInv(total, events);
    var b := Run(total, events);
    if k < |b.order| && Holds(b, b.order[k]) { HolderCounted(total, b, k); }
  }

  lemma ReachableWithin(total: int, events: seq<Event>)
    ensures var b := Run(total, events); Within(b, Holders(b, |b.order|), ShareLimit(total))
  {
    var b := Run(total, events);
    forall j | 0 <= j < |b.order| ensures WithinAt(b, j, ShareLimit(total)) {
      RunCounted(total, events, j);
      if Holds(b, b.order[j]) {
        ShareAntitone(total, |Holders(b, j)| + 1, b.phase[b.order[j]].count);
      }
    }
    HoldersWithin(b, |b.order|, ShareLimit(total));
  }

  /** In every reachable state, the i-th registered of the live claimants that have
      a cap holds no more than the share of i claimants. */
  lemma IthHolderHoldsItsShare(total: int, events: seq<Event>, i: nat)
    requires i < |Holders(Run(total, events), |Run(total, events).order|)|
    ensures
      var b := Run(total, events);
      CapOf(b, Holders(b, |b.order|)[i]) <= Share(total, i + 1)
  {
    ReachableWithin(total, events);
  }

  function CapSum(b: Box, holders: seq<nat>): nat {
    if holders == [] then 0 else CapSum(b, holders[..|holders| - 1]) + CapOf(b, holders[|holders| - 1])
  }

  lemma {:induction false} CapSumWithin(total: int, b: Box, holders: seq<nat>)
    requires Within(b, holders, ShareLimit(total))
    ensures CapSum(b, holders) <= ShareSum(total, |holders|)
  {
    if holders != [] {
      CapSumWithin(total, b, holders[..|holders| - 1]);
    }
  }

  function TotalWorkers(b: Box): nat {
    CapSum(b, Holders(b, |b.order|))
  }

  /** The most n staggered claimants hold: the budget times one plus the binary
      logarithm of n, and past the budget one worker each. */
  function StaggeredBound(total: int, n: nat): int {
    var whole := Max(1, total);
    if n == 0 then 0
    else if n <= whole then whole * (1 + Log2(n))
    else whole * (1 + Log2(whole)) + (n - whole)
  }

  lemma StaggeredWithin(total: int, n: nat)
    ensures ShareSum(total, n) <= StaggeredBound(total, n)
  {
    if 1 <= n <= Max(1, total) {
      ShareSumBound(total, n);
    } else if n > 0 {
      ShareSumBound(total, Max(1, total));
      ShareSumBeyond(total, n);
    }
  }

  /** However many hold caps at any moment, the caps stay within that bound. */
  lemma OvershootIsLogarithmic(total: int, events: seq<Event>)
    ensures var b := Run(total, events); TotalWorkers(b) <= StaggeredBound(total, |Holders(b, |b.order|)|)
  {
    var b := Run(total, events);
    var holders := Holders(b, |b.order|);
    ReachableWithin(total, events);
    CapSumWithin(total, b, holders);
    StaggeredWithin(total, |holders|);
  }

  // ----- When all register before any counts.

  ghost predicate RegisterFirst(events: seq<Event>) {
    forall i, j | 0 <= i < j < |events| && events[j].Register? :: !events[i].List?
  }

  ghost predicate SawAll(b: Box) {
    forall p, q | HasListed(b, p) && q in b.alive :: q in b.phase[p].seen
  }

  predicate NoneListed(b: Box) {
    forall p | p in b.phase :: b.phase[p].Registered?
  }

  lemma {:induction false} NothingListedYet(total: int, events: seq<Event>)
    requires forall e | e in events :: !e.List?
    ensures NoneListed(Run(total, events))
  {
    if events != [] {
      NothingListedYet(total, events[..|events| - 1]);
    }
  }

  lemma StepSeesAll(total: int, b: Box, e: Event)
    requires LiveAreListed(b) && SawAll(b) && (e.Register? ==> NoneListed(b))
    ensures SawAll(Step(total, b, e))
  {
  }

  lemma {:induction false} AllAreSeen(total: int, events: seq<Event>)
    requires RegisterFirst(events)
    ensures SawAll(Run(total, events))
  {
    if events != [] {
      var n := |events| - 1;
      AllAreSeen(total, events[..n]);
      RunInv(total, events[..n]);
      if events[n].Register? {
        NothingListedYet(total, events[..n]);
      }
      StepSeesAll(total, Run(total, events[..n]), events[n]);
    }
  }

  lemma {:induction false} CapSumUnder(b: Box, holders: seq<nat>, most: nat)
    requires forall p | p in holders :: CapOf(b, p) <= most
    ensures CapSum(b, holders) <= |holders| * most
  {
    if holders != [] {
      var n := |holders| - 1;
      CapSumUnder(b, holders[..n], most);
      TimesPlusOne(most, n);
    }
  }

  /** A simultaneous start keeps to the budget, or to one worker each. */
  lemma SimultaneousStartsFit(total: int, events: seq<Event>)
    requires RegisterFirst(events)
    ensures
      var b := Run(total, events);
      TotalWorkers(b) <= Max(Max(1, total), |Holders(b, |b.order|)|)
  {
    var b := Run(total, events);
    var holders := Holders(b, |b.order|);
    RunInv(total, events);
    AllAreSeen(total, events);
    HoldersDistinct(b, |b.order|);
    forall p | p in holders ensures CapOf(b, p) <= Share(total, |holders|) {
      assert CountsLive(total, b, b.phase[p]);
      SmallerSet(Elements(holders), b.phase[p].seen * b.alive);
      ShareAntitone(total, |holders|, b.phase[p].count);
    }
    CapSumUnder(b, holders, Share(total, |holders|));
    EqualSharesFit(total, |holders|);
  }
}
