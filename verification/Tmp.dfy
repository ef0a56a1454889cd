/** Temporary directories: handles that remove their root once, and scopes that
    remove what their handles have left. */
module Tmp {
  import opened Strings

  /** What a run has done. Roots are numbered in the order they were made. `live`
      is the scope's list, `attempted` every root passed to `rm`, in order. */
  datatype Scope = Scope(made: nat, persisted: set<nat>, live: seq<nat>, attempted: seq<nat>)

  datatype Event = Make(persist: bool) | Cleanup(root: nat) | DisposeAll

  function Initial(): Scope {
    Scope(0, {}, [], [])
  }

  function Remove(roots: seq<nat>, root: nat): seq<nat> {
    if roots == [] then []
    else
      var n := |roots| - 1;
      if roots[n] == root then Remove(roots[..n], root) else Remove(roots[..n], root) + [roots[n]]
  }

  function Reversed(roots: seq<nat>): (r: seq<nat>)
    ensures |r| == |roots| && forall i | 0 <= i < |roots| :: r[i] == roots[|roots| - 1 - i]
  {
    seq(|roots|, i requires 0 <= i < |roots| => roots[|roots| - 1 - i])
  }

  /** A handle's cleanup: it leaves the scope's list, and removes its root unless
      it has before. */
  function CleanOne(s: Scope, root: nat): Scope {
    var left := s.(live := Remove(s.live, root));
    if root in s.attempted then left else left.(attempted := s.attempted + [root])
  }

  function CleanAll(s: Scope, roots: seq<nat>): Scope {
    if roots == [] then s else CleanOne(CleanAll(s, roots[..|roots| - 1]), roots[|roots| - 1])
  }

  function Step(s: Scope, e: Event): Scope {
    match e
    case Make(persist) =>
      s.(made := s.made + 1,
         persisted := if persist then s.persisted + {s.made} else s.persisted,
         live := if persist then s.live else s.live + [s.made])
    case Cleanup(root) => if root < s.made then CleanOne(s, root) else s
    case DisposeAll => CleanAll(s, Reversed(s.live)).(live := [])
  }

  function Run(events: seq<Event>): Scope {
    if events == [] then Initial() else Step(Run(events[..|events| - 1]), events[|events| - 1])
  }

  // ----- What every step keeps.

  ghost predicate Distinct(roots: seq<nat>) {
    forall i, j | 0 <= i < j < |roots| :: roots[i] != roots[j]
  }

  ghost predicate Ascending(roots: seq<nat>) {
    forall i, j | 0 <= i < j < |roots| :: roots[i] < roots[j]
  }

  /** The list holds exactly the roots the scope answers for and that no one has
      tried to remove, oldest first; no root is tried twice. */
  ghost predicate Inv(s: Scope) {
    && Distinct(s.attempted)
    && Ascending(s.live)
    && (forall r | r in s.attempted :: r < s.made)
    && (forall r | r in s.persisted :: r < s.made)
    && (forall r: nat :: Listed(s, r) <==> r < s.made && r !in s.persisted && r !in s.attempted)
  }

  predicate Listed(s: Scope, r: nat) {
    r in s.live
  }

  lemma {:induction false} RemoveElements(roots: seq<nat>, root: nat)
    ensures forall r :: r in Remove(roots, root) <==> r in roots && r != root
  {
    if roots != [] {
      var n := |roots| - 1;
      RemoveElements(roots[..n], root);
      assert roots == roots[..n] + [roots[n]];
    }
  }

  lemma {:induction false} RemoveAscending(roots: seq<nat>, root: nat)
    requires Ascending(roots)
    ensures Ascending(Remove(roots, root))
  {
    if roots != [] {
      var n := |roots| - 1;
      RemoveAscending(roots[..n], root);
      RemoveElements(roots[..n], root);
      assert forall r | r in roots[..n] :: r < roots[n];
      var rest := Remove(roots[..n], root);
      assert forall i | 0 <= i < |rest| :: rest[i] in rest;
    }
  }

  lemma CleanKeeps(s: Scope, root: nat)
    requires Inv(s) && root < s.made
    ensures Inv(CleanOne(s, root))
  {
    var t := CleanOne(s, root);
    RemoveElements(s.live, root);
    RemoveAscending(s.live, root);
    assert forall r: nat :: Listed(t, r) <==> Listed(s, r) && r != root;
  }

  lemma {:induction false} RemoveAbsent(roots: seq<nat>, root: nat)
    requires root !in roots
    ensures Remove(roots, root) == roots
  {
    if roots != [] {
      RemoveAbsent(roots[..|roots| - 1], root);
      assert roots == roots[..|roots| - 1] + [roots[|roots| - 1]];
    }
  }

  /** What draining needs: distinct roots on the list, none of them tried. */
  ghost predicate Drainable(live: seq<nat>, attempted: seq<nat>) {
    Ascending(live) && forall i | 0 <= i < |live| :: live[i] !in attempted
  }

  /** Cleaning the newest on the list takes it off the end and tries it. */
  lemma CleanNewest(s: Scope)
    requires Drainable(s.live, s.attempted) && s.live != []
    ensures
      var n := |s.live| - 1;
      var t := s.(live := s.live[..n], attempted := s.attempted + [s.live[n]]);
      CleanOne(s, s.live[n]) == t && Drainable(t.live, t.attempted)
  {
    RemoveAbsent(s.live[..|s.live| - 1], s.live[|s.live| - 1]);
  }

  /** The state once the newest k on the list have been tried, newest first. */
  function Drained(s: Scope, k: nat): Scope
    requires k <= |s.live|
  {
    s.(live := s.live[..|s.live| - k], attempted := s.attempted + Reversed(s.live)[..k])
  }

  lemma CleanPrefix(s: Scope, roots: seq<nat>, k: nat)
    requires 0 < k <= |roots|
    ensures CleanAll(s, roots[..k]) == CleanOne(CleanAll(s, roots[..k - 1]), roots[k - 1])
  {
    assert roots[..k][..k - 1] == roots[..k - 1];
  }

  lemma DrainedNext(s: Scope, k: nat)
    requires 0 < k <= |s.live|
    ensures
      var t, n := Drained(s, k - 1), |s.live| - k;
      && |t.live| == n + 1 && t.live[n] == Reversed(s.live)[k - 1]
      && Drained(s, k) == t.(live := t.live[..n], attempted := t.attempted + [t.live[n]])
  {
    var order := Reversed(s.live);
    PrefixNext(order, k - 1);
    Associative(s.attempted, order[..k - 1], [order[k - 1]]);
  }

  lemma DrainedNone(s: Scope)
    ensures Drained(s, 0) == s && Reversed(s.live)[..0] == []
  {
    assert s.live[..|s.live|] == s.live && s.attempted + [] == s.attempted;
  }

  lemma {:induction false} StillDrainable(s: Scope, k: nat)
    requires Drainable(s.live, s.attempted) && k <= |s.live|
    ensures Drainable(Drained(s, k).live, Drained(s, k).attempted)
  {
    if k == 0 {
      DrainedNone(s);
    } else {
      StillDrainable(s, k - 1);
      DrainedNext(s, k);
      CleanNewest(Drained(s, k - 1));
    }
  }

  lemma DrainedStep(s: Scope, k: nat)
    requires Drainable(s.live, s.attempted) && 0 < k <= |s.live|
    ensures CleanOne(Drained(s, k - 1), Reversed(s.live)[k - 1]) == Drained(s, k)
  {
    StillDrainable(s, k - 1);
    DrainedNext(s, k);
    CleanNewest(Drained(s, k - 1));
  }

  /** Draining newest first takes the list apart from its end and tries each root
      on it once, in that order. */
  lemma {:induction false} DrainIsLifo(s: Scope, k: nat)
    requires Drainable(s.live, s.attempted) && k <= |s.live|
    ensures CleanAll(s, Reversed(s.live)[..k]) == Drained(s, k)
  {
    if k == 0 {
      DrainedNone(s);
    } else {
      DrainIsLifo(s, k - 1);
      CleanPrefix(s, Reversed(s.live), k);
      DrainedStep(s, k);
    }
  }

  lemma LiveIsDrainable(s: Scope)
    requires Inv(s)
    ensures Drainable(s.live, s.attempted)
  {
    assert forall i | 0 <= i < |s.live| :: Listed(s, s.live[i]);
  }

  lemma PrefixNext<T>(s: seq<T>, i: nat)
    requires i < |s|
    ensures s[..i + 1] == s[..i] + [s[i]]
  {
  }

  lemma LastUntried(live: seq<nat>, attempted: seq<nat>)
    requires Drainable(live, attempted) && live != []
    ensures live[|live| - 1] !in attempted
  {
  }

  /** What the drain finds at its i-th step has not been tried. */
  lemma NextToDrain(s: Scope, i: nat)
    requires Inv(s) && i < |s.live|
    ensures Reversed(s.live)[i] !in CleanAll(s, Reversed(s.live)[..i]).attempted
  {
    LiveIsDrainable(s);
    DrainIsLifo(s, i);
    StillDrainable(s, i);
    var t := Drained(s, i);
    LastUntried(t.live, t.attempted);
  }

  lemma {:induction false} CleanAllKeeps(s: Scope, roots: seq<nat>)
    requires Inv(s) && forall i | 0 <= i < |roots| :: roots[i] < s.made
    ensures Inv(CleanAll(s, roots)) && CleanAll(s, roots).made == s.made
  {
    if roots != [] {
      CleanAllKeeps(s, roots[..|roots| - 1]);
      CleanKeeps(CleanAll(s, roots[..|roots| - 1]), roots[|roots| - 1]);
    }
  }

  lemma DisposeKeeps(s: Scope)
    requires Inv(s)
    ensures Inv(Step(s, DisposeAll))
    ensures Step(s, DisposeAll) == s.(live := [], attempted := s.attempted + Reversed(s.live))
  {
    var order := Reversed(s.live);
    assert order[..|s.live|] == order;
    LiveIsDrainable(s);
    DrainIsLifo(s, |s.live|);
    assert forall i | 0 <= i < |s.live| :: Listed(s, s.live[i]);
    CleanAllKeeps(s, order);
  }

  lemma MakeKeeps(s: Scope, persist: bool)
    requires Inv(s)
    ensures Inv(Step(s, Make(persist)))
  {
    var t := Step(s, Make(persist));
    assert forall i | 0 <= i < |s.live| :: Listed(s, s.live[i]);
    assert forall r: nat :: Listed(t, r) <==> Listed(s, r) || (r == s.made && !persist);
  }

  lemma {:induction false} RunKeeps(events: seq<Event>)
    ensures Inv(Run(events))
  {
    if events != [] {
      var s, e := Run(events[..|events| - 1]), events[|events| - 1];
      RunKeeps(events[..|events| - 1]);
      match e
      case Make(persist) => MakeKeeps(s, persist);
      case Cleanup(root) => if root < s.made { CleanKeeps(s, root); }
      case DisposeAll => DisposeKeeps(s);
    }
  }

  /** Over any run each root's removal is tried at most once. */
  lemma TriedAtMostOnce(events: seq<Event>, root: nat)
    ensures multiset(Run(events).attempted)[root] <= 1
  {
    RunKeeps(events);
    DistinctCounts(Run(events).attempted, root);
  }

  function Makes(events: seq<Event>): nat {
    if events == [] then 0 else Makes(events[..|events| - 1]) + if events[|events| - 1].Make? then 1 else 0
  }

  /** The n-th directory made, counting from nought, was to persist. */
  ghost predicate MadeToPersist(events: seq<Event>, root: nat) {
    exists n | 0 <= n < |events| :: events[n] == Make(true) && Makes(events[..n]) == root
  }

  lemma {:induction false} PersistedAsMade(events: seq<Event>)
    ensures Run(events).made == Makes(events)
    ensures forall root: nat :: root in Run(events).persisted <==> MadeToPersist(events, root)
  {
    if events != [] {
      var n := |events| - 1;
      var before := events[..n];
      PersistedAsMade(before);
      RunKeeps(before);
      MadeSoFar(Run(before), events[n]);
      forall root: nat
        ensures MadeToPersist(events, root) <==> MadeToPersist(before, root) || (events[n] == Make(true) && Makes(before) == root)
      {
        PersistSnoc(events, root);
      }
    }
  }

  lemma PersistSnoc(events: seq<Event>, root: nat)
    requires events != []
    ensures
      var n := |events| - 1;
      MadeToPersist(events, root) <==>
        MadeToPersist(events[..n], root) || (events[n] == Make(true) && Makes(events[..n]) == root)
  {
    var n := |events| - 1;
    assert forall i | 0 <= i <= n :: events[..n][..i] == events[..i];
    if i :| 0 <= i < n && events[..n][i] == Make(true) && Makes(events[..n][..i]) == root {
      assert events[i] == Make(true);
    }
  }

  lemma MadeSoFar(s: Scope, e: Event)
    requires Inv(s)
    ensures Step(s, e).made == s.made + if e.Make? then 1 else 0
    ensures Step(s, e).persisted == if e == Make(true) then s.persisted + {s.made} else s.persisted
  {
    if e.DisposeAll? { DisposeKeeps(s); }
  }

  lemma {:induction false} TriedIsAsked(events: seq<Event>, root: nat)
    requires root in Run(events).attempted && root in Run(events).persisted
    ensures Cleanup(root) in events
  {
    var n := |events| - 1;
    var s, e := Run(events[..n]), events[n];
    RunKeeps(events[..n]);
    MadeSoFar(s, e);
    assert events == events[..n] + [e];
    if e.DisposeAll? { DisposeSparesPersisted(s, root); }
    if root in s.attempted { TriedIsAsked(events[..n], root); }
  }

  lemma DisposeSparesPersisted(s: Scope, root: nat)
    requires Inv(s) && root in s.persisted
    ensures root in Step(s, DisposeAll).attempted <==> root in s.attempted
  {
    DisposeKeeps(s);
    assert !Listed(s, root);
    assert forall r | r in Reversed(s.live) :: r in s.live;
  }

  /** A directory made to persist is removed only if someone asks for that one; any
      other is, once the scope is disposed of. */
  lemma PersistedOnesSurvive(events: seq<Event>, root: nat)
    ensures MadeToPersist(events, root) && root in Run(events).attempted ==> Cleanup(root) in events
    ensures root < Makes(events) && !MadeToPersist(events, root) ==> root in Run(events + [DisposeAll]).attempted
  {
    PersistedAsMade(events);
    if MadeToPersist(events, root) && root in Run(events).attempted { TriedIsAsked(events, root); }
    var all := events + [DisposeAll];
    assert all[..|events|] == events;
    RunKeeps(events);
    MadeSoFar(Run(events), DisposeAll);
    DisposeTriesTheRest(events);
  }

  lemma {:induction false} DistinctCounts(roots: seq<nat>, root: nat)
    requires Distinct(roots)
    ensures multiset(roots)[root] == if root in roots then 1 else 0
  {
    if roots != [] {
      var n := |roots| - 1;
      DistinctCounts(roots[..n], root);
      assert roots == roots[..n] + [roots[n]];
    }
  }

  /** After a dispose every root the scope answers for has been tried; those not
      tried before are tried newest first, and persisted roots are left alone. */
  lemma DisposeTriesTheRest(events: seq<Event>)
    ensures
      var s, t := Run(events), Run(events + [DisposeAll]);
      && t.attempted == s.attempted + Reversed(s.live)
      && (forall r: nat | r < t.made && r !in t.persisted :: r in t.attempted)
      && (forall r | r in t.persisted :: r in t.attempted ==> r in s.attempted)
      && t.live == []
  {
    var all := events + [DisposeAll];
    assert all[..|events|] == events;
    RunKeeps(events);
    RunKeeps(all);
    DisposeKeeps(Run(events));
  }

  // ----- The handles and the scope, over the file system.

  /** Directories made so far, and removals tried; `fails` says which of those do. */
  class Disk {
    const fails: nat -> bool
    var made: nat
    var attempted: seq<nat>

    constructor (fails: nat -> bool)
      ensures this.fails == fails && made == 0 && attempted == []
    {
      this.fails, made, attempted := fails, 0, [];
    }

    method Mkdtemp() returns (root: nat)
      modifies this`made
      ensures root == old(made) && made == root + 1
    {
      root := made;
      made := made + 1;
    }

    method Rm(root: nat) returns (ok: bool)
      modifies this`attempted
      ensures attempted == old(attempted) + [root] && (ok <==> !fails(root))
    {
      attempted := attempted + [root];
      return !fails(root);
    }
  }

  class TempHandle {
    const root: nat
    var done: bool

    constructor (root: nat)
      ensures this.root == root && !done
    {
      this.root, done := root, false;
    }

    /** Removes the root the first time, whether that works or not. */
    method Cleanup(disk: Disk) returns (ok: bool)
      modifies this, disk`attempted
      ensures done
      ensures disk.attempted == if old(done) then old(disk.attempted) else old(disk.attempted) + [root]
      ensures !ok <==> !old(done) && disk.fails(root)
    {
      if done { return true; }
      done := true;
      ok := disk.Rm(root);
    }
  }

  class TempScope {
    const disk: Disk
    var handles: seq<TempHandle>
    ghost var made: seq<TempHandle>
    ghost var persisted: set<nat>

    ghost function State(): Scope
      reads this, disk
    {
      Scope(|made|, persisted, Roots(handles), disk.attempted)
    }

    ghost predicate Valid()
      reads this, disk, made
    {
      && disk.made == |made|
      && (forall i | 0 <= i < |made| :: made[i].root == i && (made[i].done <==> i in disk.attempted))
      && (forall h | h in handles :: h in made)
      && Inv(State())
    }

    constructor (disk: Disk)
      requires disk.made == 0 && disk.attempted == []
      ensures Valid() && this.disk == disk && State() == Initial() && made == []
    {
      this.disk, handles, made, persisted := disk, [], [], {};
      assert Roots([]) == [];
    }

    /** A persisted handle is made but never put on the list. */
    method Mktemp(persist: bool) returns (h: TempHandle)
      requires Valid()
      modifies this, disk`made
      ensures Valid() && fresh(h) && made == old(made) + [h]
      ensures State() == Step(old(State()), Make(persist))
    {
      MakeKeeps(State(), persist);
      var root := disk.Mkdtemp();
      h := new TempHandle(root);
      made := made + [h];
      if persist {
        persisted := persisted + {root};
      } else {
        assert Roots(handles + [h]) == Roots(handles) + [root];
        handles := handles + [h];
      }
    }

    /** One handle's cleanup, called by its holder or by the scope. */
    method CleanupHandle(h: TempHandle) returns (ok: bool)
      requires Valid() && h in made
      modifies this`handles, h, disk`attempted
      ensures Valid()
      ensures State() == CleanOne(old(State()), h.root)
      ensures !ok <==> h.root !in old(disk.attempted) && disk.fails(h.root)
    {
      ghost var before := State();
      CleanKeeps(before, h.root);
      handles := WithoutRoot(handles, h.root);
      ok := h.Cleanup(disk);
    }

    /** Tries every handle on the list, newest first, however many fail; throws
        exactly when one did. */
    method Dispose() returns (errors: seq<nat>)
      requires Valid()
      modifies this`handles, made, disk`attempted
      ensures Valid() && made == old(made)
      ensures State() == Step(old(State()), DisposeAll)
      ensures errors == Failing(Reversed(old(State()).live), disk.fails)
    {
      DisposeKeeps(State());
      errors := Drain();
      handles := [];
      assert Roots(handles) == [];
    }

    method Drain() returns (errors: seq<nat>)
      requires Valid()
      modifies this`handles, made, disk`attempted
      ensures Valid() && made == old(made)
      ensures State() == CleanAll(old(State()), Reversed(old(State()).live))
      ensures errors == Failing(Reversed(old(State()).live), disk.fails)
    {
      ghost var start := State();
      ghost var order := Reversed(start.live);
      var snapshot := handles;
      assert forall i | 0 <= i < |snapshot| :: snapshot[i] in made;
      errors := [];
      for i := 0 to |snapshot|
        invariant made == old(made) && Valid()
        invariant State() == CleanAll(start, order[..i]) && errors == Failing(order[..i], disk.fails)
      {
        errors := DisposeAt(snapshot, i, errors, start);
      }
      assert order[..|snapshot|] == order;
    }

    /** The body of the loop: the handle whose turn it is. */
    method DisposeAt(snapshot: seq<TempHandle>, i: nat, errors: seq<nat>, ghost start: Scope) returns (noted: seq<nat>)
      requires Valid() && i < |snapshot| && forall k | 0 <= k < |snapshot| :: snapshot[k] in made
      requires Inv(start) && Roots(snapshot) == start.live
      requires State() == CleanAll(start, Reversed(start.live)[..i])
      requires errors == Failing(Reversed(start.live)[..i], disk.fails)
      modifies this`handles, made, disk`attempted
      ensures Valid()
      ensures State() == CleanAll(start, Reversed(start.live)[..i + 1])
      ensures noted == Failing(Reversed(start.live)[..i + 1], disk.fails)
    {
      ghost var order := Reversed(start.live);
      NextHandle(snapshot, start, i);
      noted := DisposeNext(snapshot[|snapshot| - 1 - i], errors, start, order[..i], order[..i + 1]);
    }

    /** A failure is noted, and stops nothing. */
    method DisposeNext(h: TempHandle, errors: seq<nat>, ghost start: Scope, ghost tried: seq<nat>, ghost next: seq<nat>)
      returns (noted: seq<nat>)
      requires Valid() && h in made && h.root !in disk.attempted
      requires next == tried + [h.root]
      requires State() == CleanAll(start, tried) && errors == Failing(tried, disk.fails)
      modifies this`handles, h, disk`attempted
      ensures Valid()
      ensures State() == CleanAll(start, next) && noted == Failing(next, disk.fails)
    {
      var ok := CleanupHandle(h);
      noted := if ok then errors else errors + [h.root];
      assert next[..|tried|] == tried;
    }
  }

  ghost function Roots(handles: seq<TempHandle>): (r: seq<nat>)
    ensures |r| == |handles| && forall i | 0 <= i < |handles| :: r[i] == handles[i].root
  {
    seq(|handles|, i requires 0 <= i < |handles| => handles[i].root)
  }

  /** The handle whose turn it is at the i-th step of a drain. */
  lemma NextHandle(snapshot: seq<TempHandle>, start: Scope, i: nat)
    requires Inv(start) && Roots(snapshot) == start.live && i < |snapshot|
    ensures
      var order, root := Reversed(start.live), snapshot[|snapshot| - 1 - i].root;
      order[..i + 1] == order[..i] + [root] && root !in CleanAll(start, order[..i]).attempted
  {
    NextToDrain(start, i);
    PrefixNext(Reversed(start.live), i);
  }

  /** `indexOf` and `splice`: a handle is told by its root. */
  function WithoutRoot(handles: seq<TempHandle>, root: nat): (r: seq<TempHandle>)
    ensures Roots(r) == Remove(Roots(handles), root)
    ensures forall h | h in r :: h in handles
  {
    if handles == [] then []
    else
      var n := |handles| - 1;
      assert Roots(handles)[..n] == Roots(handles[..n]);
      var rest := WithoutRoot(handles[..n], root);
      if handles[n].root == root then rest else rest + [handles[n]]
  }

  /** The roots whose removal fails, in the order tried. */
  function Failing(roots: seq<nat>, fails: nat -> bool): seq<nat> {
    if roots == [] then []
    else
      var n := |roots| - 1;
      if fails(roots[n]) then Failing(roots[..n], fails) + [roots[n]] else Failing(roots[..n], fails)
  }

  /** The failures are collected as often as they happened, in the order tried. */
  lemma {:induction false} FailuresInOrder(tried: seq<nat>, more: seq<nat>, fails: nat -> bool)
    ensures Failing(tried + more, fails) == Failing(tried, fails) + Failing(more, fails)
    ensures forall r :: multiset(Failing(tried, fails))[r] == if fails(r) then multiset(tried)[r] else 0
  {
    if more == [] {
      assert tried + more == tried;
    } else {
      var n := |more| - 1;
      assert (tried + more)[..|tried + more| - 1] == tried + more[..n];
      FailuresInOrder(tried, more[..n], fails);
    }
    FailuresCounted(tried, fails);
  }

  lemma {:induction false} FailuresCounted(tried: seq<nat>, fails: nat -> bool)
    ensures forall r :: multiset(Failing(tried, fails))[r] == if fails(r) then multiset(tried)[r] else 0
  {
    if tried != [] {
      var n := |tried| - 1;
      FailuresCounted(tried[..n], fails);
      assert tried == tried[..n] + [tried[n]];
    }
  }

  lemma {:induction false} ThrowsIffOneFailed(roots: seq<nat>, fails: nat -> bool)
    ensures Failing(roots, fails) != [] <==> exists r | r in roots :: fails(r)
  {
    if roots != [] {
      var n := |roots| - 1;
      ThrowsIffOneFailed(roots[..n], fails);
      assert roots == roots[..n] + [roots[n]];
    }
  }
}
