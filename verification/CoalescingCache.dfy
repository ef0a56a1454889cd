/** The protocol both caches follow: an LRU store that may forget any entry at
    any time, a table of fetches in flight, and callers that arrive, fetches that
    settle and `finally` handlers that run in any order. One `Step` is one piece
    of code that runs without yielding. */
module CoalescingCache {
  import opened Strings

  /** What awaiting a fetch comes to: a value, `null`, or a rejection. */
  datatype Answer<+V, +E> = Value(value: V) | Missing | Rejected(error: E)

  /** One call of the fetch-and-validate function. `key` is where it stores its
      value; a fetch that reads through has none. */
  datatype Fetch<+V, +E> = Fetch(request: seq<string>, key: Option<string>, answer: Option<Answer<V, E>>, cleared: bool)

  /** How one call of `get` was answered: from the store, by joining the fetch in
      flight, by beginning a fetch, or by reading through. */
  datatype Way<+V> = Hit(value: V) | Joined(id: nat) | Began(id: nat) | Through(id: nat)

  datatype Served<+V> = Served(request: seq<string>, way: Way<V>)

  datatype Cache<+V, +E> = Cache(
    stored: map<string, V>,
    inFlight: map<string, nat>,
    hits: nat,
    misses: nat,
    fetches: seq<Fetch<V, E>>,
    served: seq<Served<V>>)

  datatype Event<+V, +E> =
    | Get(request: seq<string>, cacheable: bool)
    | Settle(id: nat, answer: Answer<V, E>)
    | Finally(id: nat)
    | Evict(key: string)

  function KeyOf(request: seq<string>): string {
    Join(request, ':')
  }

  function Initial<V, E>(): Cache<V, E> {
    Cache(map[], map[], 0, 0, [], [])
  }

  predicate Outstanding<V, E>(s: Cache<V, E>, id: nat) {
    id < |s.fetches| && s.fetches[id].answer.None?
  }

  predicate Clearable<V, E>(s: Cache<V, E>, id: nat) {
    id < |s.fetches| && s.fetches[id].key.Some? && s.fetches[id].answer.Some? && !s.fetches[id].cleared
  }

  function Step<V, E>(s: Cache<V, E>, e: Event<V, E>): Cache<V, E> {
    match e
    case Get(request, cacheable) => OnGet(s, request, cacheable)
    case Settle(id, answer) => if Outstanding(s, id) then OnSettle(s, id, answer) else s
    case Finally(id) => if Clearable(s, id) then OnFinally(s, id) else s
    case Evict(key) => s.(stored := s.stored - {key})
  }

  function OnGet<V, E>(s: Cache<V, E>, request: seq<string>, cacheable: bool): Cache<V, E> {
    var key, id := KeyOf(request), |s.fetches|;
    if !cacheable then
      s.(fetches := s.fetches + [Fetch(request, None, None, false)],
         served := s.served + [Served(request, Through(id))])
    else if key in s.stored then
      s.(hits := s.hits + 1, served := s.served + [Served(request, Hit(s.stored[key]))])
    else if key in s.inFlight then
      s.(served := s.served + [Served(request, Joined(s.inFlight[key]))])
    else
      s.(misses := s.misses + 1,
         fetches := s.fetches + [Fetch(request, Some(key), None, false)],
         inFlight := s.inFlight[key := id],
         served := s.served + [Served(request, Began(id))])
  }

  function OnSettle<V, E>(s: Cache<V, E>, id: nat, answer: Answer<V, E>): Cache<V, E>
    requires Outstanding(s, id)
  {
    var fetch := s.fetches[id];
    s.(fetches := s.fetches[id := fetch.(answer := Some(answer))],
       stored := if fetch.key.Some? && answer.Value? then s.stored[fetch.key.value := answer.value] else s.stored)
  }

  function OnFinally<V, E>(s: Cache<V, E>, id: nat): Cache<V, E>
    requires Clearable(s, id)
  {
    var fetch := s.fetches[id];
    s.(fetches := s.fetches[id := fetch.(cleared := true)], inFlight := s.inFlight - {fetch.key.value})
  }

  /** The state after a whole history, from an empty cache. */
  function Run<V, E>(events: seq<Event<V, E>>): Cache<V, E> {
    if events == [] then Initial() else Step(Run(events[..|events| - 1]), events[|events| - 1])
  }

  // ----- What every step keeps.

  ghost predicate Gave<V, E>(f: Fetch<V, E>, key: string, value: V) {
    f.key == Some(key) && f.answer == Some(Value(value))
  }

  ghost predicate SomeFetchGave<V, E>(s: Cache<V, E>, key: string, value: V) {
    exists f | f in s.fetches :: Gave(f, key, value)
  }

  ghost predicate Tabled<V, E>(s: Cache<V, E>) {
    && (forall k | k in s.inFlight ::
          && s.inFlight[k] < |s.fetches|
          && s.fetches[s.inFlight[k]].key == Some(k)
          && !s.fetches[s.inFlight[k]].cleared)
    && (forall i | 0 <= i < |s.fetches| && s.fetches[i].key.Some? && !s.fetches[i].cleared ::
          s.fetches[i].key.value in s.inFlight && s.inFlight[s.fetches[i].key.value] == i)
  }

  ghost predicate WellKeyed<V, E>(s: Cache<V, E>) {
    forall f | f in s.fetches ::
      && (f.key.Some? ==> f.key.value == KeyOf(f.request))
      && (f.cleared ==> f.answer.Some?)
  }

  ghost predicate StoredWereGiven<V, E>(s: Cache<V, E>) {
    forall k | k in s.stored :: SomeFetchGave(s, k, s.stored[k])
  }

  /** Where the answer to one call comes from. */
  ghost predicate Accounted<V, E>(s: Cache<V, E>, c: Served<V>) {
    match c.way
    case Hit(value) => SomeFetchGave(s, KeyOf(c.request), value)
    case Joined(id) => id < |s.fetches| && s.fetches[id].key == Some(KeyOf(c.request))
    case Began(id) => id < |s.fetches| && s.fetches[id].key == Some(KeyOf(c.request)) && s.fetches[id].request == c.request
    case Through(id) => id < |s.fetches| && s.fetches[id].key == None && s.fetches[id].request == c.request
  }

  ghost predicate AllAccounted<V, E>(s: Cache<V, E>) {
    forall c | c in s.served :: Accounted(s, c)
  }

  ghost predicate Inv<V, E>(s: Cache<V, E>) {
    Tabled(s) && WellKeyed(s) && StoredWereGiven(s) && AllAccounted(s)
  }

  /** Later states extend earlier ones: no fetch changes its request, its key or
      the answer it settled with, and no call is answered twice. */
  ghost predicate Extends<V, E>(s: Cache<V, E>, t: Cache<V, E>) {
    && |s.fetches| <= |t.fetches|
    && s.served <= t.served
    && forall i | 0 <= i < |s.fetches| ::
         && s.fetches[i].request == t.fetches[i].request
         && s.fetches[i].key == t.fetches[i].key
         && (s.fetches[i].answer.Some? ==> t.fetches[i].answer == s.fetches[i].answer)
         && (s.fetches[i].cleared ==> t.fetches[i].cleared)
  }

  lemma ExtendsOn<V, E>(r: Cache<V, E>, s: Cache<V, E>, t: Cache<V, E>)
    requires Extends(r, s) && Extends(s, t)
    ensures Extends(r, t)
  {
  }

  lemma StepExtends<V, E>(s: Cache<V, E>, e: Event<V, E>)
    ensures Extends(s, Step(s, e))
  {
  }

  lemma GaveExtends<V, E>(s: Cache<V, E>, t: Cache<V, E>, key: string, value: V)
    requires Extends(s, t) && SomeFetchGave(s, key, value)
    ensures SomeFetchGave(t, key, value)
  {
    var f :| f in s.fetches && Gave(f, key, value);
    var i :| 0 <= i < |s.fetches| && s.fetches[i] == f;
    assert Gave(t.fetches[i], key, value);
  }

  lemma AccountedExtends<V, E>(s: Cache<V, E>, t: Cache<V, E>)
    requires Extends(s, t) && AllAccounted(s)
    ensures forall c | c in s.served :: Accounted(t, c)
  {
    forall c | c in s.served ensures Accounted(t, c) {
      assert Accounted(s, c);
      if c.way.Hit? {
        GaveExtends(s, t, KeyOf(c.request), c.way.value);
      }
    }
  }

  lemma GetKeepsTable<V, E>(s: Cache<V, E>, request: seq<string>, cacheable: bool)
    requires Tabled(s)
    ensures Tabled(OnGet(s, request, cacheable))
  {
  }

  lemma SettleKeepsTable<V, E>(s: Cache<V, E>, id: nat, answer: Answer<V, E>)
    requires Tabled(s) && Outstanding(s, id)
    ensures Tabled(OnSettle(s, id, answer))
  {
  }

  /** Clearing a key never drops another fetch's place: the entry is its own. */
  lemma FinallyKeepsTable<V, E>(s: Cache<V, E>, id: nat)
    requires Tabled(s) && Clearable(s, id)
    ensures s.inFlight[s.fetches[id].key.value] == id
    ensures Tabled(OnFinally(s, id))
  {
  }

  lemma StepKeepsTable<V, E>(s: Cache<V, E>, e: Event<V, E>)
    requires Tabled(s)
    ensures Tabled(Step(s, e))
  {
    match e
    case Get(request, cacheable) => GetKeepsTable(s, request, cacheable);
    case Settle(id, answer) => if Outstanding(s, id) { SettleKeepsTable(s, id, answer); }
    case Finally(id) => if Clearable(s, id) { FinallyKeepsTable(s, id); }
    case Evict(key) =>
  }

  lemma StepKeepsKeys<V, E>(s: Cache<V, E>, e: Event<V, E>)
    requires WellKeyed(s)
    ensures WellKeyed(Step(s, e))
  {
  }

  lemma StepKeepsStore<V, E>(s: Cache<V, E>, e: Event<V, E>)
    requires StoredWereGiven(s)
    ensures StoredWereGiven(Step(s, e))
  {
    var t := Step(s, e);
    StepExtends(s, e);
    forall k | k in t.stored ensures SomeFetchGave(t, k, t.stored[k]) {
      if k in s.stored && t.stored[k] == s.stored[k] {
        GaveExtends(s, t, k, s.stored[k]);
      } else {
        assert Gave(t.fetches[e.id], k, t.stored[k]);
      }
    }
  }

  lemma StepKeepsAccounts<V, E>(s: Cache<V, E>, e: Event<V, E>)
    requires Inv(s)
    ensures AllAccounted(Step(s, e))
  {
    var t := Step(s, e);
    StepExtends(s, e);
    AccountedExtends(s, t);
    if e.Get? {
      GetIsAccounted(s, e.request, e.cacheable);
      OneMoreAccounted(s, t);
    }
  }

  lemma OneMoreAccounted<V, E>(s: Cache<V, E>, t: Cache<V, E>)
    requires s.served <= t.served && |t.served| == |s.served| + 1
    requires (forall c | c in s.served :: Accounted(t, c)) && Accounted(t, t.served[|s.served|])
    ensures AllAccounted(t)
  {
    assert t.served == s.served + [t.served[|s.served|]];
  }

  lemma GetIsAccounted<V, E>(s: Cache<V, E>, request: seq<string>, cacheable: bool)
    requires Tabled(s) && StoredWereGiven(s)
    ensures var t := OnGet(s, request, cacheable);
            |t.served| == |s.served| + 1 && Accounted(t, t.served[|s.served|])
  {
    var t := OnGet(s, request, cacheable);
    var c := t.served[|s.served|];
    if c.way.Hit? {
      GaveExtends(s, t, KeyOf(request), c.way.value);
    }
  }

  lemma {:induction false} RunInv<V, E>(events: seq<Event<V, E>>)
    ensures Inv(Run(events))
  {
    if events != [] {
      var before, e := events[..|events| - 1], events[|events| - 1];
      RunInv(before);
      StepKeepsTable(Run(before), e);
      StepKeepsKeys(Run(before), e);
      StepKeepsStore(Run(before), e);
      StepKeepsAccounts(Run(before), e);
    }
  }

  lemma {:induction false} RunExtends<V, E>(events: seq<Event<V, E>>, more: seq<Event<V, E>>)
    ensures Extends(Run(events), Run(events + more))
  {
    if more == [] {
      assert events + more == events;
    } else {
      var all, shorter := events + more, more[..|more| - 1];
      assert all[..|all| - 1] == events + shorter;
      RunExtends(events, shorter);
      StepExtends(Run(events + shorter), all[|all| - 1]);
      ExtendsOn(Run(events), Run(events + shorter), Run(all));
    }
  }

  // ----- Safety over whole runs.

  /** At most one keyed fetch per key is outstanding. */
  lemma OneFetchPerKey<V, E>(events: seq<Event<V, E>>, i: nat, j: nat)
    requires Outstanding(Run(events), i) && Outstanding(Run(events), j)
    requires Run(events).fetches[i].key.Some? && Run(events).fetches[i].key == Run(events).fetches[j].key
    ensures i == j
  {
    RunInv(events);
    var s := Run(events);
    assert !s.fetches[i].cleared && !s.fetches[j].cleared;
  }

  /** No key is stored while a fetch for it is outstanding. */
  ghost predicate UnstoredWhileOutstanding<V, E>(s: Cache<V, E>) {
    forall i | 0 <= i < |s.fetches| && s.fetches[i].key.Some? && s.fetches[i].answer.None? ::
      s.fetches[i].key.value !in s.stored
  }

  lemma StepKeepsUnstored<V, E>(s: Cache<V, E>, e: Event<V, E>)
    requires Tabled(s) && WellKeyed(s) && UnstoredWhileOutstanding(s)
    ensures UnstoredWhileOutstanding(Step(s, e))
  {
    if e.Settle? && Outstanding(s, e.id) {
      assert forall f | f in s.fetches && f.answer.None? :: !f.cleared;
      assert forall i | 0 <= i < |s.fetches| :: s.fetches[i] in s.fetches;
    }
  }

  lemma {:induction false} RunKeepsUnstored<V, E>(events: seq<Event<V, E>>)
    ensures UnstoredWhileOutstanding(Run(events))
  {
    if events != [] {
      var before, e := events[..|events| - 1], events[|events| - 1];
      RunKeepsUnstored(before);
      RunInv(before);
      StepKeepsUnstored(Run(before), e);
    }
  }

  /** While a keyed fetch is outstanding, every call for its key joins it, and no
      fetch begins. */
  lemma CallsCoalesce<V, E>(events: seq<Event<V, E>>, request: seq<string>, i: nat)
    requires Outstanding(Run(events), i) && Run(events).fetches[i].key == Some(KeyOf(request))
    ensures
      var s, t := Run(events), Run(events + [Get(request, true)]);
      t == s.(served := s.served + [Served(request, Joined(i))])
  {
    var all := events + [Get(request, true)];
    assert all[..|all| - 1] == events;
    RunInv(events);
    RunKeepsUnstored(events);
    assert !Run(events).fetches[i].cleared;
  }

  predicate Failed<V, E>(f: Fetch<V, E>) {
    f.cleared && f.answer.Some? && !f.answer.value.Value?
  }

  /** A failure is not remembered: once every fetch for a key has failed and been
      cleared, the next call begins a new one. */
  lemma FailureIsNotRetained<V, E>(events: seq<Event<V, E>>, request: seq<string>)
    requires forall f | f in Run(events).fetches && f.key == Some(KeyOf(request)) :: Failed(f)
    ensures
      var s, t := Run(events), Run(events + [Get(request, true)]);
      && t.served == s.served + [Served(request, Began(|s.fetches|))]
      && t.fetches == s.fetches + [Fetch(request, Some(KeyOf(request)), None, false)]
  {
    var s, all := Run(events), events + [Get(request, true)];
    assert all[..|all| - 1] == events;
    RunInv(events);
    var key := KeyOf(request);
    assert key !in s.stored && key !in s.inFlight;
  }

  /** What a call has been answered with, once it has been. */
  function AnswerTo<V, E>(s: Cache<V, E>, c: Served<V>): (r: Option<Answer<V, E>>)
  {
    match c.way
    case Hit(value) => Some(Value(value))
    case Joined(id) => if id < |s.fetches| then s.fetches[id].answer else None
    case Began(id) => if id < |s.fetches| then s.fetches[id].answer else None
    case Through(id) => if id < |s.fetches| then s.fetches[id].answer else None
  }

  /** An answer never changes, whatever happens later. */
  lemma AnswersAreFinal<V, E>(events: seq<Event<V, E>>, more: seq<Event<V, E>>, n: nat)
    requires n < |Run(events).served|
    ensures n < |Run(events + more).served|
    ensures Run(events + more).served[n] == Run(events).served[n]
    ensures AnswerTo(Run(events), Run(events).served[n]).Some? ==>
      AnswerTo(Run(events + more), Run(events).served[n]) == AnswerTo(Run(events), Run(events).served[n])
  {
    RunExtends(events, more);
    RunInv(events);
    AnswerExtends(Run(events), Run(events + more), Run(events).served[n]);
  }

  /** A call goes unanswered exactly as long as the fetch it waits for is out. */
  lemma UnansweredIffWaiting<V, E>(events: seq<Event<V, E>>, c: Served<V>)
    requires c in Run(events).served
    ensures AnswerTo(Run(events), c) == None <==>
      exists id :: Outstanding(Run(events), id) && c.way in {Joined(id), Began(id), Through(id)}
  {
    RunInv(events);
    assert Accounted(Run(events), c);
    if AnswerTo(Run(events), c) == None {
      assert Outstanding(Run(events), c.way.id);
    }
  }

  /** When a fetch settles, everyone who waits for it is given what it settled with. */
  lemma SettlingAnswersAll<V, E>(events: seq<Event<V, E>>, id: nat, answer: Answer<V, E>, c: Served<V>)
    requires Outstanding(Run(events), id) && c in Run(events).served
    requires c.way in {Joined(id), Began(id), Through(id)}
    ensures AnswerTo(Run(events + [Settle(id, answer)]), c) == Some(answer)
  {
    var all := events + [Settle(id, answer)];
    assert all[..|events|] == events;
  }

  /** A call that may not be cached fetches for itself, and leaves the store, the
      table and the counters as they are; nor is what it fetches ever stored. */
  lemma ReadingThroughIsPrivate<V, E>(events: seq<Event<V, E>>, request: seq<string>, answer: Answer<V, E>)
    ensures
      var s, t := Run(events), Run(events + [Get(request, false)]);
      && t.served == s.served + [Served(request, Through(|s.fetches|))]
      && Outstanding(t, |s.fetches|) && t.fetches[|s.fetches|].request == request
      && t.stored == s.stored && t.inFlight == s.inFlight && t.hits == s.hits && t.misses == s.misses
      && Step(t, Settle(|s.fetches|, answer)).stored == s.stored
  {
    var all := events + [Get(request, false)];
    assert all[..|events|] == events;
  }

  /** An entry stays, with its value, until it is evicted or a fetch for its key
      gives another; evicting it takes it and no other. */
  lemma EntriesStay<V, E>(s: Cache<V, E>, e: Event<V, E>, key: string)
    requires key in s.stored && e != Evict(key)
    requires e.Settle? && Outstanding(s, e.id) ==> s.fetches[e.id].key != Some(key)
    ensures key in Step(s, e).stored && Step(s, e).stored[key] == s.stored[key]
    ensures key !in Step(s, Evict(key)).stored
  {
  }

  lemma AnswerExtends<V, E>(s: Cache<V, E>, t: Cache<V, E>, c: Served<V>)
    requires Extends(s, t)
    ensures AnswerTo(s, c).Some? ==> AnswerTo(t, c) == AnswerTo(s, c)
  {
  }

  /** Only values are ever stored, and each is one a fetch for that key gave: a
      rejection or a `null` never is. */
  lemma OnlyValuesAreStored<V, E>(events: seq<Event<V, E>>, key: string)
    requires key in Run(events).stored
    ensures exists f | f in Run(events).fetches :: Gave(f, key, Run(events).stored[key])
  {
    RunInv(events);
    assert SomeFetchGave(Run(events), key, Run(events).stored[key]);
  }

  // ----- Transparency.

  /** Every fetch that settles does so with what a direct call would give. */
  ghost predicate Truthful<V(!new), E(!new)>(events: seq<Event<V, E>>, direct: seq<string> -> Answer<V, E>) {
    forall n | 0 <= n < |events| :: SettlesTruly(Run(events[..n]), events[n], direct)
  }

  ghost predicate SettlesTruly<V, E>(s: Cache<V, E>, e: Event<V, E>, direct: seq<string> -> Answer<V, E>) {
    e.Settle? && e.id < |s.fetches| ==> e.answer == direct(s.fetches[e.id].request)
  }

  ghost predicate AnsweredTruly<V, E>(s: Cache<V, E>, direct: seq<string> -> Answer<V, E>) {
    forall f | f in s.fetches && f.answer.Some? :: f.answer.value == direct(f.request)
  }

  lemma StepAnswersTruly<V, E>(s: Cache<V, E>, e: Event<V, E>, direct: seq<string> -> Answer<V, E>)
    requires AnsweredTruly(s, direct) && SettlesTruly(s, e, direct)
    ensures AnsweredTruly(Step(s, e), direct)
  {
    var t := Step(s, e);
    forall f | f in t.fetches && f.answer.Some? ensures f.answer.value == direct(f.request) {
      var i :| 0 <= i < |t.fetches| && t.fetches[i] == f;
      if i < |s.fetches| {
        assert s.fetches[i] in s.fetches;
      }
    }
  }

  lemma {:induction false} FetchesAnswerTruly<V(!new), E(!new)>(events: seq<Event<V, E>>, direct: seq<string> -> Answer<V, E>)
    requires Truthful(events, direct)
    ensures AnsweredTruly(Run(events), direct)
  {
    if events != [] {
      var before, e := events[..|events| - 1], events[|events| - 1];
      assert forall n | 0 <= n < |before| :: before[..n] == events[..n];
      FetchesAnswerTruly(before, direct);
      assert SettlesTruly(Run(events[..|events| - 1]), e, direct);
      StepAnswersTruly(Run(before), e, direct);
    }
  }

  /** No two requests made so far share a key without being the same request. */
  ghost predicate KeysTellRequestsApart<V, E>(s: Cache<V, E>) {
    forall f, c | f in s.fetches && c in s.served && KeyOf(f.request) == KeyOf(c.request) :: f.request == c.request
  }

  /** Caching is invisible: every answer is the one a direct fetch-and-validate of
      that very request gives. */
  lemma CachingIsTransparent<V(!new), E(!new)>(
      events: seq<Event<V, E>>, direct: seq<string> -> Answer<V, E>, c: Served<V>)
    requires Truthful(events, direct)
    requires KeysTellRequestsApart(Run(events))
    requires c in Run(events).served && AnswerTo(Run(events), c).Some?
    ensures AnswerTo(Run(events), c) == Some(direct(c.request))
  {
    var s := Run(events);
    RunInv(events);
    FetchesAnswerTruly(events, direct);
    assert Accounted(s, c);
    match c.way
    case Hit(value) =>
      var f :| f in s.fetches && Gave(f, KeyOf(c.request), value);
      assert f.request == c.request;
    case Joined(id) =>
      assert s.fetches[id] in s.fetches;
    case Began(id) =>
      assert s.fetches[id] in s.fetches;
    case Through(id) =>
      assert s.fetches[id] in s.fetches;
  }

  ghost predicate AnswersMeet<V, E>(s: Cache<V, E>, ok: Answer<V, E> -> bool) {
    forall f | f in s.fetches && f.answer.Some? :: ok(f.answer.value)
  }

  lemma StepAnswersMeet<V, E>(s: Cache<V, E>, e: Event<V, E>, ok: Answer<V, E> -> bool)
    requires AnswersMeet(s, ok) && (e.Settle? ==> ok(e.answer))
    ensures AnswersMeet(Step(s, e), ok)
  {
    var t := Step(s, e);
    forall f | f in t.fetches && f.answer.Some? ensures ok(f.answer.value) {
      var i :| 0 <= i < |t.fetches| && t.fetches[i] == f;
      if i < |s.fetches| {
        assert s.fetches[i] in s.fetches;
      }
    }
  }

  lemma {:induction false} RunAnswersMeet<V, E>(events: seq<Event<V, E>>, ok: Answer<V, E> -> bool)
    requires forall e | e in events && e.Settle? :: ok(e.answer)
    ensures AnswersMeet(Run(events), ok)
  {
    if events != [] {
      RunAnswersMeet(events[..|events| - 1], ok);
      StepAnswersMeet(Run(events[..|events| - 1]), events[|events| - 1], ok);
    }
  }

  /** Whatever holds of every answer a fetch settles with holds of every answer
      any caller is ever given. */
  lemma EveryAnswerWasJudged<V, E>(events: seq<Event<V, E>>, c: Served<V>, ok: Answer<V, E> -> bool)
    requires forall e | e in events && e.Settle? :: ok(e.answer)
    requires c in Run(events).served && AnswerTo(Run(events), c).Some?
    ensures ok(AnswerTo(Run(events), c).value)
  {
    var s := Run(events);
    RunInv(events);
    RunAnswersMeet(events, ok);
    assert Accounted(s, c);
    if c.way.Hit? {
      var f :| f in s.fetches && Gave(f, KeyOf(c.request), c.way.value);
    }
  }

  // ----- When keys tell requests apart.

  /** No component but the last holds a colon. */
  predicate ColonFree(request: seq<string>) {
    forall i | 0 <= i < |request| - 1 :: ':' !in request[i]
  }

  lemma FirstColon(a: string, b: string, x: string, y: string)
    requires ':' !in a && ':' !in b && a + [':'] + x == b + [':'] + y
    ensures a == b && x == y
  {
    var s := a + [':'] + x;
    assert s[|a|] == ':' && s[|b|] == ':';
    assert forall k | 0 <= k < |a| :: s[k] == a[k] != ':';
    assert forall k | 0 <= k < |b| :: s[k] == b[k] != ':';
    assert a == s[..|a|] == b && x == s[|a| + 1..] == y;
  }

  /** Requests with colon-free leading components never share an entry. */
  lemma {:induction false} KeysAreInjective(a: seq<string>, b: seq<string>)
    requires |a| == |b| > 0 && ColonFree(a) && ColonFree(b)
    requires KeyOf(a) == KeyOf(b)
    ensures a == b
  {
    if |a| > 1 {
      FirstColon(a[0], b[0], KeyOf(a[1..]), KeyOf(b[1..]));
      KeysAreInjective(a[1..], b[1..]);
      assert a == [a[0]] + a[1..] && b == [b[0]] + b[1..];
    }
  }

  ghost predicate AllColonFree<V, E>(s: Cache<V, E>, n: nat) {
    && (forall f | f in s.fetches :: |f.request| == n && ColonFree(f.request))
    && (forall c | c in s.served :: |c.request| == n && ColonFree(c.request))
  }

  lemma StepColonFree<V, E>(s: Cache<V, E>, e: Event<V, E>, n: nat)
    requires AllColonFree(s, n) && (e.Get? ==> |e.request| == n && ColonFree(e.request))
    ensures AllColonFree(Step(s, e), n)
  {
    var t := Step(s, e);
    forall f | f in t.fetches ensures |f.request| == n && ColonFree(f.request) {
      var i :| 0 <= i < |t.fetches| && t.fetches[i] == f;
      if i < |s.fetches| {
        assert s.fetches[i] in s.fetches;
      }
    }
  }

  lemma {:induction false} RequestsComeFromCalls<V, E>(events: seq<Event<V, E>>, n: nat)
    requires forall e: Event<V, E> | e in events && e.Get? :: |e.request| == n && ColonFree(e.request)
    ensures AllColonFree(Run(events), n)
  {
    if events != [] {
      RequestsComeFromCalls(events[..|events| - 1], n);
      StepColonFree(Run(events[..|events| - 1]), events[|events| - 1], n);
    }
  }

  lemma ColonFreeRequestsAreToldApart<V, E>(s: Cache<V, E>, n: nat)
    requires n > 0 && AllColonFree(s, n)
    ensures KeysTellRequestsApart(s)
  {
    forall f, c | f in s.fetches && c in s.served && KeyOf(f.request) == KeyOf(c.request)
      ensures f.request == c.request
    {
      KeysAreInjective(f.request, c.request);
    }
  }

  ghost predicate SharesItsKey(request: seq<string>) {
    exists other: seq<string> :: |other| == |request| && other != request && KeyOf(other) == KeyOf(request)
  }

  /** A key belongs to one request alone exactly when no component of the request
      holds a colon. */
  lemma SharingIffColon(request: seq<string>)
    requires |request| > 1
    ensures SharesItsKey(request) <==> exists i | 0 <= i < |request| :: ':' in request[i]
  {
    if i :| 0 <= i < |request| && ':' in request[i] {
      ColonMovesAcross(request, i);
    } else if SharesItsKey(request) {
      var other: seq<string> :| |other| == |request| && other != request && KeyOf(other) == KeyOf(request);
      PlainKeyIsUnique(request, other);
      assert false;
    }
  }

  lemma {:induction false} PlainKeyIsUnique(request: seq<string>, other: seq<string>)
    requires |other| == |request| > 0 && KeyOf(other) == KeyOf(request)
    requires forall i | 0 <= i < |request| :: ':' !in request[i]
    ensures other == request
  {
    KeyHoldsItsColons(request);
    KeyHoldsItsColons(other);
    PlainHasNone(request);
    NoneMeansPlain(other);
    KeysAreInjective(request, other);
  }

  function Colons(s: string): nat {
    if s == "" then 0 else (if s[0] == ':' then 1 else 0) + Colons(s[1..])
  }

  function ColonsInside(request: seq<string>): nat {
    if request == [] then 0 else Colons(request[0]) + ColonsInside(request[1..])
  }

  lemma {:induction false} ColonsConcat(a: string, b: string)
    ensures Colons(a + b) == Colons(a) + Colons(b)
  {
    if a == "" {
      assert a + b == b;
    } else {
      assert (a + b)[0] == a[0] && (a + b)[1..] == a[1..] + b;
      ColonsConcat(a[1..], b);
    }
  }

  lemma {:induction false} NoColons(s: string)
    ensures Colons(s) == 0 <==> ':' !in s
  {
    if s != "" {
      assert s == [s[0]] + s[1..];
      NoColons(s[1..]);
    }
  }

  lemma {:induction false} KeyHoldsItsColons(request: seq<string>)
    requires request != []
    ensures Colons(KeyOf(request)) == ColonsInside(request) + |request| - 1
  {
    if |request| > 1 {
      KeyHoldsItsColons(request[1..]);
      ColonsConcat(request[0] + [':'], KeyOf(request[1..]));
      ColonsConcat(request[0], [':']);
      assert Colons([':']) == 1 + Colons([]);
    } else {
      assert request[1..] == [];
    }
  }

  lemma {:induction false} PlainHasNone(request: seq<string>)
    requires forall i | 0 <= i < |request| :: ':' !in request[i]
    ensures ColonsInside(request) == 0
  {
    if request != [] {
      NoColons(request[0]);
      PlainHasNone(request[1..]);
    }
  }

  lemma {:induction false} NoneMeansPlain(request: seq<string>)
    requires ColonsInside(request) == 0
    ensures forall i | 0 <= i < |request| :: ':' !in request[i]
  {
    if request != [] {
      NoColons(request[0]);
      NoneMeansPlain(request[1..]);
      assert request == [request[0]] + request[1..];
    }
  }

  /** In a pair of neighbours, the text around a colon of either can move across. */
  lemma ColonMovesInPair(a: string, b: string) returns (x: string, y: string)
    requires ':' in a || ':' in b
    ensures x != a && x + [':'] + y == a + [':'] + b
  {
    if ':' in a {
      var j :| 0 <= j < |a| && a[j] == ':';
      x, y := a[..j], a[j + 1..] + [':'] + b;
    } else {
      var j :| 0 <= j < |b| && b[j] == ':';
      x, y := a + [':'] + b[..j], b[j + 1..];
      assert |x| > |a|;
    }
  }

  lemma {:induction false} ColonMovesAcross(request: seq<string>, i: nat)
    requires |request| > 1 && i < |request| && ':' in request[i]
    ensures SharesItsKey(request)
  {
    if i > 1 {
      var tail := request[1..];
      ColonMovesAcross(tail, i - 1);
      var other: seq<string> :| |other| == |tail| && other != tail && KeyOf(other) == KeyOf(tail);
      var all := [request[0]] + other;
      assert all[1..] == other && all != request;
    } else {
      var x, y := ColonMovesInPair(request[0], request[1]);
      var all := [x, y] + request[2..];
      assert all[2..] == request[2..] && all[0] != request[0];
      HeadKey(request);
      HeadKey(all);
    }
  }

  lemma TwoKey(a: string, b: string)
    ensures KeyOf([a, b]) == a + [':'] + b
  {
    assert [a, b][1..] == [b] && Join([b], ':') == b;
  }

  /** The first two components may be joined first. */
  lemma HeadKey(request: seq<string>)
    requires |request| > 1
    ensures KeyOf(request) == KeyOf([request[0] + [':'] + request[1]] + request[2..])
  {
    var a, b, rest := request[0], request[1], request[2..];
    var merged := [a + [':'] + b] + rest;
    assert merged[1..] == rest == request[1..][1..];
    if rest == [] {
      assert request == [a, b];
      TwoKey(a, b);
    } else {
      var tail := request[1..];
      assert tail[0] == b && tail[1..] == rest;
      assert KeyOf(tail) == b + [':'] + KeyOf(rest);
      Associative(a + [':'], b + [':'], KeyOf(rest));
      assert (a + [':'] + b) + [':'] == a + [':'] + (b + [':']);
    }
  }

  /** A shared key breaks transparency whenever the two requests really differ:
      the second caller is handed what the first one's fetch gave. */
  lemma SharedKeyMisleads<V(!new), E(!new)>(a: seq<string>, b: seq<string>, direct: seq<string> -> Answer<V, E>)
    requires KeyOf(a) == KeyOf(b) && direct(a).Value? && direct(b) != direct(a)
    ensures exists events: seq<Event<V, E>> ::
      && Truthful(events, direct)
      && |Run(events).served| == 2
      && Run(events).served[1].request == b
      && AnswerTo(Run(events), Run(events).served[1]) != Some(direct(b))
  {
    var events: seq<Event<V, E>> := [Get(a, true), Settle(0, direct(a)), Get(b, true)];
    assert events[..2][..1] == events[..1] == [Get(a, true)];
    assert events[..1][..0] == [] == events[..0];
    var s1 := Step(Initial(), Get(a, true));
    assert Run(events[..1]) == s1;
    var s2 := Step(s1, Settle(0, direct(a)));
    assert Run(events[..2]) == s2;
    assert s2.stored[KeyOf(b)] == direct(a).value;
    assert Run(events) == Step(s2, Get(b, true));
  }

  // ----- Conservation, and how often a key is fetched.

  function HitsAmong<V>(served: seq<Served<V>>): nat {
    if served == [] then 0
    else HitsAmong(served[..|served| - 1]) + (if served[|served| - 1].way.Hit? then 1 else 0)
  }

  function BegunAmong<V>(served: seq<Served<V>>): nat {
    if served == [] then 0
    else BegunAmong(served[..|served| - 1]) + (if served[|served| - 1].way.Began? then 1 else 0)
  }

  function KeyedFetches<V, E>(fetches: seq<Fetch<V, E>>): nat {
    if fetches == [] then 0
    else KeyedFetches(fetches[..|fetches| - 1]) + (if fetches[|fetches| - 1].key.Some? then 1 else 0)
  }

  lemma {:induction false} KeyedAfterUpdate<V, E>(fetches: seq<Fetch<V, E>>, i: nat, f: Fetch<V, E>)
    requires i < |fetches| && f.key == fetches[i].key
    ensures KeyedFetches(fetches[i := f]) == KeyedFetches(fetches)
  {
    var n := |fetches| - 1;
    if i < n {
      KeyedAfterUpdate(fetches[..n], i, f);
      assert fetches[i := f][..n] == fetches[..n][i := f];
    } else {
      assert fetches[i := f][..n] == fetches[..n];
    }
  }

  predicate Counted<V, E>(s: Cache<V, E>) {
    s.hits == HitsAmong(s.served) && s.misses == BegunAmong(s.served) == KeyedFetches(s.fetches)
  }

  lemma GetCounts<V, E>(s: Cache<V, E>, request: seq<string>, cacheable: bool)
    requires Counted(s)
    ensures Counted(OnGet(s, request, cacheable))
  {
    var t := OnGet(s, request, cacheable);
    ServedCounts(s.served, t.served[|s.served|]);
    assert t.served == s.served + [t.served[|s.served|]];
    if |t.fetches| > |s.fetches| {
      FetchCounts(s.fetches, t.fetches[|s.fetches|]);
    }
  }

  lemma ServedCounts<V>(served: seq<Served<V>>, c: Served<V>)
    ensures HitsAmong(served + [c]) == HitsAmong(served) + (if c.way.Hit? then 1 else 0)
    ensures BegunAmong(served + [c]) == BegunAmong(served) + (if c.way.Began? then 1 else 0)
  {
    assert (served + [c])[..|served|] == served;
  }

  lemma FetchCounts<V, E>(fetches: seq<Fetch<V, E>>, f: Fetch<V, E>)
    ensures KeyedFetches(fetches + [f]) == KeyedFetches(fetches) + (if f.key.Some? then 1 else 0)
  {
    assert (fetches + [f])[..|fetches|] == fetches;
  }

  lemma StepCounts<V, E>(s: Cache<V, E>, e: Event<V, E>)
    requires Counted(s)
    ensures Counted(Step(s, e))
  {
    match e
    case Get(request, cacheable) => GetCounts(s, request, cacheable);
    case Settle(id, answer) =>
      if Outstanding(s, id) { KeyedAfterUpdate(s.fetches, id, OnSettle(s, id, answer).fetches[id]); }
    case Finally(id) =>
      if Clearable(s, id) { KeyedAfterUpdate(s.fetches, id, OnFinally(s, id).fetches[id]); }
    case Evict(key) =>
  }

  /** The counters are exact: `hits` counts the calls answered from the store,
      `misses` those that began a keyed fetch, and there are as many such fetches. */
  lemma {:induction false} CountersAreExact<V, E>(events: seq<Event<V, E>>)
    ensures Counted(Run(events))
  {
    if events != [] {
      CountersAreExact(events[..|events| - 1]);
      StepCounts(Run(events[..|events| - 1]), events[|events| - 1]);
    }
  }

  ghost predicate ValuesAreStored<V, E>(s: Cache<V, E>) {
    forall f | f in s.fetches && f.key.Some? && f.answer.Some? && f.answer.value.Value? :: f.key.value in s.stored
  }

  ghost predicate EarlierOnesFailed<V, E>(s: Cache<V, E>) {
    forall i, j | 0 <= i < j < |s.fetches| && s.fetches[i].key.Some? && s.fetches[i].key == s.fetches[j].key ::
      s.fetches[i].answer.Some? && !s.fetches[i].answer.value.Value?
  }

  lemma StepStoresValues<V, E>(s: Cache<V, E>, e: Event<V, E>)
    requires ValuesAreStored(s) && !e.Evict?
    ensures ValuesAreStored(Step(s, e))
  {
    var t := Step(s, e);
    forall f | f in t.fetches && f.key.Some? && f.answer.Some? && f.answer.value.Value?
      ensures f.key.value in t.stored
    {
      var i :| 0 <= i < |t.fetches| && t.fetches[i] == f;
      if i < |s.fetches| && s.fetches[i].answer == f.answer {
        assert s.fetches[i] in s.fetches;
      }
    }
  }

  lemma StepAfterFailures<V, E>(s: Cache<V, E>, e: Event<V, E>)
    requires Tabled(s) && WellKeyed(s) && ValuesAreStored(s) && EarlierOnesFailed(s)
    ensures EarlierOnesFailed(Step(s, e))
  {
    var t := Step(s, e);
    StepExtends(s, e);
    forall i, j | 0 <= i < j < |t.fetches| && t.fetches[i].key.Some? && t.fetches[i].key == t.fetches[j].key
      ensures t.fetches[i].answer.Some? && !t.fetches[i].answer.value.Value?
    {
      if j < |s.fetches| {
        assert s.fetches[i].answer.Some?;
      } else {
        FetchedAfterFailure(s, e, i);
      }
    }
  }

  /** A call begins a fetch only if none for its key is in the table or stored. */
  lemma FetchedAfterFailure<V, E>(s: Cache<V, E>, e: Event<V, E>, i: nat)
    requires Tabled(s) && WellKeyed(s) && ValuesAreStored(s)
    requires i < |s.fetches| && s.fetches[i].key.Some? && |Step(s, e).fetches| == |s.fetches| + 1
    requires s.fetches[i].key == Step(s, e).fetches[|s.fetches|].key
    ensures Step(s, e).fetches[i] == s.fetches[i]
    ensures s.fetches[i].answer.Some? && !s.fetches[i].answer.value.Value?
  {
    assert s.fetches[i] in s.fetches && s.fetches[i].cleared;
  }

  /** While nothing is evicted, a key is fetched again only after every earlier
      fetch for it failed to give a value. */
  lemma {:induction false} FetchedOnceUnlessItFailed<V, E>(events: seq<Event<V, E>>)
    requires forall e | e in events :: !e.Evict?
    ensures ValuesAreStored(Run(events)) && EarlierOnesFailed(Run(events))
  {
    if events != [] {
      var before, e := events[..|events| - 1], events[|events| - 1];
      FetchedOnceUnlessItFailed(before);
      RunInv(before);
      StepStoresValues(Run(before), e);
      StepAfterFailures(Run(before), e);
    }
  }
}
