/** The cache in front of lock-file fetching and validation. */
module LockFileCache {
  import opened Strings
  import opened CoalescingCache
  import opened LabelMatch
  import opened LockFile

  /** What the provider's fetch can come to. */
  datatype Fetched = Found(lock: Lock) | NotFound | Unparseable | Failed

  datatype LoadError = ParseError | Invalid(fault: Fault)

  /** What a fetch and validation without a cache gives. Only a corrupt lock
      rejects; a fetch that fails in any other way reads as no lock. */
  ghost function Judge(fetched: Fetched, safe: (string, string) -> bool): Answer<Lock, LoadError> {
    match fetched
    case Unparseable => Rejected(ParseError)
    case Failed => Missing
    case NotFound => Missing
    case Found(lock) =>
      match LockFault(lock, safe)
      case Some(fault) => Rejected(Invalid(fault))
      case None => Value(lock)
  }

  class LockFileCache {
    const safe: (string, string) -> bool
    var cache: map<string, Lock>
    var inFlight: map<string, nat>
    var hits: nat
    var misses: nat
    /** The promises made so far, by the order they were made in. */
    var promises: seq<Fetch<Lock, LoadError>>
    ghost var served: seq<Served<Lock>>

    ghost function State(): Cache<Lock, LoadError>
      reads this
    {
      Cache(cache, inFlight, hits, misses, promises, served)
    }

    constructor (safe: (string, string) -> bool)
      ensures this.safe == safe && State() == Initial()
    {
      this.safe := safe;
      cache, inFlight, hits, misses, promises, served := map[], map[], 0, 0, [], [];
    }

    /** `cacheable` is the fetcher's flag: only an explicit `false` reads through. */
    method Get(provider: string, cacheable: Option<bool>, repo: string, ref: string) returns (way: Way<Lock>)
      modifies this
      ensures State() == Step(old(State()), Event.Get([provider, repo, ref], cacheable != Some(false)))
      ensures served == old(served) + [Served([provider, repo, ref], way)]
    {
      var request := [provider, repo, ref];
      var key := provider + [':'] + repo + [':'] + ref;
      assert key == KeyOf(request) by { ThreeParts(provider, repo, ref); }
      if cacheable == Some(false) {
        way := Through(|promises|);
        promises := promises + [Fetch(request, None, None, false)];
      } else if key in cache {
        hits := hits + 1;
        way := Hit(cache[key]);
      } else if key in inFlight {
        way := Joined(inFlight[key]);
      } else {
        misses := misses + 1;
        way := Began(|promises|);
        inFlight := inFlight[key := |promises|];
        promises := promises + [Fetch(request, Some(key), None, false)];
      }
      served := served + [Served(request, way)];
    }

    /** What runs once the provider has answered fetch `id`. */
    method FetchAndValidate(id: nat, fetched: Fetched)
      requires Outstanding(State(), id)
      modifies this
      ensures State() == Step(old(State()), Settle(id, Judge(fetched, safe)))
    {
      var fetch, answer := promises[id], Missing;
      match fetched {
        case Unparseable => answer := Rejected(ParseError);
        case Failed =>
        case NotFound =>
        case Found(lock) =>
          var fault := Validate(lock, safe);
          if fault.Some? {
            answer := Rejected(Invalid(fault.value));
          } else {
            answer := Value(lock);
            if fetch.key.Some? { cache := cache[fetch.key.value := lock]; }
          }
      }
      promises := promises[id := fetch.(answer := Some(answer))];
    }

    method Finally(id: nat)
      requires Clearable(State(), id)
      modifies this
      ensures State() == Step(old(State()), Event.Finally(id))
    {
      var fetch := promises[id];
      inFlight := inFlight - {fetch.key.value};
      promises := promises[id := fetch.(cleared := true)];
    }

    /** An entry falls out by age, by count or by size. */
    method Evict(key: string)
      modifies this
      ensures State() == Step(old(State()), Event.Evict(key))
    {
      cache := cache - {key};
    }
  }

  lemma ThreeParts(a: string, b: string, c: string)
    ensures KeyOf([a, b, c]) == a + [':'] + b + [':'] + c
  {
    assert [a, b, c][1..] == [b, c];
    TwoKey(b, c);
  }

  /** Every settlement is a judgement of what some fetch came to. */
  ghost predicate AllJudged(events: seq<Event<Lock, LoadError>>, safe: (string, string) -> bool) {
    forall e | e in events && e.Settle? :: Judged(e.answer, safe)
  }

  ghost predicate Judged(answer: Answer<Lock, LoadError>, safe: (string, string) -> bool) {
    exists fetched :: answer == Judge(fetched, safe)
  }

  /** Every lock any caller is given, from the store, a joined fetch or its own,
      passed validation, so the splitter takes every matcher list in it, for what
      the schema says it is. */
  lemma EveryServedLockRoutes(
      events: seq<Event<Lock, LoadError>>, safe: (string, string) -> bool, c: Served<Lock>, lock: Lock, e: Engine)
    requires AllJudged(events, safe)
    requires c in Run(events).served && AnswerTo(Run(events), c) == Some(Value(lock))
    ensures LockFault(lock, safe) == None && Routes(lock)
    ensures forall elements, el | HoldsList(lock, elements) && el in elements ::
      ParseMatcher(el) == Some(SplitterReads(e, el))
  {
    ghost var ok: Answer<Lock, LoadError> -> bool := answer => Judged(answer, safe);
    EveryAnswerWasJudged(events, c, ok);
    ValidLocksRoute(lock, safe, e);
  }

  /** When what the provider holds is a function of provider, repository and ref,
      and none but the ref holds a colon, the cache gives every caller what a
      direct fetch and validation would. */
  lemma LockCacheIsTransparent(
      events: seq<Event<Lock, LoadError>>, safe: (string, string) -> bool,
      source: seq<string> -> Fetched, c: Served<Lock>)
    requires Truthful(events, Direct(safe, source))
    requires forall e: Event<Lock, LoadError> | e in events && e.Get? :: |e.request| == 3 && ColonFree(e.request)
    requires c in Run(events).served && AnswerTo(Run(events), c).Some?
    ensures AnswerTo(Run(events), c) == Some(Judge(source(c.request), safe))
  {
    RequestsComeFromCalls(events, 3);
    ColonFreeRequestsAreToldApart(Run(events), 3);
    CachingIsTransparent(events, Direct(safe, source), c);
  }

  /** What such a caller is answered, told by what the provider holds: `null` when
      there is no file or the fetch fails, a parse error when it is no lock file, the
      fault when it is a lock that fails a check, and otherwise the lock. */
  lemma LockAnswerSays(
      events: seq<Event<Lock, LoadError>>, safe: (string, string) -> bool,
      source: seq<string> -> Fetched, c: Served<Lock>, lock: Lock, fault: Fault)
    requires Truthful(events, Direct(safe, source))
    requires forall e: Event<Lock, LoadError> | e in events && e.Get? :: |e.request| == 3 && ColonFree(e.request)
    requires c in Run(events).served && AnswerTo(Run(events), c).Some?
    ensures
      var answer, held := AnswerTo(Run(events), c).value, source(c.request);
      && (answer == Missing <==> held == NotFound || held == Failed)
      && (answer == Rejected(ParseError) <==> held == Unparseable)
      && (answer == Rejected(Invalid(fault)) <==> held.Found? && LockFault(held.lock, safe) == Some(fault))
      && (answer == Value(lock) <==> held == Found(lock) && LockFault(lock, safe) == None)
  {
    LockCacheIsTransparent(events, safe, source, c);
  }

  ghost function Direct(safe: (string, string) -> bool, source: seq<string> -> Fetched): seq<string> -> Answer<Lock, LoadError> {
    request => Judge(source(request), safe)
  }
}
