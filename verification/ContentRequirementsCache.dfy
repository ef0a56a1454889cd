/** The cache in front of fetching one source file at a ref. */
module ContentRequirementsCache {
  import opened Strings
  import opened CoalescingCache

  /** `present` with no bytes: the file exists but came without inline content. */
  datatype FileContent = FileContent(present: bool, bytes: Option<string>)

  datatype Fetched = Found(content: FileContent) | Failed

  datatype FetchError = FetchError

  /** What a fetch without a cache gives; absent files are entries like others. */
  function Judge(fetched: Fetched): Answer<FileContent, FetchError> {
    match fetched case Found(content) => Value(content) case Failed => Rejected(FetchError)
  }

  datatype Repo = Repo(owner: string, name: string)

  /** `owner/name`, cut at the first slash. */
  function SplitRepo(repo: string): Repo {
    if repo == "" then Repo("", "")
    else if repo[0] == '/' then Repo("", repo[1..])
    else var rest := SplitRepo(repo[1..]); Repo([repo[0]] + rest.owner, rest.name)
  }

  /** The owner never holds a slash, and the two parts make the identifier again. */
  lemma {:induction false} SplitRepoRejoins(repo: string)
    ensures '/' !in SplitRepo(repo).owner
    ensures repo == if '/' in repo then SplitRepo(repo).owner + "/" + SplitRepo(repo).name else SplitRepo(repo).owner
    ensures '/' !in repo ==> SplitRepo(repo).name == ""
  {
    if repo != "" && repo[0] != '/' {
      SplitRepoRejoins(repo[1..]);
      assert repo == [repo[0]] + repo[1..];
    }
  }

  class ContentRequirementsCache {
    var cache: map<string, FileContent>
    var inFlight: map<string, nat>
    var hits: nat
    var misses: nat
    /** The promises made so far, by the order they were made in. */
    var promises: seq<Fetch<FileContent, FetchError>>
    ghost var served: seq<Served<FileContent>>

    ghost function State(): Cache<FileContent, FetchError>
      reads this
    {
      Cache(cache, inFlight, hits, misses, promises, served)
    }

    constructor ()
      ensures State() == Initial()
    {
      cache, inFlight, hits, misses, promises, served := map[], map[], 0, 0, [], [];
    }

    method Get(provider: string, repo: string, sha: string, path: string) returns (way: Way<FileContent>)
      modifies this
      ensures State() == Step(old(State()), Event.Get([provider, repo, sha, path], true))
      ensures served == old(served) + [Served([provider, repo, sha, path], way)]
    {
      var request := [provider, repo, sha, path];
      var key := provider + [':'] + repo + [':'] + sha + [':'] + path;
      assert key == KeyOf(request) by { FourParts(provider, repo, sha, path); }
      if key in cache {
        hits := hits + 1;
        way := Hit(cache[key]);
      } else if key in inFlight {
        way := Joined(inFlight[key]);
      } else {
        misses := misses + 1;
        way := Began(|promises|);
        inFlight := inFlight[key := |promises|];
        promises := promises + [Fetch(request, Some(key), None, false)];
      }
      served := served + [Served(request, way)];
    }

    /** What runs once the provider has answered fetch `id`. */
    method FetchAndCache(id: nat, fetched: Fetched)
      requires Outstanding(State(), id) && promises[id].key.Some?
      modifies this
      ensures State() == Step(old(State()), Settle(id, Judge(fetched)))
    {
      var fetch := promises[id];
      match fetched {
        case Failed =>
          promises := promises[id := fetch.(answer := Some(Rejected(FetchError)))];
        case Found(content) =>
          var entry := FileContent(content.present, content.bytes);
          cache := cache[fetch.key.value := entry];
          promises := promises[id := fetch.(answer := Some(Value(entry)))];
      }
    }

    method Finally(id: nat)
      requires Clearable(State(), id)
      modifies this
      ensures State() == Step(old(State()), Event.Finally(id))
    {
      var fetch := promises[id];
      inFlight := inFlight - {fetch.key.value};
      promises := promises[id := fetch.(cleared := true)];
    }

    method Evict(key: string)
      modifies this
      ensures State() == Step(old(State()), Event.Evict(key))
    {
      cache := cache - {key};
    }
  }

  lemma FourParts(a: string, b: string, c: string, d: string)
    ensures KeyOf([a, b, c, d]) == a + [':'] + b + [':'] + c + [':'] + d
  {
    assert [a, b, c, d][1..] == [b, c, d] && [b, c, d][1..] == [c, d];
    TwoKey(c, d);
    assert KeyOf([b, c, d]) == b + [':'] + KeyOf([c, d]);
  }

  function Direct(source: (Repo, string, string) -> Fetched): seq<string> -> Answer<FileContent, FetchError> {
    request => if |request| == 4 then Judge(source(SplitRepo(request[1]), request[3], request[2])) else Missing
  }

  lemma {:induction false} SplitAtSlash(owner: string, name: string)
    requires '/' !in owner
    ensures SplitRepo(owner + "/" + name) == Repo(owner, name)
  {
    var repo := owner + "/" + name;
    if owner == "" {
      assert repo == "/" + name && repo[1..] == name;
    } else {
      assert repo[1..] == owner[1..] + "/" + name;
      SplitAtSlash(owner[1..], name);
      assert owner == [owner[0]] + owner[1..];
    }
  }

  /** What such a caller is answered: the entry the provider holds for that owner,
      name, path and commit, and an error only when the fetch fails. */
  lemma ContentAnswerSays(
      events: seq<Event<FileContent, FetchError>>, source: (Repo, string, string) -> Fetched, c: Served<FileContent>,
      provider: string, owner: string, name: string, sha: string, path: string, content: FileContent)
    requires Truthful(events, Direct(source))
    requires forall e: Event<FileContent, FetchError> | e in events && e.Get? :: |e.request| == 4 && ColonFree(e.request)
    requires c in Run(events).served && AnswerTo(Run(events), c).Some?
    requires '/' !in owner && c.request == [provider, owner + "/" + name, sha, path]
    ensures
      var answer, held := AnswerTo(Run(events), c).value, source(Repo(owner, name), path, sha);
      && (answer == Value(content) <==> held == Found(content))
      && (answer == Rejected(FetchError) <==> held == Failed)
      && answer != Missing
  {
    ContentCacheIsTransparent(events, source, c);
    SplitAtSlash(owner, name);
  }

  /** When what the provider holds is a function of the call made, and none but
      the path holds a colon, every caller is given what a direct call gives. */
  lemma ContentCacheIsTransparent(
      events: seq<Event<FileContent, FetchError>>, source: (Repo, string, string) -> Fetched, c: Served<FileContent>)
    requires Truthful(events, Direct(source))
    requires forall e: Event<FileContent, FetchError> | e in events && e.Get? :: |e.request| == 4 && ColonFree(e.request)
    requires c in Run(events).served && AnswerTo(Run(events), c).Some?
    ensures AnswerTo(Run(events), c) == Some(Direct(source)(c.request))
  {
    RequestsComeFromCalls(events, 4);
    ColonFreeRequestsAreToldApart(Run(events), 4);
    CachingIsTransparent(events, Direct(source), c);
  }
}
