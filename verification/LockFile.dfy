/** What a fetched lock file must satisfy before it is cached or dispatched. */
module LockFile {
  import opened Strings
  import opened LabelMatch

  const SCHEMA_VERSION: int := 44
  const BREAKING_FLOOR: int := 42

  datatype RunsOnAll = RunsOnAll(includes: Option<seq<seq<Json>>>, excludes: Option<seq<Json>>)

  datatype Job = Job(
    isStatic: bool,
    runsOn: Option<seq<Json>>,
    excludeLabels: Option<seq<Json>>,
    runsOnAll: Option<RunsOnAll>)

  datatype Workflow = Workflow(jobs: Option<seq<Job>>)

  datatype Lock = Lock(schemaVersion: real, minReaderVersion: Json, workflows: Option<seq<Workflow>>)

  datatype Fault = TooOld | NoReaderVersion | TooNew | BadMatcher | UnsafeRegex

  function OrEmpty<T>(xs: Option<seq<T>>): seq<T> {
    match xs case None => [] case Some(v) => v
  }

  // ----- The schema window.

  predicate IsInteger(x: real) {
    x.Floor as real == x
  }

  function SchemaFault(lock: Lock, readerVersion: real): Option<Fault> {
    if lock.schemaVersion < BREAKING_FLOOR as real then Some(TooOld)
    else
      var min := lock.minReaderVersion;
      if !min.Number? || !IsInteger(min.n) || min.n < 1.0 then Some(NoReaderVersion)
      else if readerVersion < min.n then Some(TooNew)
      else None
  }

  predicate AsksFor(lock: Lock, version: int) {
    lock.minReaderVersion == Number(version as real)
  }

  /** The window is two-sided: at or above the floor, and asking for a reader that
      is a whole version from 1 to this one. A lock outside it is too old, too new,
      or says no version that could be one. */
  lemma SchemaWindow(lock: Lock)
    ensures SchemaFault(lock, SCHEMA_VERSION as real) == None <==>
      && lock.schemaVersion >= 42.0
      && exists v :: 1 <= v <= 44 && AsksFor(lock, v)
    ensures SchemaFault(lock, SCHEMA_VERSION as real) == Some(TooOld) <==> lock.schemaVersion < 42.0
    ensures SchemaFault(lock, SCHEMA_VERSION as real) == Some(TooNew) <==>
      && lock.schemaVersion >= 42.0
      && exists v :: v > 44 && AsksFor(lock, v)
    ensures SchemaFault(lock, SCHEMA_VERSION as real) == Some(NoReaderVersion) <==>
      && lock.schemaVersion >= 42.0
      && forall v :: AsksFor(lock, v) ==> v < 1
  {
    if lock.minReaderVersion.Number? && IsInteger(lock.minReaderVersion.n) {
      assert AsksFor(lock, lock.minReaderVersion.n.Floor);
    }
    forall v | AsksFor(lock, v) ensures IsInteger(lock.minReaderVersion.n) && lock.minReaderVersion.n == v as real {
      assert (v as real).Floor == v;
    }
  }

  // ----- The matcher lists of a lock.

  /** The matcher lists of one static job, in the order they are walked. */
  function JobLists(job: Job): seq<seq<Json>> {
    (if job.runsOn.Some? then [job.runsOn.value] else [])
    + (if job.excludeLabels.Some? then [job.excludeLabels.value] else [])
    + match job.runsOnAll
      case None => []
      case Some(all) => OrEmpty(all.includes) + (if all.excludes.Some? then [all.excludes.value] else [])
  }

  /** A job's lists are the ones in its four fields: the include groups one by one. */
  lemma JobListsAre(job: Job, elements: seq<Json>)
    ensures elements in JobLists(job) <==>
      || job.runsOn == Some(elements)
      || job.excludeLabels == Some(elements)
      || (job.runsOnAll.Some? && job.runsOnAll.value.excludes == Some(elements))
      || (job.runsOnAll.Some? && job.runsOnAll.value.includes.Some? && elements in job.runsOnAll.value.includes.value)
  {
  }

  ghost predicate HoldsList(lock: Lock, elements: seq<Json>) {
    exists wf, job ::
      wf in OrEmpty(lock.workflows) && job in OrEmpty(wf.jobs) && job.isStatic && elements in JobLists(job)
  }

  ghost predicate AllLists(lock: Lock, good: seq<Json> -> bool) {
    forall wf, job, elements |
        wf in OrEmpty(lock.workflows) && job in OrEmpty(wf.jobs) && job.isStatic && elements in JobLists(job) ::
      good(elements)
  }

  predicate AllMatchers(elements: seq<Json>) {
    forall el | el in elements :: ParseMatcher(el).Some?
  }

  predicate ElementSafe(el: Json, safe: (string, string) -> bool) {
    var m := ParseMatcher(el);
    m.Some? && m.value.Regex? ==> safe(m.value.source, m.value.flags)
  }

  predicate AllSafe(elements: seq<Json>, safe: (string, string) -> bool) {
    forall el | el in elements :: ElementSafe(el, safe)
  }

  ghost function SafeList(safe: (string, string) -> bool): seq<Json> -> bool {
    elements => AllSafe(elements, safe)
  }

  method ElementsAreMatchers(elements: seq<Json>) returns (ok: bool)
    ensures ok <==> AllMatchers(elements)
  {
    for i := 0 to |elements|
      invariant AllMatchers(elements[..i])
    {
      if ParseMatcher(elements[i]).None? { return false; }
    }
    return true;
  }

  method MatchersSafe(elements: seq<Json>, safe: (string, string) -> bool) returns (ok: bool)
    ensures ok <==> AllSafe(elements, safe)
  {
    for i := 0 to |elements|
      invariant AllSafe(elements[..i], safe)
    {
      if !ElementSafe(elements[i], safe) { return false; }
    }
    return true;
  }

  method JobMatchersValid(job: Job) returns (ok: bool)
    ensures ok <==> forall elements | elements in JobLists(job) :: AllMatchers(elements)
  {
    ghost var lists := JobLists(job);
    if job.runsOn.Some? {
      assert job.runsOn.value in lists;
      ok := ElementsAreMatchers(job.runsOn.value);
      if !ok { return; }
    }
    if job.excludeLabels.Some? {
      assert job.excludeLabels.value in lists;
      ok := ElementsAreMatchers(job.excludeLabels.value);
      if !ok { return; }
    }
    if job.runsOnAll.Some? {
      var all := job.runsOnAll.value;
      var groups := OrEmpty(all.includes);
      for i := 0 to |groups|
        invariant forall g | g in groups[..i] :: AllMatchers(g)
      {
        assert groups[i] in lists;
        ok := ElementsAreMatchers(groups[i]);
        if !ok { return; }
      }
      assert groups[..|groups|] == groups;
      if all.excludes.Some? {
        assert all.excludes.value in lists;
        ok := ElementsAreMatchers(all.excludes.value);
        if !ok { return; }
      }
    }
    return true;
  }

  method JobRegexesSafe(job: Job, safe: (string, string) -> bool) returns (ok: bool)
    ensures ok <==> forall elements | elements in JobLists(job) :: SafeList(safe)(elements)
  {
    ghost var lists := JobLists(job);
    if job.runsOn.Some? {
      assert job.runsOn.value in lists;
      ok := MatchersSafe(job.runsOn.value, safe);
      if !ok { return; }
    }
    if job.excludeLabels.Some? {
      assert job.excludeLabels.value in lists;
      ok := MatchersSafe(job.excludeLabels.value, safe);
      if !ok { return; }
    }
    if job.runsOnAll.Some? {
      var all := job.runsOnAll.value;
      var groups := OrEmpty(all.includes);
      for i := 0 to |groups|
        invariant forall g | g in groups[..i] :: AllSafe(g, safe)
      {
        assert groups[i] in lists;
        ok := MatchersSafe(groups[i], safe);
        if !ok { return; }
      }
      assert groups[..|groups|] == groups;
      if all.excludes.Some? {
        assert all.excludes.value in lists;
        ok := MatchersSafe(all.excludes.value, safe);
        if !ok { return; }
      }
    }
    return true;
  }

  ghost predicate JobMeets(job: Job, good: seq<Json> -> bool) {
    job.isStatic ==> forall elements | elements in JobLists(job) :: good(elements)
  }

  ghost predicate WorkflowMeets(wf: Workflow, good: seq<Json> -> bool) {
    forall job | job in OrEmpty(wf.jobs) :: JobMeets(job, good)
  }

  lemma ListsByWorkflow(lock: Lock, good: seq<Json> -> bool)
    ensures AllLists(lock, good) <==> forall wf | wf in OrEmpty(lock.workflows) :: WorkflowMeets(wf, good)
  {
    if forall wf | wf in OrEmpty(lock.workflows) :: WorkflowMeets(wf, good) {
      forall wf, job, elements |
          wf in OrEmpty(lock.workflows) && job in OrEmpty(wf.jobs) && job.isStatic && elements in JobLists(job)
        ensures good(elements)
      {
        assert WorkflowMeets(wf, good) && JobMeets(job, good);
      }
    }
  }

  method WorkflowMatchersValid(wf: Workflow) returns (ok: bool)
    ensures ok <==> WorkflowMeets(wf, AllMatchers)
  {
    var jobs := OrEmpty(wf.jobs);
    for j := 0 to |jobs|
      invariant forall job | job in jobs[..j] :: JobMeets(job, AllMatchers)
    {
      if !jobs[j].isStatic { continue; }
      ok := JobMatchersValid(jobs[j]);
      if !ok {
        assert !JobMeets(jobs[j], AllMatchers);
        return;
      }
    }
    assert jobs[..|jobs|] == jobs;
    return true;
  }

  method WorkflowRegexesSafe(wf: Workflow, safe: (string, string) -> bool) returns (ok: bool)
    ensures ok <==> WorkflowMeets(wf, SafeList(safe))
  {
    var jobs := OrEmpty(wf.jobs);
    for j := 0 to |jobs|
      invariant forall job | job in jobs[..j] :: JobMeets(job, SafeList(safe))
    {
      if !jobs[j].isStatic { continue; }
      ok := JobRegexesSafe(jobs[j], safe);
      if !ok {
        assert !JobMeets(jobs[j], SafeList(safe));
        return;
      }
    }
    assert jobs[..|jobs|] == jobs;
    return true;
  }

  /** Static jobs alone are checked, and every list of each. */
  method MatchersValid(lock: Lock) returns (ok: bool)
    ensures ok <==> AllLists(lock, AllMatchers)
  {
    ok := WorkflowsMatchersValid(OrEmpty(lock.workflows));
    ListsByWorkflow(lock, AllMatchers);
  }

  method WorkflowsMatchersValid(workflows: seq<Workflow>) returns (ok: bool)
    ensures ok <==> forall wf | wf in workflows :: WorkflowMeets(wf, AllMatchers)
  {
    for i := 0 to |workflows|
      invariant forall wf | wf in workflows[..i] :: WorkflowMeets(wf, AllMatchers)
    {
      ok := WorkflowMatchersValid(workflows[i]);
      if !ok { return; }
    }
    assert workflows[..|workflows|] == workflows;
    return true;
  }

  method RegexesSafe(lock: Lock, safe: (string, string) -> bool) returns (ok: bool)
    ensures ok <==> AllLists(lock, SafeList(safe))
  {
    ok := WorkflowsRegexesSafe(OrEmpty(lock.workflows), safe);
    ListsByWorkflow(lock, SafeList(safe));
  }

  method WorkflowsRegexesSafe(workflows: seq<Workflow>, safe: (string, string) -> bool) returns (ok: bool)
    ensures ok <==> forall wf | wf in workflows :: WorkflowMeets(wf, SafeList(safe))
  {
    for i := 0 to |workflows|
      invariant forall wf | wf in workflows[..i] :: WorkflowMeets(wf, SafeList(safe))
    {
      ok := WorkflowRegexesSafe(workflows[i], safe);
      if !ok { return; }
    }
    assert workflows[..|workflows|] == workflows;
    return true;
  }

  /** The first check a lock fails, in the order they are made. */
  ghost function LockFault(lock: Lock, safe: (string, string) -> bool): Option<Fault> {
    var schema := SchemaFault(lock, SCHEMA_VERSION as real);
    if schema.Some? then schema
    else if !AllLists(lock, AllMatchers) then Some(BadMatcher)
    else if !AllLists(lock, SafeList(safe)) then Some(UnsafeRegex)
    else None
  }

  method Validate(lock: Lock, safe: (string, string) -> bool) returns (fault: Option<Fault>)
    ensures fault == LockFault(lock, safe)
  {
    fault := SchemaFault(lock, SCHEMA_VERSION as real);
    if fault.Some? { return; }
    var valid := MatchersValid(lock);
    if !valid { return Some(BadMatcher); }
    var areSafe := RegexesSafe(lock, safe);
    return if areSafe then None else Some(UnsafeRegex);
  }

  /** A matcher list of some static job, told by the fields it stands in. */
  ghost predicate StaticList(lock: Lock, elements: seq<Json>) {
    exists wf, job ::
      && lock.workflows.Some? && wf in lock.workflows.value
      && wf.jobs.Some? && job in wf.jobs.value && job.isStatic
      && (|| job.runsOn == Some(elements) || job.excludeLabels == Some(elements)
          || (job.runsOnAll.Some? && job.runsOnAll.value.excludes == Some(elements))
          || (job.runsOnAll.Some? && job.runsOnAll.value.includes.Some?
              && elements in job.runsOnAll.value.includes.value))
  }

  lemma StaticLists(lock: Lock, elements: seq<Json>)
    ensures StaticList(lock, elements) <==> HoldsList(lock, elements)
  {
    if StaticList(lock, elements) {
      var wf, job :|
        && lock.workflows.Some? && wf in lock.workflows.value
        && wf.jobs.Some? && job in wf.jobs.value && job.isStatic
        && (|| job.runsOn == Some(elements) || job.excludeLabels == Some(elements)
            || (job.runsOnAll.Some? && job.runsOnAll.value.excludes == Some(elements))
            || (job.runsOnAll.Some? && job.runsOnAll.value.includes.Some?
                && elements in job.runsOnAll.value.includes.value));
      JobListsAre(job, elements);
      assert wf in OrEmpty(lock.workflows) && job in OrEmpty(wf.jobs) && elements in JobLists(job);
    }
    if HoldsList(lock, elements) {
      var wf, job :| wf in OrEmpty(lock.workflows) && job in OrEmpty(wf.jobs) && job.isStatic && elements in JobLists(job);
      JobListsAre(job, elements);
      assert lock.workflows.Some? && wf.jobs.Some?;
    }
  }

  ghost predicate EveryStaticList(lock: Lock, good: seq<Json> -> bool) {
    forall elements | StaticList(lock, elements) :: good(elements)
  }

  lemma AllStaticLists(lock: Lock, good: seq<Json> -> bool)
    ensures AllLists(lock, good) <==> EveryStaticList(lock, good)
  {
    if AllLists(lock, good) {
      forall elements | StaticList(lock, elements) ensures good(elements) {
        StaticLists(lock, elements);
      }
    }
    if EveryStaticList(lock, good) {
      forall wf, job, elements |
          wf in OrEmpty(lock.workflows) && job in OrEmpty(wf.jobs) && job.isStatic && elements in JobLists(job)
        ensures good(elements)
      {
        assert HoldsList(lock, elements);
        StaticLists(lock, elements);
      }
    }
  }

  ghost predicate BadElement(lock: Lock, elements: seq<Json>, el: Json) {
    StaticList(lock, elements) && el in elements && ParseMatcher(el).None?
  }

  ghost predicate UnsafeElement(
      lock: Lock, elements: seq<Json>, el: Json, source: string, flags: string, safe: (string, string) -> bool)
  {
    && StaticList(lock, elements) && el in elements
    && ParseMatcher(el) == Some(Regex(source, flags)) && !safe(source, flags)
  }

  /** Once the window is met, a lock has a bad matcher exactly when some list of a
      static job holds an element that is none; failing that, an unsafe regex exactly
      when some such list holds one; and otherwise it is valid. */
  lemma FaultsAreFound(lock: Lock, safe: (string, string) -> bool)
    requires SchemaFault(lock, SCHEMA_VERSION as real) == None
    ensures LockFault(lock, safe) ==
      if exists elements, el :: BadElement(lock, elements, el) then Some(BadMatcher)
      else if exists elements, el, source, flags :: UnsafeElement(lock, elements, el, source, flags, safe)
      then Some(UnsafeRegex)
      else None
  {
    AllStaticLists(lock, AllMatchers);
    AllStaticLists(lock, SafeList(safe));
    BadIsFound(lock);
    UnsafeIsFound(lock, safe);
  }

  lemma BadIsFound(lock: Lock)
    ensures EveryStaticList(lock, AllMatchers) <==> !exists elements, el :: BadElement(lock, elements, el)
  {
    if !EveryStaticList(lock, AllMatchers) {
      var elements :| StaticList(lock, elements) && !AllMatchers(elements);
      var el :| el in elements && ParseMatcher(el).None?;
      assert BadElement(lock, elements, el);
    }
    if elements, el :| BadElement(lock, elements, el) {
      assert !AllMatchers(elements);
    }
  }

  lemma UnsafeIsFound(lock: Lock, safe: (string, string) -> bool)
    ensures EveryStaticList(lock, SafeList(safe)) <==>
              !exists elements, el, source, flags :: UnsafeElement(lock, elements, el, source, flags, safe)
  {
    if !EveryStaticList(lock, SafeList(safe)) {
      var elements :| StaticList(lock, elements) && !SafeList(safe)(elements);
      var el :| el in elements && !ElementSafe(el, safe);
      var m := ParseMatcher(el).value;
      assert UnsafeElement(lock, elements, el, m.source, m.flags, safe);
    }
    if elements, el, source, flags :| UnsafeElement(lock, elements, el, source, flags, safe) {
      assert !ElementSafe(el, safe) && !SafeList(safe)(elements);
    }
  }

  /** The splitter throws on no matcher list of a static job. */
  ghost predicate Routes(lock: Lock) {
    forall elements | HoldsList(lock, elements) :: AllAccepted(elements)
  }

  /** A lock that passes validation routes, and the splitter takes each element for
      the matcher the schema takes it for. */
  lemma ValidLocksRoute(lock: Lock, safe: (string, string) -> bool, e: Engine)
    requires LockFault(lock, safe) == None
    ensures Routes(lock)
    ensures forall elements, el | HoldsList(lock, elements) && el in elements ::
      ParseMatcher(el) == Some(SplitterReads(e, el))
  {
    forall elements, el | HoldsList(lock, elements) && el in elements
      ensures SplitterAccepts(el) && ParseMatcher(el) == Some(SplitterReads(e, el))
    {
      assert AllMatchers(elements);
      ValidElementsSplit(e, el);
    }
  }

  /** Validation is needed: a lock whose static job asks for a `regex` with no
      source routes, as a job for any host, and only validation refuses it. */
  lemma RoutingAloneIsNotEnough(safe: (string, string) -> bool)
    ensures
      var element := Object(map["kind" := String("regex")]);
      var job := Job(true, Some([element]), None, None);
      var lock := Lock(44.0, Number(44.0), Some([Workflow(Some([job]))]));
      Routes(lock) && LockFault(lock, safe) == Some(BadMatcher)
  {
    var element := Object(map["kind" := String("regex")]);
    var job := Job(true, Some([element]), None, None);
    var wf := Workflow(Some([job]));
    var lock := Lock(44.0, Number(44.0), Some([wf]));
    assert "flags"[0] != "kind"[0] && "exact"[0] != "regex"[0] && "source"[0] != "kind"[0];
    assert SplitterAccepts(element) && ParseMatcher(element).None?;
    assert JobLists(job) == [[element]];
    assert wf in OrEmpty(lock.workflows) && job in OrEmpty(wf.jobs) && [element] in JobLists(job);
    assert element in [element] && !AllMatchers([element]);
    assert IsInteger(44.0) by { assert (44.0).Floor == 44; }
  }
}
