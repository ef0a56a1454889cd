/** The agent's job acceptance and idle shutdown, as a machine whose steps are
    the handlers: each runs to its end before another begins. */
module AgentServer {
  import opened Strings
  import opened IdleShutdown

  datatype Config = Config(scalerManaged: bool, singleJob: bool, idleTimeoutMs: int, drainOnResetFailure: bool)

  /** One accepted dispatch. A job is `Starting` from its ack until the runner has
      prepared its directory and credentials and entered it in `activeJobs`, and
      `Finishing` from its removal until the between-jobs work is over. */
  datatype Phase = Starting | Active | Finishing | Done

  datatype Execution = Execution(jobId: string, phase: Phase)

  datatype Reason = Draining | Busy

  datatype Message = Ack(jobId: string) | Reject(jobId: string, reason: Reason)

  /** The timer variable, and the timers set and neither fired nor cleared. */
  datatype Timers = Timers(variable: Option<nat>, pending: set<nat>, next: nat)

  datatype Jobs = Jobs(activeJobs: set<string>, executions: seq<Execution>)

  /** The connection: whether this registration has been told that the agent
      drains, whether its ack was warm, and whether a job has finished since. */
  datatype Link = Link(registered: bool, told: bool, lastAckWarm: bool, finishedSince: bool)

  datatype Agent = Agent(
    isDraining: bool,
    servedJob: bool,
    shuttingDown: bool,
    drainChecks: nat,
    timers: Timers,
    jobs: Jobs,
    link: Link,
    sent: seq<Message>)

  datatype Event =
    | Dispatch(jobId: string)
    | Started(id: nat)
    | StartFailed(id: nat, dirty: bool)
    | Ended(id: nat)
    | Completed(id: nat, dirty: bool)
    | Registered(pending: bool, warm: bool)
    | Disconnected
    | TimerFires(timer: nat)
    | Sigusr1
    | DrainTick
    | Stop

  function Initial(): Agent {
    Agent(false, false, false, 0, Timers(None, {}, 0), Jobs({}, []), Link(false, false, false, false), [])
  }

  function SendAgentStatus(s: Agent): Agent {
    s.(link := s.link.(told := s.link.told || (s.link.registered && s.isDraining)))
  }

  function Cleared(t: Timers): Timers {
    t.(pending := if t.variable.Some? then t.pending - {t.variable.value} else t.pending)
  }

  function Armed(t: Timers): Timers {
    Timers(Some(t.next), Cleared(t).pending + {t.next}, t.next + 1)
  }

  /** The first trigger drains at once; later ones are ignored. */
  function GracefulShutdown(s: Agent): (t: Agent)
    ensures t.jobs == s.jobs && t.sent == s.sent
  {
    s.(shuttingDown := true, isDraining := s.isDraining || !s.shuttingDown)
  }

  function StartIdleShutdownTimer(cfg: Config, s: Agent): (t: Agent)
    ensures t.jobs == s.jobs && t.sent == s.sent
  {
    if IdleShutdownDelayMs(cfg.idleTimeoutMs, cfg.singleJob, s.servedJob) <= 0
    then GracefulShutdown(s.(timers := Cleared(s.timers)))
    else s.(timers := Armed(s.timers))
  }

  predicate Accepts(s: Agent) {
    !s.isDraining && s.jobs.activeJobs == {}
  }

  function OnDispatch(cfg: Config, s: Agent, jobId: string): Agent {
    if !Accepts(s) then
      SendAgentStatus(s.(sent := s.sent + [Reject(jobId, if s.isDraining then Draining else Busy)]))
    else
      var acked := s.(
        timers := Cleared(s.timers).(variable := None),
        sent := s.sent + [Ack(jobId)],
        jobs := s.jobs.(executions := s.jobs.executions + [Execution(jobId, Starting)]));
      if cfg.singleJob then SendAgentStatus(acked.(servedJob := true, isDraining := true)) else acked
  }

  predicate InPhase(s: Agent, id: nat, phase: Phase) {
    id < |s.jobs.executions| && s.jobs.executions[id].phase == phase
  }

  function Enter(j: Jobs, id: nat, phase: Phase): Jobs
    requires id < |j.executions|
  {
    j.(executions := j.executions[id := j.executions[id].(phase := phase)])
  }

  function OnStarted(s: Agent, id: nat): Agent
    requires InPhase(s, id, Starting)
  {
    s.(jobs := Enter(s.jobs, id, Active).(activeJobs := s.jobs.activeJobs + {s.jobs.executions[id].jobId}))
  }

  function OnEnded(s: Agent, id: nat): Agent
    requires InPhase(s, id, Active)
  {
    s.(jobs := Enter(s.jobs, id, Finishing).(activeJobs := s.jobs.activeJobs - {s.jobs.executions[id].jobId}))
  }

  function Noted(cfg: Config, s: Agent, id: nat, dirty: bool): Agent
    requires id < |s.jobs.executions|
  {
    SendAgentStatus(s.(
      jobs := Enter(s.jobs, id, Done),
      isDraining := s.isDraining || (cfg.drainOnResetFailure && dirty),
      link := s.link.(finishedSince := s.link.finishedSince || s.link.registered)))
  }

  /** The handler that runs when an execution's promise settles. */
  function OnCompletion(cfg: Config, s: Agent, id: nat, dirty: bool): (t: Agent)
    requires id < |s.jobs.executions|
    ensures t.jobs == Enter(s.jobs, id, Done) && t.sent == s.sent
  {
    var noted := Noted(cfg, s, id, dirty);
    if cfg.scalerManaged && s.jobs.activeJobs == {} && s.link.registered then StartIdleShutdownTimer(cfg, noted)
    else noted
  }

  /** A new registration is told again that the agent drains. */
  function Reintroduced(s: Agent, warm: bool): Agent {
    SendAgentStatus(s.(link := Link(true, false, warm, false)))
  }

  function OnRegistered(cfg: Config, s: Agent, pending: bool, warm: bool): (t: Agent)
    ensures t.jobs == s.jobs && t.sent == s.sent
  {
    var back := Reintroduced(s, warm);
    match DecideIdleShutdown(cfg.scalerManaged, |s.jobs.activeJobs|, pending, warm, cfg.singleJob && s.servedJob)
    case Nothing => back
    case Warm => back.(timers := Cleared(s.timers).(variable := None))
    case PendingDispatch => back.(timers := Armed(s.timers))
    case Idle => StartIdleShutdownTimer(cfg, back)
  }

  function OnTimer(s: Agent, timer: nat): (t: Agent)
    ensures t.jobs == s.jobs && t.sent == s.sent
  {
    var fired := s.(timers := s.timers.(pending := s.timers.pending - {timer}));
    if s.jobs.activeJobs == {} then GracefulShutdown(fired) else fired
  }

  function OnSigusr1(s: Agent): (t: Agent)
    ensures t.jobs == s.jobs && t.sent == s.sent
  {
    var drained := SendAgentStatus(s.(isDraining := true));
    if s.jobs.activeJobs == {} then GracefulShutdown(drained) else drained.(drainChecks := s.drainChecks + 1)
  }

  function OnDrainTick(s: Agent): (t: Agent)
    ensures t.jobs == s.jobs && t.sent == s.sent
  {
    if s.drainChecks > 0 && s.jobs.activeJobs == {} then GracefulShutdown(s.(drainChecks := s.drainChecks - 1)) else s
  }

  function Step(cfg: Config, s: Agent, e: Event): Agent {
    match e
    case Dispatch(jobId) => OnDispatch(cfg, s, jobId)
    case Started(id) => if InPhase(s, id, Starting) then OnStarted(s, id) else s
    case StartFailed(id, dirty) => if InPhase(s, id, Starting) then OnCompletion(cfg, s, id, dirty) else s
    case Ended(id) => if InPhase(s, id, Active) then OnEnded(s, id) else s
    case Completed(id, dirty) => if InPhase(s, id, Finishing) then OnCompletion(cfg, s, id, dirty) else s
    case Registered(pending, warm) => OnRegistered(cfg, s, pending, warm)
    case Disconnected => s.(link := s.link.(registered := false, told := false))
    case TimerFires(timer) => if timer in s.timers.pending then OnTimer(s, timer) else s
    case Sigusr1 => OnSigusr1(s)
    case DrainTick => OnDrainTick(s)
    case Stop => GracefulShutdown(s)
  }

  function Run(cfg: Config, events: seq<Event>): Agent {
    if events == [] then Initial() else Step(cfg, Run(cfg, events[..|events| - 1]), events[|events| - 1])
  }

  // ----- What a step does to the jobs, to the messages and to the flags.

  predicate JobInPhase(j: Jobs, id: nat, phase: Phase) {
    id < |j.executions| && j.executions[id].phase == phase
  }

  /** The part of a step that concerns the jobs: it depends on nothing else but
      whether the agent accepts work. */
  function JobsAfter(j: Jobs, accepts: bool, e: Event): Jobs {
    match e
    case Dispatch(jobId) => if accepts then j.(executions := j.executions + [Execution(jobId, Starting)]) else j
    case Started(id) =>
      if JobInPhase(j, id, Starting)
      then Enter(j, id, Active).(activeJobs := j.activeJobs + {j.executions[id].jobId}) else j
    case StartFailed(id, dirty) => if JobInPhase(j, id, Starting) then Enter(j, id, Done) else j
    case Ended(id) =>
      if JobInPhase(j, id, Active)
      then Enter(j, id, Finishing).(activeJobs := j.activeJobs - {j.executions[id].jobId}) else j
    case Completed(id, dirty) => if JobInPhase(j, id, Finishing) then Enter(j, id, Done) else j
    case Registered(pending, warm) => j
    case Disconnected => j
    case TimerFires(timer) => j
    case Sigusr1 => j
    case DrainTick => j
    case Stop => j
  }

  lemma StepJobs(cfg: Config, s: Agent, e: Event)
    ensures Step(cfg, s, e).jobs == JobsAfter(s.jobs, Accepts(s), e)
  {
  }

  /** A dispatch is answered at once by one message about its own job, an ack
      exactly when the agent neither drains nor holds an active job; no other
      event answers anything. */
  lemma StepAnswers(cfg: Config, s: Agent, e: Event)
    ensures Step(cfg, s, e).sent ==
      if !e.Dispatch? then s.sent
      else if s.isDraining then s.sent + [Reject(e.jobId, Draining)]
      else if s.jobs.activeJobs != {} then s.sent + [Reject(e.jobId, Busy)]
      else s.sent + [Ack(e.jobId)]
  {
  }

  /** Draining, having served and shutting down do not revert from `s` to `t`;
      `served` says whether a job is taken up that the agent will not outlive. */
  predicate FlagsMove(s: Agent, t: Agent, served: bool) {
    && (s.isDraining ==> t.isDraining)
    && (s.shuttingDown ==> t.shuttingDown)
    && t.servedJob == (s.servedJob || served)
    && (t.servedJob ==> s.servedJob || t.isDraining)
  }

  lemma CompletionFlags(cfg: Config, s: Agent, id: nat, dirty: bool)
    requires id < |s.jobs.executions|
    ensures FlagsMove(s, OnCompletion(cfg, s, id, dirty), false)
  {
  }

  lemma RegistrationFlags(cfg: Config, s: Agent, pending: bool, warm: bool)
    ensures FlagsMove(s, OnRegistered(cfg, s, pending, warm), false)
  {
  }

  lemma OtherFlags(cfg: Config, s: Agent, e: Event)
    requires !e.Registered? && !e.StartFailed? && !e.Completed?
    ensures FlagsMove(s, Step(cfg, s, e), cfg.singleJob && e.Dispatch? && Accepts(s))
  {
  }

  /** Draining, having served and shutting down never revert. */
  lemma StepFlags(cfg: Config, s: Agent, e: Event)
    ensures FlagsMove(s, Step(cfg, s, e), cfg.singleJob && e.Dispatch? && Accepts(s))
  {
    match e
    case StartFailed(id, dirty) => if InPhase(s, id, Starting) { CompletionFlags(cfg, s, id, dirty); }
    case Completed(id, dirty) => if InPhase(s, id, Finishing) { CompletionFlags(cfg, s, id, dirty); }
    case Registered(pending, warm) => RegistrationFlags(cfg, s, pending, warm);
    case _ => OtherFlags(cfg, s, e);
  }

  // ----- Answers to dispatches.

  function Dispatched(events: seq<Event>): seq<string> {
    if events == [] then []
    else
      var e := events[|events| - 1];
      Dispatched(events[..|events| - 1]) + (if e.Dispatch? then [e.jobId] else [])
  }

  function Answered(sent: seq<Message>): seq<string> {
    if sent == [] then [] else Answered(sent[..|sent| - 1]) + [sent[|sent| - 1].jobId]
  }

  function Acked(sent: seq<Message>): seq<string> {
    if sent == [] then []
    else
      var m := sent[|sent| - 1];
      Acked(sent[..|sent| - 1]) + (if m.Ack? then [m.jobId] else [])
  }

  function JobsOf(executions: seq<Execution>): (r: seq<string>)
    ensures |r| == |executions|
  {
    if executions == [] then []
    else JobsOf(executions[..|executions| - 1]) + [executions[|executions| - 1].jobId]
  }

  lemma {:induction false} SameJobs(a: seq<Execution>, b: seq<Execution>)
    requires |a| == |b| && forall i | 0 <= i < |a| :: a[i].jobId == b[i].jobId
    ensures JobsOf(a) == JobsOf(b)
  {
    if a != [] {
      SameJobs(a[..|a| - 1], b[..|b| - 1]);
    }
  }

  lemma SentOneMore(sent: seq<Message>, m: Message)
    ensures Answered(sent + [m]) == Answered(sent) + [m.jobId]
    ensures Acked(sent + [m]) == if m.Ack? then Acked(sent) + [m.jobId] else Acked(sent)
  {
    assert (sent + [m])[..|sent|] == sent;
  }

  lemma JobsOfAfter(j: Jobs, accepts: bool, e: Event)
    ensures JobsOf(JobsAfter(j, accepts, e).executions) ==
            if e.Dispatch? && accepts then JobsOf(j.executions) + [e.jobId] else JobsOf(j.executions)
  {
    var k := JobsAfter(j, accepts, e);
    if e.Dispatch? && accepts {
      assert k.executions[..|j.executions|] == j.executions;
    } else {
      SameJobs(j.executions, k.executions);
    }
  }

  /** Over any run the messages sent answer the dispatches received, one each and
      in order, and the executions begun are the jobs acked. */
  lemma {:induction false} EveryDispatchIsAnsweredOnce(cfg: Config, events: seq<Event>)
    ensures Answered(Run(cfg, events).sent) == Dispatched(events)
    ensures JobsOf(Run(cfg, events).jobs.executions) == Acked(Run(cfg, events).sent)
  {
    if events != [] {
      var before, e := events[..|events| - 1], events[|events| - 1];
      EveryDispatchIsAnsweredOnce(cfg, before);
      var s := Run(cfg, before);
      StepAnswers(cfg, s, e);
      StepJobs(cfg, s, e);
      JobsOfAfter(s.jobs, Accepts(s), e);
      if e.Dispatch? {
        SentOneMore(s.sent, Step(cfg, s, e).sent[|s.sent|]);
      }
    }
  }

  // ----- Draining, and single-job agents.

  ghost predicate Later(s: Agent, t: Agent) {
    && (s.isDraining ==> t.isDraining && Acked(t.sent) == Acked(s.sent))
    && (s.shuttingDown ==> t.shuttingDown)
  }

  lemma StepIsLater(cfg: Config, s: Agent, t: Agent, e: Event)
    requires Later(s, t)
    ensures Later(s, Step(cfg, t, e))
  {
    StepFlags(cfg, t, e);
    StepAcks(cfg, t, e);
  }

  /** Draining and shutdown never revert, and once draining nothing is accepted
      again, whatever happens. */
  lemma {:induction false} DrainingNeverReverts(cfg: Config, events: seq<Event>, n: nat)
    requires n <= |events|
    ensures Later(Run(cfg, events[..n]), Run(cfg, events))
  {
    var last := |events| - 1;
    if n == |events| {
      assert events[..n] == events;
    } else {
      assert events[..last][..n] == events[..n];
      DrainingNeverReverts(cfg, events[..last], n);
      StepIsLater(cfg, Run(cfg, events[..n]), Run(cfg, events[..last]), events[last]);
    }
  }

  lemma StepAcks(cfg: Config, s: Agent, e: Event)
    ensures s.isDraining ==> Acked(Step(cfg, s, e).sent) == Acked(s.sent)
  {
    StepAnswers(cfg, s, e);
    if e.Dispatch? && s.isDraining {
      SentOneMore(s.sent, Reject(e.jobId, Draining));
    }
  }

  /** A single-job agent accepts at most one dispatch in its lifetime, across any
      disconnects and registrations. */
  lemma {:induction false} SingleJobAcceptsOnce(cfg: Config, events: seq<Event>)
    requires cfg.singleJob
    ensures |Acked(Run(cfg, events).sent)| == (if Run(cfg, events).servedJob then 1 else 0)
    ensures Run(cfg, events).servedJob ==> Run(cfg, events).isDraining
  {
    if events != [] {
      var before, e := events[..|events| - 1], events[|events| - 1];
      SingleJobAcceptsOnce(cfg, before);
      var s := Run(cfg, before);
      StepAnswers(cfg, s, e);
      StepFlags(cfg, s, e);
      if e.Dispatch? {
        SentOneMore(s.sent, Step(cfg, s, e).sent[|s.sent|]);
      }
    }
  }

  // ----- The timer, and what is known of `activeJobs`.

  ghost predicate OneTimer(t: Timers) {
    && (forall x | x in t.pending :: t.variable == Some(x))
    && (t.variable.Some? ==> t.variable.value < t.next)
  }

  predicate Waits(cfg: Config, s: Agent) {
    IdleShutdownDelayMs(cfg.idleTimeoutMs, cfg.singleJob, s.servedJob) > 0
  }

  /** The handler of `e` will arm a timer: the agent is scaler-managed and sees no
      active job, and it registers without being warm or served, or learns while
      registered that an execution is over, and has some time to wait. */
  predicate WillArm(cfg: Config, s: Agent, e: Event) {
    cfg.scalerManaged && s.jobs.activeJobs == {} &&
    match e
    case Registered(pending, warm) =>
      !(cfg.singleJob && s.servedJob) && !warm && (pending || Waits(cfg, s))
    case StartFailed(id, _) => InPhase(s, id, Starting) && s.link.registered && Waits(cfg, s)
    case Completed(id, _) => InPhase(s, id, Finishing) && s.link.registered && Waits(cfg, s)
    case _ => false
  }

  /** What can become of the timers: left alone, cleared, or cleared and forgotten. */
  predicate NotArmed(t: Timers, u: Timers) {
    u == t || u == Cleared(t) || u == Cleared(t).(variable := None)
  }

  lemma CompletionTimers(cfg: Config, s: Agent, id: nat, dirty: bool)
    requires id < |s.jobs.executions|
    ensures
      var arms := cfg.scalerManaged && s.jobs.activeJobs == {} && s.link.registered && Waits(cfg, s);
      var u := OnCompletion(cfg, s, id, dirty).timers;
      if arms then u == Armed(s.timers) else NotArmed(s.timers, u)
  {
  }

  lemma RegistrationTimers(cfg: Config, s: Agent, pending: bool, warm: bool)
    ensures
      var u := OnRegistered(cfg, s, pending, warm).timers;
      if WillArm(cfg, s, Registered(pending, warm)) then u == Armed(s.timers) else NotArmed(s.timers, u)
  {
  }

  /** A step arms a timer exactly when its handler will, which only a scaler-managed
      agent's does; otherwise the timers are left alone or cleared, an accepted
      dispatch clearing them, or the one that is due fires. */
  lemma StepTimers(cfg: Config, s: Agent, e: Event)
    ensures
      var t := Step(cfg, s, e).timers;
      if WillArm(cfg, s, e) then t == Armed(s.timers)
      else if e.TimerFires? then t == s.timers.(pending := s.timers.pending - {e.timer})
      else if e.Dispatch? && Accepts(s) then t == Cleared(s.timers).(variable := None)
      else NotArmed(s.timers, t)
  {
    match e
    case StartFailed(id, dirty) => if InPhase(s, id, Starting) { CompletionTimers(cfg, s, id, dirty); }
    case Completed(id, dirty) => if InPhase(s, id, Finishing) { CompletionTimers(cfg, s, id, dirty); }
    case Registered(pending, warm) => RegistrationTimers(cfg, s, pending, warm);
    case TimerFires(timer) =>
      assert timer !in s.timers.pending ==> s.timers.pending - {timer} == s.timers.pending;
    case _ =>
  }

  /** Every name in `activeJobs` belongs to a job that is active. */
  ghost predicate NamesAreActive(j: Jobs) {
    forall name | name in j.activeJobs :: Execution(name, Active) in j.executions
  }

  lemma StepKeepsNames(j: Jobs, accepts: bool, e: Event)
    requires NamesAreActive(j)
    ensures NamesAreActive(JobsAfter(j, accepts, e))
  {
    var k := JobsAfter(j, accepts, e);
    forall name | name in k.activeJobs ensures Execution(name, Active) in k.executions {
      if name in j.activeJobs {
        var i :| 0 <= i < |j.executions| && j.executions[i] == Execution(name, Active);
        assert k.executions[i] == Execution(name, Active);
      } else {
        assert k.executions[e.id] == Execution(name, Active);
      }
    }
  }

  lemma {:induction false} RunKeepsTimer(cfg: Config, events: seq<Event>)
    ensures OneTimer(Run(cfg, events).timers) && NamesAreActive(Run(cfg, events).jobs)
    ensures Run(cfg, events).timers.pending != {} ==> cfg.scalerManaged
  {
    if events != [] {
      var before, e := events[..|events| - 1], events[|events| - 1];
      RunKeepsTimer(cfg, before);
      StepTimers(cfg, Run(cfg, before), e);
      StepJobs(cfg, Run(cfg, before), e);
      StepKeepsNames(Run(cfg, before).jobs, Accepts(Run(cfg, before)), e);
    }
  }

  /** At most one idle timer is pending, only a scaler-managed agent has one, and
      the handlers can still cancel it. */
  lemma AtMostOneTimer(cfg: Config, events: seq<Event>)
    ensures |Run(cfg, events).timers.pending| <= 1
    ensures Run(cfg, events).timers.pending != {} ==>
      cfg.scalerManaged && Cleared(Run(cfg, events).timers).pending == {}
  {
    RunKeepsTimer(cfg, events);
    var t := Run(cfg, events).timers;
    if t.pending != {} {
      assert t.pending == {t.variable.value};
    }
  }

  /** Only an explicit stop begins a shutdown while `activeJobs` holds a job. */
  lemma ShutdownNeedsNoActiveJobs(cfg: Config, s: Agent, e: Event)
    requires !s.shuttingDown && Step(cfg, s, e).shuttingDown && e != Stop
    ensures s.jobs.activeJobs == {} == Step(cfg, s, e).jobs.activeJobs
  {
  }

  // ----- When shutdown begins, when draining does, and what that means for dispatches.

  /** There is no time to wait: the one job is served, or the timeout is not positive. */
  predicate Expires(cfg: Config, s: Agent) {
    (cfg.singleJob && s.servedJob) || cfg.idleTimeoutMs <= 0
  }

  /** What makes an agent that holds no active job shut down. */
  predicate CallsForShutdown(cfg: Config, s: Agent, e: Event) {
    match e
    case Sigusr1 => true
    case DrainTick => s.drainChecks > 0
    case TimerFires(timer) => timer in s.timers.pending
    case StartFailed(id, _) => InPhase(s, id, Starting) && cfg.scalerManaged && s.link.registered && Expires(cfg, s)
    case Completed(id, _) => InPhase(s, id, Finishing) && cfg.scalerManaged && s.link.registered && Expires(cfg, s)
    case Registered(pending, warm) =>
      cfg.scalerManaged && ((cfg.singleJob && s.servedJob) || (!warm && !pending && cfg.idleTimeoutMs <= 0))
    case _ => false
  }

  lemma CompletionShutsDown(cfg: Config, s: Agent, id: nat, dirty: bool)
    requires id < |s.jobs.executions|
    ensures OnCompletion(cfg, s, id, dirty).shuttingDown <==>
      s.shuttingDown || (s.jobs.activeJobs == {} && cfg.scalerManaged && s.link.registered && Expires(cfg, s))
  {
  }

  lemma RegistrationShutsDown(cfg: Config, s: Agent, pending: bool, warm: bool)
    ensures OnRegistered(cfg, s, pending, warm).shuttingDown <==>
      s.shuttingDown || (s.jobs.activeJobs == {} && CallsForShutdown(cfg, s, Registered(pending, warm)))
  {
  }

  /** Shutdown begins exactly when it is asked for, or when an agent that holds no
      active job is given one of those reasons. */
  lemma ShutdownBegins(cfg: Config, s: Agent, e: Event)
    ensures Step(cfg, s, e).shuttingDown <==>
      s.shuttingDown || e == Stop || (s.jobs.activeJobs == {} && CallsForShutdown(cfg, s, e))
  {
    match e
    case StartFailed(id, dirty) => if InPhase(s, id, Starting) { CompletionShutsDown(cfg, s, id, dirty); }
    case Completed(id, dirty) => if InPhase(s, id, Finishing) { CompletionShutsDown(cfg, s, id, dirty); }
    case Registered(pending, warm) => RegistrationShutsDown(cfg, s, pending, warm);
    case _ =>
  }

  /** What makes an agent drain besides shutting down: being asked to, taking the one
      job it is for, or a workspace that could not be reset. */
  predicate CallsForDrain(cfg: Config, s: Agent, e: Event) {
    match e
    case Sigusr1 => true
    case Dispatch(_) => cfg.singleJob && s.jobs.activeJobs == {}
    case StartFailed(id, dirty) => InPhase(s, id, Starting) && cfg.drainOnResetFailure && dirty
    case Completed(id, dirty) => InPhase(s, id, Finishing) && cfg.drainOnResetFailure && dirty
    case _ => false
  }

  lemma CompletionDrains(cfg: Config, s: Agent, id: nat, dirty: bool)
    requires id < |s.jobs.executions|
    ensures
      var t := OnCompletion(cfg, s, id, dirty);
      t.isDraining <==> s.isDraining || (cfg.drainOnResetFailure && dirty) || (t.shuttingDown && !s.shuttingDown)
  {
  }

  lemma RegistrationDrains(cfg: Config, s: Agent, pending: bool, warm: bool)
    ensures
      var t := OnRegistered(cfg, s, pending, warm);
      t.isDraining <==> s.isDraining || (t.shuttingDown && !s.shuttingDown)
  {
  }

  /** Draining begins exactly then, and with any shutdown. */
  lemma DrainingBegins(cfg: Config, s: Agent, e: Event)
    ensures
      var t := Step(cfg, s, e);
      t.isDraining <==> s.isDraining || CallsForDrain(cfg, s, e) || (t.shuttingDown && !s.shuttingDown)
  {
    match e
    case StartFailed(id, dirty) => if InPhase(s, id, Starting) { CompletionDrains(cfg, s, id, dirty); }
    case Completed(id, dirty) => if InPhase(s, id, Finishing) { CompletionDrains(cfg, s, id, dirty); }
    case Registered(pending, warm) => RegistrationDrains(cfg, s, pending, warm);
    case _ =>
  }

  /** An agent that is shutting down drains. */
  lemma {:induction false} ShuttingDownDrains(cfg: Config, events: seq<Event>)
    ensures Run(cfg, events).shuttingDown ==> Run(cfg, events).isDraining
  {
    if events != [] {
      var n := |events| - 1;
      ShuttingDownDrains(cfg, events[..n]);
      StepFlags(cfg, Run(cfg, events[..n]), events[n]);
      DrainingBegins(cfg, Run(cfg, events[..n]), events[n]);
    }
  }

  /** So from the moment shutdown begins no dispatch is acked, whatever comes: each
      is rejected, the agent draining. */
  lemma ShuttingDownAcksNothing(cfg: Config, events: seq<Event>, more: seq<Event>, job: string)
    requires Run(cfg, events).shuttingDown
    ensures Acked(Run(cfg, events + more).sent) == Acked(Run(cfg, events).sent)
    ensures Run(cfg, events + more + [Dispatch(job)]).sent == Run(cfg, events + more).sent + [Reject(job, Draining)]
  {
    var all := events + more;
    assert all[..|events|] == events;
    ShuttingDownDrains(cfg, events);
    DrainingNeverReverts(cfg, all, |events|);
    RunSnoc(cfg, all, Dispatch(job));
    StepAnswers(cfg, Run(cfg, all), Dispatch(job));
  }

  // ----- What the link remembers.

  /** Told by the events alone: connected since the last registration, that one warm,
      and a job finished since it while connected. */
  function Connected(events: seq<Event>): bool {
    events != [] &&
    match events[|events| - 1]
    case Registered(_, _) => true
    case Disconnected => false
    case _ => Connected(events[..|events| - 1])
  }

  function LastWasWarm(events: seq<Event>): bool {
    events != [] &&
    match events[|events| - 1]
    case Registered(_, warm) => warm
    case _ => LastWasWarm(events[..|events| - 1])
  }

  predicate Finishes(s: Agent, e: Event) {
    (e.StartFailed? && InPhase(s, e.id, Starting)) || (e.Completed? && InPhase(s, e.id, Finishing))
  }

  /** A job finishes at that point, the agent being registered, and no registration
      has come since. */
  ghost predicate FinishedAt(cfg: Config, events: seq<Event>, n: nat) {
    && n < |events|
    && Run(cfg, events[..n]).link.registered && Finishes(Run(cfg, events[..n]), events[n])
    && forall m | n < m < |events| :: !events[m].Registered?
  }

  ghost predicate FinishedSince(cfg: Config, events: seq<Event>) {
    exists n: nat :: FinishedAt(cfg, events, n)
  }

  /** What a step makes of the link. */
  predicate LinkMoves(s: Agent, e: Event, l: Link) {
    && l.registered == (e.Registered? || (s.link.registered && !e.Disconnected?))
    && l.lastAckWarm == (if e.Registered? then e.warm else s.link.lastAckWarm)
    && l.finishedSince == (!e.Registered? && (s.link.finishedSince || (s.link.registered && Finishes(s, e))))
  }

  lemma CompletionLink(cfg: Config, s: Agent, id: nat, dirty: bool)
    requires id < |s.jobs.executions|
    ensures
      var l := OnCompletion(cfg, s, id, dirty).link;
      && l.registered == s.link.registered && l.lastAckWarm == s.link.lastAckWarm
      && l.finishedSince == (s.link.finishedSince || s.link.registered)
  {
  }

  lemma RegistrationLink(cfg: Config, s: Agent, pending: bool, warm: bool)
    ensures
      var l := OnRegistered(cfg, s, pending, warm).link;
      l.registered && l.lastAckWarm == warm && !l.finishedSince
  {
  }

  lemma OtherLink(cfg: Config, s: Agent, e: Event)
    requires !e.StartFailed? && !e.Completed? && !e.Registered?
    ensures LinkMoves(s, e, Step(cfg, s, e).link)
  {
  }

  lemma StepLink(cfg: Config, s: Agent, e: Event)
    ensures LinkMoves(s, e, Step(cfg, s, e).link)
  {
    match e
    case StartFailed(id, dirty) => if InPhase(s, id, Starting) { CompletionLink(cfg, s, id, dirty); }
    case Completed(id, dirty) => if InPhase(s, id, Finishing) { CompletionLink(cfg, s, id, dirty); }
    case Registered(pending, warm) => RegistrationLink(cfg, s, pending, warm);
    case _ => OtherLink(cfg, s, e);
  }

  /** The connection's record is the history's: nothing is forgotten or made up. */
  lemma {:induction false} LinkIsHistory(cfg: Config, events: seq<Event>)
    ensures Run(cfg, events).link.registered == Connected(events)
    ensures Run(cfg, events).link.lastAckWarm == LastWasWarm(events)
    ensures Run(cfg, events).link.finishedSince <==> FinishedSince(cfg, events)
  {
    if events != [] {
      var n := |events| - 1;
      LinkIsHistory(cfg, events[..n]);
      StepLink(cfg, Run(cfg, events[..n]), events[n]);
      FinishedSnoc(cfg, events);
      FinishedLast(cfg, events);
    }
  }

  lemma FinishedBefore(cfg: Config, events: seq<Event>, k: nat)
    requires events != [] && k < |events| - 1
    ensures FinishedAt(cfg, events, k) <==>
              !events[|events| - 1].Registered? && FinishedAt(cfg, events[..|events| - 1], k)
  {
    var n := |events| - 1;
    assert events[..n][..k] == events[..k] && forall m | k <= m < n :: events[..n][m] == events[m];
  }

  lemma FinishedLast(cfg: Config, events: seq<Event>)
    requires events != []
    ensures
      var n := |events| - 1;
      var s := Run(cfg, events[..n]);
      FinishedAt(cfg, events, n) <==> s.link.registered && Finishes(s, events[n])
  {
  }

  lemma FinishedEarlier(cfg: Config, events: seq<Event>, n: nat)
    requires |events| == n + 1
    ensures !events[n].Registered? && FinishedSince(cfg, events[..n]) ==> FinishedSince(cfg, events)
    ensures FinishedSince(cfg, events) ==>
              FinishedAt(cfg, events, n) || (!events[n].Registered? && FinishedSince(cfg, events[..n]))
  {
    if k: nat :| FinishedAt(cfg, events[..n], k) {
      FinishedBefore(cfg, events, k);
    }
    if k: nat :| FinishedAt(cfg, events, k) {
      if k < n { FinishedBefore(cfg, events, k); }
    }
  }

  lemma FinishedSnoc(cfg: Config, events: seq<Event>)
    requires events != []
    ensures
      var n := |events| - 1;
      FinishedSince(cfg, events) <==>
        FinishedAt(cfg, events, n) || (!events[n].Registered? && FinishedSince(cfg, events[..n]))
  {
    FinishedEarlier(cfg, events, |events| - 1);
  }

  /** A registration counts as told only if it stands and the agent drains. */
  lemma {:induction false} ToldWhileDraining(cfg: Config, events: seq<Event>)
    ensures Run(cfg, events).link.told ==> Run(cfg, events).link.registered && Run(cfg, events).isDraining
  {
    if events != [] {
      var n := |events| - 1;
      ToldWhileDraining(cfg, events[..n]);
      StepTold(cfg, Run(cfg, events[..n]), events[n]);
    }
  }

  predicate ToldTruly(s: Agent) {
    s.link.told ==> s.link.registered && s.isDraining
  }

  lemma CompletionTold(cfg: Config, s: Agent, id: nat, dirty: bool)
    requires id < |s.jobs.executions| && ToldTruly(s)
    ensures ToldTruly(OnCompletion(cfg, s, id, dirty))
  {
  }

  lemma RegistrationTold(cfg: Config, s: Agent, pending: bool, warm: bool)
    ensures ToldTruly(OnRegistered(cfg, s, pending, warm))
  {
  }

  lemma StepTold(cfg: Config, s: Agent, e: Event)
    requires ToldTruly(s)
    ensures ToldTruly(Step(cfg, s, e))
  {
    match e
    case StartFailed(id, dirty) => if InPhase(s, id, Starting) { CompletionTold(cfg, s, id, dirty); }
    case Completed(id, dirty) => if InPhase(s, id, Finishing) { CompletionTold(cfg, s, id, dirty); }
    case Registered(pending, warm) => RegistrationTold(cfg, s, pending, warm);
    case _ =>
  }

  /** Joining a warm pool cancels the idle timer. */
  lemma WarmRegistrationWaits(cfg: Config, events: seq<Event>, pending: bool)
    requires cfg.scalerManaged && Run(cfg, events).jobs.activeJobs == {}
    requires !(cfg.singleJob && Run(cfg, events).servedJob)
    ensures Run(cfg, events + [Registered(pending, true)]).timers.pending == {}
    ensures Run(cfg, events + [Registered(pending, true)]).shuttingDown == Run(cfg, events).shuttingDown
  {
    RunSnoc(cfg, events, Registered(pending, true));
    RunKeepsTimer(cfg, events);
    RegistrationShutsDown(cfg, Run(cfg, events), pending, true);
    WarmClears(cfg, Run(cfg, events), pending);
  }

  lemma WarmClears(cfg: Config, s: Agent, pending: bool)
    requires cfg.scalerManaged && s.jobs.activeJobs == {} && !(cfg.singleJob && s.servedJob) && OneTimer(s.timers)
    ensures OnRegistered(cfg, s, pending, true).timers.pending == {}
  {
  }

  // ----- No stranding.

  predicate AllDone(j: Jobs) {
    forall x | x in j.executions :: x.phase == Done
  }

  predicate Leaving(s: Agent) {
    s.timers.pending != {} || s.shuttingDown
  }

  ghost predicate NotStranded(cfg: Config, s: Agent) {
    cfg.scalerManaged && s.link.registered && AllDone(s.jobs) && (!s.link.lastAckWarm || s.link.finishedSince) ==> Leaving(s)
  }

  ghost predicate ServedLeaves(cfg: Config, s: Agent) {
    cfg.scalerManaged && cfg.singleJob && s.servedJob && s.link.registered && AllDone(s.jobs) ==> s.shuttingDown
  }

  lemma DoneMeansNoNames(j: Jobs)
    requires NamesAreActive(j) && AllDone(j)
    ensures j.activeJobs == {}
  {
  }

  lemma AcceptedIsNotDone(j: Jobs, jobId: string)
    ensures !AllDone(JobsAfter(j, true, Dispatch(jobId)))
  {
    var k := JobsAfter(j, true, Dispatch(jobId));
    assert k.executions[|j.executions|].phase == Starting;
  }

  /** All jobs can only come to be done by the completion of the last. */
  lemma StillDone(j: Jobs, accepts: bool, e: Event)
    requires AllDone(JobsAfter(j, accepts, e))
    ensures !(e.Dispatch? && accepts)
    ensures AllDone(j) || (e.StartFailed? && JobInPhase(j, e.id, Starting)) || (e.Completed? && JobInPhase(j, e.id, Finishing))
  {
    var k := JobsAfter(j, accepts, e);
    if e.Dispatch? {
      AcceptedIsNotDone(j, e.jobId);
    }
    if x :| x in j.executions && x.phase != Done {
      var i :| 0 <= i < |j.executions| && j.executions[i] == x;
      assert k.executions[i] in k.executions;
    }
  }

  /** A completion in a registered, idle, scaler-managed agent makes it leave. */
  lemma CompletionLeaves(cfg: Config, s: Agent, id: nat, dirty: bool)
    requires id < |s.jobs.executions| && s.jobs.activeJobs == {} && cfg.scalerManaged && s.link.registered
    ensures Leaving(OnCompletion(cfg, s, id, dirty))
    ensures cfg.singleJob && s.servedJob ==> OnCompletion(cfg, s, id, dirty).shuttingDown
  {
  }

  lemma RegistrationLeaves(cfg: Config, s: Agent, pending: bool, warm: bool)
    requires s.jobs.activeJobs == {} && cfg.scalerManaged
    ensures !warm ==> Leaving(OnRegistered(cfg, s, pending, warm))
    ensures cfg.singleJob && s.servedJob ==> OnRegistered(cfg, s, pending, warm).shuttingDown
  {
  }

  /** Every other step leaves the connection's history alone, and keeps an agent
      that is leaving on its way. */
  lemma OtherStepsKeepLeaving(cfg: Config, s: Agent, e: Event)
    requires !e.Registered? && !e.Completed? && !e.StartFailed? && !(e.Dispatch? && Accepts(s))
    requires OneTimer(s.timers) && s.jobs.activeJobs == {}
    ensures var t := Step(cfg, s, e);
      && (Leaving(s) ==> Leaving(t))
      && t.servedJob == s.servedJob
      && (t.link.registered ==> s.link.registered)
      && t.link.lastAckWarm == s.link.lastAckWarm && t.link.finishedSince == s.link.finishedSince
  {
  }

  lemma CompletionStrandsNone(cfg: Config, s: Agent, id: nat, dirty: bool)
    requires id < |s.jobs.executions| && s.jobs.activeJobs == {}
    ensures NotStranded(cfg, OnCompletion(cfg, s, id, dirty)) && ServedLeaves(cfg, OnCompletion(cfg, s, id, dirty))
  {
    CompletionFlags(cfg, s, id, dirty);
    if cfg.scalerManaged && s.link.registered {
      CompletionLeaves(cfg, s, id, dirty);
    }
  }

  lemma RegistrationStrandsNone(cfg: Config, s: Agent, pending: bool, warm: bool)
    requires s.jobs.activeJobs == {}
    ensures NotStranded(cfg, OnRegistered(cfg, s, pending, warm)) && ServedLeaves(cfg, OnRegistered(cfg, s, pending, warm))
  {
    RegistrationFlags(cfg, s, pending, warm);
    if cfg.scalerManaged {
      RegistrationLeaves(cfg, s, pending, warm);
    }
  }

  lemma StepStrandsNone(cfg: Config, s: Agent, e: Event)
    requires NamesAreActive(s.jobs) && OneTimer(s.timers) && NotStranded(cfg, s) && ServedLeaves(cfg, s)
    ensures NotStranded(cfg, Step(cfg, s, e)) && ServedLeaves(cfg, Step(cfg, s, e))
  {
    StepJobs(cfg, s, e);
    var j := JobsAfter(s.jobs, Accepts(s), e);
    if AllDone(j) {
      StepKeepsNames(s.jobs, Accepts(s), e);
      DoneMeansNoNames(j);
      StillDone(s.jobs, Accepts(s), e);
      match e
      case StartFailed(id, dirty) =>
        if InPhase(s, id, Starting) { CompletionStrandsNone(cfg, s, id, dirty); }
      case Completed(id, dirty) =>
        if InPhase(s, id, Finishing) { CompletionStrandsNone(cfg, s, id, dirty); }
      case Registered(pending, warm) =>
        RegistrationStrandsNone(cfg, s, pending, warm);
      case _ =>
        DoneMeansNoNames(s.jobs);
        OtherStepsKeepLeaving(cfg, s, e);
        StepFlags(cfg, s, e);
    }
  }

  /** A registered, idle, scaler-managed agent always has its timer armed or its
      shutdown begun, unless its last registration was warm and no job has finished
      since; and a single-job agent that has served its job is always leaving. */
  lemma {:induction false} NoStranding(cfg: Config, events: seq<Event>)
    ensures NotStranded(cfg, Run(cfg, events)) && ServedLeaves(cfg, Run(cfg, events))
  {
    if events != [] {
      var before, e := events[..|events| - 1], events[|events| - 1];
      NoStranding(cfg, before);
      RunKeepsTimer(cfg, before);
      StepStrandsNone(cfg, Run(cfg, before), e);
    }
  }

  ghost predicate DrainIsKnown(s: Agent) {
    s.link.registered && s.isDraining ==> s.link.told || s.shuttingDown
  }

  lemma StepTells(cfg: Config, s: Agent, e: Event)
    requires DrainIsKnown(s)
    ensures DrainIsKnown(Step(cfg, s, e))
  {
  }

  /** A registered agent that drains has said so to this registration. */
  lemma {:induction false} DrainIsAlwaysTold(cfg: Config, events: seq<Event>)
    ensures DrainIsKnown(Run(cfg, events))
  {
    if events != [] {
      DrainIsAlwaysTold(cfg, events[..|events| - 1]);
      StepTells(cfg, Run(cfg, events[..|events| - 1]), events[|events| - 1]);
    }
  }

  // ----- One job at a time, and exactly when.

  predicate Occupied(x: Execution) {
    x.phase == Starting || x.phase == Active
  }

  ghost predicate AtMostOneJob(j: Jobs) {
    forall a, b | 0 <= a < b < |j.executions| :: !(Occupied(j.executions[a]) && Occupied(j.executions[b]))
  }

  predicate SomeStarting(j: Jobs) {
    exists x | x in j.executions :: x.phase == Starting
  }

  /** A dispatch is accepted while an earlier job has not reached `activeJobs`. */
  predicate Overlaps(s: Agent, e: Event) {
    e.Dispatch? && Accepts(s) && SomeStarting(s.jobs)
  }

  /** Every active job is in `activeJobs`. */
  ghost predicate ActiveAreNamed(j: Jobs) {
    forall i | 0 <= i < |j.executions| && j.executions[i].phase == Active :: j.executions[i].jobId in j.activeJobs
  }

  lemma OverlapMakesTwo(j: Jobs, jobId: string)
    requires SomeStarting(j)
    ensures !AtMostOneJob(JobsAfter(j, true, Dispatch(jobId)))
  {
    var k := JobsAfter(j, true, Dispatch(jobId));
    var x :| x in j.executions && x.phase == Starting;
    var i :| 0 <= i < |j.executions| && j.executions[i] == x;
    assert Occupied(k.executions[i]) && Occupied(k.executions[|j.executions|]);
  }

  /** A job ends while the same job, accepted a second time, is active. */
  predicate TwinEnds(j: Jobs, e: Event) {
    e.Ended? && JobInPhase(j, e.id, Active) &&
    exists i | 0 <= i < |j.executions| :: i != e.id && j.executions[i] == j.executions[e.id]
  }

  lemma StepKeepsNamed(j: Jobs, accepts: bool, e: Event)
    requires ActiveAreNamed(j) && !TwinEnds(j, e)
    ensures ActiveAreNamed(JobsAfter(j, accepts, e))
  {
    var k := JobsAfter(j, accepts, e);
    if e.Ended? && JobInPhase(j, e.id, Active) {
      assert forall i | 0 <= i < |j.executions| && i != e.id && j.executions[i].phase == Active ::
        j.executions[i].jobId != j.executions[e.id].jobId;
    }
  }

  lemma TwinLosesItsName(j: Jobs, accepts: bool, e: Event)
    requires TwinEnds(j, e)
    ensures !ActiveAreNamed(JobsAfter(j, accepts, e))
  {
    var k := JobsAfter(j, accepts, e);
    var i :| 0 <= i < |j.executions| && i != e.id && j.executions[i] == j.executions[e.id];
    assert k.executions[i].phase == Active && k.executions[i].jobId !in k.activeJobs;
  }

  lemma StepKeepsOne(j: Jobs, accepts: bool, e: Event)
    requires AtMostOneJob(j) && ActiveAreNamed(j)
    requires accepts ==> j.activeJobs == {}
    requires !(e.Dispatch? && accepts && SomeStarting(j))
    ensures AtMostOneJob(JobsAfter(j, accepts, e))
  {
    var k := JobsAfter(j, accepts, e);
    if e.Dispatch? && accepts {
      assert forall i | 0 <= i < |j.executions| :: j.executions[i] in j.executions;
      assert forall i | 0 <= i < |j.executions| :: !Occupied(j.executions[i]);
    } else {
      assert forall i | 0 <= i < |j.executions| && Occupied(k.executions[i]) :: Occupied(j.executions[i]);
    }
  }

  ghost predicate NeverTwinEnds(cfg: Config, events: seq<Event>) {
    forall n | 0 <= n < |events| :: !TwinEnds(Run(cfg, events[..n]).jobs, events[n])
  }

  lemma {:induction false} NamedWhileNoTwinEnds(cfg: Config, events: seq<Event>)
    requires NeverTwinEnds(cfg, events)
    ensures ActiveAreNamed(Run(cfg, events).jobs)
  {
    if events != [] {
      var n := |events| - 1;
      assert forall m | 0 <= m < n :: events[..n][..m] == events[..m];
      NamedWhileNoTwinEnds(cfg, events[..n]);
      var s := Run(cfg, events[..n]);
      StepJobs(cfg, s, events[n]);
      StepKeepsNamed(s.jobs, Accepts(s), events[n]);
    }
  }

  /** `activeJobs` holds every active job throughout a run exactly when no job in
      it ends while its twin, the same job accepted again, is active. */
  lemma NamedIffNoTwinEnds(cfg: Config, events: seq<Event>)
    ensures (forall n | 0 <= n <= |events| :: ActiveAreNamed(Run(cfg, events[..n]).jobs)) <==> NeverTwinEnds(cfg, events)
  {
    if NeverTwinEnds(cfg, events) {
      forall n | 0 <= n <= |events| ensures ActiveAreNamed(Run(cfg, events[..n]).jobs) {
        assert forall m | 0 <= m < n :: events[..n][..m] == events[..m];
        NamedWhileNoTwinEnds(cfg, events[..n]);
      }
    } else {
      var n :| 0 <= n < |events| && TwinEnds(Run(cfg, events[..n]).jobs, events[n]);
      var s := Run(cfg, events[..n]);
      StepJobs(cfg, s, events[n]);
      TwinLosesItsName(s.jobs, Accepts(s), events[n]);
      RunNext(cfg, events, n);
    }
  }

  lemma RunNext(cfg: Config, events: seq<Event>, n: nat)
    requires n < |events|
    ensures Run(cfg, events[..n + 1]) == Step(cfg, Run(cfg, events[..n]), events[n])
  {
    assert events[..n + 1][..n] == events[..n];
  }

  /** That happens: the first of two twins to end takes the other's name away. */
  lemma TwinsHideEachOther(cfg: Config, job: string)
    requires !cfg.singleJob
    ensures
      var s := Run(cfg, [Dispatch(job), Dispatch(job), Started(0), Started(1), Ended(0)]);
      s.jobs.activeJobs == {} && Execution(job, Active) in s.jobs.executions
  {
    var twice := [Dispatch(job), Dispatch(job)];
    TwinsAccepted(cfg, job);
    RunSnoc(cfg, twice, Started(0));
    RunSnoc(cfg, twice + [Started(0)], Started(1));
    RunSnoc(cfg, twice + [Started(0)] + [Started(1)], Ended(0));
    var s := Run(cfg, twice + [Started(0)] + [Started(1)] + [Ended(0)]);
    assert s.jobs.executions[1] == Execution(job, Active);
    assert twice + [Started(0)] + [Started(1)] + [Ended(0)]
        == [Dispatch(job), Dispatch(job), Started(0), Started(1), Ended(0)];
  }

  lemma TwinsAccepted(cfg: Config, job: string)
    requires !cfg.singleJob
    ensures Run(cfg, [Dispatch(job), Dispatch(job)]).jobs == Jobs({}, [Execution(job, Starting), Execution(job, Starting)])
  {
    RunSnoc(cfg, [], Dispatch(job));
    RunSnoc(cfg, [Dispatch(job)], Dispatch(job));
    assert [] + [Dispatch(job)] == [Dispatch(job)];
    assert [Dispatch(job)] + [Dispatch(job)] == [Dispatch(job), Dispatch(job)];
  }

  lemma RunSnoc(cfg: Config, events: seq<Event>, e: Event)
    ensures Run(cfg, events + [e]) == Step(cfg, Run(cfg, events), e)
  {
    assert (events + [e])[..|events|] == events && (events + [e])[|events|] == e;
  }

  ghost predicate NeverOverlaps(cfg: Config, events: seq<Event>) {
    forall n | 0 <= n < |events| :: !Overlaps(Run(cfg, events[..n]), events[n])
  }

  lemma NeverOverlapsBefore(cfg: Config, events: seq<Event>, m: nat)
    requires NeverOverlaps(cfg, events) && m <= |events|
    ensures NeverOverlaps(cfg, events[..m])
  {
    assert forall n | 0 <= n < m :: events[..m][..n] == events[..n];
  }

  lemma {:induction false} OneJobWithoutOverlap(cfg: Config, events: seq<Event>)
    requires NeverOverlaps(cfg, events)
    ensures AtMostOneJob(Run(cfg, events).jobs) && ActiveAreNamed(Run(cfg, events).jobs)
  {
    if events != [] {
      var n := |events| - 1;
      NeverOverlapsBefore(cfg, events, n);
      OneJobWithoutOverlap(cfg, events[..n]);
      var s := Run(cfg, events[..n]);
      assert !Overlaps(s, events[n]);
      StepJobs(cfg, s, events[n]);
      StepKeepsOne(s.jobs, Accepts(s), events[n]);
      StepKeepsNamed(s.jobs, Accepts(s), events[n]);
    }
  }

  /** The agent keeps to one job at a time through a run exactly when no dispatch
      in it is accepted while an earlier job is still starting. */
  lemma OneJobIffNoOverlap(cfg: Config, events: seq<Event>)
    ensures (forall n | 0 <= n <= |events| :: AtMostOneJob(Run(cfg, events[..n]).jobs)) <==> NeverOverlaps(cfg, events)
  {
    if NeverOverlaps(cfg, events) {
      forall n | 0 <= n <= |events| ensures AtMostOneJob(Run(cfg, events[..n]).jobs) {
        NeverOverlapsBefore(cfg, events, n);
        OneJobWithoutOverlap(cfg, events[..n]);
      }
    } else {
      var n :| 0 <= n < |events| && Overlaps(Run(cfg, events[..n]), events[n]);
      var s := Run(cfg, events[..n]);
      OverlapMakesTwo(s.jobs, events[n].jobId);
      StepJobs(cfg, s, events[n]);
      RunNext(cfg, events, n);
    }
  }

  /** Two dispatches that arrive together are both acked by an agent that is not
      single-job: the second finds `activeJobs` still empty. */
  lemma TwoAtOnceAreBothAcked(cfg: Config, a: string, b: string)
    requires !cfg.singleJob
    ensures Run(cfg, [Dispatch(a), Dispatch(b)]).sent == [Ack(a), Ack(b)]
    ensures !AtMostOneJob(Run(cfg, [Dispatch(a), Dispatch(b)]).jobs)
  {
    var both := [Dispatch(a), Dispatch(b)];
    assert both[..1] == [Dispatch(a)] && [Dispatch(a)][..0] == [];
    var one := Step(cfg, Initial(), Dispatch(a));
    assert Run(cfg, both[..1]) == one;
    assert one.jobs.executions[0].phase == Starting;
    assert Run(cfg, both) == Step(cfg, one, Dispatch(b));
    OverlapMakesTwo(one.jobs, b);
  }

  // ----- An armed timer and a running job, and exactly when.

  ghost predicate NoTimerOverJob(s: Agent) {
    s.timers.pending != {} ==> forall x | x in s.jobs.executions :: !Occupied(x)
  }

  /** A job runs that `activeJobs` does not show: it is still starting, unless it
      is the one whose start just failed, or it is active and its name is missing. */
  predicate Unseen(j: Jobs, e: Event, i: nat)
    requires i < |j.executions|
  {
    || (j.executions[i].phase == Starting && !(e.StartFailed? && e.id == i))
    || (j.executions[i].phase == Active && j.executions[i].jobId !in j.activeJobs)
  }

  predicate SomeUnseen(j: Jobs, e: Event) {
    exists i | 0 <= i < |j.executions| :: Unseen(j, e, i)
  }

  /** A handler is about to arm a timer over a job it does not see. */
  predicate ArmsOverJob(cfg: Config, s: Agent, e: Event) {
    WillArm(cfg, s, e) && SomeUnseen(s.jobs, e)
  }

  ghost predicate NeverArmsOverJob(cfg: Config, events: seq<Event>) {
    forall n | 0 <= n < |events| :: !ArmsOverJob(cfg, Run(cfg, events[..n]), events[n])
  }

  lemma NeverArmsBefore(cfg: Config, events: seq<Event>, m: nat)
    requires NeverArmsOverJob(cfg, events) && m <= |events|
    ensures NeverArmsOverJob(cfg, events[..m])
  {
    assert forall n | 0 <= n < m :: events[..m][..n] == events[..n];
  }

  /** A timer pending after a step was pending before it, or has just been armed. */
  lemma PendingAfter(cfg: Config, s: Agent, e: Event)
    requires OneTimer(s.timers) && Step(cfg, s, e).timers.pending != {}
    ensures (s.timers.pending != {} && !(e.Dispatch? && Accepts(s))) || WillArm(cfg, s, e)
  {
    StepTimers(cfg, s, e);
  }

  lemma ArmedAfter(cfg: Config, s: Agent, e: Event)
    requires WillArm(cfg, s, e)
    ensures s.timers.next in Step(cfg, s, e).timers.pending
  {
    StepTimers(cfg, s, e);
  }

  lemma UnseenStays(j: Jobs, accepts: bool, e: Event)
    requires SomeUnseen(j, e) && !e.Started? && !e.Ended?
    ensures exists x | x in JobsAfter(j, accepts, e).executions :: Occupied(x)
  {
    var k := JobsAfter(j, accepts, e);
    var i :| 0 <= i < |j.executions| && Unseen(j, e, i);
    assert k.executions[i] in k.executions && Occupied(k.executions[i]);
  }

  /** After a step that accepts nothing, taken with `activeJobs` empty before it,
      a job is occupied only if it went unseen before. */
  lemma OccupiedBefore(j: Jobs, accepts: bool, e: Event, i: nat)
    requires !(e.Dispatch? && accepts) && i < |JobsAfter(j, accepts, e).executions|
    requires Occupied(JobsAfter(j, accepts, e).executions[i])
    ensures i < |j.executions| && Occupied(j.executions[i])
    ensures j.activeJobs == {} ==> Unseen(j, e, i)
  {
  }

  lemma StepKeepsTimerClear(cfg: Config, s: Agent, e: Event)
    requires OneTimer(s.timers) && NoTimerOverJob(s) && !ArmsOverJob(cfg, s, e)
    ensures NoTimerOverJob(Step(cfg, s, e))
  {
    var t := Step(cfg, s, e);
    if t.timers.pending != {} {
      PendingAfter(cfg, s, e);
      StepJobs(cfg, s, e);
      assert forall i | 0 <= i < |s.jobs.executions| :: s.jobs.executions[i] in s.jobs.executions;
      forall x | x in t.jobs.executions ensures !Occupied(x) {
        var i :| 0 <= i < |t.jobs.executions| && t.jobs.executions[i] == x;
        if Occupied(x) { OccupiedBefore(s.jobs, Accepts(s), e, i); }
      }
    }
  }

  lemma {:induction false} TimerClear(cfg: Config, events: seq<Event>)
    requires NeverArmsOverJob(cfg, events)
    ensures NoTimerOverJob(Run(cfg, events))
  {
    if events != [] {
      var n := |events| - 1;
      NeverArmsBefore(cfg, events, n);
      TimerClear(cfg, events[..n]);
      RunKeepsTimer(cfg, events[..n]);
      StepKeepsTimerClear(cfg, Run(cfg, events[..n]), events[n]);
    }
  }

  /** No timer is ever pending over a job exactly when no handler is about to arm
      one over a job it does not see, however many jobs overlap. */
  lemma TimerClearIff(cfg: Config, events: seq<Event>)
    ensures (forall n | 0 <= n <= |events| :: NoTimerOverJob(Run(cfg, events[..n]))) <==> NeverArmsOverJob(cfg, events)
  {
    if NeverArmsOverJob(cfg, events) {
      forall n | 0 <= n <= |events| ensures NoTimerOverJob(Run(cfg, events[..n])) {
        NeverArmsBefore(cfg, events, n);
        TimerClear(cfg, events[..n]);
      }
    } else {
      var n :| 0 <= n < |events| && ArmsOverJob(cfg, Run(cfg, events[..n]), events[n]);
      var s := Run(cfg, events[..n]);
      ArmedAfter(cfg, s, events[n]);
      StepJobs(cfg, s, events[n]);
      UnseenStays(s.jobs, Accepts(s), events[n]);
      RunNext(cfg, events, n);
    }
  }

  /** A shutdown no one asked for abandons an accepted job exactly when, before the
      step that begins it, some job went unseen. */
  lemma IdleShutdownAbandonsOnlyUnseen(cfg: Config, s: Agent, e: Event)
    requires e != Stop && !s.shuttingDown && Step(cfg, s, e).shuttingDown
    ensures (exists x | x in Step(cfg, s, e).jobs.executions :: Occupied(x)) <==> SomeUnseen(s.jobs, e)
  {
    var t := Step(cfg, s, e);
    ShutdownNeedsNoActiveJobs(cfg, s, e);
    StepJobs(cfg, s, e);
    ShutdownStartsNothing(cfg, s, e);
    if SomeUnseen(s.jobs, e) {
      UnseenStays(s.jobs, Accepts(s), e);
    }
    if x :| x in t.jobs.executions && Occupied(x) {
      var i :| 0 <= i < |t.jobs.executions| && t.jobs.executions[i] == x;
      OccupiedBefore(s.jobs, Accepts(s), e, i);
    }
  }

  lemma ShutdownStartsNothing(cfg: Config, s: Agent, e: Event)
    requires !s.shuttingDown && Step(cfg, s, e).shuttingDown
    ensures !e.Started? && !e.Ended? && !e.Dispatch?
  {
  }

  /** While a job is starting, nothing happens but its start. */
  ghost predicate StartsAtOnce(cfg: Config, events: seq<Event>) {
    forall n | 0 <= n < |events| :: SomeStarting(Run(cfg, events[..n]).jobs) ==> events[n].Started?
  }

  /** So if starting a job took no time, every promise would hold on every run: one
      job at a time, no timer over a job, no accepted job abandoned by a shutdown
      no one asked for. */
  lemma StartingAtOnceKeepsAll(cfg: Config, events: seq<Event>, e: Event)
    requires StartsAtOnce(cfg, events + [e])
    ensures
      var s := Run(cfg, events);
      && AtMostOneJob(s.jobs) && ActiveAreNamed(s.jobs) && NoTimerOverJob(s)
      && (e != Stop && !s.shuttingDown && Step(cfg, s, e).shuttingDown ==>
            forall x | x in Step(cfg, s, e).jobs.executions :: !Occupied(x))
  {
    var all := events + [e];
    assert forall n | 0 <= n < |events| :: all[..n] == events[..n] && all[n] == events[n];
    assert all[..|events|] == events && all[|events|] == e;
    forall n | 0 <= n < |events| ensures !ArmsOverJob(cfg, Run(cfg, events[..n]), events[n]) {
      NeverOverlapsBefore(cfg, events, n);
      OneJobWithoutOverlap(cfg, events[..n]);
      UnseenIsStarting(Run(cfg, events[..n]).jobs, events[n]);
    }
    OneJobWithoutOverlap(cfg, events);
    TimerClear(cfg, events);
    var s := Run(cfg, events);
    if e != Stop && !s.shuttingDown && Step(cfg, s, e).shuttingDown {
      ShutdownStartsNothing(cfg, s, e);
      UnseenIsStarting(s.jobs, e);
      IdleShutdownAbandonsOnlyUnseen(cfg, s, e);
    }
  }

  lemma UnseenIsStarting(j: Jobs, e: Event)
    requires ActiveAreNamed(j)
    ensures SomeUnseen(j, e) ==> SomeStarting(j)
  {
    if i :| 0 <= i < |j.executions| && Unseen(j, e, i) {
      assert j.executions[i] in j.executions;
    }
  }

  /** A single-job agent that loses its connection and registers again before its
      accepted job has reached `activeJobs` shuts down at once. */
  lemma ReconnectWhileStartingShutsDown(cfg: Config, job: string, pending: bool, warm: bool)
    requires cfg.singleJob && cfg.scalerManaged
    ensures
      var s := Run(cfg, [Dispatch(job), Disconnected, Registered(pending, warm)]);
      s.shuttingDown && s.sent == [Ack(job)] && SomeStarting(s.jobs)
  {
    var one, two := [Dispatch(job)], [Dispatch(job), Disconnected];
    RunSnoc(cfg, [], Dispatch(job));
    assert [] + one == one && one + [Disconnected] == two;
    RunSnoc(cfg, one, Disconnected);
    RunSnoc(cfg, two, Registered(pending, warm));
    assert two + [Registered(pending, warm)] == [Dispatch(job), Disconnected, Registered(pending, warm)];
    var s := Run(cfg, two);
    RegistrationLeaves(cfg, s, pending, warm);
    assert s.jobs.executions[0] in s.jobs.executions;
  }

  // ----- The handlers themselves, over the server's variables.

  class Server {
    const cfg: Config
    var isDraining: bool
    var servedJob: bool
    var isShuttingDown: bool
    var drainChecks: nat
    var idleShutdownTimer: Option<nat>
    var pendingTimers: set<nat>
    var nextTimer: nat
    var activeJobs: set<string>
    var executions: seq<Execution>
    var registered: bool
    var sent: seq<Message>
    ghost var told: bool
    ghost var lastAckWarm: bool
    ghost var finishedSince: bool

    ghost function State(): Agent
      reads this
    {
      Agent(isDraining, servedJob, isShuttingDown, drainChecks,
            Timers(idleShutdownTimer, pendingTimers, nextTimer),
            Jobs(activeJobs, executions),
            Link(registered, told, lastAckWarm, finishedSince),
            sent)
    }

    constructor (cfg: Config)
      ensures this.cfg == cfg && State() == Initial()
    {
      this.cfg := cfg;
      isDraining, servedJob, isShuttingDown, drainChecks := false, false, false, 0;
      idleShutdownTimer, pendingTimers, nextTimer := None, {}, 0;
      activeJobs, executions, registered, sent := {}, [], false, [];
      told, lastAckWarm, finishedSince := false, false, false;
    }

    method ClearTimeout(timer: nat)
      modifies this`pendingTimers
      ensures pendingTimers == old(pendingTimers) - {timer}
    {
      pendingTimers := pendingTimers - {timer};
    }

    method SetTimeout() returns (timer: nat)
      modifies this`pendingTimers, this`nextTimer
      ensures timer == old(nextTimer) && nextTimer == timer + 1
      ensures pendingTimers == old(pendingTimers) + {timer}
    {
      timer := nextTimer;
      nextTimer, pendingTimers := nextTimer + 1, pendingTimers + {timer};
    }

    method Disarm()
      modifies this`pendingTimers, this`idleShutdownTimer
      ensures State() == old(State()).(timers := Cleared(old(State()).timers).(variable := None))
    {
      if idleShutdownTimer.Some? {
        ClearTimeout(idleShutdownTimer.value);
        idleShutdownTimer := None;
      }
    }

    method Rearm()
      modifies this`pendingTimers, this`nextTimer, this`idleShutdownTimer
      ensures State() == old(State()).(timers := Armed(old(State()).timers))
    {
      if idleShutdownTimer.Some? { ClearTimeout(idleShutdownTimer.value); }
      var timer := SetTimeout();
      idleShutdownTimer := Some(timer);
    }

    method SendStatus()
      modifies this`told
      ensures State() == SendAgentStatus(old(State()))
    {
      told := told || (registered && isDraining);
    }

    method Shutdown()
      modifies this`isShuttingDown, this`isDraining
      ensures State() == GracefulShutdown(old(State()))
    {
      if isShuttingDown { return; }
      isShuttingDown := true;
      isDraining := true;
    }

    method StartIdleTimer()
      modifies this
      ensures State() == StartIdleShutdownTimer(cfg, old(State()))
    {
      var idleMs := IdleShutdownDelayMs(cfg.idleTimeoutMs, cfg.singleJob, servedJob);
      if idleMs <= 0 {
        if idleShutdownTimer.Some? { ClearTimeout(idleShutdownTimer.value); }
        Shutdown();
      } else {
        Rearm();
      }
    }

    method OnJobDispatch(jobId: string)
      modifies this
      ensures State() == Step(cfg, old(State()), Dispatch(jobId))
    {
      if isDraining {
        sent := sent + [Reject(jobId, Draining)];
        SendStatus();
        return;
      }
      if |activeJobs| > 0 {
        sent := sent + [Reject(jobId, Busy)];
        SendStatus();
        return;
      }
      Accept(jobId);
    }

    method Accept(jobId: string)
      requires Accepts(State())
      modifies this
      ensures State() == OnDispatch(cfg, old(State()), jobId)
    {
      Disarm();
      sent := sent + [Ack(jobId)];
      executions := executions + [Execution(jobId, Starting)];
      if cfg.singleJob {
        servedJob := true;
        isDraining := true;
        SendStatus();
      }
    }

    /** The runner has prepared the job's directory and credentials. */
    method OnJobStarted(id: nat)
      requires InPhase(State(), id, Starting)
      modifies this
      ensures State() == Step(cfg, old(State()), Started(id))
    {
      activeJobs := activeJobs + {executions[id].jobId};
      executions := executions[id := executions[id].(phase := Active)];
    }

    method OnJobEnded(id: nat)
      requires InPhase(State(), id, Active)
      modifies this
      ensures State() == Step(cfg, old(State()), Ended(id))
    {
      activeJobs := activeJobs - {executions[id].jobId};
      executions := executions[id := executions[id].(phase := Finishing)];
    }

    method NoteCompletion(id: nat, dirty: bool)
      requires id < |executions|
      modifies this`executions, this`finishedSince, this`isDraining, this`told
      ensures State() == Noted(cfg, old(State()), id, dirty)
    {
      executions := executions[id := executions[id].(phase := Done)];
      finishedSince := finishedSince || registered;
      if cfg.drainOnResetFailure && !isDraining && dirty { isDraining := true; }
      SendStatus();
    }

    /** Runs when an execution settles, whether it failed to start or has gone
        through its between-jobs phase. */
    method OnExecutionSettled(id: nat, dirty: bool)
      requires InPhase(State(), id, Starting) || InPhase(State(), id, Finishing)
      modifies this
      ensures State() == Step(cfg, old(State()), if old(InPhase(State(), id, Starting)) then StartFailed(id, dirty) else Completed(id, dirty))
    {
      NoteCompletion(id, dirty);
      if cfg.scalerManaged && |activeJobs| == 0 {
        if !registered { return; }
        StartIdleTimer();
      }
    }

    method Reintroduce(warm: bool)
      modifies this`registered, this`told, this`lastAckWarm, this`finishedSince
      ensures State() == Reintroduced(old(State()), warm)
    {
      registered, told, lastAckWarm, finishedSince := true, false, warm, false;
      if isDraining { SendStatus(); }
    }

    method OnRegisterAck(pending: bool, warm: bool)
      modifies this
      ensures State() == Step(cfg, old(State()), Registered(pending, warm))
    {
      Reintroduce(warm);
      var decision := DecideIdleShutdown(cfg.scalerManaged, |activeJobs|, pending, warm, cfg.singleJob && servedJob);
      match decision {
        case Nothing =>
        case Warm => Disarm();
        case PendingDispatch => Rearm();
        case Idle => StartIdleTimer();
      }
    }

    method OnDisconnect()
      modifies this
      ensures State() == Step(cfg, old(State()), Disconnected)
    {
      registered, told := false, false;
    }

    method OnTimeout(timer: nat)
      requires timer in pendingTimers
      modifies this
      ensures State() == Step(cfg, old(State()), TimerFires(timer))
    {
      pendingTimers := pendingTimers - {timer};
      if |activeJobs| == 0 { Shutdown(); }
    }

    method OnDrainSignal()
      modifies this
      ensures State() == Step(cfg, old(State()), Sigusr1)
    {
      isDraining := true;
      SendStatus();
      if |activeJobs| == 0 {
        Shutdown();
        return;
      }
      drainChecks := drainChecks + 1;
    }

    method OnDrainCheck()
      requires drainChecks > 0
      modifies this
      ensures State() == Step(cfg, old(State()), DrainTick)
    {
      if |activeJobs| == 0 {
        drainChecks := drainChecks - 1;
        Shutdown();
      }
    }
  }
}
