/**
 The scheduled host of crates/plugin-host/src/scheduler.rs as a protocol: many callers share one
 breaker, one bounded FIFO queue and one worker thread. Every `Step` is one atomic action; a run is
 any sequence of enabled steps, so a lemma about all runs is about every interleaving.

 `enqueued`, `transported` and `log` are history: they are written and never read.
 */
module Schedulers {
  import opened Wrappers
  import opened Wire
  import opened Envelopes
  import opened Clients
  import opened CircuitBreakers

  datatype SchedulerConfig = SchedulerConfig(maxQueueDepth: nat, breaker: Config)

  datatype WorkItem = WorkItem(id: nat, methodId: u32, payload: Bytes, trace: Option<TraceContext>)

  /** How far one call of `invoke` has come. */
  datatype Stage =
    | Allocated
    | EncodeFailed
    | Rejected
    | Admitted
    | Refused
    | Waiting
    | GaveUp
    | Expired
    | Answered(answer: Answer)
  {
    predicate Sent() {
      Waiting? || GaveUp? || Expired? || Answered?
    }
  }

  datatype Worker =
    | Idle
    | Sending(item: WorkItem)
    | Recording(item: WorkItem, answer: Answer)
    | Replying(item: WorkItem, answer: Answer)

  datatype State = State(
    config: SchedulerConfig,
    nextId: nat,
    breaker: Breaker,
    stages: map<nat, Stage>,
    queue: seq<WorkItem>,
    worker: Worker,
    replies: map<nat, Answer>,
    clock: Instant,
    enqueued: seq<WorkItem>,
    transported: seq<(WorkItem, Answer)>,
    log: seq<Event>)
  {
    predicate At(id: nat, stage: Stage) {
      id in stages && stages[id] == stage
    }
  }

  datatype Step =
    | Allocate
    | FailEncoding(id: nat)
    | Admit(id: nat, now: Instant)
    | TrySend(id: nat, methodId: u32, payload: Bytes, trace: Option<TraceContext>)
    | Recv
    | Send(answer: Answer)
    | Record(now: Instant)
    | Reply
    | Receive(id: nat)
    | GiveUp(id: nat)
    | RecordTimeout(id: nat, now: Instant)
  {
    predicate ByWorker() {
      Recv? || Send? || Record? || Reply?
    }
  }

  function Start(config: SchedulerConfig): State {
    State(config, 1, NewBreaker(config.breaker), map[], [], Idle, map[], 0, [], [], [])
  }

  /** A rendezvous channel (depth 0) takes an item only from a worker that is waiting for one. */
  predicate HasRoom(s: State) {
    if s.config.maxQueueDepth == 0 then s.worker.Idle? else |s.queue| < s.config.maxQueueDepth
  }

  /** The clock is read while the breaker's lock is held, so times do not decrease in lock order. */
  predicate Enabled(s: State, step: Step) {
    match step
    case Allocate => true
    case FailEncoding(id) => s.At(id, Allocated)
    case Admit(id, now) => s.At(id, Allocated) && now >= s.clock
    case TrySend(id, _, _, _) => s.At(id, Admitted)
    case Recv => s.worker.Idle? && s.queue != []
    case Send(_) => s.worker.Sending?
    case Record(now) => s.worker.Recording? && now >= s.clock
    case Reply => s.worker.Replying?
    case Receive(id) => s.At(id, Waiting) && id in s.replies
    case GiveUp(id) => s.At(id, Waiting) && id !in s.replies
    case RecordTimeout(id, now) => s.At(id, GaveUp) && now >= s.clock
  }

  function OutcomeOf(answer: Answer, now: Instant): Event {
    if answer.Ok? && answer.value.RpcResponse? then Succeeded(now) else Failed(now)
  }

  function OnBreaker(s: State, e: Event): State {
    s.(breaker := s.breaker.Step(e), clock := e.at, log := s.log + [e])
  }

  function Move(s: State, id: nat, stage: Stage): State {
    s.(stages := s.stages[id := stage])
  }

  function Apply(s: State, step: Step): State
    requires Enabled(s, step)
  {
    match step
    case Allocate => Move(s, s.nextId, Allocated).(nextId := s.nextId + 1)
    case FailEncoding(id) => Move(s, id, EncodeFailed)
    case Admit(id, now) =>
      Move(OnBreaker(s, Asked(now)), id, if s.breaker.Allows(now) then Admitted else Rejected)
    case TrySend(id, methodId, payload, trace) =>
      var item := WorkItem(id, methodId, payload, trace);
      if !HasRoom(s) then Move(s, id, Refused)
      else if s.config.maxQueueDepth == 0 then
        Move(s, id, Waiting).(worker := Sending(item), enqueued := s.enqueued + [item])
      else
        Move(s, id, Waiting).(queue := s.queue + [item], enqueued := s.enqueued + [item])
    case Recv => s.(worker := Sending(s.queue[0]), queue := s.queue[1..])
    case Send(answer) =>
      s.(worker := Recording(s.worker.item, answer), transported := s.transported + [(s.worker.item, answer)])
    case Record(now) =>
      OnBreaker(s, OutcomeOf(s.worker.answer, now)).(worker := Replying(s.worker.item, s.worker.answer))
    case Reply => s.(worker := Idle, replies := s.replies[s.worker.item.id := s.worker.answer])
    case Receive(id) => Move(s, id, Answered(s.replies[id]))
    case GiveUp(id) => Move(s, id, GaveUp)
    case RecordTimeout(id, now) => Move(OnBreaker(s, Failed(now)), id, Expired)
  }

  // ---- Runs

  ghost predicate CanRun(s: State, steps: seq<Step>)
    decreases |steps|
  {
    steps == [] || (Enabled(s, steps[0]) && CanRun(Apply(s, steps[0]), steps[1..]))
  }

  ghost function Run(s: State, steps: seq<Step>): State
    requires CanRun(s, steps)
    decreases |steps|
  {
    if steps == [] then s else Run(Apply(s, steps[0]), steps[1..])
  }

  /** Some interleaving of callers and worker leads to `t`. */
  ghost predicate Reachable(config: SchedulerConfig, t: State) {
    exists steps :: CanRun(Start(config), steps) && Run(Start(config), steps) == t
  }

  lemma {:induction false} RunOneMore(s: State, steps: seq<Step>, step: Step)
    requires CanRun(s, steps) && Enabled(Run(s, steps), step)
    ensures CanRun(s, steps + [step]) && Run(s, steps + [step]) == Apply(Run(s, steps), step)
    decreases |steps|
  {
    hide Apply, Enabled;
    var longer := steps + [step];
    if steps == [] {
      assert longer == [step] && longer[1..] == [];
    } else {
      assert longer[1..] == steps[1..] + [step];
      RunOneMore(Apply(s, steps[0]), steps[1..], step);
    }
  }

  lemma StartReachable(config: SchedulerConfig)
    ensures Reachable(config, Start(config))
  {
    assert CanRun(Start(config), []) && Run(Start(config), []) == Start(config);
  }

  lemma StepReachable(config: SchedulerConfig, t: State, step: Step)
    requires Reachable(config, t) && Enabled(t, step)
    ensures Reachable(config, Apply(t, step))
  {
    hide Apply, Enabled;
    var steps :| CanRun(Start(config), steps) && Run(Start(config), steps) == t;
    RunOneMore(Start(config), steps, step);
  }

  // ---- What every step keeps

  /** The ids handed out are 1, 2, ..., and each is in one stage. */
  ghost predicate IdsKept(s: State) {
    s.nextId >= 1 && forall id :: id in s.stages <==> 1 <= id < s.nextId
  }

  function AtWorker(w: Worker): seq<WorkItem> {
    if w.Sending? then [w.item] else []
  }

  function Carried(transported: seq<(WorkItem, Answer)>): seq<WorkItem> {
    seq(|transported|, i requires 0 <= i < |transported| => transported[i].0)
  }

  /**
   What was enqueued is what the transport has seen, then what it is busy with, then the queue, in
   this order.
   */
  ghost predicate QueueKept(s: State) {
    s.enqueued == Carried(s.transported) + AtWorker(s.worker) + s.queue && |s.queue| <= s.config.maxQueueDepth
  }

  /** Nothing is enqueued twice, and the callers that sent are those whose item was enqueued. */
  ghost predicate SendersKept(stages: map<nat, Stage>, enqueued: seq<WorkItem>) {
    (forall i, j :: 0 <= i < j < |enqueued| ==> enqueued[i].id != enqueued[j].id) &&
    (forall i :: 0 <= i < |enqueued| ==> enqueued[i].id in stages && stages[enqueued[i].id].Sent()) &&
    (forall id :: id in stages && stages[id].Sent() ==> Holds(enqueued, id))
  }

  ghost predicate Holds(items: seq<WorkItem>, id: nat) {
    exists i :: 0 <= i < |items| && items[i].id == id
  }

  /** The transport gave this answer to the request with this id. */
  ghost predicate AnsweredBy(transported: seq<(WorkItem, Answer)>, id: nat, answer: Answer) {
    exists i :: 0 <= i < |transported| && transported[i].0.id == id && transported[i].1 == answer
  }

  /** Answers reach the caller they belong to. */
  ghost predicate AnswersKept(s: State) {
    (s.worker.Recording? || s.worker.Replying? ==> AnsweredBy(s.transported, s.worker.item.id, s.worker.answer)) &&
    (forall id :: id in s.replies ==> AnsweredBy(s.transported, id, s.replies[id])) &&
    (forall id :: id in s.stages && s.stages[id].Answered? ==>
      AnsweredBy(s.transported, id, s.stages[id].answer))
  }

  /** A waiting caller's request is in the queue or at the worker, or its answer is there. */
  ghost predicate WaitersKept(s: State) {
    forall id :: id in s.stages && s.stages[id].Waiting? ==>
      id in s.replies || Holds(s.queue, id) || (!s.worker.Idle? && s.worker.item.id == id)
  }

  /** The breaker is what its history says, and the history is in order of time. */
  ghost predicate BreakerKept(s: State) {
    s.breaker == After(s.config.breaker, s.log) &&
    (forall i :: 0 <= i < |s.log| ==> s.log[i].at <= s.clock) &&
    (forall i, j :: 0 <= i < j < |s.log| ==> s.log[i].at <= s.log[j].at)
  }

  /** Somebody is on the way to recording an outcome. */
  ghost predicate OutcomePending(s: State) {
    (exists id :: s.At(id, Admitted)) || s.queue != [] || s.worker.Sending? || s.worker.Recording?
  }

  ghost predicate ProbeKept(s: State) {
    s.config.maxQueueDepth >= 1 && s.breaker.probeInFlight ==> OutcomePending(s)
  }

  ghost predicate Inv(s: State) {
    IdsKept(s) && QueueKept(s) && SendersKept(s.stages, s.enqueued) && AnswersKept(s) && WaitersKept(s) &&
    BreakerKept(s) && ProbeKept(s)
  }

  lemma EventKept(s: State, e: Event)
    requires BreakerKept(s) && e.at >= s.clock
    ensures BreakerKept(OnBreaker(s, e))
  {
    assert OnBreaker(s, e).log[..|s.log|] == s.log;
  }

  lemma BreakerStep(s: State, step: Step)
    requires BreakerKept(s) && Enabled(s, step)
    ensures BreakerKept(Apply(s, step))
  {
    hide After;
    match step
    case Admit(_, now) => EventKept(s, Asked(now));
    case Record(now) => EventKept(s, OutcomeOf(s.worker.answer, now));
    case RecordTimeout(_, now) => EventKept(s, Failed(now));
    case _ =>
  }

  lemma QueueStep(s: State, step: Step)
    requires QueueKept(s) && Enabled(s, step)
    ensures QueueKept(Apply(s, step))
  {
    var t := Apply(s, step);
    var before := Carried(s.transported) + AtWorker(s.worker);
    match step
    case TrySend(id, methodId, payload, trace) =>
      var item := WorkItem(id, methodId, payload, trace);
      assert s.enqueued + [item] == before + (s.queue + [item]);
    case Recv =>
      assert s.queue == [s.queue[0]] + s.queue[1..];
    case Send(answer) =>
      assert Carried(t.transported) == Carried(s.transported) + [s.worker.item];
    case _ =>
  }

  lemma MoveKept(stages: map<nat, Stage>, enqueued: seq<WorkItem>, id: nat, stage: Stage)
    requires SendersKept(stages, enqueued)
    requires stage.Sent() <==> id in stages && stages[id].Sent()
    ensures SendersKept(stages[id := stage], enqueued)
  {
  }

  lemma SendKept(stages: map<nat, Stage>, enqueued: seq<WorkItem>, item: WorkItem)
    requires SendersKept(stages, enqueued)
    requires item.id in stages && !stages[item.id].Sent()
    ensures SendersKept(stages[item.id := Waiting], enqueued + [item])
  {
    HoldsMore(enqueued, [item]);
    HoldsOne(item);
  }

  lemma HoldsMore(a: seq<WorkItem>, b: seq<WorkItem>)
    ensures forall id :: Holds(a + b, id) <==> Holds(a, id) || Holds(b, id)
  {
    forall id | Holds(a + b, id) ensures Holds(a, id) || Holds(b, id) {
      var i :| 0 <= i < |a + b| && (a + b)[i].id == id;
      assert if i < |a| then (a + b)[i] == a[i] else (a + b)[i] == b[i - |a|];
    }
    forall id | Holds(a, id) ensures Holds(a + b, id) {
      var i :| 0 <= i < |a| && a[i].id == id;
      assert (a + b)[i] == a[i];
    }
    forall id | Holds(b, id) ensures Holds(a + b, id) {
      var i :| 0 <= i < |b| && b[i].id == id;
      assert (a + b)[|a| + i] == b[i];
    }
  }

  lemma SendersStep(s: State, step: Step)
    requires IdsKept(s) && SendersKept(s.stages, s.enqueued) && Enabled(s, step)
    ensures IdsKept(Apply(s, step)) && SendersKept(Apply(s, step).stages, Apply(s, step).enqueued)
  {
    hide SendersKept;
    var t := Apply(s, step);
    match step
    case Allocate => MoveKept(s.stages, s.enqueued, s.nextId, Allocated);
    case TrySend(id, methodId, payload, trace) =>
      if HasRoom(s) {
        SendKept(s.stages, s.enqueued, WorkItem(id, methodId, payload, trace));
      } else {
        MoveKept(s.stages, s.enqueued, id, Refused);
      }
    case Recv =>
    case Send(_) =>
    case Record(_) =>
    case Reply =>
    case FailEncoding(id) => MoveKept(s.stages, s.enqueued, id, t.stages[id]);
    case Admit(id, _) => MoveKept(s.stages, s.enqueued, id, t.stages[id]);
    case Receive(id) => MoveKept(s.stages, s.enqueued, id, t.stages[id]);
    case GiveUp(id) => MoveKept(s.stages, s.enqueued, id, t.stages[id]);
    case RecordTimeout(id, _) => MoveKept(s.stages, s.enqueued, id, t.stages[id]);
  }

  lemma AnswersStep(s: State, step: Step)
    requires AnswersKept(s) && Enabled(s, step)
    ensures AnswersKept(Apply(s, step))
  {
    var t := Apply(s, step);
    if step.Send? {
      forall id, answer | AnsweredBy(s.transported, id, answer) ensures AnsweredBy(t.transported, id, answer) {
        var i :| 0 <= i < |s.transported| && s.transported[i].0.id == id && s.transported[i].1 == answer;
        assert t.transported[i] == s.transported[i];
      }
      assert t.transported[|s.transported|] == (s.worker.item, step.answer);
    }
  }

  lemma WaitersStep(s: State, step: Step)
    requires WaitersKept(s) && Enabled(s, step)
    ensures WaitersKept(Apply(s, step))
  {
    hide Holds;
    match step
    case TrySend(id, methodId, payload, trace) =>
      var item := WorkItem(id, methodId, payload, trace);
      HoldsMore(s.queue, [item]);
      HoldsOne(item);
    case Recv =>
      HoldsMore([s.queue[0]], s.queue[1..]);
      HoldsOne(s.queue[0]);
      assert [s.queue[0]] + s.queue[1..] == s.queue;
    case _ =>
  }

  lemma HoldsOne(item: WorkItem)
    ensures forall id :: Holds([item], id) <==> id == item.id
  {
    assert [item][0] == item;
  }

  lemma ProbeStep(s: State, step: Step)
    requires IdsKept(s) && BreakerKept(s) && ProbeKept(s) && Enabled(s, step)
    ensures ProbeKept(Apply(s, step))
  {
    HistoryRefinement(s.config.breaker, s.log);
    var t := Apply(s, step);
    if step.Admit? && t.stages[step.id].Admitted? {
      assert t.At(step.id, Admitted);
    }
    if i :| s.At(i, Admitted) {
      assert (step.TrySend? && step.id == i) || t.At(i, Admitted);
    }
  }

  lemma StepKeepsInv(s: State, step: Step)
    requires Inv(s) && Enabled(s, step)
    ensures Inv(Apply(s, step))
  {
    hide IdsKept, QueueKept, SendersKept, AnswersKept, WaitersKept, BreakerKept, ProbeKept, Apply;
    QueueStep(s, step);
    SendersStep(s, step);
    AnswersStep(s, step);
    WaitersStep(s, step);
    BreakerStep(s, step);
    ProbeStep(s, step);
  }

  lemma StepKeepsAll(s: State, step: Step)
    requires Inv(s) && Accounted(s) && Enabled(s, step)
    ensures Inv(Apply(s, step)) && Accounted(Apply(s, step)) && Apply(s, step).config == s.config
  {
    hide Accounted, QueueKept, SendersKept, AnswersKept, WaitersKept, BreakerKept, ProbeKept;
    StepKeepsInv(s, step);
    AccountedStep(s, step);
  }

  lemma {:induction false} RunKeepsInv(s: State, steps: seq<Step>)
    requires Inv(s) && Accounted(s) && CanRun(s, steps)
    ensures Inv(Run(s, steps)) && Accounted(Run(s, steps)) && Run(s, steps).config == s.config
    decreases |steps|
  {
    hide Inv, Accounted, Apply;
    if steps != [] {
      StepKeepsAll(s, steps[0]);
      RunKeepsInv(Apply(s, steps[0]), steps[1..]);
    }
  }

  /** Every state that any interleaving can reach satisfies the invariant. */
  lemma ReachableInv(config: SchedulerConfig, s: State)
    requires Reachable(config, s)
    ensures Inv(s) && Accounted(s) && s.config == config
  {
    hide Inv, Accounted, CanRun, Run;
    var steps :| CanRun(Start(config), steps) && Run(Start(config), steps) == s;
    StartInv(config);
    StartAccounted(config);
    RunKeepsInv(Start(config), steps);
  }

  lemma StartInv(config: SchedulerConfig)
    ensures Inv(Start(config))
  {
    assert Carried([]) == [];
  }

  lemma StartAccounted(config: SchedulerConfig)
    ensures Accounted(Start(config))
  {
  }

  // ---- Conservation

  /** How many of the first `n` ids are in a stage satisfying `p`. */
  ghost function Count(stages: map<nat, Stage>, n: int, p: Stage -> bool): nat {
    if n <= 0 then 0
    else (if n in stages && p(stages[n]) then 1 else 0) + Count(stages, n - 1, p)
  }

  lemma {:induction false} CountMove(stages: map<nat, Stage>, n: int, id: nat, stage: Stage, p: Stage -> bool)
    ensures Count(stages[id := stage], n, p) ==
            Count(stages, n, p) +
            if 1 <= id <= n then
              (if p(stage) then 1 else 0) - (if id in stages && p(stages[id]) then 1 else 0)
            else 0
  {
    if n > 0 {
      CountMove(stages, n - 1, id, stage, p);
    }
  }

  predicate BeforeQueue(stage: Stage) {
    stage.Allocated? || stage.Admitted?
  }

  predicate TurnedAway(stage: Stage) {
    stage.EncodeFailed? || stage.Rejected? || stage.Refused?
  }

  predicate HasSent(stage: Stage) {
    stage.Sent()
  }

  predicate HasExpired(stage: Stage) {
    stage.Expired?
  }

  ghost function Successes(log: seq<Event>): nat {
    if log == [] then 0
    else Successes(log[..|log| - 1]) + if log[|log| - 1].Succeeded? then 1 else 0
  }

  ghost function Failures(log: seq<Event>): nat {
    if log == [] then 0
    else Failures(log[..|log| - 1]) + if log[|log| - 1].Failed? then 1 else 0
  }

  predicate IsResponse(answer: Answer) {
    match answer
    case Ok(RpcResponse(_, _, _)) => true
    case _ => false
  }

  /** How many of the transport's answers are responses. */
  ghost function Responses(transported: seq<(WorkItem, Answer)>): nat {
    if transported == [] then 0
    else Responses(transported[..|transported| - 1]) + if IsResponse(transported[|transported| - 1].1) then 1 else 0
  }

  ghost function SentSoFar(s: State): nat {
    Count(s.stages, s.nextId - 1, HasSent)
  }

  ghost function ExpiredSoFar(s: State): nat {
    Count(s.stages, s.nextId - 1, HasExpired)
  }

  /**
   Callers that sent are as many as items enqueued. Every response is recorded once as a success, by the
   worker; every other answer of the transport as a failure, by the worker, and every expiry as one more, by
   the caller; nothing else is recorded.
   */
  ghost predicate Accounted(s: State) {
    s.nextId >= 1 &&
    |s.enqueued| == SentSoFar(s) &&
    Successes(s.log) + (if s.worker.Recording? && IsResponse(s.worker.answer) then 1 else 0) ==
      Responses(s.transported) &&
    Failures(s.log) + (if s.worker.Recording? && !IsResponse(s.worker.answer) then 1 else 0) ==
      |s.transported| - Responses(s.transported) + ExpiredSoFar(s)
  }

  lemma AccountedMove(s: State, id: nat, stage: Stage)
    requires IdsKept(s) && id in s.stages
    ensures var t := Move(s, id, stage);
            SentSoFar(t) == SentSoFar(s) + (if stage.Sent() then 1 else 0) - (if s.stages[id].Sent() then 1 else 0) &&
            ExpiredSoFar(t) ==
              ExpiredSoFar(s) + (if stage.Expired? then 1 else 0) - (if s.stages[id].Expired? then 1 else 0)
  {
    CountMove(s.stages, s.nextId - 1, id, stage, HasSent);
    CountMove(s.stages, s.nextId - 1, id, stage, HasExpired);
  }

  lemma AccountedStep(s: State, step: Step)
    requires IdsKept(s) && Accounted(s) && Enabled(s, step)
    ensures Accounted(Apply(s, step))
  {
    hide Count, Successes, Failures, Responses;
    var t := Apply(s, step);
    match step
    case Allocate =>
      AccountedAllocate(s);
    case Recv =>
    case Send(answer) => ResponsesGrow(s.transported, s.worker.item, answer);
    case Record(now) => RecordsGrow(s.log, OutcomeOf(s.worker.answer, now));
    case Reply =>
    case FailEncoding(id) => AccountedMove(s, id, t.stages[id]);
    case Admit(id, now) =>
      RecordsGrow(s.log, Asked(now));
      AccountedMove(s, id, t.stages[id]);
    case TrySend(id, _, _, _) => AccountedMove(s, id, t.stages[id]);
    case Receive(id) => AccountedMove(s, id, t.stages[id]);
    case GiveUp(id) => AccountedMove(s, id, t.stages[id]);
    case RecordTimeout(id, now) =>
      RecordsGrow(s.log, Failed(now));
      AccountedMove(s, id, t.stages[id]);
  }

  lemma RecordsGrow(log: seq<Event>, e: Event)
    ensures Successes(log + [e]) == Successes(log) + if e.Succeeded? then 1 else 0
    ensures Failures(log + [e]) == Failures(log) + if e.Failed? then 1 else 0
  {
    assert (log + [e])[..|log|] == log;
  }

  lemma ResponsesGrow(transported: seq<(WorkItem, Answer)>, item: WorkItem, answer: Answer)
    ensures Responses(transported + [(item, answer)]) == Responses(transported) + if IsResponse(answer) then 1 else 0
  {
    assert (transported + [(item, answer)])[..|transported|] == transported;
  }

  lemma AccountedAllocate(s: State)
    requires s.nextId >= 1
    ensures var t := Apply(s, Allocate); SentSoFar(t) == SentSoFar(s) && ExpiredSoFar(t) == ExpiredSoFar(s)
  {
    CountMove(s.stages, s.nextId - 1, s.nextId, Allocated, HasSent);
    CountMove(s.stages, s.nextId - 1, s.nextId, Allocated, HasExpired);
  }

  /**
   After any run, the ids handed out are those still before the queue, those turned away before it,
   and one for each item enqueued; the breaker has one success for each response of the transport that
   the worker got to record, and one failure for each other answer and for each caller that gave up.
   */
  lemma Conservation(config: SchedulerConfig, s: State)
    requires Reachable(config, s)
    ensures s.nextId - 1 ==
              Count(s.stages, s.nextId - 1, BeforeQueue) + Count(s.stages, s.nextId - 1, TurnedAway) + |s.enqueued|
    ensures |s.enqueued| == |s.transported| + (if s.worker.Sending? then 1 else 0) + |s.queue|
    ensures Successes(s.log) + (if s.worker.Recording? && IsResponse(s.worker.answer) then 1 else 0) ==
              Responses(s.transported)
    ensures Failures(s.log) + (if s.worker.Recording? && !IsResponse(s.worker.answer) then 1 else 0) ==
              |s.transported| - Responses(s.transported) + Count(s.stages, s.nextId - 1, HasExpired)
  {
    hide Count, Reachable;
    ReachableInv(config, s);
    CountAll(s.stages, s.nextId - 1);
  }

  // ---- What opens and closes the breaker

  /** The worker records no response in the run. */
  ghost predicate NoResponseRecorded(s: State, steps: seq<Step>)
    requires CanRun(s, steps)
    decreases |steps|
  {
    steps == [] ||
    ((steps[0].Record? ==> !IsResponse(s.worker.answer)) && NoResponseRecorded(Apply(s, steps[0]), steps[1..]))
  }

  /** How many outcomes are recorded in the run, by the worker or by callers that give up. */
  function OutcomesIn(steps: seq<Step>): nat {
    if steps == [] then 0 else (if steps[0].Record? || steps[0].RecordTimeout? then 1 else 0) + OutcomesIn(steps[1..])
  }

  lemma TrailingStep(s: State, step: Step)
    requires Enabled(s, step) && (step.Record? ==> !IsResponse(s.worker.answer))
    ensures Trailing(Apply(s, step).log) ==
            Trailing(s.log) + if step.Record? || step.RecordTimeout? then 1 else 0
  {
    var t := Apply(s, step);
    if t.log != s.log {
      assert t.log[..|s.log|] == s.log;
    }
  }

  lemma {:induction false} TrailingRun(s: State, steps: seq<Step>)
    requires CanRun(s, steps) && NoResponseRecorded(s, steps)
    ensures Trailing(Run(s, steps).log) == Trailing(s.log) + OutcomesIn(steps)
    decreases |steps|
  {
    hide Apply, Enabled, Trailing;
    if steps != [] {
      TrailingStep(s, steps[0]);
      TrailingRun(Apply(s, steps[0]), steps[1..]);
    }
  }

  /**
   As many recorded outcomes in a row as the threshold, framework errors of the plugin included, with no
   response among them, leave the breaker open.
   */
  lemma FailuresOpenBreaker(config: SchedulerConfig, s: State, steps: seq<Step>)
    requires Reachable(config, s) && CanRun(s, steps) && NoResponseRecorded(s, steps)
    requires OutcomesIn(steps) >= 1 && OutcomesIn(steps) >= config.breaker.failureThreshold as nat
    ensures Run(s, steps).breaker.openedAt.Some?
  {
    hide Reachable, CanRun, Run, After, Trailing, NoResponseRecorded;
    ReachableInv(config, s);
    RunKeepsInv(s, steps);
    TrailingRun(s, steps);
    RunKeepsConfig(s, steps);
    var t := Run(s, steps);
    HistoryRefinement(t.config.breaker, t.log);
  }

  lemma {:induction false} RunKeepsConfig(s: State, steps: seq<Step>)
    requires CanRun(s, steps)
    ensures Run(s, steps).config == s.config
    decreases |steps|
  {
    if steps != [] {
      RunKeepsConfig(Apply(s, steps[0]), steps[1..]);
    }
  }

  /** One recorded response closes it. */
  lemma ResponseClosesBreaker(s: State, now: Instant)
    requires Enabled(s, Record(now)) && IsResponse(s.worker.answer)
    ensures Apply(s, Record(now)).breaker == Breaker(s.breaker.config, 0, None, false)
  {
  }

  lemma {:induction false} CountAll(stages: map<nat, Stage>, n: nat)
    requires forall id :: 1 <= id <= n ==> id in stages
    ensures n == Count(stages, n, BeforeQueue) +
                 Count(stages, n, TurnedAway) +
                 Count(stages, n, HasSent)
  {
    if n > 0 {
      CountAll(stages, n - 1);
    }
  }

  /**
   The transport sees every enqueued request once and in the order of the queue, those whose callers
   have given up included, and an answered caller has the transport's answer to its own request.
   */
  lemma OwnAnswersInOrder(config: SchedulerConfig, s: State)
    requires Reachable(config, s)
    ensures Carried(s.transported) <= s.enqueued && |s.queue| <= config.maxQueueDepth
    ensures forall i, j :: 0 <= i < j < |s.transported| ==> s.transported[i].0.id != s.transported[j].0.id
    ensures forall id :: id in s.stages && s.stages[id].Answered? ==>
              AnsweredBy(s.transported, id, s.stages[id].answer)
    ensures WaitersKept(s)
  {
    hide Reachable;
    ReachableInv(config, s);
    var carried := Carried(s.transported);
    assert s.enqueued == carried + (AtWorker(s.worker) + s.queue);
    forall i, j | 0 <= i < j < |s.transported| ensures s.transported[i].0.id != s.transported[j].0.id {
      assert s.enqueued[i] == carried[i] && s.enqueued[j] == carried[j];
    }
  }

  /** In every interleaving a caller is let through exactly when the history of the breaker says so. */
  lemma AdmissionFollowsHistory(config: SchedulerConfig, s: State, id: nat, now: Instant)
    requires Reachable(config, s) && Enabled(s, Admit(id, now))
    ensures Apply(s, Admit(id, now)).At(id, if Admits(config.breaker, s.log, now) then Admitted else Rejected)
    ensures forall i :: 0 <= i < |s.log| ==> s.log[i].at <= now
  {
    ReachableInv(config, s);
    HistoryRefinement(config.breaker, s.log);
  }

  // ---- Recovery

  /** With a queue, a probe that is out belongs to an open breaker and an outcome is on its way. */
  lemma ProbeIsPending(config: SchedulerConfig, s: State)
    requires config.maxQueueDepth >= 1 && Reachable(config, s) && s.breaker.probeInFlight
    ensures s.breaker.openedAt.Some? && OutcomePending(s)
  {
    ReachableInv(config, s);
    HistoryRefinement(config.breaker, s.log);
  }

  /** Worker steps until the next record, counting it. */
  function Distance(w: Worker): nat {
    match w
    case Replying(_, _) => 4
    case Idle => 3
    case Sending(_) => 2
    case Recording(_, _) => 1
  }

  function WorkerSteps(steps: seq<Step>): nat
    decreases |steps|
  {
    if steps == [] then 0 else (if steps[0].ByWorker() then 1 else 0) + WorkerSteps(steps[1..])
  }

  /** The probe is out now and stays out during the whole run. */
  ghost predicate ProbeStaysOut(s: State, steps: seq<Step>)
    requires CanRun(s, steps)
    decreases |steps|
  {
    s.breaker.probeInFlight && (steps == [] || ProbeStaysOut(Apply(s, steps[0]), steps[1..]))
  }

  lemma WorkerNears(s: State, step: Step)
    requires Inv(s) && Enabled(s, step)
    requires s.breaker.probeInFlight && Apply(s, step).breaker.probeInFlight
    ensures Inv(Apply(s, step))
    ensures Distance(Apply(s, step).worker) + (if step.ByWorker() then 1 else 0) <= Distance(s.worker)
  {
    StepKeepsInv(s, step);
    hide QueueKept, SendersKept, AnswersKept, WaitersKept, IdsKept;
    HistoryRefinement(s.config.breaker, s.log);
  }

  /**
   However callers interleave, a probe is never out for longer than three steps of the worker: the
   fourth has recorded an outcome.
   */
  lemma {:induction false} ProbeEndsSoon(s: State, steps: seq<Step>)
    requires Inv(s) && CanRun(s, steps)
    requires ProbeStaysOut(s, steps)
    ensures WorkerSteps(steps) < Distance(s.worker) <= 4
    decreases |steps|
  {
    hide Inv, Apply;
    if steps != [] {
      WorkerNears(s, steps[0]);
      ProbeEndsSoon(Apply(s, steps[0]), steps[1..]);
    }
  }

  /** A step that brings the next record nearer. */
  ghost function NextHelp(s: State): (step: Step)
    requires OutcomePending(s)
    ensures Enabled(s, step)
  {
    match s.worker
    case Replying(_, _) => Reply
    case Sending(_) => Send(Err(Transport))
    case Recording(_, _) => Record(s.clock)
    case Idle =>
      if s.queue != [] then Recv
      else
        var id :| s.At(id, Admitted);
        TrySend(id, 0, [], None)
  }

  function WorkLeft(s: State): nat {
    2 * Distance(s.worker) + if s.queue == [] then 1 else 0
  }

  lemma HelpWorks(s: State)
    requires Inv(s) && s.config.maxQueueDepth >= 1 && s.breaker.probeInFlight
    ensures OutcomePending(s)
    ensures var t := Apply(s, NextHelp(s));
            Inv(t) && t.config == s.config &&
            if NextHelp(s).Record? then !t.breaker.probeInFlight else WorkLeft(t) < WorkLeft(s)
  {
    HistoryRefinement(s.config.breaker, s.log);
    StepKeepsInv(s, NextHelp(s));
  }

  /** From a reachable state with a queue, callers and worker can always bring an outstanding probe back. */
  lemma {:induction false} ProbeCanEnd(s: State) returns (steps: seq<Step>)
    requires Inv(s) && s.config.maxQueueDepth >= 1
    ensures CanRun(s, steps) && Inv(Run(s, steps)) && !Run(s, steps).breaker.probeInFlight
    ensures Run(s, steps).config == s.config
    decreases WorkLeft(s)
  {
    hide Inv, Apply;
    if !s.breaker.probeInFlight {
      steps := [];
    } else {
      HelpWorks(s);
      var step := NextHelp(s);
      if step.Record? {
        steps := [step];
        assert steps[1..] == [];
      } else {
        var more := ProbeCanEnd(Apply(s, step));
        steps := [step] + more;
        assert steps[1..] == more;
      }
    }
  }

  /** After `steps` a caller asking at `now` is let through. */
  ghost predicate LetsThrough(s: State, steps: seq<Step>, now: Instant) {
    CanRun(s, steps) &&
    var t := Run(s, steps);
    now >= t.clock && t.breaker.Allows(now)
  }

  /** Whatever has happened so far, some continuation lets a caller through. */
  ghost predicate NeverWedged(config: SchedulerConfig) {
    forall s :: Reachable(config, s) ==> exists more, now :: LetsThrough(s, more, now)
  }

  lemma BufferedNeverWedges(config: SchedulerConfig)
    requires config.maxQueueDepth >= 1
    ensures NeverWedged(config)
  {
    forall s | Reachable(config, s)
      ensures exists more, now :: LetsThrough(s, more, now)
    {
      ReachableInv(config, s);
      var more := ProbeCanEnd(s);
      var t := Run(s, more);
      HistoryRefinement(config.breaker, t.log);
      LastFailureIsInHistory(t.log);
      var now := t.clock + config.breaker.resetTimeout;
      assert LetsThrough(s, more, now);
    }
  }

  // ---- Without a queue: a probe refused while the worker is busy is never brought back

  /** Nobody is left who could record an outcome, and the probe is out. */
  ghost predicate Stuck(s: State) {
    s.breaker.probeInFlight && s.breaker.openedAt.Some? && s.worker.Idle? && s.queue == [] &&
    forall id :: id in s.stages ==>
      !s.stages[id].Admitted? && !s.stages[id].Waiting? && !s.stages[id].GaveUp?
  }

  lemma {:induction false} StuckForGood(s: State, steps: seq<Step>)
    requires Stuck(s) && CanRun(s, steps)
    ensures Stuck(Run(s, steps))
    decreases |steps|
  {
    if steps != [] {
      assert Stuck(Apply(s, steps[0]));
      StuckForGood(Apply(s, steps[0]), steps[1..]);
    }
  }

  /** The breaker has seen `failures` failures in a row, all callers are done and the worker is free. */
  ghost predicate Calm(s: State, failures: nat) {
    s.nextId >= 1 && s.worker.Idle? && s.queue == [] && s.clock == 0 && s.config.maxQueueDepth == 0 &&
    s.breaker == Breaker(s.config.breaker, failures, None, false) &&
    (forall id :: id in s.stages ==> id < s.nextId && s.stages[id].Answered?)
  }

  /** A request that fails, up to and including the record of its failure. */
  lemma FailOnce(config: SchedulerConfig, s: State, failures: nat) returns (t: State)
    requires Reachable(config, s) && Calm(s, failures)
    ensures Reachable(config, t) && t.config == s.config && t.clock == 0 && t.queue == []
    ensures t.nextId == s.nextId + 1 && t.stages == s.stages[s.nextId := Waiting]
    ensures t.worker == Replying(WorkItem(s.nextId, 0, [], None), Err(Transport))
    ensures t.breaker == s.breaker.AfterFailure(0)
  {
    hide Reachable;
    var id := s.nextId;
    StepReachable(config, s, Allocate);
    t := Apply(s, Allocate);
    StepReachable(config, t, Admit(id, 0));
    t := Apply(t, Admit(id, 0));
    assert t.At(id, Admitted) && t.stages == s.stages[id := Admitted];
    StepReachable(config, t, TrySend(id, 0, [], None));
    t := Apply(t, TrySend(id, 0, [], None));
    assert t.worker.Sending? && t.stages == s.stages[id := Waiting];
    StepReachable(config, t, Send(Err(Transport)));
    t := Apply(t, Send(Err(Transport)));
    StepReachable(config, t, Record(0));
    t := Apply(t, Record(0));
  }

  /** The worker replies and the caller takes the answer. */
  lemma AnswerLast(config: SchedulerConfig, s: State, id: nat) returns (t: State)
    requires Reachable(config, s) && s.worker.Replying? && s.worker.item.id == id && s.At(id, Waiting)
    ensures Reachable(config, t) && t.worker.Idle? && t.stages == s.stages[id := Answered(s.worker.answer)]
    ensures t == s.(worker := Idle, stages := t.stages, replies := t.replies)
  {
    StepReachable(config, s, Reply);
    t := Apply(s, Reply);
    StepReachable(config, t, Receive(id));
    t := Apply(t, Receive(id));
  }

  lemma {:induction false} FailUpTo(config: SchedulerConfig, failures: nat) returns (s: State)
    requires config.maxQueueDepth == 0 && failures < Threshold(config.breaker)
    ensures Reachable(config, s) && s.config == config && Calm(s, failures)
  {
    if failures == 0 {
      s := Start(config);
      StartReachable(config);
    } else {
      var before := FailUpTo(config, failures - 1);
      s := FailOnce(config, before, failures - 1);
      s := AnswerLast(config, s, before.nextId);
    }
  }

  /**
   Without a queue: the failure that opens the breaker has been recorded but not yet answered when
   the next caller becomes the probe, and the busy worker refuses it.
   */
  lemma RefusedProbeSticks(config: SchedulerConfig) returns (s: State)
    requires config.maxQueueDepth == 0
    ensures Reachable(config, s) && Stuck(s)
  {
    var failures := Threshold(config.breaker) - 1;
    var before := FailUpTo(config, failures);
    var failed := FailOnce(config, before, failures);
    var probe, now := failed.nextId, config.breaker.resetTimeout;
    StepReachable(config, failed, Allocate);
    s := Apply(failed, Allocate);
    StepReachable(config, s, Admit(probe, now));
    s := Apply(s, Admit(probe, now));
    StepReachable(config, s, TrySend(probe, 0, [], None));
    s := Apply(s, TrySend(probe, 0, [], None));
    assert s.At(probe, Refused);
    s := AnswerLast(config, s, before.nextId);
  }

  lemma UnbufferedCanWedge(config: SchedulerConfig)
    requires config.maxQueueDepth == 0
    ensures !NeverWedged(config)
  {
    var s := RefusedProbeSticks(config);
    forall more, now | CanRun(s, more) ensures !LetsThrough(s, more, now) {
      StuckForGood(s, more);
    }
  }

  /** The scheduler can always recover, in every interleaving, exactly when it has a queue. */
  lemma RecoversExactlyWithAQueue(config: SchedulerConfig)
    ensures NeverWedged(config) <==> config.maxQueueDepth >= 1
  {
    if config.maxQueueDepth >= 1 {
      BufferedNeverWedges(config);
    } else {
      UnbufferedCanWedge(config);
    }
  }

  // ---- The shared state and the code that changes it

  /**
   The state the callers and the worker share. Each method is one atomic stretch of `invoke` or of
   the worker loop, and does what the step of the same name says.
   */
  class ScheduledPluginHost {
    const config: SchedulerConfig
    const breaker: CircuitBreaker
    var nextRequestId: nat
    var stages: map<nat, Stage>
    var queue: seq<WorkItem>
    var worker: Worker
    var replies: map<nat, Answer>
    ghost var clock: Instant
    ghost var enqueued: seq<WorkItem>
    ghost var transported: seq<(WorkItem, Answer)>

    ghost function View(): State
      reads this, breaker
    {
      State(config, nextRequestId, breaker.View(), stages, queue, worker, replies, clock,
            enqueued, transported, breaker.history)
    }

    ghost predicate Valid()
      reads this, breaker
    {
      breaker.Valid() && breaker.config == config.breaker && Reachable(config, View())
    }

    constructor (config: SchedulerConfig)
      ensures Valid() && fresh(breaker) && this.config == config && View() == Start(config)
    {
      this.config := config;
      breaker := new CircuitBreaker(config.breaker);
      nextRequestId := 1;
      stages := map[];
      queue := [];
      worker := Idle;
      replies := map[];
      clock := 0;
      enqueued := [];
      transported := [];
      new;
      StartReachable(config);
    }

    method AllocateId() returns (id: nat)
      requires Valid()
      modifies this
      ensures Valid() && id == old(nextRequestId) && View() == Apply(old(View()), Allocate)
      ensures nextRequestId == old(nextRequestId) + 1 && stages == old(stages)[id := Allocated]
    {
      StepReachable(config, View(), Allocate);
      id := nextRequestId;
      nextRequestId := nextRequestId + 1;
      stages := stages[id := Allocated];
    }

    method EncodingFails(id: nat)
      requires Valid() && Enabled(View(), FailEncoding(id))
      modifies this
      ensures Valid() && View() == Apply(old(View()), FailEncoding(id))
      ensures stages == old(stages)[id := EncodeFailed] && queue == old(queue) && worker == old(worker)
    {
      StepReachable(config, View(), FailEncoding(id));
      stages := stages[id := EncodeFailed];
    }

    method AskBreaker(id: nat, now: Instant) returns (allowed: bool)
      requires Valid() && Enabled(View(), Admit(id, now))
      modifies this, breaker
      ensures Valid() && View() == Apply(old(View()), Admit(id, now))
      ensures allowed == Admits(config.breaker, old(breaker.history), now)
      ensures stages == old(stages)[id := if allowed then Admitted else Rejected] && clock == now
      ensures breaker.history == old(breaker.history) + [Asked(now)]
    {
      hide Reachable, After, Admits;
      StepReachable(config, View(), Admit(id, now));
      allowed := breaker.AllowRequest(now);
      clock := now;
      stages := stages[id := if allowed then Admitted else Rejected];
    }

    method Enqueue(id: nat, methodId: u32, payload: Bytes, trace: Option<TraceContext>) returns (ok: bool)
      requires Valid() && Enabled(View(), TrySend(id, methodId, payload, trace))
      modifies this
      ensures Valid() && View() == Apply(old(View()), TrySend(id, methodId, payload, trace))
      ensures ok == old(HasRoom(View()))
      ensures ok <==> if config.maxQueueDepth == 0 then old(worker).Idle? else |old(queue)| < config.maxQueueDepth
      ensures stages == old(stages)[id := if ok then Waiting else Refused]
      ensures var item := WorkItem(id, methodId, payload, trace);
              queue == (if ok && config.maxQueueDepth > 0 then old(queue) + [item] else old(queue)) &&
              worker == if ok && config.maxQueueDepth == 0 then Sending(item) else old(worker)
    {
      StepReachable(config, View(), TrySend(id, methodId, payload, trace));
      var item := WorkItem(id, methodId, payload, trace);
      if config.maxQueueDepth == 0 {
        // A rendezvous channel hands the item to a worker that is waiting for one.
        ok := worker.Idle?;
        if ok {
          worker := Sending(item);
        }
      } else {
        ok := |queue| < config.maxQueueDepth;
        if ok {
          queue := queue + [item];
        }
      }
      if ok {
        enqueued := enqueued + [item];
      }
      stages := stages[id := if ok then Waiting else Refused];
    }

    method WorkerReceives()
      requires Valid() && Enabled(View(), Recv)
      modifies this
      ensures Valid() && View() == Apply(old(View()), Recv)
      ensures worker == Sending(old(queue)[0]) && queue == old(queue)[1..]
    {
      StepReachable(config, View(), Recv);
      worker := Sending(queue[0]);
      queue := queue[1..];
    }

    method TransportAnswers(answer: Answer)
      requires Valid() && Enabled(View(), Send(answer))
      modifies this
      ensures Valid() && View() == Apply(old(View()), Send(answer))
      ensures worker == Recording(old(worker).item, answer)
      ensures transported == old(transported) + [(old(worker).item, answer)]
    {
      StepReachable(config, View(), Send(answer));
      transported := transported + [(worker.item, answer)];
      worker := Recording(worker.item, answer);
    }

    method WorkerRecords(now: Instant)
      requires Valid() && Enabled(View(), Record(now))
      modifies this, breaker
      ensures Valid() && View() == Apply(old(View()), Record(now))
      ensures breaker.history == old(breaker.history) +
                [if old(worker).answer.Ok? && old(worker).answer.value.RpcResponse? then Succeeded(now) else Failed(now)]
      ensures worker == Replying(old(worker).item, old(worker).answer)
    {
      hide Reachable, After;
      StepReachable(config, View(), Record(now));
      if worker.answer.Ok? && worker.answer.value.RpcResponse? {
        breaker.RecordSuccess(now);
      } else {
        breaker.RecordFailure(now);
      }
      clock := now;
      worker := Replying(worker.item, worker.answer);
    }

    method WorkerReplies()
      requires Valid() && Enabled(View(), Reply)
      modifies this
      ensures Valid() && View() == Apply(old(View()), Reply)
      ensures worker == Idle && replies == old(replies)[old(worker).item.id := old(worker).answer]
    {
      StepReachable(config, View(), Reply);
      replies := replies[worker.item.id := worker.answer];
      worker := Idle;
    }

    /** The caller takes its answer; a payload it returns is the transport's response to its own request. */
    method CallerReceives<T>(id: nat, decode: Bytes -> Option<T>) returns (r: Result<T, PluginHostError>)
      requires Valid() && Enabled(View(), Receive(id))
      modifies this
      ensures Valid() && View() == Apply(old(View()), Receive(id))
      ensures stages == old(stages)[id := Answered(old(replies)[id])]
      ensures exists answer :: AnsweredBy(transported, id, answer) && r == Clients.Outcome(id, answer, decode)
    {
      ReachableInv(config, View());
      StepReachable(config, View(), Receive(id));
      var answer := replies[id];
      stages := stages[id := Answered(answer)];
      match answer
      case Err(error) => r := Err(error);
      case Ok(message) => r := DecodeResponseMessage(id, message, decode);
    }

    method CallerGivesUp(id: nat)
      requires Valid() && Enabled(View(), GiveUp(id))
      modifies this
      ensures Valid() && View() == Apply(old(View()), GiveUp(id))
      ensures stages == old(stages)[id := GaveUp] && queue == old(queue) && worker == old(worker)
    {
      StepReachable(config, View(), GiveUp(id));
      stages := stages[id := GaveUp];
    }

    /** The request itself stays where it is, and the worker will record its outcome as well. */
    method CallerRecordsTimeout(id: nat, now: Instant) returns (r: Result<Bytes, PluginHostError>)
      requires Valid() && Enabled(View(), RecordTimeout(id, now))
      modifies this, breaker
      ensures Valid() && View() == Apply(old(View()), RecordTimeout(id, now))
      ensures breaker.history == old(breaker.history) + [Failed(now)]
      ensures stages == old(stages)[id := Expired] && queue == old(queue) && worker == old(worker)
      ensures r == Err(TimedOut(id))
    {
      hide Reachable, After;
      StepReachable(config, View(), RecordTimeout(id, now));
      breaker.RecordFailure(now);
      clock := now;
      stages := stages[id := Expired];
      r := Err(TimedOut(id));
    }
  }
}
