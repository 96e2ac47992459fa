/**
 Activation of plugin runtimes: crates/plugin-host/src/activation.rs over the registry of
 crates/plugin-host/src/registry.rs.

 What the runtimes do (whether starting, initializing and shutting down succeed) is an input of each
 call. `log` is history: it is written and never read.
 */
module Activation {
  import opened Wrappers
  import opened StringOrder
  import opened CircuitBreakers

  type Instant = int
  type Duration = nat

  datatype ActivationMode = Lazy | Startup

  datatype Manifest = Manifest(id: string, mode: ActivationMode)

  datatype Status = Inactive | Ready | Unhealthy

  datatype Entry = Entry(
    manifest: Manifest,
    installedPath: string,
    status: Status,
    breakerState: CircuitState,
    nextRetryAt: Option<Instant>,
    runtimeActive: bool,
    lastActivityAt: Option<Instant>)
  {
    function Deactivated(): Entry {
      this.(status := Inactive, runtimeActive := false, nextRetryAt := None)
    }

    predicate IdleFor(timeout: Duration, now: Instant) {
      runtimeActive && lastActivityAt.Some? && now >= lastActivityAt.value + timeout
    }
  }

  datatype ActivationError =
    | UnknownPlugin(id: string)
    | RuntimeStart
    | InitializationFailed(id: string)
    | BackoffActive(id: string)
    | ShutdownFailed(id: string)

  datatype Event =
    | StartFailed(id: string, at: Instant)
    | Started(id: string, at: Instant)
    | InitFailed(id: string, at: Instant)
    | ShutDown(id: string, ok: bool)
    | Deactivated(id: string)

  datatype Host = Host(
    backoff: Duration,
    entries: map<string, Entry>,
    handles: set<string>,
    clock: Instant,
    log: seq<Event>)

  /** What starting one plugin comes to: the time, and whether its runtime starts and initializes. */
  datatype Attempt = Attempt(now: Instant, starts: bool, initializes: bool)

  datatype Call =
    | EnsureActive(id: string, now: Instant, starts: bool, initializes: bool)
    | StartUp(attempts: seq<Attempt>)
    | Deactivate(id: string, shutsDown: bool)
    | RecordActivity(id: string, now: Instant)
    | EvictIdle(timeout: Duration, now: Instant, failing: set<string>)

  // ---- What the calls do

  /** A manifest and the path at which it is installed. */
  type Installed = (Manifest, string)

  function NewEntry(i: Installed): Entry {
    Entry(i.0, i.1, Inactive, Closed, None, false, None)
  }

  function Registered(installed: seq<Installed>): map<string, Entry> {
    if installed == [] then map[]
    else
      var i := installed[|installed| - 1];
      Registered(installed[..|installed| - 1])[i.0.id := NewEntry(i)]
  }

  function NewHost(installed: seq<Installed>, backoff: Duration): Host {
    Host(backoff, Registered(installed), {}, 0, [])
  }

  function Log(h: Host, e: Event): Host {
    h.(log := h.log + [e])
  }

  function Ensure(h: Host, id: string, now: Instant, starts: bool, initializes: bool): (Host, Result<bool, ActivationError>) {
    if id !in h.entries then (h, Err(UnknownPlugin(id)))
    else
      var e := h.entries[id];
      if e.status == Ready then (h, Ok(false))
      else if e.nextRetryAt.Some? && e.nextRetryAt.value > now then (h, Err(BackoffActive(id)))
      else if !starts then (Log(h, StartFailed(id, now)), Err(RuntimeStart))
      else if !initializes then
        (Log(Log(h.(entries := h.entries[id := e.(status := Unhealthy, runtimeActive := false,
                                                  nextRetryAt := Some(now + h.backoff))]),
                 Started(id, now)), InitFailed(id, now)),
         Err(InitializationFailed(id)))
      else
        (Log(h.(entries := h.entries[id := e.(status := Ready, runtimeActive := true, nextRetryAt := None,
                                              lastActivityAt := Some(now))],
                handles := h.handles + {id}),
             Started(id, now)),
         Ok(true))
  }

  function StartupPlugins(h: Host): set<string> {
    set id <- h.entries | h.entries[id].manifest.mode == Startup
  }

  /** Ensures each plugin active in turn, stopping at the first failure; reports the newly active ones. */
  function EnsureAll(h: Host, ids: seq<string>, attempts: seq<Attempt>): (Host, Result<seq<string>, ActivationError>)
    requires |attempts| >= |ids|
    decreases |ids|
  {
    if ids == [] then (h, Ok([]))
    else
      var (h1, r) := EnsureAt(h, ids[0], attempts[0]);
      if r.Err? then (h1, Err(r.error))
      else
        var (h2, rest) := EnsureAll(h1, ids[1..], attempts[1..]);
        (h2, if rest.Err? then rest else Ok((if r.value then [ids[0]] else []) + rest.value))
  }

  function EnsureAt(h: Host, id: string, a: Attempt): (Host, Result<bool, ActivationError>) {
    Ensure(h.(clock := a.now), id, a.now, a.starts, a.initializes)
  }

  /** The attempts are made one after the other, on a clock that does not go back. */
  predicate InTime(clock: Instant, attempts: seq<Attempt>)
    decreases |attempts|
  {
    attempts == [] || (attempts[0].now >= clock && InTime(attempts[0].now, attempts[1..]))
  }

  /** The handle is given up before the runtime is asked to shut down, whether or not that succeeds. */
  function Shutdown(h: Host, id: string, ok: bool): Host {
    if id in h.handles then Log(h.(handles := h.handles - {id}), ShutDown(id, ok)) else h
  }

  predicate ShutdownWorks(h: Host, id: string, ok: bool) {
    id !in h.handles || ok
  }

  function MarkInactive(h: Host, id: string): Host {
    if id in h.entries then Log(h.(entries := h.entries[id := h.entries[id].Deactivated()]), Deactivated(id)) else h
  }

  function DeactivateOne(h: Host, id: string, ok: bool): (Host, Result<(), ActivationError>) {
    var h1 := Shutdown(h, id, ok);
    if !ShutdownWorks(h, id, ok) then (h1, Err(ShutdownFailed(id)))
    else if id in h.entries then (MarkInactive(h1, id), Ok(()))
    else (h1, Err(UnknownPlugin(id)))
  }

  function Touch(h: Host, id: string, now: Instant): Host {
    if id in h.entries then h.(entries := h.entries[id := h.entries[id].(lastActivityAt := Some(now))]) else h
  }

  datatype Eviction = Eviction(host: Host, evicted: seq<string>, failedAt: Option<string>)

  predicate Idle(h: Host, id: string, timeout: Duration, now: Instant) {
    id in h.entries && h.entries[id].IdleFor(timeout, now)
  }

  /** Goes through `ids`, stopping at the first one whose runtime fails to shut down. */
  function EvictFrom(h: Host, ids: seq<string>, timeout: Duration, now: Instant, failing: set<string>): Eviction
    decreases |ids|
  {
    if ids == [] then Eviction(h, [], None)
    else if !Idle(h, ids[0], timeout, now) then EvictFrom(h, ids[1..], timeout, now, failing)
    else
      var h1 := Shutdown(h, ids[0], ids[0] !in failing);
      if !ShutdownWorks(h, ids[0], ids[0] !in failing) then Eviction(h1, [], Some(ids[0]))
      else
        var rest := EvictFrom(MarkInactive(h1, ids[0]), ids[1..], timeout, now, failing);
        rest.(evicted := [ids[0]] + rest.evicted)
  }

  /** The time of a call; deactivation does not read the clock, and a start-up reads it for each plugin. */
  function TimeOf(h: Host, c: Call): Instant {
    match c
    case EnsureActive(_, now, _, _) => now
    case StartUp(_) => h.clock
    case Deactivate(_, _) => h.clock
    case RecordActivity(_, now) => now
    case EvictIdle(_, now, _) => now
  }

  /** The clock does not go back, and a start-up has an attempt for each of its plugins. */
  ghost predicate Enabled(h: Host, c: Call) {
    TimeOf(h, c) >= h.clock &&
    (c.StartUp? ==> |c.attempts| >= |Listed(StartupPlugins(h))| && InTime(h.clock, c.attempts))
  }

  ghost function Apply(h: Host, c: Call): Host
    requires Enabled(h, c)
  {
    var h0 := h.(clock := TimeOf(h, c));
    match c
    case EnsureActive(id, now, starts, initializes) => Ensure(h0, id, now, starts, initializes).0
    case StartUp(attempts) => EnsureAll(h0, Listed(StartupPlugins(h0)), attempts).0
    case Deactivate(id, ok) => DeactivateOne(h0, id, ok).0
    case RecordActivity(id, now) => Touch(h0, id, now)
    case EvictIdle(timeout, now, failing) => EvictFrom(h0, Listed(h0.entries.Keys), timeout, now, failing).host
  }

  /** A sequence of calls on a clock that does not go back. */
  ghost predicate CanRun(h: Host, calls: seq<Call>)
    decreases |calls|
  {
    calls == [] || (Enabled(h, calls[0]) && CanRun(Apply(h, calls[0]), calls[1..]))
  }

  ghost function Run(h: Host, calls: seq<Call>): Host
    requires CanRun(h, calls)
    decreases |calls|
  {
    if calls == [] then h else Run(Apply(h, calls[0]), calls[1..])
  }

  // ---- The state of each entry

  /** A failed shutdown is the last thing that happened to the plugin's runtime. */
  predicate Lost(log: seq<Event>, id: string) {
    log != [] &&
    var e := log[|log| - 1];
    if e.id != id || e.StartFailed? then Lost(log[..|log| - 1], id) else e.ShutDown? && !e.ok
  }

  /**
   Ready means active, Unhealthy means waiting for a retry; every handle belongs to a Ready plugin,
   and a Ready plugin is without a handle exactly when its runtime failed to shut down.
   */
  ghost predicate EntriesKept(h: Host) {
    (forall id :: id in h.entries ==>
      h.entries[id].manifest.id == id &&
      (h.entries[id].status == Ready <==> h.entries[id].runtimeActive) &&
      (h.entries[id].status == Unhealthy <==> h.entries[id].nextRetryAt.Some?) &&
      (h.entries[id].status == Ready ==> h.entries[id].lastActivityAt.Some? &&
                                         (id in h.handles <==> !Lost(h.log, id)))) &&
    (forall id :: id in h.handles ==> id in h.entries && h.entries[id].status == Ready)
  }

  ghost function Starts(log: seq<Event>): nat {
    if log == [] then 0 else Starts(log[..|log| - 1]) + if log[|log| - 1].Started? then 1 else 0
  }

  ghost function InitFailures(log: seq<Event>): nat {
    if log == [] then 0 else InitFailures(log[..|log| - 1]) + if log[|log| - 1].InitFailed? then 1 else 0
  }

  ghost function Shutdowns(log: seq<Event>): nat {
    if log == [] then 0 else Shutdowns(log[..|log| - 1]) + if log[|log| - 1].ShutDown? then 1 else 0
  }

  /** Every runtime started is one that failed to initialize, one still held or one asked to shut down. */
  ghost predicate RuntimesKept(h: Host) {
    Starts(h.log) == InitFailures(h.log) + |h.handles| + Shutdowns(h.log)
  }

  /** The last failed initialization of the plugin that no deactivation came after. */
  function PendingFailure(log: seq<Event>, id: string): Option<Instant> {
    if log == [] then None
    else
      match log[|log| - 1]
      case InitFailed(p, at) => if p == id then Some(at) else PendingFailure(log[..|log| - 1], id)
      case Deactivated(p) => if p == id then None else PendingFailure(log[..|log| - 1], id)
      case _ => PendingFailure(log[..|log| - 1], id)
  }

  /** When the backoff after the pending failure is over. */
  function RetryTime(log: seq<Event>, id: string, backoff: Duration): Option<Instant> {
    var failure := PendingFailure(log, id);
    if failure.Some? then Some(failure.value + backoff) else None
  }

  /** A plugin that is not Ready remembers its pending failure, and no other. */
  ghost predicate RetriesKept(h: Host) {
    (forall id :: PendingFailure(h.log, id).Some? ==> id in h.entries) &&
    (forall id :: id in h.entries && h.entries[id].status != Ready ==>
      h.entries[id].nextRetryAt == RetryTime(h.log, id, h.backoff))
  }

  /** Every start comes at least the backoff after the failure that was pending before it. */
  ghost predicate BackoffKept(log: seq<Event>, backoff: Duration) {
    forall j :: 0 <= j < |log| && (log[j].Started? || log[j].StartFailed?) ==>
      PendingFailure(log[..j], log[j].id).Some? ==>
        log[j].at >= PendingFailure(log[..j], log[j].id).value + backoff
  }

  predicate Timed(e: Event) {
    e.StartFailed? || e.Started? || e.InitFailed?
  }

  /** Starts and failures are logged in order of time. */
  ghost predicate TimesKept(log: seq<Event>, clock: Instant) {
    (forall i :: 0 <= i < |log| && Timed(log[i]) ==> log[i].at <= clock) &&
    forall i, j :: 0 <= i < j < |log| && Timed(log[i]) && Timed(log[j]) ==> log[i].at <= log[j].at
  }

  ghost predicate Inv(h: Host) {
    EntriesKept(h) && RuntimesKept(h) && RetriesKept(h) && BackoffKept(h.log, h.backoff) && TimesKept(h.log, h.clock)
  }

  lemma CountsOneMore(log: seq<Event>, e: Event)
    ensures Starts(log + [e]) == Starts(log) + if e.Started? then 1 else 0
    ensures InitFailures(log + [e]) == InitFailures(log) + if e.InitFailed? then 1 else 0
    ensures Shutdowns(log + [e]) == Shutdowns(log) + if e.ShutDown? then 1 else 0
  {
    assert (log + [e])[..|log|] == log;
  }

  lemma LostOneMore(log: seq<Event>, e: Event)
    ensures forall id :: Lost(log + [e], id) ==
              if e.id != id || e.StartFailed? then Lost(log, id) else e.ShutDown? && !e.ok
  {
    assert (log + [e])[..|log|] == log;
  }

  lemma PendingOneMore(log: seq<Event>, e: Event)
    ensures forall id :: PendingFailure(log + [e], id) ==
              if e == Deactivated(id) then None
              else if e.InitFailed? && e.id == id then Some(e.at) else PendingFailure(log, id)
  {
    assert (log + [e])[..|log|] == log;
  }

  predicate StartRespects(log: seq<Event>, e: Event, backoff: Duration) {
    e.Started? || e.StartFailed? ==>
      PendingFailure(log, e.id).Some? ==> e.at >= PendingFailure(log, e.id).value + backoff
  }

  lemma BackoffOneMore(log: seq<Event>, e: Event, backoff: Duration)
    requires BackoffKept(log, backoff) && StartRespects(log, e, backoff)
    ensures BackoffKept(log + [e], backoff)
  {
    var more := log + [e];
    forall j | 0 <= j < |more| ensures StartRespects(more[..j], more[j], backoff) {
      assert more[..j] == if j < |log| then log[..j] else log;
      assert j < |log| ==> more[j] == log[j] && StartRespects(log[..j], log[j], backoff);
    }
  }

  lemma EnsureEntries(h: Host, id: string, now: Instant, starts: bool, initializes: bool)
    requires EntriesKept(h)
    ensures EntriesKept(Ensure(h, id, now, starts, initializes).0)
  {
    hide Lost;
    LostOneMore(h.log, Started(id, now));
    LostOneMore(h.log, StartFailed(id, now));
    LostOneMore(h.log + [Started(id, now)], InitFailed(id, now));
  }

  lemma EnsureRuntimes(h: Host, id: string, now: Instant, starts: bool, initializes: bool)
    requires EntriesKept(h) && RuntimesKept(h)
    ensures RuntimesKept(Ensure(h, id, now, starts, initializes).0)
  {
    hide Lost, Starts, InitFailures, Shutdowns;
    CountsOneMore(h.log, Started(id, now));
    CountsOneMore(h.log, StartFailed(id, now));
    CountsOneMore(h.log + [Started(id, now)], InitFailed(id, now));
  }

  lemma EnsureRetries(h: Host, id: string, now: Instant, starts: bool, initializes: bool)
    requires EntriesKept(h) && RetriesKept(h)
    ensures RetriesKept(Ensure(h, id, now, starts, initializes).0)
  {
    hide Lost, PendingFailure;
    PendingOneMore(h.log, Started(id, now));
    PendingOneMore(h.log, StartFailed(id, now));
    PendingOneMore(h.log + [Started(id, now)], InitFailed(id, now));
  }

  lemma EnsureTimes(h: Host, id: string, now: Instant, starts: bool, initializes: bool)
    requires TimesKept(h.log, h.clock) && now == h.clock
    ensures var t := Ensure(h, id, now, starts, initializes).0; TimesKept(t.log, t.clock)
  {
  }

  lemma EnsureBackoff(h: Host, id: string, now: Instant, starts: bool, initializes: bool)
    requires EntriesKept(h) && RetriesKept(h) && BackoffKept(h.log, h.backoff)
    ensures var t := Ensure(h, id, now, starts, initializes).0; BackoffKept(t.log, t.backoff)
  {
    hide Lost, PendingFailure, BackoffKept;
    if id in h.entries && h.entries[id].status != Ready &&
       !(h.entries[id].nextRetryAt.Some? && h.entries[id].nextRetryAt.value > now) {
      BackoffOneMore(h.log, Started(id, now), h.backoff);
      BackoffOneMore(h.log, StartFailed(id, now), h.backoff);
      BackoffOneMore(h.log + [Started(id, now)], InitFailed(id, now), h.backoff);
    }
  }

  lemma EnsureKeeps(h: Host, id: string, now: Instant, starts: bool, initializes: bool)
    requires Inv(h) && now == h.clock
    ensures Inv(Ensure(h, id, now, starts, initializes).0)
  {
    hide Ensure, EntriesKept, RuntimesKept, RetriesKept, BackoffKept, TimesKept;
    EnsureEntries(h, id, now, starts, initializes);
    EnsureRuntimes(h, id, now, starts, initializes);
    EnsureRetries(h, id, now, starts, initializes);
    EnsureTimes(h, id, now, starts, initializes);
    EnsureBackoff(h, id, now, starts, initializes);
  }

  lemma RemoveKeeps(h: Host, id: string, ok: bool)
    requires Inv(h) && id in h.handles
    ensures var t := Shutdown(h, id, ok);
            RuntimesKept(t) && RetriesKept(t) && BackoffKept(t.log, t.backoff) && TimesKept(t.log, t.clock) &&
            (!ok ==> EntriesKept(t))
  {
    hide Lost, PendingFailure, Starts, InitFailures, Shutdowns;
    LostOneMore(h.log, ShutDown(id, ok));
    PendingOneMore(h.log, ShutDown(id, ok));
    CountsOneMore(h.log, ShutDown(id, ok));
    BackoffOneMore(h.log, ShutDown(id, ok), h.backoff);
  }

  /** Marking a plugin without a handle inactive; its entry may just have lost its runtime. */
  lemma MarkEntries(h: Host, before: Host, id: string)
    requires EntriesKept(before) && h.entries == before.entries && h.handles == before.handles - {id}
    requires forall p :: p != id ==> Lost(h.log, p) == Lost(before.log, p)
    ensures id in h.entries ==> EntriesKept(MarkInactive(h, id))
  {
    hide Lost;
    LostOneMore(h.log, Deactivated(id));
  }

  lemma MarkOthers(h: Host, id: string)
    requires RuntimesKept(h) && RetriesKept(h) && BackoffKept(h.log, h.backoff) && TimesKept(h.log, h.clock)
    ensures var t := MarkInactive(h, id);
            RuntimesKept(t) && RetriesKept(t) && BackoffKept(t.log, t.backoff) && TimesKept(t.log, t.clock)
  {
    hide Lost, PendingFailure, Starts, InitFailures, Shutdowns, BackoffKept;
    PendingOneMore(h.log, Deactivated(id));
    CountsOneMore(h.log, Deactivated(id));
    BackoffOneMore(h.log, Deactivated(id), h.backoff);
  }

  lemma ShutdownKeeps(h: Host, id: string, ok: bool)
    requires Inv(h)
    ensures var t := Shutdown(h, id, ok);
            if ShutdownWorks(h, id, ok) then Inv(MarkInactive(t, id)) else Inv(t)
  {
    hide RuntimesKept, RetriesKept, BackoffKept, TimesKept, Lost;
    var t := Shutdown(h, id, ok);
    if id in h.handles {
      RemoveKeeps(h, id, ok);
      LostOneMore(h.log, ShutDown(id, ok));
    }
    if ShutdownWorks(h, id, ok) {
      MarkEntries(t, h, id);
      MarkOthers(t, id);
    }
  }

  lemma {:induction false} EvictKeeps(h: Host, ids: seq<string>, timeout: Duration, now: Instant, failing: set<string>)
    requires Inv(h)
    ensures Inv(EvictFrom(h, ids, timeout, now, failing).host)
    decreases |ids|
  {
    hide Inv, Shutdown, MarkInactive, Idle;
    if ids != [] {
      if !Idle(h, ids[0], timeout, now) {
        EvictKeeps(h, ids[1..], timeout, now, failing);
      } else {
        ShutdownKeeps(h, ids[0], ids[0] !in failing);
        if ShutdownWorks(h, ids[0], ids[0] !in failing) {
          EvictKeeps(MarkInactive(Shutdown(h, ids[0], ids[0] !in failing), ids[0]), ids[1..], timeout, now, failing);
        }
      }
    }
  }

  lemma TimePasses(h: Host, now: Instant)
    requires Inv(h) && now >= h.clock
    ensures Inv(h.(clock := now))
  {
    hide Lost, PendingFailure, Starts, InitFailures, Shutdowns;
  }

  lemma TouchKeeps(h: Host, id: string, now: Instant)
    requires Inv(h)
    ensures Inv(Touch(h, id, now))
  {
    hide Lost, PendingFailure, Starts, InitFailures, Shutdowns;
  }

  lemma {:induction false} EnsureAllKeeps(h: Host, ids: seq<string>, attempts: seq<Attempt>)
    requires Inv(h) && |attempts| >= |ids| && InTime(h.clock, attempts)
    ensures Inv(EnsureAll(h, ids, attempts).0)
    decreases |ids|
  {
    hide Inv, Ensure;
    if ids != [] {
      var a := attempts[0];
      TimePasses(h, a.now);
      EnsureKeeps(h.(clock := a.now), ids[0], a.now, a.starts, a.initializes);
      EnsureKeepsClock(h.(clock := a.now), ids[0], a);
      EnsureAllKeeps(EnsureAt(h, ids[0], a).0, ids[1..], attempts[1..]);
    }
  }

  lemma EnsureKeepsClock(h: Host, id: string, a: Attempt)
    ensures Ensure(h, id, a.now, a.starts, a.initializes).0.clock == h.clock
    ensures Ensure(h, id, a.now, a.starts, a.initializes).0.backoff == h.backoff
  {
  }

  lemma ApplyKeeps(h: Host, c: Call)
    requires Inv(h) && Enabled(h, c)
    ensures Inv(Apply(h, c))
  {
    hide Inv, Touch, Ensure, EnsureAll, EvictFrom, InTime;
    var h0 := h.(clock := TimeOf(h, c));
    TimePasses(h, TimeOf(h, c));
    match c
    case EnsureActive(id, now, starts, initializes) => EnsureKeeps(h0, id, now, starts, initializes);
    case StartUp(attempts) => EnsureAllKeeps(h0, Listed(StartupPlugins(h0)), attempts);
    case Deactivate(id, ok) => ShutdownKeeps(h0, id, ok);
    case RecordActivity(id, now) => TouchKeeps(h0, id, now);
    case EvictIdle(timeout, now, failing) => EvictKeeps(h0, Listed(h0.entries.Keys), timeout, now, failing);
  }

  lemma {:induction false} RunKeeps(h: Host, calls: seq<Call>)
    requires Inv(h) && CanRun(h, calls)
    ensures Inv(Run(h, calls))
    decreases |calls|
  {
    hide Inv, Apply, Enabled;
    if calls != [] {
      ApplyKeeps(h, calls[0]);
      RunKeeps(Apply(h, calls[0]), calls[1..]);
    }
  }

  lemma {:induction false} FreshEntries(installed: seq<Installed>)
    ensures forall id :: id in Registered(installed) ==>
              Registered(installed)[id] == NewEntry((Registered(installed)[id].manifest, Registered(installed)[id].installedPath)) &&
              Registered(installed)[id].manifest.id == id
  {
    if installed != [] {
      FreshEntries(installed[..|installed| - 1]);
    }
  }

  /** Whatever is called in whatever order, and whichever runtimes fail, the invariant holds. */
  lemma EveryRunKeepsInv(installed: seq<Installed>, backoff: Duration, calls: seq<Call>)
    requires CanRun(NewHost(installed, backoff), calls)
    ensures Inv(Run(NewHost(installed, backoff), calls))
  {
    FreshEntries(installed);
    RunKeeps(NewHost(installed, backoff), calls);
  }

  // ---- Retries, handles and eviction

  lemma {:induction false} PendingSince(h: Host, id: string, i: nat, j: nat)
    requires TimesKept(h.log, h.clock) && i < j <= |h.log|
    requires h.log[i].InitFailed? && h.log[i].id == id
    requires forall k :: i < k < j ==> h.log[k] != Deactivated(id)
    ensures PendingFailure(h.log[..j], id).Some? && PendingFailure(h.log[..j], id).value >= h.log[i].at
  {
    assert h.log[..j][..j - 1] == h.log[..j - 1] && h.log[..j][j - 1] == h.log[j - 1];
    if j - 1 > i {
      PendingSince(h, id, i, j - 1);
    }
  }

  /**
   After an initialization of a plugin failed, no start of it is attempted before the backoff is over,
   unless the plugin was deactivated in between; what happens to other plugins makes no difference.
   */
  lemma NoEarlyRetry(installed: seq<Installed>, backoff: Duration, calls: seq<Call>, i: nat, j: nat)
    requires CanRun(NewHost(installed, backoff), calls)
    requires var log := Run(NewHost(installed, backoff), calls).log;
             i < j < |log| && log[i].InitFailed? && (log[j].Started? || log[j].StartFailed?) &&
             log[i].id == log[j].id && forall k :: i < k < j ==> log[k] != Deactivated(log[i].id)
    ensures var log := Run(NewHost(installed, backoff), calls).log; log[j].at >= log[i].at + backoff
  {
    var h := Run(NewHost(installed, backoff), calls);
    EveryRunKeepsInv(installed, backoff, calls);
    RunKeepsBackoff(NewHost(installed, backoff), calls);
    PendingSince(h, h.log[i].id, i, j);
  }

  lemma {:induction false} EnsureAllKeepsBackoff(h: Host, ids: seq<string>, attempts: seq<Attempt>)
    requires |attempts| >= |ids|
    ensures EnsureAll(h, ids, attempts).0.backoff == h.backoff
    decreases |ids|
  {
    hide Ensure;
    if ids != [] {
      EnsureKeepsClock(h.(clock := attempts[0].now), ids[0], attempts[0]);
      EnsureAllKeepsBackoff(EnsureAt(h, ids[0], attempts[0]).0, ids[1..], attempts[1..]);
    }
  }

  lemma {:induction false} EvictKeepsBackoff(h: Host, ids: seq<string>, timeout: Duration, now: Instant, failing: set<string>)
    ensures EvictFrom(h, ids, timeout, now, failing).host.backoff == h.backoff
    decreases |ids|
  {
    if ids != [] {
      EvictKeepsBackoff(h, ids[1..], timeout, now, failing);
      EvictKeepsBackoff(MarkInactive(Shutdown(h, ids[0], ids[0] !in failing), ids[0]), ids[1..], timeout, now, failing);
    }
  }

  lemma {:induction false} RunKeepsBackoff(h: Host, calls: seq<Call>)
    requires CanRun(h, calls)
    ensures Run(h, calls).backoff == h.backoff
    decreases |calls|
  {
    if calls != [] {
      if calls[0].EvictIdle? {
        var h0 := h.(clock := calls[0].now);
        EvictKeepsBackoff(h0, Listed(h0.entries.Keys), calls[0].timeout, calls[0].now, calls[0].failing);
      }
      if calls[0].StartUp? {
        EnsureAllKeepsBackoff(h, Listed(StartupPlugins(h)), calls[0].attempts);
      }
      RunKeepsBackoff(Apply(h, calls[0]), calls[1..]);
    }
  }

  /** What `EnsureAll` changes and reports, for plugins listed once. */
  ghost predicate StartsExactly(h: Host, ids: seq<string>, r: (Host, Result<seq<string>, ActivationError>)) {
    r.0.entries.Keys == h.entries.Keys &&
    (forall q :: q in h.entries && q !in ids ==> r.0.entries[q] == h.entries[q]) &&
    (r.1.Ok? ==>
      StrictlyAscending(r.1.value) &&
      (forall q :: q in r.1.value <==> q in ids && q in h.entries && h.entries[q].status != Ready) &&
      (forall q <- ids :: q in r.0.entries && r.0.entries[q].status == Ready) &&
      (forall q :: q in r.0.handles <==> q in h.handles || q in r.1.value))
  }

  /** A start-up that succeeds leaves every listed plugin Ready and reports those that were not. */
  lemma {:induction false} StartUpIsExact(h: Host, ids: seq<string>, attempts: seq<Attempt>)
    requires StrictlyAscending(ids) && |attempts| >= |ids|
    ensures StartsExactly(h, ids, EnsureAll(h, ids, attempts))
    decreases |ids|
  {
    hide Before, StrictlyAscending, Heads, StartsExactly, Ensure;
    if ids == [] {
      NothingToStart(h);
      return;
    }
    var p, rest, a := ids[0], ids[1..], attempts[0];
    assert ids == [p] + rest;
    HeadFirst(ids);
    var (h1, r) := EnsureAt(h, p, a);
    if r.Ok? {
      StartUpIsExact(h1, rest, attempts[1..]);
      var (h2, r2) := EnsureAll(h1, rest, attempts[1..]);
      StartOneMore(h.(clock := a.now), p, rest, a.now, a.starts, a.initializes, (h2, r2));
      TimeStartsNothing(h, a.now, ids, EnsureAll(h, ids, attempts));
    } else {
      StartFails(h.(clock := a.now), ids, a.now, a.starts, a.initializes);
      TimeStartsNothing(h, a.now, ids, (h1, Err(r.error)));
    }
  }

  lemma TimeStartsNothing(h: Host, now: Instant, ids: seq<string>, r: (Host, Result<seq<string>, ActivationError>))
    requires StartsExactly(h.(clock := now), ids, r)
    ensures StartsExactly(h, ids, r)
  {
  }

  lemma NothingToStart(h: Host)
    ensures StartsExactly(h, [], (h, Ok([])))
  {
  }

  lemma StartFails(h: Host, ids: seq<string>, now: Instant, starts: bool, initializes: bool)
    requires ids != [] && Ensure(h, ids[0], now, starts, initializes).1.Err?
    ensures var (h1, r) := Ensure(h, ids[0], now, starts, initializes); StartsExactly(h, ids, (h1, Err(r.error)))
  {
  }

  lemma StartOneMore(h: Host, p: string, rest: seq<string>, now: Instant, starts: bool, initializes: bool,
                     r2: (Host, Result<seq<string>, ActivationError>))
    requires Heads(p, rest) && Ensure(h, p, now, starts, initializes).1.Ok?
    requires StartsExactly(Ensure(h, p, now, starts, initializes).0, rest, r2)
    ensures var r := Ensure(h, p, now, starts, initializes).1;
            StartsExactly(h, [p] + rest,
              (r2.0, if r2.1.Err? then r2.1 else Ok((if r.value then [p] else []) + r2.1.value)))
  {
    hide Before, StrictlyAscending;
    if r2.1.Ok? {
      EvictAscending(p, rest, r2.1.value);
      assert [] + r2.1.value == r2.1.value;
    }
  }

  /** A plugin that is not Ready is refused exactly while the backoff after its pending failure lasts. */
  lemma BackoffExactly(h: Host, id: string, now: Instant, starts: bool, initializes: bool)
    requires Inv(h)
    ensures Ensure(h, id, now, starts, initializes).1 == Err(BackoffActive(id)) <==>
              id in h.entries && h.entries[id].status != Ready && PendingFailure(h.log, id).Some? &&
              now < PendingFailure(h.log, id).value + h.backoff
  {
    hide PendingFailure;
  }

  /** A runtime that becomes active never replaces one that is still held. */
  lemma InsertReplacesNothing(h: Host, id: string, now: Instant, starts: bool, initializes: bool)
    requires Inv(h) && now >= h.clock
    ensures Ensure(h, id, now, starts, initializes).1 == Ok(true) ==> id !in h.handles
  {
  }

  /** A plugin reported active has a runtime exactly when its last shutdown did not fail. */
  lemma ActiveHasRuntimeUnlessLost(h: Host, id: string, now: Instant, starts: bool, initializes: bool)
    requires Inv(h) && now >= h.clock
    ensures var (t, r) := Ensure(h.(clock := now), id, now, starts, initializes);
            r.Ok? ==> (id in t.handles <==> !Lost(t.log, id))
  {
    EnsureKeeps(h.(clock := now), id, now, starts, initializes);
  }

  /** A runtime that fails to shut down is gone, and the plugin is reported active all the same. */
  lemma FailedShutdownLeavesReady()
    ensures var h0 := NewHost([(Manifest("p", Lazy), "/plugins/p")], 5);
            var (h1, r1) := Ensure(h0, "p", 0, true, true);
            var (h2, r2) := DeactivateOne(h1, "p", false);
            var (h3, r3) := Ensure(h2, "p", 1, true, true);
            r1 == Ok(true) && r2 == Err(ShutdownFailed("p")) && r3 == Ok(false) && h3.handles == {}
  {
    var m := (Manifest("p", Lazy), "/plugins/p");
    assert [m][..0] == [];
    assert Registered([m]) == map["p" := NewEntry(m)];
  }

  /** The plugins that are idle and whose runtime will fail to shut down. */
  predicate Blocks(h: Host, id: string, timeout: Duration, now: Instant, failing: set<string>) {
    Idle(h, id, timeout, now) && id in h.handles && id in failing
  }

  ghost predicate ReachedBy(r: Eviction, id: string) {
    r.failedAt.None? || Before(id, r.failedAt.value)
  }

  /** The sweep stops at the first idle plugin whose runtime fails to shut down, if there is one. */
  ghost predicate StopsRight(h: Host, ids: seq<string>, timeout: Duration, now: Instant, failing: set<string>, r: Eviction) {
    (forall q <- ids :: ReachedBy(r, q) ==> !Blocks(h, q, timeout, now, failing)) &&
    (r.failedAt.Some? ==> r.failedAt.value in ids && Blocks(h, r.failedAt.value, timeout, now, failing))
  }

  /** Exactly the idle plugins before that point are reported. */
  ghost predicate ReportsRight(h: Host, ids: seq<string>, timeout: Duration, now: Instant, r: Eviction) {
    forall q :: q in r.evicted <==> q in ids && Idle(h, q, timeout, now) && ReachedBy(r, q)
  }

  /** Exactly the reported plugins are inactive; the runtimes of those and of the failing one are gone. */
  ghost predicate ChangesRight(h: Host, r: Eviction) {
    r.host.entries.Keys == h.entries.Keys &&
    (forall q :: q in h.entries ==>
      r.host.entries[q] == if q in r.evicted then h.entries[q].Deactivated() else h.entries[q]) &&
    (forall q :: q in r.host.handles <==> q in h.handles && q !in r.evicted && r.failedAt != Some(q))
  }

  ghost predicate EvictsExactly(h: Host, ids: seq<string>, timeout: Duration, now: Instant, failing: set<string>, r: Eviction) {
    StopsRight(h, ids, timeout, now, failing, r) && StrictlyAscending(r.evicted) &&
    ReportsRight(h, ids, timeout, now, r) && ChangesRight(h, r)
  }

  /** `p` comes before everything in `rest`. */
  ghost predicate Heads(p: string, rest: seq<string>) {
    forall q <- rest :: q != p && Before(p, q) && !Before(q, p)
  }

  lemma HeadFirst(ids: seq<string>)
    requires StrictlyAscending(ids) && ids != []
    ensures Heads(ids[0], ids[1..]) && StrictlyAscending(ids[1..]) && !Before(ids[0], ids[0])
  {
    hide Before;
    Irreflexive(ids[0]);
    forall q <- ids[1..] ensures q != ids[0] && Before(ids[0], q) && !Before(q, ids[0]) {
      var k :| 0 <= k < |ids[1..]| && ids[1..][k] == q;
      assert ids[k + 1] == q;
      Asymmetric(ids[0], q);
    }
  }

  lemma SkipStops(h: Host, p: string, rest: seq<string>, timeout: Duration, now: Instant, failing: set<string>, r: Eviction)
    requires Heads(p, rest) && !Idle(h, p, timeout, now)
    requires StopsRight(h, rest, timeout, now, failing, r) && ReportsRight(h, rest, timeout, now, r)
    ensures StopsRight(h, [p] + rest, timeout, now, failing, r) && ReportsRight(h, [p] + rest, timeout, now, r)
  {
    hide Before, Idle;
  }

  lemma OthersUntouched(h: Host, p: string, q: string, ok: bool, timeout: Duration, now: Instant, failing: set<string>)
    requires p != q
    ensures var h1 := MarkInactive(Shutdown(h, p, ok), p);
            Idle(h1, q, timeout, now) == Idle(h, q, timeout, now) &&
            Blocks(h1, q, timeout, now, failing) == Blocks(h, q, timeout, now, failing)
  {
  }

  lemma EvictStops(h: Host, p: string, rest: seq<string>, timeout: Duration, now: Instant, failing: set<string>, r1: Eviction)
    requires Heads(p, rest) && Idle(h, p, timeout, now) && !Blocks(h, p, timeout, now, failing)
    requires var h1 := MarkInactive(Shutdown(h, p, p !in failing), p);
             StopsRight(h1, rest, timeout, now, failing, r1) && ReportsRight(h1, rest, timeout, now, r1)
    ensures var r := r1.(evicted := [p] + r1.evicted);
            StopsRight(h, [p] + rest, timeout, now, failing, r) && ReportsRight(h, [p] + rest, timeout, now, r)
  {
    hide Before, Idle, Blocks, MarkInactive, Shutdown;
    var ok := p !in failing;
    var h1 := MarkInactive(Shutdown(h, p, ok), p);
    forall q <- rest ensures Idle(h1, q, timeout, now) == Idle(h, q, timeout, now) &&
                             Blocks(h1, q, timeout, now, failing) == Blocks(h, q, timeout, now, failing)
    {
      OthersUntouched(h, p, q, ok, timeout, now, failing);
    }
    assert r1.failedAt.Some? ==> Before(p, r1.failedAt.value);
  }

  lemma EvictChanges(h: Host, p: string, ok: bool, r1: Eviction)
    requires p in h.entries && p !in r1.evicted
    requires ChangesRight(MarkInactive(Shutdown(h, p, ok), p), r1)
    ensures ChangesRight(h, r1.(evicted := [p] + r1.evicted))
  {
  }

  lemma EvictAscending(p: string, rest: seq<string>, evicted: seq<string>)
    requires Heads(p, rest) && StrictlyAscending(evicted) && forall q <- evicted :: q in rest
    ensures StrictlyAscending([p] + evicted)
  {
    hide Before;
    assert forall k :: 0 <= k < |evicted| ==> evicted[k] in evicted;
  }

  /**
   Going through plugins in ascending order deactivates exactly the idle ones up to the first whose
   runtime fails to shut down, lists them in ascending order, and leaves all other entries as they were.
   */
  lemma {:induction false} EvictionIsExact(h: Host, ids: seq<string>, timeout: Duration, now: Instant, failing: set<string>)
    requires StrictlyAscending(ids)
    ensures EvictsExactly(h, ids, timeout, now, failing, EvictFrom(h, ids, timeout, now, failing))
    decreases |ids|
  {
    hide Before, Idle, Heads, StrictlyAscending, Shutdown, MarkInactive, StopsRight, ReportsRight, ChangesRight;
    if ids == [] {
      NothingToEvict(h, timeout, now, failing);
      return;
    }
    var p, rest := ids[0], ids[1..];
    assert ids == [p] + rest;
    HeadFirst(ids);
    if !Idle(h, p, timeout, now) {
      EvictionIsExact(h, rest, timeout, now, failing);
      SkipStops(h, p, rest, timeout, now, failing, EvictFrom(h, rest, timeout, now, failing));
    } else if Blocks(h, p, timeout, now, failing) {
      BlockedAtOnce(h, p, rest, timeout, now, failing);
    } else {
      var h1 := MarkInactive(Shutdown(h, p, p !in failing), p);
      EvictionIsExact(h1, rest, timeout, now, failing);
      var r1 := EvictFrom(h1, rest, timeout, now, failing);
      EvictStops(h, p, rest, timeout, now, failing, r1);
      ReportedAreListed(h1, p, rest, timeout, now, r1);
      EvictAscending(p, rest, r1.evicted);
      assert p in h.entries by { IdleIsRegistered(h, p, timeout, now); }
      EvictChanges(h, p, p !in failing, r1);
    }
  }

  lemma NothingToEvict(h: Host, timeout: Duration, now: Instant, failing: set<string>)
    ensures EvictsExactly(h, [], timeout, now, failing, Eviction(h, [], None))
  {
  }

  lemma IdleIsRegistered(h: Host, p: string, timeout: Duration, now: Instant)
    requires Idle(h, p, timeout, now)
    ensures p in h.entries
  {
  }

  lemma ReportedAreListed(h: Host, p: string, rest: seq<string>, timeout: Duration, now: Instant, r: Eviction)
    requires ReportsRight(h, rest, timeout, now, r) && Heads(p, rest)
    ensures p !in r.evicted && forall q <- r.evicted :: q in rest
  {
  }

  lemma BlockedAtOnce(h: Host, p: string, rest: seq<string>, timeout: Duration, now: Instant, failing: set<string>)
    requires Heads(p, rest) && !Before(p, p) && Blocks(h, p, timeout, now, failing)
    ensures EvictsExactly(h, [p] + rest, timeout, now, failing, Eviction(Shutdown(h, p, false), [], Some(p)))
  {
    hide Before, Idle;
  }

  // ---- Use, by the calls

  /**
   When the plugin was last used once the call has been made, if it was `before`: when its activity was
   recorded or a call activated it.
   */
  ghost function UseIn(h: Host, c: Call, id: string, before: Option<Instant>): Option<Instant>
    requires Enabled(h, c)
  {
    match c
    case RecordActivity(i, now) => if i == id && id in h.entries then Some(now) else before
    case EnsureActive(i, now, starts, initializes) =>
      if i == id && EnsureAt(h, id, Attempt(now, starts, initializes)).1 == Ok(true) then Some(now) else before
    case StartUp(attempts) => StartUpUse(h, Listed(StartupPlugins(h)), attempts, id, before)
    case Deactivate(_, _) => before
    case EvictIdle(_, _, _) => before
  }

  function StartUpUse(h: Host, ids: seq<string>, attempts: seq<Attempt>, id: string, before: Option<Instant>): Option<Instant>
    requires |attempts| >= |ids|
    decreases |ids|
  {
    if ids == [] then before
    else
      var (h1, r) := EnsureAt(h, ids[0], attempts[0]);
      var use := if ids[0] == id && r == Ok(true) then Some(attempts[0].now) else before;
      if r.Err? then use else StartUpUse(h1, ids[1..], attempts[1..], id, use)
  }

  ghost function LastUse(h: Host, calls: seq<Call>, id: string, before: Option<Instant>): Option<Instant>
    requires CanRun(h, calls)
    decreases |calls|
  {
    if calls == [] then before else LastUse(Apply(h, calls[0]), calls[1..], id, UseIn(h, calls[0], id, before))
  }

  lemma {:induction false} StartUpUses(h: Host, ids: seq<string>, attempts: seq<Attempt>, id: string)
    requires |attempts| >= |ids| && id in h.entries
    ensures var t := EnsureAll(h, ids, attempts).0;
            id in t.entries && t.entries[id].lastActivityAt == StartUpUse(h, ids, attempts, id, h.entries[id].lastActivityAt)
    decreases |ids|
  {
    if ids != [] {
      var (h1, r) := EnsureAt(h, ids[0], attempts[0]);
      if r.Ok? {
        StartUpUses(h1, ids[1..], attempts[1..], id);
      }
    }
  }

  lemma CallUses(h: Host, c: Call, id: string)
    requires Enabled(h, c) && id in h.entries
    ensures id in Apply(h, c).entries
    ensures Apply(h, c).entries[id].lastActivityAt == UseIn(h, c, id, h.entries[id].lastActivityAt)
  {
    hide EnsureAll, EvictFrom, StartUpUse, EvictsExactly;
    match c
    case StartUp(attempts) => StartUpUses(h, Listed(StartupPlugins(h)), attempts, id);
    case EvictIdle(timeout, now, failing) =>
      var h0 := h.(clock := now);
      EvictionKeepsUse(h0, Listed(h0.entries.Keys), timeout, now, failing, id);
    case _ =>
  }

  lemma EvictionKeepsUse(h: Host, ids: seq<string>, timeout: Duration, now: Instant, failing: set<string>, id: string)
    requires StrictlyAscending(ids) && id in h.entries
    ensures var t := EvictFrom(h, ids, timeout, now, failing).host;
            id in t.entries && t.entries[id].lastActivityAt == h.entries[id].lastActivityAt
  {
    hide StrictlyAscending, EvictFrom;
    EvictionIsExact(h, ids, timeout, now, failing);
  }

  lemma {:induction false} RunUses(h: Host, calls: seq<Call>, id: string)
    requires CanRun(h, calls) && id in h.entries
    ensures id in Run(h, calls).entries
    ensures Run(h, calls).entries[id].lastActivityAt == LastUse(h, calls, id, h.entries[id].lastActivityAt)
    decreases |calls|
  {
    hide Apply, Enabled, UseIn;
    if calls != [] {
      CallUses(h, calls[0], id);
      RunUses(Apply(h, calls[0]), calls[1..], id);
    }
  }

  /**
   Idle eviction after any run: a plugin used less than the timeout ago is left as it is, and one that was
   not is deactivated when all shutdowns work.
   */
  lemma EvictedExactlyWhenUnused(installed: seq<Installed>, backoff: Duration, calls: seq<Call>, id: string,
                                 timeout: Duration, now: Instant, failing: set<string>)
    requires CanRun(NewHost(installed, backoff), calls) && id in Registered(installed)
    requires now >= Run(NewHost(installed, backoff), calls).clock
    requires id in Run(NewHost(installed, backoff), calls).entries
    requires Run(NewHost(installed, backoff), calls).entries[id].status == Ready
    ensures var h := Run(NewHost(installed, backoff), calls);
            var use := LastUse(NewHost(installed, backoff), calls, id, None);
            var t := Apply(h, EvictIdle(timeout, now, failing));
            use.Some? && id in t.entries &&
            (now < use.value + timeout ==> t.entries[id] == h.entries[id] && (id in t.handles <==> id in h.handles)) &&
            (now >= use.value + timeout && h.handles !! failing ==> t.entries[id].status == Inactive && id !in t.handles)
  {
    hide CanRun, Run, LastUse, Registered, StrictlyAscending, EvictFrom, RuntimesKept, RetriesKept, BackoffKept, TimesKept, Lost;
    var h0 := NewHost(installed, backoff);
    var h := Run(h0, calls);
    FreshEntries(installed);
    RunUses(h0, calls, id);
    EveryRunKeepsInv(installed, backoff, calls);
    var ids := Listed(h.entries.Keys);
    assert id in Members(ids);
    EvictionIsExact(h.(clock := now), ids, timeout, now, failing);
  }

  // ---- Backoff, by the calls

  predicate WaitsUntil(h: Host, id: string, until: Instant) {
    id in h.entries && h.entries[id].status == Unhealthy && !h.entries[id].runtimeActive &&
    h.entries[id].nextRetryAt == Some(until)
  }

  lemma {:induction false} StartUpPasses(h: Host, ids: seq<string>, attempts: seq<Attempt>)
    requires |attempts| >= |ids| && InTime(h.clock, attempts)
    ensures EnsureAll(h, ids, attempts).0.clock >= if ids == [] then h.clock else attempts[0].now
    decreases |ids|
  {
    hide Ensure;
    if ids != [] {
      EnsureKeepsClock(h.(clock := attempts[0].now), ids[0], attempts[0]);
      var (h1, r) := EnsureAt(h, ids[0], attempts[0]);
      StartUpPasses(h1, ids[1..], attempts[1..]);
    }
  }

  lemma {:induction false} StartUpKeepsWaiting(h: Host, ids: seq<string>, attempts: seq<Attempt>, id: string, until: Instant)
    requires |attempts| >= |ids| && InTime(h.clock, attempts) && WaitsUntil(h, id, until)
    requires EnsureAll(h, ids, attempts).0.clock < until
    ensures WaitsUntil(EnsureAll(h, ids, attempts).0, id, until)
    decreases |ids|
  {
    hide Ensure;
    if ids != [] {
      StartUpPasses(h, ids, attempts);
      EnsureKeepsClock(h.(clock := attempts[0].now), ids[0], attempts[0]);
      var (h1, r) := EnsureAt(h, ids[0], attempts[0]);
      EnsureKeepsWaiting(h, ids[0], attempts[0], id, until);
      if r.Ok? {
        StartUpKeepsWaiting(h1, ids[1..], attempts[1..], id, until);
      }
    }
  }

  lemma EnsureKeepsWaiting(h: Host, other: string, a: Attempt, id: string, until: Instant)
    requires WaitsUntil(h, id, until) && a.now < until
    ensures WaitsUntil(EnsureAt(h, other, a).0, id, until)
  {
  }

  lemma CallKeepsWaiting(h: Host, c: Call, id: string, until: Instant)
    requires Enabled(h, c) && WaitsUntil(h, id, until) && !(c.Deactivate? && c.id == id)
    requires Apply(h, c).clock < until
    ensures WaitsUntil(Apply(h, c), id, until)
  {
    hide EnsureAll, EvictFrom, StrictlyAscending;
    match c
    case EnsureActive(i, now, starts, initializes) =>
      EnsureKeepsClock(h.(clock := now), i, Attempt(now, starts, initializes));
      EnsureKeepsWaiting(h, i, Attempt(now, starts, initializes), id, until);
    case StartUp(attempts) => StartUpKeepsWaiting(h, Listed(StartupPlugins(h)), attempts, id, until);
    case EvictIdle(timeout, now, failing) => EvictionIsExact(h.(clock := now), Listed(h.entries.Keys), timeout, now, failing);
    case _ =>
  }

  lemma CallPasses(h: Host, c: Call)
    requires Enabled(h, c)
    ensures Apply(h, c).clock >= h.clock
  {
    hide EnsureAll, EvictFrom;
    match c
    case StartUp(attempts) =>
      StartUpPasses(h, Listed(StartupPlugins(h)), attempts);
    case EvictIdle(timeout, now, failing) => EvictionPasses(h.(clock := now), Listed(h.entries.Keys), timeout, now, failing);
    case _ =>
  }

  lemma {:induction false} EvictionPasses(h: Host, ids: seq<string>, timeout: Duration, now: Instant, failing: set<string>)
    ensures EvictFrom(h, ids, timeout, now, failing).host.clock == h.clock
    decreases |ids|
  {
    if ids != [] {
      EvictionPasses(h, ids[1..], timeout, now, failing);
      EvictionPasses(MarkInactive(Shutdown(h, ids[0], ids[0] !in failing), ids[0]), ids[1..], timeout, now, failing);
    }
  }

  lemma {:induction false} RunPasses(h: Host, calls: seq<Call>)
    requires CanRun(h, calls)
    ensures Run(h, calls).clock >= h.clock
    decreases |calls|
  {
    hide Apply, Enabled;
    if calls != [] {
      CallPasses(h, calls[0]);
      RunPasses(Apply(h, calls[0]), calls[1..]);
    }
  }

  predicate NeverDeactivates(calls: seq<Call>, id: string) {
    forall k :: 0 <= k < |calls| ==> !(calls[k].Deactivate? && calls[k].id == id)
  }

  lemma {:induction false} RunKeepsWaiting(h: Host, calls: seq<Call>, id: string, until: Instant)
    requires CanRun(h, calls) && WaitsUntil(h, id, until) && NeverDeactivates(calls, id) && Run(h, calls).clock < until
    ensures WaitsUntil(Run(h, calls), id, until)
    decreases |calls|
  {
    hide Apply, Enabled, WaitsUntil;
    if calls != [] {
      RunPasses(Apply(h, calls[0]), calls[1..]);
      CallKeepsWaiting(h, calls[0], id, until);
      assert forall k :: 0 <= k < |calls| - 1 ==> calls[1..][k] == calls[k + 1];
      RunKeepsWaiting(Apply(h, calls[0]), calls[1..], id, until);
    }
  }

  /**
   After an initialization that failed, whatever is called meanwhile but a deactivation of the plugin, it is
   refused exactly until the backoff is over.
   */
  lemma RefusedExactlyDuringBackoff(h: Host, id: string, failed: Attempt, calls: seq<Call>, again: Attempt)
    requires EnsureAt(h, id, failed).1 == Err(InitializationFailed(id))
    requires CanRun(EnsureAt(h, id, failed).0, calls) && NeverDeactivates(calls, id)
    requires Run(EnsureAt(h, id, failed).0, calls).clock < failed.now + h.backoff
    ensures var t := Run(EnsureAt(h, id, failed).0, calls);
            EnsureAt(t, id, again).1 == Err(BackoffActive(id)) <==> again.now < failed.now + h.backoff
  {
    hide CanRun, Run;
    RunKeepsWaiting(EnsureAt(h, id, failed).0, calls, id, failed.now + h.backoff);
  }

  /** A deactivation ends the backoff. */
  lemma DeactivationEndsBackoff(h: Host, id: string, ok: bool, again: Attempt)
    requires DeactivateOne(h, id, ok).1 == Ok(())
    ensures EnsureAt(DeactivateOne(h, id, ok).0, id, again).1 !in {Err(BackoffActive(id)), Ok(false)}
  {
  }

  // ---- The registry and the manager

  class PluginRegistry {
    var entries: map<string, Entry>

    constructor FromEntries(installed: seq<Installed>)
      ensures entries == Registered(installed)
    {
      entries := map[];
      new;
      for i := 0 to |installed|
        invariant entries == Registered(installed[..i])
      {
        var m := installed[i];
        assert installed[..i + 1][..i] == installed[..i];
        entries := entries[m.0.id := NewEntry(m)];
      }
      assert installed[..|installed|] == installed;
    }

    predicate Keyed()
      reads this
    {
      forall id <- entries :: entries[id].manifest.id == id
    }

    function Status(id: string): (status: Option<Status>)
      reads this
      ensures forall value :: status == Some(value) <==> id in entries && entries[id].status == value
    {
      if id in entries then Some(entries[id].status) else None
    }

    method PluginIds() returns (ids: seq<string>)
      ensures ids == Listed(entries.Keys)
    {
      ids := ListSet(entries.Keys);
    }

    method StartupPluginIds() returns (ids: seq<string>)
      requires Keyed()
      ensures ids == Listed(set id <- entries | entries[id].manifest.mode == Startup)
    {
      hide ListsStartup;
      var all := ListSet(entries.Keys);
      ids := [];
      NoneListed(entries, all);
      for i := 0 to |all|
        invariant ListsStartup(entries, all, i, ids)
      {
        assert all[i] in Members(all);
        OneMoreListed(entries, all, i, ids);
        if entries[all[i]].manifest.mode == Startup {
          ids := ids + [entries[all[i]].manifest.id];
        }
      }
      AllListed(entries, all, ids);
    }

    method Deactivate(id: string) returns (known: bool)
      modifies this
      ensures known == (id in old(entries))
      ensures entries == if known then
                           old(entries)[id := old(entries)[id].(status := Inactive, runtimeActive := false, nextRetryAt := None)]
                         else old(entries)
    {
      if id in entries {
        entries := entries[id := entries[id].(status := Inactive, runtimeActive := false, nextRetryAt := None)];
        return true;
      }
      return false;
    }
  }

  /** `ids` lists the startup plugins among the first `i` of `all`. */
  ghost predicate ListsStartup(entries: map<string, Entry>, all: seq<string>, i: nat, ids: seq<string>)
    requires i <= |all|
  {
    StrictlyAscending(ids) &&
    (forall id :: id in ids <==> id in all[..i] && id in entries && entries[id].manifest.mode == Startup)
  }

  lemma NoneListed(entries: map<string, Entry>, all: seq<string>)
    ensures ListsStartup(entries, all, 0, [])
  {
  }

  lemma OneMoreListed(entries: map<string, Entry>, all: seq<string>, i: nat, ids: seq<string>)
    requires i < |all| && StrictlyAscending(all) && all[i] in entries && ListsStartup(entries, all, i, ids)
    ensures ListsStartup(entries, all, i + 1,
                         if entries[all[i]].manifest.mode == Startup then ids + [all[i]] else ids)
  {
    hide Before;
    assert all[..i + 1] == all[..i] + [all[i]];
    assert forall k :: 0 <= k < |ids| ==> ids[k] in ids && ids[k] in all[..i];
  }

  lemma AllListed(entries: map<string, Entry>, all: seq<string>, ids: seq<string>)
    requires Members(all) == entries.Keys && ListsStartup(entries, all, |all|, ids)
    ensures ids == Listed(set id <- entries | entries[id].manifest.mode == Startup)
  {
    hide StrictlyAscending;
    var startup := set id <- entries | entries[id].manifest.mode == Startup;
    assert all[..|all|] == all;
    forall id ensures id in ids <==> id in startup {
      assert id in all <==> id in Members(all);
    }
    assert Members(ids) == startup;
    ListedIsUnique(ids, Listed(startup));
  }

  /** Whether the runtimes start, initialize and shut down is passed to the calls that would find out. */
  class ActivationManager {
    const registry: PluginRegistry
    const retryBackoff: Duration
    var activeRuntimes: set<string>
    ghost var clock: Instant
    ghost var log: seq<Event>

    ghost function View(): Host
      reads this, registry
    {
      Host(retryBackoff, registry.entries, activeRuntimes, clock, log)
    }

    constructor (registry: PluginRegistry, retryBackoff: Duration)
      ensures this.registry == registry && View() == Host(retryBackoff, registry.entries, {}, 0, [])
    {
      this.registry := registry;
      this.retryBackoff := retryBackoff;
      activeRuntimes := {};
      clock := 0;
      log := [];
    }

    method EnsureActive(id: string, now: Instant, starts: bool, initializes: bool) returns (r: Result<bool, ActivationError>)
      requires Inv(View()) && now >= clock
      modifies this, registry
      ensures Inv(View()) && clock == now
      ensures (View(), r) == Ensure(old(View()).(clock := now), id, now, starts, initializes)
      ensures r == if id !in old(registry.entries) then Err(UnknownPlugin(id))
                   else if old(registry.entries)[id].status == Ready then Ok(false)
                   else if old(registry.entries)[id].nextRetryAt.Some? && now < old(registry.entries)[id].nextRetryAt.value
                   then Err(BackoffActive(id))
                   else if !starts then Err(RuntimeStart)
                   else if !initializes then Err(InitializationFailed(id))
                   else Ok(true)
      ensures r == Ok(true) ==>
                registry.entries == old(registry.entries)[id := old(registry.entries)[id].(
                  status := Ready, runtimeActive := true, nextRetryAt := None, lastActivityAt := Some(now))] &&
                activeRuntimes == old(activeRuntimes) + {id} && log == old(log) + [Started(id, now)]
      ensures r == Err(InitializationFailed(id)) ==>
                registry.entries == old(registry.entries)[id := old(registry.entries)[id].(
                  status := Unhealthy, runtimeActive := false, nextRetryAt := Some(now + retryBackoff))] &&
                activeRuntimes == old(activeRuntimes) && log == old(log) + [Started(id, now), InitFailed(id, now)]
      ensures r != Ok(true) && r != Err(InitializationFailed(id)) ==>
                registry.entries == old(registry.entries) && activeRuntimes == old(activeRuntimes) &&
                log == if r == Err(RuntimeStart) then old(log) + [StartFailed(id, now)] else old(log)
    {
      hide Inv;
      ghost var h := View();
      TimePasses(h, now);
      EnsureKeeps(h.(clock := now), id, now, starts, initializes);
      clock := now;
      if id !in registry.entries {
        return Err(UnknownPlugin(id));
      }
      var entry := registry.entries[id];
      if entry.status == Ready {
        return Ok(false);
      }
      if entry.nextRetryAt.Some? {
        if entry.nextRetryAt.value > now {
          return Err(BackoffActive(id));
        }
      }
      if !starts {
        log := log + [StartFailed(id, now)];
        return Err(RuntimeStart);
      }
      log := log + [Started(id, now)];
      if !initializes {
        log := log + [InitFailed(id, now)];
        registry.entries := registry.entries[id :=
          entry.(status := Unhealthy, runtimeActive := false, nextRetryAt := Some(now + retryBackoff))];
        return Err(InitializationFailed(id));
      }
      registry.entries := registry.entries[id :=
        entry.(status := Ready, runtimeActive := true, nextRetryAt := None, lastActivityAt := Some(now))];
      activeRuntimes := activeRuntimes + {id};
      return Ok(true);
    }

    method ActivateStartupPlugins(attempts: seq<Attempt>) returns (r: Result<seq<string>, ActivationError>)
      requires Inv(View()) && |attempts| >= |Listed(StartupPlugins(View()))| && InTime(clock, attempts)
      modifies this, registry
      ensures Inv(View())
      ensures (View(), r) == EnsureAll(old(View()), Listed(StartupPlugins(old(View()))), attempts)
      ensures StartsExactly(old(View()), Listed(StartupPlugins(old(View()))), (View(), r))
    {
      hide Inv, Ensure, EnsureAll, StartsExactly, ContinuesStartUp, StrictlyAscending, InTime;
      assert registry.Keyed() by { EntriesAreKeyed(View()); }
      ghost var h := View();
      var ids := registry.StartupPluginIds();
      assert ids == Listed(StartupPlugins(h)) && StrictlyAscending(ids);
      StartUpIsExact(h, ids, attempts);
      var activated := [];
      StartUpBegins(h, ids, attempts);
      for i := 0 to |ids|
        invariant Inv(View()) && InTime(clock, attempts[i..])
        invariant ContinuesStartUp(EnsureAll(h, ids, attempts), activated, EnsureAll(View(), ids[i..], attempts[i..]))
      {
        StartUpContinues(h, View(), ids, i, activated, attempts);
        NextInTime(clock, attempts, i);
        var one := EnsureActive(ids[i], attempts[i].now, attempts[i].starts, attempts[i].initializes);
        if one.Err? {
          return Err(one.error);
        }
        if one.value {
          activated := activated + [ids[i]];
        }
      }
      StartUpEnds(h, View(), ids, activated, attempts);
      return Ok(activated);
    }

    method ShutdownRuntime(id: string, ok: bool) returns (r: Result<(), ActivationError>)
      modifies this
      ensures View() == Shutdown(old(View()), id, ok)
      ensures r == if id !in old(activeRuntimes) || ok then Ok(()) else Err(ShutdownFailed(id))
      ensures activeRuntimes == old(activeRuntimes) - {id}
      ensures log == if id in old(activeRuntimes) then old(log) + [ShutDown(id, ok)] else old(log)
    {
      if id in activeRuntimes {
        activeRuntimes := activeRuntimes - {id};
        log := log + [ShutDown(id, ok)];
        if !ok {
          return Err(ShutdownFailed(id));
        }
      }
      return Ok(());
    }

    method Deactivate(id: string, ok: bool) returns (r: Result<(), ActivationError>)
      requires Inv(View())
      modifies this, registry
      ensures Inv(View())
      ensures (View(), r) == DeactivateOne(old(View()), id, ok)
      ensures activeRuntimes == old(activeRuntimes) - {id}
      ensures r == if id in old(activeRuntimes) && !ok then Err(ShutdownFailed(id))
                   else if id in old(registry.entries) then Ok(()) else Err(UnknownPlugin(id))
      ensures registry.entries ==
                if r == Ok(()) then
                  old(registry.entries)[id := old(registry.entries)[id].(
                    status := Inactive, runtimeActive := false, nextRetryAt := None)]
                else old(registry.entries)
    {
      hide Inv;
      ShutdownKeeps(View(), id, ok);
      var shut := ShutdownRuntime(id, ok);
      if shut.Err? {
        return Err(shut.error);
      }
      var known := registry.Deactivate(id);
      if known {
        log := log + [Event.Deactivated(id)];
        return Ok(());
      }
      return Err(UnknownPlugin(id));
    }

    /** Marks a registered plugin inactive. */
    method MarkRegistered(id: string)
      requires id in registry.entries
      modifies this`log, registry
      ensures View() == MarkInactive(old(View()), id) && registry.entries.Keys == old(registry.entries.Keys)
    {
      var _ := registry.Deactivate(id);
      log := log + [Event.Deactivated(id)];
    }

    method RecordActivity(id: string, now: Instant) returns (r: Result<(), ActivationError>)
      requires Inv(View()) && now >= clock
      modifies this, registry
      ensures Inv(View())
      ensures registry.entries ==
                if id in old(registry.entries) then
                  old(registry.entries)[id := old(registry.entries)[id].(lastActivityAt := Some(now))]
                else old(registry.entries)
      ensures View() == old(View()).(clock := now, entries := registry.entries)
      ensures r == if id in old(View()).entries then Ok(()) else Err(UnknownPlugin(id))
    {
      hide Inv;
      TimePasses(View(), now);
      clock := now;
      TouchKeeps(View(), id, now);
      if id !in registry.entries {
        return Err(UnknownPlugin(id));
      }
      registry.entries := registry.entries[id := registry.entries[id].(lastActivityAt := Some(now))];
      return Ok(());
    }

    method EvictIdlePlugins(timeout: Duration, now: Instant, failing: set<string>) returns (r: Result<seq<string>, ActivationError>)
      requires Inv(View()) && now >= clock
      modifies this, registry
      ensures Inv(View())
      ensures var h := old(View()).(clock := now);
              var e := EvictFrom(h, Listed(h.entries.Keys), timeout, now, failing);
              View() == e.host && EvictsExactly(h, Listed(h.entries.Keys), timeout, now, failing, e) &&
              r == if e.failedAt.Some? then Err(ShutdownFailed(e.failedAt.value)) else Ok(e.evicted)
    {
      hide Inv, EvictsExactly, StrictlyAscending, EvictFrom, ContinuesEviction, Shutdown, MarkInactive, Before, Members;
      TimePasses(View(), now);
      clock := now;
      ghost var h := View();
      var ids := registry.PluginIds();
      EvictKeeps(h, ids, timeout, now, failing);
      EvictionIsExact(h, ids, timeout, now, failing);
      ghost var e := EvictFrom(h, ids, timeout, now, failing);
      var evicted := [];
      EvictionBegins(h, ids, timeout, now, failing);
      for i := 0 to |ids|
        invariant registry.entries.Keys == h.entries.Keys
        invariant ContinuesEviction(e, evicted, EvictFrom(View(), ids[i..], timeout, now, failing))
      {
        var id := ids[i];
        assert id in registry.entries by { ListedAreRegistered(registry.entries, ids, i); }
        EvictionContinues(e, View(), ids, i, evicted, timeout, now, failing);
        if registry.entries[id].IdleFor(timeout, now) {
          var shut := ShutdownRuntime(id, id !in failing);
          if shut.Err? {
            return Err(shut.error);
          }
          MarkRegistered(id);
          evicted := evicted + [id];
        }
      }
      EvictionEnds(e, View(), ids, evicted, timeout, now, failing);
      // Sorting and removing duplicates finds nothing to do.
      EvictedAscend(h, ids, timeout, now, failing, e);
      evicted := ListSet(Members(evicted));
      return Ok(evicted);
    }
  }

  ghost predicate ContinuesStartUp(whole: (Host, Result<seq<string>, ActivationError>), activated: seq<string>,
                                   rest: (Host, Result<seq<string>, ActivationError>)) {
    whole == (rest.0, if rest.1.Err? then rest.1 else Ok(activated + rest.1.value))
  }

  ghost predicate ContinuesEviction(whole: Eviction, evicted: seq<string>, rest: Eviction) {
    whole == rest.(evicted := evicted + rest.evicted)
  }

  lemma ListedAreRegistered(entries: map<string, Entry>, ids: seq<string>, i: nat)
    requires Members(ids) == entries.Keys && i < |ids|
    ensures ids[i] in entries
  {
    assert ids[i] in Members(ids);
  }

  lemma NextInTime(clock: Instant, attempts: seq<Attempt>, i: nat)
    requires i < |attempts| && InTime(clock, attempts[i..])
    ensures attempts[i].now >= clock && InTime(attempts[i].now, attempts[i + 1..])
  {
    assert attempts[i..][1..] == attempts[i + 1..];
  }

  lemma StartUpBegins(h: Host, ids: seq<string>, attempts: seq<Attempt>)
    requires |attempts| >= |ids|
    ensures ContinuesStartUp(EnsureAll(h, ids, attempts), [], EnsureAll(h, ids[0..], attempts[0..]))
  {
    hide EnsureAll;
    assert ids[0..] == ids && attempts[0..] == attempts;
    var r := EnsureAll(h, ids, attempts);
    if r.1.Ok? {
      assert [] + r.1.value == r.1.value;
    }
  }

  lemma StartUpContinues(h: Host, v: Host, ids: seq<string>, i: nat, activated: seq<string>, attempts: seq<Attempt>)
    requires i < |ids| && |attempts| >= |ids|
    requires ContinuesStartUp(EnsureAll(h, ids, attempts), activated, EnsureAll(v, ids[i..], attempts[i..]))
    ensures var (v1, one) := EnsureAt(v, ids[i], attempts[i]);
            if one.Err? then EnsureAll(h, ids, attempts) == (v1, Err(one.error))
            else ContinuesStartUp(EnsureAll(h, ids, attempts),
                                  if one.value then activated + [ids[i]] else activated,
                                  EnsureAll(v1, ids[i + 1..], attempts[i + 1..]))
  {
    hide EnsureAt;
    assert ids[i..][1..] == ids[i + 1..] && attempts[i..][1..] == attempts[i + 1..];
    var (v1, one) := EnsureAt(v, ids[i], attempts[i]);
    if one.Ok? {
      var rest := EnsureAll(v1, ids[i + 1..], attempts[i + 1..]).1;
      if rest.Ok? {
        assert activated + ([ids[i]] + rest.value) == activated + [ids[i]] + rest.value;
        assert activated + ([] + rest.value) == activated + rest.value;
      }
    }
  }

  lemma StartUpEnds(h: Host, v: Host, ids: seq<string>, activated: seq<string>, attempts: seq<Attempt>)
    requires |attempts| >= |ids|
    requires ContinuesStartUp(EnsureAll(h, ids, attempts), activated, EnsureAll(v, ids[|ids|..], attempts[|ids|..]))
    ensures EnsureAll(h, ids, attempts) == (v, Ok(activated))
  {
    assert activated + [] == activated;
  }

  lemma EvictionBegins(h: Host, ids: seq<string>, timeout: Duration, now: Instant, failing: set<string>)
    ensures ContinuesEviction(EvictFrom(h, ids, timeout, now, failing), [], EvictFrom(h, ids[0..], timeout, now, failing))
  {
    hide EvictFrom;
    assert ids[0..] == ids;
    var e := EvictFrom(h, ids, timeout, now, failing);
    assert [] + e.evicted == e.evicted;
  }

  lemma EvictionContinues(whole: Eviction, v: Host, ids: seq<string>, i: nat, evicted: seq<string>,
                          timeout: Duration, now: Instant, failing: set<string>)
    requires i < |ids| && ContinuesEviction(whole, evicted, EvictFrom(v, ids[i..], timeout, now, failing))
    ensures var shut := Shutdown(v, ids[i], ids[i] !in failing);
            if !Idle(v, ids[i], timeout, now) then
              ContinuesEviction(whole, evicted, EvictFrom(v, ids[i + 1..], timeout, now, failing))
            else if !ShutdownWorks(v, ids[i], ids[i] !in failing) then
              whole == Eviction(shut, evicted, Some(ids[i]))
            else
              ContinuesEviction(whole, evicted + [ids[i]],
                                EvictFrom(MarkInactive(shut, ids[i]), ids[i + 1..], timeout, now, failing))
  {
    hide Shutdown, MarkInactive, Idle;
    assert ids[i..][1..] == ids[i + 1..];
    var rest := EvictFrom(MarkInactive(Shutdown(v, ids[i], ids[i] !in failing), ids[i]), ids[i + 1..], timeout, now, failing);
    assert evicted + ([ids[i]] + rest.evicted) == evicted + [ids[i]] + rest.evicted;
    assert evicted + [] == evicted;
  }

  lemma EvictionEnds(whole: Eviction, v: Host, ids: seq<string>, evicted: seq<string>,
                     timeout: Duration, now: Instant, failing: set<string>)
    requires ContinuesEviction(whole, evicted, EvictFrom(v, ids[|ids|..], timeout, now, failing))
    ensures whole == Eviction(v, evicted, None)
  {
    assert evicted + [] == evicted;
  }

  lemma EvictedAscend(h: Host, ids: seq<string>, timeout: Duration, now: Instant, failing: set<string>, r: Eviction)
    requires EvictsExactly(h, ids, timeout, now, failing, r)
    ensures r.evicted == Listed(Members(r.evicted))
  {
    ListedIsUnique(r.evicted, Listed(Members(r.evicted)));
  }

  lemma EntriesAreKeyed(h: Host)
    requires Inv(h)
    ensures forall id <- h.entries :: h.entries[id].manifest.id == id
  {
  }
}
