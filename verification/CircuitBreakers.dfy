/**
 The circuit breaker of crates/plugin-host/src/circuit_breaker.rs.

 `Breaker` is the value of the breaker's fields, `CircuitBreaker` the object whose methods update
 them. What the fields mean is defined by functions of the history of calls alone (`Trailing`,
 `LastFailure`, `ProbeTaken`), and `HistoryRefinement` shows that the fields are exactly that.
 */
module CircuitBreakers {
  import opened Wrappers

  type Instant = int
  type Duration = nat
  newtype uint32 = x: int | 0 <= x < 0x1_0000_0000

  datatype Config = Config(failureThreshold: uint32, resetTimeout: Duration)

  datatype CircuitState = Closed | Open | HalfOpen

  /** A call on the breaker, with the time it was made. */
  datatype Event = Asked(at: Instant) | Succeeded(at: Instant) | Failed(at: Instant)

  datatype Breaker = Breaker(
    config: Config,
    consecutiveFailures: nat,
    openedAt: Option<Instant>,
    probeInFlight: bool)
  {
    predicate Due(now: Instant)
      requires openedAt.Some?
    {
      now >= openedAt.value + config.resetTimeout
    }

    predicate Allows(now: Instant) {
      openedAt.None? || (Due(now) && !probeInFlight)
    }

    function State(now: Instant): CircuitState {
      if openedAt.None? then Closed
      else if Due(now) && probeInFlight then HalfOpen
      else Open
    }

    function AfterAsk(now: Instant): Breaker {
      if openedAt.Some? && Allows(now) then this.(probeInFlight := true) else this
    }

    function AfterSuccess(): Breaker {
      this.(consecutiveFailures := 0, openedAt := None, probeInFlight := false)
    }

    function AfterFailure(now: Instant): Breaker {
      if openedAt.Some? then this.(openedAt := Some(now), probeInFlight := false)
      else if consecutiveFailures + 1 >= config.failureThreshold as nat then
        this.(consecutiveFailures := consecutiveFailures + 1, openedAt := Some(now), probeInFlight := false)
      else this.(consecutiveFailures := consecutiveFailures + 1)
    }

    function Step(e: Event): Breaker {
      match e
      case Asked(now) => AfterAsk(now)
      case Succeeded(_) => AfterSuccess()
      case Failed(now) => AfterFailure(now)
    }
  }

  function NewBreaker(config: Config): Breaker {
    Breaker(config, 0, None, false)
  }

  /** The breaker after a whole history of calls. */
  function After(config: Config, history: seq<Event>): Breaker {
    if history == [] then NewBreaker(config)
    else After(config, history[..|history| - 1]).Step(history[|history| - 1])
  }

  // ---- What the fields mean, from the history alone

  /** Failures since the last success. */
  function Trailing(history: seq<Event>): nat {
    if history == [] then 0
    else
      match history[|history| - 1]
      case Asked(_) => Trailing(history[..|history| - 1])
      case Succeeded(_) => 0
      case Failed(_) => 1 + Trailing(history[..|history| - 1])
  }

  /** The time of the last failure. */
  function LastFailure(history: seq<Event>): Option<Instant> {
    if history == [] then None
    else if history[|history| - 1].Failed? then Some(history[|history| - 1].at)
    else LastFailure(history[..|history| - 1])
  }

  /** A threshold of 0 behaves like 1: the first failure opens the breaker. */
  function Threshold(config: Config): nat {
    if config.failureThreshold == 0 then 1 else config.failureThreshold as nat
  }

  predicate IsOpen(config: Config, history: seq<Event>) {
    Trailing(history) >= Threshold(config)
  }

  /** The reset timeout has passed since the last failure. */
  predicate CooledDown(config: Config, history: seq<Event>, now: Instant) {
    LastFailure(history).Some? && now >= LastFailure(history).value + config.resetTimeout
  }

  /** A request was let through an open breaker since the last recorded outcome. */
  predicate ProbeTaken(config: Config, history: seq<Event>) {
    history != [] && history[|history| - 1].Asked? &&
    var before := history[..|history| - 1];
    ProbeTaken(config, before) ||
    (IsOpen(config, before) && CooledDown(config, before, history[|history| - 1].at))
  }

  /** Whether a request asking at `now` is let through, from the history alone. */
  predicate Admits(config: Config, history: seq<Event>, now: Instant) {
    !IsOpen(config, history) || (CooledDown(config, history, now) && !ProbeTaken(config, history))
  }

  lemma {:induction false} FailuresLeaveATime(history: seq<Event>)
    ensures Trailing(history) > 0 ==> LastFailure(history).Some?
  {
    if history != [] {
      FailuresLeaveATime(history[..|history| - 1]);
    }
  }

  lemma {:induction false} LastFailureIsInHistory(history: seq<Event>)
    ensures LastFailure(history).Some? ==>
              exists i :: 0 <= i < |history| && history[i] == Failed(LastFailure(history).value)
  {
    if history != [] && !history[|history| - 1].Failed? {
      LastFailureIsInHistory(history[..|history| - 1]);
    }
  }

  /** The breaker's fields are a function of the history of calls, for every history. */
  lemma {:induction false} HistoryRefinement(config: Config, history: seq<Event>)
    ensures After(config, history) == Breaker(
              config,
              if IsOpen(config, history) then Threshold(config) else Trailing(history),
              if IsOpen(config, history) then LastFailure(history) else None,
              ProbeTaken(config, history))
    ensures After(config, history).openedAt.Some? <==> IsOpen(config, history)
    ensures ProbeTaken(config, history) ==> IsOpen(config, history)
    ensures forall now :: After(config, history).Allows(now) <==> Admits(config, history, now)
  {
    FailuresLeaveATime(history);
    if history != [] {
      var before := history[..|history| - 1];
      HistoryRefinement(config, before);
      FailuresLeaveATime(before);
    }
  }

  /** The requests let through when callers ask at the times `asks`, with nothing recorded in between. */
  function Admitted(config: Config, history: seq<Event>, asks: seq<Instant>): seq<Instant>
    decreases |asks|
  {
    if asks == [] then []
    else
      (if Admits(config, history, asks[0]) then [asks[0]] else []) +
      Admitted(config, history + [Asked(asks[0])], asks[1..])
  }

  /**
   After a success, failures only count: the breaker opens with the last of as many as the threshold, and
   stays open, as of the last one, while they go on.
   */
  lemma {:induction false} FailuresInARow(config: Config, before: seq<Event>, success: Instant, failures: seq<Event>)
    requires forall i :: 0 <= i < |failures| ==> failures[i].Failed?
    ensures var b := After(config, before + [Succeeded(success)] + failures);
            var n := if config.failureThreshold == 0 then 1 else config.failureThreshold as nat;
            b == Breaker(config, if |failures| < n then |failures| else n,
                         if |failures| < n then None else Some(failures[|failures| - 1].at), false)
    decreases |failures|
  {
    var history := before + [Succeeded(success)] + failures;
    if failures == [] {
      assert history == before + [Succeeded(success)] && history[..|history| - 1] == before;
      SameConfig(config, before);
    } else {
      assert history[..|history| - 1] == before + [Succeeded(success)] + failures[..|failures| - 1];
      FailuresInARow(config, before, success, failures[..|failures| - 1]);
    }
  }

  lemma {:induction false} SameConfig(config: Config, history: seq<Event>)
    ensures After(config, history).config == config
  {
    if history != [] {
      SameConfig(config, history[..|history| - 1]);
    }
  }

  /**
   Between two recorded outcomes an open breaker lets through exactly the first caller that asks once
   the reset timeout has passed since the last failure, and nobody if a probe is already out.
   */
  lemma {:induction false} OneProbeBetweenRecords(config: Config, history: seq<Event>, asks: seq<Instant>)
    requires IsOpen(config, history)
    ensures var let := Admitted(config, history, asks);
            var due := exists i :: 0 <= i < |asks| && CooledDown(config, history, asks[i]);
            if ProbeTaken(config, history) || !due then let == []
            else
              exists i :: 0 <= i < |asks| && let == [asks[i]] && CooledDown(config, history, asks[i]) &&
                forall j :: 0 <= j < i ==> !CooledDown(config, history, asks[j])
    decreases |asks|
  {
    if asks != [] {
      var next := history + [Asked(asks[0])];
      assert next[..|next| - 1] == history;
      OneProbeBetweenRecords(config, next, asks[1..]);
      assert LastFailure(next) == LastFailure(history);
      forall t ensures CooledDown(config, next, t) <==> CooledDown(config, history, t) {}
      if CooledDown(config, history, asks[0]) {
      } else {
        assert ProbeTaken(config, next) <==> ProbeTaken(config, history);
        var rest := asks[1..];
        forall i | 0 <= i < |asks| && CooledDown(config, history, asks[i])
          ensures i >= 1 && CooledDown(config, next, rest[i - 1])
        {
          assert asks[i] == rest[i - 1];
        }
        if !ProbeTaken(config, history) && exists i :: 0 <= i < |rest| && CooledDown(config, next, rest[i]) {
          var i :| 0 <= i < |rest| && Admitted(config, next, rest) == [rest[i]] && CooledDown(config, next, rest[i]) &&
                   forall j :: 0 <= j < i ==> !CooledDown(config, next, rest[j]);
          assert asks[i + 1] == rest[i];
          forall j | 0 <= j < i + 1 ensures !CooledDown(config, history, asks[j]) {
            if j > 0 {
              assert asks[j] == rest[j - 1];
            }
          }
        }
      }
    }
  }

  /** The half-open state is visible exactly while a probe that was let through has not been recorded. */
  lemma HalfOpenMeansProbeOut(config: Config, history: seq<Event>, now: Instant)
    ensures After(config, history).State(now) == HalfOpen <==>
            ProbeTaken(config, history) && CooledDown(config, history, now)
    ensures After(config, history).State(now) == Closed <==> !IsOpen(config, history)
    ensures After(config, history).State(now) == HalfOpen ==> !Admits(config, history, now)
  {
    HistoryRefinement(config, history);
    FailuresLeaveATime(history);
  }

  /** The breaker object. Its counter is 32 bits wide; `Valid` is why it never overflows. */
  class CircuitBreaker {
    const config: Config
    var consecutiveFailures: uint32
    var openedAt: Option<Instant>
    var probeInFlight: bool
    ghost var history: seq<Event>

    ghost function View(): Breaker
      reads this
    {
      Breaker(config, consecutiveFailures as nat, openedAt, probeInFlight)
    }

    ghost predicate Valid()
      reads this
    {
      View() == After(config, history)
    }

    constructor (config: Config)
      ensures Valid() && this.config == config && history == []
    {
      this.config := config;
      consecutiveFailures := 0;
      openedAt := None;
      probeInFlight := false;
      history := [];
    }

    method State(now: Instant) returns (state: CircuitState)
      requires Valid()
      ensures state == if !IsOpen(config, history) then Closed
                       else if ProbeTaken(config, history) && CooledDown(config, history, now) then HalfOpen
                       else Open
      ensures state == Closed <==> openedAt.None?
      ensures state == HalfOpen <==> openedAt.Some? && now >= openedAt.value + config.resetTimeout && probeInFlight
    {
      HalfOpenMeansProbeOut(config, history, now);
      match openedAt
      case None => state := Closed;
      case Some(at) =>
        // Half-open shows only while a probe is out; otherwise the breaker still looks open.
        if now >= at + config.resetTimeout && probeInFlight {
          state := HalfOpen;
        } else {
          state := Open;
        }
    }

    method AllowRequest(now: Instant) returns (allowed: bool)
      requires Valid()
      modifies this
      ensures Valid() && history == old(history) + [Asked(now)]
      ensures View() == old(View()).AfterAsk(now)
      ensures allowed <==>
                old(openedAt).None? || (now >= old(openedAt).value + config.resetTimeout && !old(probeInFlight))
      ensures openedAt == old(openedAt) && consecutiveFailures == old(consecutiveFailures)
      ensures probeInFlight <==> old(probeInFlight) || (old(openedAt).Some? && allowed)
      ensures allowed == Admits(config, old(history), now) == old(View()).Allows(now)
    {
      HistoryRefinement(config, history);
      history := history + [Asked(now)];
      assert history[..|history| - 1] == old(history);
      match openedAt
      case None => allowed := true;
      case Some(at) =>
        if now >= at + config.resetTimeout {
          if probeInFlight {
            allowed := false;
          } else {
            // This request is the probe; its outcome decides what happens next.
            probeInFlight := true;
            allowed := true;
          }
        } else {
          allowed := false;
        }
    }

    method RecordSuccess(now: Instant)
      requires Valid()
      modifies this
      ensures Valid() && history == old(history) + [Succeeded(now)]
      ensures View() == old(View()).AfterSuccess()
      ensures consecutiveFailures == 0 && openedAt == None && !probeInFlight
    {
      history := history + [Succeeded(now)];
      assert history[..|history| - 1] == old(history);
      consecutiveFailures := 0;
      openedAt := None;
      probeInFlight := false;
    }

    method RecordFailure(now: Instant)
      requires Valid()
      modifies this
      ensures Valid() && history == old(history) + [Failed(now)]
      ensures View() == old(View()).AfterFailure(now)
      ensures consecutiveFailures as nat == old(consecutiveFailures) as nat + if old(openedAt).Some? then 0 else 1
      ensures openedAt == if old(openedAt).Some? || consecutiveFailures >= config.failureThreshold then Some(now) else None
      ensures !probeInFlight
    {
      HistoryRefinement(config, history);
      history := history + [Failed(now)];
      assert history[..|history| - 1] == old(history);
      if openedAt.Some? {
        openedAt := Some(now);
        probeInFlight := false;
        return;
      }
      consecutiveFailures := consecutiveFailures + 1;
      if consecutiveFailures >= config.failureThreshold {
        openedAt := Some(now);
        probeInFlight := false;
      }
    }
  }
}
