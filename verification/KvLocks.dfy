/**
 The leased locks of packages/plugin-runtime/src/kv.ts as a protocol. Everything `withLock` does
 before it awaits its function is one step, its `finally` block is another, and any number of callers
 are inside their functions in between.

 `bodies` and `used` are history: who is inside its function, and which tokens have been drawn.
 */
module KvLocks {
  import opened Wrappers
  import opened Namespaces

  type Token = string
  type Time = real

  datatype MemoryLock = MemoryLock(token: Token, expiresAt: Time)

  /** A caller inside its function, with the end of its lease. */
  datatype Body = Body(key: string, expiresAt: Time)

  datatype LockState = LockState(
    locks: map<string, MemoryLock>,
    bodies: map<Token, Body>,
    used: set<Token>,
    clock: Time)

  datatype Step =
    | Enter(key: string, token: Token, ttlMs: Time, checkedAt: Time, leasedAt: Time)
    | Leave(token: Token)
    | Clear(prefix: string, at: Time)

  const START := LockState(map[], map[], {}, 0.0)

  /** Tokens are fresh and the clock does not go back; the clock is read once to check and once to lease. */
  predicate Enabled(s: LockState, step: Step) {
    match step
    case Enter(_, token, _, checkedAt, leasedAt) => token !in s.used && s.clock <= checkedAt <= leasedAt
    case Leave(token) => token in s.bodies
    case Clear(_, at) => s.clock <= at
  }

  predicate Busy(locks: map<string, MemoryLock>, key: string, now: Time) {
    key in locks && locks[key].expiresAt > now
  }

  function PurgeLock(locks: map<string, MemoryLock>, key: string, now: Time): map<string, MemoryLock> {
    if key in locks && locks[key].expiresAt <= now then locks - {key} else locks
  }

  function Released(locks: map<string, MemoryLock>, key: string, token: Token): map<string, MemoryLock> {
    if key in locks && locks[key].token == token then locks - {key} else locks
  }

  function Cleared(locks: map<string, MemoryLock>, prefix: string): map<string, MemoryLock> {
    map k | k in locks && !StartsWith(k, prefix) :: locks[k]
  }

  function Apply(s: LockState, step: Step): LockState
    requires Enabled(s, step)
  {
    match step
    case Enter(key, token, ttlMs, checkedAt, leasedAt) =>
      if Busy(s.locks, key, checkedAt) then s.(used := s.used + {token}, clock := checkedAt)
      else
        LockState(PurgeLock(s.locks, key, checkedAt)[key := MemoryLock(token, leasedAt + ttlMs)],
                  s.bodies[token := Body(key, leasedAt + ttlMs)],
                  s.used + {token}, leasedAt)
    case Leave(token) =>
      s.(locks := Released(s.locks, s.bodies[token].key, token), bodies := s.bodies - {token})
    case Clear(prefix, at) => s.(locks := Cleared(s.locks, prefix), clock := at)
  }

  ghost predicate CanRun(s: LockState, steps: seq<Step>)
    decreases |steps|
  {
    steps == [] || (Enabled(s, steps[0]) && CanRun(Apply(s, steps[0]), steps[1..]))
  }

  ghost function Run(s: LockState, steps: seq<Step>): LockState
    requires CanRun(s, steps)
    decreases |steps|
  {
    if steps == [] then s else Run(Apply(s, steps[0]), steps[1..])
  }

  // ---- What holds in every reachable state

  /** Every lock belongs to a caller that is inside its function, with the same key and lease. */
  ghost predicate LocksHaveBodies(s: LockState) {
    s.bodies.Keys <= s.used &&
    forall k :: k in s.locks ==>
      s.locks[k].token in s.bodies && s.bodies[s.locks[k].token] == Body(k, s.locks[k].expiresAt)
  }

  /** The caller is inside its function and its lease has not ended. */
  predicate Holds(s: LockState, token: Token) {
    token in s.bodies && s.bodies[token].expiresAt > s.clock
  }

  /** The same, for a key that starts with `scope`: that of one store, or all keys when it is empty. */
  predicate HoldsIn(s: LockState, scope: string, token: Token) {
    Holds(s, token) && StartsWith(s.bodies[token].key, scope)
  }

  /** Every caller with an unexpired lease owns the lock of its key. */
  ghost predicate HoldersHaveLocks(s: LockState, scope: string) {
    forall t :: HoldsIn(s, scope, t) ==> s.bodies[t].key in s.locks && s.locks[s.bodies[t].key].token == t
  }

  /** A `clear` of this prefix would take a lock away from a caller whose lease has not ended. */
  ghost predicate TakesLockAway(s: LockState, scope: string, prefix: string, at: Time) {
    exists t :: t in s.bodies && s.bodies[t].expiresAt > at &&
                StartsWith(s.bodies[t].key, prefix) && StartsWith(s.bodies[t].key, scope)
  }

  lemma LocksKept(s: LockState, step: Step)
    requires LocksHaveBodies(s) && Enabled(s, step)
    ensures LocksHaveBodies(Apply(s, step))
  {
  }

  lemma HoldersKept(s: LockState, scope: string, step: Step)
    requires LocksHaveBodies(s) && HoldersHaveLocks(s, scope) && Enabled(s, step) && !step.Clear?
    ensures HoldersHaveLocks(Apply(s, step), scope)
  {
    var t := Apply(s, step);
    forall h | HoldsIn(t, scope, h) ensures t.bodies[h].key in t.locks && t.locks[t.bodies[h].key].token == h {
      if step.Leave? || h != step.token {
        assert HoldsIn(s, scope, h);
      }
    }
  }

  /** Clearing keeps holders and locks together exactly when it takes no lock away. */
  lemma ClearIsSafeExactly(s: LockState, scope: string, prefix: string, at: Time)
    requires LocksHaveBodies(s) && HoldersHaveLocks(s, scope) && s.clock <= at
    ensures HoldersHaveLocks(Apply(s, Clear(prefix, at)), scope) <==> !TakesLockAway(s, scope, prefix, at)
  {
    var t := Apply(s, Clear(prefix, at));
    if TakesLockAway(s, scope, prefix, at) {
      var h :| h in s.bodies && s.bodies[h].expiresAt > at &&
               StartsWith(s.bodies[h].key, prefix) && StartsWith(s.bodies[h].key, scope);
      assert HoldsIn(t, scope, h);
    } else {
      forall h | HoldsIn(t, scope, h) ensures t.bodies[h].key in t.locks && t.locks[t.bodies[h].key].token == h {
        assert HoldsIn(s, scope, h);
      }
    }
  }

  /** No `clear` of the run takes a lock in the scope away from a caller whose lease has not ended. */
  ghost predicate ClearsAreSafe(s: LockState, scope: string, steps: seq<Step>)
    requires CanRun(s, steps)
    decreases |steps|
  {
    steps == [] ||
    ((steps[0].Clear? ==> !TakesLockAway(s, scope, steps[0].prefix, steps[0].at)) &&
     ClearsAreSafe(Apply(s, steps[0]), scope, steps[1..]))
  }

  lemma {:induction false} RunKeepsLocks(s: LockState, scope: string, steps: seq<Step>)
    requires LocksHaveBodies(s) && CanRun(s, steps)
    ensures LocksHaveBodies(Run(s, steps))
    ensures HoldersHaveLocks(s, scope) && ClearsAreSafe(s, scope, steps) ==> HoldersHaveLocks(Run(s, steps), scope)
    decreases |steps|
  {
    hide Apply, LocksHaveBodies, HoldersHaveLocks;
    if steps != [] {
      LocksKept(s, steps[0]);
      if HoldersHaveLocks(s, scope) && ClearsAreSafe(s, scope, steps) {
        if steps[0].Clear? {
          ClearIsSafeExactly(s, scope, steps[0].prefix, steps[0].at);
        } else {
          HoldersKept(s, scope, steps[0]);
        }
      }
      RunKeepsLocks(Apply(s, steps[0]), scope, steps[1..]);
    }
  }

  /** At most one caller is inside its function for a key under an unexpired lease. */
  ghost predicate Exclusive(s: LockState, scope: string) {
    forall a, b :: HoldsIn(s, scope, a) && HoldsIn(s, scope, b) && s.bodies[a].key == s.bodies[b].key ==> a == b
  }

  /** Mutual exclusion, in every interleaving without an unsafe `clear`. */
  lemma MutualExclusion(scope: string, steps: seq<Step>)
    requires CanRun(START, steps) && ClearsAreSafe(START, scope, steps)
    ensures Exclusive(Run(START, steps), scope)
  {
    RunKeepsLocks(START, scope, steps);
  }

  /**
   After clears that were safe, one more `clear` leaves mutual exclusion to every continuation exactly
   when it takes no lock away from a caller whose lease has not ended.
   */
  lemma ExclusionSurvivesExactly(scope: string, steps: seq<Step>, prefix: string, at: Time)
    requires CanRun(START, steps) && ClearsAreSafe(START, scope, steps) && Run(START, steps).clock <= at
    ensures var s := Run(START, steps);
            var t := Apply(s, Clear(prefix, at));
            (forall more :: CanRun(t, more) && ClearsAreSafe(t, scope, more) ==> Exclusive(Run(t, more), scope)) <==>
            !TakesLockAway(s, scope, prefix, at)
  {
    hide Exclusive, HoldersHaveLocks, LocksHaveBodies, Run, CanRun, ClearsAreSafe, TakesLockAway, Apply;
    var s := Run(START, steps);
    StartKept(scope);
    RunKeepsLocks(START, scope, steps);
    LocksKept(s, Clear(prefix, at));
    var t := Apply(s, Clear(prefix, at));
    if TakesLockAway(s, scope, prefix, at) {
      var token := Longer(s.used);
      SecondHolder(s, scope, prefix, at, token);
    } else {
      ClearIsSafeExactly(s, scope, prefix, at);
      forall more | CanRun(t, more) && ClearsAreSafe(t, scope, more) ensures Exclusive(Run(t, more), scope) {
        RunKeepsLocks(t, scope, more);
        HoldersExclude(Run(t, more), scope);
      }
    }
  }

  lemma StartKept(scope: string)
    ensures LocksHaveBodies(START) && HoldersHaveLocks(START, scope)
  {
  }

  lemma HoldersExclude(s: LockState, scope: string)
    requires HoldersHaveLocks(s, scope)
    ensures Exclusive(s, scope)
  {
  }

  /** The caller that comes right after an unsafe `clear` is the second one inside. */
  lemma SecondHolder(s: LockState, scope: string, prefix: string, at: Time, token: Token)
    requires LocksHaveBodies(s) && HoldersHaveLocks(s, scope) && s.clock <= at
    requires TakesLockAway(s, scope, prefix, at) && token !in s.used
    ensures var t := Apply(s, Clear(prefix, at));
            exists more :: CanRun(t, more) && ClearsAreSafe(t, scope, more) && !Exclusive(Run(t, more), scope)
  {
    var first :| first in s.bodies && s.bodies[first].expiresAt > at &&
                 StartsWith(s.bodies[first].key, prefix) && StartsWith(s.bodies[first].key, scope);
    var t := Apply(s, Clear(prefix, at));
    var enter := Enter(s.bodies[first].key, token, 1.0, at, at);
    var u := Apply(t, enter);
    assert [enter][1..] == [];
    assert CanRun(t, [enter]) && Run(t, [enter]) == u && ClearsAreSafe(t, scope, [enter]);
    assert HoldsIn(u, scope, first) && HoldsIn(u, scope, token);
  }

  /** A token that has not been drawn. */
  lemma {:induction false} Longer(used: set<Token>) returns (token: Token)
    ensures token !in used && forall t <- used :: |t| < |token|
  {
    if used == {} {
      return "";
    }
    var x :| x in used;
    var rest := Longer(used - {x});
    token := rest + x + "t";
  }

  /**
   A caller is turned away exactly while another one is inside its function for that key under a lease
   that has not ended: neither a finished nor an expired holder blocks anybody.
   */
  lemma BusyExactlyWhileHeld(scope: string, steps: seq<Step>, key: string, now: Time)
    requires CanRun(START, steps) && ClearsAreSafe(START, scope, steps) && now >= Run(START, steps).clock
    requires StartsWith(key, scope)
    ensures var s := Run(START, steps);
            Busy(s.locks, key, now) <==> exists t :: t in s.bodies && s.bodies[t] == Body(key, s.bodies[t].expiresAt) &&
                                                   s.bodies[t].expiresAt > now
  {
    var s := Run(START, steps);
    RunKeepsLocks(START, scope, steps);
    if t :| t in s.bodies && s.bodies[t].key == key && s.bodies[t].expiresAt > now {
      assert HoldsIn(s, scope, t);
    }
  }

  /** A caller that leaves late, after its lease ended and another took the lock, leaves that lock alone. */
  lemma LateLeaveIsHarmless(scope: string, steps: seq<Step>, late: Token, holder: Token)
    requires CanRun(START, steps) && ClearsAreSafe(START, scope, steps)
    requires Enabled(Run(START, steps), Leave(late)) && HoldsIn(Run(START, steps), scope, holder) && late != holder
    ensures var t := Apply(Run(START, steps), Leave(late));
            var key := Run(START, steps).bodies[holder].key;
            Holds(t, holder) && key in t.locks && t.locks[key].token == holder
  {
    RunKeepsLocks(START, scope, steps);
  }

  /** With an unsafe `clear` two callers can be inside for the same key, both under unexpired leases. */
  lemma UnsafeClearBreaksExclusion() returns (steps: seq<Step>)
    ensures CanRun(START, steps) && !ClearsAreSafe(START, "", steps)
    ensures var s := Run(START, steps);
            Holds(s, "a") && Holds(s, "b") && "a" != "b" && s.bodies["a"].key == s.bodies["b"].key
  {
    var key, prefix := "p:lock:k", "p:lock:";
    var (first, clear, second) := (Enter(key, "a", 30000.0, 0.0, 0.0), Clear(prefix, 1.0), Enter(key, "b", 30000.0, 2.0, 2.0));
    steps := [first, clear, second];
    var a, b := "a", "b";
    assert a != b by { assert a[0] != b[0]; }
    var s1 := Apply(START, first);
    assert TakesLockAway(s1, "", prefix, 1.0) by {
      assert s1.bodies["a"] == Body(key, 30000.0) && StartsWith(key, prefix);
    }
    var s2 := Apply(s1, clear);
    assert !Busy(s2.locks, key, 2.0);
    var s3 := Apply(s2, second);
    assert "b" in s3.bodies && s3.bodies["b"].key == key && s3.bodies["b"].expiresAt == 30002.0;
    assert s2.bodies[a] == Body(key, 30000.0);
    assert s3.bodies == s2.bodies[b := s3.bodies[b]];
    assert s3.bodies[a] == Body(key, 30000.0);
    assert steps[1..] == [clear, second] && [clear, second][1..] == [second] && [second][1..] == [];
    assert CanRun(s2, [second]) && Run(s2, [second]) == s3;
    assert CanRun(s1, [clear, second]) && Run(s1, [clear, second]) == s3;
    assert !ClearsAreSafe(s1, "", [clear, second]);
  }
}
