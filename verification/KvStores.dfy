/**
 The in-memory key-value store of packages/plugin-runtime/src/kv.ts: values that are purged only when
 somebody looks at them after their expiry.

 `Lookup` is the reference: what the history of writes says, as if entries vanished at the instant
 they expire. `LazyIsExact` shows that purging late is never noticed. Payloads are the JSON texts.
 */
module KvStores {
  import opened Wrappers
  import opened Namespaces
  import opened Globs
  import opened StringOrder
  import KvLocks

  type Time = KvLocks.Time

  datatype MemoryValue = MemoryValue(payload: string, expiresAt: Option<Time>)
  {
    predicate LiveAt(now: Time) {
      expiresAt.None? || expiresAt.value > now
    }
  }

  /** What was done to the backend, by storage key, and when. */
  datatype Event =
    | Wrote(key: string, value: MemoryValue, at: Time)
    | Removed(key: string, at: Time)
    | Looked(key: string, at: Time)
    | LookedAtAll(at: Time)
    | Cleared(segment: string, at: Time)

  // ---- The reference

  /** What the key holds at `now`: the last value written, unless it was removed or has expired since. */
  function Lookup(history: seq<Event>, key: string, now: Time): Option<string> {
    if history == [] then None
    else
      var before := history[..|history| - 1];
      match history[|history| - 1]
      case Wrote(k, value, _) =>
        if k != key then Lookup(before, key, now)
        else if value.LiveAt(now) then Some(value.payload) else None
      case Removed(k, _) => if k == key then None else Lookup(before, key, now)
      case Cleared(segment, _) => if StartsWith(key, segment) then None else Lookup(before, key, now)
      case Looked(_, _) => Lookup(before, key, now)
      case LookedAtAll(_) => Lookup(before, key, now)
  }

  // ---- The lazily purged map

  type Values = map<string, MemoryValue>

  function Purge(values: Values, key: string, now: Time): Values {
    if key in values && !values[key].LiveAt(now) then values - {key} else values
  }

  function Step(values: Values, e: Event): Values {
    match e
    case Wrote(key, value, _) => values[key := value]
    case Removed(key, _) => values - {key}
    case Looked(key, at) => Purge(values, key, at)
    case LookedAtAll(at) => map k | k in values && values[k].LiveAt(at) :: values[k]
    case Cleared(segment, _) => map k | k in values && !StartsWith(k, segment) :: values[k]
  }

  function After(history: seq<Event>): Values {
    if history == [] then map[] else Step(After(history[..|history| - 1]), history[|history| - 1])
  }

  function Held(values: Values, key: string, now: Time): Option<string> {
    if key in values && values[key].LiveAt(now) then Some(values[key].payload) else None
  }

  /** Times in the history do not decrease and are not after `now`. */
  ghost predicate InOrder(history: seq<Event>, now: Time) {
    (forall i :: 0 <= i < |history| ==> history[i].at <= now) &&
    forall i, j :: 0 <= i < j < |history| ==> history[i].at <= history[j].at
  }

  /** Over any run on a clock that does not go back, lazy expiry and expiry at the instant agree. */
  lemma {:induction false} LazyIsExact(history: seq<Event>, key: string, now: Time)
    requires InOrder(history, now)
    ensures Held(After(history), key, now) == Lookup(history, key, now)
  {
    if history != [] {
      LazyIsExact(history[..|history| - 1], key, now);
    }
  }

  /** The event neither writes nor removes the key. */
  predicate LeavesAlone(e: Event, key: string) {
    match e
    case Wrote(k, _, _) => k != key
    case Removed(k, _) => k != key
    case Cleared(segment, _) => !(segment <= key)
    case Looked(_, _) => true
    case LookedAtAll(_) => true
  }

  lemma {:induction false} LeftAlone(history: seq<Event>, later: seq<Event>, key: string, now: Time)
    requires forall i :: 0 <= i < |later| ==> LeavesAlone(later[i], key)
    ensures Lookup(history + later, key, now) == Lookup(history, key, now)
    decreases |later|
  {
    var n := |later| - 1;
    if later == [] {
      assert history + later == history;
    } else {
      assert (history + later)[..|history| + n] == history + later[..n];
      LeftAlone(history, later[..n], key, now);
    }
  }

  /**
   What was written is there until the instant at which it expires, and not from that instant on; without
   an expiry it stays. Nobody needs to have looked at it in between.
   */
  lemma WrittenUntilExpiry(history: seq<Event>, key: string, payload: string, expiry: Option<Time>, at: Time,
                           later: seq<Event>, now: Time)
    requires forall i :: 0 <= i < |later| ==> LeavesAlone(later[i], key)
    ensures Lookup(history + [Wrote(key, MemoryValue(payload, expiry), at)] + later, key, now) ==
            if expiry.None? || now < expiry.value then Some(payload) else None
  {
    var written := history + [Wrote(key, MemoryValue(payload, expiry), at)];
    LeftAlone(written, later, key, now);
    assert written[..|history|] == history;
  }

  /** What was removed, or never written, is not there. */
  lemma GoneUntilWritten(history: seq<Event>, gone: Event, key: string, later: seq<Event>, now: Time)
    requires gone == Removed(key, gone.at) || (gone.Cleared? && gone.segment <= key)
    requires forall i :: 0 <= i < |later| ==> LeavesAlone(later[i], key)
    ensures Lookup(history + [gone] + later, key, now) == None && Lookup(later, key, now) == None
  {
    LeftAlone(history + [gone], later, key, now);
    assert (history + [gone])[..|history|] == history;
    LeftAlone([], later, key, now);
    assert [] + later == later;
  }

  /**
   Set and then get, whatever happens to other keys in between: the answer is the value exactly as long as
   the whole seconds of its time to live last, and for good when there are none.
   */
  lemma SetLasts(history: seq<Event>, key: string, payload: string, ttlSec: Option<real>, setAt: Time,
                 later: seq<Event>, now: Time)
    requires forall i :: 0 <= i < |later| ==> LeavesAlone(later[i], key)
    requires InOrder(Stored(history, key, payload, ttlSec, setAt) + later, now)
    ensures var all := Stored(history, key, payload, ttlSec, setAt) + later;
            var there := ttlSec.None? || ttlSec.value < 1.0 || now < setAt + 1000.0 * ttlSec.value.Floor as real;
            Lookup(all, key, now) == (if there then Some(payload) else None) &&
            (key in After(all) && After(all)[key].LiveAt(now) <==> there)
  {
    hide After, Lookup;
    var expiry := if ttlSec.Some? && ttlSec.value >= 1.0 then Some(setAt + 1000.0 * ttlSec.value.Floor as real) else None;
    WrittenUntilExpiry(history, key, payload, expiry, setAt, later, now);
    LazyIsExact(Stored(history, key, payload, ttlSec, setAt) + later, key, now);
  }

  /** The history after a `set` at `setAt`. */
  function Stored(history: seq<Event>, key: string, payload: string, ttlSec: Option<real>, setAt: Time): seq<Event> {
    history + [Wrote(key, MemoryValue(payload,
      if ttlSec.Some? && ttlSec.value >= 1.0 then Some(setAt + 1000.0 * ttlSec.value.Floor as real) else None), setAt)]
  }

  /** Doing something to other keys changes nothing for this one. */
  lemma OthersUnseen(history: seq<Event>, e: Event, key: string, now: Time)
    requires match e
             case Wrote(k, _, _) => k != key
             case Removed(k, _) => k != key
             case Cleared(segment, _) => !StartsWith(key, segment)
             case _ => true
    ensures Lookup(history + [e], key, now) == Lookup(history, key, now)
  {
    assert (history + [e])[..|history|] == history;
  }

  /**
   Two stores of one policy on one backend: what one does to its own keys, clearing included, is never
   seen by another whose sanitized identity differs, as long as both name an instance or neither does.
   */
  lemma StoresAreIsolated(policy: Policy, a: Identity, b: Identity, history: seq<Event>, e: Event, key: string, now: Time)
    requires Clean(a) && Clean(b) && a != b && (a.instance.Some? <==> b.instance.Some?)
    requires match e
             case Wrote(k, _, _) => exists own :: k == StorageKey(Prefix(policy, a), Data, own)
             case Removed(k, _) => exists own :: k == StorageKey(Prefix(policy, a), Data, own)
             case Cleared(segment, _) => segment == SegmentPrefix(Prefix(policy, a), Data)
             case _ => true
    ensures var theirs := StorageKey(Prefix(policy, b), Data, key);
            Lookup(history + [e], theirs, now) == Lookup(history, theirs, now)
  {
    var theirs := StorageKey(Prefix(policy, b), Data, key);
    match e {
      case Wrote(k, _, _) =>
        var own :| k == StorageKey(Prefix(policy, a), Data, own);
        OneShapeNeverCoincides(policy, a, Data, own, b, Data, key);
      case Removed(k, _) =>
        var own :| k == StorageKey(Prefix(policy, a), Data, own);
        OneShapeNeverCoincides(policy, a, Data, own, b, Data, key);
      case Cleared(segment, _) =>
        OneShapeNeverCoincides(policy, a, Data, "", b, Data, key);
      case _ =>
    }
    OthersUnseen(history, e, theirs, now);
  }

  /** The keys under which a store keeps its locks. */
  predicate IsLockOf(policy: Policy, id: Identity, key: string) {
    StartsWith(key, SegmentPrefix(Prefix(policy, id), Lock))
  }

  /** The step is one of the store's own: its callers enter and leave for its keys, and it clears its locks. */
  predicate StepOf(policy: Policy, id: Identity, s: KvLocks.LockState, step: KvLocks.Step)
    requires KvLocks.Enabled(s, step)
  {
    match step
    case Enter(key, _, _, _, _) => IsLockOf(policy, id, key)
    case Leave(token) => IsLockOf(policy, id, s.bodies[token].key)
    case Clear(prefix, _) => prefix == SegmentPrefix(Prefix(policy, id), Lock)
  }

  predicate SameShape(a: Identity, b: Identity) {
    a.instance.Some? <==> b.instance.Some?
  }

  lemma LocksAreApart(policy: Policy, a: Identity, b: Identity, key: string)
    requires Clean(a) && Clean(b) && SameShape(a, b) && IsLockOf(policy, a, key) && IsLockOf(policy, b, key)
    ensures a == b
  {
    var own := key[|SegmentPrefix(Prefix(policy, b), Lock)|..];
    assert key == StorageKey(Prefix(policy, b), Lock, own);
    OneShapeNeverCoincides(policy, a, Lock, "", b, Lock, own);
  }

  /**
   And locks: whatever one store does, the locks of another, who is inside for them and whether they are
   busy stay as they were, and a `clear` takes no lock away from the other's callers.
   */
  lemma LocksAreIsolated(policy: Policy, a: Identity, b: Identity, s: KvLocks.LockState, step: KvLocks.Step, theirs: string)
    requires Clean(a) && Clean(b) && a != b && SameShape(a, b) && IsLockOf(policy, b, theirs)
    requires KvLocks.LocksHaveBodies(s) && KvLocks.Enabled(s, step) && StepOf(policy, a, s, step)
    ensures var t := KvLocks.Apply(s, step);
            (theirs in t.locks <==> theirs in s.locks) && (theirs in s.locks ==> t.locks[theirs] == s.locks[theirs]) &&
            (forall now :: KvLocks.Busy(t.locks, theirs, now) <==> KvLocks.Busy(s.locks, theirs, now)) &&
            (forall token, end :: token in t.bodies && t.bodies[token] == KvLocks.Body(theirs, end) <==>
                                  token in s.bodies && s.bodies[token] == KvLocks.Body(theirs, end))
    ensures step.Clear? ==> !KvLocks.TakesLockAway(s, SegmentPrefix(Prefix(policy, b), Lock), step.prefix, step.at)
  {
    hide SegmentPrefix, Prefix;
    assert !IsLockOf(policy, a, theirs) by {
      if IsLockOf(policy, a, theirs) {
        LocksAreApart(policy, a, b, theirs);
      }
    }
    if step.Clear? {
      ClearTakesOwnOnly(policy, a, b, s, step.at);
    }
  }

  lemma ClearTakesOwnOnly(policy: Policy, a: Identity, b: Identity, s: KvLocks.LockState, at: Time)
    requires Clean(a) && Clean(b) && a != b && SameShape(a, b)
    ensures !KvLocks.TakesLockAway(s, SegmentPrefix(Prefix(policy, b), Lock), SegmentPrefix(Prefix(policy, a), Lock), at)
  {
    hide SegmentPrefix, Prefix;
    forall token | token in s.bodies
      ensures !(IsLockOf(policy, a, s.bodies[token].key) && IsLockOf(policy, b, s.bodies[token].key))
    {
      if IsLockOf(policy, a, s.bodies[token].key) && IsLockOf(policy, b, s.bodies[token].key) {
        LocksAreApart(policy, a, b, s.bodies[token].key);
      }
    }
  }

  /** Every `clear` of the run is that of a store with an identity of the given shape. */
  ghost predicate ClearsByStores(policy: Policy, b: Identity, steps: seq<KvLocks.Step>) {
    forall i :: 0 <= i < |steps| && steps[i].Clear? ==> ClearByStore(policy, b, steps[i].prefix)
  }

  ghost predicate ClearByStore(policy: Policy, b: Identity, prefix: string) {
    exists a :: Clean(a) && SameShape(a, b) && prefix == SegmentPrefix(Prefix(policy, a), Lock)
  }

  /** The store's own clears take no lock away from its callers. */
  ghost predicate OwnClearsAreSafe(policy: Policy, b: Identity, s: KvLocks.LockState, steps: seq<KvLocks.Step>)
    requires KvLocks.CanRun(s, steps)
    decreases |steps|
  {
    var own := SegmentPrefix(Prefix(policy, b), Lock);
    steps == [] ||
    ((steps[0].Clear? && steps[0].prefix == own ==> !KvLocks.TakesLockAway(s, own, own, steps[0].at)) &&
     OwnClearsAreSafe(policy, b, KvLocks.Apply(s, steps[0]), steps[1..]))
  }

  lemma {:induction false} OthersClearSafely(policy: Policy, b: Identity, s: KvLocks.LockState, steps: seq<KvLocks.Step>)
    requires Clean(b) && KvLocks.CanRun(s, steps)
    requires ClearsByStores(policy, b, steps) && OwnClearsAreSafe(policy, b, s, steps)
    ensures KvLocks.ClearsAreSafe(s, SegmentPrefix(Prefix(policy, b), Lock), steps)
    decreases |steps|
  {
    hide SegmentPrefix, Prefix, KvLocks.TakesLockAway, KvLocks.Apply, KvLocks.Enabled, ClearByStore;
    if steps != [] {
      var step := steps[0];
      assert step.Clear? ==> ClearByStore(policy, b, step.prefix);
      if step.Clear? && step.prefix != SegmentPrefix(Prefix(policy, b), Lock) {
        OtherClearIsSafe(policy, b, s, step.prefix, step.at);
      }
      assert forall i :: 0 <= i < |steps| - 1 ==> steps[1..][i] == steps[i + 1];
      OthersClearSafely(policy, b, KvLocks.Apply(s, step), steps[1..]);
    }
  }

  lemma OtherClearIsSafe(policy: Policy, b: Identity, s: KvLocks.LockState, prefix: string, at: Time)
    requires Clean(b) && ClearByStore(policy, b, prefix) && prefix != SegmentPrefix(Prefix(policy, b), Lock)
    ensures !KvLocks.TakesLockAway(s, SegmentPrefix(Prefix(policy, b), Lock), prefix, at)
  {
    hide SegmentPrefix, Prefix, KvLocks.TakesLockAway;
    var a :| Clean(a) && SameShape(a, b) && prefix == SegmentPrefix(Prefix(policy, a), Lock);
    ClearTakesOwnOnly(policy, a, b, s, at);
  }

  /** So a store's locks exclude each other whatever other stores do, as long as its own clears are safe. */
  lemma StoreExcludes(policy: Policy, b: Identity, steps: seq<KvLocks.Step>)
    requires Clean(b) && KvLocks.CanRun(KvLocks.START, steps)
    requires ClearsByStores(policy, b, steps) && OwnClearsAreSafe(policy, b, KvLocks.START, steps)
    ensures KvLocks.Exclusive(KvLocks.Run(KvLocks.START, steps), SegmentPrefix(Prefix(policy, b), Lock))
  {
    OthersClearSafely(policy, b, KvLocks.START, steps);
    KvLocks.MutualExclusion(SegmentPrefix(Prefix(policy, b), Lock), steps);
  }

  /** Without that proviso it fails: clearing one store empties another whose instance is called `data`. */
  lemma ClearReachesShadowedStore()
    ensures var policy := Policy("plugins", true);
            var (a, b) := (IdentityOf(policy, "p", None), IdentityOf(policy, "p", Some("data")));
            var theirs := StorageKey(Prefix(policy, b), Data, "k");
            var wrote := [Wrote(theirs, MemoryValue("1", None), 0.0)];
            a != b && Lookup(wrote, theirs, 1.0) == Some("1") &&
            Lookup(wrote + [Cleared(SegmentPrefix(Prefix(policy, a), Data), 0.0)], theirs, 1.0) == None
  {
    var policy := Policy("plugins", true);
    var (a, b) := (IdentityOf(policy, "p", None), IdentityOf(policy, "p", Some("data")));
    SegmentCovers(policy, a, Data, b, Data, "k");
  }

  // ---- Listing

  /** The storage keys that `listKeys` reports: all live ones on the backend whose bare key matches. */
  function Reported(values: Values, prefix: string, pattern: string, now: Time): set<string> {
    set k | k in values && values[k].LiveAt(now) && Glob(pattern, BareKey(prefix, Data, k))
  }

  predicate Owned(prefix: string, k: string) {
    StartsWith(k, SegmentPrefix(prefix, Data))
  }

  /** The bare names of the store's own live keys that match. */
  function OwnNames(values: Values, prefix: string, pattern: string, now: Time): set<string> {
    set k | k in Reported(values, prefix, pattern, now) && Owned(prefix, k) :: BareKey(prefix, Data, k)
  }

  ghost predicate HoldsNames(names: seq<string>, reported: set<string>, prefix: string) {
    forall b :: b in names <==> exists k :: k in reported && BareKey(prefix, Data, k) == b
  }

  lemma OneMoreName(names: seq<string>, reported: set<string>, prefix: string, key: string)
    requires HoldsNames(names, reported, prefix)
    ensures HoldsNames(names + [BareKey(prefix, Data, key)], reported + {key}, prefix)
  {
    hide BareKey;
    var more := names + [BareKey(prefix, Data, key)];
    forall b ensures b in more <==> exists k :: k in reported + {key} && BareKey(prefix, Data, k) == b {
      assert b in more <==> b in names || b == BareKey(prefix, Data, key);
      assert key in reported + {key};
    }
  }

  /** `r` lists the bare names of `reported` in order. */
  ghost predicate Lists(r: seq<string>, reported: set<string>, prefix: string) {
    Ascending(r) && |r| == |reported| && HoldsNames(r, reported, prefix)
  }

  lemma {:induction false} OwnNamesCount(keys: set<string>, prefix: string)
    requires forall k <- keys :: Owned(prefix, k)
    ensures |set k | k in keys :: BareKey(prefix, Data, k)| == |keys|
  {
    var names := set k | k in keys :: BareKey(prefix, Data, k);
    if keys != {} {
      var x :| x in keys;
      var rest := keys - {x};
      OwnNamesCount(rest, prefix);
      var fewer := set k | k in rest :: BareKey(prefix, Data, k);
      BareKeyInverts(prefix, Data, "");
      assert names == fewer + {BareKey(prefix, Data, x)};
      assert BareKey(prefix, Data, x) !in fewer;
    }
  }

  /**
   The list is the ascending list of the store's own live matching keys exactly when no live key of
   another namespace matches the pattern.
   */
  lemma ListIsOwnKeys(r: seq<string>, values: Values, prefix: string, pattern: string, now: Time)
    requires Lists(r, Reported(values, prefix, pattern, now), prefix)
    ensures r == Listed(OwnNames(values, prefix, pattern, now)) <==>
            forall k <- Reported(values, prefix, pattern, now) :: Owned(prefix, k)
  {
    var reported := Reported(values, prefix, pattern, now);
    var own := set k | k in reported && Owned(prefix, k);
    var names := OwnNames(values, prefix, pattern, now);
    OwnNamesCount(own, prefix);
    assert names == set k | k in own :: BareKey(prefix, Data, k);
    if own == reported {
      assert Members(r) == names;
      NoRepetitions(r);
    } else {
      var k :| k in reported && k !in own;
      SmallerSet(own, reported, k);
    }
  }

  lemma SmallerSet(a: set<string>, b: set<string>, x: string)
    requires a <= b && x in b && x !in a
    ensures |a| < |b|
  {
    assert a <= b - {x};
    SubsetSize(a, b - {x});
  }

  /** A matching key that was set is reported exactly as long as a get of it would answer. */
  lemma SetIsListed(history: seq<Event>, prefix: string, key: string, payload: string, ttlSec: Option<real>, setAt: Time,
                    later: seq<Event>, pattern: string, now: Time)
    requires forall i :: 0 <= i < |later| ==> LeavesAlone(later[i], StorageKey(prefix, Data, key))
    requires InOrder(Stored(history, StorageKey(prefix, Data, key), payload, ttlSec, setAt) + later, now)
    ensures var all := Stored(history, StorageKey(prefix, Data, key), payload, ttlSec, setAt) + later;
            StorageKey(prefix, Data, key) in Reported(After(all), prefix, pattern, now) <==>
              Glob(pattern, key) &&
              (ttlSec.None? || ttlSec.value < 1.0 || now < setAt + 1000.0 * ttlSec.value.Floor as real)
  {
    hide After, Glob;
    SetLasts(history, StorageKey(prefix, Data, key), payload, ttlSec, setAt, later, now);
    BareKeyInverts(prefix, Data, key);
  }

  /** Otherwise the list holds storage keys of other plugins: this store is empty and lists one. */
  lemma ListReportsOthers()
    ensures var values := map["q:data:k" := MemoryValue("1", None)];
            Reported(values, "p", "*", 0.0) == {"q:data:k"} && OwnNames(values, "p", "*", 0.0) == {}
  {
    var theirs, segment := "q:data:k", SegmentPrefix("p", Data);
    assert theirs[0] != segment[0];
    StarReportsOther("p", theirs, MemoryValue("1", None), 0.0);
  }

  lemma StarReportsOther(prefix: string, theirs: string, value: MemoryValue, now: Time)
    requires !Owned(prefix, theirs) && value.LiveAt(now) && forall c <- theirs :: !EndsLine(c)
    ensures Reported(map[theirs := value], prefix, "*", now) == {theirs}
    ensures OwnNames(map[theirs := value], prefix, "*", now) == {}
  {
    hide Glob;
    StarMatchesLines(theirs);
  }

  lemma ReportedByHistory(history: seq<Event>, prefix: string, pattern: string, now: Time)
    requires InOrder(history, now)
    ensures forall k :: k in Reported(After(history), prefix, pattern, now) <==>
              Lookup(history, k, now).Some? && Glob(pattern, BareKey(prefix, Data, k))
  {
    forall k ensures Held(After(history), k, now) == Lookup(history, k, now) {
      LazyIsExact(history, k, now);
    }
  }

  // ---- The code

  datatype KvError = InvalidKey | UndefinedValue | LockBusy

  class MemoryKvBackend {
    var values: Values
    var locks: map<string, KvLocks.MemoryLock>
    ghost var history: seq<Event>
    ghost var bodies: map<KvLocks.Token, KvLocks.Body>
    ghost var used: set<KvLocks.Token>
    ghost var clock: Time

    /** The values are those of the history, and nothing in it is later than `now`. */
    ghost predicate ValuesValid(now: Time)
      reads this
    {
      values == After(history) && InOrder(history, now)
    }

    ghost function LockView(): KvLocks.LockState
      reads this
    {
      KvLocks.LockState(locks, bodies, used, clock)
    }

    constructor ()
      ensures ValuesValid(0.0) && history == [] && LockView() == KvLocks.START
    {
      values, locks := map[], map[];
      history, bodies, used, clock := [], map[], {}, 0.0;
    }
  }

  lemma Extend(history: seq<Event>, e: Event)
    ensures After(history + [e]) == Step(After(history), e)
  {
    assert (history + [e])[..|history|] == history;
  }

  lemma StaysInOrder(history: seq<Event>, e: Event)
    requires InOrder(history, e.at)
    ensures InOrder(history + [e], e.at)
  {
  }

  /** There are whole seconds exactly from one second on. */
  lemma WholeSeconds(ttlSec: Option<real>)
    ensures ttlSec.Some? ==> (ttlSec.value.Floor > 0 <==> ttlSec.value >= 1.0)
  {
  }

  /** Each method reads the clock once; `now` is what it read. */
  class MemoryPluginKvStore {
    const namespacePrefix: string
    const backend: MemoryKvBackend

    constructor (namespacePrefix: string, backend: MemoryKvBackend)
      ensures this.namespacePrefix == namespacePrefix && this.backend == backend
    {
      this.namespacePrefix := namespacePrefix;
      this.backend := backend;
    }

    function DataKey(key: string): string {
      StorageKey(namespacePrefix, Data, key)
    }

    function LockKey(key: string): string {
      StorageKey(namespacePrefix, Lock, key)
    }

    method ReadValue(key: string, now: Time) returns (value: Option<MemoryValue>)
      modifies backend`values
      ensures backend.values == Purge(old(backend.values), key, now)
      ensures if key in old(backend.values) &&
                 (old(backend.values)[key].expiresAt.None? || now < old(backend.values)[key].expiresAt.value)
              then value == Some(old(backend.values)[key]) && backend.values == old(backend.values)
              else value == None && backend.values == old(backend.values) - {key}
    {
      if key !in backend.values {
        return None;
      }
      var found := backend.values[key];
      if found.expiresAt.Some? && found.expiresAt.value <= now {
        backend.values := backend.values - {key};
        return None;
      }
      return Some(found);
    }

    method Get(key: string, now: Time) returns (r: Result<Option<string>, KvError>)
      requires backend.ValuesValid(now)
      modifies backend`values, backend`history
      ensures backend.ValuesValid(now)
      ensures if ValidKey(key) then
                r == Ok(Lookup(old(backend.history), DataKey(key), now)) &&
                backend.history == old(backend.history) + [Looked(DataKey(key), now)]
              else r == Err(InvalidKey) && backend.history == old(backend.history)
    {
      if !ValidKey(key) {
        return Err(InvalidKey);
      }
      LazyIsExact(backend.history, DataKey(key), now);
      Extend(backend.history, Looked(DataKey(key), now));
      backend.history := backend.history + [Looked(DataKey(key), now)];
      var value := ReadValue(DataKey(key), now);
      return Ok(if value.None? then None else Some(value.value.payload));
    }

    method Exists(key: string, now: Time) returns (r: Result<bool, KvError>)
      requires backend.ValuesValid(now)
      modifies backend`values, backend`history
      ensures backend.ValuesValid(now)
      ensures if ValidKey(key) then
                r == Ok(Lookup(old(backend.history), DataKey(key), now).Some?) &&
                backend.history == old(backend.history) + [Looked(DataKey(key), now)]
              else r == Err(InvalidKey) && backend.history == old(backend.history)
    {
      if !ValidKey(key) {
        return Err(InvalidKey);
      }
      LazyIsExact(backend.history, DataKey(key), now);
      Extend(backend.history, Looked(DataKey(key), now));
      backend.history := backend.history + [Looked(DataKey(key), now)];
      var value := ReadValue(DataKey(key), now);
      return Ok(value.Some?);
    }

    /** `payload` is None for an undefined value; a time to live below one second means no expiry. */
    method Set(key: string, payload: Option<string>, ttlSec: Option<real>, now: Time) returns (r: Result<bool, KvError>)
      requires backend.ValuesValid(now)
      modifies backend`values, backend`history
      ensures backend.ValuesValid(now)
      ensures payload.None? ==> r == Err(UndefinedValue) && backend.history == old(backend.history)
      ensures payload.Some? && !ValidKey(key) ==> r == Err(InvalidKey) && backend.history == old(backend.history)
      ensures payload.Some? && ValidKey(key) ==>
                r == Ok(true) &&
                backend.history == Stored(old(backend.history), DataKey(key), payload.value, ttlSec, now) &&
                var lasts := ttlSec.Some? && ttlSec.value >= 1.0;
                backend.values == old(backend.values)[DataKey(key) :=
                  MemoryValue(payload.value, if lasts then Some(now + ttlSec.value.Floor as real * 1000.0) else None)]
    {
      hide After, InOrder, StorageKey, ValidKey;
      assert backend.ValuesValid(now);
      if payload.None? {
        return Err(UndefinedValue);
      }
      var floor := if ttlSec.None? then 0 else ttlSec.value.Floor;
      var ttl := if floor < 0 then 0 else floor;
      if !ValidKey(key) {
        return Err(InvalidKey);
      }
      var value := MemoryValue(payload.value, if ttl > 0 then Some(now + ttl as real * 1000.0) else None);
      WholeSeconds(ttlSec);
      StaysInOrder(backend.history, Wrote(DataKey(key), value, now));
      Extend(backend.history, Wrote(DataKey(key), value, now));
      backend.history := backend.history + [Wrote(DataKey(key), value, now)];
      backend.values := backend.values[DataKey(key) := value];
      return Ok(true);
    }

    /** The answer says whether the key was still in the map, which an expired one may be. */
    method Del(key: string, now: Time) returns (r: Result<bool, KvError>)
      requires backend.ValuesValid(now)
      modifies backend`values, backend`history
      ensures backend.ValuesValid(now)
      ensures if ValidKey(key) then
                r == Ok(DataKey(key) in old(backend.values)) &&
                (Lookup(old(backend.history), DataKey(key), now).Some? ==> r == Ok(true)) &&
                backend.history == old(backend.history) + [Removed(DataKey(key), now)]
              else r == Err(InvalidKey) && backend.history == old(backend.history)
    {
      if !ValidKey(key) {
        return Err(InvalidKey);
      }
      LazyIsExact(backend.history, DataKey(key), now);
      Extend(backend.history, Removed(DataKey(key), now));
      backend.history := backend.history + [Removed(DataKey(key), now)];
      r := Ok(DataKey(key) in backend.values);
      backend.values := backend.values - {DataKey(key)};
    }

    /** Looks at every key of the backend, purging the expired ones, and collects the names that match. */
    method CollectNames(pattern: string, now: Time) returns (names: seq<string>)
      modifies backend`values
      ensures backend.values == Step(old(backend.values), LookedAtAll(now))
      ensures var reported := Reported(old(backend.values), namespacePrefix, pattern, now);
              |names| == |reported| && HoldsNames(names, reported, namespacePrefix)
    {
      ghost var all := backend.values;
      ghost var listed: set<string> := {};
      var matcher := ParseRegExp(GlobToRegExp(pattern));
      names := [];
      assert HoldsNames(names, listed, namespacePrefix);
      hide Glob, ParseRegExp, BareKey, Test, HoldsNames, GlobToRegExp;
      var rest := backend.values.Keys;
      while rest != {}
        invariant rest <= all.Keys
        invariant forall k :: k in backend.values <==> k in all && (k in rest || all[k].LiveAt(now))
        invariant forall k :: k in backend.values ==> backend.values[k] == all[k]
        invariant forall k :: k in listed <==> k in Reported(all, namespacePrefix, pattern, now) && k !in rest
        invariant |names| == |listed| && HoldsNames(names, listed, namespacePrefix)
        decreases |rest|
      {
        var key :| key in rest;
        rest := rest - {key};
        var value := ReadValue(key, now);
        var bare := BareKey(namespacePrefix, Data, key);
        RegExpMeansGlob(pattern, bare);
        if value.Some? && Test(matcher, bare) {
          OneMoreName(names, listed, namespacePrefix, key);
          names := names + [bare];
          listed := listed + {key};
        }
      }
      assert listed == Reported(all, namespacePrefix, pattern, now);
      assert backend.values == Step(all, LookedAtAll(now));
    }

    method ListKeys(pattern: string, now: Time) returns (keys: seq<string>)
      requires backend.ValuesValid(now)
      modifies backend`values, backend`history
      ensures backend.ValuesValid(now)
      ensures backend.history == old(backend.history) + [LookedAtAll(now)]
      ensures Lists(keys, Reported(old(backend.values), namespacePrefix, pattern, now), namespacePrefix)
    {
      Extend(backend.history, LookedAtAll(now));
      backend.history := backend.history + [LookedAtAll(now)];
      var names := CollectNames(pattern, now);
      SortSorts(names);
      SameMembers(names, Sort(names));
      keys := Sort(names);
    }

    method ClearValues(prefix: string) returns (deleted: nat)
      modifies backend`values
      ensures backend.values == Step(old(backend.values), Cleared(prefix, 0.0))
      ensures deleted == |set k | k in old(backend.values) && StartsWith(k, prefix)|
    {
      ghost var all := backend.values;
      ghost var gone: set<string> := {};
      deleted := 0;
      var rest := backend.values.Keys;
      while rest != {}
        invariant rest <= all.Keys
        invariant forall k :: k in backend.values <==> k in all && (k in rest || !StartsWith(k, prefix))
        invariant forall k :: k in backend.values ==> backend.values[k] == all[k]
        invariant forall k :: k in gone <==> k in all && StartsWith(k, prefix) && k !in rest
        invariant deleted == |gone|
        decreases |rest|
      {
        var key :| key in rest;
        rest := rest - {key};
        if StartsWith(key, prefix) && key in backend.values {
          backend.values := backend.values - {key};
          deleted := deleted + 1;
          gone := gone + {key};
        }
      }
      assert gone == set k | k in all && StartsWith(k, prefix);
      assert backend.values == Step(all, Cleared(prefix, 0.0));
    }

    method ClearLocks(prefix: string)
      modifies backend`locks
      ensures backend.locks == KvLocks.Cleared(old(backend.locks), prefix)
    {
      ghost var held := backend.locks;
      var rest := backend.locks.Keys;
      while rest != {}
        invariant rest <= held.Keys
        invariant forall k :: k in backend.locks <==> k in held && (k in rest || !StartsWith(k, prefix))
        invariant forall k :: k in backend.locks ==> backend.locks[k] == held[k]
        decreases |rest|
      {
        var key :| key in rest;
        rest := rest - {key};
        if StartsWith(key, prefix) {
          backend.locks := backend.locks - {key};
        }
      }
      assert backend.locks == KvLocks.Cleared(held, prefix);
    }

    /** Values and locks of this namespace go; the answer counts the values, expired ones included. */
    method Clear(now: Time) returns (deleted: nat)
      requires backend.ValuesValid(now) && backend.clock <= now
      modifies backend`values, backend`history, backend`locks, backend`clock
      ensures backend.ValuesValid(now)
      ensures backend.history == old(backend.history) + [Cleared(SegmentPrefix(namespacePrefix, Data), now)]
      ensures deleted == |set k | k in old(backend.values) && StartsWith(k, SegmentPrefix(namespacePrefix, Data))|
      ensures backend.LockView() ==
              KvLocks.Apply(old(backend.LockView()), KvLocks.Clear(SegmentPrefix(namespacePrefix, Lock), now))
      ensures forall k :: k in backend.locks <==> k in old(backend.locks) && !(SegmentPrefix(namespacePrefix, Lock) <= k)
      ensures forall k :: k in backend.values <==> k in old(backend.values) && !(SegmentPrefix(namespacePrefix, Data) <= k)
    {
      hide After;
      deleted := ClearValues(SegmentPrefix(namespacePrefix, Data));
      ClearLocks(SegmentPrefix(namespacePrefix, Lock));
      Extend(backend.history, Cleared(SegmentPrefix(namespacePrefix, Data), now));
      backend.history := backend.history + [Cleared(SegmentPrefix(namespacePrefix, Data), now)];
      backend.clock := now;
    }

    /** `withLock` up to the call of its function; None means the caller was told to skip. */
    method EnterLock(key: string, token: string, ttlSec: Option<real>, skipIfBusy: bool, checkedAt: Time, leasedAt: Time)
      returns (r: Result<Option<string>, KvError>)
      requires token !in backend.used && backend.clock <= checkedAt <= leasedAt
      modifies backend`locks, backend`bodies, backend`used, backend`clock
      ensures !ValidKey(key) ==> r == Err(InvalidKey) && backend.LockView() == old(backend.LockView())
      ensures ValidKey(key) ==>
                var ttlMs := (if ttlSec.Some? then ttlSec.value else 30.0) * 1000.0;
                var before := old(backend.LockView());
                var after := KvLocks.Apply(before, KvLocks.Enter(LockKey(key), token, ttlMs, checkedAt, leasedAt));
                backend.LockView() == after &&
                r == if !KvLocks.Busy(before.locks, LockKey(key), checkedAt) then Ok(Some(token))
                     else if skipIfBusy then Ok(None) else Err(LockBusy)
      ensures ValidKey(key) && (LockKey(key) !in old(backend.locks) || old(backend.locks)[LockKey(key)].expiresAt <= checkedAt) ==>
                var end := leasedAt + 1000.0 * if ttlSec.Some? then ttlSec.value else 30.0;
                r == Ok(Some(token)) && backend.locks == old(backend.locks)[LockKey(key) := KvLocks.MemoryLock(token, end)] &&
                backend.bodies == old(backend.bodies)[token := KvLocks.Body(LockKey(key), end)]
      ensures ValidKey(key) && LockKey(key) in old(backend.locks) && old(backend.locks)[LockKey(key)].expiresAt > checkedAt ==>
                r == (if skipIfBusy then Ok(None) else Err(LockBusy)) && backend.locks == old(backend.locks)
    {
      if !ValidKey(key) {
        return Err(InvalidKey);
      }
      var ttl := if ttlSec.Some? then ttlSec.value else 30.0;
      var lockKey := LockKey(key);
      backend.used := backend.used + {token};
      backend.clock := checkedAt;
      if lockKey in backend.locks {
        if backend.locks[lockKey].expiresAt > checkedAt {
          return if skipIfBusy then Ok(None) else Err(LockBusy);
        }
        backend.locks := backend.locks - {lockKey};
      }
      // The token keeps a late finally block from releasing a newer lock.
      backend.locks := backend.locks[lockKey := KvLocks.MemoryLock(token, leasedAt + ttl * 1000.0)];
      backend.bodies := backend.bodies[token := KvLocks.Body(lockKey, leasedAt + ttl * 1000.0)];
      backend.clock := leasedAt;
      return Ok(Some(token));
    }

    /** The `finally` block of `withLock`. */
    method LeaveLock(key: string, token: string)
      requires token in backend.bodies && backend.bodies[token].key == LockKey(key)
      modifies backend`locks, backend`bodies
      ensures backend.LockView() == KvLocks.Apply(old(backend.LockView()), KvLocks.Leave(token))
      ensures backend.locks ==
                if LockKey(key) in old(backend.locks) && old(backend.locks)[LockKey(key)].token == token
                then old(backend.locks) - {LockKey(key)} else old(backend.locks)
    {
      var lockKey := LockKey(key);
      if lockKey in backend.locks && backend.locks[lockKey].token == token {
        backend.locks := backend.locks - {lockKey};
      }
      backend.bodies := backend.bodies - {token};
    }
  }

  lemma SameMembers(a: seq<string>, b: seq<string>)
    requires multiset(a) == multiset(b)
    ensures forall x :: x in a <==> x in b
  {
    forall x ensures x in a <==> x in b {
      assert x in a <==> x in multiset(a);
    }
  }
}
