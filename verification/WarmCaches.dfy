/**
 The warm cache of packages/plugin-runtime/src/cache.ts: an insertion-ordered map used as an LRU
 cache with a maximum age and eviction under memory pressure.

 A JavaScript Map is a sequence of entries with distinct keys, oldest insertion first.
 */
module WarmCaches {
  import opened Wrappers

  datatype Entry<K, V> = Entry(key: K, value: V, insertedAt: int, weight: real)

  datatype Limits = Limits(maxEntries: nat, maxAge: int)

  datatype PressureConfig = PressureConfig(softLimit: real, hardLimit: real)

  datatype PressureState = Normal | Soft | Hard

  ghost predicate DistinctKeys<K, V>(es: seq<Entry<K, V>>) {
    forall i, j :: 0 <= i < j < |es| ==> es[i].key != es[j].key
  }

  // ---- What the operations do to the sequence

  /** Which entries an operation leaves in place. */
  datatype Test<K> = NotOlder(now: int, maxAge: int) | OtherThan(key: K)

  predicate Passes<K(==), V>(e: Entry<K, V>, t: Test<K>) {
    match t
    case NotOlder(now, maxAge) => now - e.insertedAt <= maxAge
    case OtherThan(key) => e.key != key
  }

  function Keep<K(==), V>(es: seq<Entry<K, V>>, t: Test<K>): seq<Entry<K, V>> {
    if es == [] then []
    else if Passes(es[0], t) then [es[0]] + Keep(es[1..], t)
    else Keep(es[1..], t)
  }

  function Lookup<K(==), V>(es: seq<Entry<K, V>>, key: K): Option<Entry<K, V>> {
    if es == [] then None
    else if es[0].key == key then Some(es[0]) else Lookup(es[1..], key)
  }

  /** The last `n` elements, or all when there are fewer. */
  function Latest<T>(xs: seq<T>, n: nat): seq<T> {
    if |xs| <= n then xs else xs[|xs| - n..]
  }

  function Weight<K, V>(es: seq<Entry<K, V>>): real {
    if es == [] then 0.0 else es[0].weight + Weight(es[1..])
  }

  datatype Op<K, V> = Get(key: K, now: int) | Set(key: K, value: V, weight: real, now: int)

  /** The answer to an operation: the value found, and nothing for a `Set`. */
  function Answer<K(==), V>(l: Limits, es: seq<Entry<K, V>>, op: Op<K, V>): Option<V> {
    match op
    case Set(_, _, _, _) => None
    case Get(key, now) =>
      match Lookup(Keep(es, NotOlder(now, l.maxAge)), key)
      case None => None
      case Some(e) => Some(e.value)
  }

  function Apply<K(==), V>(l: Limits, es: seq<Entry<K, V>>, op: Op<K, V>): seq<Entry<K, V>> {
    var live := Keep(es, NotOlder(op.now, l.maxAge));
    match op
    case Get(key, now) =>
      (match Lookup(live, key)
       case None => live
       case Some(e) => Keep(live, OtherThan(key)) + [e])
    case Set(key, value, weight, now) =>
      Latest(Keep(live, OtherThan(key)) + [Entry(key, value, now, weight)], l.maxEntries)
  }

  /** What happens to a cache: its operations, and the oldest entries dropped under memory pressure. */
  datatype Event<K, V> = Used(op: Op<K, V>) | Pressed(dropped: nat)

  function Next<K(==), V>(l: Limits, es: seq<Entry<K, V>>, e: Event<K, V>): seq<Entry<K, V>> {
    match e
    case Used(op) => Apply(l, es, op)
    case Pressed(dropped) => if dropped <= |es| then es[dropped..] else []
  }

  /** The stored entries after a run of events on an empty cache. */
  function After<K(==), V>(l: Limits, events: seq<Event<K, V>>): seq<Entry<K, V>> {
    if events == [] then [] else Next(l, After(l, events[..|events| - 1]), events[|events| - 1])
  }

  lemma AfterOneMore<K, V>(l: Limits, events: seq<Event<K, V>>, e: Event<K, V>)
    ensures After(l, events + [e]) == Next(l, After(l, events), e)
  {
    assert (events + [e])[..|events|] == events;
  }

  /** An entry of the key is stored and not older than the maximum age. */
  ghost predicate Stores<K, V>(l: Limits, es: seq<Entry<K, V>>, key: K, now: int) {
    exists i :: 0 <= i < |es| && es[i].key == key && now - es[i].insertedAt <= l.maxAge
  }

  /** The operation used its key: it stored it, or asked for it while it was stored and young enough. */
  ghost predicate Uses<K, V>(l: Limits, es: seq<Entry<K, V>>, op: Op<K, V>) {
    op.Set? || Stores(l, es, op.key, op.now)
  }

  // ---- Filtering

  lemma {:induction false} KeepConcat<K, V>(a: seq<Entry<K, V>>, b: seq<Entry<K, V>>, t: Test<K>)
    ensures Keep(a + b, t) == Keep(a, t) + Keep(b, t)
  {
    if a == [] {
      assert a + b == b;
    } else {
      assert (a + b)[1..] == a[1..] + b;
      KeepConcat(a[1..], b, t);
      assert [a[0]] + (Keep(a[1..], t) + Keep(b, t)) == [a[0]] + Keep(a[1..], t) + Keep(b, t);
    }
  }

  lemma {:induction false} KeepMembers<K, V>(es: seq<Entry<K, V>>, t: Test<K>)
    ensures var kept := Keep(es, t);
            |kept| <= |es| &&
            (forall i :: 0 <= i < |kept| ==> kept[i] in es && Passes(kept[i], t)) &&
            (forall i :: 0 <= i < |es| && Passes(es[i], t) ==> es[i] in kept)
  {
    if es != [] {
      KeepMembers(es[1..], t);
      assert es == [es[0]] + es[1..];
      var kept, rest := Keep(es, t), Keep(es[1..], t);
      forall i | 0 <= i < |es| && Passes(es[i], t) ensures es[i] in kept {
        if i > 0 {
          assert es[i] == es[1..][i - 1];
          assert es[i] in rest;
        } else {
          assert kept[0] == es[0];
        }
      }
    }
  }

  lemma {:induction false} KeepDistinct<K, V>(es: seq<Entry<K, V>>, t: Test<K>)
    requires DistinctKeys(es)
    ensures DistinctKeys(Keep(es, t))
  {
    if es != [] {
      KeepDistinct(es[1..], t);
      KeepMembers(es[1..], t);
      var rest := Keep(es[1..], t);
      forall i | 0 <= i < |rest| ensures rest[i].key != es[0].key {
        var j :| 0 <= j < |es[1..]| && es[1..][j] == rest[i];
        assert es[j + 1] == rest[i];
      }
    }
  }

  lemma {:induction false} LookupFinds<K, V>(es: seq<Entry<K, V>>, key: K)
    ensures Lookup(es, key).Some? ==> Lookup(es, key).value in es && Lookup(es, key).value.key == key
    ensures Lookup(es, key).None? ==> forall i :: 0 <= i < |es| ==> es[i].key != key
    ensures DistinctKeys(es) ==> forall i :: 0 <= i < |es| && es[i].key == key ==> Lookup(es, key) == Some(es[i])
  {
    if es != [] {
      LookupFinds(es[1..], key);
      assert es == [es[0]] + es[1..];
    }
  }

  /** A key is found among the live entries exactly when such an entry is stored. */
  lemma LookupLive<K, V>(l: Limits, es: seq<Entry<K, V>>, key: K, now: int)
    ensures Lookup(Keep(es, NotOlder(now, l.maxAge)), key).Some? <==> Stores(l, es, key, now)
  {
    var live := Keep(es, NotOlder(now, l.maxAge));
    KeepMembers(es, NotOlder(now, l.maxAge));
    LookupFinds(live, key);
    if Stores(l, es, key, now) {
      var i :| 0 <= i < |es| && es[i].key == key && now - es[i].insertedAt <= l.maxAge;
      assert es[i] in live;
    }
  }

  /** A get returns the value of the entry that is stored and young enough, and nothing otherwise. */
  lemma GetsWhatIsStored<K, V>(l: Limits, events: seq<Event<K, V>>, key: K, now: int)
    ensures var es := After(l, events); var r := Answer(l, es, Get(key, now));
            (r.None? <==> forall i :: 0 <= i < |es| && es[i].key == key ==> now - es[i].insertedAt > l.maxAge) &&
            (forall i :: 0 <= i < |es| && es[i].key == key && now - es[i].insertedAt <= l.maxAge ==> r == Some(es[i].value))
  {
    var es := After(l, events);
    var live := Keep(es, NotOlder(now, l.maxAge));
    LookupLive(l, es, key, now);
    AfterDistinct(l, events);
    KeepDistinct(es, NotOlder(now, l.maxAge));
    KeepMembers(es, NotOlder(now, l.maxAge));
    LookupFinds(live, key);
    forall i | 0 <= i < |es| && es[i].key == key && now - es[i].insertedAt <= l.maxAge
      ensures Answer(l, es, Get(key, now)) == Some(es[i].value)
    {
      var j :| 0 <= j < |live| && live[j] == es[i];
    }
  }

  lemma AnswersOneEntry<K, V>(l: Limits, events: seq<Event<K, V>>, key: K, now: int)
    ensures var es := After(l, events); var r := Answer(l, es, Get(key, now));
            (forall i :: 0 <= i < |es| && es[i].key == key ==>
              r == if now - es[i].insertedAt <= l.maxAge then Some(es[i].value) else None) &&
            ((forall i :: 0 <= i < |es| ==> es[i].key != key) ==> r == None)
  {
    hide Answer, After;
    GetsWhatIsStored(l, events, key, now);
    AfterDistinct(l, events);
  }

  lemma DistinctAppend<K, V>(es: seq<Entry<K, V>>, e: Entry<K, V>)
    requires DistinctKeys(es)
    ensures DistinctKeys(Keep(es, OtherThan(e.key)) + [e])
  {
    KeepDistinct(es, OtherThan(e.key));
    KeepMembers(es, OtherThan(e.key));
  }

  lemma ApplyDistinct<K, V>(l: Limits, es: seq<Entry<K, V>>, op: Op<K, V>)
    requires DistinctKeys(es)
    ensures DistinctKeys(Apply(l, es, op))
  {
    var live := Keep(es, NotOlder(op.now, l.maxAge));
    KeepDistinct(es, NotOlder(op.now, l.maxAge));
    LookupFinds(live, op.key);
    match op
    case Get(key, _) =>
      if Lookup(live, key).Some? {
        DistinctAppend(live, Lookup(live, key).value);
      }
    case Set(key, value, weight, now) =>
      DistinctAppend(live, Entry(key, value, now, weight));
  }

  lemma {:induction false} AfterDistinct<K, V>(l: Limits, events: seq<Event<K, V>>)
    ensures DistinctKeys(After(l, events))
  {
    if events != [] {
      var (before, e) := (events[..|events| - 1], events[|events| - 1]);
      AfterDistinct(l, before);
      if e.Used? {
        ApplyDistinct(l, After(l, before), e.op);
      }
    }
  }

  // ---- Inclusion: a larger cache holds everything a smaller one does, in the same order

  ghost predicate Subseq<T>(s: seq<T>, l: seq<T>) {
    s == [] || (l != [] && ((s[0] == l[0] && Subseq(s[1..], l[1..])) || Subseq(s, l[1..])))
  }

  lemma {:induction false} SubseqMembers<T>(s: seq<T>, l: seq<T>)
    requires Subseq(s, l)
    ensures |s| <= |l| && forall i :: 0 <= i < |s| ==> s[i] in l
  {
    if s != [] {
      assert s == [s[0]] + s[1..] && l == [l[0]] + l[1..];
      if s[0] == l[0] && Subseq(s[1..], l[1..]) {
        SubseqMembers(s[1..], l[1..]);
      } else {
        SubseqMembers(s, l[1..]);
      }
    }
  }

  lemma {:induction false} SubseqAppend<T>(s: seq<T>, l: seq<T>, x: T)
    requires Subseq(s, l)
    ensures Subseq(s + [x], l + [x])
  {
    if l == [] {
      assert s + [x] == [x] && l + [x] == [x] && [x][1..] == [];
    } else {
      assert (l + [x])[1..] == l[1..] + [x];
      if s != [] && s[0] == l[0] && Subseq(s[1..], l[1..]) {
        assert (s + [x])[1..] == s[1..] + [x];
        SubseqAppend(s[1..], l[1..], x);
      } else {
        SubseqAppend(s, l[1..], x);
      }
    }
  }

  /** Dropping elements of `s`, and no more of `l`, keeps the inclusion. */
  lemma {:induction false} SubseqDrop<T>(s: seq<T>, l: seq<T>)
    requires Subseq(s, l) && s != []
    ensures Subseq(s[1..], l) && Subseq(s[1..], l[1..])
  {
    if !(s[0] == l[0] && Subseq(s[1..], l[1..])) {
      SubseqDrop(s, l[1..]);
    }
  }

  lemma {:induction false} SubseqKeep<K, V>(s: seq<Entry<K, V>>, l: seq<Entry<K, V>>, t: Test<K>)
    requires Subseq(s, l)
    ensures Subseq(Keep(s, t), Keep(l, t))
    ensures |Keep(l, t)| - |Keep(s, t)| <= |l| - |s|
  {
    KeepMembers(l, t);
    if s != [] {
      var ks, kl := Keep(s, t), Keep(l, t);
      if s[0] == l[0] && Subseq(s[1..], l[1..]) {
        SubseqKeep(s[1..], l[1..], t);
        if Passes(s[0], t) {
          assert ks[0] == kl[0] && ks[1..] == Keep(s[1..], t) && kl[1..] == Keep(l[1..], t);
        } else {
          assert ks == Keep(s[1..], t) && kl == Keep(l[1..], t);
        }
      } else {
        SubseqKeep(s, l[1..], t);
        if Passes(l[0], t) {
          assert kl[1..] == Keep(l[1..], t);
        } else {
          assert kl == Keep(l[1..], t);
        }
      }
    }
  }

  lemma {:induction false} SubseqLatest<T>(s: seq<T>, l: seq<T>, m: nat, n: nat)
    requires Subseq(s, l) && m <= n && |l| - |s| <= n - m
    ensures Subseq(Latest(s, m), Latest(l, n)) && |Latest(l, n)| - |Latest(s, m)| <= n - m
    decreases |s| + |l|
  {
    SubseqMembers(s, l);
    if |l| > n {
      SubseqDrop(s, l);
      SubseqLatest(s[1..], l[1..], m, n);
      assert Latest(s[1..], m) == Latest(s, m) && Latest(l[1..], n) == Latest(l, n);
    } else if |s| > m {
      SubseqDrop(s, l);
      if |l| - |s[1..]| <= n - m {
        SubseqLatest(s[1..], l, m, n);
        assert Latest(s[1..], m) == Latest(s, m);
      }
    }
  }

  /** The entries of the smaller cache, and how many more the larger one may hold. */
  ghost predicate Included<K, V>(small: Limits, s: seq<Entry<K, V>>, large: Limits, l: seq<Entry<K, V>>) {
    Subseq(s, l) && |l| - |s| <= large.maxEntries - small.maxEntries &&
    |s| <= small.maxEntries && |l| <= large.maxEntries && DistinctKeys(s) && DistinctKeys(l)
  }

  lemma LookupInLarger<K, V>(s: seq<Entry<K, V>>, l: seq<Entry<K, V>>, key: K)
    requires Subseq(s, l) && DistinctKeys(l)
    ensures Lookup(s, key).Some? ==> Lookup(l, key) == Lookup(s, key)
  {
    SubseqMembers(s, l);
    LookupFinds(s, key);
    LookupFinds(l, key);
  }

  lemma {:induction false} KeepAll<K, V>(es: seq<Entry<K, V>>, t: Test<K>)
    requires forall i :: 0 <= i < |es| ==> Passes(es[i], t)
    ensures Keep(es, t) == es
  {
    if es != [] {
      KeepAll(es[1..], t);
    }
  }

  lemma {:induction false} KeepOthers<K, V>(es: seq<Entry<K, V>>, e: Entry<K, V>)
    requires DistinctKeys(es) && e in es
    ensures |Keep(es, OtherThan(e.key))| == |es| - 1
  {
    if es[0] == e {
      KeepAll(es[1..], OtherThan(e.key));
    } else {
      assert es == [es[0]] + es[1..];
      var i :| 0 <= i < |es| && es[i] == e;
      assert es[0].key != e.key;
      KeepOthers(es[1..], e);
    }
  }

  lemma StepIncluded<K, V>(small: Limits, s: seq<Entry<K, V>>, large: Limits, l: seq<Entry<K, V>>, op: Op<K, V>)
    requires small.maxAge == large.maxAge && small.maxEntries <= large.maxEntries
    requires Included(small, s, large, l)
    ensures Included(small, Apply(small, s, op), large, Apply(large, l, op))
    ensures Answer(small, s, op).Some? ==> Answer(large, l, op) == Answer(small, s, op)
  {
    ApplyDistinct(small, s, op);
    ApplyDistinct(large, l, op);
    var t := NotOlder(op.now, small.maxAge);
    var (s1, l1) := (Keep(s, t), Keep(l, t));
    SubseqKeep(s, l, t);
    KeepDistinct(s, t);
    KeepDistinct(l, t);
    KeepMembers(s, t);
    KeepMembers(l, t);
    LookupInLarger(s1, l1, op.key);
    SubseqKeep(s1, l1, OtherThan(op.key));
    var (s2, l2) := (Keep(s1, OtherThan(op.key)), Keep(l1, OtherThan(op.key)));
    match op
    case Get(key, _) =>
      LookupFinds(s1, key);
      LookupFinds(l1, key);
      if Lookup(l1, key).Some? {
        var e := Lookup(l1, key).value;
        KeepOthers(l1, e);
        if Lookup(s1, key).Some? {
          KeepOthers(s1, e);
          SubseqAppend(s2, l2, e);
        } else {
          KeepAll(s1, OtherThan(key));
          SubseqGrow(s1, l2, e);
        }
      }
    case Set(key, value, weight, now) =>
      KeepMembers(s1, OtherThan(key));
      KeepMembers(l1, OtherThan(key));
      var e := Entry(key, value, now, weight);
      SubseqAppend(s2, l2, e);
      SubseqLatest(s2 + [e], l2 + [e], small.maxEntries, large.maxEntries);
  }

  lemma {:induction false} SubseqGrow<T>(s: seq<T>, l: seq<T>, x: T)
    requires Subseq(s, l)
    ensures Subseq(s, l + [x])
  {
    if s != [] {
      assert (l + [x])[1..] == l[1..] + [x];
      if s[0] == l[0] && Subseq(s[1..], l[1..]) {
        SubseqGrow(s[1..], l[1..], x);
      } else {
        SubseqGrow(s, l[1..], x);
      }
    }
  }

  /** A run without memory pressure. */
  predicate Unpressed<K, V>(events: seq<Event<K, V>>) {
    forall i :: 0 <= i < |events| ==> events[i].Used?
  }

  /**
   Running the same operations on a smaller and a larger cache of the same maximum age: the smaller
   one's entries are among the larger one's, in the same order and with the same values and insertion
   times, the larger one holds at most the difference in capacity more, and every hit of the smaller
   one is a hit of the larger one with the same value.
   */
  lemma {:induction false} Inclusion<K, V>(small: Limits, large: Limits, events: seq<Event<K, V>>)
    requires small.maxAge == large.maxAge && small.maxEntries <= large.maxEntries && Unpressed(events)
    ensures Included(small, After(small, events), large, After(large, events))
    ensures events != [] ==>
              var (before, op) := (events[..|events| - 1], events[|events| - 1].op);
              var hit := Answer(small, After(small, before), op);
              hit.Some? ==> Answer(large, After(large, before), op) == hit
  {
    if events != [] {
      var (before, op) := (events[..|events| - 1], events[|events| - 1].op);
      Inclusion(small, large, before);
      StepIncluded(small, After(small, before), large, After(large, before), op);
    }
  }

  // ---- What is stored, and in which order

  /** What the last `Set` of the key stored. */
  function LastSet<K(==), V>(events: seq<Event<K, V>>, key: K): (r: Option<Entry<K, V>>)
    ensures r.Some? ==> r.value.key == key
  {
    if events == [] then None
    else
      match events[|events| - 1]
      case Used(Set(k, value, weight, now)) =>
        if k == key then Some(Entry(k, value, now, weight)) else LastSet(events[..|events| - 1], key)
      case _ => LastSet(events[..|events| - 1], key)
  }

  /** The number of the last operation that stored or found the key, counting from 1; 0 if there is none. */
  ghost function LastUse<K, V>(l: Limits, events: seq<Event<K, V>>, key: K): (n: nat)
    ensures n <= |events|
  {
    if events == [] then 0
    else
      var (before, e) := (events[..|events| - 1], events[|events| - 1]);
      if e.Used? && e.op.key == key && Uses(l, After(l, before), e.op) then |events| else LastUse(l, before, key)
  }

  /** Every entry is the one last set, and entries stand in the order of their last use. */
  ghost predicate Recent<K, V>(l: Limits, events: seq<Event<K, V>>, es: seq<Entry<K, V>>) {
    (forall i :: 0 <= i < |es| ==> LastSet(events, es[i].key) == Some(es[i]) && LastUse(l, events, es[i].key) > 0) &&
    forall i, j :: 0 <= i < j < |es| ==> LastUse(l, events, es[i].key) < LastUse(l, events, es[j].key)
  }

  lemma {:induction false} KeepRecent<K, V>(l: Limits, events: seq<Event<K, V>>, es: seq<Entry<K, V>>, t: Test<K>)
    requires Recent(l, events, es)
    ensures Recent(l, events, Keep(es, t))
  {
    hide LastSet, LastUse;
    if es != [] {
      var rest := Keep(es[1..], t);
      KeepRecent(l, events, es[1..], t);
      KeepMembers(es[1..], t);
      forall i | 0 <= i < |rest| ensures LastUse(l, events, es[0].key) < LastUse(l, events, rest[i].key) {
        var j :| 0 <= j < |es[1..]| && es[1..][j] == rest[i];
        assert es[j + 1] == rest[i];
      }
    }
  }

  /** An operation on another key, or one that does not find its key, leaves history as it was. */
  lemma OthersStayRecent<K, V>(l: Limits, events: seq<Event<K, V>>, op: Op<K, V>, es: seq<Entry<K, V>>)
    requires Recent(l, events, es)
    requires (forall i :: 0 <= i < |es| ==> es[i].key != op.key) || !Uses(l, After(l, events), op)
    ensures Recent(l, events + [Used(op)], es)
  {
    assert (events + [Used(op)])[..|events|] == events;
  }

  lemma NewestIsRecent<K, V>(l: Limits, events: seq<Event<K, V>>, op: Op<K, V>, es: seq<Entry<K, V>>, e: Entry<K, V>)
    requires Recent(l, events, es) && forall i :: 0 <= i < |es| ==> es[i].key != op.key
    requires e.key == op.key && Uses(l, After(l, events), op)
    requires LastSet(events + [Used(op)], op.key) == Some(e)
    ensures Recent(l, events + [Used(op)], es + [e])
  {
    OthersStayRecent(l, events, op, es);
    assert (events + [Used(op)])[..|events|] == events;
    forall i | 0 <= i < |es| ensures LastUse(l, events + [Used(op)], es[i].key) <= |events| {}
  }

  lemma StepRecent<K, V>(l: Limits, events: seq<Event<K, V>>, op: Op<K, V>)
    requires Recent(l, events, After(l, events))
    ensures Recent(l, events + [Used(op)], Apply(l, After(l, events), op))
  {
    hide Keep, Lookup, LastUse;
    var es := After(l, events);
    var t := NotOlder(op.now, l.maxAge);
    var live := Keep(es, t);
    KeepRecent(l, events, es, t);
    KeepRecent(l, events, live, OtherThan(op.key));
    KeepMembers(live, OtherThan(op.key));
    LookupFinds(live, op.key);
    LookupLive(l, es, op.key, op.now);
    assert (events + [Used(op)])[..|events|] == events;
    var others := Keep(live, OtherThan(op.key));
    match op
    case Get(key, _) =>
      if Lookup(live, key).None? {
        OthersStayRecent(l, events, op, live);
      } else {
        NewestIsRecent(l, events, op, others, Lookup(live, key).value);
      }
    case Set(key, value, weight, now) =>
      NewestIsRecent(l, events, op, others, Entry(key, value, now, weight));
  }

  /** Dropping the oldest entries leaves history and the order of the others as they were. */
  lemma DropRecent<K, V>(l: Limits, events: seq<Event<K, V>>, dropped: nat)
    requires Recent(l, events, After(l, events))
    ensures Recent(l, events + [Pressed(dropped)], Next(l, After(l, events), Pressed(dropped)))
  {
    assert (events + [Pressed(dropped)])[..|events|] == events;
    var es := After(l, events);
    forall i | dropped <= i < |es| ensures LastSet(events + [Pressed(dropped)], es[i].key) == LastSet(events, es[i].key) {}
  }

  /** After any run, what is stored is what was last set, ordered by last use. */
  lemma {:induction false} StoredInOrderOfUse<K, V>(l: Limits, events: seq<Event<K, V>>)
    ensures Recent(l, events, After(l, events))
  {
    if events != [] {
      var (before, e) := (events[..|events| - 1], events[|events| - 1]);
      StoredInOrderOfUse(l, before);
      assert before + [e] == events;
      match e
      case Used(op) => StepRecent(l, before, op);
      case Pressed(dropped) => DropRecent(l, before, dropped);
    }
  }

  /** A hit returns the value last set for the key, and that value is not older than the maximum age. */
  lemma HitsAreCurrent<K, V>(l: Limits, events: seq<Event<K, V>>, key: K, now: int)
    ensures var hit := Answer(l, After(l, events), Get(key, now));
            hit.Some? ==>
              LastSet(events, key).Some? && LastSet(events, key).value.value == hit.value &&
              now - LastSet(events, key).value.insertedAt <= l.maxAge
  {
    var es := After(l, events);
    StoredInOrderOfUse(l, events);
    KeepRecent(l, events, es, NotOlder(now, l.maxAge));
    KeepMembers(es, NotOlder(now, l.maxAge));
    LookupFinds(Keep(es, NotOlder(now, l.maxAge)), key);
  }

  lemma {:induction false} SubseqOfItself<T>(s: seq<T>)
    ensures Subseq(s, s)
  {
    if s != [] {
      SubseqOfItself(s[1..]);
    }
  }

  lemma {:induction false} AfterFits<K, V>(l: Limits, events: seq<Event<K, V>>)
    ensures |After(l, events)| <= l.maxEntries && DistinctKeys(After(l, events))
  {
    AfterDistinct(l, events);
    if events != [] {
      var (before, e) := (events[..|events| - 1], events[|events| - 1]);
      AfterFits(l, before);
      if e.Used? {
        SubseqOfItself(After(l, before));
        StepIncluded(l, After(l, before), l, After(l, before), e.op);
      }
    }
  }

  /**
   After an operation at `now` nothing stored is older than the maximum age, except that a negative
   maximum age does not keep a `Set` from storing its own entry; after a `Set` the bound on the number
   of entries holds, and its own entry is among them unless that bound is 0.
   */
  lemma BoundsHold<K, V>(l: Limits, events: seq<Event<K, V>>, op: Op<K, V>)
    ensures var es := Apply(l, After(l, events), op);
            |es| <= l.maxEntries &&
            (forall i :: 0 <= i < |es| ==>
              op.now - es[i].insertedAt <= l.maxAge || (op.Set? && l.maxAge < 0 && i == |es| - 1)) &&
            (op.Set? && l.maxEntries > 0 ==>
              es != [] && es[|es| - 1] == Entry(op.key, op.value, op.now, op.weight))
  {
    var es := After(l, events);
    var live := Keep(es, NotOlder(op.now, l.maxAge));
    AfterFits(l, events);
    SubseqOfItself(es);
    StepIncluded(l, es, l, es, op);
    KeepMembers(es, NotOlder(op.now, l.maxAge));
    KeepMembers(live, OtherThan(op.key));
    LookupFinds(live, op.key);
  }

  /** A `Set` over capacity drops the least recently used entries, and no more of them than it has to. */
  lemma EvictsShortestPrefix<K, V>(l: Limits, es: seq<Entry<K, V>>, op: Op<K, V>)
    requires op.Set?
    ensures var full := Keep(Keep(es, NotOlder(op.now, l.maxAge)), OtherThan(op.key)) +
                        [Entry(op.key, op.value, op.now, op.weight)];
            var kept := Apply(l, es, op);
            |kept| <= |full| && kept == full[|full| - |kept|..] && |kept| <= l.maxEntries &&
            (kept == full || |kept| == l.maxEntries)
  {
  }

  // ---- Retention: how long an entry is sure to stay

  /** The keys used after the first `from` events. */
  ghost function UsedSince<K, V>(l: Limits, events: seq<Event<K, V>>, from: nat): set<K>
    decreases |events|
  {
    if |events| <= from then {}
    else
      var (before, e) := (events[..|events| - 1], events[|events| - 1]);
      UsedSince(l, before, from) + if e.Used? && Uses(l, After(l, before), e.op) then {e.op.key} else {}
  }

  /** `e` is stored, and everything used more recently is in `keys`. */
  ghost predicate Holding<K, V>(es: seq<Entry<K, V>>, e: Entry<K, V>, keys: set<K>) {
    exists n :: 0 <= n < |es| && es[n] == e && forall i :: n < i < |es| ==> es[i].key in keys
  }

  lemma KeepAround<K, V>(a: seq<Entry<K, V>>, e: Entry<K, V>, b: seq<Entry<K, V>>, t: Test<K>)
    requires Passes(e, t)
    ensures Keep(a + ([e] + b), t) == Keep(a, t) + ([e] + Keep(b, t))
  {
    KeepConcat(a, [e] + b, t);
    assert ([e] + b)[1..] == b;
  }

  lemma KeepHolding<K, V>(es: seq<Entry<K, V>>, e: Entry<K, V>, keys: set<K>, t: Test<K>)
    requires Holding(es, e, keys) && Passes(e, t)
    ensures Holding(Keep(es, t), e, keys)
  {
    hide Keep;
    var n :| 0 <= n < |es| && es[n] == e && forall i :: n < i < |es| ==> es[i].key in keys;
    var (front, back) := (es[..n], es[n + 1..]);
    assert es == front + ([e] + back);
    KeepAround(front, e, back, t);
    KeepMembers(back, t);
    var (kept, a, b) := (Keep(es, t), Keep(front, t), Keep(back, t));
    assert kept[|a|] == e;
    forall i | |a| < i < |kept| ensures kept[i].key in keys {
      assert kept[i] == b[i - |a| - 1];
    }
  }

  lemma {:induction false} DistinctFit<K, V>(es: seq<Entry<K, V>>, keys: set<K>)
    requires DistinctKeys(es) && forall i :: 0 <= i < |es| ==> es[i].key in keys
    ensures |es| <= |keys|
  {
    if es != [] {
      DistinctFit(es[1..], keys - {es[0].key});
    }
  }

  lemma AppendHolding<K, V>(es: seq<Entry<K, V>>, e: Entry<K, V>, keys: set<K>, other: Entry<K, V>)
    requires Holding(es, e, keys)
    ensures Holding(es + [other], e, keys + {other.key})
  {
    var n :| 0 <= n < |es| && es[n] == e && forall i :: n < i < |es| ==> es[i].key in keys;
    assert (es + [other])[n] == e;
  }

  lemma LatestHolding<K, V>(es: seq<Entry<K, V>>, e: Entry<K, V>, keys: set<K>, most: nat)
    requires Holding(es, e, keys) && DistinctKeys(es) && |keys| < most
    ensures Holding(Latest(es, most), e, keys)
  {
    var n :| 0 <= n < |es| && es[n] == e && forall i :: n < i < |es| ==> es[i].key in keys;
    DistinctFit(es[n + 1..], keys);
    if |es| > most {
      var m := |es| - most;
      assert es[m..][n - m] == e;
    }
  }

  lemma StepHolding<K, V>(l: Limits, es: seq<Entry<K, V>>, e: Entry<K, V>, keys: set<K>, op: Op<K, V>)
    requires DistinctKeys(es) && Holding(es, e, keys)
    requires op.now - e.insertedAt <= l.maxAge && (op.key == e.key ==> !Uses(l, es, op))
    requires |keys + if Uses(l, es, op) then {op.key} else {}| < l.maxEntries
    ensures Holding(Apply(l, es, op), e, keys + if Uses(l, es, op) then {op.key} else {})
  {
    var live := Keep(es, NotOlder(op.now, l.maxAge));
    assert keys + {} == keys;
    KeepHolding(es, e, keys, NotOlder(op.now, l.maxAge));
    KeepDistinct(es, NotOlder(op.now, l.maxAge));
    LookupFinds(live, op.key);
    LookupLive(l, es, op.key, op.now);
    hide Stores;
    match op
    case Get(key, _) =>
      if Lookup(live, key).Some? {
        KeepHolding(live, e, keys, OtherThan(key));
        AppendHolding(Keep(live, OtherThan(key)), e, keys, Lookup(live, key).value);
      }
    case Set(key, value, weight, now) =>
      var new_ := Entry(key, value, now, weight);
      KeepHolding(live, e, keys, OtherThan(key));
      AppendHolding(Keep(live, OtherThan(key)), e, keys, new_);
      DistinctAppend(live, new_);
      LatestHolding(Keep(live, OtherThan(key)) + [new_], e, keys + {key}, l.maxEntries);
  }

  /**
   The guarantee of an LRU cache: without memory pressure since its last use, an entry that has not gone
   over the maximum age at any operation stays stored as long as fewer than `maxEntries` other keys have
   been used since.
   */
  lemma {:induction false} RetainedWhileRecent<K, V>(l: Limits, events: seq<Event<K, V>>, key: K)
    requires LastUse(l, events, key) > 0 && LastSet(events, key).Some?
    requires forall i :: LastUse(l, events, key) <= i < |events| ==>
               events[i].Used? && events[i].op.now - LastSet(events, key).value.insertedAt <= l.maxAge
    requires |UsedSince(l, events, LastUse(l, events, key))| < l.maxEntries
    ensures Holding(After(l, events), LastSet(events, key).value, UsedSince(l, events, LastUse(l, events, key)))
    decreases |events|
  {
    var (before, op) := (events[..|events| - 1], events[|events| - 1].op);
    var es, e, from := After(l, before), LastSet(events, key).value, LastUse(l, events, key);
    AfterDistinct(l, before);
    if from == |events| {
      var now_ := After(l, events);
      LookupFinds(Keep(es, NotOlder(op.now, l.maxAge)), key);
      LookupLive(l, es, key, op.now);
      StoredInOrderOfUse(l, events);
      BoundsHold(l, before, op);
      assert now_[|now_| - 1] == e;
    } else {
      assert UsedSince(l, before, from) <= UsedSince(l, events, from);
      SubsetSize(UsedSince(l, before, from), UsedSince(l, events, from));
      assert LastUse(l, before, key) == from && LastSet(before, key) == Some(e);
      forall i | from <= i < |before| ensures before[i].Used? && before[i].op.now - e.insertedAt <= l.maxAge {
        assert before[i] == events[i];
      }
      RetainedWhileRecent(l, before, key);
      assert Used(op) == events[|events| - 1];
      StepHolding(l, es, e, UsedSince(l, before, from), op);
    }
  }

  /** And a get of it returns the value last set. */
  lemma GetsWhileRecent<K, V>(l: Limits, events: seq<Event<K, V>>, key: K, now: int)
    requires LastUse(l, events, key) > 0 && LastSet(events, key).Some?
    requires forall i :: LastUse(l, events, key) <= i < |events| ==>
               events[i].Used? && events[i].op.now - LastSet(events, key).value.insertedAt <= l.maxAge
    requires |UsedSince(l, events, LastUse(l, events, key))| < l.maxEntries
    requires now - LastSet(events, key).value.insertedAt <= l.maxAge
    ensures Answer(l, After(l, events), Get(key, now)) == Some(LastSet(events, key).value.value)
  {
    hide After, LastUse, LastSet, UsedSince, Answer;
    RetainedWhileRecent(l, events, key);
    var es, e := After(l, events), LastSet(events, key).value;
    var n :| 0 <= n < |es| && es[n] == e;
    GetsWhatIsStored(l, events, key, now);
  }

  lemma WeightAdds<K, V>(es: seq<Entry<K, V>>, e: Entry<K, V>)
    ensures Weight([e] + es) == e.weight + Weight(es) && Weight<K, V>([]) == 0.0
  {
    assert ([e] + es)[1..] == es;
  }

  // ---- Memory pressure

  function PressureAt(config: Option<PressureConfig>, usage: real): PressureState {
    if config.None? then Normal
    else if usage >= config.value.hardLimit then Hard
    else if usage >= config.value.softLimit then Soft
    else Normal
  }

  /** Rising usage never lowers the pressure; without a configuration there is none. */
  lemma PressureRises(config: Option<PressureConfig>, usage: real, more: real)
    requires usage <= more
    ensures PressureAt(config, usage) == Hard ==> PressureAt(config, more) == Hard
    ensures PressureAt(config, usage) == Soft ==> PressureAt(config, more) != Normal
    ensures (exists u :: PressureAt(config, u) == Soft) <==> config.Some? && config.value.softLimit < config.value.hardLimit
  {
    if config.Some? && config.value.softLimit < config.value.hardLimit {
      assert PressureAt(config, config.value.softLimit) == Soft;
    }
  }

  /** How much weight may stay under this pressure. */
  function TargetWeight(config: PressureConfig, state: PressureState): real {
    if state == Soft && config.softLimit > 0.0 then config.softLimit / 2.0 else 0.0
  }

  /** Dropping the `n` oldest brings the weight down to `target`, and dropping fewer does not. */
  ghost predicate FewestToTarget<K, V>(es: seq<Entry<K, V>>, n: nat, target: real) {
    n <= |es| && Weight(es[n..]) <= target && forall m: nat :: m < n ==> Weight(es[m..]) > target
  }

  // ---- The code

  class WarmCache<K(==), V> {
    const maxEntries: nat
    const maxAge: int
    const memoryPressure: Option<PressureConfig>
    var entries: seq<Entry<K, V>>
    ghost var events: seq<Event<K, V>>

    ghost function Bounds(): Limits {
      Limits(maxEntries, maxAge)
    }

    /** The entries are those of the run so far. */
    ghost predicate Valid()
      reads this
    {
      entries == After(Bounds(), events)
    }

    constructor (maxEntries: nat, maxAge: int, memoryPressure: Option<PressureConfig>)
      ensures Valid() && entries == [] && events == []
      ensures this.maxEntries == maxEntries && this.maxAge == maxAge && this.memoryPressure == memoryPressure
    {
      this.maxEntries := maxEntries;
      this.maxAge := maxAge;
      this.memoryPressure := memoryPressure;
      entries := [];
      events := [];
    }

    method Get(key: K, now: int) returns (r: Option<V>)
      requires Valid()
      modifies this
      ensures Valid() && events == old(events) + [Used(Op.Get(key, now))]
      ensures entries == Apply(Bounds(), old(entries), Op.Get(key, now))
      ensures r == Answer(Bounds(), old(entries), Op.Get(key, now))
      ensures forall i :: 0 <= i < |old(entries)| && old(entries)[i].key == key ==>
                r == if now - old(entries)[i].insertedAt <= maxAge then Some(old(entries)[i].value) else None
      ensures (forall i :: 0 <= i < |old(entries)| ==> old(entries)[i].key != key) ==> r == None
    {
      hide After, Keep, DistinctKeys;
      AnswersOneEntry(Bounds(), events, key, now);
      AfterOneMore(Bounds(), events, Used(Op.Get(key, now)));
      events := events + [Used(Op.Get(key, now))];
      PruneExpired(now);
      var found := Lookup(entries, key);
      match found
      case None => r := None;
      case Some(entry) =>
        Delete(key);
        entries := entries + [entry];
        r := Some(entry.value);
    }

    method Has(key: K, now: int) returns (found: bool)
      requires Valid()
      modifies this
      ensures Valid() && events == old(events) + [Used(Op.Get(key, now))]
      ensures entries == Apply(Bounds(), old(entries), Op.Get(key, now))
      ensures found <==> Stores(Bounds(), old(entries), key, now)
    {
      LookupLive(Bounds(), entries, key, now);
      var r := Get(key, now);
      found := r.Some?;
    }

    method Set(key: K, value: V, weight: real, now: int)
      requires Valid()
      modifies this
      ensures Valid() && events == old(events) + [Used(Op.Set(key, value, weight, now))]
      ensures entries == Apply(Bounds(), old(entries), Op.Set(key, value, weight, now))
    {
      hide After, Keep, DistinctKeys;
      AfterOneMore(Bounds(), events, Used(Op.Set(key, value, weight, now)));
      events := events + [Used(Op.Set(key, value, weight, now))];
      ghost var ran := events;
      PruneExpired(now);
      Delete(key);
      entries := entries + [Entry(key, value, now, weight)];
      ghost var full := entries;
      while |entries| > maxEntries
        invariant |entries| <= |full| && entries == full[|full| - |entries|..]
        invariant |entries| >= maxEntries || entries == full
        invariant events == ran
      {
        EvictOldest();
      }
    }

    /** Reports the fewest evictions of least recently used entries that meet the target for the pressure. */
    method HandleMemoryPressure(usage: real) returns (evicted: nat, state: PressureState)
      requires Valid()
      modifies this
      ensures Valid() && state == PressureAt(memoryPressure, usage)
      ensures state == Hard <==> memoryPressure.Some? && usage >= memoryPressure.value.hardLimit
      ensures state == Soft <==> memoryPressure.Some? && memoryPressure.value.softLimit <= usage < memoryPressure.value.hardLimit
      ensures events == if state == Normal then old(events) else old(events) + [Pressed(evicted)]
      ensures state == Normal ==> evicted == 0 && entries == old(entries)
      ensures state != Normal ==>
                var soft := memoryPressure.value.softLimit;
                FewestToTarget(old(entries), evicted, if state == Soft && soft > 0.0 then soft / 2.0 else 0.0) &&
                entries == old(entries)[evicted..]
    {
      state := MemoryPressureState(usage);
      evicted := 0;
      if state == Normal {
        return;
      }
      var target := TargetWeight(memoryPressure.value, state);
      var total := TotalWeight();
      assert old(entries)[0..] == old(entries);
      ghost var before := events;
      while total > target && |entries| > 0
        invariant evicted <= |old(entries)| && entries == old(entries)[evicted..]
        invariant total == Weight(entries) && events == before
        invariant forall m: nat :: m < evicted ==> Weight(old(entries)[m..]) > target
        decreases |entries|
      {
        EvictOldest();
        evicted := evicted + 1;
        total := TotalWeight();
      }
      AfterOneMore(Bounds(), events, Pressed(evicted));
      events := events + [Pressed(evicted)];
    }

    method MemoryPressureState(usage: real) returns (state: PressureState)
      ensures state == PressureAt(memoryPressure, usage)
    {
      if memoryPressure.None? {
        return Normal;
      }
      if usage >= memoryPressure.value.hardLimit {
        return Hard;
      }
      if usage >= memoryPressure.value.softLimit {
        return Soft;
      }
      return Normal;
    }

    /** Deleting while iterating: every entry is looked at once, in order. */
    method PruneExpired(now: int)
      modifies this`entries
      ensures entries == Keep(old(entries), NotOlder(now, maxAge))
    {
      ghost var all, seen := entries, 0;
      var i := 0;
      assert all[0..] == all;
      while i < |entries|
        invariant 0 <= seen <= |all| && 0 <= i <= |entries|
        invariant entries[..i] == Keep(all[..seen], NotOlder(now, maxAge))
        invariant entries[i..] == all[seen..]
      {
        assert all[..seen + 1] == all[..seen] + [all[seen]] && all[seen] == entries[i..][0];
        KeepConcat(all[..seen], [all[seen]], NotOlder(now, maxAge));
        assert entries[i + 1..] == entries[i..][1..] == all[seen + 1..];
        if now - entries[i].insertedAt > maxAge {
          entries := entries[..i] + entries[i + 1..];
        } else {
          assert entries[..i + 1] == entries[..i] + [entries[i]];
          i := i + 1;
        }
        seen := seen + 1;
      }
      assert all[..seen] == all && entries[..i] == entries;
    }

    method Delete(key: K)
      modifies this`entries
      ensures entries == Keep(old(entries), OtherThan(key))
    {
      entries := Keep(entries, OtherThan(key));
    }

    method EvictOldest()
      modifies this`entries
      ensures entries == if old(entries) == [] then [] else old(entries)[1..]
    {
      if entries != [] {
        entries := entries[1..];
      }
    }

    method TotalWeight() returns (total: real)
      ensures total == Weight(entries)
    {
      total := 0.0;
      for i := 0 to |entries|
        invariant total + Weight(entries[i..]) == Weight(entries)
      {
        total := total + entries[i].weight;
        assert entries[i..][1..] == entries[i + 1..];
      }
    }
  }
}
