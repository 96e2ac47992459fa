/**
 Where a plugin's keys live: the namespace prefix of crates/plugin-kv/src/config.rs and the key
 mapping of packages/plugin-runtime/src/kv.ts.
 */
module Namespaces {
  import opened Wrappers

  datatype Policy = Policy(rootPrefix: string, includeInstanceId: bool)

  /** A plugin as its namespace sees it: sanitized, with the instance only when the policy includes it. */
  datatype Identity = Identity(plugin: string, instance: Option<string>)

  datatype Segment = Data | Lock
  {
    function Name(): string {
      match this
      case Data => "data"
      case Lock => "lock"
    }
  }

  predicate IsAlphanumeric(c: char) {
    'a' <= c <= 'z' || 'A' <= c <= 'Z' || '0' <= c <= '9'
  }

  predicate Safe(c: char) {
    IsAlphanumeric(c) || c == '-' || c == '_'
  }

  function SanitizeComponent(input: string): (s: string)
    ensures |s| == |input|
    ensures forall i :: 0 <= i < |s| ==> s[i] == (if Safe(input[i]) then input[i] else '_')
    ensures ':' !in s
  {
    if input == "" then ""
    else
      var c := input[0];
      var rest := SanitizeComponent(input[1..]);
      [if Safe(c) then c else '_'] + rest
  }

  function IdentityOf(policy: Policy, pluginId: string, instanceId: Option<string>): (id: Identity)
    ensures Clean(id)
  {
    Identity(
      SanitizeComponent(pluginId),
      if policy.includeInstanceId && instanceId.Some? then Some(SanitizeComponent(instanceId.value)) else None)
  }

  predicate Clean(id: Identity) {
    ':' !in id.plugin && (id.instance.Some? ==> ':' !in id.instance.value)
  }

  function Components(id: Identity): string {
    if id.instance.None? then id.plugin else id.plugin + ":" + id.instance.value
  }

  function Prefix(policy: Policy, id: Identity): string {
    policy.rootPrefix + ":" + Components(id)
  }

  function Render(policy: Policy, pluginId: string, instanceId: Option<string>): string {
    Prefix(policy, IdentityOf(policy, pluginId, instanceId))
  }

  predicate ValidKey(key: string) {
    1 <= |key| <= 512 && forall c <- key :: IsAlphanumeric(c) || c == ':' || c == '_' || c == '-'
  }

  function SegmentPrefix(prefix: string, segment: Segment): string {
    prefix + ":" + segment.Name() + ":"
  }

  function StorageKey(prefix: string, segment: Segment, key: string): string {
    SegmentPrefix(prefix, segment) + key
  }

  predicate StartsWith(s: string, prefix: string) {
    prefix <= s
  }

  function BareKey(prefix: string, segment: Segment, key: string): string {
    var p := SegmentPrefix(prefix, segment);
    if StartsWith(key, p) then key[|p|..] else key
  }

  /** The bare key is what was stored; a key of another namespace or segment is left as it is. */
  lemma BareKeyInverts(prefix: string, segment: Segment, key: string)
    ensures BareKey(prefix, segment, StorageKey(prefix, segment, key)) == key
    ensures forall k :: BareKey(prefix, segment, k) == k || k == StorageKey(prefix, segment, BareKey(prefix, segment, k))
  {
    forall k | StartsWith(k, SegmentPrefix(prefix, segment))
      ensures k == StorageKey(prefix, segment, BareKey(prefix, segment, k))
    {
      assert k == SegmentPrefix(prefix, segment) + k[|SegmentPrefix(prefix, segment)|..];
    }
  }

  /** How namespaces and storage keys are spelled. */
  lemma KeysAreSpelled(policy: Policy, pluginId: string, instanceId: Option<string>, key: string)
    ensures var p := Render(policy, pluginId, instanceId);
            p == (if policy.includeInstanceId && instanceId.Some?
                  then policy.rootPrefix + ":" + (SanitizeComponent(pluginId) + ":" + SanitizeComponent(instanceId.value))
                  else policy.rootPrefix + ":" + SanitizeComponent(pluginId)) &&
            StorageKey(p, Data, key) == p + ":data:" + key && StorageKey(p, Lock, key) == p + ":lock:" + key
  {
    hide SanitizeComponent;
    var p := Render(policy, pluginId, instanceId);
    assert SegmentPrefix(p, Data) == p + ":data:" && SegmentPrefix(p, Lock) == p + ":lock:";
  }

  /** Keys are 1 to 512 of these characters. */
  lemma KeysAreChecked(key: string)
    ensures ValidKey(key) <==>
              0 < |key| < 513 &&
              forall c <- key :: c in "ABCDEFGHIJKLMNOPQRSTUVWXYZ" || c in "abcdefghijklmnopqrstuvwxyz" || c in "0123456789" ||
                                 c in ":_-"
  {
    forall c <- key ensures (IsAlphanumeric(c) || c == ':' || c == '_' || c == '-') <==>
                            (c in "ABCDEFGHIJKLMNOPQRSTUVWXYZ" || c in "abcdefghijklmnopqrstuvwxyz" ||
                             c in "0123456789" || c in ":_-") {
      Letters(c);
    }
  }

  lemma Letters(c: char)
    ensures IsAlphanumeric(c) <==>
              c in "ABCDEFGHIJKLMNOPQRSTUVWXYZ" || c in "abcdefghijklmnopqrstuvwxyz" || c in "0123456789"
    ensures Safe(c) <==>
              c in "ABCDEFGHIJKLMNOPQRSTUVWXYZ" || c in "abcdefghijklmnopqrstuvwxyz" || c in "0123456789" || c in "-_"
  {
    InRun(c, 'A', "ABCDEFGHIJKLMNOPQRSTUVWXYZ");
    InRun(c, 'a', "abcdefghijklmnopqrstuvwxyz");
    InRun(c, '0', "0123456789");
  }

  /** Consecutive characters from `first` on. */
  lemma InRun(c: char, first: char, run: string)
    requires forall i :: 0 <= i < |run| ==> run[i] as int == first as int + i
    ensures c in run <==> 0 <= c as int - first as int < |run|
  {
    if 0 <= c as int - first as int < |run| {
      assert run[c as int - first as int] == c;
    }
  }

  // ---- Which storage keys coincide

  lemma ColonComesLater(a: string, x: string, b: string, y: string)
    requires |a| < |b| && ':' !in b
    ensures !(a + ":" + x <= b + ":" + y) && !(b + ":" + y <= a + ":" + x)
  {
    var (s, t) := (a + ":" + x, b + ":" + y);
    assert s[|a|] == ':' && t[|a|] == b[|a|] && b[|a|] in b;
  }

  /** A part without a colon and the rest after one: there is only one way to cut. */
  lemma CutAtColon(a: string, x: string, b: string, y: string)
    requires ':' !in a && ':' !in b
    ensures a + ":" + x == b + ":" + y <==> a == b && x == y
    ensures a + ":" + x <= b + ":" + y <==> a == b && x <= y
  {
    var (s, t) := (a + ":" + x, b + ":" + y);
    if |a| < |b| {
      ColonComesLater(a, x, b, y);
    } else if |b| < |a| {
      ColonComesLater(b, y, a, x);
    } else {
      assert s[..|a|] == a && t[..|b|] == b && s[|a| + 1..] == x && t[|b| + 1..] == y;
    }
  }

  function Tail(id: Identity, rest: string): string {
    Components(id) + ":" + rest
  }

  lemma TailForms(id: Identity, rest: string)
    ensures id.instance.None? ==> Tail(id, rest) == id.plugin + ":" + rest
    ensures id.instance.Some? ==> Tail(id, rest) == id.plugin + ":" + (id.instance.value + ":" + rest)
  {
    if id.instance.Some? {
      assert (id.plugin + ":" + id.instance.value) + ":" + rest == id.plugin + ":" + (id.instance.value + ":" + rest);
    }
  }

  /** An identity without an instance reads like one with the instance `i` when `i` starts what follows. */
  lemma TailsCoincide(a: Identity, x: string, b: Identity, y: string)
    requires Clean(a) && Clean(b)
    ensures Tail(a, x) == Tail(b, y) <==>
            a.plugin == b.plugin &&
            (if a.instance.Some? == b.instance.Some? then a == b && x == y
             else if a.instance.None? then x == b.instance.value + ":" + y
             else y == a.instance.value + ":" + x)
    ensures Tail(a, x) <= Tail(b, y) <==>
            a.plugin == b.plugin &&
            (if a.instance.Some? == b.instance.Some? then a == b && x <= y
             else if a.instance.None? then x <= b.instance.value + ":" + y
             else a.instance.value + ":" + x <= y)
  {
    TailForms(a, x);
    TailForms(b, y);
    var p := if a.instance.None? then x else a.instance.value + ":" + x;
    var q := if b.instance.None? then y else b.instance.value + ":" + y;
    CutAtColon(a.plugin, p, b.plugin, q);
    if a.instance.Some? && b.instance.Some? {
      CutAtColon(a.instance.value, x, b.instance.value, y);
    }
  }

  /** Characters that look the same in a namespace. */
  predicate Alike(c: char, d: char) {
    c == d || ((c == '_' || !Safe(c)) && (d == '_' || !Safe(d)))
  }

  predicate LookAlike(a: string, b: string) {
    |a| == |b| && forall i :: 0 <= i < |a| ==> Alike(a[i], b[i])
  }

  lemma SanitizedAlike(a: string, b: string)
    ensures SanitizeComponent(a) == SanitizeComponent(b) <==> LookAlike(a, b)
  {
    hide SanitizeComponent;
    var s, t := SanitizeComponent(a), SanitizeComponent(b);
    if |a| == |b| {
      assert forall i :: 0 <= i < |a| ==> (s[i] == t[i] <==> Alike(a[i], b[i]));
      assert (forall i :: 0 <= i < |a| ==> s[i] == t[i]) <==> s == t;
    }
  }

  /** Two plugins get the same namespace exactly when the ids that go into it look alike. */
  lemma RendersAlike(policy: Policy, p: string, i: Option<string>, q: string, j: Option<string>)
    ensures Render(policy, p, i) == Render(policy, q, j) <==>
            LookAlike(p, q) &&
            (policy.includeInstanceId ==>
              (i.Some? <==> j.Some?) && (i.Some? && j.Some? ==> LookAlike(i.value, j.value)))
  {
    hide SanitizeComponent, LookAlike;
    var a, b := IdentityOf(policy, p, i), IdentityOf(policy, q, j);
    SanitizedAlike(p, q);
    if i.Some? && j.Some? {
      SanitizedAlike(i.value, j.value);
    }
    SameRoot(policy.rootPrefix + ":", Components(a), Components(b));
    assert Components(a) == Components(b) <==> a == b by {
      ComponentsCut(a, b);
    }
  }

  /** Two plugins that share a namespace. */
  lemma NamespacesCanMeet(policy: Policy)
    ensures "a.b" != "a_b" && Render(policy, "a.b", None) == Render(policy, "a_b", None)
  {
    var p, q := "a.b", "a_b";
    assert p[1] != q[1];
    RendersAlike(policy, p, None, q, None);
  }

  lemma ComponentsCut(a: Identity, b: Identity)
    requires Clean(a) && Clean(b)
    ensures Components(a) == Components(b) <==> a == b
  {
    TailsCoincide(a, "", b, "");
    assert Tail(a, "") == Components(a) + ":" && Tail(b, "") == Components(b) + ":";
    SameEnd(Components(a), Components(b), ":");
    if a.instance.None? && b.instance.Some? {
      assert |b.instance.value + ":" + ""| > 0;
    } else if a.instance.Some? && b.instance.None? {
      assert |a.instance.value + ":" + ""| > 0;
    }
  }

  lemma SameEnd(a: string, b: string, end: string)
    ensures a + end == b + end <==> a == b
  {
    if a + end == b + end {
      assert |a| == |b| && (a + end)[..|a|] == a && (b + end)[..|b|] == b;
    }
  }

  lemma StorageKeyTail(policy: Policy, id: Identity, segment: Segment, key: string)
    ensures StorageKey(Prefix(policy, id), segment, key) ==
            (policy.rootPrefix + ":") + Tail(id, segment.Name() + ":" + key)
    ensures SegmentPrefix(Prefix(policy, id), segment) ==
            (policy.rootPrefix + ":") + Tail(id, segment.Name() + ":")
  {
  }

  lemma SameRoot(root: string, x: string, y: string)
    ensures root + x == root + y <==> x == y
    ensures root + x <= root + y <==> x <= y
  {
    assert (root + x)[|root|..] == x && (root + y)[|root|..] == y;
  }

  lemma NamesDiffer(s: Segment, t: Segment)
    ensures s.Name() == t.Name() <==> s == t
    ensures ':' !in s.Name()
  {
    assert s.Name()[0] == if s.Data? then 'd' else 'l';
  }

  /** `a` has no instance, and `b`'s instance is named like the segment of `a`'s key. */
  predicate Shadows(a: Identity, s: Segment, k: string, b: Identity, t: Segment, l: string) {
    a.instance.None? && b.instance == Some(s.Name()) && a.plugin == b.plugin && k == t.Name() + ":" + l
  }

  /**
   Two keys of one policy are stored under the same name exactly when identity, segment and key are
   the same, or one identity has no instance and the other's instance is called `data` or `lock`.
   */
  lemma StorageKeysCoincide(policy: Policy, a: Identity, s: Segment, k: string, b: Identity, t: Segment, l: string)
    requires Clean(a) && Clean(b)
    ensures StorageKey(Prefix(policy, a), s, k) == StorageKey(Prefix(policy, b), t, l) <==>
            (a == b && s == t && k == l) || Shadows(a, s, k, b, t, l) || Shadows(b, t, l, a, s, k)
  {
    StorageKeyTail(policy, a, s, k);
    StorageKeyTail(policy, b, t, l);
    SameRoot(policy.rootPrefix + ":", Tail(a, s.Name() + ":" + k), Tail(b, t.Name() + ":" + l));
    TailsCoincide(a, s.Name() + ":" + k, b, t.Name() + ":" + l);
    NamesDiffer(s, t);
    NamesDiffer(t, s);
    if a.instance.Some? == b.instance.Some? {
      CutAtColon(s.Name(), k, t.Name(), l);
    } else if a.instance.None? {
      CutAtColon(s.Name(), k, b.instance.value, t.Name() + ":" + l);
    } else {
      CutAtColon(t.Name(), l, a.instance.value, s.Name() + ":" + k);
    }
  }

  /**
   Clearing the segment `s` of `a` reaches the key `l` in segment `t` of `b` exactly when it is its
   own, or it is shadowed in the way above.
   */
  lemma SegmentCovers(policy: Policy, a: Identity, s: Segment, b: Identity, t: Segment, l: string)
    requires Clean(a) && Clean(b)
    ensures StartsWith(StorageKey(Prefix(policy, b), t, l), SegmentPrefix(Prefix(policy, a), s)) <==>
            (a == b && s == t) ||
            (a.plugin == b.plugin && a.instance.None? && b.instance == Some(s.Name())) ||
            (a.plugin == b.plugin && a.instance == Some(t.Name()) && b.instance.None? && s.Name() + ":" <= l)
  {
    StorageKeyTail(policy, a, s, "");
    StorageKeyTail(policy, b, t, l);
    SameRoot(policy.rootPrefix + ":", Tail(a, s.Name() + ":"), Tail(b, t.Name() + ":" + l));
    TailsCoincide(a, s.Name() + ":", b, t.Name() + ":" + l);
    NamesDiffer(s, t);
    NamesDiffer(t, s);
    assert s.Name() + ":" + "" == s.Name() + ":";
    if a.instance.Some? == b.instance.Some? {
      CutAtColon(s.Name(), "", t.Name(), l);
    } else if a.instance.None? {
      CutAtColon(s.Name(), "", b.instance.value, t.Name() + ":" + l);
    } else {
      CutAtColon(a.instance.value, s.Name() + ":", t.Name(), l);
    }
  }

  /** The instance is named whenever the policy asks for it, so identities have the same shape. */
  lemma OneShapeNeverCoincides(policy: Policy, a: Identity, s: Segment, k: string, b: Identity, t: Segment, l: string)
    requires Clean(a) && Clean(b) && (a.instance.Some? <==> b.instance.Some?)
    ensures StorageKey(Prefix(policy, a), s, k) == StorageKey(Prefix(policy, b), t, l) ==>
              a == b && s == t && k == l
    ensures StartsWith(StorageKey(Prefix(policy, b), t, l), SegmentPrefix(Prefix(policy, a), s)) ==> a == b && s == t
  {
    StorageKeysCoincide(policy, a, s, k, b, t, l);
    SegmentCovers(policy, a, s, b, t, l);
  }
}
