/** The order of strings by their characters, and lists sorted by it. */
module StringOrder {
  /** Strictly before, comparing character by character; a prefix comes first. */
  predicate Before(a: string, b: string)
    decreases |a|
  {
    b != [] && (a == [] || a[0] < b[0] || (a[0] == b[0] && Before(a[1..], b[1..])))
  }

  predicate AtMost(a: string, b: string) {
    a == b || Before(a, b)
  }

  ghost predicate Ascending(xs: seq<string>) {
    forall i, j :: 0 <= i < j < |xs| ==> AtMost(xs[i], xs[j])
  }

  ghost predicate StrictlyAscending(xs: seq<string>) {
    forall i, j :: 0 <= i < j < |xs| ==> Before(xs[i], xs[j])
  }

  function Members(xs: seq<string>): set<string> {
    set x | x in xs
  }

  lemma {:induction false} Irreflexive(a: string)
    ensures !Before(a, a)
    decreases |a|
  {
    if a != [] {
      Irreflexive(a[1..]);
    }
  }

  /** `a` and `b` agree up to `i`, where `a` ends or has the smaller character. */
  predicate DiffersAt(a: string, b: string, i: nat) {
    i < |b| && i <= |a| && a[..i] == b[..i] && (i == |a| || a[i] < b[i])
  }

  /** The order of the first difference: a smaller character comes first, and so does a string that ends. */
  lemma {:induction false} FirstDifference(a: string, b: string)
    ensures Before(a, b) <==> exists i: nat :: DiffersAt(a, b, i)
    decreases |a|
  {
    if Before(a, b) {
      if a == [] || a[0] < b[0] {
        assert DiffersAt(a, b, 0);
      } else {
        FirstDifference(a[1..], b[1..]);
        var i: nat :| DiffersAt(a[1..], b[1..], i);
        LaterDifference(a, b, i);
      }
    } else if a != [] && b != [] && a[0] == b[0] {
      FirstDifference(a[1..], b[1..]);
      forall i: nat ensures !DiffersAt(a, b, i) {
        if DiffersAt(a, b, i) && i > 0 {
          LaterDifference(a, b, i - 1);
        }
      }
    } else {
      forall i: nat ensures !DiffersAt(a, b, i) {
        if 0 < i < |b| && i <= |a| {
          assert a[..i][0] == a[0] && b[..i][0] == b[0];
        }
      }
    }
  }

  lemma LaterDifference(a: string, b: string, i: nat)
    requires a != [] && b != [] && a[0] == b[0]
    ensures DiffersAt(a, b, i + 1) <==> DiffersAt(a[1..], b[1..], i)
  {
    if i + 1 <= |a| && i + 1 <= |b| {
      assert a[..i + 1] == [a[0]] + a[1..][..i] && b[..i + 1] == [b[0]] + b[1..][..i];
      assert a[..i + 1] == b[..i + 1] ==> a[..i + 1][1..] == b[..i + 1][1..];
    }
  }

  lemma {:induction false} Total(a: string, b: string)
    ensures a == b || Before(a, b) || Before(b, a)
    decreases |a|
  {
    if a != [] && b != [] && a[0] == b[0] {
      Total(a[1..], b[1..]);
      assert a == [a[0]] + a[1..] && b == [b[0]] + b[1..];
    }
  }

  lemma {:induction false} Transitive(a: string, b: string, c: string)
    requires Before(a, b) && Before(b, c)
    ensures Before(a, c)
    decreases |a|
  {
    if a != [] && a[0] == b[0] && b[0] == c[0] {
      Transitive(a[1..], b[1..], c[1..]);
    }
  }

  lemma Asymmetric(a: string, b: string)
    requires Before(a, b)
    ensures !Before(b, a) && a != b
  {
    Irreflexive(a);
    if Before(b, a) {
      Transitive(a, b, a);
    }
  }

  // ---- Sorting a list

  function Insert(x: string, xs: seq<string>): seq<string> {
    if xs == [] then [x]
    else if AtMost(x, xs[0]) then [x] + xs
    else [xs[0]] + Insert(x, xs[1..])
  }

  function Sort(xs: seq<string>): seq<string> {
    if xs == [] then [] else Insert(xs[0], Sort(xs[1..]))
  }

  lemma {:induction false} InsertSorts(x: string, xs: seq<string>)
    requires Ascending(xs)
    ensures Ascending(Insert(x, xs))
    ensures multiset(Insert(x, xs)) == multiset(xs) + multiset{x}
  {
    var r := Insert(x, xs);
    if xs == [] {
    } else if AtMost(x, xs[0]) {
      forall j | 0 <= j < |xs| ensures AtMost(x, xs[j]) {
        if j > 0 && Before(x, xs[0]) && Before(xs[0], xs[j]) {
          Transitive(x, xs[0], xs[j]);
        }
      }
      assert r[1..] == xs;
    } else {
      var rest := Insert(x, xs[1..]);
      InsertSorts(x, xs[1..]);
      Total(x, xs[0]);
      assert xs == [xs[0]] + xs[1..];
      forall j | 0 <= j < |rest| ensures AtMost(xs[0], rest[j]) {
        assert rest[j] in multiset(rest);
        if rest[j] != x {
          assert rest[j] in multiset(xs[1..]);
          var i :| 0 <= i < |xs[1..]| && xs[1..][i] == rest[j];
          assert xs[i + 1] == rest[j];
        }
      }
    }
  }

  /** Sorting keeps the elements, repetitions included, and puts them in order. */
  lemma {:induction false} SortSorts(xs: seq<string>)
    ensures Ascending(Sort(xs)) && multiset(Sort(xs)) == multiset(xs) && |Sort(xs)| == |xs|
  {
    hide Before, Insert;
    if xs != [] {
      SortSorts(xs[1..]);
      InsertSorts(xs[0], Sort(xs[1..]));
      assert xs == [xs[0]] + xs[1..];
    }
    assert |Sort(xs)| == |multiset(Sort(xs))|;
  }

  // ---- The sorted list of a set

  ghost predicate IsFirst(x: string, s: set<string>) {
    x in s && forall y :: y in s ==> AtMost(x, y)
  }

  lemma {:induction false} FirstExists(s: set<string>)
    requires s != {}
    ensures exists x :: IsFirst(x, s)
  {
    var x :| x in s;
    if s == {x} {
      assert IsFirst(x, s);
    } else {
      FirstExists(s - {x});
      var y :| IsFirst(y, s - {x});
      Total(x, y);
      var first := if Before(x, y) then x else y;
      forall z | z in s ensures AtMost(first, z) {
        if z != x {
          assert z in s - {x};
          if Before(x, y) && Before(y, z) {
            Transitive(x, y, z);
          }
        }
      }
      assert IsFirst(first, s);
    }
  }

  lemma FirstIsUnique(x: string, y: string, s: set<string>)
    requires IsFirst(x, s) && IsFirst(y, s)
    ensures x == y
  {
    if x != y {
      Asymmetric(x, y);
    }
  }

  /** The members of the set in ascending order. */
  ghost function Listed(s: set<string>): (xs: seq<string>)
    ensures StrictlyAscending(xs) && Members(xs) == s && |xs| == |s|
  {
    if s == {} then []
    else
      FirstExists(s);
      var x :| IsFirst(x, s);
      var rest := Listed(s - {x});
      PutFirst(x, rest, s);
      [x] + rest
  }

  lemma PutFirst(x: string, rest: seq<string>, s: set<string>)
    requires IsFirst(x, s) && StrictlyAscending(rest) && Members(rest) == s - {x}
    ensures StrictlyAscending([x] + rest) && Members([x] + rest) == s
  {
    hide Before;
    forall j | 0 <= j < |rest| ensures Before(x, rest[j]) {
      assert rest[j] in Members(rest);
      assert rest[j] in s;
    }
    assert Members([x] + rest) == {x} + Members(rest) by {
      assert forall y :: y in [x] + rest <==> y == x || y in rest;
    }
  }

  lemma {:induction false} StrictIsDistinct(xs: seq<string>)
    requires StrictlyAscending(xs)
    ensures forall i, j :: 0 <= i < j < |xs| ==> xs[i] != xs[j]
  {
    forall i, j | 0 <= i < j < |xs| ensures xs[i] != xs[j] {
      Irreflexive(xs[i]);
    }
  }

  /** There is only one ascending list of the members of a set. */
  lemma {:induction false} ListedIsUnique(xs: seq<string>, ys: seq<string>)
    requires StrictlyAscending(xs) && StrictlyAscending(ys) && Members(xs) == Members(ys)
    ensures xs == ys
  {
    SomeMember(xs);
    SomeMember(ys);
    if xs != [] {
      assert IsFirst(xs[0], Members(xs)) && IsFirst(ys[0], Members(ys));
      FirstIsUnique(xs[0], ys[0], Members(xs));
      StrictIsDistinct(xs);
      StrictIsDistinct(ys);
      TailMembers(xs);
      TailMembers(ys);
      ListedIsUnique(xs[1..], ys[1..]);
      assert xs == [xs[0]] + xs[1..] && ys == [ys[0]] + ys[1..];
    }
  }

  lemma SomeMember(xs: seq<string>)
    ensures xs == [] <==> Members(xs) == {}
  {
    if xs != [] {
      assert xs[0] in Members(xs);
    }
  }

  lemma TailMembers(xs: seq<string>)
    requires xs != [] && forall i, j :: 0 <= i < j < |xs| ==> xs[i] != xs[j]
    ensures Members(xs[1..]) == Members(xs) - {xs[0]}
  {
    assert xs == [xs[0]] + xs[1..];
    forall i | 0 <= i < |xs[1..]| ensures xs[1..][i] != xs[0] {
      assert xs[1..][i] == xs[i + 1];
    }
  }

  lemma {:induction false} MembersFit(xs: seq<string>)
    ensures |Members(xs)| <= |xs|
  {
    if xs != [] {
      MembersFit(xs[1..]);
      assert Members(xs) == Members(xs[1..]) + {xs[0]} by {
        assert xs == [xs[0]] + xs[1..];
      }
    }
  }

  lemma RepetitionsCount(xs: seq<string>, i: nat, j: nat)
    requires i < j < |xs| && xs[i] == xs[j]
    ensures |Members(xs)| < |xs|
  {
    var (front, back) := (xs[..i], xs[i + 1..]);
    assert xs == front + [xs[i]] + back && back[j - i - 1] == xs[j];
    assert Members(xs) == Members(front + back);
    MembersFit(front + back);
  }

  /** A sorted list that is no longer than its set of members is the list of that set. */
  lemma NoRepetitions(xs: seq<string>)
    requires Ascending(xs) && |Members(xs)| == |xs|
    ensures xs == Listed(Members(xs))
  {
    hide Members, Before;
    forall i, j | 0 <= i < j < |xs| ensures Before(xs[i], xs[j]) {
      if xs[i] == xs[j] {
        RepetitionsCount(xs, i, j);
      }
    }
    ListedIsUnique(xs, Listed(Members(xs)));
  }

  /** Builds the ascending list of a set's members, taking them in any order. */
  method ListSet(s: set<string>) returns (xs: seq<string>)
    ensures xs == Listed(s)
  {
    hide Before, Insert;
    xs := [];
    var rest := s;
    while rest != {}
      invariant rest <= s && Ascending(xs)
      invariant multiset(xs) == multiset(s - rest) && |xs| == |s - rest|
      decreases |rest|
    {
      var x :| x in rest;
      InsertSorts(x, xs);
      xs := Insert(x, xs);
      assert s - (rest - {x}) == (s - rest) + {x};
      rest := rest - {x};
      assert |xs| == |multiset(xs)|;
    }
    assert Members(xs) == s by {
      forall x ensures x in xs <==> x in s {
        assert x in xs <==> x in multiset(xs);
        assert x in s <==> x in multiset(s - rest);
      }
    }
    NoRepetitions(xs);
  }
}
