/**
 Glob patterns of `listKeys` in packages/plugin-runtime/src/kv.ts: a pattern is turned into the
 source text of a regular expression, and that text means what the pattern says.
 */
module Globs {

  /** The characters the replacement puts a backslash in front of. */
  predicate IsSpecial(c: char) {
    c in ".+?^${}()|[]\\"
  }

  /** The body of the regular expression, between `^` and `$`. */
  function Escape(pattern: string): string {
    if pattern == "" then ""
    else (if IsSpecial(pattern[0]) then ['\\', pattern[0]] else [pattern[0]]) + Escape(pattern[1..])
  }

  function ReplaceStars(s: string): string {
    if s == "" then "" else (if s[0] == '*' then ".*" else [s[0]]) + ReplaceStars(s[1..])
  }

  function GlobToRegExp(pattern: string): string {
    ReplaceStars(Escape(pattern))
  }

  // ---- Regular expressions, as far as such text needs them

  datatype Atom = Any | Literal(c: char)

  datatype Term = One(atom: Atom) | Star(atom: Atom)

  /** A dot does not match the end of a line. */
  predicate EndsLine(c: char) {
    c == '\n' || c == '\r' || c == '\U{2028}' || c == '\U{2029}'
  }

  predicate Matches(a: Atom, c: char) {
    match a
    case Any => !EndsLine(c)
    case Literal(d) => c == d
  }

  /** Reads an escaped character, a dot or a plain character, and a star after it. */
  function ParseRegExp(s: string): seq<Term>
    decreases |s|
  {
    if s == "" then []
    else
      var (atom, rest) :=
        if s[0] == '\\' && |s| > 1 then (Literal(s[1]), s[2..])
        else if s[0] == '.' then (Any, s[1..])
        else (Literal(s[0]), s[1..]);
      if rest != "" && rest[0] == '*' then [Star(atom)] + ParseRegExp(rest[1..])
      else [One(atom)] + ParseRegExp(rest)
  }

  /** The whole of `s` matches. */
  predicate Test(terms: seq<Term>, s: string)
    decreases |terms| + |s|
  {
    if terms == [] then s == ""
    else
      match terms[0]
      case One(a) => s != "" && Matches(a, s[0]) && Test(terms[1..], s[1..])
      case Star(a) => Test(terms[1..], s) || (s != "" && Matches(a, s[0]) && Test(terms, s[1..]))
  }

  // ---- What a glob pattern says

  /** Characters stand for themselves, and a star for any run of characters without a line end. */
  predicate Glob(pattern: string, s: string)
    decreases |pattern| + |s|
  {
    if pattern == "" then s == ""
    else if pattern[0] == '*' then
      Glob(pattern[1..], s) || (s != "" && !EndsLine(s[0]) && Glob(pattern, s[1..]))
    else s != "" && s[0] == pattern[0] && Glob(pattern[1..], s[1..])
  }

  /** The terms a pattern should become. */
  function TermsOf(pattern: string): seq<Term> {
    if pattern == "" then []
    else [if pattern[0] == '*' then Star(Any) else One(Literal(pattern[0]))] + TermsOf(pattern[1..])
  }

  lemma {:induction false} ReplaceConcat(a: string, b: string)
    ensures ReplaceStars(a + b) == ReplaceStars(a) + ReplaceStars(b)
  {
    if a == "" {
      assert a + b == b;
    } else {
      assert (a + b)[1..] == a[1..] + b;
      ReplaceConcat(a[1..], b);
    }
  }

  /** What the text of one character of the pattern is, followed by the text of the others. */
  lemma RegExpStep(pattern: string)
    requires pattern != ""
    ensures GlobToRegExp(pattern) ==
            (if pattern[0] == '*' then ".*"
             else if IsSpecial(pattern[0]) then ['\\', pattern[0]] else [pattern[0]]) + GlobToRegExp(pattern[1..])
  {
    var c := pattern[0];
    var first := if IsSpecial(c) then ['\\', c] else [c];
    ReplaceConcat(first, Escape(pattern[1..]));
    assert IsSpecial('\\') && !IsSpecial('*');
    if IsSpecial(c) {
      assert first[1..] == [c] && [c][1..] == "";
      assert ReplaceStars([c]) == [c] && ReplaceStars(first) == first;
    } else {
      assert [c][1..] == "";
      assert ReplaceStars([c]) == if c == '*' then ".*" else [c];
    }
  }

  /** No text of a pattern starts with a star, so no star attaches to the term before it. */
  lemma NoLeadingStar(pattern: string)
    ensures GlobToRegExp(pattern) != "" ==> GlobToRegExp(pattern)[0] != '*'
  {
    if pattern != "" {
      RegExpStep(pattern);
    }
  }

  lemma {:induction false} ParsesToTerms(pattern: string)
    ensures ParseRegExp(GlobToRegExp(pattern)) == TermsOf(pattern)
  {
    if pattern != "" {
      var rest := GlobToRegExp(pattern[1..]);
      var s := GlobToRegExp(pattern);
      RegExpStep(pattern);
      NoLeadingStar(pattern[1..]);
      ParsesToTerms(pattern[1..]);
      if pattern[0] == '*' {
        assert s[1..] == "*" + rest && s[1..][1..] == rest;
      } else if IsSpecial(pattern[0]) {
        assert s[2..] == rest;
      } else {
        assert s[1..] == rest;
      }
    }
  }

  lemma {:induction false} TermsMeanGlob(pattern: string, s: string)
    ensures Test(TermsOf(pattern), s) <==> Glob(pattern, s)
    decreases |pattern| + |s|
  {
    if pattern != "" {
      assert TermsOf(pattern)[1..] == TermsOf(pattern[1..]);
      TermsMeanGlob(pattern[1..], s);
      if s != "" {
        TermsMeanGlob(pattern[1..], s[1..]);
        TermsMeanGlob(pattern, s[1..]);
      }
    }
  }

  /** The regular expression built from a pattern accepts exactly the strings the pattern describes. */
  lemma RegExpMeansGlob(pattern: string, s: string)
    ensures Test(ParseRegExp(GlobToRegExp(pattern)), s) <==> Glob(pattern, s)
  {
    ParsesToTerms(pattern);
    TermsMeanGlob(pattern, s);
  }

  /** The default pattern accepts every string without line ends. */
  lemma {:induction false} StarMatchesLines(s: string)
    ensures Glob("*", s) <==> forall c <- s :: !EndsLine(c)
  {
    assert "*"[1..] == "";
    if s != "" {
      StarMatchesLines(s[1..]);
      assert s == [s[0]] + s[1..];
    }
  }

  // ---- What a pattern means, by its parts

  /** One character that is no star stands for itself. */
  lemma CharacterMeansItself(c: char, s: string)
    requires c != '*'
    ensures Glob([c], s) <==> s == [c]
  {
    assert [c][1..] == "";
    if s != "" {
      assert s == [s[0]] + s[1..];
    }
  }

  /** A star stands for any run of characters that are no line ends. */
  lemma StarMeansAnyRun(s: string)
    ensures Glob("*", s) <==> '\n' !in s && '\r' !in s && '\U{2028}' !in s && '\U{2029}' !in s
  {
    StarMatchesLines(s);
  }

  /** And the parts of a pattern match the parts of a string, one after the other. */
  lemma {:induction false} PartsMatchParts(p: string, q: string, s: string)
    ensures Glob(p + q, s) <==> exists i :: 0 <= i <= |s| && Glob(p, s[..i]) && Glob(q, s[i..])
    decreases |p| + |s|
  {
    if p == "" {
      assert p + q == q && s[0..] == s;
      assert forall i :: 0 <= i <= |s| && Glob("", s[..i]) ==> i == 0;
      assert Glob("", s[..0]);
    } else {
      assert (p + q)[0] == p[0] && (p + q)[1..] == p[1..] + q;
      PartsMatchParts(p[1..], q, s);
      if s != "" {
        PartsMatchParts(p[1..], q, s[1..]);
        if p[0] == '*' {
          PartsMatchParts(p, q, s[1..]);
        }
      }
      if Glob(p + q, s) {
        SplitOne(p, q, s);
      } else {
        forall i | 0 <= i <= |s| ensures !(Glob(p, s[..i]) && Glob(q, s[i..])) {
          NoSplit(p, q, s, i);
        }
      }
    }
  }

  lemma SplitOne(p: string, q: string, s: string)
    requires p != "" && Glob(p + q, s)
    requires Glob(p[1..] + q, s) ==> exists i :: 0 <= i <= |s| && Glob(p[1..], s[..i]) && Glob(q, s[i..])
    requires s != "" && Glob(p[1..] + q, s[1..]) ==>
               exists i :: 0 <= i <= |s[1..]| && Glob(p[1..], s[1..][..i]) && Glob(q, s[1..][i..])
    requires s != "" && p[0] == '*' && Glob(p + q, s[1..]) ==>
               exists i :: 0 <= i <= |s[1..]| && Glob(p, s[1..][..i]) && Glob(q, s[1..][i..])
    ensures exists i :: 0 <= i <= |s| && Glob(p, s[..i]) && Glob(q, s[i..])
  {
    assert (p + q)[0] == p[0] && (p + q)[1..] == p[1..] + q;
    if p[0] == '*' && Glob(p[1..] + q, s) {
      var i :| 0 <= i <= |s| && Glob(p[1..], s[..i]) && Glob(q, s[i..]);
      assert Glob(p, s[..i]);
    } else {
      var rest := if p[0] == '*' then p else p[1..];
      var i :| 0 <= i <= |s[1..]| && Glob(rest, s[1..][..i]) && Glob(q, s[1..][i..]);
      assert s[..i + 1][0] == s[0] && s[..i + 1][1..] == s[1..][..i] && s[i + 1..] == s[1..][i..];
      assert Glob(p, s[..i + 1]);
    }
  }

  lemma NoSplit(p: string, q: string, s: string, i: nat)
    requires p != "" && !Glob(p + q, s) && i <= |s|
    requires (exists j :: 0 <= j <= |s| && Glob(p[1..], s[..j]) && Glob(q, s[j..])) ==> Glob(p[1..] + q, s)
    requires s != "" && (exists j :: 0 <= j <= |s[1..]| && Glob(p[1..], s[1..][..j]) && Glob(q, s[1..][j..])) ==>
               Glob(p[1..] + q, s[1..])
    requires s != "" && p[0] == '*' && (exists j :: 0 <= j <= |s[1..]| && Glob(p, s[1..][..j]) && Glob(q, s[1..][j..])) ==>
               Glob(p + q, s[1..])
    ensures !(Glob(p, s[..i]) && Glob(q, s[i..]))
  {
    assert (p + q)[0] == p[0] && (p + q)[1..] == p[1..] + q;
    if i > 0 {
      assert s[..i][0] == s[0] && s[..i][1..] == s[1..][..i - 1] && s[i..] == s[1..][i - 1..];
    }
  }

  /** The text for one character of a pattern. */
  lemma TextOfOne(c: char)
    ensures GlobToRegExp([c]) == if c == '*' then ".*" else if c in ".+?^${}()|[]\\" then ['\\', c] else [c]
  {
    assert [c][1..] == "";
    RegExpStep([c]);
  }
}
