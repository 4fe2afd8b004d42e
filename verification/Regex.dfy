/** Regular expressions and the words they match in full, as under `^` and `$`. The expressions of the
    server name and user id checks are written in this form, class by class and repetition by repetition. */
module Regex {

  datatype Regex =
    | Class(chars: set<char>)
    | Then(first: Regex, second: Regex)
    | Either(left: Regex, right: Regex)
    | Repeat(body: Regex, lo: nat, hi: nat)
    | Star(body: Regex)

  function Concat(parts: seq<string>): string {
    if parts == [] then "" else parts[0] + Concat(parts[1..])
  }

  ghost predicate Matches(r: Regex, s: string) {
    match r
    case Class(cs) => |s| == 1 && s[0] in cs
    case Then(a, b) => exists i :: 0 <= i <= |s| && Matches(a, s[..i]) && Matches(b, s[i..])
    case Either(a, b) => Matches(a, s) || Matches(b, s)
    case Repeat(a, lo, hi) =>
      exists parts :: lo <= |parts| <= hi && (forall p :: p in parts ==> Matches(a, p)) && Concat(parts) == s
    case Star(a) => exists parts :: (forall p :: p in parts ==> Matches(a, p)) && Concat(parts) == s
  }

  function Lit(c: char): Regex { Class({c}) }

  function Optional(r: Regex): Regex { Repeat(r, 0, 1) }

  lemma Joined(a: Regex, b: Regex, u: string, v: string)
    requires Matches(a, u) && Matches(b, v)
    ensures Matches(Then(a, b), u + v)
  {
    assert (u + v)[..|u|] == u && (u + v)[|u|..] == v;
  }

  lemma Split(a: Regex, b: Regex, s: string) returns (i: nat)
    requires Matches(Then(a, b), s)
    ensures i <= |s| && Matches(a, s[..i]) && Matches(b, s[i..]) && s == s[..i] + s[i..]
  {
    var j :| 0 <= j <= |s| && Matches(a, s[..j]) && Matches(b, s[j..]);
    return j;
  }

  lemma Choice(a: Regex, b: Regex, s: string)
    ensures Matches(Either(a, b), s) <==> Matches(a, s) || Matches(b, s)
  {
  }

  /** The alternatives of a list. */
  function Any(rs: seq<Regex>): Regex
    requires rs != []
  {
    if |rs| == 1 then rs[0] else Either(rs[0], Any(rs[1..]))
  }

  lemma {:induction false} AnyMatches(rs: seq<Regex>, s: string)
    requires rs != []
    ensures Matches(Any(rs), s) <==> exists i :: 0 <= i < |rs| && Matches(rs[i], s)
  {
    hide Matches;
    if |rs| > 1 {
      AnyMatches(rs[1..], s);
      Choice(rs[0], Any(rs[1..]), s);
      if i :| 0 <= i < |rs| && Matches(rs[i], s) {
        assert i > 0 ==> Matches(rs[1..][i - 1], s);
      }
    }
  }

  lemma FromWord(r: Regex, lo: nat, s: string)
    requires lo <= 1 && Matches(r, s)
    ensures Matches(Repeat(r, lo, 1), s)
  {
    var parts := [s];
    assert Concat(parts[1..]) == "";
    assert Concat(parts) == s;
  }

  lemma ToWord(r: Regex, lo: nat, s: string)
    requires Matches(Repeat(r, lo, 1), s)
    ensures (lo == 0 && s == "") || Matches(r, s)
  {
    var parts :| lo <= |parts| <= 1 && (forall p :: p in parts ==> Matches(r, p)) && Concat(parts) == s;
    if parts != [] {
      assert Concat(parts[1..]) == "";
      assert parts[0] == s && parts[0] in parts;
    }
  }

  lemma OptionalMatches(r: Regex, s: string)
    ensures Matches(Optional(r), s) <==> s == "" || Matches(r, s)
  {
    assert Concat([]) == "";
    assert Matches(Optional(r), "");
    hide Matches;
    if Matches(Optional(r), s) {
      ToWord(r, 0, s);
    }
    if Matches(r, s) {
      FromWord(r, 0, s);
    }
  }

  lemma OnceMatches(r: Regex, s: string)
    ensures Matches(Repeat(r, 1, 1), s) <==> Matches(r, s)
  {
    hide Matches;
    if Matches(Repeat(r, 1, 1), s) {
      ToWord(r, 1, s);
    }
    if Matches(r, s) {
      FromWord(r, 1, s);
    }
  }

  lemma OneOf(cs: set<char>, s: string)
    ensures Matches(Class(cs), s) <==> |s| == 1 && s[0] in cs
  {
  }

  lemma Single(cs: set<char>, c: char)
    requires c in cs
    ensures Matches(Class(cs), [c])
  {
  }

  lemma {:induction false} ConcatSplit(a: seq<string>, b: seq<string>)
    ensures Concat(a + b) == Concat(a) + Concat(b)
  {
    if a == [] {
      assert a + b == b;
    } else {
      assert (a + b)[1..] == a[1..] + b;
      ConcatSplit(a[1..], b);
    }
  }

  // ---------------------------------------------------------------------------
  // Repeated characters
  // ---------------------------------------------------------------------------

  predicate All(cs: set<char>, s: string) {
    forall i :: 0 <= i < |s| ==> s[i] in cs
  }

  lemma {:induction false} ConcatOfSingles(cs: set<char>, parts: seq<string>)
    requires forall p :: p in parts ==> Matches(Class(cs), p)
    ensures |Concat(parts)| == |parts| && All(cs, Concat(parts))
  {
    if parts != [] {
      assert parts[0] in parts;
      ConcatOfSingles(cs, parts[1..]);
    }
  }

  function Singles(s: string): seq<string> {
    seq(|s|, i requires 0 <= i < |s| => [s[i]])
  }

  lemma {:induction false} SinglesConcat(s: string)
    ensures Concat(Singles(s)) == s
  {
    if s != "" {
      assert Singles(s)[1..] == Singles(s[1..]);
      SinglesConcat(s[1..]);
    }
  }

  lemma RepeatClass(cs: set<char>, lo: nat, hi: nat, s: string)
    ensures Matches(Repeat(Class(cs), lo, hi), s) <==> lo <= |s| <= hi && All(cs, s)
  {
    if Matches(Repeat(Class(cs), lo, hi), s) {
      var parts :| lo <= |parts| <= hi && (forall p :: p in parts ==> Matches(Class(cs), p)) && Concat(parts) == s;
      ConcatOfSingles(cs, parts);
    }
    if lo <= |s| <= hi && All(cs, s) {
      SinglesConcat(s);
      assert forall p :: p in Singles(s) ==> Matches(Class(cs), p);
    }
  }

  lemma StarClass(cs: set<char>, s: string)
    ensures Matches(Star(Class(cs)), s) <==> All(cs, s)
  {
    if Matches(Star(Class(cs)), s) {
      var parts :| (forall p :: p in parts ==> Matches(Class(cs), p)) && Concat(parts) == s;
      ConcatOfSingles(cs, parts);
    }
    if All(cs, s) {
      SinglesConcat(s);
      assert forall p :: p in Singles(s) ==> Matches(Class(cs), p);
    }
  }

  /** A fixed number of character classes in a row. */
  function Line(cs: seq<set<char>>): Regex
    requires cs != []
  {
    if |cs| == 1 then Class(cs[0]) else Then(Class(cs[0]), Line(cs[1..]))
  }

  lemma {:induction false} LineMatches(cs: seq<set<char>>, s: string)
    requires cs != []
    ensures Matches(Line(cs), s) <==> |s| == |cs| && forall i :: 0 <= i < |s| ==> s[i] in cs[i]
  {
    if |cs| > 1 {
      if |s| > 0 {
        LineMatches(cs[1..], s[1..]);
      }
      if Matches(Line(cs), s) {
        var i :| 0 <= i <= |s| && Matches(Class(cs[0]), s[..i]) && Matches(Line(cs[1..]), s[i..]);
        assert i == 1;
        assert s[0] == s[..1][0] && forall j :: 1 <= j < |s| ==> s[j] == s[1..][j - 1];
      }
      if |s| == |cs| && forall i :: 0 <= i < |s| ==> s[i] in cs[i] {
        assert Matches(Class(cs[0]), s[..1]);
        assert Matches(Line(cs[1..]), s[1..]);
      }
    }
  }
}
