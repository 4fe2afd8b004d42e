/** The bracketed IPv6 expression against the text forms of section 2.2 of RFC 4291: eight groups, fewer
    groups around a gap, and an IPv4 address behind a prefix. */
module Ipv6 {
  import opened Decimals
  import opened Regex
  import opened HostNames

  const GROUP := Repeat(Class(HEX), 1, 4)
  const GROUP_COLON := Suffixed(GROUP, ':')
  const COLON_GROUP := Prefixed(GROUP, ':')
  const COLON := Lit(':')

  const FULL := Then(Repeat(GROUP_COLON, 7, 7), GROUP)
  const TAIL_0 := Then(Repeat(GROUP_COLON, 1, 7), COLON)
  const TAIL_1 := Then(Repeat(GROUP_COLON, 1, 6), COLON_GROUP)
  const TAIL_2 := Then(Repeat(GROUP_COLON, 1, 5), Repeat(COLON_GROUP, 1, 2))
  const TAIL_3 := Then(Repeat(GROUP_COLON, 1, 4), Repeat(COLON_GROUP, 1, 3))
  const TAIL_4 := Then(Repeat(GROUP_COLON, 1, 3), Repeat(COLON_GROUP, 1, 4))
  const TAIL_5 := Then(Repeat(GROUP_COLON, 1, 2), Repeat(COLON_GROUP, 1, 5))
  const TAIL_6 := Then(GROUP_COLON, Repeat(COLON_GROUP, 1, 6))
  const TAIL_7 := Then(COLON, Either(Repeat(COLON_GROUP, 1, 7), COLON))

  const HIGH_OCTET := Line([{'2'}, {'5'}, Range('0', '5')])
  const TENS := Either(Line([{'2'}, Range('0', '4')]), Then(Optional(Lit('1')), Class(DIGIT)))
  const MAPPED_OCTET := Either(HIGH_OCTET, Then(Optional(TENS), Class(DIGIT)))
  const FFFF := Line([{'f'}, {'f'}, {'f'}, {'f'}])
  const ZEROS := Then(COLON, Repeat(Lit('0'), 1, 4))
  const MAPPED_PREFIX := Then(FFFF, Then(Optional(ZEROS), COLON))
  const MAPPED_QUAD := Then(Repeat(Suffixed(MAPPED_OCTET, '.'), 3, 3), MAPPED_OCTET)
  const MAPPED_REST := Then(Optional(MAPPED_PREFIX), MAPPED_QUAD)
  const MAPPED := Then(COLON, Then(COLON, MAPPED_REST))

  const INSIDE := [FULL, TAIL_0, TAIL_1, TAIL_2, TAIL_3, TAIL_4, TAIL_5, TAIL_6, TAIL_7, MAPPED]
  const IPV6 := Then(Lit('['), Then(Any(INSIDE), Lit(']')))

  // ---------------------------------------------------------------------------
  // The text forms
  // ---------------------------------------------------------------------------

  /** One to four hexadecimal digits. */
  predicate Group(g: string) {
    1 <= |g| <= 4 && forall i :: 0 <= i < |g| ==> IsHex(g[i])
  }

  predicate Groups(gs: seq<string>) {
    forall g :: g in gs ==> Group(g)
  }

  /** Eight groups. */
  ghost predicate FullForm(t: string) {
    exists gs :: |gs| == 8 && Groups(gs) && t == Join(gs, ':')
  }

  /** A single `::` standing for at least one group of zeros. */
  ghost predicate CompressedForm(t: string) {
    exists ls, rs :: |ls| + |rs| <= 7 && Groups(ls) && Groups(rs) && t == Join(ls, ':') + "::" + Join(rs, ':')
  }

  predicate MappedOctet(g: string) {
    Octet(g) && (|g| == 3 ==> g[0] != '0')
  }

  predicate MappedStart(p: string) {
    p == "" || (|p| >= 5 && p[..4] == "ffff" && p[|p| - 1] == ':'
                && (|p| == 5 || (7 <= |p| <= 10 && p[4] == ':' && All({'0'}, p[5..|p| - 1]))))
  }

  /** An IPv4 address behind `::`, `::ffff:` or `::ffff:0:`. */
  ghost predicate MappedForm(t: string) {
    exists p, gs :: MappedStart(p) && |gs| == 4 && (forall g :: g in gs ==> MappedOctet(g)) &&
                    t == "::" + p + Join(gs, '.')
  }

  lemma GroupsMatch(gs: seq<string>)
    ensures AllMatch(GROUP, gs) <==> Groups(gs)
  {
    hide Matches;
    forall g: string ensures Matches(GROUP, g) <==> Group(g) {
      RepeatClass(HEX, 1, 4, g);
    }
  }

  lemma FullMatches(t: string)
    ensures Matches(FULL, t) <==> FullForm(t)
  {
    hide Matches, Join, Left, Groups;
    var a := Repeat(GROUP_COLON, 7, 7);
    if Matches(FULL, t) {
      var i := Split(a, GROUP, t);
      RepeatSuffixed(GROUP, ':', 7, 7, t[..i]);
      var gs :| 7 <= |gs| <= 7 && AllMatch(GROUP, gs) && t[..i] == Left(gs, ':');
      LeftThenLast(gs, t[i..], ':');
      assert AllMatch(GROUP, gs + [t[i..]]);
      GroupsMatch(gs + [t[i..]]);
    }
    if gs :| |gs| == 8 && Groups(gs) && t == Join(gs, ':') {
      GroupsMatch(gs);
      assert AllMatch(GROUP, gs[..7]);
      RepeatSuffixed(GROUP, ':', 7, 7, Left(gs[..7], ':'));
      LeftThenLast(gs[..7], gs[7], ':');
      assert gs == gs[..7] + [gs[7]];
      Joined(a, GROUP, Left(gs[..7], ':'), gs[7]);
    }
  }

  /** Between `ll` and `lh` groups before the gap and between `rl` and `rh` after it. */
  ghost predicate Gap(ll: nat, lh: nat, rl: nat, rh: nat, t: string) {
    exists ls, rs :: ll <= |ls| <= lh && rl <= |rs| <= rh && Groups(ls) && Groups(rs) &&
                     t == Join(ls, ':') + "::" + Join(rs, ':')
  }

  lemma GapOf(ls: seq<string>, rs: seq<string>)
    ensures ls != [] && rs != [] ==> Left(ls, ':') + Right(rs, ':') == Join(ls, ':') + "::" + Join(rs, ':')
    ensures ls != [] ==> Left(ls, ':') + ":" == Join(ls, ':') + "::" + Join([], ':')
    ensures rs != [] ==> ":" + Right(rs, ':') == Join([], ':') + "::" + Join(rs, ':')
  {
    if ls != [] {
      LeftIsJoin(ls, ':');
    }
    if rs != [] {
      RightIsJoin(rs, ':');
    }
  }

  lemma GapMatches(m: nat, n: nat, t: string)
    ensures Matches(Then(Repeat(GROUP_COLON, 1, m), Repeat(COLON_GROUP, 1, n)), t) <==> Gap(1, m, 1, n, t)
  {
    hide Matches, Join, Left, Right, Groups, AllMatch;
    var a, b := Repeat(GROUP_COLON, 1, m), Repeat(COLON_GROUP, 1, n);
    if Matches(Then(a, b), t) {
      var i := Split(a, b, t);
      RepeatSuffixed(GROUP, ':', 1, m, t[..i]);
      RepeatPrefixed(GROUP, ':', 1, n, t[i..]);
      var ls :| 1 <= |ls| <= m && AllMatch(GROUP, ls) && t[..i] == Left(ls, ':');
      var rs :| 1 <= |rs| <= n && AllMatch(GROUP, rs) && t[i..] == Right(rs, ':');
      GroupsMatch(ls);
      GroupsMatch(rs);
      GapOf(ls, rs);
    }
    if ls, rs :| 1 <= |ls| <= m && 1 <= |rs| <= n && Groups(ls) && Groups(rs) &&
                 t == Join(ls, ':') + "::" + Join(rs, ':') {
      GroupsMatch(ls);
      GroupsMatch(rs);
      GapOf(ls, rs);
      RepeatSuffixed(GROUP, ':', 1, m, Left(ls, ':'));
      RepeatPrefixed(GROUP, ':', 1, n, Right(rs, ':'));
      Joined(a, b, Left(ls, ':'), Right(rs, ':'));
    }
  }

  lemma ThenSame(a: Regex, a': Regex, b: Regex, b': Regex, t: string)
    requires forall s :: Matches(a, s) <==> Matches(a', s)
    requires forall s :: Matches(b, s) <==> Matches(b', s)
    ensures Matches(Then(a, b), t) <==> Matches(Then(a', b'), t)
  {
    hide Matches;
    if Matches(Then(a, b), t) {
      var i := Split(a, b, t);
      Joined(a', b', t[..i], t[i..]);
    }
    if Matches(Then(a', b'), t) {
      var i := Split(a', b', t);
      Joined(a, b, t[..i], t[i..]);
    }
  }

  lemma MiddleTails(t: string)
    ensures Matches(TAIL_1, t) <==> Gap(1, 6, 1, 1, t)
    ensures Matches(TAIL_6, t) <==> Gap(1, 1, 1, 6, t)
  {
    hide Matches, Gap;
    forall s: string
      ensures Matches(COLON_GROUP, s) <==> Matches(Repeat(COLON_GROUP, 1, 1), s)
      ensures Matches(GROUP_COLON, s) <==> Matches(Repeat(GROUP_COLON, 1, 1), s)
    {
      OnceMatches(COLON_GROUP, s);
      OnceMatches(GROUP_COLON, s);
    }
    var a, b := Repeat(GROUP_COLON, 1, 6), Repeat(COLON_GROUP, 1, 6);
    ThenSame(a, a, COLON_GROUP, Repeat(COLON_GROUP, 1, 1), t);
    ThenSame(GROUP_COLON, Repeat(GROUP_COLON, 1, 1), b, b, t);
    GapMatches(6, 1, t);
    GapMatches(1, 6, t);
  }

  lemma FirstTail(t: string)
    ensures Matches(TAIL_0, t) <==> Gap(1, 7, 0, 0, t)
  {
    hide Matches, Join, Left, Right, Groups, AllMatch;
    var a := Repeat(GROUP_COLON, 1, 7);
    if Matches(TAIL_0, t) {
      var i := Split(a, COLON, t);
      RepeatSuffixed(GROUP, ':', 1, 7, t[..i]);
      OneOf({':'}, t[i..]);
      var ls :| 1 <= |ls| <= 7 && AllMatch(GROUP, ls) && t[..i] == Left(ls, ':');
      GroupsMatch(ls);
      NoGroups();
      GapOf(ls, []);
      assert t == Join(ls, ':') + "::" + Join([], ':');
    }
    if ls, rs :| 1 <= |ls| <= 7 && 0 <= |rs| <= 0 && Groups(ls) && Groups(rs) &&
                 t == Join(ls, ':') + "::" + Join(rs, ':') {
      GroupsMatch(ls);
      GapOf(ls, rs);
      assert rs == [];
      RepeatSuffixed(GROUP, ':', 1, 7, Left(ls, ':'));
      Single({':'}, ':');
      Joined(a, COLON, Left(ls, ':'), ":");
    }
  }

  lemma NoGroups()
    ensures Groups([]) && Join([], ':') == ""
  {
  }

  lemma LastTail(t: string)
    ensures Matches(TAIL_7, t) <==> Gap(0, 0, 0, 7, t)
  {
    hide Matches, Left, Right, Groups, AllMatch, Join;
    var b := Repeat(COLON_GROUP, 1, 7);
    NoGroups();
    Single({':'}, ':');
    if Matches(TAIL_7, t) {
      var i := Split(COLON, Either(b, COLON), t);
      OneOf({':'}, t[..i]);
      OneOf({':'}, t[i..]);
      Choice(b, COLON, t[i..]);
      if Matches(b, t[i..]) {
        RepeatPrefixed(GROUP, ':', 1, 7, t[i..]);
        var rs :| 1 <= |rs| <= 7 && AllMatch(GROUP, rs) && t[i..] == Right(rs, ':');
        GroupsMatch(rs);
        GapOf([], rs);
        assert t == Join([], ':') + "::" + Join(rs, ':');
      } else {
        assert t == Join([], ':') + "::" + Join([], ':');
      }
    }
    if ls, rs :| 0 <= |ls| <= 0 && 0 <= |rs| <= 7 && Groups(ls) && Groups(rs) &&
                 t == Join(ls, ':') + "::" + Join(rs, ':') {
      assert ls == [];
      if rs == [] {
        Choice(b, COLON, ":");
        Joined(COLON, Either(b, COLON), ":", ":");
        assert t == ":" + ":";
      } else {
        GroupsMatch(rs);
        GapOf([], rs);
        RepeatPrefixed(GROUP, ':', 1, 7, Right(rs, ':'));
        Choice(b, COLON, Right(rs, ':'));
        Joined(COLON, Either(b, COLON), ":", Right(rs, ':'));
      }
    }
  }

  /** The nine gap alternatives together allow any two numbers of groups adding up to at most seven. */
  lemma {:induction false} Tails(t: string)
    ensures CompressedForm(t) <==>
      Matches(TAIL_0, t) || Matches(TAIL_1, t) || Matches(TAIL_2, t) || Matches(TAIL_3, t)
      || Matches(TAIL_4, t) || Matches(TAIL_5, t) || Matches(TAIL_6, t) || Matches(TAIL_7, t)
  {
    hide Matches, Join, Groups;
    FirstTail(t);
    MiddleTails(t);
    GapMatches(5, 2, t);
    GapMatches(4, 3, t);
    GapMatches(3, 4, t);
    GapMatches(2, 5, t);
    LastTail(t);
  }

  // ---------------------------------------------------------------------------
  // The mapped form
  // ---------------------------------------------------------------------------

  lemma TensMatches(s: string)
    ensures Matches(TENS, s)
       <==> (|s| == 1 && s[0] in DIGIT) || (|s| == 2 && s[1] in DIGIT && (s[0] == '1' || (s[0] == '2' && s[1] <= '4')))
  {
    hide Matches, Line;
    var low := Then(Optional(Lit('1')), Class(DIGIT));
    Choice(Line([{'2'}, Range('0', '4')]), low, s);
    LineMatches([{'2'}, Range('0', '4')], s);
    if Matches(low, s) {
      var i := Split(Optional(Lit('1')), Class(DIGIT), s);
      OptionalMatches(Lit('1'), s[..i]);
      OneOf({'1'}, s[..i]);
      OneOf(DIGIT, s[i..]);
      assert i == 1 ==> s[..i][0] == s[0];
      assert s[i..][0] == s[i];
    }
    if |s| == 1 && s[0] in DIGIT {
      OptionalMatches(Lit('1'), "");
      OneOf(DIGIT, s);
      Joined(Optional(Lit('1')), Class(DIGIT), "", s);
      assert "" + s == s;
    } else if |s| == 2 && s[1] in DIGIT && s[0] == '1' {
      OptionalMatches(Lit('1'), "1");
      OneOf({'1'}, "1");
      OneOf(DIGIT, [s[1]]);
      Joined(Optional(Lit('1')), Class(DIGIT), "1", [s[1]]);
      assert "1" + [s[1]] == s;
    }
  }

  lemma TensThenUnits(s: string)
    ensures Matches(Then(Optional(TENS), Class(DIGIT)), s)
       <==> s != "" && s[|s| - 1] in DIGIT && (|s| == 1 || Matches(TENS, s[..|s| - 1]))
  {
    hide Matches;
    var a, b := Optional(TENS), Class(DIGIT);
    if Matches(Then(a, b), s) {
      var i := Split(a, b, s);
      OneOf(DIGIT, s[i..]);
      OptionalMatches(TENS, s[..i]);
      assert i == |s| - 1 && s[i..][0] == s[i];
    }
    if s != "" && s[|s| - 1] in DIGIT && (|s| == 1 || Matches(TENS, s[..|s| - 1])) {
      var init, last := s[..|s| - 1], s[|s| - 1];
      OptionalMatches(TENS, init);
      OneOf(DIGIT, [last]);
      Joined(a, b, init, [last]);
      assert s == init + [last];
    }
  }

  lemma MappedOctetMatches(s: string)
    ensures Matches(MAPPED_OCTET, s) <==> MappedOctet(s)
  {
    hide Matches, Line, Number;
    Choice(HIGH_OCTET, Then(Optional(TENS), Class(DIGIT)), s);
    Line3({'2'}, {'5'}, Range('0', '5'), s);
    TensThenUnits(s);
    if s != "" {
      TensMatches(s[..|s| - 1]);
    }
    if Digital(s) {
      ShortNumbers(s);
    }
  }

  /** `ffff`, some zeros behind a colon or nothing, and a colon. */
  predicate MappedParts(p: string, z: string) {
    p == "ffff" + z + ":" && (z == "" || (2 <= |z| <= 5 && z[0] == ':' && All({'0'}, z[1..])))
  }

  lemma PartsOfPrefix(p: string) returns (z: string)
    requires Matches(MAPPED_PREFIX, p)
    ensures MappedParts(p, z)
  {
    hide Matches, All;
    var a := Optional(ZEROS);
    var i := Split(FFFF, Then(a, COLON), p);
    FfffMatches(p[..i]);
    var q := p[i..];
    var j := Split(a, COLON, q);
    OneOf({':'}, q[j..]);
    z := q[..j];
    OptionalMatches(ZEROS, z);
    ZerosMatch(z);
    assert q[j..] == ":";
    assert p == "ffff" + (z + ":");
  }

  lemma PrefixOfParts(p: string, z: string)
    requires MappedParts(p, z)
    ensures Matches(MAPPED_PREFIX, p)
  {
    hide Matches, All;
    FfffMatches("ffff");
    OptionalMatches(ZEROS, z);
    ZerosMatch(z);
    OneOf({':'}, ":");
    Joined(Optional(ZEROS), COLON, z, ":");
    Joined(FFFF, Then(Optional(ZEROS), COLON), "ffff", z + ":");
    assert p == "ffff" + (z + ":");
  }

  lemma PartsGiveStart(p: string, z: string)
    requires MappedParts(p, z)
    ensures p != "" && MappedStart(p)
  {
    assert p[..4] == "ffff";
    if z != "" {
      assert p[5..|p| - 1] == z[1..];
    }
  }

  lemma StartGivesParts(p: string)
    requires p != "" && MappedStart(p)
    ensures MappedParts(p, p[4..|p| - 1])
  {
    var z := p[4..|p| - 1];
    assert p == p[..4] + z + [p[|p| - 1]];
    if z != "" {
      assert z[1..] == p[5..|p| - 1];
    }
  }

  lemma MappedPrefixMatches(p: string)
    ensures Matches(Optional(MAPPED_PREFIX), p) <==> MappedStart(p)
  {
    hide Matches, MappedParts;
    OptionalMatches(MAPPED_PREFIX, p);
    if Matches(MAPPED_PREFIX, p) {
      var z := PartsOfPrefix(p);
      PartsGiveStart(p, z);
    }
    if p != "" && MappedStart(p) {
      StartGivesParts(p);
      PrefixOfParts(p, p[4..|p| - 1]);
    }
  }

  lemma FfffMatches(s: string)
    ensures Matches(FFFF, s) <==> s == "ffff"
  {
    hide Matches, Line;
    LineMatches([{'f'}, {'f'}, {'f'}, {'f'}], s);
  }

  lemma ZerosMatch(s: string)
    ensures Matches(ZEROS, s) <==> 2 <= |s| <= 5 && s[0] == ':' && All({'0'}, s[1..])
  {
    hide Matches, All;
    var b := Repeat(Lit('0'), 1, 4);
    if s != "" {
      RepeatClass({'0'}, 1, 4, s[1..]);
    }
    if Matches(ZEROS, s) {
      var i := Split(COLON, b, s);
      OneOf({':'}, s[..i]);
      assert i == 1 && s[..i][0] == s[0];
    }
    if 2 <= |s| <= 5 && s[0] == ':' && All({'0'}, s[1..]) {
      OneOf({':'}, ":");
      Joined(COLON, b, ":", s[1..]);
      assert s == ":" + s[1..];
    }
  }

  lemma TwoColons(r: Regex, t: string)
    ensures Matches(Then(COLON, Then(COLON, r)), t) <==> |t| >= 2 && t[..2] == "::" && Matches(r, t[2..])
  {
    hide Matches;
    if Matches(Then(COLON, Then(COLON, r)), t) {
      var i := Split(COLON, Then(COLON, r), t);
      OneOf({':'}, t[..i]);
      var u := t[i..];
      var j := Split(COLON, r, u);
      OneOf({':'}, u[..j]);
      assert t[..i] == ":" && u[..j] == ":" && u[j..] == t[2..];
    }
    if |t| >= 2 && t[..2] == "::" && Matches(r, t[2..]) {
      Single({':'}, ':');
      Joined(COLON, r, ":", t[2..]);
      Joined(COLON, Then(COLON, r), ":", ":" + t[2..]);
      assert t == t[..2] + t[2..];
      assert t == ":" + (":" + t[2..]);
    }
  }

  lemma MappedForward(t: string)
    requires Matches(MAPPED, t)
    ensures MappedForm(t)
  {
    hide Matches, MappedStart, MappedOctet, Join;
    TwoColons(MAPPED_REST, t);
    var v := t[2..];
    var k := Split(Optional(MAPPED_PREFIX), MAPPED_QUAD, v);
    MappedPrefixMatches(v[..k]);
    var gs := QuadParts(v[k..]);
    assert t == t[..2] + v;
    assert t == "::" + v[..k] + Join(gs, '.');
  }

  lemma MappedMatches(t: string)
    ensures Matches(MAPPED, t) <==> MappedForm(t)
  {
    hide Matches, MappedStart, MappedOctet, Join;
    if Matches(MAPPED, t) {
      MappedForward(t);
    }
    if p, gs :| MappedStart(p) && |gs| == 4 && (forall g :: g in gs ==> MappedOctet(g)) &&
                t == "::" + p + Join(gs, '.') {
      MappedPrefixMatches(p);
      QuadOf(gs);
      Joined(Optional(MAPPED_PREFIX), MAPPED_QUAD, p, Join(gs, '.'));
      assert t[2..] == p + Join(gs, '.');
      TwoColons(MAPPED_REST, t);
    }
  }

  lemma QuadParts(s: string) returns (gs: seq<string>)
    requires Matches(MAPPED_QUAD, s)
    ensures |gs| == 4 && (forall g :: g in gs ==> MappedOctet(g)) && s == Join(gs, '.')
  {
    hide Matches, MappedOctet, Join;
    FourParts(MAPPED_OCTET, s);
    gs :| |gs| == 4 && AllMatch(MAPPED_OCTET, gs) && s == Join(gs, '.');
    forall g | g in gs ensures MappedOctet(g) {
      MappedOctetMatches(g);
    }
  }

  lemma QuadOf(gs: seq<string>)
    requires |gs| == 4 && forall g :: g in gs ==> MappedOctet(g)
    ensures Matches(MAPPED_QUAD, Join(gs, '.'))
  {
    hide Matches, MappedOctet, Join;
    forall g | g in gs ensures Matches(MAPPED_OCTET, g) {
      MappedOctetMatches(g);
    }
    FourParts(MAPPED_OCTET, Join(gs, '.'));
  }

  // ---------------------------------------------------------------------------
  // The whole expression
  // ---------------------------------------------------------------------------

  ghost predicate Inside(t: string) {
    FullForm(t) || CompressedForm(t) || MappedForm(t)
  }

  ghost predicate Bracketed(h: string) {
    |h| >= 2 && h[0] == '[' && h[|h| - 1] == ']' && Inside(h[1..|h| - 1])
  }

  const IPV6_CHARS := HEX + {':', '.'}

  lemma GroupsAlphabet(gs: seq<string>)
    requires Groups(gs)
    ensures All(IPV6_CHARS, Join(gs, ':'))
  {
    forall g | g in gs ensures All(IPV6_CHARS, g) {
      assert Group(g);
    }
    JoinOver(gs, ':', IPV6_CHARS);
  }

  lemma MappedAlphabet(p: string, gs: seq<string>)
    requires MappedStart(p) && forall g :: g in gs ==> MappedOctet(g)
    ensures All(IPV6_CHARS, p) && All(IPV6_CHARS, Join(gs, '.'))
  {
    forall g | g in gs ensures All(IPV6_CHARS, g) {
      assert MappedOctet(g);
    }
    JoinOver(gs, '.', IPV6_CHARS);
    if p != "" {
      forall i | 0 <= i < |p| ensures p[i] in IPV6_CHARS {
        assert i < 4 ==> p[i] == p[..4][i];
        assert 5 <= i < |p| - 1 ==> p[i] == p[5..|p| - 1][i - 5];
      }
    }
  }

  lemma InsideAlphabet(t: string)
    requires Inside(t)
    ensures All(IPV6_CHARS, t)
  {
    hide Groups, Join, MappedStart, MappedOctet;
    if FullForm(t) {
      var gs :| |gs| == 8 && Groups(gs) && t == Join(gs, ':');
      GroupsAlphabet(gs);
    } else if CompressedForm(t) {
      var ls, rs :| |ls| + |rs| <= 7 && Groups(ls) && Groups(rs) && t == Join(ls, ':') + "::" + Join(rs, ':');
      GroupsAlphabet(ls);
      GroupsAlphabet(rs);
    } else {
      var p, gs :| MappedStart(p) && |gs| == 4 && (forall g :: g in gs ==> MappedOctet(g)) &&
                   t == "::" + p + Join(gs, '.');
      MappedAlphabet(p, gs);
    }
  }

  lemma {:induction false} InsideMatches(t: string)
    ensures Matches(Any(INSIDE), t) <==> Inside(t)
  {
    hide Matches, FullForm, CompressedForm, MappedForm;
    AnyMatches(INSIDE, t);
    FullMatches(t);
    Tails(t);
    MappedMatches(t);
    assert INSIDE[0] == FULL && INSIDE[1] == TAIL_0 && INSIDE[2] == TAIL_1 && INSIDE[3] == TAIL_2 &&
        INSIDE[4] == TAIL_3;
    assert INSIDE[5] == TAIL_4 && INSIDE[6] == TAIL_5 && INSIDE[7] == TAIL_6 && INSIDE[8] == TAIL_7 &&
        INSIDE[9] == MAPPED;
  }

  /** IPV6_REGEX accepts exactly, in brackets: eight groups, or at most seven around one `::`, or an
      IPv4 address behind `::`, `::ffff:` or `::ffff:` and zeros. */
  lemma Ipv6Exactly(h: string)
    ensures Matches(IPV6, h) <==> Bracketed(h)
  {
    hide Matches, Inside;
    var a, b := Any(INSIDE), Lit(']');
    if Matches(IPV6, h) {
      var i := Split(Lit('['), Then(a, b), h);
      OneOf({'['}, h[..i]);
      var u := h[i..];
      var j := Split(a, b, u);
      OneOf({']'}, u[j..]);
      InsideMatches(u[..j]);
      assert i == 1 && j == |h| - 2 && h[..i][0] == h[0] && u[j..][0] == h[|h| - 1];
      assert u[..j] == h[1..|h| - 1];
    }
    if Bracketed(h) {
      var t := h[1..|h| - 1];
      InsideMatches(t);
      Single({'['}, '[');
      Single({']'}, ']');
      Joined(a, b, t, "]");
      Joined(Lit('['), Then(a, b), "[", t + "]");
      assert h == "[" + (t + "]");
    }
  }
}
