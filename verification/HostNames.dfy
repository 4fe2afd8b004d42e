/** The host and port expressions of server names, each proved to accept exactly the words of an
    independent description: ports are decimal numerals, IPv4 addresses are dotted numbers. Joined parts, which
    DNS and IPv6 names share, are here too. */
module HostNames {
  import opened Decimals
  import opened Regex

  predicate Between(c: char, lo: char, hi: char) { lo <= c <= hi }

  function Range(lo: char, hi: char): (cs: set<char>)
    ensures forall c :: c in cs <==> lo <= c <= hi
  {
    set c: char | Between(c, lo, hi)
  }

  const DIGIT := Range('0', '9')
  const HEX := Range('0', '9') + Range('a', 'f') + Range('A', 'F')
  const ALNUM := Range('a', 'z') + Range('A', 'Z') + Range('0', '9')

  predicate IsHex(c: char) { '0' <= c <= '9' || 'a' <= c <= 'f' || 'A' <= c <= 'F' }

  predicate IsAlnum(c: char) { '0' <= c <= '9' || 'a' <= c <= 'z' || 'A' <= c <= 'Z' }

  // ---------------------------------------------------------------------------
  // Joined parts
  // ---------------------------------------------------------------------------

  function Join(gs: seq<string>, c: char): string {
    if gs == [] then "" else if |gs| == 1 then gs[0] else gs[0] + [c] + Join(gs[1..], c)
  }

  /** Every part followed by the separator. */
  function Left(gs: seq<string>, c: char): string {
    if gs == [] then "" else gs[0] + [c] + Left(gs[1..], c)
  }

  /** Every part preceded by the separator. */
  function Right(gs: seq<string>, c: char): string {
    if gs == [] then "" else [c] + gs[0] + Right(gs[1..], c)
  }

  lemma {:induction false} LeftThenLast(gs: seq<string>, last: string, c: char)
    ensures Left(gs, c) + last == Join(gs + [last], c)
  {
    if gs != [] {
      LeftThenLast(gs[1..], last, c);
      assert (gs + [last])[1..] == gs[1..] + [last];
      assert Left(gs, c) + last == gs[0] + [c] + (Left(gs[1..], c) + last);
    }
  }

  lemma {:induction false} LeftIsJoin(gs: seq<string>, c: char)
    requires gs != []
    ensures Left(gs, c) == Join(gs, c) + [c]
  {
    if |gs| > 1 {
      LeftIsJoin(gs[1..], c);
    } else {
      assert Left(gs[1..], c) == "";
    }
  }

  lemma {:induction false} RightIsJoin(gs: seq<string>, c: char)
    requires gs != []
    ensures Right(gs, c) == [c] + Join(gs, c)
  {
    if |gs| > 1 {
      RightIsJoin(gs[1..], c);
    } else {
      assert Right(gs[1..], c) == "";
    }
  }

  lemma {:induction false} JoinOver(gs: seq<string>, c: char, cs: set<char>)
    requires c in cs && forall g :: g in gs ==> All(cs, g)
    ensures All(cs, Join(gs, c))
  {
    if gs != [] {
      assert gs[0] in gs;
      JoinOver(gs[1..], c, cs);
    }
  }

  ghost predicate AllMatch(r: Regex, gs: seq<string>) {
    forall g :: g in gs ==> Matches(r, g)
  }

  function Suffixed(r: Regex, c: char): Regex { Then(r, Lit(c)) }

  function Prefixed(r: Regex, c: char): Regex { Then(Lit(c), r) }

  lemma {:induction false} UnfoldSuffixed(r: Regex, c: char, parts: seq<string>) returns (gs: seq<string>)
    requires AllMatch(Suffixed(r, c), parts)
    ensures |gs| == |parts| && AllMatch(r, gs) && Concat(parts) == Left(gs, c)
  {
    if parts == [] {
      return [];
    }
    var p := parts[0];
    assert Matches(Suffixed(r, c), p);
    var i :| 0 <= i <= |p| && Matches(r, p[..i]) && Matches(Lit(c), p[i..]);
    assert p == p[..i] + [c];
    var rest := UnfoldSuffixed(r, c, parts[1..]);
    gs := [p[..i]] + rest;
    assert gs[1..] == rest;
  }

  lemma {:induction false} FoldSuffixed(r: Regex, c: char, gs: seq<string>) returns (parts: seq<string>)
    requires AllMatch(r, gs)
    ensures |gs| == |parts| && AllMatch(Suffixed(r, c), parts) && Concat(parts) == Left(gs, c)
  {
    if gs == [] {
      return [];
    }
    var rest := FoldSuffixed(r, c, gs[1..]);
    parts := [gs[0] + [c]] + rest;
    Single({c}, c);
    Joined(r, Lit(c), gs[0], [c]);
    assert parts[1..] == rest;
  }

  lemma {:induction false} UnfoldPrefixed(r: Regex, c: char, parts: seq<string>) returns (gs: seq<string>)
    requires AllMatch(Prefixed(r, c), parts)
    ensures |gs| == |parts| && AllMatch(r, gs) && Concat(parts) == Right(gs, c)
  {
    if parts == [] {
      return [];
    }
    var p := parts[0];
    assert Matches(Prefixed(r, c), p);
    var i :| 0 <= i <= |p| && Matches(Lit(c), p[..i]) && Matches(r, p[i..]);
    assert p == [c] + p[i..];
    var rest := UnfoldPrefixed(r, c, parts[1..]);
    gs := [p[i..]] + rest;
    assert gs[1..] == rest;
  }

  lemma {:induction false} FoldPrefixed(r: Regex, c: char, gs: seq<string>) returns (parts: seq<string>)
    requires AllMatch(r, gs)
    ensures |gs| == |parts| && AllMatch(Prefixed(r, c), parts) && Concat(parts) == Right(gs, c)
  {
    if gs == [] {
      return [];
    }
    var rest := FoldPrefixed(r, c, gs[1..]);
    parts := [[c] + gs[0]] + rest;
    Single({c}, c);
    Joined(Lit(c), r, [c], gs[0]);
    assert parts[1..] == rest;
  }

  lemma RepeatSuffixed(r: Regex, c: char, lo: nat, hi: nat, s: string)
    ensures Matches(Repeat(Suffixed(r, c), lo, hi), s)
       <==> exists gs :: lo <= |gs| <= hi && AllMatch(r, gs) && s == Left(gs, c)
  {
    if Matches(Repeat(Suffixed(r, c), lo, hi), s) {
      var parts :| lo <= |parts| <= hi && (forall p :: p in parts ==> Matches(Suffixed(r, c), p)) && Concat(parts) == s;
      var gs := UnfoldSuffixed(r, c, parts);
    }
    if gs :| lo <= |gs| <= hi && AllMatch(r, gs) && s == Left(gs, c) {
      var parts := FoldSuffixed(r, c, gs);
    }
  }

  lemma StarSuffixed(r: Regex, c: char, s: string)
    ensures Matches(Star(Suffixed(r, c)), s) <==> exists gs :: AllMatch(r, gs) && s == Left(gs, c)
  {
    if Matches(Star(Suffixed(r, c)), s) {
      var parts :| (forall p :: p in parts ==> Matches(Suffixed(r, c), p)) && Concat(parts) == s;
      var gs := UnfoldSuffixed(r, c, parts);
    }
    if gs :| AllMatch(r, gs) && s == Left(gs, c) {
      var parts := FoldSuffixed(r, c, gs);
    }
  }

  lemma RepeatPrefixed(r: Regex, c: char, lo: nat, hi: nat, s: string)
    ensures Matches(Repeat(Prefixed(r, c), lo, hi), s)
       <==> exists gs :: lo <= |gs| <= hi && AllMatch(r, gs) && s == Right(gs, c)
  {
    if Matches(Repeat(Prefixed(r, c), lo, hi), s) {
      var parts :| lo <= |parts| <= hi && (forall p :: p in parts ==> Matches(Prefixed(r, c), p)) && Concat(parts) == s;
      var gs := UnfoldPrefixed(r, c, parts);
    }
    if gs :| lo <= |gs| <= hi && AllMatch(r, gs) && s == Right(gs, c) {
      var parts := FoldPrefixed(r, c, gs);
    }
  }

  // ---------------------------------------------------------------------------
  // Numbers
  // ---------------------------------------------------------------------------

  predicate Digital(s: string) {
    s != "" && forall i :: 0 <= i < |s| ==> IsDigit(s[i])
  }

  lemma AllDigits(s: string)
    ensures All(DIGIT, s) <==> forall i :: 0 <= i < |s| ==> IsDigit(s[i])
  {
  }

  lemma {:induction false} ShortNumbers(s: string)
    requires Digital(s)
    ensures |s| == 1 ==> Number(s) == s[0] as int - 48
    ensures |s| == 2 ==> Number(s) == 10 * (s[0] as int - 48) + (s[1] as int - 48)
    ensures |s| == 3 ==> Number(s) == 100 * (s[0] as int - 48) + 10 * (s[1] as int - 48) + (s[2] as int - 48)
    ensures |s| == 4 ==> Number(s) < 10000
    ensures |s| == 5 ==>
      Number(s) == 10000 * (s[0] as int - 48) + 1000 * (s[1] as int - 48) + 100 * (s[2] as int - 48)
                 + 10 * (s[3] as int - 48) + (s[4] as int - 48)
    decreases |s|
  {
    if 1 < |s| <= 5 {
      ShortNumbers(s[..|s| - 1]);
    }
    if |s| == 5 {
      var t := s[..4];
      var u := t[..3];
      ShortNumbers(u);
    }
  }

  lemma {:induction false} LongNumbers(s: string)
    requires Digital(s) && |s| >= 6 && s[0] != '0'
    ensures Number(s) >= 100000
    decreases |s|
  {
    if |s| == 6 {
      ShortNumbers(s[..5]);
    } else {
      LongNumbers(s[..|s| - 1]);
    }
  }

  // ---------------------------------------------------------------------------
  // Ports
  // ---------------------------------------------------------------------------

  const PORT_65530 := Line([{'6'}, {'5'}, {'5'}, {'3'}, Range('0', '5')])
  const PORT_65500 := Line([{'6'}, {'5'}, {'5'}, Range('0', '2'), DIGIT])
  const PORT_65000 := Line([{'6'}, {'5'}, Range('0', '4'), DIGIT, DIGIT])
  const PORT_60000 := Line([{'6'}, Range('0', '4'), DIGIT, DIGIT, DIGIT])
  const PORT_10000 := Line([Range('1', '5'), DIGIT, DIGIT, DIGIT, DIGIT])
  const PORT_1 := Then(Class(Range('1', '9')), Repeat(Class(DIGIT), 0, 3))
  const PORT_NUMBER := Any([PORT_65530, PORT_65500, PORT_65000, PORT_60000, PORT_10000, PORT_1])
  const PORT := Then(Lit(':'), PORT_NUMBER)

  lemma Line3(a: set<char>, b: set<char>, c: set<char>, s: string)
    ensures Matches(Line([a, b, c]), s) <==> |s| == 3 && s[0] in a && s[1] in b && s[2] in c
  {
    hide Matches;
    LineMatches([a, b, c], s);
  }

  lemma Line5(a: set<char>, b: set<char>, c: set<char>, d: set<char>, e: set<char>, s: string)
    ensures Matches(Line([a, b, c, d, e]), s)
       <==> |s| == 5 && s[0] in a && s[1] in b && s[2] in c && s[3] in d && s[4] in e
  {
    hide Matches;
    LineMatches([a, b, c, d, e], s);
  }

  predicate FiveDigitPort(s: string) {
    |s| == 5 && Digital(s) && s[0] != '0' && Number(s) <= 65535
  }

  lemma FiveDigitPorts(s: string)
    ensures (Matches(PORT_65530, s) || Matches(PORT_65500, s) || Matches(PORT_65000, s)
             || Matches(PORT_60000, s) || Matches(PORT_10000, s)) <==> FiveDigitPort(s)
  {
    hide Matches, Line, Range, Number;
    Line5({'6'}, {'5'}, {'5'}, {'3'}, Range('0', '5'), s);
    Line5({'6'}, {'5'}, {'5'}, Range('0', '2'), DIGIT, s);
    Line5({'6'}, {'5'}, Range('0', '4'), DIGIT, DIGIT, s);
    Line5({'6'}, Range('0', '4'), DIGIT, DIGIT, DIGIT, s);
    Line5(Range('1', '5'), DIGIT, DIGIT, DIGIT, DIGIT, s);
    if |s| == 5 && Digital(s) {
      ShortNumbers(s);
    }
  }

  predicate ShortPort(s: string) {
    |s| <= 4 && Digital(s) && s[0] != '0'
  }

  lemma HeadThenDigits(s: string)
    ensures Matches(PORT_1, s) <==> s != "" && s[0] in Range('1', '9') && |s| <= 4 && All(DIGIT, s[1..])
  {
    hide All;
    var a, b := Class(Range('1', '9')), Repeat(Class(DIGIT), 0, 3);
    if s != "" {
      RepeatClass(DIGIT, 0, 3, s[1..]);
    }
    if Matches(PORT_1, s) {
      var i :| 0 <= i <= |s| && Matches(a, s[..i]) && Matches(b, s[i..]);
      assert i == 1;
    }
    if s != "" && s[0] in Range('1', '9') && |s| <= 4 && All(DIGIT, s[1..]) {
      assert Matches(a, s[..1]) && Matches(b, s[1..]);
    }
  }

  lemma ShortPorts(s: string)
    ensures Matches(PORT_1, s) <==> ShortPort(s)
  {
    hide Matches;
    HeadThenDigits(s);
    if s != "" {
      assert s == [s[0]] + s[1..];
    }
  }

  predicate PortNumber(s: string) {
    FiveDigitPort(s) || ShortPort(s)
  }

  lemma PortNumbers(s: string)
    ensures Matches(PORT_NUMBER, s) <==> PortNumber(s)
  {
    hide Matches, FiveDigitPort, ShortPort, Line;
    FiveDigitPorts(s);
    ShortPorts(s);
    var rs := [PORT_65530, PORT_65500, PORT_65000, PORT_60000, PORT_10000, PORT_1];
    AnyMatches(rs, s);
    assert rs[0] == PORT_65530 && rs[1] == PORT_65500 && rs[2] == PORT_65000;
    assert rs[3] == PORT_60000 && rs[4] == PORT_10000 && rs[5] == PORT_1;
  }

  lemma {:induction false} DigitsFit(n: nat)
    requires n <= 65535
    ensures |Digits(n)| <= 5
  {
    var s := Digits(n);
    NumberOfDigits(n);
    if |s| >= 6 {
      LongNumbers(s);
    }
  }

  ghost predicate PortForm(s: string) {
    exists n: nat :: 1 <= n <= 65535 && s == ":" + Digits(n)
  }

  /** The accepted ports are exactly the decimal forms of 1 to 65535. */
  lemma PortExactly(s: string)
    ensures Matches(PORT, s) <==> PortForm(s)
  {
    PortText(s);
    hide Matches;
    if s != "" && s[0] == ':' && PortNumber(s[1..]) {
      var t := s[1..];
      ShortNumbers(t);
      DigitsOfNumber(t);
      assert s == ":" + Digits(Number(t));
    }
    if n: nat :| 1 <= n <= 65535 && s == ":" + Digits(n) {
      NumberOfDigits(n);
      DigitsFit(n);
      assert s[1..] == Digits(n);
    }
  }

  lemma PortText(s: string)
    ensures Matches(PORT, s) <==> s != "" && s[0] == ':' && PortNumber(s[1..])
  {
    hide PortNumber;
    if s != "" {
      PortNumbers(s[1..]);
    }
    if Matches(PORT, s) {
      var i :| 0 <= i <= |s| && Matches(Lit(':'), s[..i]) && Matches(PORT_NUMBER, s[i..]);
      assert i == 1;
      assert s[0] == s[..1][0];
    }
    if s != "" && s[0] == ':' && PortNumber(s[1..]) {
      assert Matches(Lit(':'), s[..1]);
      assert Matches(PORT_NUMBER, s[1..]);
    }
  }

  // ---------------------------------------------------------------------------
  // IPv4
  // ---------------------------------------------------------------------------

  const OCTET :=
    Either(Line([{'2'}, {'5'}, Range('0', '5')]),
           Either(Line([{'2'}, Range('0', '4'), DIGIT]),
                  LOW_OCTET))
  const IPV4 := Then(Repeat(Suffixed(OCTET, '.'), 3, 3), OCTET)
  const UPTO3 := Repeat(Class(DIGIT), 1, 3)
  const QUAD := Then(Repeat(Suffixed(UPTO3, '.'), 3, 3), UPTO3)

  predicate Octet(g: string) {
    Digital(g) && |g| <= 3 && Number(g) <= 255
  }

  const ONE_OR_TWO := Then(Class(DIGIT), Optional(Class(DIGIT)))
  const LOW_OCTET := Then(Optional(Class({'0', '1'})), ONE_OR_TWO)

  lemma OneOrTwo(s: string)
    ensures Matches(ONE_OR_TWO, s) <==> Digital(s) && |s| <= 2
  {
    if s != "" {
      RepeatClass(DIGIT, 0, 1, s[1..]);
      assert s == s[..1] + s[1..];
    }
    if Matches(ONE_OR_TWO, s) {
      var i :| 0 <= i <= |s| && Matches(Class(DIGIT), s[..i]) && Matches(Optional(Class(DIGIT)), s[i..]);
      assert i == 1;
    }
    if Digital(s) && |s| <= 2 {
      assert Matches(Class(DIGIT), s[..1]);
    }
  }

  lemma LowOctet(s: string)
    ensures Matches(LOW_OCTET, s) <==> Digital(s) && |s| <= 3 && (|s| == 3 ==> s[0] in {'0', '1'})
  {
    hide Matches;
    var a := Optional(Class({'0', '1'}));
    if Matches(LOW_OCTET, s) {
      var i := Split(a, ONE_OR_TWO, s);
      RepeatClass({'0', '1'}, 0, 1, s[..i]);
      OneOrTwo(s[i..]);
      assert i == 1 ==> s[..1][0] == s[0];
    }
    if Digital(s) && |s| <= 3 && (|s| == 3 ==> s[0] in {'0', '1'}) {
      var i := if |s| == 3 then 1 else 0;
      RepeatClass({'0', '1'}, 0, 1, s[..i]);
      OneOrTwo(s[i..]);
      Joined(a, ONE_OR_TWO, s[..i], s[i..]);
      assert s == s[..i] + s[i..];
    }
  }

  lemma OctetExactly(s: string)
    ensures Matches(OCTET, s) <==> Octet(s)
  {
    hide Matches, Line, Number;
    var high, low := Line([{'2'}, {'5'}, Range('0', '5')]), Line([{'2'}, Range('0', '4'), DIGIT]);
    Choice(high, Either(low, LOW_OCTET), s);
    Choice(low, LOW_OCTET, s);
    Line3({'2'}, {'5'}, Range('0', '5'), s);
    Line3({'2'}, Range('0', '4'), DIGIT, s);
    LowOctet(s);
    if Digital(s) {
      ShortNumbers(s);
    }
  }

  ghost predicate Quad(h: string) {
    exists gs :: |gs| == 4 && (forall g :: g in gs ==> Digital(g) && |g| <= 3) && h == Join(gs, '.')
  }

  ghost predicate Ipv4Form(h: string) {
    exists gs :: |gs| == 4 && (forall g :: g in gs ==> Octet(g)) && h == Join(gs, '.')
  }

  /** Three dotted parts and a last one. */
  lemma FourParts(r: Regex, s: string)
    ensures Matches(Then(Repeat(Suffixed(r, '.'), 3, 3), r), s)
       <==> exists gs :: |gs| == 4 && AllMatch(r, gs) && s == Join(gs, '.')
  {
    hide Matches, Join, Left;
    var a := Repeat(Suffixed(r, '.'), 3, 3);
    if Matches(Then(a, r), s) {
      var i := Split(a, r, s);
      RepeatSuffixed(r, '.', 3, 3, s[..i]);
      var gs :| 3 <= |gs| <= 3 && AllMatch(r, gs) && s[..i] == Left(gs, '.');
      LeftThenLast(gs, s[i..], '.');
      assert |gs + [s[i..]]| == 4 && AllMatch(r, gs + [s[i..]]);
    }
    if gs :| |gs| == 4 && AllMatch(r, gs) && s == Join(gs, '.') {
      RepeatSuffixed(r, '.', 3, 3, Left(gs[..3], '.'));
      LeftThenLast(gs[..3], gs[3], '.');
      assert gs == gs[..3] + [gs[3]];
      assert AllMatch(r, gs[..3]);
      Joined(a, r, Left(gs[..3], '.'), gs[3]);
    }
  }

  lemma QuadAlphabet(h: string)
    requires Quad(h)
    ensures h != "" && All(DIGIT + {'.'}, h)
  {
    var gs :| |gs| == 4 && (forall g :: g in gs ==> Digital(g) && |g| <= 3) && h == Join(gs, '.');
    assert Digital(gs[0]);
    forall g | g in gs ensures All(DIGIT + {'.'}, g) {
      assert Digital(g);
    }
    JoinOver(gs, '.', DIGIT + {'.'});
  }

  lemma QuadExactly(h: string)
    ensures Matches(QUAD, h) <==> Quad(h)
  {
    FourParts(UPTO3, h);
    forall g: string ensures Matches(UPTO3, g) <==> Digital(g) && |g| <= 3 {
      RepeatClass(DIGIT, 1, 3, g);
    }
  }

  /** The IPv4 expression accepts exactly four dotted numbers of at most three digits, each up to 255. */
  lemma Ipv4Exactly(h: string)
    ensures Matches(IPV4, h) <==> Ipv4Form(h)
  {
    FourParts(OCTET, h);
    forall g: string ensures Matches(OCTET, g) <==> Octet(g) {
      OctetExactly(g);
    }
  }
}
