/** Printing and recognising Matrix user ids. */
module MatrixId {
  import opened Decimals
  import opened DnsNames
  import opened HostNames
  import opened Ipv6
  import opened Options
  import opened Regex
  import opened Sequences

  const MAX_MATRIX_ID_LENGTH := 255
  const LOCALPART_CHARS := Range('a', 'z') + Range('0', '9') + {'_', '-', '.', '=', '/', '+'}
  const LOCALPART := Then(Class(LOCALPART_CHARS), Star(Class(LOCALPART_CHARS)))

  // ---------------------------------------------------------------------------
  // Searching for a character
  // ---------------------------------------------------------------------------

  function LastIndexOf(s: string, c: char): (r: int)
    ensures r == -1 ==> c !in s
    ensures r != -1 ==> 0 <= r < |s| && s[r] == c && c !in s[r + 1..]
  {
    if s == "" then -1
    else if s[|s| - 1] == c then |s| - 1
    else
      var r := LastIndexOf(s[..|s| - 1], c);
      assert s == s[..|s| - 1] + [s[|s| - 1]];
      r
  }

  lemma {:induction false} LastAt(s: string, c: char, r: nat)
    requires r < |s| && s[r] == c && c !in s[r + 1..]
    ensures LastIndexOf(s, c) == r
  {
    if r < |s| - 1 {
      assert s[r + 1..][|s| - r - 2] == s[|s| - 1];
      var init := s[..|s| - 1];
      assert init[r + 1..] == s[r + 1..][..|s| - r - 2];
      LastAt(init, c, r);
    }
  }

  // ---------------------------------------------------------------------------
  // Server names
  // ---------------------------------------------------------------------------

  ghost predicate ValidServerName(s: string) {
    if s == "" then false
    else if s[0] == '[' then
      var end := IndexOf(s, ']', 0);
      end != -1 && Matches(IPV6, s[..end + 1]) && ValidPort(s[end + 1..])
    else
      var colon := LastIndexOf(s, ':');
      var cut := if colon > 0 then colon else |s|;
      ValidName(s[..cut]) && ValidPort(s[cut..])
  }

  ghost predicate ValidPort(p: string) {
    p != "" ==> Matches(PORT, p)
  }

  /** What looks like an IPv4 address has to be one; anything else has to be a DNS name. */
  ghost predicate ValidName(h: string) {
    if Matches(QUAD, h) then Matches(IPV4, h) else DnsName(h)
  }

  /** The same, without the expressions. */
  ghost predicate HostForm(h: string) {
    if h != "" && h[0] == '[' then Bracketed(h)
    else if Quad(h) then Ipv4Form(h)
    else DnsForm(h)
  }

  ghost predicate ServerForm(host: string, port: string) {
    HostForm(host) && (port == "" || PortForm(port))
  }

  lemma NameExactly(h: string)
    requires h == "" || h[0] != '['
    ensures ValidName(h) <==> HostForm(h)
  {
    QuadExactly(h);
    Ipv4Exactly(h);
    DnsExactly(h);
  }

  lemma PlainNames(h: string)
    requires ValidName(h)
    ensures h != "" && ':' !in h && h[0] != '['
  {
    hide Matches, DnsName, Quad;
    QuadExactly(h);
    if Quad(h) {
      QuadAlphabet(h);
    } else {
      DnsAlphabet(h);
    }
  }

  /** A bracketed host closes with its only closing bracket. */
  lemma OneClosingBracket(h: string)
    requires Bracketed(h)
    ensures ']' !in h[..|h| - 1] && h[|h| - 1] == ']'
  {
    hide Inside;
    var t := h[1..|h| - 1];
    InsideAlphabet(t);
    assert h[..|h| - 1] == "[" + t;
  }

  lemma PortColon(port: string)
    requires PortForm(port)
    ensures port != "" && port[0] == ':' && ':' !in port[1..]
  {
    var n: nat :| 1 <= n <= 65535 && port == ":" + Digits(n);
    assert port[1..] == Digits(n);
  }

  lemma PlainCut(host: string, port: string)
    requires ':' !in host && (port == "" || (port[0] == ':' && ':' !in port[1..]))
    ensures LastIndexOf(host + port, ':') == if port == "" then -1 else |host|
  {
    var s := host + port;
    if port == "" {
      assert s == host;
    } else {
      assert s[|host| + 1..] == port[1..];
      LastAt(s, ':', |host|);
    }
  }

  lemma BracketCut(host: string, port: string)
    requires Bracketed(host)
    ensures IndexOf(host + port, ']', 0) == |host| - 1
  {
    OneClosingBracket(host);
    hide Bracketed;
    var s := host + port;
    assert s[0..|host| - 1] == host[..|host| - 1];
    FirstAt(s, ']', 0, |host| - 1);
  }

  lemma SplitServer(host: string, port: string)
    requires ServerForm(host, port)
    ensures ValidServerName(host + port)
  {
    hide Matches, Bracketed, DnsForm, Ipv4Form, Quad, PortForm, ValidName, IndexOf, LastIndexOf;
    var s := host + port;
    PortExactly(port);
    assert s[..|host|] == host && s[|host|..] == port;
    if host != "" && host[0] == '[' {
      Ipv6Exactly(host);
      BracketCut(host, port);
    } else {
      NameExactly(host);
      PlainNames(host);
      if port != "" {
        PortColon(port);
      }
      PlainCut(host, port);
    }
  }

  /** Server names are exactly a host with an optional port. */
  lemma ServerNameExactly(s: string)
    ensures ValidServerName(s) <==> exists host, port :: s == host + port && ServerForm(host, port)
  {
    hide Matches, Bracketed, DnsForm, Ipv4Form, Quad;
    if ValidServerName(s) {
      var cut := HostLength(s);
      PortExactly(s[cut..]);
      Ipv6Exactly(s[..cut]);
      if s[0] != '[' {
        NameExactly(s[..cut]);
      }
      assert s == s[..cut] + s[cut..];
      assert ServerForm(s[..cut], s[cut..]);
    }
    if host, port :| s == host + port && ServerForm(host, port) {
      SplitServer(host, port);
    }
  }

  /** Where the code cuts an accepted server name. */
  lemma HostLength(s: string) returns (cut: nat)
    requires ValidServerName(s)
    ensures 0 < cut <= |s| && ValidPort(s[cut..])
    ensures if s[0] == '[' then Matches(IPV6, s[..cut]) else ValidName(s[..cut])
  {
    if s[0] == '[' {
      cut := IndexOf(s, ']', 0) + 1;
    } else {
      var colon := LastIndexOf(s, ':');
      cut := if colon > 0 then colon else |s|;
    }
  }

  /** And in only one way. */
  lemma ServerSplitUnique(host: string, port: string, host': string, port': string)
    requires host + port == host' + port' && ServerForm(host, port) && ServerForm(host', port')
    ensures host == host' && port == port'
  {
    var n := SplitPoint(host, port);
    var n' := SplitPoint(host', port');
    assert host == (host + port)[..n] && host' == (host' + port')[..n'];
    assert port == (host + port)[n..] && port' == (host' + port')[n'..];
  }

  function CutOf(s: string): nat {
    if s != "" && s[0] == '[' then IndexOf(s, ']', 0) + 1
    else if LastIndexOf(s, ':') == -1 then |s| else LastIndexOf(s, ':')
  }

  lemma SplitPoint(host: string, port: string) returns (n: nat)
    requires ServerForm(host, port)
    ensures n == |host| == CutOf(host + port)
  {
    hide Matches, Bracketed, DnsForm, Ipv4Form, Quad, PortForm, ValidName, IndexOf, LastIndexOf;
    n := |host|;
    if host != "" && host[0] == '[' {
      BracketCut(host, port);
    } else {
      NameExactly(host);
      PlainNames(host);
      if port != "" {
        PortColon(port);
      }
      PlainCut(host, port);
    }
  }

  // ---------------------------------------------------------------------------
  // Matrix ids
  // ---------------------------------------------------------------------------

  datatype Result =
    | Id(id: string)
    | EmptyLocalpart
    | EmptyServerName
    | InvalidUsername
    | InvalidServerName
    | TooLong(length: nat)

  ghost function ToMatrixId(localpart: string, serverName: string): Result {
    if localpart == "" then EmptyLocalpart
    else if serverName == "" then EmptyServerName
    else if !Matches(LOCALPART, localpart) then InvalidUsername
    else if !ValidServerName(serverName) then InvalidServerName
    else
      var matrixId := "@" + localpart + ":" + serverName;
      if |matrixId| > MAX_MATRIX_ID_LENGTH then TooLong(|matrixId|) else Id(matrixId)
  }

  ghost predicate IsMatrixId(id: string) {
    if id == "" || id[0] != '@' || |id| > MAX_MATRIX_ID_LENGTH then false
    else
      var colon := IndexOf(id, ':', 1);
      if colon == -1 then false
      else
        var localpart, serverName := id[1..colon], id[colon + 1..];
        localpart != "" && serverName != "" && Matches(LOCALPART, localpart) && ValidServerName(serverName)
  }

  /** The part before the first colon of the whole id, without its first character. */
  function GetLocalPart(id: string): Option<string> {
    if id == "" || id[0] != '@' then None
    else
      var colon := IndexOf(id, ':', 0);
      if colon == -1 then None else Some(id[1..colon])
  }

  /** Localparts: at least one character, all of them small letters, digits or one of six signs. */
  predicate LocalpartForm(s: string) {
    s != "" && forall i :: 0 <= i < |s| ==> 'a' <= s[i] <= 'z' || '0' <= s[i] <= '9' || s[i] in "_-.=/+"
  }

  lemma LocalpartExactly(s: string)
    ensures Matches(LOCALPART, s) <==> LocalpartForm(s)
  {
    LocalpartMatches(s);
    hide Matches;
    forall c: char
      ensures c in LOCALPART_CHARS <==> 'a' <= c <= 'z' || '0' <= c <= '9' || c in "_-.=/+"
    {
      assert c in "_-.=/+" <==> c in {'_', '-', '.', '=', '/', '+'} by { Signs(c); }
    }
  }

  lemma Signs(c: char)
    ensures c in "_-.=/+" <==> c in {'_', '-', '.', '=', '/', '+'}
  {
    var signs := "_-.=/+";
    assert signs[0] == '_' && signs[1] == '-' && signs[2] == '.' && signs[3] == '=' && signs[4] == '/' &&
           signs[5] == '+';
  }

  lemma LocalpartMatches(s: string)
    ensures Matches(LOCALPART, s) <==> s != "" && All(LOCALPART_CHARS, s)
  {
    hide Matches;
    var a, b := Class(LOCALPART_CHARS), Star(Class(LOCALPART_CHARS));
    if s != "" {
      StarClass(LOCALPART_CHARS, s[1..]);
      assert s == [s[0]] + s[1..];
    }
    if Matches(LOCALPART, s) {
      var i := Split(a, b, s);
      OneOf(LOCALPART_CHARS, s[..i]);
      assert i == 1 && s[..1][0] == s[0];
    }
    if s != "" && All(LOCALPART_CHARS, s) {
      Single(LOCALPART_CHARS, s[0]);
      Joined(a, b, [s[0]], s[1..]);
    }
  }

  /** What toMatrixId prints is recognised, and taken apart into what it was printed from. */
  lemma PrintedIds(localpart: string, serverName: string)
    requires ToMatrixId(localpart, serverName).Id?
    ensures var id := ToMatrixId(localpart, serverName).id;
      && IsMatrixId(id) && GetLocalPart(id) == Some(localpart) && IndexOf(id, ':', 1) == 1 + |localpart|
      && id[|localpart| + 2..] == serverName
  {
    hide Matches, ValidServerName;
    var id := ToMatrixId(localpart, serverName).id;
    LocalpartExactly(localpart);
    assert id[1..1 + |localpart|] == localpart;
    assert id[0..1 + |localpart|] == "@" + localpart;
    assert id[|localpart| + 2..] == serverName;
    FirstAt(id, ':', 1, 1 + |localpart|);
    FirstAt(id, ':', 0, 1 + |localpart|);
  }

  ghost predicate Prints(localpart: string, serverName: string, id: string) {
    ToMatrixId(localpart, serverName) == Id(id)
  }

  /** The recogniser accepts exactly the printed ids. */
  lemma IsMatrixIdExactly(id: string)
    ensures IsMatrixId(id) <==> exists localpart, serverName :: Prints(localpart, serverName, id)
  {
    hide Matches, ValidServerName;
    if IsMatrixId(id) {
      var colon := IndexOf(id, ':', 1);
      var localpart, serverName := id[1..colon], id[colon + 1..];
      assert id == "@" + localpart + ":" + serverName;
      assert Prints(localpart, serverName, id);
    }
    if localpart, serverName :| Prints(localpart, serverName, id) {
      PrintedIds(localpart, serverName);
    }
  }

  /** An id is printed from one localpart and server name only. */
  lemma PrintedOnce(l: string, s: string, l': string, s': string, id: string)
    requires Prints(l, s, id) && Prints(l', s', id)
    ensures l == l' && s == s' && GetLocalPart(id) == Some(l)
  {
    hide Matches, ValidServerName, IsMatrixId;
    PrintedIds(l, s);
    PrintedIds(l', s');
  }

  lemma IdHasParts(id: string) returns (l: string, host: string, port: string)
    requires IsMatrixId(id)
    ensures UserId(id, l, host, port)
  {
    hide Matches, ServerForm, ValidServerName;
    var colon := IndexOf(id, ':', 1);
    var s := id[colon + 1..];
    l := id[1..colon];
    LocalpartExactly(l);
    ServerNameExactly(s);
    host, port :| s == host + port && ServerForm(host, port);
    assert id == "@" + l + ":" + s;
    assert "@" + l + ":" + s == "@" + l + ":" + host + port;
  }

  lemma PartsMakeId(id: string, l: string, host: string, port: string)
    requires UserId(id, l, host, port)
    ensures IsMatrixId(id)
  {
    hide Matches, ServerForm, ValidServerName, IsMatrixId;
    LocalpartExactly(l);
    ServerNameExactly(host + port);
    ServerNotEmpty(host + port);
    assert id == "@" + l + ":" + (host + port);
    assert Prints(l, host + port, id);
    IsMatrixIdExactly(id);
  }

  lemma ServerNotEmpty(s: string)
    requires ValidServerName(s)
    ensures s != ""
  {
  }

  /** User ids are exactly `@localpart:host` and `@localpart:host:port` of at most 255 characters, with
      a localpart over the allowed characters, a host of one of the three kinds and a port from 1 to 65535. */
  lemma {:induction false} UserIdGrammar(id: string)
    ensures IsMatrixId(id) <==> exists l, host, port :: UserId(id, l, host, port)
  {
    hide IsMatrixId, UserId;
    if IsMatrixId(id) {
      var l, host, port := IdHasParts(id);
    }
    if l, host, port :| UserId(id, l, host, port) {
      PartsMakeId(id, l, host, port);
    }
  }

  /** A server name has a host and perhaps a port. */
  ghost predicate HasHost(s: string) {
    exists host, port :: s == host + port && ServerForm(host, port)
  }

  /** Which error toMatrixId throws, and when it returns an id. */
  lemma RefusalsExactly(l: string, s: string)
    ensures var r, length := ToMatrixId(l, s), |l| + |s| + 2;
            r == (if l == "" then EmptyLocalpart
                  else if s == "" then EmptyServerName
                  else if !LocalpartForm(l) then InvalidUsername
                  else if !HasHost(s) then InvalidServerName
                  else if length > 255 then TooLong(length)
                  else Id("@" + l + ":" + s))
  {
    hide Matches, ServerForm, ValidServerName, LocalpartForm;
    LocalpartExactly(l);
    ServerNameExactly(s);
    assert |"@" + l + ":" + s| == |l| + |s| + 2;
  }

  ghost predicate UserId(id: string, l: string, host: string, port: string) {
    && id == "@" + l + ":" + host + port && |id| <= 255
    && LocalpartForm(l) && ServerForm(host, port)
  }
}
