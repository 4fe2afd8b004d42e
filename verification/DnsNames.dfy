/** The DNS name expression and its three lookaheads, proved to accept exactly the dotted labels. Labels are
    letters, digits and inner hyphens, as in host names. */
module DnsNames {
  import opened Regex
  import opened HostNames

  const LDH := ALNUM + {'-'}
  const LABEL_TAIL := Then(Repeat(Class(LDH), 0, 61), Class(ALNUM))
  const LABEL := Then(Class(ALNUM), Optional(LABEL_TAIL))
  const DNS_BODY := Then(Star(Suffixed(LABEL, '.')), LABEL)

  predicate LineTerminator(c: char) {
    c == '\n' || c == '\r' || c == '\U{2028}' || c == '\U{2029}'
  }

  /** What `.*` can run over. */
  predicate OneLine(s: string) {
    forall i :: 0 <= i < |s| ==> !LineTerminator(s[i])
  }

  predicate DoubleDotAhead(h: string) {
    exists i :: 0 <= i < |h| - 1 && OneLine(h[..i]) && h[i] == '.' && h[i + 1] == '.'
  }

  predicate TrailingHyphenAhead(h: string) {
    h != "" && OneLine(h[..|h| - 1]) && h[|h| - 1] == '-'
  }

  predicate LeadingHyphenAhead(h: string) {
    h != "" && h[0] == '-'
  }

  /** DNS_NAME_REGEX. */
  ghost predicate DnsName(h: string) {
    !DoubleDotAhead(h) && !TrailingHyphenAhead(h) && !LeadingHyphenAhead(h) && Matches(DNS_BODY, h)
  }

  /** A label: 1 to 63 letters, digits and hyphens, no hyphen at either end. */
  predicate Label(s: string) {
    && 1 <= |s| <= 63 && IsAlnum(s[0]) && IsAlnum(s[|s| - 1])
    && forall i :: 0 <= i < |s| ==> IsAlnum(s[i]) || s[i] == '-'
  }

  ghost predicate DnsForm(h: string) {
    exists gs :: gs != [] && (forall g :: g in gs ==> Label(g)) && h == Join(gs, '.')
  }

  lemma TailParts(init: string, last: char)
    requires |init| <= 61 && All(LDH, init) && last in ALNUM
    ensures Matches(LABEL_TAIL, init + [last])
  {
    hide Matches, All;
    RepeatClass(LDH, 0, 61, init);
    Single(ALNUM, last);
    Joined(Repeat(Class(LDH), 0, 61), Class(ALNUM), init, [last]);
  }

  lemma PartsOfTail(s: string) returns (init: string, last: char)
    requires Matches(LABEL_TAIL, s)
    ensures s == init + [last] && |init| <= 61 && All(LDH, init) && last in ALNUM
  {
    hide Matches, All;
    var i := Split(Repeat(Class(LDH), 0, 61), Class(ALNUM), s);
    init := s[..i];
    OneOf(ALNUM, s[i..]);
    RepeatClass(LDH, 0, 61, init);
    last := s[i..][0];
    assert s[i..] == [last];
  }

  lemma TailMatches(s: string)
    ensures Matches(LABEL_TAIL, s) <==> 1 <= |s| <= 62 && All(LDH, s[..|s| - 1]) && s[|s| - 1] in ALNUM
  {
    hide Matches, All;
    if Matches(LABEL_TAIL, s) {
      var init, last := PartsOfTail(s);
      assert s[..|s| - 1] == init && s[|s| - 1] == last;
    }
    if 1 <= |s| <= 62 && All(LDH, s[..|s| - 1]) && s[|s| - 1] in ALNUM {
      TailParts(s[..|s| - 1], s[|s| - 1]);
      assert s == s[..|s| - 1] + [s[|s| - 1]];
    }
  }

  lemma LabelMatches(s: string)
    ensures Matches(LABEL, s) <==> Label(s)
  {
    hide Matches;
    if s != "" {
      TailMatches(s[1..]);
      OptionalMatches(LABEL_TAIL, s[1..]);
      assert s == [s[0]] + s[1..];
    }
    if Matches(LABEL, s) {
      var i := Split(Class(ALNUM), Optional(LABEL_TAIL), s);
      OneOf(ALNUM, s[..i]);
      assert i == 1 && s[..1][0] == s[0];
      if s[1..] != "" {
        assert forall j :: 1 <= j < |s| - 1 ==> s[1..][..|s| - 2][j - 1] == s[j];
      }
    }
    if Label(s) {
      Single(ALNUM, s[0]);
      Joined(Class(ALNUM), Optional(LABEL_TAIL), [s[0]], s[1..]);
    }
  }

  lemma BodyMatches(h: string)
    ensures Matches(DNS_BODY, h) <==> DnsForm(h)
  {
    hide Matches, Label, Left, Join;
    forall g: string ensures Matches(LABEL, g) <==> Label(g) {
      LabelMatches(g);
    }
    var a := Star(Suffixed(LABEL, '.'));
    if Matches(DNS_BODY, h) {
      var i := Split(a, LABEL, h);
      StarSuffixed(LABEL, '.', h[..i]);
      var gs :| AllMatch(LABEL, gs) && h[..i] == Left(gs, '.');
      LeftThenLast(gs, h[i..], '.');
      assert gs + [h[i..]] != [] && forall g :: g in gs + [h[i..]] ==> Label(g);
    }
    if gs :| gs != [] && (forall g :: g in gs ==> Label(g)) && h == Join(gs, '.') {
      var init, last := gs[..|gs| - 1], gs[|gs| - 1];
      StarSuffixed(LABEL, '.', Left(init, '.'));
      assert AllMatch(LABEL, init);
      LeftThenLast(init, last, '.');
      assert gs == init + [last];
      Joined(a, LABEL, Left(init, '.'), last);
    }
  }

  /** Dotted labels start and end with a letter or digit and have no two dots in a row. */
  lemma {:induction false} DottedLabels(gs: seq<string>)
    requires gs != [] && forall g :: g in gs ==> Label(g)
    ensures var h := Join(gs, '.');
      && h != "" && h[0] in ALNUM && h[|h| - 1] in ALNUM
      && (forall i :: 0 <= i < |h| - 1 ==> h[i] != '.' || h[i + 1] != '.')
  {
    assert Label(gs[0]);
    assert All(LDH, gs[0]);
    if |gs| > 1 {
      var rest := Join(gs[1..], '.');
      DottedLabels(gs[1..]);
      var h := Join(gs, '.');
      assert h == gs[0] + ['.'] + rest;
      forall i | 0 <= i < |h| - 1 ensures h[i] != '.' || h[i + 1] != '.' {
        if i < |gs[0]| {
          assert h[i] == gs[0][i];
        } else if i == |gs[0]| {
          assert h[i + 1] == rest[0];
        } else {
          assert h[i] == rest[i - |gs[0]| - 1] && h[i + 1] == rest[i - |gs[0]|];
        }
      }
    }
  }

  /** DNS_NAME_REGEX accepts exactly the dotted labels: none of its lookaheads ever rejects anything
      that the rest of the expression accepts. */
  lemma DnsExactly(h: string)
    ensures DnsName(h) <==> DnsForm(h)
  {
    BodyMatches(h);
    if gs :| gs != [] && (forall g :: g in gs ==> Label(g)) && h == Join(gs, '.') {
      DottedLabels(gs);
    }
  }

  lemma DnsAlphabet(h: string)
    requires DnsName(h)
    ensures h != "" && ':' !in h && h[0] != '['
  {
    BodyMatches(h);
    var gs :| gs != [] && (forall g :: g in gs ==> Label(g)) && h == Join(gs, '.');
    DottedLabels(gs);
    forall g | g in gs ensures All(LDH + {'.'}, g) {
      assert Label(g);
    }
    JoinOver(gs, '.', LDH + {'.'});
  }
}
