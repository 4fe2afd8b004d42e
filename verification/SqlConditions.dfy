/** Parameterised WHERE conditions: the token language, its SQL grammar and its three-valued meaning,
    and the printing of a disjunction of conjunctions without parentheses. */
module SqlConditions {
  import opened Options

  datatype Op = Eq | Gt | Lt | Ne

  datatype Token =
    | Where
    | Column(name: string)
    | Operator(op: Op)
    | Placeholder(n: nat)
    | AndToken
    | OrToken
    | Open
    | Close

  /** A parsed search condition; `Param` compares a column with `$n`. */
  datatype Cond =
    | Param(column: string, op: Op, n: nat)
    | Same(left: string, right: string)
    | And(l: Cond, r: Cond)
    | Or(l: Cond, r: Cond)

  // ---------------------------------------------------------------------------
  // Grammar: AND binds tighter than OR (section 8.12 of ISO/IEC 9075:1992)
  // ---------------------------------------------------------------------------

  function ParseOr(ts: seq<Token>): (r: Option<(Cond, seq<Token>)>)
    ensures r.Some? ==> |r.value.1| < |ts|
    decreases |ts|, 2
  {
    match ParseAnd(ts)
    case None => None
    case Some((c, rest)) =>
      if rest != [] && rest[0] == OrToken then
        match ParseOr(rest[1..])
        case None => None
        case Some((d, rest')) => Some((Or(c, d), rest'))
      else
        Some((c, rest))
  }

  function ParseAnd(ts: seq<Token>): (r: Option<(Cond, seq<Token>)>)
    ensures r.Some? ==> |r.value.1| < |ts|
    decreases |ts|, 1
  {
    match ParseFactor(ts)
    case None => None
    case Some((c, rest)) =>
      if rest != [] && rest[0] == AndToken then
        match ParseAnd(rest[1..])
        case None => None
        case Some((d, rest')) => Some((And(c, d), rest'))
      else
        Some((c, rest))
  }

  function ParseFactor(ts: seq<Token>): (r: Option<(Cond, seq<Token>)>)
    ensures r.Some? ==> |r.value.1| < |ts|
    decreases |ts|, 0
  {
    if ts == [] then
      None
    else if ts[0] == Open then
      match ParseOr(ts[1..])
      case None => None
      case Some((c, rest)) => if rest != [] && rest[0] == Close then Some((c, rest[1..])) else None
    else if |ts| >= 3 && ts[0].Column? && ts[1].Operator? && ts[2].Placeholder? then
      Some((Param(ts[0].name, ts[1].op, ts[2].n), ts[3..]))
    else if |ts| >= 3 && ts[0].Column? && ts[1] == Operator(Eq) && ts[2].Column? then
      Some((Same(ts[0].name, ts[2].name), ts[3..]))
    else
      None
  }

  /** What the database makes of the whole text after the table list: `None` is a syntax error,
      `Some(None)` is a query without a WHERE clause. */
  function ParseWhere(ts: seq<Token>): Option<Option<Cond>> {
    if ts == [] then
      Some(None)
    else if ts[0] != Where then
      None
    else
      match ParseOr(ts[1..])
      case None => None
      case Some((c, rest)) => if rest == [] then Some(Some(c)) else None
  }

  // ---------------------------------------------------------------------------
  // Three-valued evaluation over one row
  // ---------------------------------------------------------------------------

  datatype Truth = True | False | Unknown

  /** A database's comparison of cells; NULL cells may make it answer Unknown. `bind` turns a
      bound parameter text into a cell. */
  datatype Engine<!C> = Engine(compare: (Op, C, C) -> Truth, bind: string -> C)

  function And3(a: Truth, b: Truth): Truth {
    if a == False || b == False then False else if a == True && b == True then True else Unknown
  }

  function Or3(a: Truth, b: Truth): Truth {
    if a == True || b == True then True else if a == False && b == False then False else Unknown
  }

  /** The truth tables of AND and OR over three values. */
  lemma TruthTables(a: Truth, b: Truth)
    ensures And3(a, b) == (if a == False || b == False then False else if a == True then b else if b == True then a
                           else Unknown)
    ensures Or3(a, b) == (if a == True || b == True then True else if a == False then b else if b == False then a
                          else Unknown)
  {
  }

  predicate Binds(c: Cond, count: nat) {
    match c
    case Param(_, _, n) => 1 <= n <= count
    case Same(_, _) => true
    case And(l, r) => Binds(l, count) && Binds(r, count)
    case Or(l, r) => Binds(l, count) && Binds(r, count)
  }

  function Eval<C>(e: Engine<C>, c: Cond, values: seq<string>, row: string -> C): Truth
    requires Binds(c, |values|)
  {
    match c
    case Param(column, op, n) => e.compare(op, row(column), e.bind(values[n - 1]))
    case Same(left, right) => e.compare(Eq, row(left), row(right))
    case And(l, r) => And3(Eval(e, l, values, row), Eval(e, r, values, row))
    case Or(l, r) => Or3(Eval(e, l, values, row), Eval(e, r, values, row))
  }

  /** A SELECT returns the rows whose condition is True, neither False nor Unknown. */
  predicate Selected<C>(e: Engine<C>, c: Option<Cond>, values: seq<string>, row: string -> C)
    requires c.Some? ==> Binds(c.value, |values|)
  {
    c.Some? ==> Eval(e, c.value, values, row) == True
  }

  // ---------------------------------------------------------------------------
  // Printing a disjunction of conjunctions without parentheses
  // ---------------------------------------------------------------------------

  datatype Atom = Bound(column: string, op: Op, n: nat) | Joined(left: string, right: string)

  datatype Factor = Single(atom: Atom) | AnyOf(atoms: seq<Atom>)

  type Conj = seq<Factor>
  type Dnf = seq<Conj>

  function Separated(parts: seq<seq<Token>>, sep: Token): seq<Token> {
    if |parts| == 0 then []
    else if |parts| == 1 then parts[0]
    else parts[0] + [sep] + Separated(parts[1..], sep)
  }

  function AtomTokens(a: Atom): seq<Token> {
    match a
    case Bound(column, op, n) => [Column(column), Operator(op), Placeholder(n)]
    case Joined(left, right) => [Column(left), Operator(Eq), Column(right)]
  }

  function AtomsTokens(s: seq<Atom>): seq<Token> {
    Separated(seq(|s|, i requires 0 <= i < |s| => AtomTokens(s[i])), OrToken)
  }

  function FactorTokens(f: Factor): seq<Token> {
    match f
    case Single(a) => AtomTokens(a)
    case AnyOf(s) => [Open] + AtomsTokens(s) + [Close]
  }

  function ConjTokens(fs: Conj): seq<Token> {
    Separated(seq(|fs|, i requires 0 <= i < |fs| => FactorTokens(fs[i])), AndToken)
  }

  function DnfTokens(d: Dnf): seq<Token> {
    Separated(seq(|d|, i requires 0 <= i < |d| => ConjTokens(d[i])), OrToken)
  }

  lemma {:induction false} SeparatedSnoc(parts: seq<seq<Token>>, p: seq<Token>, sep: Token)
    ensures Separated(parts + [p], sep) == if parts == [] then p else Separated(parts, sep) + [sep] + p
  {
    if |parts| >= 1 {
      SeparatedSnoc(parts[1..], p, sep);
      assert (parts + [p])[1..] == parts[1..] + [p];
    } else {
      assert parts + [p] == [p];
    }
  }

  lemma AtomsSnoc(s: seq<Atom>, a: Atom)
    ensures AtomsTokens(s + [a]) == if s == [] then AtomTokens(a) else AtomsTokens(s) + [OrToken] + AtomTokens(a)
  {
    var t := s + [a];
    var parts := seq(|s|, i requires 0 <= i < |s| => AtomTokens(s[i]));
    SeparatedSnoc(parts, AtomTokens(a), OrToken);
    assert seq(|t|, i requires 0 <= i < |t| => AtomTokens(t[i])) == parts + [AtomTokens(a)];
  }

  lemma ConjSnoc(fs: Conj, f: Factor)
    ensures ConjTokens(fs + [f]) == if fs == [] then FactorTokens(f) else ConjTokens(fs) + [AndToken] + FactorTokens(f)
  {
    var t := fs + [f];
    var parts := seq(|fs|, i requires 0 <= i < |fs| => FactorTokens(fs[i]));
    SeparatedSnoc(parts, FactorTokens(f), AndToken);
    assert seq(|t|, i requires 0 <= i < |t| => FactorTokens(t[i])) == parts + [FactorTokens(f)];
  }

  lemma DnfSnoc(d: Dnf, c: Conj)
    ensures DnfTokens(d + [c]) == if d == [] then ConjTokens(c) else DnfTokens(d) + [OrToken] + ConjTokens(c)
  {
    var t := d + [c];
    var parts := seq(|d|, i requires 0 <= i < |d| => ConjTokens(d[i]));
    SeparatedSnoc(parts, ConjTokens(c), OrToken);
    assert seq(|t|, i requires 0 <= i < |t| => ConjTokens(t[i])) == parts + [ConjTokens(c)];
  }

  /** Two non-empty conjunctions written one after the other with AND are one conjunction. */
  lemma {:induction false} ConjAppend(a: Conj, b: Conj)
    requires a != [] && b != []
    ensures ConjTokens(a + b) == ConjTokens(a) + [AndToken] + ConjTokens(b)
  {
    hide ConjTokens, FactorTokens;
    var init, last := b[..|b| - 1], b[|b| - 1];
    assert b == init + [last] && a + b == (a + init) + [last];
    ConjSnoc(a + init, last);
    ConjSnoc(init, last);
    if init == [] {
      assert a + init == a;
    } else {
      ConjAppend(a, init);
      assert ConjTokens(a + init) + [AndToken] + FactorTokens(last)
          == ConjTokens(a) + [AndToken] + (ConjTokens(init) + [AndToken] + FactorTokens(last));
    }
  }

  // ---------------------------------------------------------------------------
  // Parsing gives back what was printed
  // ---------------------------------------------------------------------------

  function AtomCond(a: Atom): Cond {
    match a
    case Bound(column, op, n) => Param(column, op, n)
    case Joined(left, right) => Same(left, right)
  }

  function AtomsCond(s: seq<Atom>): Cond
    requires s != []
  {
    if |s| == 1 then AtomCond(s[0]) else Or(AtomCond(s[0]), AtomsCond(s[1..]))
  }

  predicate WellFormedConj(fs: Conj) {
    fs != [] && forall i :: 0 <= i < |fs| ==> (fs[i].AnyOf? ==> fs[i].atoms != [])
  }

  predicate WellFormed(d: Dnf) {
    d != [] && forall i :: 0 <= i < |d| ==> WellFormedConj(d[i])
  }

  function FactorCond(f: Factor): Cond
    requires f.AnyOf? ==> f.atoms != []
  {
    match f
    case Single(a) => AtomCond(a)
    case AnyOf(s) => AtomsCond(s)
  }

  function ConjCond(fs: Conj): Cond
    requires WellFormedConj(fs)
  {
    if |fs| == 1 then FactorCond(fs[0]) else And(FactorCond(fs[0]), ConjCond(fs[1..]))
  }

  function DnfCond(d: Dnf): Cond
    requires WellFormed(d)
  {
    if |d| == 1 then ConjCond(d[0]) else Or(ConjCond(d[0]), DnfCond(d[1..]))
  }

  predicate Starts(ts: seq<Token>, t: Token) {
    ts != [] && ts[0] == t
  }

  lemma ParseAtom(a: Atom, rest: seq<Token>)
    ensures ParseFactor(AtomTokens(a) + rest) == Some((AtomCond(a), rest))
  {
    var ts := AtomTokens(a) + rest;
    assert ts[3..] == rest;
  }

  lemma {:induction false} ParseAtoms(s: seq<Atom>, rest: seq<Token>)
    requires s != [] && !Starts(rest, AndToken) && !Starts(rest, OrToken)
    ensures ParseOr(AtomsTokens(s) + rest) == Some((AtomsCond(s), rest))
  {
    var parts := seq(|s|, i requires 0 <= i < |s| => AtomTokens(s[i]));
    if |s| == 1 {
      ParseAtom(s[0], rest);
      assert AtomsTokens(s) == AtomTokens(s[0]);
    } else {
      var tail := s[1..];
      assert seq(|tail|, i requires 0 <= i < |tail| => AtomTokens(tail[i])) == parts[1..];
      assert AtomsTokens(s) + rest == AtomTokens(s[0]) + ([OrToken] + (AtomsTokens(tail) + rest));
      ParseAtom(s[0], [OrToken] + (AtomsTokens(tail) + rest));
      ParseAtoms(tail, rest);
      assert ([OrToken] + (AtomsTokens(tail) + rest))[1..] == AtomsTokens(tail) + rest;
    }
  }

  lemma ParseFactorTokens(f: Factor, rest: seq<Token>)
    requires f.AnyOf? ==> f.atoms != []
    ensures ParseFactor(FactorTokens(f) + rest) == Some((FactorCond(f), rest))
  {
    match f
    case Single(a) => ParseAtom(a, rest);
    case AnyOf(s) =>
      ParseAtoms(s, [Close] + rest);
      var ts := FactorTokens(f) + rest;
      assert ts[1..] == AtomsTokens(s) + ([Close] + rest);
      assert ([Close] + rest)[1..] == rest;
  }

  /** The tokens of a longer conjunction: the first factor, AND, and the tokens of the others. */
  lemma ConjCons(fs: Conj)
    requires |fs| >= 2
    ensures ConjTokens(fs) == FactorTokens(fs[0]) + ([AndToken] + ConjTokens(fs[1..]))
  {
    hide FactorTokens;
    var tail := fs[1..];
    assert seq(|tail|, i requires 0 <= i < |tail| => FactorTokens(tail[i]))
        == seq(|fs|, i requires 0 <= i < |fs| => FactorTokens(fs[i]))[1..];
  }

  lemma DnfCons(d: Dnf)
    requires |d| >= 2
    ensures DnfTokens(d) == ConjTokens(d[0]) + ([OrToken] + DnfTokens(d[1..]))
  {
    var tail := d[1..];
    assert seq(|tail|, i requires 0 <= i < |tail| => ConjTokens(tail[i]))
        == seq(|d|, i requires 0 <= i < |d| => ConjTokens(d[i]))[1..];
  }

  lemma {:induction false} ParseConj(fs: Conj, rest: seq<Token>)
    requires WellFormedConj(fs) && !Starts(rest, AndToken)
    ensures ParseAnd(ConjTokens(fs) + rest) == Some((ConjCond(fs), rest))
  {
    if |fs| == 1 {
      ParseFactorTokens(fs[0], rest);
      assert ConjTokens(fs) == FactorTokens(fs[0]);
    } else {
      var tail := fs[1..];
      var after := [AndToken] + (ConjTokens(tail) + rest);
      ConjCons(fs);
      assert ConjTokens(fs) + rest == FactorTokens(fs[0]) + after;
      ParseFactorTokens(fs[0], after);
      ParseConj(tail, rest);
      assert after[1..] == ConjTokens(tail) + rest;
    }
  }

  lemma {:induction false} ParseDnf(d: Dnf, rest: seq<Token>)
    requires WellFormed(d) && !Starts(rest, AndToken) && !Starts(rest, OrToken)
    ensures ParseOr(DnfTokens(d) + rest) == Some((DnfCond(d), rest))
  {
    if |d| == 1 {
      ParseConj(d[0], rest);
      assert DnfTokens(d) == ConjTokens(d[0]);
    } else {
      var tail := d[1..];
      var after := [OrToken] + (DnfTokens(tail) + rest);
      DnfCons(d);
      assert DnfTokens(d) + rest == ConjTokens(d[0]) + after;
      ParseConj(d[0], after);
      ParseDnf(tail, rest);
      assert after[1..] == DnfTokens(tail) + rest;
    }
  }

  /** A text that breaks off after AND is not a search condition. */
  lemma {:induction false} DanglingConj(fs: Conj)
    requires WellFormedConj(fs)
    ensures ParseAnd(ConjTokens(fs) + [AndToken]) == None
  {
    var rest := [AndToken];
    if |fs| == 1 {
      ParseFactorTokens(fs[0], rest);
      assert ConjTokens(fs) == FactorTokens(fs[0]);
      assert ParseFactor(rest[1..]) == None;
    } else {
      var tail := fs[1..];
      var after := [AndToken] + (ConjTokens(tail) + rest);
      ConjCons(fs);
      assert ConjTokens(fs) + rest == FactorTokens(fs[0]) + after;
      ParseFactorTokens(fs[0], after);
      DanglingConj(tail);
      assert after[1..] == ConjTokens(tail) + rest;
    }
  }

  lemma {:induction false} DanglingDnf(d: Dnf)
    requires WellFormed(d)
    ensures ParseOr(DnfTokens(d) + [AndToken]) == None
  {
    if |d| == 1 {
      DanglingConj(d[0]);
      assert DnfTokens(d) == ConjTokens(d[0]);
    } else {
      var tail := d[1..];
      var after := [OrToken] + (DnfTokens(tail) + [AndToken]);
      DnfCons(d);
      assert DnfTokens(d) + [AndToken] == ConjTokens(d[0]) + after;
      ParseConj(d[0], after);
      DanglingDnf(tail);
      assert after[1..] == DnfTokens(tail) + [AndToken];
    }
  }

  // ---------------------------------------------------------------------------
  // The meaning of a printed disjunction of conjunctions
  // ---------------------------------------------------------------------------

  predicate AtomBinds(a: Atom, count: nat) {
    a.Bound? ==> 1 <= a.n <= count
  }

  predicate FactorBinds(f: Factor, count: nat) {
    match f
    case Single(a) => AtomBinds(a, count)
    case AnyOf(s) => s != [] && forall i :: 0 <= i < |s| ==> AtomBinds(s[i], count)
  }

  predicate AtomHolds<C>(e: Engine<C>, a: Atom, values: seq<string>, row: string -> C)
    requires AtomBinds(a, |values|)
  {
    match a
    case Bound(column, op, n) => e.compare(op, row(column), e.bind(values[n - 1])) == True
    case Joined(left, right) => e.compare(Eq, row(left), row(right)) == True
  }

  predicate FactorHolds<C>(e: Engine<C>, f: Factor, values: seq<string>, row: string -> C)
    requires FactorBinds(f, |values|)
  {
    match f
    case Single(a) => AtomHolds(e, a, values, row)
    case AnyOf(s) => exists i :: 0 <= i < |s| && AtomHolds(e, s[i], values, row)
  }

  predicate ConjHolds<C>(e: Engine<C>, fs: Conj, values: seq<string>, row: string -> C)
    requires forall i :: 0 <= i < |fs| ==> FactorBinds(fs[i], |values|)
  {
    forall i :: 0 <= i < |fs| ==> FactorHolds(e, fs[i], values, row)
  }

  predicate DnfBinds(d: Dnf, count: nat) {
    forall i, j :: 0 <= i < |d| && 0 <= j < |d[i]| ==> FactorBinds(d[i][j], count)
  }

  predicate DnfHolds<C>(e: Engine<C>, d: Dnf, values: seq<string>, row: string -> C)
    requires DnfBinds(d, |values|)
  {
    exists i :: 0 <= i < |d| && ConjHolds(e, d[i], values, row)
  }

  lemma {:induction false} AtomsMeaning<C>(e: Engine<C>, s: seq<Atom>, values: seq<string>, row: string -> C)
    requires FactorBinds(AnyOf(s), |values|)
    ensures Binds(AtomsCond(s), |values|)
    ensures Eval(e, AtomsCond(s), values, row) == True <==> FactorHolds(e, AnyOf(s), values, row)
  {
    if |s| == 1 {
      assert FactorHolds(e, AnyOf(s), values, row) <==> AtomHolds(e, s[0], values, row);
    } else {
      var t := s[1..];
      assert forall i :: 0 <= i < |t| ==> t[i] == s[i + 1];
      AtomsMeaning(e, t, values, row);
      if i :| 0 <= i < |s| && AtomHolds(e, s[i], values, row) {
        assert i == 0 || t[i - 1] == s[i];
      }
      if i :| 0 <= i < |t| && AtomHolds(e, t[i], values, row) {
        assert s[i + 1] == t[i];
      }
    }
  }

  lemma {:induction false} ConjMeaning<C>(e: Engine<C>, fs: Conj, values: seq<string>, row: string -> C)
    requires WellFormedConj(fs)
    requires forall i :: 0 <= i < |fs| ==> FactorBinds(fs[i], |values|)
    ensures Binds(ConjCond(fs), |values|)
    ensures Eval(e, ConjCond(fs), values, row) == True <==> ConjHolds(e, fs, values, row)
  {
    if fs[0].AnyOf? {
      AtomsMeaning(e, fs[0].atoms, values, row);
    }
    assert Eval(e, FactorCond(fs[0]), values, row) == True <==> FactorHolds(e, fs[0], values, row);
    if |fs| > 1 {
      var t := fs[1..];
      assert forall i :: 0 <= i < |t| ==> t[i] == fs[i + 1];
      ConjMeaning(e, t, values, row);
      if ConjHolds(e, t, values, row) && FactorHolds(e, fs[0], values, row) {
        forall i | 0 <= i < |fs| ensures FactorHolds(e, fs[i], values, row) {
          assert i == 0 || t[i - 1] == fs[i];
        }
      }
    }
  }

  lemma {:induction false} DnfMeaning<C>(e: Engine<C>, d: Dnf, values: seq<string>, row: string -> C)
    requires WellFormed(d) && DnfBinds(d, |values|)
    ensures Binds(DnfCond(d), |values|)
    ensures Eval(e, DnfCond(d), values, row) == True <==> DnfHolds(e, d, values, row)
  {
    ConjMeaning(e, d[0], values, row);
    if |d| == 1 {
      assert DnfHolds(e, d, values, row) <==> ConjHolds(e, d[0], values, row);
    } else {
      var t := d[1..];
      assert forall i :: 0 <= i < |t| ==> t[i] == d[i + 1];
      DnfMeaning(e, t, values, row);
      if i :| 0 <= i < |d| && ConjHolds(e, d[i], values, row) {
        assert i == 0 || t[i - 1] == d[i];
      }
      if i :| 0 <= i < |t| && ConjHolds(e, t[i], values, row) {
        assert d[i + 1] == t[i];
      }
    }
  }
}
