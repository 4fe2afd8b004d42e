/** The WHERE text of every query selects the rows its filter records describe. */
module SqlMeaning {
  import opened Options
  import opened SqlConditions
  import opened SqlQueries

  /** A conjunction whose factors bind parameters among the first `count` values. */
  predicate Sound(fs: Conj, count: nat) {
    forall i :: 0 <= i < |fs| ==> FactorBinds(fs[i], count)
  }

  /** The text of one record reads its own values, wherever they lie in the shared vector, and
      holds exactly when every kept key has one of its values. */
  lemma {:induction false} GroupMeaning<C>(
    e: Engine<C>, cell: Scalar -> C, op: Op, filter: Filter, values: seq<string>, start: nat, row: string -> C)
    requires Binding(e, cell) && start + |GroupValues(filter)| <= |values|
    requires values[start..start + |GroupValues(filter)|] == GroupValues(filter)
    ensures Sound(GroupFactors(op, filter, start), |values|)
    ensures ConjHolds(e, GroupFactors(op, filter, start), values, row) <==> RecordHolds(e, cell, op, filter, row)
  {
    if filter != [] {
      var init, last := filter[..|filter| - 1], filter[|filter| - 1];
      assert filter == init + [last];
      GroupUnfold(op, init, last, start);
      var n := |GroupValues(init)|;
      hide GroupFactors, GroupValues, ConjHolds, RecordHolds, KeyHolds, FactorHolds, Kept, Filters, KeyFactor,
        KeyValues, Binding;
      KeptExactly(last.1);
      assert values[start..start + n] == GroupValues(filter)[..n] == GroupValues(init);
      GroupMeaning(e, cell, op, init, values, start, row);
      if Kept(last.1) {
        assert values[start + n..start + n + |KeyValues(last.1)|] == GroupValues(filter)[n..] == KeyValues(last.1);
        KeyMeaning(e, cell, op, last.0, last.1, values, start + n, row);
        ConjSnocMeaning(e, GroupFactors(op, init, start), KeyFactor(last.0, op, last.1, start + n), values, row);
      }
      RecordSnoc(e, cell, op, init, last, row);
    }
  }

  lemma GroupUnfold(op: Op, init: Filter, last: (string, FilterValue), start: nat)
    ensures GroupValues(init + [last]) ==
            GroupValues(init) + if Kept(last.1) then KeyValues(last.1) else []
    ensures GroupFactors(op, init + [last], start) ==
            GroupFactors(op, init, start) +
            if Kept(last.1) then [KeyFactor(last.0, op, last.1, start + |GroupValues(init)|)] else []
  {
    assert (init + [last])[..|init|] == init;
  }

  lemma ConjSnocMeaning<C>(e: Engine<C>, fs: Conj, f: Factor, values: seq<string>, row: string -> C)
    requires Sound(fs, |values|) && FactorBinds(f, |values|)
    ensures Sound(fs + [f], |values|)
    ensures ConjHolds(e, fs + [f], values, row) <==> ConjHolds(e, fs, values, row) && FactorHolds(e, f, values, row)
  {
    ConjAppendMeaning(e, fs, [f], values, row);
    assert [f][0] == f;
  }

  lemma RecordSnoc<C>(
    e: Engine<C>, cell: Scalar -> C, op: Op, init: Filter, last: (string, FilterValue), row: string -> C)
    ensures RecordHolds(e, cell, op, init + [last], row) <==>
            RecordHolds(e, cell, op, init, row) && (Filters(last.1) ==> KeyHolds(e, cell, op, last.0, last.1, row))
  {
    var filter := init + [last];
    assert filter[|init|] == last;
    assert forall i :: 0 <= i < |init| ==> filter[i] == init[i];
  }

  lemma KeyMeaning<C>(
    e: Engine<C>, cell: Scalar -> C, op: Op, key: string, v: FilterValue, values: seq<string>, start: nat,
    row: string -> C)
    requires Binding(e, cell) && Kept(v) && start + |KeyValues(v)| <= |values|
    requires values[start..start + |KeyValues(v)|] == KeyValues(v)
    ensures FactorBinds(KeyFactor(key, op, v, start), |values|)
    ensures FactorHolds(e, KeyFactor(key, op, v, start), values, row) <==> KeyHolds(e, cell, op, key, v, row)
  {
    hide Text, Binding;
    var slice := values[start..start + |KeyValues(v)|];
    if v.One? {
      assert slice[0] == values[start] == Text(v.v);
      OwnText(e, cell, v.v);
    } else {
      var atoms := KeyFactor(key, op, v, start).atoms;
      forall i | 0 <= i < |v.vs|
        ensures AtomHolds(e, atoms[i], values, row) <==> e.compare(op, row(key), cell(v.vs[i])) == True
      {
        assert slice[i] == values[start + i] == Text(v.vs[i]);
        assert atoms[i] == Bound(key, op, start + 1 + i);
        OwnText(e, cell, v.vs[i]);
      }
      if i :| 0 <= i < |v.vs| && e.compare(op, row(key), cell(v.vs[i])) == True {
        assert AtomHolds(e, atoms[i], values, row);
      }
    }
  }

  lemma OwnText<C>(e: Engine<C>, cell: Scalar -> C, v: Scalar)
    requires Binding(e, cell)
    ensures e.bind(Text(v)) == cell(v)
  {
    TextDenotes(v, Text(v));
  }

  /** Every database has cells for the values that callers give. */
  function Own<C>(e: Engine<C>): Scalar -> C {
    v => e.bind(Text(v))
  }

  lemma OwnCells<C>(e: Engine<C>)
    ensures Binding(e, Own(e))
  {
    forall t, v | Denotes(t, v) ensures e.bind(t) == Own(e)(v) {
      TextDenotes(v, t);
    }
  }

  lemma {:induction false} JoinMeaning<C>(e: Engine<C>, join: JoinRecord, values: seq<string>, row: string -> C)
    ensures Sound(JoinFactors(join), |values|)
    ensures ConjHolds(e, JoinFactors(join), values, row) <==> JoinHolds(e, join, row)
  {
    if join != [] {
      var init, last := join[..|join| - 1], join[|join| - 1];
      assert join == init + [last];
      JoinMeaning(e, init, values, row);
      JoinKeptExactly(last.1);
      var fs := JoinFactors(init);
      if JoinKept(last.1) {
        var f := Single(Joined(last.0, last.1.value));
        assert JoinFactors(join) == fs + [f];
        assert (fs + [f])[|fs|] == f;
        assert forall i :: 0 <= i < |fs| ==> (fs + [f])[i] == fs[i];
      }
      assert join[|init|] == last;
      assert forall i :: 0 <= i < |init| ==> join[i] == init[i];
    }
  }

  /** A group prints nothing exactly when it has no kept key. */
  lemma {:induction false} GroupPresent(op: Op, filter: Filter, start: nat)
    ensures GroupFactors(op, filter, start) != [] <==> HasKept(filter)
    ensures GroupFactors(op, filter, start) != [] ==> WellFormedConj(GroupFactors(op, filter, start))
  {
    hide Text;
    if filter != [] {
      KeptExactly(filter[|filter| - 1].1);
      var init, last := filter[..|filter| - 1], filter[|filter| - 1];
      GroupPresent(op, init, start);
      if i :| 0 <= i < |init| && Filters(init[i].1) {
        assert Filters(filter[i].1);
      }
      if i :| 0 <= i < |filter| && Filters(filter[i].1) {
        assert i == |init| || Filters(init[i].1);
      }
    }
  }

  lemma {:induction false} JoinPresent(join: JoinRecord)
    ensures JoinFactors(join) != [] <==> HasJoinKept(join)
    ensures JoinFactors(join) != [] ==> WellFormedConj(JoinFactors(join))
  {
    if join != [] {
      JoinKeptExactly(join[|join| - 1].1);
      var init := join[..|join| - 1];
      JoinPresent(init);
      if i :| 0 <= i < |init| && JoinFilters(init[i].1) {
        assert JoinFilters(join[i].1);
      }
      if i :| 0 <= i < |join| && JoinFilters(join[i].1) {
        assert i == |init| || JoinFilters(init[i].1);
      }
    }
  }

  /** The truth of a condition that may be empty: no condition keeps every row. */
  predicate Keeps<C>(e: Engine<C>, d: Dnf, values: seq<string>, row: string -> C)
    requires DnfBinds(d, |values|)
  {
    d == [] || DnfHolds(e, d, values, row)
  }

  /** AND narrows the last alternative only; OR adds an alternative. */
  lemma AttachMeaning<C>(e: Engine<C>, d: Dnf, l: Link, g: Conj, values: seq<string>, row: string -> C)
    requires DnfBinds(d, |values|) && Sound(g, |values|)
    requires d == [] || WellFormed(d)
    requires g == [] || WellFormedConj(g)
    ensures DnfBinds(Attach(d, l, g), |values|)
    ensures Attach(d, l, g) == [] || WellFormed(Attach(d, l, g))
    ensures g != [] && d == [] ==> (Keeps(e, Attach(d, l, g), values, row) <==> ConjHolds(e, g, values, row))
    ensures g != [] && d != [] && l.LinkOr? ==>
              (Keeps(e, Attach(d, l, g), values, row) <==>
               Keeps(e, d, values, row) || ConjHolds(e, g, values, row))
    ensures g != [] && |d| == 1 && l.LinkAnd? ==>
              (Keeps(e, Attach(d, l, g), values, row) <==>
               Keeps(e, d, values, row) && ConjHolds(e, g, values, row))
  {
    hide FactorHolds, FactorBinds, ConjHolds;
    if g != [] && d == [] {
      assert Attach(d, l, g) == [g];
      assert DnfHolds(e, [g], values, row) <==> ConjHolds(e, [g][0], values, row);
    } else if g != [] && l.LinkOr? {
      var d' := d + [g];
      assert d'[|d|] == g && forall i :: 0 <= i < |d| ==> d'[i] == d[i];
      if ConjHolds(e, g, values, row) {
        assert ConjHolds(e, d'[|d|], values, row);
      }
      if i :| 0 <= i < |d| && ConjHolds(e, d[i], values, row) {
        assert ConjHolds(e, d'[i], values, row);
      }
    } else if g != [] {
      var last := d[|d| - 1];
      var both := last + g;
      assert forall i :: 0 <= i < |last| ==> both[i] == last[i];
      assert forall i :: 0 <= i < |g| ==> both[|last| + i] == g[i];
      assert forall i :: |last| <= i < |both| ==> both[i] == g[i - |last|];
      if |d| == 1 {
        assert Attach(d, l, g) == [both] && d[0] == last;
        assert DnfHolds(e, [both], values, row) <==> ConjHolds(e, [both][0], values, row);
        assert DnfHolds(e, d, values, row) <==> ConjHolds(e, d[0], values, row);
        ConjAppendMeaning(e, last, g, values, row);
      }
    }
  }

  lemma ConjAppendMeaning<C>(e: Engine<C>, a: Conj, b: Conj, values: seq<string>, row: string -> C)
    requires Sound(a, |values|) && Sound(b, |values|)
    ensures Sound(a + b, |values|)
    ensures ConjHolds(e, a + b, values, row) <==> ConjHolds(e, a, values, row) && ConjHolds(e, b, values, row)
  {
    var both := a + b;
    assert forall i :: 0 <= i < |a| ==> both[i] == a[i];
    assert forall i :: 0 <= i < |b| ==> both[|a| + i] == b[i];
    assert forall i :: |a| <= i < |both| ==> both[i] == b[i - |a|];
  }

  // ---------------------------------------------------------------------------
  // The general builder
  // ---------------------------------------------------------------------------

  lemma GroupsLookedAt(q: Query)
    ensures Record1(q) == match (q.op1, q.filter1) { case (Some(_), Some(f)) => f case _ => [] }
    ensures Record2(q) == match (q.link1, q.op2, q.filter2) { case (Some(_), Some(_), Some(f)) => f case _ => [] }
    ensures Record3(q) == match (q.link2, q.op3, q.filter3) { case (Some(_), Some(_), Some(f)) => f case _ => [] }
  {
  }

  /** Each group reads its own slice of the values. It is looked at when its operator and its record, and for the second
      and third their link, are given. */
  lemma GroupsMeaning<C>(e: Engine<C>, cell: Scalar -> C, q: Query, row: string -> C)
    requires Binding(e, cell)
    ensures Sound(Factors1(q), |Values(q)|) && Sound(Factors2(q), |Values(q)|) && Sound(Factors3(q), |Values(q)|)
    ensures ConjHolds(e, Factors1(q), Values(q), row) <==> RecordHolds(e, cell, OpOr(q.op1), Record1(q), row)
    ensures ConjHolds(e, Factors2(q), Values(q), row) <==> RecordHolds(e, cell, OpOr(q.op2), Record2(q), row)
    ensures ConjHolds(e, Factors3(q), Values(q), row) <==> RecordHolds(e, cell, OpOr(q.op3), Record3(q), row)
    ensures Record1(q) == match (q.op1, q.filter1) { case (Some(_), Some(f)) => f case _ => [] }
    ensures Record2(q) == match (q.link1, q.op2, q.filter2) { case (Some(_), Some(_), Some(f)) => f case _ => [] }
    ensures Record3(q) == match (q.link2, q.op3, q.filter3) { case (Some(_), Some(_), Some(f)) => f case _ => [] }
  {
    GroupsLookedAt(q);
    hide GroupFactors, GroupValues, RecordHolds, ConjHolds, Record1, Record2, Record3, Binding;
    var v1, v2, v3 := GroupValues(Record1(q)), GroupValues(Record2(q)), GroupValues(Record3(q));
    var values := Values(q);
    assert values[0..|v1|] == v1;
    assert values[|v1|..|v1| + |v2|] == v2;
    assert values[|v1| + |v2|..|v1| + |v2| + |v3|] == v3;
    GroupMeaning(e, cell, OpOr(q.op1), Record1(q), values, 0, row);
    GroupMeaning(e, cell, OpOr(q.op2), Record2(q), values, |v1|, row);
    GroupMeaning(e, cell, OpOr(q.op3), Record3(q), values, |v1| + |v2|, row);
  }

  lemma GroupsPresent(q: Query)
    ensures Factors1(q) != [] <==> HasKept(Record1(q))
    ensures Factors2(q) != [] <==> HasKept(Record2(q))
    ensures Factors3(q) != [] <==> HasKept(Record3(q))
    ensures Factors1(q) != [] ==> WellFormedConj(Factors1(q))
    ensures Factors2(q) != [] ==> WellFormedConj(Factors2(q))
    ensures Factors3(q) != [] ==> WellFormedConj(Factors3(q))
  {
    GroupPresent(OpOr(q.op1), Record1(q), 0);
    GroupPresent(OpOr(q.op2), Record2(q), |GroupValues(Record1(q))|);
    GroupPresent(OpOr(q.op3), Record3(q), |GroupValues(Record1(q))| + |GroupValues(Record2(q))|);
  }

  lemma FullDnfSound<C>(e: Engine<C>, q: Query, row: string -> C)
    ensures DnfBinds(Groups(q), |Values(q)|) && DnfBinds(FullDnf(q), |Values(q)|)
    ensures Groups(q) == [] || WellFormed(Groups(q))
    ensures FullDnf(q) == [] || WellFormed(FullDnf(q))
  {
    hide GroupFactors, JoinFactors, GroupValues, Attach, ConjHolds, DnfHolds;
    OwnCells(e);
    GroupsMeaning(e, Own(e), q, row);
    GroupsPresent(q);
    AttachMeaning(e, [], LinkAnd, Factors1(q), Values(q), row);
    AttachMeaning(e, Attach([], LinkAnd, Factors1(q)), LinkOf(q.link1), Factors2(q), Values(q), row);
    AttachMeaning(e, Groups12(q), LinkOf(q.link2), Factors3(q), Values(q), row);
    if q.join.Some? {
      JoinMeaning(e, q.join.value, Values(q), row);
      JoinPresent(q.join.value);
      AttachMeaning(e, Groups(q), LinkAnd, JoinFactors(q.join.value), Values(q), row);
    }
  }

  /** The text is an SQL condition exactly when a join record that is passed has a kept key. */
  lemma ParsesExactlyWhenJoinHasKey(q: Query)
    ensures ParseWhere(WhereTokens(q)).Some? <==> (q.join.Some? ==> HasJoinKept(q.join.value))
    ensures ParseWhere(WhereTokens(q)).Some? ==>
              ParseWhere(WhereTokens(q)) ==
              Some(if FullDnf(q) == [] then None
                   else if WellFormed(FullDnf(q)) then Some(DnfCond(FullDnf(q))) else None)
  {
    FullDnfSound(Engine((op, a: bool, b: bool) => True, s => true), q, c => true);
    var d := FullDnf(q);
    if q.join.Some? {
      JoinPresent(q.join.value);
    }
    if q.join.Some? && JoinFactors(q.join.value) == [] {
      var g := Groups(q);
      if g == [] {
        assert WhereTokens(q) == [Where];
        assert [Where][1..] == [];
      } else {
        DanglingDnf(g);
        assert WhereTokens(q)[1..] == DnfTokens(g) + [AndToken];
      }
    } else if d != [] {
      ParseDnf(d, []);
      assert WhereTokens(q)[1..] == DnfTokens(d) + [];
    }
  }

  /** What the database selects for a query: the parsed text, with `$n` bound to the n-th value. */
  predicate Selects<C>(e: Engine<C>, q: Query, row: string -> C) {
    var parsed := ParseWhere(WhereTokens(q));
    parsed.Some? &&
    (parsed.value.Some? ==>
       Binds(parsed.value.value, |Values(q)|) && Selected(e, parsed.value, Values(q), row))
  }

  lemma SelectsDnf<C>(e: Engine<C>, q: Query, row: string -> C)
    requires q.join.Some? ==> HasJoinKept(q.join.value)
    ensures DnfBinds(FullDnf(q), |Values(q)|)
    ensures Selects(e, q, row) <==> Keeps(e, FullDnf(q), Values(q), row)
  {
    ParsesExactlyWhenJoinHasKey(q);
    FullDnfSound(e, q, row);
    if FullDnf(q) != [] {
      DnfMeaning(e, FullDnf(q), Values(q), row);
    }
  }

  // ---------------------------------------------------------------------------
  // The public get methods
  // ---------------------------------------------------------------------------

  datatype Call =
    | Get(f: Option<Filter>)
    | GetJoin(f: Option<Filter>, join: Option<JoinRecord>)
    | GetHigherThan(f: Option<Filter>)
    | GetWhereEqualOrDifferent(f: Option<Filter>, g: Option<Filter>)
    | GetWhereEqualAndHigher(f: Option<Filter>, g: Option<Filter>)
    | GetMaxWhereEqual(f: Option<Filter>)
    | GetMaxWhereEqualAndLower(f: Option<Filter>, g: Option<Filter>)
    | GetMinWhereEqualAndHigher(f: Option<Filter>, g: Option<Filter>)
    | GetMaxWhereEqualAndLowerJoin(f: Option<Filter>, g: Option<Filter>, join: Option<JoinRecord>)

  function OneGroup(op: Op, f: Option<Filter>, join: Option<JoinRecord>): Query {
    Query(Some(op), f, None, None, None, None, None, None, join)
  }

  function TwoGroups(f: Option<Filter>, l: Link, op2: Op, g: Option<Filter>, join: Option<JoinRecord>): Query {
    Query(Some(Eq), f, Some(op2), Some(l), g, None, None, None, join)
  }

  /** The arguments each public method hands to the builder. */
  function Arguments(c: Call): Query {
    match c
    case Get(f) => OneGroup(Eq, f, None)
    case GetJoin(f, join) => OneGroup(Eq, f, join)
    case GetHigherThan(f) => OneGroup(Gt, f, None)
    case GetWhereEqualOrDifferent(f, g) => TwoGroups(f, LinkOr, Ne, g, None)
    case GetWhereEqualAndHigher(f, g) => TwoGroups(f, LinkAnd, Gt, g, None)
    case GetMaxWhereEqual(f) => OneGroup(Eq, f, None)
    case GetMaxWhereEqualAndLower(f, g) => TwoGroups(f, LinkAnd, Lt, g, None)
    case GetMinWhereEqualAndHigher(f, g) => TwoGroups(f, LinkAnd, Gt, g, None)
    case GetMaxWhereEqualAndLowerJoin(f, g, join) => TwoGroups(f, LinkAnd, Lt, g, join)
  }

  function FilterOf(f: Option<Filter>): Filter { if f.Some? then f.value else [] }

  predicate JoinedOn<C>(e: Engine<C>, join: Option<JoinRecord>, row: string -> C) {
    join.Some? ==> JoinHolds(e, join.value, row)
  }

  /** What the caller of a public method asks for, said about its records alone. */
  predicate Asked<C>(e: Engine<C>, cell: Scalar -> C, c: Call, row: string -> C) {
    match c
    case Get(f) => RecordHolds(e, cell, Eq, FilterOf(f), row)
    case GetJoin(f, join) => RecordHolds(e, cell, Eq, FilterOf(f), row) && JoinedOn(e, join, row)
    case GetHigherThan(f) => RecordHolds(e, cell, Gt, FilterOf(f), row)
    case GetWhereEqualOrDifferent(f, g) =>
      if HasKept(FilterOf(f)) && HasKept(FilterOf(g))
      then RecordHolds(e, cell, Eq, FilterOf(f), row) || RecordHolds(e, cell, Ne, FilterOf(g), row)
      else RecordHolds(e, cell, Eq, FilterOf(f), row) && RecordHolds(e, cell, Ne, FilterOf(g), row)
    case GetWhereEqualAndHigher(f, g) =>
      RecordHolds(e, cell, Eq, FilterOf(f), row) && RecordHolds(e, cell, Gt, FilterOf(g), row)
    case GetMaxWhereEqual(f) => RecordHolds(e, cell, Eq, FilterOf(f), row)
    case GetMaxWhereEqualAndLower(f, g) =>
      RecordHolds(e, cell, Eq, FilterOf(f), row) && RecordHolds(e, cell, Lt, FilterOf(g), row)
    case GetMinWhereEqualAndHigher(f, g) =>
      RecordHolds(e, cell, Eq, FilterOf(f), row) && RecordHolds(e, cell, Gt, FilterOf(g), row)
    case GetMaxWhereEqualAndLowerJoin(f, g, join) =>
      RecordHolds(e, cell, Eq, FilterOf(f), row) && RecordHolds(e, cell, Lt, FilterOf(g), row) && JoinedOn(e, join, row)
  }

  /** A query of at most two groups: what it selects, by its link operator. */
  lemma {:induction false} TwoGroupsMeaning<C>(e: Engine<C>, cell: Scalar -> C, q: Query, row: string -> C)
    requires Binding(e, cell) && q.op3.None?
    requires q.join.Some? ==> HasJoinKept(q.join.value)
    requires q.join.Some? ==> LinkOf(q.link1).LinkAnd?
    ensures Selects(e, q, row) <==>
            JoinedOn(e, q.join, row) &&
            if LinkOf(q.link1).LinkOr? && HasKept(Record1(q)) && HasKept(Record2(q))
            then RecordHolds(e, cell, OpOr(q.op1), Record1(q), row) ||
                 RecordHolds(e, cell, OpOr(q.op2), Record2(q), row)
            else RecordHolds(e, cell, OpOr(q.op1), Record1(q), row) &&
                 RecordHolds(e, cell, OpOr(q.op2), Record2(q), row)
  {
    hide GroupFactors, JoinFactors, GroupValues, ConjHolds, DnfHolds, RecordHolds, WhereTokens, ParseWhere, Selects,
      Binding;
    SelectsDnf(e, q, row);
    GroupsMeaning(e, cell, q, row);
    GroupsPresent(q);
    var d1 := Attach([], LinkAnd, Factors1(q));
    AttachMeaning(e, [], LinkAnd, Factors1(q), Values(q), row);
    AttachMeaning(e, d1, LinkOf(q.link1), Factors2(q), Values(q), row);
    NoGroup(e, cell, q, row);
    assert Groups(q) == Groups12(q);
    if q.join.Some? {
      JoinMeaning(e, q.join.value, Values(q), row);
      JoinPresent(q.join.value);
      AttachMeaning(e, Groups(q), LinkAnd, JoinFactors(q.join.value), Values(q), row);
    }
  }

  /** A group without kept key asks for nothing. */
  lemma NoGroup<C>(e: Engine<C>, cell: Scalar -> C, q: Query, row: string -> C)
    ensures Factors1(q) == [] ==> RecordHolds(e, cell, OpOr(q.op1), Record1(q), row)
    ensures Factors2(q) == [] ==> RecordHolds(e, cell, OpOr(q.op2), Record2(q), row)
    ensures q.op3.None? ==> Factors3(q) == []
  {
    GroupsPresent(q);
    assert q.op3.None? ==> Record3(q) == [];
  }

  /** For every public get method, database, row and filter records: the row is selected exactly when the records
      ask for it, each number and text in them standing for the cell that its text is bound as. */
  lemma PublicGetMeaning<C>(e: Engine<C>, cell: Scalar -> C, c: Call, row: string -> C)
    requires Binding(e, cell)
    requires Arguments(c).join.Some? ==> HasJoinKept(Arguments(c).join.value)
    ensures Selects(e, Arguments(c), row) <==> Asked(e, cell, c, row)
  {
    hide GroupFactors, JoinFactors, GroupValues, WhereTokens, ParseWhere, Selects, Kept, Filters, Binding;
    TwoGroupsMeaning(e, cell, Arguments(c), row);
  }

  // ---------------------------------------------------------------------------
  // OR together with a join
  // ---------------------------------------------------------------------------

  /** Whether the builder writes an OR between two printed groups. */
  predicate OrBetweenGroups(q: Query) {
    || (HasKept(Record1(q)) && HasKept(Record2(q)) && LinkOf(q.link1).LinkOr?)
    || ((HasKept(Record1(q)) || HasKept(Record2(q))) && HasKept(Record3(q)) && LinkOf(q.link2).LinkOr?)
  }

  /** A database in which every parameter comparison is True and every join comparison Unknown. */
  function OnlyParameters(): Engine<bool> {
    Engine((op, a, b) => if b then True else Unknown, s => true)
  }

  predicate JoinAlwaysApplies<C>(q: Query, e: Engine<C>, row: string -> C)
    requires q.join.Some?
  {
    Selects(e, q, row) ==> JoinHolds(e, q.join.value, row)
  }

  lemma AlternativesCount(q: Query)
    ensures |Groups(q)| >= 2 <==> OrBetweenGroups(q)
  {
    hide GroupFactors, JoinFactors, GroupValues;
    GroupsPresent(q);
  }

  lemma LastAlternativeJoined<C>(e: Engine<C>, q: Query, row: string -> C)
    requires q.join.Some? && HasJoinKept(q.join.value) && !OrBetweenGroups(q)
    ensures JoinAlwaysApplies(q, e, row)
  {
    hide GroupFactors, JoinFactors, GroupValues, ConjHolds, DnfHolds, WhereTokens, ParseWhere, Selects;
    AlternativesCount(q);
    SelectsDnf(e, q, row);
    FullDnfSound(e, q, row);
    JoinMeaning(e, q.join.value, Values(q), row);
    JoinPresent(q.join.value);
    AttachMeaning(e, Groups(q), LinkAnd, JoinFactors(q.join.value), Values(q), row);
  }

  /** A conjunction of groups compares with parameters only. */
  lemma {:induction false} GroupFactorsBound(op: Op, filter: Filter, start: nat)
    ensures BoundOnly(GroupFactors(op, filter, start))
  {
    if filter != [] {
      var init, last := filter[..|filter| - 1], filter[|filter| - 1];
      GroupFactorsBound(op, init, start);
      if Kept(last.1) && last.1.Many? {
        assert last.1.vs != [];
      }
    }
  }

  /** With an OR between two groups and a join, the first alternative escapes the join. */
  lemma FirstAlternativeEscapesJoin(q: Query)
    requires q.join.Some? && HasJoinKept(q.join.value) && OrBetweenGroups(q)
    ensures Selects(OnlyParameters(), q, c => false)
    ensures !JoinHolds(OnlyParameters(), q.join.value, c => false)
  {
    var e, row, values := OnlyParameters(), (c: string) => false, Values(q);
    SelectsDnf(e, q, row);
    FirstAlternativeBound(q);
    var first := FullDnf(q)[0];
    forall i | 0 <= i < |first| ensures FactorHolds(e, first[i], values, row) {
      assert FactorBinds(first[i], |values|);
      if first[i].AnyOf? {
        assert AtomHolds(e, first[i].atoms[0], values, row);
      }
    }
    assert ConjHolds(e, first, values, row);
    var i :| 0 <= i < |q.join.value| && JoinFilters(q.join.value[i].1);
    assert e.compare(Eq, row(q.join.value[i].0), row(q.join.value[i].1.value)) == Unknown;
  }

  predicate BoundOnly(fs: Conj) {
    forall i :: 0 <= i < |fs| ==>
                  (fs[i].Single? ==> fs[i].atom.Bound?) &&
                  (fs[i].AnyOf? ==> fs[i].atoms != [] && fs[i].atoms[0].Bound?)
  }

  lemma FirstAlternativeBound(q: Query)
    requires q.join.Some? && HasJoinKept(q.join.value) && OrBetweenGroups(q)
    ensures FullDnf(q) != [] && BoundOnly(FullDnf(q)[0])
  {
    GroupFactorsBound(OpOr(q.op1), Record1(q), 0);
    GroupFactorsBound(OpOr(q.op2), Record2(q), |GroupValues(Record1(q))|);
    AlternativesCount(q);
    hide GroupFactors, JoinFactors, GroupValues, Kept, HasKept, HasJoinKept;
    var f1, f2 := Factors1(q), Factors2(q);
    var first := Groups(q)[0];
    assert FullDnf(q)[0] == first;
    assert first == f1 || first == f2 || first == f1 + f2 || Groups12(q) == [];
    assert Groups12(q) == [] ==> |Groups(q)| <= 1;
  }

  /** The join equalities restrict every selected row, in every database, exactly when the builder
      writes no OR between groups. No public method passes an OR link together with a join. */
  lemma JoinAppliesExactlyWithoutOr(q: Query)
    requires q.join.Some? && HasJoinKept(q.join.value)
    ensures (forall e: Engine<bool>, row: string -> bool :: JoinAlwaysApplies(q, e, row)) <==> !OrBetweenGroups(q)
  {
    if OrBetweenGroups(q) {
      FirstAlternativeEscapesJoin(q);
      assert !JoinAlwaysApplies(q, OnlyParameters(), c => false);
    } else {
      forall e: Engine<bool>, row: string -> bool ensures JoinAlwaysApplies(q, e, row) {
        LastAlternativeJoined(e, q, row);
      }
    }
  }

  lemma PublicMethodsNeverMix(c: Call)
    ensures Arguments(c).join.Some? ==> !OrBetweenGroups(Arguments(c))
  {
    hide Kept;
  }
}
