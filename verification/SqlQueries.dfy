/** The SELECT builder of the database layer: filter records become WHERE text and bound values, with
    one counter for all groups. */
module SqlQueries {
  import opened Decimals
  import opened Options
  import opened SqlConditions

  datatype Scalar = Str(s: string) | Num(n: int)

  datatype FilterValue = Null | One(v: Scalar) | Many(vs: seq<Scalar>)

  type Filter = seq<(string, FilterValue)>

  type JoinRecord = seq<(string, Option<string>)>

  /** JavaScript's toString of a scalar. */
  function Text(v: Scalar): string {
    match v
    case Str(s) => s
    case Num(n) => IntText(n)
  }

  /** JavaScript's toString of an array. */
  function ListText(vs: seq<Scalar>): string {
    if |vs| == 0 then ""
    else if |vs| == 1 then Text(vs[0])
    else Text(vs[0]) + "," + ListText(vs[1..])
  }

  /** Whether the builder keeps a key: its value is not null and does not print as the empty text. */
  predicate Kept(v: FilterValue) {
    match v
    case Null => false
    case One(s) => Text(s) != ""
    case Many(vs) => ListText(vs) != ""
  }

  predicate JoinKept(v: Option<string>) {
    v.Some? && v.value != ""
  }

  // ---------------------------------------------------------------------------
  // What a filter record means
  // ---------------------------------------------------------------------------

  /** The decimal numeral of a natural number, without leading zeros. */
  predicate Numeral(t: string, n: nat) {
    && t != "" && (forall i :: 0 <= i < |t| ==> '0' <= t[i] <= '9') && (|t| > 1 ==> t[0] != '0')
    && Number(t) == n
  }

  /** The text is that of the value which the caller gave. */
  predicate Denotes(t: string, v: Scalar) {
    match v
    case Str(s) => t == s
    case Num(n) => if n >= 0 then Numeral(t, n) else t != "" && t[0] == '-' && Numeral(t[1..], -n)
  }

  /** The value filters: neither null, nor the empty text, nor a list of nothing or of one empty text. */
  predicate Filters(v: FilterValue) {
    match v
    case Null => false
    case One(s) => s != Str("")
    case Many(vs) => vs != [] && vs != [Str("")]
  }

  /** The cells of the values that callers give: every text of a value is bound as its cell. */
  ghost predicate Binding<C>(e: Engine<C>, cell: Scalar -> C) {
    forall t, v :: Denotes(t, v) ==> e.bind(t) == cell(v)
  }

  predicate KeyHolds<C>(e: Engine<C>, cell: Scalar -> C, op: Op, key: string, v: FilterValue, row: string -> C) {
    match v
    case Null => true
    case One(s) => e.compare(op, row(key), cell(s)) == True
    case Many(vs) => exists i :: 0 <= i < |vs| && e.compare(op, row(key), cell(vs[i])) == True
  }

  predicate RecordHolds<C>(e: Engine<C>, cell: Scalar -> C, op: Op, filter: Filter, row: string -> C) {
    forall i :: 0 <= i < |filter| && Filters(filter[i].1) ==> KeyHolds(e, cell, op, filter[i].0, filter[i].1, row)
  }

  predicate JoinFilters(v: Option<string>) {
    v != None && v != Some("")
  }

  predicate JoinHolds<C>(e: Engine<C>, join: JoinRecord, row: string -> C) {
    forall i :: 0 <= i < |join| && JoinFilters(join[i].1) ==>
                  e.compare(Eq, row(join[i].0), row(join[i].1.value)) == True
  }

  predicate HasKept(filter: Filter) {
    exists i :: 0 <= i < |filter| && Filters(filter[i].1)
  }

  predicate HasJoinKept(join: JoinRecord) {
    exists i :: 0 <= i < |join| && JoinFilters(join[i].1)
  }

  /** The text that is bound for a value is one of it, and there is only one. */
  lemma TextDenotes(v: Scalar, t: string)
    ensures Denotes(t, v) <==> t == Text(v)
  {
    if v.Num? {
      var n: nat := if v.n < 0 then -v.n else v.n;
      NumberOfDigits(n);
      NumeralOf(n, Digits(n));
      if v.n < 0 {
        assert ("-" + Digits(n))[1..] == Digits(n);
        assert t != "" && t[0] == '-' ==> t == "-" + t[1..];
      }
      NumeralOf(n, if v.n < 0 && t != "" then t[1..] else t);
    }
  }

  lemma NumeralOf(n: nat, t: string)
    ensures Numeral(t, n) <==> t == Digits(n)
  {
    NumberOfDigits(n);
    if Numeral(t, n) {
      DigitsOfNumber(t);
    }
    if t == Digits(n) && |t| > 1 && t[0] == '0' {
      NumberOne("0");
    }
  }

  /** The builder keeps exactly the keys whose value filters. */
  lemma KeptExactly(v: FilterValue)
    ensures Kept(v) <==> Filters(v)
  {
    match v
    case Null =>
    case One(s) => TextDenotes(s, Text(s));
    case Many(vs) =>
      if |vs| == 1 {
        TextDenotes(vs[0], Text(vs[0]));
        assert vs == [vs[0]];
      }
  }

  lemma JoinKeptExactly(v: Option<string>)
    ensures JoinKept(v) <==> JoinFilters(v)
  {
  }

  /** The values that a record gives, in the order of its keys. */
  function Given(filter: Filter): seq<Scalar> {
    if filter == [] then []
    else
      var v := filter[|filter| - 1].1;
      Given(filter[..|filter| - 1]) +
      if !Filters(v) then [] else match v case Null => [] case One(s) => [s] case Many(vs) => vs
  }

  predicate Carries(texts: seq<string>, vs: seq<Scalar>) {
    |texts| == |vs| && forall i :: 0 <= i < |vs| ==> Denotes(texts[i], vs[i])
  }

  /** What is bound for a record are its values, one by one. */
  lemma {:induction false} GroupValuesCarry(filter: Filter)
    ensures Carries(GroupValues(filter), Given(filter))
  {
    hide Denotes, Text, Kept, Filters;
    if filter != [] {
      var init, v := filter[..|filter| - 1], filter[|filter| - 1].1;
      GroupValuesCarry(init);
      KeptExactly(v);
      if Kept(v) {
        KeyValuesCarry(v);
      }
    }
  }

  lemma KeyValuesCarry(v: FilterValue)
    requires Kept(v)
    ensures Carries(KeyValues(v), match v case Null => [] case One(s) => [s] case Many(vs) => vs)
  {
    hide Denotes, Text;
    match v
    case One(s) => TextDenotes(s, Text(s));
    case Many(vs) =>
      forall i | 0 <= i < |vs| ensures Denotes(KeyValues(v)[i], vs[i]) {
        TextDenotes(vs[i], Text(vs[i]));
      }
    case Null =>
  }

  // ---------------------------------------------------------------------------
  // What the builder prints for one record
  // ---------------------------------------------------------------------------

  function KeyFactor(key: string, op: Op, v: FilterValue, start: nat): Factor
    requires Kept(v)
  {
    match v
    case One(_) => Single(Bound(key, op, start + 1))
    case Many(vs) => AnyOf(seq(|vs|, i requires 0 <= i < |vs| => Bound(key, op, start + 1 + i)))
  }

  function KeyValues(v: FilterValue): seq<string>
    requires Kept(v)
  {
    match v
    case One(s) => [Text(s)]
    case Many(vs) => seq(|vs|, i requires 0 <= i < |vs| => Text(vs[i]))
  }

  function GroupValues(filter: Filter): seq<string> {
    if filter == [] then [] else
    var init, v := GroupValues(filter[..|filter| - 1]), filter[|filter| - 1].1;
    if Kept(v) then init + KeyValues(v) else init
  }

  function GroupFactors(op: Op, filter: Filter, start: nat): Conj {
    if filter == [] then [] else
    var init, last := filter[..|filter| - 1], filter[|filter| - 1];
    var fs := GroupFactors(op, init, start);
    if Kept(last.1) then fs + [KeyFactor(last.0, op, last.1, start + |GroupValues(init)|)] else fs
  }

  function JoinFactors(join: JoinRecord): Conj {
    if join == [] then [] else
    var last := join[|join| - 1];
    var fs := JoinFactors(join[..|join| - 1]);
    if JoinKept(last.1) then fs + [Single(Joined(last.0, last.1.value))] else fs
  }

  // ---------------------------------------------------------------------------
  // Whole queries
  // ---------------------------------------------------------------------------

  datatype Link = LinkAnd | LinkOr

  datatype Query = Query(
    op1: Option<Op>, filter1: Option<Filter>,
    op2: Option<Op>, link1: Option<Link>, filter2: Option<Filter>,
    op3: Option<Op>, link2: Option<Link>, filter3: Option<Filter>,
    join: Option<JoinRecord>)

  function LinkToken(l: Link): Token {
    if l.LinkAnd? then AndToken else OrToken
  }

  /** The record of a group that the builder looks at; `[]` when an argument is missing. */
  function Record(op: Option<Op>, filter: Option<Filter>): Filter {
    if op.Some? && filter.Some? then filter.value else []
  }

  function Record1(q: Query): Filter { Record(q.op1, q.filter1) }

  function Record2(q: Query): Filter { if q.link1.Some? then Record(q.op2, q.filter2) else [] }

  function Record3(q: Query): Filter { if q.link2.Some? then Record(q.op3, q.filter3) else [] }

  function OpOr(op: Option<Op>): Op { if op.Some? then op.value else Eq }

  function LinkOf(l: Option<Link>): Link { if l.Some? then l.value else LinkAnd }

  function Values(q: Query): seq<string> {
    GroupValues(Record1(q)) + GroupValues(Record2(q)) + GroupValues(Record3(q))
  }

  function Factors1(q: Query): Conj { GroupFactors(OpOr(q.op1), Record1(q), 0) }

  function Factors2(q: Query): Conj { GroupFactors(OpOr(q.op2), Record2(q), |GroupValues(Record1(q))|) }

  function Factors3(q: Query): Conj {
    GroupFactors(OpOr(q.op3), Record3(q), |GroupValues(Record1(q))| + |GroupValues(Record2(q))|)
  }

  /** Writing a link operator and a group after a condition: AND extends the last conjunction. */
  function Attach(d: Dnf, l: Link, g: Conj): Dnf {
    if g == [] then d
    else if d == [] then [g]
    else if l.LinkAnd? then d[..|d| - 1] + [d[|d| - 1] + g]
    else d + [g]
  }

  function Groups12(q: Query): Dnf {
    Attach(Attach([], LinkAnd, Factors1(q)), LinkOf(q.link1), Factors2(q))
  }

  function Groups(q: Query): Dnf {
    Attach(Groups12(q), LinkOf(q.link2), Factors3(q))
  }

  function FullDnf(q: Query): Dnf {
    if q.join.None? then Groups(q) else Attach(Groups(q), LinkAnd, JoinFactors(q.join.value))
  }

  function ConditionTokens(d: Dnf): seq<Token> {
    if d == [] then [] else [Where] + DnfTokens(d)
  }

  function WhereTokens(q: Query): seq<Token> {
    if q.join.Some? && JoinFactors(q.join.value) == [] then
      ConditionTokens(Groups(q)) + [if Groups(q) == [] then Where else AndToken]
    else
      ConditionTokens(FullDnf(q))
  }

  lemma AttachTokens(d: Dnf, l: Link, g: Conj)
    requires d != [] && d[|d| - 1] != [] && g != []
    ensures DnfTokens(Attach(d, l, g)) == DnfTokens(d) + [LinkToken(l)] + ConjTokens(g)
  {
    var init, last := d[..|d| - 1], d[|d| - 1];
    assert d == init + [last];
    if l.LinkAnd? {
      DnfSnoc(init, last);
      DnfSnoc(init, last + g);
      ConjAppend(last, g);
    } else {
      DnfSnoc(d, g);
    }
  }

  /** One more key of the record. */
  lemma GroupStep(op: Op, filter: Filter, k: nat, start: nat)
    requires k < |filter|
    ensures GroupValues(filter[..k + 1]) ==
            GroupValues(filter[..k]) + if Kept(filter[k].1) then KeyValues(filter[k].1) else []
    ensures var before := ConjTokens(GroupFactors(op, filter[..k], start));
            ConjTokens(GroupFactors(op, filter[..k + 1], start)) ==
            if !Kept(filter[k].1) then before else
            (if before != [] then before + [AndToken] else []) +
            FactorTokens(KeyFactor(filter[k].0, op, filter[k].1, start + |GroupValues(filter[..k])|))
  {
    hide ConjTokens, FactorTokens, KeyFactor, KeyValues, Kept;
    assert filter[..k + 1][..k] == filter[..k];
    var fs := GroupFactors(op, filter[..k], start);
    if Kept(filter[k].1) {
      ConjSnoc(fs, KeyFactor(filter[k].0, op, filter[k].1, start + |GroupValues(filter[..k])|));
      EmptyConjTokens(fs);
    }
  }

  lemma NothingYet()
    ensures ConditionTokens([]) == []
  {
  }

  lemma GroupEmpty(op: Op, start: nat)
    ensures GroupValues([]) == [] && ConjTokens(GroupFactors(op, [], start)) == []
  {
  }

  // ---------------------------------------------------------------------------
  // The builder itself: one counter and one value vector for all groups
  // ---------------------------------------------------------------------------

  class QueryBuilder {
    var index: nat
    var values: seq<string>

    constructor ()
      ensures index == 0 && values == []
    {
      index := 0;
      values := [];
    }

    /** `buildCondition`: one filter record. */
    method BuildCondition(op: Op, filter: Filter) returns (local: seq<Token>)
      requires index == |values|
      modifies this
      ensures index == |values|
      ensures values == old(values) + GroupValues(filter) && Carries(GroupValues(filter), Given(filter))
      ensures local == ConjTokens(GroupFactors(op, filter, |old(values)|))
    {
      hide *;
      GroupValuesCarry(filter);
      GroupEmpty(op, |values|);
      assert filter[..0] == [];
      local := [];
      for k := 0 to |filter|
        invariant index == |values|
        invariant values == old(values) + GroupValues(filter[..k])
        invariant local == ConjTokens(GroupFactors(op, filter[..k], |old(values)|))
      {
        if Kept(filter[k].1) {
          local := local + (if local != [] then [AndToken] else []);
          var text := BuildKey(filter[k].0, op, filter[k].1);
          local := local + text;
        }
        GroupStep(op, filter, k, |old(values)|);
      }
      assert filter[..|filter|] == filter;
    }

    /** The text and the values of one kept key. */
    method BuildKey(key: string, op: Op, v: FilterValue) returns (text: seq<Token>)
      requires index == |values| && Kept(v)
      modifies this
      ensures index == |values|
      ensures values == old(values) + KeyValues(v)
      ensures text == FactorTokens(KeyFactor(key, op, v, |old(values)|))
    {
      match v {
        case Many(vs) =>
          var alternatives := BuildAlternatives(key, op, vs);
          text := [Open] + alternatives + [Close];
        case One(s) =>
          index := index + 1;
          values := values + [Text(s)];
          text := [Column(key), Operator(op), Placeholder(index)];
      }
    }

    /** The `.map(...).join(' OR ')` over a list value. */
    method BuildAlternatives(key: string, op: Op, vs: seq<Scalar>) returns (text: seq<Token>)
      requires index == |values|
      modifies this
      ensures index == |values|
      ensures values == old(values) + seq(|vs|, i requires 0 <= i < |vs| => Text(vs[i]))
      ensures text == AtomsTokens(seq(|vs|, i requires 0 <= i < |vs| => Bound(key, op, |old(values)| + 1 + i)))
    {
      text := [];
      for k := 0 to |vs|
        invariant index == |values|
        invariant values == old(values) + seq(k, i requires 0 <= i < k => Text(vs[i]))
        invariant text == AtomsTokens(seq(k, i requires 0 <= i < k => Bound(key, op, |old(values)| + 1 + i)))
      {
        index := index + 1;
        values := values + [Text(vs[k])];
        ghost var atoms := seq(k, i requires 0 <= i < k => Bound(key, op, |old(values)| + 1 + i));
        AtomsSnoc(atoms, Bound(key, op, index));
        assert atoms + [Bound(key, op, index)]
            == seq(k + 1, i requires 0 <= i < k + 1 => Bound(key, op, |old(values)| + 1 + i));
        text := (if k == 0 then [] else text + [OrToken]) + [Column(key), Operator(op), Placeholder(index)];
      }
    }

    /** The guard around `buildCondition`: a group whose arguments are missing prints nothing. */
    method BuildGroup(op: Option<Op>, linked: bool, filter: Option<Filter>) returns (text: seq<Token>)
      requires index == |values|
      modifies this
      ensures index == |values|
      ensures values == old(values) + GroupValues(if linked then Record(op, filter) else [])
      ensures text == ConjTokens(GroupFactors(OpOr(op), if linked then Record(op, filter) else [], |old(values)|))
    {
      text := [];
      if op.Some? && linked && filter.Some? && |filter.value| > 0 {
        text := BuildCondition(op.value, filter.value);
      }
    }

    /** `_get` and `_getMinMax`: the text after the table list and the values to bind. */
    method BuildWhere(q: Query) returns (condition: seq<Token>)
      requires index == 0 && values == []
      modifies this
      ensures index == |values|
      ensures values == Values(q)
      ensures condition == WhereTokens(q)
    {
      hide GroupFactors, GroupValues, ConjTokens, DnfTokens, Attach, ConditionTokens, JoinFactors;
      NothingYet();
      var condition1 := BuildGroup(q.op1, true, q.filter1);
      var condition2 := BuildGroup(q.op2, q.link1.Some?, q.filter2);
      var condition3 := BuildGroup(q.op3, q.link2.Some?, q.filter3);
      condition := AddGroup([], LinkAnd, condition1, [], Factors1(q));
      condition := AddGroup(condition, LinkOf(q.link1), condition2, Attach([], LinkAnd, Factors1(q)), Factors2(q));
      condition := AddGroup(condition, LinkOf(q.link2), condition3, Groups12(q), Factors3(q));
      if q.join.Some? {
        condition := AddJoin(condition, q.join.value, Groups(q));
      }
    }

    /** The join equalities, added with AND whatever came before. */
    method AddJoin(condition: seq<Token>, join: JoinRecord, ghost d: Dnf) returns (extended: seq<Token>)
      requires condition == ConditionTokens(d)
      requires forall i :: 0 <= i < |d| ==> d[i] != []
      ensures extended ==
              if JoinFactors(join) == [] then condition + [if d == [] then Where else AndToken]
              else ConditionTokens(Attach(d, LinkAnd, JoinFactors(join)))
    {
      var joinCondition := BuildJoin(join);
      extended := condition + (if condition != [] then [AndToken] else [Where]) + joinCondition;
      ghost var g := JoinFactors(join);
      EmptyConjTokens(g);
      if g != [] && d != [] {
        AttachTokens(d, LinkAnd, g);
      } else if g != [] {
        DnfSnoc([], g);
        assert Attach(d, LinkAnd, g) == [] + [g];
      }
    }

    method BuildJoin(join: JoinRecord) returns (text: seq<Token>)
      ensures text == ConjTokens(JoinFactors(join))
    {
      text := [];
      for k := 0 to |join|
        invariant text == ConjTokens(JoinFactors(join[..k]))
      {
        assert join[..k + 1][..k] == join[..k];
        if JoinKept(join[k].1) {
          ConjSnoc(JoinFactors(join[..k]), Single(Joined(join[k].0, join[k].1.value)));
          EmptyConjTokens(JoinFactors(join[..k]));
          text := text + (if text != [] then [AndToken] else []);
          text := text + [Column(join[k].0), Operator(Eq), Column(join[k].1.value)];
        }
      }
      assert join[..|join|] == join;
    }

    /** `condition += group !== '' ? (condition !== '' ? link : 'WHERE ') + group : ''` */
    method AddGroup(condition: seq<Token>, l: Link, group: seq<Token>, ghost d: Dnf, ghost g: Conj)
      returns (extended: seq<Token>)
      requires condition == ConditionTokens(d) && group == ConjTokens(g)
      requires forall i :: 0 <= i < |d| ==> d[i] != []
      ensures extended == ConditionTokens(Attach(d, l, g))
      ensures forall i :: 0 <= i < |Attach(d, l, g)| ==> Attach(d, l, g)[i] != []
    {
      EmptyConjTokens(g);
      if group == [] {
        return condition;
      }
      if d != [] {
        AttachTokens(d, l, g);
      } else {
        DnfSnoc([], g);
        assert Attach(d, l, g) == [] + [g];
      }
      extended := condition + (if condition != [] then [LinkToken(l)] else [Where]) + group;
    }
  }

  /** Only the empty conjunction prints as the empty text. */
  lemma EmptyConjTokens(fs: Conj)
    ensures ConjTokens(fs) == [] <==> fs == []
  {
    if fs != [] {
      assert fs == fs[..|fs| - 1] + [fs[|fs| - 1]];
      ConjSnoc(fs[..|fs| - 1], fs[|fs| - 1]);
    }
  }
}
