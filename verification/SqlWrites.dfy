/** INSERT, UPDATE and DELETE: the Pg and the SQLite texts denote the same statements. */
module SqlWrites {
  import opened Options
  import opened SqlQueries

  datatype Tok =
    | Word(w: string)
    | Name(n: string)
    | Open
    | Close
    | Comma
    | Compare(op: string)
    | Numbered(k: nat)
    | Question
    | Value(v: Scalar)

  type Columns = seq<(string, Scalar)>

  /** One condition of deleteWhere; a missing operator means `=`. */
  datatype Condition = Condition(field: string, operator: Option<string>, value: Scalar)

  datatype Statement =
    | Insert(table: string, names: seq<string>, values: seq<Scalar>)
    | Update(table: string, sets: Columns, conds: seq<(string, string, Scalar)>)
    | Delete(table: string, conds: seq<(string, string, Scalar)>)

  // ---------------------------------------------------------------------------
  // Statement texts
  // ---------------------------------------------------------------------------

  /** JavaScript's `join`. */
  function Join(parts: seq<seq<Tok>>, sep: seq<Tok>): seq<Tok> {
    if |parts| == 0 then [] else if |parts| == 1 then parts[0] else parts[0] + sep + Join(parts[1..], sep)
  }

  function Names(cols: Columns): seq<seq<Tok>> {
    seq(|cols|, i requires 0 <= i < |cols| => [Name(cols[i].0)])
  }

  function Vals(cols: Columns): seq<Scalar> {
    seq(|cols|, i requires 0 <= i < |cols| => cols[i].1)
  }

  const RETURNING := [Word("RETURNING *")]
  const EQUALS := Compare("=")

  function InsertText(table: string, cols: Columns, marks: seq<seq<Tok>>): seq<Tok> {
    [Word("INSERT INTO"), Name(table), Open] + Join(Names(cols), [Comma]) + [Close, Word("VALUES"), Open]
    + Join(marks, [Comma]) + [Close] + RETURNING
  }

  function PgInsert(table: string, cols: Columns): seq<Tok> {
    InsertText(table, cols, seq(|cols|, i requires 0 <= i < |cols| => [Numbered(i + 1)]))
  }

  function SqliteInsert(table: string, cols: Columns): seq<Tok> {
    InsertText(table, cols, seq(|cols|, i requires 0 <= i < |cols| => [Question]))
  }

  function UpdateText(table: string, sets: seq<Tok>, conds: seq<Tok>): seq<Tok> {
    [Word("UPDATE"), Name(table), Word("SET")] + sets + [Word("WHERE")] + conds + RETURNING
  }

  function PgSets(cols: Columns): seq<Tok> {
    Join(seq(|cols|, i requires 0 <= i < |cols| => [Name(cols[i].0), EQUALS, Numbered(i + 1)]), [Comma])
  }

  function PgUpdate(table: string, cols: Columns, field: string): seq<Tok> {
    UpdateText(table, PgSets(cols), [Name(field), EQUALS, Numbered(|cols| + 1)])
  }

  /** `names.join('=?,')` followed by `=?`, as `update` writes it. */
  function SqliteUpdate(table: string, cols: Columns, field: string): seq<Tok> {
    UpdateText(table, Join(Names(cols), [EQUALS, Question, Comma]) + [EQUALS, Question],
               [Name(field), EQUALS, Question])
  }

  function PgUpdateAnd(table: string, cols: Columns, field1: string, field2: string): seq<Tok> {
    UpdateText(table, PgSets(cols),
               [Name(field1), EQUALS, Numbered(|cols| + 1), Word("AND"), Name(field2), EQUALS, Numbered(|cols| + 2)])
  }

  /** `updateAnd` maps every name to `name = ?` instead. */
  function SqliteUpdateAnd(table: string, cols: Columns, field1: string, field2: string): seq<Tok> {
    UpdateText(table,
               Join(seq(|cols|, i requires 0 <= i < |cols| => [Name(cols[i].0), EQUALS, Question]), [Comma]),
               [Name(field1), EQUALS, Question, Word("AND"), Name(field2), EQUALS, Question])
  }

  function OperatorOf(c: Condition): string {
    if c.operator.Some? then c.operator.value else "="
  }

  function DeleteText(table: string, conds: seq<seq<Tok>>): seq<Tok> {
    [Word("DELETE FROM"), Name(table), Word("WHERE")] + Join(conds, [Word("AND")])
  }

  function PgDeleteWhere(table: string, conds: seq<Condition>): seq<Tok> {
    DeleteText(table, seq(|conds|, i requires 0 <= i < |conds| =>
      [Name(conds[i].field), Compare(OperatorOf(conds[i])), Numbered(i + 1)]))
  }

  function SqliteDeleteWhere(table: string, conds: seq<Condition>): seq<Tok> {
    DeleteText(table, seq(|conds|, i requires 0 <= i < |conds| =>
      [Name(conds[i].field), Compare(OperatorOf(conds[i])), Question]))
  }

  function ConditionValues(conds: seq<Condition>): seq<Scalar> {
    seq(|conds|, i requires 0 <= i < |conds| => conds[i].value)
  }

  /** The forEach over `Object.keys(values)` that both drivers share. */
  method CollectColumns(cols: Columns) returns (names: seq<string>, vals: seq<Scalar>)
    ensures |names| == |vals| == |cols|
    ensures forall i :: 0 <= i < |cols| ==> (names[i], vals[i]) == cols[i]
    ensures vals == Vals(cols)
  {
    names, vals := [], [];
    for k := 0 to |cols|
      invariant |names| == |vals| == k
      invariant forall i :: 0 <= i < k ==> (names[i], vals[i]) == cols[i]
    {
      names := names + [cols[k].0];
      vals := vals + [cols[k].1];
    }
  }

  // ---------------------------------------------------------------------------
  // Binding the values
  // ---------------------------------------------------------------------------

  /** Pg: `$k` reads the k-th value. */
  function BindNumbered(ts: seq<Tok>, vals: seq<Scalar>): seq<Tok> {
    seq(|ts|, i requires 0 <= i < |ts| =>
      if ts[i].Numbered? && 1 <= ts[i].k <= |vals| then Value(vals[ts[i].k - 1]) else ts[i])
  }

  /** SQLite: each question mark consumes the next value. */
  function BindPositional(ts: seq<Tok>, vals: seq<Scalar>): seq<Tok> {
    if ts == [] then []
    else if ts[0].Question? && vals != [] then [Value(vals[0])] + BindPositional(ts[1..], vals[1..])
    else [ts[0]] + BindPositional(ts[1..], vals)
  }

  function Marks(ts: seq<Tok>): nat {
    if ts == [] then 0 else (if ts[0].Question? then 1 else 0) + Marks(ts[1..])
  }

  lemma {:induction false} MarksAppend(a: seq<Tok>, b: seq<Tok>)
    ensures Marks(a + b) == Marks(a) + Marks(b)
  {
    if a == [] {
      assert a + b == b;
    } else {
      MarksAppend(a[1..], b);
      assert (a + b)[1..] == a[1..] + b;
    }
  }

  lemma {:induction false} PositionalAppend(a: seq<Tok>, b: seq<Tok>, va: seq<Scalar>, vb: seq<Scalar>)
    requires |va| == Marks(a)
    ensures BindPositional(a + b, va + vb) == BindPositional(a, va) + BindPositional(b, vb)
  {
    if a == [] {
      assert a + b == b && va + vb == vb;
    } else {
      assert (a + b)[1..] == a[1..] + b;
      if a[0].Question? {
        assert (va + vb)[1..] == va[1..] + vb;
        PositionalAppend(a[1..], b, va[1..], vb);
      } else {
        PositionalAppend(a[1..], b, va, vb);
      }
    }
  }

  // ---------------------------------------------------------------------------
  // Reading a bound statement back
  // ---------------------------------------------------------------------------

  function ParseNames(ts: seq<Tok>): Option<(seq<string>, seq<Tok>)> {
    if |ts| < 2 || !ts[0].Name? then None
    else if ts[1] == Comma then
      match ParseNames(ts[2..])
      case None => None
      case Some((ns, rest)) => Some(([ts[0].n] + ns, rest))
    else if ts[1] == Close then Some(([ts[0].n], ts[2..]))
    else None
  }

  function ParseValues(ts: seq<Tok>): Option<(seq<Scalar>, seq<Tok>)> {
    if |ts| < 2 || !ts[0].Value? then None
    else if ts[1] == Comma then
      match ParseValues(ts[2..])
      case None => None
      case Some((vs, rest)) => Some(([ts[0].v] + vs, rest))
    else if ts[1] == Close then Some(([ts[0].v], ts[2..]))
    else None
  }

  /** `name op value` items separated by `sep`. */
  function ParseItems(ts: seq<Tok>, sep: Tok): Option<(seq<(string, string, Scalar)>, seq<Tok>)> {
    if |ts| < 3 || !ts[0].Name? || !ts[1].Compare? || !ts[2].Value? then None
    else
      var item := (ts[0].n, ts[1].op, ts[2].v);
      if |ts| > 3 && ts[3] == sep then
        match ParseItems(ts[4..], sep)
        case None => None
        case Some((items, rest)) => Some(([item] + items, rest))
      else Some(([item], ts[3..]))
  }

  function Parse(ts: seq<Tok>): Option<Statement> {
    if |ts| < 3 || !ts[1].Name? then None
    else if ts[0] == Word("INSERT INTO") && ts[2] == Open then
      match ParseNames(ts[3..])
      case None => None
      case Some((ns, rest)) =>
        if |rest| < 2 || rest[..2] != [Word("VALUES"), Open] then None else
        match ParseValues(rest[2..])
        case None => None
        case Some((vs, tail)) =>
          if tail == RETURNING && |ns| == |vs| then Some(Insert(ts[1].n, ns, vs)) else None
    else if ts[0] == Word("UPDATE") && ts[2] == Word("SET") then
      match ParseItems(ts[3..], Comma)
      case None => None
      case Some((sets, rest)) =>
        if rest == [] || rest[0] != Word("WHERE") then None else
        if exists i :: 0 <= i < |sets| && sets[i].1 != "=" then None else
        match ParseItems(rest[1..], Word("AND"))
        case None => None
        case Some((conds, tail)) =>
          if tail == RETURNING
          then Some(Update(ts[1].n, seq(|sets|, i requires 0 <= i < |sets| => (sets[i].0, sets[i].2)), conds))
          else None
    else if ts[0] == Word("DELETE FROM") && ts[2] == Word("WHERE") then
      match ParseItems(ts[3..], Word("AND"))
      case None => None
      case Some((conds, tail)) => if tail == [] then Some(Delete(ts[1].n, conds)) else None
    else None
  }

  function Items(items: seq<(string, string, Scalar)>): seq<seq<Tok>> {
    seq(|items|, i requires 0 <= i < |items| => [Name(items[i].0), Compare(items[i].1), Value(items[i].2)])
  }

  lemma {:induction false} ParseItemsBack(items: seq<(string, string, Scalar)>, sep: Tok, rest: seq<Tok>)
    requires items != [] && (rest == [] || rest[0] != sep)
    ensures ParseItems(Join(Items(items), [sep]) + rest, sep) == Some((items, rest))
  {
    var ts := Join(Items(items), [sep]) + rest;
    if |items| == 1 {
      assert ts[3..] == rest;
      assert items == [items[0]];
      assert |ts| > 3 ==> ts[3] == rest[0];
    } else {
      assert Items(items)[1..] == Items(items[1..]);
      ParseItemsBack(items[1..], sep, rest);
      assert ts[4..] == Join(Items(items[1..]), [sep]) + rest;
      assert items == [items[0]] + items[1..];
    }
  }

  lemma {:induction false} ParseNamesBack(cols: Columns, rest: seq<Tok>)
    requires cols != []
    ensures ParseNames(Join(Names(cols), [Comma]) + ([Close] + rest))
         == Some((seq(|cols|, i requires 0 <= i < |cols| => cols[i].0), rest))
  {
    var ts := Join(Names(cols), [Comma]) + ([Close] + rest);
    var names := seq(|cols|, i requires 0 <= i < |cols| => cols[i].0);
    if |cols| == 1 {
      assert ts[2..] == rest;
      assert names == [cols[0].0];
    } else {
      assert Names(cols)[1..] == Names(cols[1..]);
      ParseNamesBack(cols[1..], rest);
      assert ts[2..] == Join(Names(cols[1..]), [Comma]) + ([Close] + rest);
      var tail := seq(|cols| - 1, i requires 0 <= i < |cols| - 1 => cols[1..][i].0);
      assert names == [cols[0].0] + tail;
    }
  }

  function Literals(cols: Columns): seq<seq<Tok>> {
    seq(|cols|, i requires 0 <= i < |cols| => [Value(cols[i].1)])
  }

  lemma {:induction false} ParseValuesBack(cols: Columns, rest: seq<Tok>)
    requires cols != []
    ensures ParseValues(Join(Literals(cols), [Comma]) + ([Close] + rest)) == Some((Vals(cols), rest))
  {
    var ts := Join(Literals(cols), [Comma]) + ([Close] + rest);
    if |cols| == 1 {
      assert ts[2..] == rest;
      assert Vals(cols) == [cols[0].1];
    } else {
      assert Literals(cols)[1..] == Literals(cols[1..]);
      ParseValuesBack(cols[1..], rest);
      assert ts[2..] == Join(Literals(cols[1..]), [Comma]) + ([Close] + rest);
      assert Vals(cols) == [cols[0].1] + Vals(cols[1..]);
    }
  }

  // ---------------------------------------------------------------------------
  // Binding a comma or AND list
  // ---------------------------------------------------------------------------

  lemma NumberedAppend(a: seq<Tok>, b: seq<Tok>, vals: seq<Scalar>)
    ensures BindNumbered(a + b, vals) == BindNumbered(a, vals) + BindNumbered(b, vals)
  {
  }

  lemma {:induction false} NumberedJoin(parts: seq<seq<Tok>>, sep: Tok, vals: seq<Scalar>, bound: seq<seq<Tok>>)
    requires !sep.Numbered? && |bound| == |parts|
    requires forall i :: 0 <= i < |parts| ==> BindNumbered(parts[i], vals) == bound[i]
    ensures BindNumbered(Join(parts, [sep]), vals) == Join(bound, [sep])
  {
    if |parts| > 1 {
      NumberedJoin(parts[1..], sep, vals, bound[1..]);
      assert BindNumbered([sep], vals) == [sep];
      NumberedAppend(parts[0] + [sep], Join(parts[1..], [sep]), vals);
      NumberedAppend(parts[0], [sep], vals);
    }
  }

  lemma {:induction false} PositionalJoin(parts: seq<seq<Tok>>, sep: Tok, vals: seq<Scalar>, bound: seq<seq<Tok>>)
    requires !sep.Question? && |bound| == |parts| == |vals|
    requires forall i :: 0 <= i < |parts| ==> Marks(parts[i]) == 1 && BindPositional(parts[i], [vals[i]]) == bound[i]
    ensures BindPositional(Join(parts, [sep]), vals) == Join(bound, [sep])
    ensures Marks(Join(parts, [sep])) == |parts|
  {
    if |parts| == 1 {
      assert vals == [vals[0]];
    } else if |parts| > 1 {
      PositionalJoin(parts[1..], sep, vals[1..], bound[1..]);
      MarksAppend(parts[0] + [sep], Join(parts[1..], [sep]));
      MarksAppend(parts[0], [sep]);
      PositionalAppend(parts[0] + [sep], Join(parts[1..], [sep]), [vals[0]], vals[1..]);
      PositionalAppend(parts[0], [sep], [vals[0]], []);
      assert vals == [vals[0]] + vals[1..] && [vals[0]] + [] == [vals[0]];
      assert BindPositional([sep], []) == [sep] by {
        assert [sep][1..] == [];
      }
    }
  }

  predicate Plain(ts: seq<Tok>) {
    forall t :: t in ts ==> !t.Numbered? && !t.Question?
  }

  /** Tokens without placeholders are left alone by both drivers. */
  lemma {:induction false} PlainBinds(ts: seq<Tok>, vals: seq<Scalar>)
    requires Plain(ts)
    ensures BindNumbered(ts, vals) == ts
    ensures BindPositional(ts, []) == ts && Marks(ts) == 0
  {
    if ts != [] {
      PlainBinds(ts[1..], vals);
    }
  }

  lemma {:induction false} NamesPlain(cols: Columns)
    ensures Plain(Join(Names(cols), [Comma]))
  {
    if |cols| > 1 {
      assert Names(cols)[1..] == Names(cols[1..]);
      NamesPlain(cols[1..]);
      assert Join(Names(cols), [Comma]) == [Name(cols[0].0), Comma] + Join(Names(cols[1..]), [Comma]);
    } else if |cols| == 1 {
      assert Join(Names(cols), [Comma]) == [Name(cols[0].0)];
    }
  }

  function Triples(cols: Columns): seq<(string, string, Scalar)> {
    seq(|cols|, i requires 0 <= i < |cols| => (cols[i].0, "=", cols[i].1))
  }

  function ConditionTriples(conds: seq<Condition>): seq<(string, string, Scalar)> {
    seq(|conds|, i requires 0 <= i < |conds| => (conds[i].field, OperatorOf(conds[i]), conds[i].value))
  }

  /** The SET list of SQLite's `update` is the one its `updateAnd` writes. */
  lemma {:induction false} SqliteSetLists(cols: Columns)
    requires cols != []
    ensures Join(Names(cols), [EQUALS, Question, Comma]) + [EQUALS, Question]
         == Join(seq(|cols|, i requires 0 <= i < |cols| => [Name(cols[i].0), EQUALS, Question]), [Comma])
  {
    var parts := seq(|cols|, i requires 0 <= i < |cols| => [Name(cols[i].0), EQUALS, Question]);
    if |cols| > 1 {
      var t := cols[1..];
      SqliteSetLists(t);
      assert Names(cols)[1..] == Names(t);
      assert parts[1..] == seq(|t|, i requires 0 <= i < |t| => [Name(t[i].0), EQUALS, Question]);
    }
  }

  lemma PgSetsBind(cols: Columns, more: seq<Scalar>)
    ensures BindNumbered(PgSets(cols), Vals(cols) + more) == Join(Items(Triples(cols)), [Comma])
  {
    var parts := seq(|cols|, i requires 0 <= i < |cols| => [Name(cols[i].0), EQUALS, Numbered(i + 1)]);
    NumberedJoin(parts, Comma, Vals(cols) + more, Items(Triples(cols)));
  }

  lemma SqliteSetsBind(cols: Columns)
    ensures var sets := Join(seq(|cols|, i requires 0 <= i < |cols| => [Name(cols[i].0), EQUALS, Question]), [Comma]);
            BindPositional(sets, Vals(cols)) == Join(Items(Triples(cols)), [Comma]) && Marks(sets) == |cols|
  {
    var parts := seq(|cols|, i requires 0 <= i < |cols| => [Name(cols[i].0), EQUALS, Question]);
    forall i | 0 <= i < |cols|
      ensures Marks(parts[i]) == 1 && BindPositional(parts[i], [Vals(cols)[i]]) == Items(Triples(cols))[i]
    {
      OneMark(cols[i].0, "=", cols[i].1);
    }
    PositionalJoin(parts, Comma, Vals(cols), Items(Triples(cols)));
  }

  lemma OneMark(name: string, op: string, v: Scalar)
    ensures Marks([Name(name), Compare(op), Question]) == 1
    ensures BindPositional([Name(name), Compare(op), Question], [v]) == [Name(name), Compare(op), Value(v)]
  {
    var ts := [Name(name), Compare(op), Question];
    assert ts[1..] == [Compare(op), Question] && ts[1..][1..] == [Question] && [Question][1..] == [];
    assert [v][1..] == [];
    assert BindPositional([Question], [v]) == [Value(v)];
    assert BindPositional([Compare(op), Question], [v]) == [Compare(op), Value(v)];
    assert Marks([Question]) == 1 && Marks([Compare(op), Question]) == 1;
  }

  /** A question-mark text in three parts of which only the middle and the last have marks. */
  lemma PositionalFrame(head: seq<Tok>, a: seq<Tok>, gap: seq<Tok>, b: seq<Tok>, tail: seq<Tok>,
                        va: seq<Scalar>, vb: seq<Scalar>)
    requires Plain(head)
    requires Plain(gap)
    requires Plain(tail)
    requires Marks(a) == |va| && Marks(b) == |vb|
    ensures BindPositional(head + a + gap + b + tail, va + vb)
         == head + BindPositional(a, va) + gap + BindPositional(b, vb) + tail
  {
    hide BindPositional, Marks, Plain;
    PlainBinds(head, []);
    PlainBinds(gap, []);
    PlainBinds(tail, []);
    var none: seq<Scalar> := [];
    assert none + va == va && va + none == va && va + vb + none == va + vb;
    MarksAppend(head, a);
    MarksAppend(head + a, gap);
    MarksAppend(head + a + gap, b);
    PositionalAppend(head, a, none, va);
    PositionalAppend(head + a, gap, va, none);
    PositionalAppend(head + a + gap, b, va, vb);
    PositionalAppend(head + a + gap + b, tail, va + vb, none);
  }

  lemma NumberedFrame(head: seq<Tok>, a: seq<Tok>, gap: seq<Tok>, b: seq<Tok>, tail: seq<Tok>, vals: seq<Scalar>)
    requires Plain(head)
    requires Plain(gap)
    requires Plain(tail)
    ensures BindNumbered(head + a + gap + b + tail, vals)
         == head + BindNumbered(a, vals) + gap + BindNumbered(b, vals) + tail
  {
    hide BindNumbered, Plain;
    PlainBinds(head, vals);
    PlainBinds(gap, vals);
    PlainBinds(tail, vals);
    NumberedAppend(head, a, vals);
    NumberedAppend(head + a, gap, vals);
    NumberedAppend(head + a + gap, b, vals);
    NumberedAppend(head + a + gap + b, tail, vals);
  }

  // ---------------------------------------------------------------------------
  // Both drivers denote the statement that was asked for
  // ---------------------------------------------------------------------------

  function ColumnNames(cols: Columns): seq<string> {
    seq(|cols|, i requires 0 <= i < |cols| => cols[i].0)
  }

  lemma InsertDenotes(table: string, cols: Columns)
    ensures Parse(BindNumbered(PgInsert(table, cols), Vals(cols)))
         == Parse(BindPositional(SqliteInsert(table, cols), Vals(cols)))
         == if cols == [] then None else Some(Insert(table, ColumnNames(cols), Vals(cols)))
  {
    hide Parse, ParseNames, ParseValues, ParseItems;
    var pg := seq(|cols|, i requires 0 <= i < |cols| => [Numbered(i + 1)]);
    var sq := seq(|cols|, i requires 0 <= i < |cols| => [Question]);
    var names := Join(Names(cols), [Comma]);
    var head := [Word("INSERT INTO"), Name(table), Open] + names + [Close, Word("VALUES"), Open];
    var lits := Join(Literals(cols), [Comma]);
    var tail := [Close] + RETURNING;
    NamesPlain(cols);
    NumberedJoin(pg, Comma, Vals(cols), Literals(cols));
    forall i | 0 <= i < |cols|
      ensures Marks(sq[i]) == 1 && BindPositional(sq[i], [Vals(cols)[i]]) == Literals(cols)[i]
    {
      assert [Question][1..] == [];
    }
    PositionalJoin(sq, Comma, Vals(cols), Literals(cols));
    assert Plain(head);
    NumberedFrame(head, Join(pg, [Comma]), [], [], tail, Vals(cols));
    PositionalFrame(head, Join(sq, [Comma]), [], [], tail, Vals(cols), []);
    assert Vals(cols) + [] == Vals(cols);
    assert PgInsert(table, cols) == head + Join(pg, [Comma]) + [] + [] + tail;
    assert SqliteInsert(table, cols) == head + Join(sq, [Comma]) + [] + [] + tail;
    var bound := head + lits + tail;
    assert BindNumbered(PgInsert(table, cols), Vals(cols)) == bound;
    assert BindPositional(SqliteInsert(table, cols), Vals(cols)) == bound;
    InsertParses(table, cols, bound);
  }

  lemma InsertParses(table: string, cols: Columns, bound: seq<Tok>)
    requires bound == [Word("INSERT INTO"), Name(table), Open] + Join(Names(cols), [Comma])
                      + [Close, Word("VALUES"), Open] + Join(Literals(cols), [Comma]) + ([Close] + RETURNING)
    ensures Parse(bound) == if cols == [] then None else Some(Insert(table, ColumnNames(cols), Vals(cols)))
  {
    var after := [Word("VALUES"), Open] + (Join(Literals(cols), [Comma]) + ([Close] + RETURNING));
    assert bound[3..] == Join(Names(cols), [Comma]) + ([Close] + after);
    if cols != [] {
      ParseNamesBack(cols, after);
      ParseValuesBack(cols, RETURNING);
      assert after[2..] == Join(Literals(cols), [Comma]) + ([Close] + RETURNING);
      assert after[..2] == [Word("VALUES"), Open];
    } else {
      assert bound[3..][0] == Close;
    }
  }

  lemma UpdateParses(table: string, cols: Columns, conds: seq<(string, string, Scalar)>, bound: seq<Tok>)
    requires cols != [] && conds != []
    requires bound == UpdateText(table, Join(Items(Triples(cols)), [Comma]), Join(Items(conds), [Word("AND")]))
    ensures Parse(bound) == Some(Update(table, cols, conds))
  {
    hide Join, Items, ParseItems, ParseNames, ParseValues;
    var where := [Word("WHERE")] + (Join(Items(conds), [Word("AND")]) + RETURNING);
    ParseItemsBack(Triples(cols), Comma, where);
    ParseItemsBack(conds, Word("AND"), RETURNING);
    assert bound[3..] == Join(Items(Triples(cols)), [Comma]) + where;
    assert where[1..] == Join(Items(conds), [Word("AND")]) + RETURNING;
    var t := Triples(cols);
    assert seq(|t|, i requires 0 <= i < |t| => (t[i].0, t[i].2)) == cols;
  }

  /** `SET` without an assignment behind it is no statement. */
  lemma NothingSet(ts: seq<Tok>, vals: seq<Scalar>)
    requires |ts| >= 4 && ts[..3] == [Word("UPDATE"), ts[1], Word("SET")]
    requires !ts[1].Question? && !ts[3].Name? && !ts[3].Question? && !ts[3].Numbered?
    ensures Parse(BindNumbered(ts, vals)) == None && Parse(BindPositional(ts, vals)) == None
  {
    hide ParseNames, ParseValues;
    assert ts[0] == ts[..3][0] && ts[2] == ts[..3][2];
    var positional := BindPositional(ts, vals);
    assert ts[1..][1..] == ts[2..] && ts[2..][1..] == ts[3..];
    assert positional == [ts[0]] + BindPositional(ts[1..], vals);
    assert BindPositional(ts[1..], vals) == [ts[1]] + BindPositional(ts[2..], vals);
    assert BindPositional(ts[2..], vals) == [ts[2]] + BindPositional(ts[3..], vals);
    assert BindPositional(ts[3..], vals)[0] == ts[3];
    assert positional[3..][0] == ts[3] && BindNumbered(ts, vals)[3..][0] == ts[3];
  }

  lemma UpdateDenotes(table: string, cols: Columns, field: string, value: Scalar)
    ensures Parse(BindNumbered(PgUpdate(table, cols, field), Vals(cols) + [value]))
         == Parse(BindPositional(SqliteUpdate(table, cols, field), Vals(cols) + [value]))
         == if cols == [] then None else Some(Update(table, cols, [(field, "=", value)]))
  {
    if cols == [] {
      NothingSet(PgUpdate(table, cols, field), Vals(cols) + [value]);
      NothingSet(SqliteUpdate(table, cols, field), Vals(cols) + [value]);
    } else {
      UpdateOfColumns(table, cols, field, value);
    }
  }

  lemma UpdateOfColumns(table: string, cols: Columns, field: string, value: Scalar)
    requires cols != []
    ensures Parse(BindNumbered(PgUpdate(table, cols, field), Vals(cols) + [value]))
         == Parse(BindPositional(SqliteUpdate(table, cols, field), Vals(cols) + [value]))
         == Some(Update(table, cols, [(field, "=", value)]))
  {
    var head := [Word("UPDATE"), Name(table), Word("SET")];
    var sets := Join(Items(Triples(cols)), [Comma]);
    var conds := [(field, "=", value)];
    var last := [Name(field), EQUALS, Value(value)];
    assert Join(Items(conds), [Word("AND")]) == last;
    PgSetsBind(cols, [value]);
    var pg := [Name(field), EQUALS, Numbered(|cols| + 1)];
    assert BindNumbered(pg, Vals(cols) + [value]) == last;
    NumberedFrame(head, PgSets(cols), [Word("WHERE")], pg, RETURNING, Vals(cols) + [value]);
    SqliteSetsBind(cols);
    SqliteSetLists(cols);
    OneMark(field, "=", value);
    PositionalFrame(head, Join(seq(|cols|, i requires 0 <= i < |cols| => [Name(cols[i].0), EQUALS, Question]), [Comma]),
                    [Word("WHERE")], [Name(field), EQUALS, Question], RETURNING, Vals(cols), [value]);
    UpdateParses(table, cols, conds, UpdateText(table, sets, last));
  }

  lemma UpdateAndDenotes(table: string, cols: Columns, field1: string, v1: Scalar, field2: string, v2: Scalar)
    ensures Parse(BindNumbered(PgUpdateAnd(table, cols, field1, field2), Vals(cols) + [v1, v2]))
         == Parse(BindPositional(SqliteUpdateAnd(table, cols, field1, field2), Vals(cols) + [v1, v2]))
         == if cols == [] then None else Some(Update(table, cols, [(field1, "=", v1), (field2, "=", v2)]))
  {
    if cols == [] {
      NothingSet(PgUpdateAnd(table, cols, field1, field2), Vals(cols) + [v1, v2]);
      NothingSet(SqliteUpdateAnd(table, cols, field1, field2), Vals(cols) + [v1, v2]);
    } else {
      UpdateAndOfColumns(table, cols, field1, v1, field2, v2);
    }
  }

  lemma UpdateAndOfColumns(table: string, cols: Columns, field1: string, v1: Scalar, field2: string, v2: Scalar)
    requires cols != []
    ensures Parse(BindNumbered(PgUpdateAnd(table, cols, field1, field2), Vals(cols) + [v1, v2]))
         == Parse(BindPositional(SqliteUpdateAnd(table, cols, field1, field2), Vals(cols) + [v1, v2]))
         == Some(Update(table, cols, [(field1, "=", v1), (field2, "=", v2)]))
  {
    var head := [Word("UPDATE"), Name(table), Word("SET")];
    var conds := [(field1, "=", v1), (field2, "=", v2)];
    var last := [Name(field1), EQUALS, Value(v1), Word("AND"), Name(field2), EQUALS, Value(v2)];
    assert Items(conds)[1..] == [[Name(field2), EQUALS, Value(v2)]];
    assert Join(Items(conds), [Word("AND")]) == last;
    PgSetsBind(cols, [v1, v2]);
    var pg := [Name(field1), EQUALS, Numbered(|cols| + 1), Word("AND"), Name(field2), EQUALS, Numbered(|cols| + 2)];
    assert BindNumbered(pg, Vals(cols) + [v1, v2]) == last;
    NumberedFrame(head, PgSets(cols), [Word("WHERE")], pg, RETURNING, Vals(cols) + [v1, v2]);
    SqliteSetsBind(cols);
    TwoMarks(field1, v1, field2, v2);
    PositionalFrame(head, Join(seq(|cols|, i requires 0 <= i < |cols| => [Name(cols[i].0), EQUALS, Question]), [Comma]),
                    [Word("WHERE")],
                    [Name(field1), EQUALS, Question, Word("AND"), Name(field2), EQUALS, Question],
                    RETURNING, Vals(cols), [v1, v2]);
    UpdateParses(table, cols, conds, UpdateText(table, Join(Items(Triples(cols)), [Comma]), last));
  }

  lemma TwoMarks(field1: string, v1: Scalar, field2: string, v2: Scalar)
    ensures var ts := [Name(field1), EQUALS, Question, Word("AND"), Name(field2), EQUALS, Question];
            Marks(ts) == 2 &&
            BindPositional(ts, [v1, v2]) ==
            [Name(field1), EQUALS, Value(v1), Word("AND"), Name(field2), EQUALS, Value(v2)]
  {
    var a, b := [Name(field1), EQUALS, Question], [Name(field2), EQUALS, Question];
    var ts := [Name(field1), EQUALS, Question, Word("AND"), Name(field2), EQUALS, Question];
    OneMark(field1, "=", v1);
    OneMark(field2, "=", v2);
    assert ts == [] + a + [Word("AND")] + b + [] && [v1] + [v2] == [v1, v2];
    PositionalFrame([], a, [Word("AND")], b, [], [v1], [v2]);
    MarksAppend(a, [Word("AND")] + b);
    MarksAppend([Word("AND")], b);
    PlainBinds([Word("AND")], []);
    assert ts == a + ([Word("AND")] + b);
  }

  /** What each condition compares, an equality where no operator is given. */
  function Compared(conds: seq<Condition>): seq<(string, string, Scalar)> {
    seq(|conds|, i requires 0 <= i < |conds| =>
      (conds[i].field, match conds[i].operator { case Some(operator) => operator case None => "=" }, conds[i].value))
  }

  /** Both drivers ask for the rows they wrote. */
  lemma TextsReturnRows(table: string, cols: Columns, field: string)
    ensures PgInsert(table, cols)[|PgInsert(table, cols)| - 1] == Word("RETURNING *")
    ensures PgUpdate(table, cols, field)[|PgUpdate(table, cols, field)| - 1] == Word("RETURNING *")
  {
  }

  lemma ComparedAre(conds: seq<Condition>)
    ensures ConditionTriples(conds) == Compared(conds)
  {
  }

  /** An empty condition list leaves `WHERE` without a condition, which is no statement. */
  lemma DeleteWhereDenotes(table: string, conds: seq<Condition>)
    ensures Parse(BindNumbered(PgDeleteWhere(table, conds), ConditionValues(conds)))
         == Parse(BindPositional(SqliteDeleteWhere(table, conds), ConditionValues(conds)))
         == if conds == [] then None else Some(Delete(table, Compared(conds)))
  {
    ComparedAre(conds);
    hide Parse, Items, Compared;
    var head := [Word("DELETE FROM"), Name(table), Word("WHERE")];
    var vals, items := ConditionValues(conds), Items(ConditionTriples(conds));
    var pg := seq(|conds|, i requires 0 <= i < |conds| =>
      [Name(conds[i].field), Compare(OperatorOf(conds[i])), Numbered(i + 1)]);
    var sq := seq(|conds|, i requires 0 <= i < |conds| =>
      [Name(conds[i].field), Compare(OperatorOf(conds[i])), Question]);
    ItemsOf(conds);
    forall i | 0 <= i < |conds| ensures BindNumbered(pg[i], vals) == items[i] {
      assert pg[i] == [Name(conds[i].field), Compare(OperatorOf(conds[i])), Numbered(i + 1)];
    }
    NumberedJoin(pg, Word("AND"), vals, items);
    forall i | 0 <= i < |conds| ensures Marks(sq[i]) == 1 && BindPositional(sq[i], [vals[i]]) == items[i] {
      OneMark(conds[i].field, OperatorOf(conds[i]), conds[i].value);
      assert sq[i] == [Name(conds[i].field), Compare(OperatorOf(conds[i])), Question];
    }
    PositionalJoin(sq, Word("AND"), vals, items);
    NumberedFrame(head, Join(pg, [Word("AND")]), [], [], [], vals);
    PositionalFrame(head, Join(sq, [Word("AND")]), [], [], [], vals, []);
    assert vals + [] == vals;
    assert PgDeleteWhere(table, conds) == head + Join(pg, [Word("AND")]) + [] + [] + [];
    assert SqliteDeleteWhere(table, conds) == head + Join(sq, [Word("AND")]) + [] + [] + [];
    var bound := head + Join(items, [Word("AND")]);
    assert BindNumbered(PgDeleteWhere(table, conds), vals) == bound + BindNumbered([], vals) == bound;
    assert BindPositional(SqliteDeleteWhere(table, conds), vals) == bound;
    DeleteParses(table, ConditionTriples(conds));
  }

  lemma DeleteParses(table: string, conds: seq<(string, string, Scalar)>)
    ensures Parse([Word("DELETE FROM"), Name(table), Word("WHERE")] + Join(Items(conds), [Word("AND")]))
         == if conds == [] then None else Some(Delete(table, conds))
  {
    var bound := [Word("DELETE FROM"), Name(table), Word("WHERE")] + Join(Items(conds), [Word("AND")]);
    assert bound[3..] == Join(Items(conds), [Word("AND")]) + [];
    if conds != [] {
      ParseItemsBack(conds, Word("AND"), []);
    }
  }

  lemma ItemsOf(conds: seq<Condition>)
    ensures |Items(ConditionTriples(conds))| == |conds|
    ensures forall i :: 0 <= i < |conds| ==>
              Items(ConditionTriples(conds))[i] ==
              [Name(conds[i].field), Compare(OperatorOf(conds[i])), Value(conds[i].value)]
  {
  }

  // ---------------------------------------------------------------------------
  // The table change
  // ---------------------------------------------------------------------------

  type Row = map<string, Scalar>

  function Assign(row: Row, cols: Columns): Row
    decreases |cols|
  {
    if cols == [] then row else Assign(row[cols[0].0 := cols[0].1], cols[1..])
  }

  predicate DistinctColumns(cols: Columns) {
    forall i, j :: 0 <= i < j < |cols| ==> cols[i].0 != cols[j].0
  }

  predicate Matches(row: Row, conds: seq<(string, string, Scalar)>, holds: (string, Scalar, Scalar) -> bool) {
    forall i :: 0 <= i < |conds| ==> conds[i].0 in row && holds(conds[i].1, row[conds[i].0], conds[i].2)
  }

  /** What a statement does to the rows of its table. */
  function Execute(s: Statement, rows: seq<Row>, holds: (string, Scalar, Scalar) -> bool): seq<Row> {
    match s
    case Insert(_, names, values) =>
      rows + [Assign(map[], seq(|names|, i requires 0 <= i < |names| =>
        (names[i], if i < |values| then values[i] else Num(0))))]
    case Update(_, sets, conds) =>
      seq(|rows|, i requires 0 <= i < |rows| =>
        if Matches(rows[i], conds, holds) then Assign(rows[i], sets) else rows[i])
    case Delete(_, conds) => Unmatched(rows, conds, holds)
  }

  function Unmatched(rows: seq<Row>, conds: seq<(string, string, Scalar)>,
                     holds: (string, Scalar, Scalar) -> bool): seq<Row> {
    if rows == [] then []
    else (if Matches(rows[0], conds, holds) then [] else [rows[0]]) + Unmatched(rows[1..], conds, holds)
  }

  /** Every column of the record gets its own value, every other column keeps what it had. */
  lemma {:induction false} AssignOwnColumns(row: Row, cols: Columns)
    requires DistinctColumns(cols)
    decreases |cols|
    ensures forall i :: 0 <= i < |cols| ==> cols[i].0 in Assign(row, cols) && Assign(row, cols)[cols[i].0] == cols[i].1
    ensures forall c :: c !in ColumnNames(cols) ==>
                          (c in Assign(row, cols) <==> c in row) && (c in row ==> Assign(row, cols)[c] == row[c])
  {
    if cols != [] {
      var t := cols[1..];
      AssignOwnColumns(row[cols[0].0 := cols[0].1], t);
      assert forall i :: 0 < i < |cols| ==> cols[i] == t[i - 1];
      assert cols[0].0 !in ColumnNames(t);
      assert ColumnNames(cols) == [cols[0].0] + ColumnNames(t);
    }
  }

  /** `update` through either driver: in every row that matches, each named column holds the value given for it
      and every other column what it held; the other rows stay. */
  lemma UpdateChange(table: string, cols: Columns, field: string, value: Scalar, rows: seq<Row>,
                     holds: (string, Scalar, Scalar) -> bool, i: nat)
    requires cols != [] && DistinctColumns(cols) && i < |rows|
    ensures var parsed := Parse(BindPositional(SqliteUpdate(table, cols, field), Vals(cols) + [value]));
            parsed == Parse(BindNumbered(PgUpdate(table, cols, field), Vals(cols) + [value])) && parsed.Some? &&
            var after := Execute(parsed.value, rows, holds);
            |after| == |rows| &&
            if field in rows[i] && holds("=", rows[i][field], value)
            then (forall k :: 0 <= k < |cols| ==> cols[k].0 in after[i] && after[i][cols[k].0] == cols[k].1) &&
                 (forall c :: c !in ColumnNames(cols) ==>
                    (c in after[i] <==> c in rows[i]) && (c in rows[i] ==> after[i][c] == rows[i][c]))
            else after[i] == rows[i]
  {
    UpdateDenotes(table, cols, field, value);
    AssignOwnColumns(rows[i], cols);
    var conds := [(field, "=", value)];
    assert Matches(rows[i], conds, holds) <==> field in rows[i] && holds("=", rows[i][field], value) by {
      assert conds[0] == (field, "=", value);
    }
  }
}
