/** Hash rows inserted by a pool of workers, and the hashes pushed for the same users. */
module UpdateHash {
  import opened Options
  import PepperRotation

  type Row = PepperRotation.Row

  datatype ValueField = ValueField(active: int, email: Option<string>, phone: Option<string>)

  /** The data is a record keyed by Matrix address, in key order. */
  datatype User = User(address: string, data: ValueField)

  datatype Field = Phone | Email

  datatype Param = Param(address: string, method_: string, field: Field, value: string, active: int)

  /** hash[method](text). */
  type Hasher = (string, string) -> string

  const FIELDS_TO_HASH := [Phone, Email]
  const SUPPORTED_HASHES := ["sha256"]
  const JOBS := 5

  // ---------------------------------------------------------------------------
  // Reading the data
  // ---------------------------------------------------------------------------

  function FieldOf(u: User, f: Field): Option<string> {
    match f
    case Phone => u.data.phone
    case Email => u.data.email
  }

  predicate HasField(u: User, f: Field) {
    FieldOf(u, f).Some? && FieldOf(u, f).value != ""
  }

  function ParamOf(u: User, f: Field, m: string): Param
    requires HasField(u, f)
  {
    Param(u.address, m, f, FieldOf(u, f).value, u.data.active)
  }

  function FieldParams(u: User, f: Field, methods: seq<string>): seq<Param> {
    if methods == [] || !HasField(u, f) then []
    else FieldParams(u, f, methods[..|methods| - 1]) + [ParamOf(u, f, methods[|methods| - 1])]
  }

  function UserParams(u: User, fields: seq<Field>): seq<Param> {
    if fields == [] then []
    else UserParams(u, fields[..|fields| - 1]) + FieldParams(u, fields[|fields| - 1], SUPPORTED_HASHES)
  }

  function Params(data: seq<User>): seq<Param> {
    if data == [] then []
    else Params(data[..|data| - 1]) + UserParams(data[|data| - 1], FIELDS_TO_HASH)
  }

  /** The three nested loops that push parameters. */
  method CollectParams(data: seq<User>) returns (params: seq<Param>)
    ensures params == Params(data)
  {
    params := [];
    for i := 0 to |data|
      invariant params == Params(data[..i])
    {
      assert data[..i + 1][..i] == data[..i];
      for j := 0 to |FIELDS_TO_HASH|
        invariant params == Params(data[..i]) + UserParams(data[i], FIELDS_TO_HASH[..j])
      {
        var f := FIELDS_TO_HASH[j];
        ghost var before := params;
        assert FIELDS_TO_HASH[..j + 1][..j] == FIELDS_TO_HASH[..j];
        if HasField(data[i], f) {
          for m := 0 to |SUPPORTED_HASHES|
            invariant params == before + FieldParams(data[i], f, SUPPORTED_HASHES[..m])
          {
            assert SUPPORTED_HASHES[..m + 1][..m] == SUPPORTED_HASHES[..m];
            params := params + [ParamOf(data[i], f, SUPPORTED_HASHES[m])];
          }
          assert SUPPORTED_HASHES[..|SUPPORTED_HASHES|] == SUPPORTED_HASHES;
        }
        assert params == before + FieldParams(data[i], f, SUPPORTED_HASHES);
      }
      assert FIELDS_TO_HASH[..|FIELDS_TO_HASH|] == FIELDS_TO_HASH;
    }
    assert data[..|data|] == data;
  }

  lemma {:induction false} FieldParamsAre(u: User, f: Field, methods: seq<string>, p: Param)
    ensures p in FieldParams(u, f, methods) <==> HasField(u, f) && p.method_ in methods && p == ParamOf(u, f, p.method_)
  {
    if methods != [] {
      FieldParamsAre(u, f, methods[..|methods| - 1], p);
      assert methods == methods[..|methods| - 1] + [methods[|methods| - 1]];
    }
  }

  lemma {:induction false} UserParamsAre(u: User, fields: seq<Field>, p: Param)
    ensures p in UserParams(u, fields) <==>
      p.field in fields && HasField(u, p.field) && p.method_ in SUPPORTED_HASHES && p == ParamOf(u, p.field, p.method_)
  {
    if fields != [] {
      var n := |fields| - 1;
      UserParamsAre(u, fields[..n], p);
      FieldParamsAre(u, fields[n], SUPPORTED_HASHES, p);
      assert fields == fields[..n] + [fields[n]];
    }
  }

  /** Parameters are exactly the non-empty fields of the users, for every supported method. */
  lemma {:induction false} ParamsAre(data: seq<User>, p: Param)
    ensures p in Params(data) <==>
      exists u :: u in data && HasField(u, p.field) && p.method_ in SUPPORTED_HASHES &&
                  p == ParamOf(u, p.field, p.method_)
  {
    hide UserParams;
    if data != [] {
      var n := |data| - 1;
      ParamsAre(data[..n], p);
      UserParamsAre(data[n], FIELDS_TO_HASH, p);
      assert data == data[..n] + [data[n]];
      assert p.field in FIELDS_TO_HASH by {
        assert FIELDS_TO_HASH[0] == Phone && FIELDS_TO_HASH[1] == Email;
      }
    }
  }

  // ---------------------------------------------------------------------------
  // Hash keys
  // ---------------------------------------------------------------------------

  /** What `\s` matches. */
  predicate Space(c: char) {
    || c == ' ' || '\t' <= c <= '\r' || c == '\U{00A0}' || c == '\U{FEFF}' || c == '\U{1680}'
    || '\U{2000}' <= c <= '\U{200A}' || c == '\U{2028}' || c == '\U{2029}' || c == '\U{202F}'
    || c == '\U{205F}' || c == '\U{3000}'
  }

  /** By code: tab to carriage return, the blanks and separators of Unicode, and the byte order mark. */
  lemma SpaceCodes(c: char)
    ensures Space(c) <==>
            var u := c as int;
            || 9 <= u <= 13 || 8192 <= u <= 8202
            || u in {32, 160, 5760, 8232, 8233, 8239, 8287, 12288, 65279}
  {
  }

  function Despaced(s: string): string {
    if s == "" then "" else (if Space(s[0]) then "" else [s[0]]) + Despaced(s[1..])
  }

  /** Blanks go, then one leading plus sign. */
  function PhoneNumber(s: string): string {
    var t := Despaced(s);
    if t != "" && t[0] == '+' then t[1..] else t
  }

  lemma {:induction false} DespacedSplit(a: string, b: string)
    ensures Despaced(a + b) == Despaced(a) + Despaced(b)
  {
    if a == "" {
      assert a + b == b;
    } else {
      assert (a + b)[1..] == a[1..] + b;
      DespacedSplit(a[1..], b);
    }
  }

  lemma {:induction false} PlainNumbersStay(s: string)
    requires forall i :: 0 <= i < |s| ==> !Space(s[i])
    ensures Despaced(s) == s
    ensures PhoneNumber(s) == s <==> s == "" || s[0] != '+'
  {
    if s != "" {
      PlainNumbersStay(s[1..]);
      assert s == [s[0]] + s[1..];
    }
  }

  /** A blank makes no difference, wherever it stands. A leading plus makes none exactly when the number does
      not begin with another one. */
  lemma SpellingsOfOneNumber(a: string, blank: char, b: string, s: string)
    requires Space(blank)
    ensures PhoneNumber(a + [blank] + b) == PhoneNumber(a + b)
    ensures PhoneNumber(['+'] + s) == PhoneNumber(s) <==> !(Despaced(s) != "" && Despaced(s)[0] == '+')
  {
    assert Despaced([blank]) == "" by {
      assert [blank][1..] == "";
    }
    assert a + [blank] + b == a + ([blank] + b);
    DespacedSplit(a, [blank] + b);
    DespacedSplit([blank], b);
    DespacedSplit(a, b);
    assert "" + Despaced(b) == Despaced(b);
    PlainNumbersStay("+");
    DespacedSplit("+", s);
    assert ("+" + Despaced(s))[1..] == Despaced(s);
    assert Despaced(s) != "" ==> |Despaced(s)[1..]| != |Despaced(s)|;
  }

  function Contact(f: Field, value: string): string {
    if f.Phone? then PhoneNumber(value) else value
  }

  function Kind(f: Field): string {
    if f.Phone? then "msisdn" else "email"
  }

  function HashKey(h: Hasher, m: string, f: Field, value: string, pepper: string): string {
    h(m, PepperRotation.Preimage(Contact(f, value), Kind(f), pepper))
  }

  function KeyOf(h: Hasher, p: Param, pepper: string): string {
    HashKey(h, p.method_, p.field, p.value, pepper)
  }

  function RowOf(p: Param, pepper: string): Row {
    PepperRotation.Row(pepper, Kind(p.field), p.address, p.active)
  }

  // ---------------------------------------------------------------------------
  // The pool of workers
  // ---------------------------------------------------------------------------

  /** One parameter's way through the pool; `Inserting` and `Done` record the pepper of its row. */
  datatype Worker =
    | Waiting
    | Reading
    | Replied(data: string)
    | Inserting(pepper: string)
    | Done(pepper: string)
    | Failed

  /** `pepper` is the variable the workers share, `key` the stored pepper. */
  datatype State = State(pepper: string, key: string, table: map<string, Row>, workers: seq<Worker>)

  datatype Event =
    | Acquire(i: nat)
    | Reply(i: nat)
    | Resume(i: nat)
    | Insert(i: nat)
    | Rotate(newPepper: string)

  /** A worker whose insert is refused is never released. */
  predicate Busy(w: Worker) {
    !w.Waiting? && !w.Done?
  }

  function CountBusy(ws: seq<Worker>): nat {
    if ws == [] then 0 else (if Busy(ws[0]) then 1 else 0) + CountBusy(ws[1..])
  }

  function CountDone(ws: seq<Worker>): nat {
    if ws == [] then 0 else (if ws[0].Done? then 1 else 0) + CountDone(ws[1..])
  }

  predicate Enabled(s: State, e: Event) {
    match e
    case Acquire(i) => i < |s.workers| && s.workers[i].Waiting? && CountBusy(s.workers) < JOBS
    case Reply(i) => i < |s.workers| && s.workers[i].Reading?
    case Resume(i) => i < |s.workers| && s.workers[i].Replied?
    case Insert(i) => i < |s.workers| && s.workers[i].Inserting?
    case Rotate(_) => true
  }

  function Next(h: Hasher, ps: seq<Param>, s: State, e: Event): State
    requires |s.workers| == |ps|
  {
    if !Enabled(s, e) then s else
    match e
    case Acquire(i) => s.(workers := s.workers[i := if s.pepper == "" then Reading else Inserting(s.pepper)])
    case Reply(i) => s.(workers := s.workers[i := Replied(s.key)])
    case Resume(i) => s.(pepper := s.workers[i].data, workers := s.workers[i := Inserting(s.workers[i].data)])
    case Insert(i) =>
      var pepper := s.workers[i].pepper;
      var k := KeyOf(h, ps[i], pepper);
      if k in s.table then s.(workers := s.workers[i := Failed])
      else s.(table := s.table[k := RowOf(ps[i], pepper)], workers := s.workers[i := Done(pepper)])
    case Rotate(p) => s.(key := p)
  }

  function Run(h: Hasher, ps: seq<Param>, s: State, es: seq<Event>): (t: State)
    requires |s.workers| == |ps|
    ensures |t.workers| == |ps|
    decreases |es|
  {
    if es == [] then s else Run(h, ps, Next(h, ps, s, es[0]), es[1..])
  }

  /** The pepper that a worker has read serves all that are acquired later, whatever is stored by then. */
  lemma PepperIsShared(h: Hasher, ps: seq<Param>, s: State, i: nat, j: nat, newPepper: string)
    requires |s.workers| == |ps| && i < |ps| && j < |ps| && i != j
    requires s.workers[i].Replied? && s.workers[i].data != "" && s.workers[j].Waiting? && CountBusy(s.workers) < 5
    ensures var read := Next(h, ps, s, Resume(i));
            var rotated := Next(h, ps, read, Rotate(newPepper));
            var acquired := Next(h, ps, rotated, Acquire(j));
            && read.workers[i] == Inserting(s.workers[i].data) && rotated.key == newPepper
            && acquired.workers[j] == Inserting(s.workers[i].data) && acquired.table == s.table
  {
    CountsAt(s.workers, i, Inserting(s.workers[i].data));
  }

  function Start(given: string, key: string, table: map<string, Row>, ps: seq<Param>): State {
    State(given, key, table, seq(|ps|, _ => Waiting))
  }

  predicate Finished(s: State) {
    forall i :: 0 <= i < |s.workers| ==> s.workers[i].Done?
  }

  lemma {:induction false} CountsAt(ws: seq<Worker>, i: nat, w: Worker)
    requires i < |ws|
    ensures CountBusy(ws[i := w]) == CountBusy(ws) - (if Busy(ws[i]) then 1 else 0) + (if Busy(w) then 1 else 0)
    ensures CountDone(ws[i := w]) == CountDone(ws) - (if ws[i].Done? then 1 else 0) + (if w.Done? then 1 else 0)
  {
    if i == 0 {
      assert ws[i := w][1..] == ws[1..];
    } else {
      assert ws[i := w][1..] == ws[1..][i - 1 := w];
      CountsAt(ws[1..], i - 1, w);
    }
  }

  lemma {:induction false} CountDoneBounds(ws: seq<Worker>)
    ensures CountDone(ws) <= |ws|
    ensures CountDone(ws) == |ws| <==> forall i :: 0 <= i < |ws| ==> ws[i].Done?
  {
    if ws != [] {
      CountDoneBounds(ws[1..]);
      assert (forall i :: 0 <= i < |ws| ==> ws[i].Done?) <==>
          ws[0].Done? && forall i :: 0 <= i < |ws[1..]| ==> ws[1..][i].Done? by {
        if ws[0].Done? && forall i :: 0 <= i < |ws[1..]| ==> ws[1..][i].Done? {
          assert forall i :: 1 <= i < |ws| ==> ws[i] == ws[1..][i - 1];
        }
      }
    }
  }

  /** The peppers a worker carries. */
  predicate PepperIn(w: Worker, peppers: set<string>) {
    match w
    case Replied(p) => p in peppers
    case Inserting(p) => p in peppers
    case Done(p) => p in peppers
    case _ => true
  }

  /** The table is the initial one and one row for every worker that is done. */
  ghost predicate Inv(h: Hasher, ps: seq<Param>, table: map<string, Row>, peppers: set<string>, s: State) {
    && |s.workers| == |ps|
    && (s.pepper != "" ==> s.pepper in peppers) && s.key in peppers
    && (forall i :: 0 <= i < |ps| ==> PepperIn(s.workers[i], peppers))
    && (forall k :: k in table ==> k in s.table && s.table[k] == table[k])
    && (forall i :: 0 <= i < |ps| && s.workers[i].Done? ==> RowOfWorker(h, ps[i], s.workers[i].pepper, table, s.table))
    && (forall k :: k in s.table && k !in table ==> OfWorker(h, ps, s, k))
    && |s.table| == |table| + CountDone(s.workers)
    && CountBusy(s.workers) <= JOBS
  }

  predicate RowOfWorker(h: Hasher, p: Param, pepper: string, before: map<string, Row>, after: map<string, Row>) {
    var k := KeyOf(h, p, pepper);
    k !in before && k in after && after[k] == RowOf(p, pepper)
  }

  ghost predicate OfWorker(h: Hasher, ps: seq<Param>, s: State, k: string)
    requires |s.workers| == |ps|
  {
    exists i :: 0 <= i < |ps| && s.workers[i].Done? && k == KeyOf(h, ps[i], s.workers[i].pepper)
  }

  function Peppers(e: Event): set<string> {
    if e.Rotate? then {e.newPepper} else {}
  }

  /** A step of worker `i` that does not touch the table. */
  lemma WorkerMoves(h: Hasher, ps: seq<Param>, table: map<string, Row>, peppers: set<string>, s: State, i: nat,
      w: Worker, pepper: string)
    requires Inv(h, ps, table, peppers, s) && i < |ps| && !s.workers[i].Done? && !w.Done?
    requires PepperIn(w, peppers) && (pepper != "" ==> pepper in peppers)
    requires Busy(s.workers[i]) || CountBusy(s.workers) < JOBS
    ensures Inv(h, ps, table, peppers, s.(pepper := pepper, workers := s.workers[i := w]))
  {
    hide RowOfWorker, KeyOf, CountBusy, CountDone;
    var t := s.(pepper := pepper, workers := s.workers[i := w]);
    CountsAt(s.workers, i, w);
    forall k | k in t.table && k !in table ensures OfWorker(h, ps, t, k) {
      assert OfWorker(h, ps, s, k);
      var j :| 0 <= j < |ps| && s.workers[j].Done? && k == KeyOf(h, ps[j], s.workers[j].pepper);
      assert t.workers[j] == s.workers[j];
    }
  }

  lemma RowKept(h: Hasher, p: Param, pepper: string, before: map<string, Row>, after: map<string, Row>, k: string,
      r: Row)
    requires RowOfWorker(h, p, pepper, before, after) && k !in after
    ensures RowOfWorker(h, p, pepper, before, after[k := r])
  {
  }

  lemma OfWorkerKept(h: Hasher, ps: seq<Param>, s: State, table: map<string, Row>, i: nat, w: Worker, k: string)
    requires |s.workers| == |ps| && i < |ps| && !s.workers[i].Done? && OfWorker(h, ps, s, k)
    ensures OfWorker(h, ps, s.(table := table, workers := s.workers[i := w]), k)
  {
    hide KeyOf;
    var j :| 0 <= j < |ps| && s.workers[j].Done? && k == KeyOf(h, ps[j], s.workers[j].pepper);
    assert s.workers[i := w][j] == s.workers[j];
  }

  lemma WorkerInserts(h: Hasher, ps: seq<Param>, table: map<string, Row>, peppers: set<string>, s: State, i: nat)
    requires Inv(h, ps, table, peppers, s) && i < |ps| && s.workers[i].Inserting?
    requires KeyOf(h, ps[i], s.workers[i].pepper) !in s.table
    ensures Inv(h, ps, table, peppers, Next(h, ps, s, Insert(i)))
  {
    hide KeyOf, RowOf, CountBusy, CountDone, Next, OfWorker, RowOfWorker;
    var pepper := s.workers[i].pepper;
    var key, row, w := KeyOf(h, ps[i], pepper), RowOf(ps[i], pepper), Done(pepper);
    var t := s.(table := s.table[key := row], workers := s.workers[i := w]);
    InsertDone(h, ps, s, i);
    CountsAt(s.workers, i, w);
    assert PepperIn(w, peppers) by {
      assert PepperIn(s.workers[i], peppers);
    }
    forall k | k in t.table && k !in table ensures OfWorker(h, ps, t, k) {
      if k in s.table {
        OfWorkerKept(h, ps, s, t.table, i, w, k);
      } else {
        NewWorker(h, ps, t, i);
      }
    }
    forall j | 0 <= j < |ps| && t.workers[j].Done? ensures RowOfWorker(h, ps[j], t.workers[j].pepper, table, t.table) {
      if j == i {
        NewRow(h, ps[i], pepper, table, t.table);
      } else {
        RowKept(h, ps[j], s.workers[j].pepper, table, s.table, key, row);
      }
    }
  }

  lemma InsertDone(h: Hasher, ps: seq<Param>, s: State, i: nat)
    requires |s.workers| == |ps| && i < |ps| && s.workers[i].Inserting?
    requires KeyOf(h, ps[i], s.workers[i].pepper) !in s.table
    ensures var pepper := s.workers[i].pepper;
      Next(h, ps, s, Insert(i)) == s.(table := s.table[KeyOf(h, ps[i], pepper) := RowOf(ps[i], pepper)],
                                      workers := s.workers[i := Done(pepper)])
  {
  }

  lemma NewWorker(h: Hasher, ps: seq<Param>, t: State, i: nat)
    requires |t.workers| == |ps| && i < |ps| && t.workers[i].Done?
    ensures OfWorker(h, ps, t, KeyOf(h, ps[i], t.workers[i].pepper))
  {
  }

  lemma NewRow(h: Hasher, p: Param, pepper: string, before: map<string, Row>, after: map<string, Row>)
    requires var k := KeyOf(h, p, pepper); k !in before && k in after && after[k] == RowOf(p, pepper)
    ensures RowOfWorker(h, p, pepper, before, after)
  {
  }

  lemma KeyRotates(h: Hasher, ps: seq<Param>, table: map<string, Row>, peppers: set<string>, s: State, key: string)
    requires Inv(h, ps, table, peppers, s) && key in peppers
    ensures Inv(h, ps, table, peppers, s.(key := key))
  {
    hide RowOfWorker, KeyOf, CountBusy, CountDone;
    var t := s.(key := key);
    forall k | k in t.table && k !in table ensures OfWorker(h, ps, t, k) {
      assert OfWorker(h, ps, s, k);
      var j :| 0 <= j < |ps| && s.workers[j].Done? && k == KeyOf(h, ps[j], s.workers[j].pepper);
      assert t.workers[j] == s.workers[j];
    }
  }

  lemma StepKeepsInv(h: Hasher, ps: seq<Param>, table: map<string, Row>, peppers: set<string>, s: State, e: Event)
    requires Inv(h, ps, table, peppers, s) && Peppers(e) <= peppers
    ensures Inv(h, ps, table, peppers, Next(h, ps, s, e))
  {
    hide KeyOf, RowOf, CountBusy, CountDone, RowOfWorker;
    if Enabled(s, e) {
      match e
      case Acquire(i) =>
        WorkerMoves(h, ps, table, peppers, s, i, if s.pepper == "" then Reading else Inserting(s.pepper), s.pepper);
      case Reply(i) =>
        WorkerMoves(h, ps, table, peppers, s, i, Replied(s.key), s.pepper);
      case Resume(i) =>
        assert PepperIn(s.workers[i], peppers);
        WorkerMoves(h, ps, table, peppers, s, i, Inserting(s.workers[i].data), s.workers[i].data);
      case Insert(i) =>
        if KeyOf(h, ps[i], s.workers[i].pepper) in s.table {
          WorkerMoves(h, ps, table, peppers, s, i, Failed, s.pepper);
        } else {
          WorkerInserts(h, ps, table, peppers, s, i);
        }
      case Rotate(p) =>
        KeyRotates(h, ps, table, peppers, s, p);
    }
  }

  lemma {:induction false} RunKeepsInv(h: Hasher, ps: seq<Param>, table: map<string, Row>, peppers: set<string>,
      s: State, es: seq<Event>)
    requires Inv(h, ps, table, peppers, s) && forall e :: e in es ==> Peppers(e) <= peppers
    ensures Inv(h, ps, table, peppers, Run(h, ps, s, es))
    decreases |es|
  {
    hide Inv;
    if es != [] {
      assert |s.workers| == |ps| by { WorkersOfInv(h, ps, table, peppers, s); }
      StepKeepsInv(h, ps, table, peppers, s, es[0]);
      RunKeepsInv(h, ps, table, peppers, Next(h, ps, s, es[0]), es[1..]);
    }
  }

  lemma WorkersOfInv(h: Hasher, ps: seq<Param>, table: map<string, Row>, peppers: set<string>, s: State)
    requires Inv(h, ps, table, peppers, s)
    ensures |s.workers| == |ps|
  {
  }

  lemma {:induction false} AllWaiting(n: nat)
    ensures var ws := seq(n, _ => Waiting); CountBusy(ws) == 0 && CountDone(ws) == 0
  {
    if n > 0 {
      AllWaiting(n - 1);
      assert seq(n, _ => Waiting)[1..] == seq(n - 1, _ => Waiting);
    }
  }

  lemma StartInv(h: Hasher, ps: seq<Param>, table: map<string, Row>, given: string, key: string, peppers: set<string>)
    requires key in peppers && (given != "" ==> given in peppers)
    ensures Inv(h, ps, table, peppers, Start(given, key, table, ps))
  {
    AllWaiting(|ps|);
  }

  /** Whatever the order in which the workers proceed, a run that finishes has added one row for every
      parameter and no other, each under a pepper that was given or stored while it ran. */
  lemma EveryOrderAddsOneRowEach(
    h: Hasher, ps: seq<Param>, given: string, key: string, table: map<string, Row>, es: seq<Event>,
    peppers: set<string>)
    requires key in peppers && (given != "" ==> given in peppers) && forall e :: e in es ==> Peppers(e) <= peppers
    requires Finished(Run(h, ps, Start(given, key, table, ps), es))
    ensures var t := Run(h, ps, Start(given, key, table, ps), es);
      && (forall k :: k in table ==> k in t.table && t.table[k] == table[k])
      && |t.table| == |table| + |ps|
      && (forall i :: 0 <= i < |ps| ==>
            t.workers[i].Done? && t.workers[i].pepper in peppers &&
            RowOfWorker(h, ps[i], t.workers[i].pepper, table, t.table))
      && (forall k :: k in t.table && k !in table ==> OfWorker(h, ps, t, k))
  {
    StartInv(h, ps, table, given, key, peppers);
    RunKeepsInv(h, ps, table, peppers, Start(given, key, table, ps), es);
    CountDoneBounds(Run(h, ps, Start(given, key, table, ps), es).workers);
  }

  /** The rows of all parameters under one pepper. */
  function RowsFor(h: Hasher, ps: seq<Param>, pepper: string): map<string, Row> {
    if ps == [] then map[]
    else RowsFor(h, ps[1..], pepper)[KeyOf(h, ps[0], pepper) := RowOf(ps[0], pepper)]
  }

  lemma {:induction false} RowsForKeys(h: Hasher, ps: seq<Param>, pepper: string, k: string)
    ensures k in RowsFor(h, ps, pepper) <==> exists i :: 0 <= i < |ps| && k == KeyOf(h, ps[i], pepper)
    ensures k in RowsFor(h, ps, pepper) ==>
      exists i :: 0 <= i < |ps| && k == KeyOf(h, ps[i], pepper) && RowsFor(h, ps, pepper)[k] == RowOf(ps[i], pepper)
  {
    hide KeyOf, RowOf;
    if ps != [] {
      RowsForKeys(h, ps[1..], pepper, k);
      if i :| 0 <= i < |ps[1..]| && k == KeyOf(h, ps[1..][i], pepper) &&
              RowsFor(h, ps[1..], pepper)[k] == RowOf(ps[1..][i], pepper) {
        assert ps[i + 1] == ps[1..][i];
      }
      if i :| 0 <= i < |ps| && k == KeyOf(h, ps[i], pepper) {
        assert i > 0 ==> ps[1..][i - 1] == ps[i];
      }
    }
  }

  predicate DistinctKeys(h: Hasher, ps: seq<Param>, pepper: string) {
    forall i, j :: 0 <= i < j < |ps| ==> KeyOf(h, ps[i], pepper) != KeyOf(h, ps[j], pepper)
  }

  predicate Given(value: Option<string>) {
    value.Some? && value.value != ""
  }

  /** What the hash of an address and of a phone number is made of. */
  function MailHash(h: Hasher, mail: string, pepper: string): string {
    h("sha256", mail + " email " + pepper)
  }

  function PhoneHash(h: Hasher, phone: string, pepper: string): string {
    h("sha256", PhoneNumber(phone) + " msisdn " + pepper)
  }

  lemma KeysAndRows(h: Hasher, u: User, pepper: string)
    ensures HasField(u, Email) <==> Given(u.data.email)
    ensures HasField(u, Phone) <==> Given(u.data.phone)
    ensures Given(u.data.email) ==>
              var p := ParamOf(u, Email, "sha256");
              && KeyOf(h, p, pepper) == MailHash(h, u.data.email.value, pepper)
              && RowOf(p, pepper) == PepperRotation.Row(pepper, "email", u.address, u.data.active)
    ensures Given(u.data.phone) ==>
              var p := ParamOf(u, Phone, "sha256");
              && KeyOf(h, p, pepper) == PhoneHash(h, u.data.phone.value, pepper)
              && RowOf(p, pepper) == PepperRotation.Row(pepper, "msisdn", u.address, u.data.active)
  {
    hide PhoneNumber;
    if Given(u.data.email) {
      assert PepperRotation.Preimage(u.data.email.value, "email", pepper) == u.data.email.value + " email " + pepper;
    }
    if Given(u.data.phone) {
      var number := PhoneNumber(u.data.phone.value);
      assert PepperRotation.Preimage(number, "msisdn", pepper) == number + " msisdn " + pepper;
    }
  }

  lemma ParamsOfData(data: seq<User>, p: Param)
    ensures p in Params(data) <==>
      exists u :: u in data && HasField(u, p.field) && p == ParamOf(u, p.field, "sha256")
  {
    hide HasField;
    ParamsAre(data, p);
    assert p.method_ in SUPPORTED_HASHES <==> p.method_ == "sha256" by {
      assert SUPPORTED_HASHES[0] == "sha256";
    }
  }

  /** The rows of a user's address and phone number, with the text that is hashed, the type and the user's id. */
  lemma RowsOfUser(h: Hasher, data: seq<User>, pepper: string, u: User)
    requires DistinctKeys(h, Params(data), pepper) && u in data
    ensures var rows := RowsFor(h, Params(data), pepper);
      && (Given(u.data.email) ==>
            var k := MailHash(h, u.data.email.value, pepper);
            k in rows && rows[k] == PepperRotation.Row(pepper, "email", u.address, u.data.active))
      && (Given(u.data.phone) ==>
            var k := PhoneHash(h, u.data.phone.value, pepper);
            k in rows && rows[k] == PepperRotation.Row(pepper, "msisdn", u.address, u.data.active))
  {
    hide Params, KeyOf, RowOf, RowsFor, MailHash, PhoneHash;
    KeysAndRows(h, u, pepper);
    if Given(u.data.email) {
      RowOfParam(h, data, pepper, ParamOf(u, Email, "sha256"));
    }
    if Given(u.data.phone) {
      RowOfParam(h, data, pepper, ParamOf(u, Phone, "sha256"));
    }
  }

  lemma RowOfParam(h: Hasher, data: seq<User>, pepper: string, p: Param)
    requires DistinctKeys(h, Params(data), pepper)
    requires exists u :: u in data && HasField(u, p.field) && p == ParamOf(u, p.field, "sha256")
    ensures var rows := RowsFor(h, Params(data), pepper);
      KeyOf(h, p, pepper) in rows && rows[KeyOf(h, p, pepper)] == RowOf(p, pepper)
  {
    hide Params, KeyOf, RowOf, RowsFor, HasField;
    var ps := Params(data);
    ParamsOfData(data, p);
    var i :| 0 <= i < |ps| && ps[i] == p;
    RowsForKeys(h, ps, pepper, KeyOf(h, p, pepper));
  }

  /** No other row is made. */
  lemma RowsComeFrom(h: Hasher, data: seq<User>, pepper: string, k: string)
    requires k in RowsFor(h, Params(data), pepper)
    ensures exists u :: u in data && RowsFor(h, Params(data), pepper)[k].value == u.address &&
                        ((Given(u.data.email) && k == MailHash(h, u.data.email.value, pepper)) ||
                         (Given(u.data.phone) && k == PhoneHash(h, u.data.phone.value, pepper)))
  {
    hide Params, KeyOf, RowsFor, MailHash, PhoneHash, HasField;
    var ps := Params(data);
    RowsForKeys(h, ps, pepper, k);
    var i :| 0 <= i < |ps| && k == KeyOf(h, ps[i], pepper) && RowsFor(h, ps, pepper)[k] == RowOf(ps[i], pepper);
    assert ps[i] in ps;
    ParamsOfData(data, ps[i]);
    var u :| u in data && HasField(u, ps[i].field) && ps[i] == ParamOf(u, ps[i].field, "sha256");
    KeysAndRows(h, u, pepper);
  }

  /** While the stored pepper stays as it is, all orders end in the same table. */
  lemma OrdersAgree(h: Hasher, ps: seq<Param>, given: string, key: string, table: map<string, Row>, es: seq<Event>)
    requires forall e :: e in es ==> !e.Rotate?
    requires var pepper := if given != "" then given else key;
      DistinctKeys(h, ps, pepper) && Finished(Run(h, ps, Start(given, key, table, ps), es))
    ensures Run(h, ps, Start(given, key, table, ps), es).table
         == table + RowsFor(h, ps, if given != "" then given else key)
  {
    hide KeyOf, RowOf, RowsFor, RowOfWorker;
    var pepper := if given != "" then given else key;
    var t := Run(h, ps, Start(given, key, table, ps), es);
    OnePepper(h, ps, given, key, table, es);
    EveryOrderAddsOneRowEach(h, ps, given, key, table, es, {given, key});
    hide Run, Start, Finished;
    assert forall i :: 0 <= i < |ps| ==> t.workers[i] == Done(pepper);
    forall k ensures SameAt(t.table, table, RowsFor(h, ps, pepper), k) {
      SameKeyAndRow(h, ps, pepper, table, t, k);
    }
    SameEverywhere(t.table, table, RowsFor(h, ps, pepper));
  }

  predicate SameAt(after: map<string, Row>, before: map<string, Row>, added: map<string, Row>, k: string) {
    && (k in after <==> k in before || k in added)
    && (k in before ==> k !in added && k in after && after[k] == before[k])
    && (k in added ==> k in after && after[k] == added[k])
  }

  lemma SameEverywhere(after: map<string, Row>, before: map<string, Row>, added: map<string, Row>)
    requires forall k :: SameAt(after, before, added, k)
    ensures after == before + added
  {
    forall k ensures (k in after <==> k in before + added) && (k in after ==> after[k] == (before + added)[k]) {
      assert SameAt(after, before, added, k);
    }
  }

  lemma SameKeyAndRow(h: Hasher, ps: seq<Param>, pepper: string, table: map<string, Row>, t: State, k: string)
    requires |t.workers| == |ps|
    requires forall i :: 0 <= i < |ps| ==> t.workers[i] == Done(pepper) && RowOfWorker(h, ps[i], pepper, table, t.table)
    requires k in t.table && k !in table ==> OfWorker(h, ps, t, k)
    requires forall x :: x in table ==> x in t.table && t.table[x] == table[x]
    ensures SameAt(t.table, table, RowsFor(h, ps, pepper), k)
  {
    hide KeyOf, RowOf, RowsFor;
    RowsForKeys(h, ps, pepper, k);
    if k in RowsFor(h, ps, pepper) {
      var i :| 0 <= i < |ps| && k == KeyOf(h, ps[i], pepper) && RowsFor(h, ps, pepper)[k] == RowOf(ps[i], pepper);
      assert RowOfWorker(h, ps[i], pepper, table, t.table);
    }
  }

  /** Without a rotation every worker uses the given pepper, or the stored one when none is given. */
  lemma OnePepper(h: Hasher, ps: seq<Param>, given: string, key: string, table: map<string, Row>, es: seq<Event>)
    requires forall e :: e in es ==> !e.Rotate?
    ensures var t := Run(h, ps, Start(given, key, table, ps), es);
      forall i :: 0 <= i < |ps| && t.workers[i].Done? ==> t.workers[i].pepper == if given != "" then given else key
  {
    KeepsOnePepper(h, ps, if given != "" then given else key, Start(given, key, table, ps), es);
  }

  predicate OnlyPepper(s: State, pepper: string) {
    && (s.pepper != "" ==> s.pepper == pepper)
    && (s.pepper == "" ==> s.key == pepper)
    && (forall i :: 0 <= i < |s.workers| ==> PepperIn(s.workers[i], {pepper}))
    && (forall i :: 0 <= i < |s.workers| && (s.workers[i].Reading? || s.workers[i].Replied?) ==> s.key == pepper)
  }

  lemma {:induction false} KeepsOnePepper(h: Hasher, ps: seq<Param>, pepper: string, s: State, es: seq<Event>)
    requires |s.workers| == |ps| && OnlyPepper(s, pepper) && forall e :: e in es ==> !e.Rotate?
    ensures OnlyPepper(Run(h, ps, s, es), pepper)
    decreases |es|
  {
    hide KeyOf, RowOf;
    if es != [] {
      KeepsOnePepper(h, ps, pepper, Next(h, ps, s, es[0]), es[1..]);
    }
  }

  // ---------------------------------------------------------------------------
  // Progress
  // ---------------------------------------------------------------------------

  function StepsLeft(w: Worker): nat {
    match w
    case Waiting => 4
    case Reading => 3
    case Replied(_) => 2
    case Inserting(_) => 1
    case _ => 0
  }

  function Measure(ws: seq<Worker>): nat {
    if ws == [] then 0 else StepsLeft(ws[0]) + Measure(ws[1..])
  }

  lemma {:induction false} MeasureAt(ws: seq<Worker>, i: nat, w: Worker)
    requires i < |ws|
    ensures Measure(ws[i := w]) == Measure(ws) - StepsLeft(ws[i]) + StepsLeft(w)
    ensures Measure(ws) >= StepsLeft(ws[i])
  {
    if i == 0 {
      assert ws[i := w][1..] == ws[1..];
    } else {
      assert ws[i := w][1..] == ws[1..][i - 1 := w];
      MeasureAt(ws[1..], i - 1, w);
    }
  }

  /** Every step of a worker brings the update nearer to its end. */
  lemma StepsRunOut(h: Hasher, ps: seq<Param>, s: State, e: Event)
    requires |s.workers| == |ps| && Enabled(s, e) && !e.Rotate?
    ensures Measure(Next(h, ps, s, e).workers) < Measure(s.workers)
  {
    hide KeyOf, RowOf;
    MeasureAt(s.workers, e.i, Next(h, ps, s, e).workers[e.i]);
  }

  ghost predicate Stuck(s: State) {
    forall e: Event :: !e.Rotate? ==> !Enabled(s, e)
  }

  lemma {:induction false} SomeBusy(ws: seq<Worker>) returns (i: nat)
    requires CountBusy(ws) > 0
    ensures i < |ws| && Busy(ws[i])
  {
    if Busy(ws[0]) {
      i := 0;
    } else {
      i := SomeBusy(ws[1..]);
      i := i + 1;
    }
  }

  /** Failed inserts, which keep their slots. */
  function CountFailed(ws: seq<Worker>): nat {
    if ws == [] then 0 else (if ws[0].Failed? then 1 else 0) + CountFailed(ws[1..])
  }

  lemma {:induction false} OnlyFailedBusy(ws: seq<Worker>)
    requires forall i :: 0 <= i < |ws| ==> Busy(ws[i]) ==> ws[i].Failed?
    ensures CountBusy(ws) == CountFailed(ws)
  {
    if ws != [] {
      OnlyFailedBusy(ws[1..]);
    }
  }

  lemma {:induction false} FailedAreBusy(ws: seq<Worker>)
    ensures CountFailed(ws) <= CountBusy(ws)
  {
    if ws != [] {
      FailedAreBusy(ws[1..]);
    }
  }

  /** The pool comes to rest exactly when nothing is under way and either nothing waits or all its slots
      are held by refused inserts; so fewer than five refusals leave no parameter out. */
  lemma WhenThePoolRests(s: State)
    requires CountBusy(s.workers) <= 5
    ensures Stuck(s) <==>
      && (forall i :: 0 <= i < |s.workers| ==> s.workers[i].Waiting? || s.workers[i].Done? || s.workers[i].Failed?)
      && ((forall i :: 0 <= i < |s.workers| ==> !s.workers[i].Waiting?) || CountFailed(s.workers) == 5)
  {
    if Stuck(s) {
      forall i | 0 <= i < |s.workers| ensures s.workers[i].Waiting? || s.workers[i].Done? || s.workers[i].Failed? {
        assert !Enabled(s, Reply(i)) && !Enabled(s, Resume(i)) && !Enabled(s, Insert(i));
      }
      OnlyFailedBusy(s.workers);
      forall i | 0 <= i < |s.workers| ensures !s.workers[i].Waiting? || CountFailed(s.workers) == JOBS {
        assert !Enabled(s, Acquire(i));
      }
    } else {
      FailedAreBusy(s.workers);
      var e: Event :| !e.Rotate? && Enabled(s, e);
    }
  }

  // ---------------------------------------------------------------------------
  // No insert is refused
  // ---------------------------------------------------------------------------

  predicate CollisionFree(h: Hasher, m1: string, m2: string, a: string, b: string) {
    h(m1, a) == h(m2, b) ==> m1 == m2 && a == b
  }

  ghost predicate Injective(h: Hasher) {
    forall m1, m2, a, b :: CollisionFree(h, m1, m2, a, b)
  }

  /** No two users share a phone number or an address, and no user appears twice. */
  predicate DistinctContacts(data: seq<User>) {
    forall i, j, f :: 0 <= i < j < |data| && HasField(data[i], f) && HasField(data[j], f) ==>
      Contact(f, FieldOf(data[i], f).value) != Contact(f, FieldOf(data[j], f).value)
  }

  lemma KeysTellContacts(h: Hasher, p: Param, q: Param, pepper: string)
    requires Injective(h) && PepperRotation.NoBlank(pepper) && KeyOf(h, p, pepper) == KeyOf(h, q, pepper)
    ensures p.method_ == q.method_ && p.field == q.field && Contact(p.field, p.value) == Contact(q.field, q.value)
  {
    hide Contact;
    var a := PepperRotation.Preimage(Contact(p.field, p.value), Kind(p.field), pepper);
    var b := PepperRotation.Preimage(Contact(q.field, q.value), Kind(q.field), pepper);
    assert CollisionFree(h, p.method_, q.method_, a, b);
    assert Kind(Phone)[0] == 'm' && Kind(Email)[0] == 'e';
    PepperRotation.PreimageInjective(Contact(p.field, p.value), Kind(p.field), pepper,
                                   Contact(q.field, q.value), Kind(q.field), pepper);
  }

  lemma {:induction false} UserParamsShape(u: User)
    ensures var ps := UserParams(u, FIELDS_TO_HASH);
      && (forall i, j :: 0 <= i < j < |ps| ==> ps[i].field != ps[j].field)
      && |ps| == (if HasField(u, Phone) then 1 else 0) + (if HasField(u, Email) then 1 else 0)
  {
    TwoFields(u);
    OneMethod(u, Phone);
    OneMethod(u, Email);
  }

  /** For distinct contacts the keys of all parameters differ. */
  lemma {:induction false} ContactsGiveDistinctKeys(h: Hasher, data: seq<User>, pepper: string)
    requires Injective(h) && PepperRotation.NoBlank(pepper) && DistinctContacts(data)
    ensures DistinctKeys(h, Params(data), pepper)
  {
    hide KeyOf, UserParams, Contact;
    if data != [] {
      var n := |data| - 1;
      var init, last := data[..n], data[n];
      ContactsGiveDistinctKeys(h, init, pepper);
      var a, b := Params(init), UserParams(last, FIELDS_TO_HASH);
      UserParamsShape(last);
      forall i, j | 0 <= i < j < |a + b| ensures KeyOf(h, (a + b)[i], pepper) != KeyOf(h, (a + b)[j], pepper) {
        var p, q := (a + b)[i], (a + b)[j];
        if i < |a| <= j {
          assert p in a && q in b;
          CrossUsers(h, data, p, q, pepper);
        } else if |a| <= i {
          assert p.field != q.field;
          if KeyOf(h, p, pepper) == KeyOf(h, q, pepper) {
            KeysTellContacts(h, p, q, pepper);
          }
        }
      }
    }
  }

  lemma CrossUsers(h: Hasher, data: seq<User>, p: Param, q: Param, pepper: string)
    requires Injective(h) && PepperRotation.NoBlank(pepper) && DistinctContacts(data) && data != []
    requires p in Params(data[..|data| - 1]) && q in UserParams(data[|data| - 1], FIELDS_TO_HASH)
    ensures KeyOf(h, p, pepper) != KeyOf(h, q, pepper)
  {
    hide KeyOf, UserParams, Contact, Injective;
    var init, last := data[..|data| - 1], data[|data| - 1];
    UserParamsAre(last, FIELDS_TO_HASH, q);
    ParamsAre(init, p);
    var u :| u in init && HasField(u, p.field) && p.method_ in SUPPORTED_HASHES && p == ParamOf(u, p.field, p.method_);
    var k :| 0 <= k < |init| && init[k] == u;
    assert data[k] == u;
    assert p.field == q.field ==> Contact(p.field, p.value) != Contact(q.field, q.value);
    if KeyOf(h, p, pepper) == KeyOf(h, q, pepper) {
      KeysTellContacts(h, p, q, pepper);
    }
  }

  /** The inserts meet neither each other nor the table. */
  predicate Unobstructed(h: Hasher, ps: seq<Param>, table: map<string, Row>, pepper: string) {
    DistinctKeys(h, ps, pepper) && forall i :: 0 <= i < |ps| ==> KeyOf(h, ps[i], pepper) !in table
  }

  predicate NoneFailed(s: State) {
    forall i :: 0 <= i < |s.workers| ==> !s.workers[i].Failed?
  }

  lemma TableOfInv(h: Hasher, ps: seq<Param>, table: map<string, Row>, pepper: string, s: State, k: string)
    requires Inv(h, ps, table, {pepper}, s)
    ensures |s.workers| == |ps|
    ensures forall j :: 0 <= j < |ps| ==> PepperIn(s.workers[j], {pepper})
    ensures k in s.table && k !in table ==> OfWorker(h, ps, s, k)
  {
    hide KeyOf, RowOfWorker, CountBusy, CountDone, OfWorker;
  }

  lemma InsertSucceeds(h: Hasher, ps: seq<Param>, table: map<string, Row>, pepper: string, s: State, i: nat)
    requires Inv(h, ps, table, {pepper}, s) && Unobstructed(h, ps, table, pepper)
    requires |s.workers| == |ps| && i < |ps| && s.workers[i].Inserting?
    ensures KeyOf(h, ps[i], s.workers[i].pepper) !in s.table
  {
    hide KeyOf, RowOfWorker, CountBusy, CountDone, Inv;
    var k := KeyOf(h, ps[i], pepper);
    TableOfInv(h, ps, table, pepper, s, k);
  }

  lemma {:induction false} NoneRefused(h: Hasher, ps: seq<Param>, table: map<string, Row>, pepper: string, s: State,
      es: seq<Event>)
    requires Inv(h, ps, table, {pepper}, s) && Unobstructed(h, ps, table, pepper) && |s.workers| == |ps| &&
        NoneFailed(s)
    requires forall e :: e in es ==> !e.Rotate?
    ensures Inv(h, ps, table, {pepper}, Run(h, ps, s, es)) && NoneFailed(Run(h, ps, s, es))
    decreases |es|
  {
    hide Inv, KeyOf, RowOf, Unobstructed;
    if es != [] {
      var t := Next(h, ps, s, es[0]);
      StepKeepsInv(h, ps, table, {pepper}, s, es[0]);
      if Enabled(s, es[0]) && es[0].Insert? {
        InsertSucceeds(h, ps, table, pepper, s, es[0].i);
      }
      NoneRefused(h, ps, table, pepper, t, es[1..]);
    }
  }

  lemma {:induction false} NoneFailedCount(ws: seq<Worker>)
    requires forall i :: 0 <= i < |ws| ==> !ws[i].Failed?
    ensures CountFailed(ws) == 0
  {
    if ws != [] {
      NoneFailedCount(ws[1..]);
    }
  }

  /** For distinct contacts that have no row under this pepper yet, updateHash always completes: every run
      that can go no further has finished, and its table has the rows of all parameters. */
  lemma UpdatesComplete(h: Hasher, data: seq<User>, given: string, key: string, table: map<string, Row>, es: seq<Event>)
    requires Injective(h) && DistinctContacts(data) && PepperRotation.NoBlank(given) && PepperRotation.NoBlank(key)
    requires var pepper := if given != "" then given else key;
      forall p :: p in Params(data) ==> KeyOf(h, p, pepper) !in table
    requires forall e :: e in es ==> !e.Rotate?
    requires Stuck(Run(h, Params(data), Start(given, key, table, Params(data)), es))
    ensures var t := Run(h, Params(data), Start(given, key, table, Params(data)), es);
      Finished(t) && t.table == table + RowsFor(h, Params(data), if given != "" then given else key)
  {
    hide KeyOf, RowOf, Params, RowsFor, Injective;
    var pepper, ps := if given != "" then given else key, Params(data);
    ContactsGiveDistinctKeys(h, data, pepper);
    assert forall i :: 0 <= i < |ps| ==> ps[i] in ps;
    var start := Start(given, key, table, ps);
    var begun := start.(key := pepper);
    StartInv(h, ps, table, given, pepper, {pepper});
    NoneRefused(h, ps, table, pepper, begun, es);
    SameWhateverKey(h, ps, given, start, begun, es);
    var t := Run(h, ps, start, es);
    CountOfInv(h, ps, table, {pepper}, Run(h, ps, begun, es));
    NoneFailedCount(t.workers);
    WhenThePoolRests(t);
    OrdersAgree(h, ps, given, key, table, es);
  }

  lemma CountOfInv(h: Hasher, ps: seq<Param>, table: map<string, Row>, peppers: set<string>, s: State)
    requires Inv(h, ps, table, peppers, s)
    ensures CountBusy(s.workers) <= JOBS
  {
  }

  /** The stored pepper is not looked at once one is shared. */
  predicate Alike(s: State, t: State, given: string) {
    && s.pepper == t.pepper && s.table == t.table && s.workers == t.workers
    && (given == "" ==> s.key == t.key)
    && (given != "" ==> s.pepper == given)
    && (given != "" ==> forall i :: 0 <= i < |s.workers| ==> !s.workers[i].Reading? && !s.workers[i].Replied?)
  }

  lemma {:induction false} SameWhateverKey(
    h: Hasher, ps: seq<Param>, given: string, s: State, t: State, es: seq<Event>)
    requires |s.workers| == |t.workers| == |ps| && Alike(s, t, given) && forall e :: e in es ==> !e.Rotate?
    ensures Run(h, ps, s, es).workers == Run(h, ps, t, es).workers
    decreases |es|
  {
    hide KeyOf, RowOf, CountBusy;
    if es != [] {
      SameWhateverKey(h, ps, given, Next(h, ps, s, es[0]), Next(h, ps, t, es[0]), es[1..]);
    }
  }

  // ---------------------------------------------------------------------------
  // The hashes pushed to federated services
  // ---------------------------------------------------------------------------

  function UserHashes(h: Hasher, u: User, fields: seq<Field>, algorithm: string, pepper: string): seq<string> {
    if fields == [] then []
    else
      var n := |fields| - 1;
      UserHashes(h, u, fields[..n], algorithm, pepper) +
      if HasField(u, fields[n]) && u.data.active == 1
      then [HashKey(h, algorithm, fields[n], FieldOf(u, fields[n]).value, pepper)] else []
  }

  function UsersHashes(h: Hasher, data: seq<User>, algorithm: string, pepper: string): seq<string> {
    if data == [] then []
    else
      UsersHashes(h, data[..|data| - 1], algorithm, pepper) +
      UserHashes(h, data[|data| - 1], FIELDS_TO_HASH, algorithm, pepper)
  }

  /** The methods of the Hash class that take a text. */
  const HASH_METHODS := ["sha256", "sha512"]

  /** What every object inherits and lets be called with a text; none of these returns a hash. */
  const INHERITED_METHODS := [
    "toString", "toLocaleString", "valueOf", "hasOwnProperty", "isPrototypeOf", "propertyIsEnumerable",
    "__lookupGetter__", "__lookupSetter__"]

  /** Calling `hash[name]` with a text does not throw. */
  predicate Callable(name: string) {
    name in HASH_METHODS || name in INHERITED_METHODS
  }

  predicate Hashed(u: User, f: Field) {
    HasField(u, f) && u.data.active == 1
  }

  /** Some active user has a field that is not empty. */
  predicate SomethingToHash(data: seq<User>) {
    exists i, f :: 0 <= i < |data| && Hashed(data[i], f)
  }

  /** getUsersHashes, with its pushes onto `result`; it throws at the first text that it cannot hash. */
  method GetUsersHashes(h: Hasher, data: seq<User>, algorithm: string, pepper: string)
    returns (result: Option<seq<string>>)
    ensures result.None? <==> !Callable(algorithm) && SomethingToHash(data)
    ensures result.Some? ==> result.value == UsersHashes(h, data, algorithm, pepper)
  {
    hide Callable, HashKey;
    var hashes: seq<string> := [];
    for i := 0 to |data|
      invariant hashes == UsersHashes(h, data[..i], algorithm, pepper)
      invariant forall k, f :: 0 <= k < i && Hashed(data[k], f) ==> Callable(algorithm)
    {
      assert data[..i + 1][..i] == data[..i];
      for j := 0 to |FIELDS_TO_HASH|
        invariant hashes == UsersHashes(h, data[..i], algorithm, pepper)
                         + UserHashes(h, data[i], FIELDS_TO_HASH[..j], algorithm, pepper)
        invariant forall k :: 0 <= k < j && Hashed(data[i], FIELDS_TO_HASH[k]) ==> Callable(algorithm)
      {
        assert FIELDS_TO_HASH[..j + 1][..j] == FIELDS_TO_HASH[..j];
        var f := FIELDS_TO_HASH[j];
        if Hashed(data[i], f) {
          if !Callable(algorithm) {
            return None;
          }
          hashes := hashes + [HashKey(h, algorithm, f, FieldOf(data[i], f).value, pepper)];
        }
      }
      assert FIELDS_TO_HASH[..|FIELDS_TO_HASH|] == FIELDS_TO_HASH;
      assert FIELDS_TO_HASH[0] == Phone && FIELDS_TO_HASH[1] == Email;
    }
    assert data[..|data|] == data;
    result := Some(hashes);
  }

  function ActiveOnly(ps: seq<Param>): seq<Param> {
    if ps == [] then []
    else ActiveOnly(ps[..|ps| - 1]) + if ps[|ps| - 1].active == 1 then [ps[|ps| - 1]] else []
  }

  function KeysOf(h: Hasher, ps: seq<Param>, pepper: string): seq<string> {
    seq(|ps|, i requires 0 <= i < |ps| => KeyOf(h, ps[i], pepper))
  }

  lemma {:induction false} ActiveOnlySplit(a: seq<Param>, b: seq<Param>)
    ensures ActiveOnly(a + b) == ActiveOnly(a) + ActiveOnly(b)
  {
    if b == [] {
      assert a + b == a;
    } else {
      assert (a + b)[..|a + b| - 1] == a + b[..|b| - 1];
      ActiveOnlySplit(a, b[..|b| - 1]);
    }
  }

  /** The pushed hashes are, one by one, the keys of the parameters of active users. */
  lemma {:induction false} PushedAreActiveKeys(h: Hasher, data: seq<User>, pepper: string)
    ensures UsersHashes(h, data, "sha256", pepper) == KeysOf(h, ActiveOnly(Params(data)), pepper)
  {
    hide UserHashes, UserParams, KeysOf, ActiveOnly;
    if data == [] {
      NothingPushed(h, pepper);
    } else {
      var n := |data| - 1;
      var a, b := Params(data[..n]), UserParams(data[n], FIELDS_TO_HASH);
      PushedAreActiveKeys(h, data[..n], pepper);
      ActiveOnlySplit(a, b);
      KeysOfSplit(h, ActiveOnly(a), ActiveOnly(b), pepper);
      PushedOfUser(h, data[n], pepper);
    }
  }

  lemma NothingPushed(h: Hasher, pepper: string)
    ensures KeysOf(h, ActiveOnly([]), pepper) == []
  {
  }

  lemma OneMethod(u: User, f: Field)
    ensures FieldParams(u, f, SUPPORTED_HASHES) == if HasField(u, f) then [ParamOf(u, f, "sha256")] else []
  {
    assert SUPPORTED_HASHES[..0] == [];
    assert FieldParams(u, f, []) == [];
  }

  lemma TwoFields(u: User)
    ensures UserParams(u, FIELDS_TO_HASH) ==
        FieldParams(u, Phone, SUPPORTED_HASHES) + FieldParams(u, Email, SUPPORTED_HASHES)
  {
    hide FieldParams;
    assert FIELDS_TO_HASH[..1] == [Phone] && [Phone][..0] == [];
    assert UserParams(u, [Phone]) == FieldParams(u, Phone, SUPPORTED_HASHES);
  }

  function Pushed(h: Hasher, u: User, f: Field, pepper: string): seq<string> {
    if HasField(u, f) && u.data.active == 1 then [HashKey(h, "sha256", f, FieldOf(u, f).value, pepper)] else []
  }

  lemma TwoPushes(h: Hasher, u: User, pepper: string)
    ensures UserHashes(h, u, FIELDS_TO_HASH, "sha256", pepper) ==
        Pushed(h, u, Phone, pepper) + Pushed(h, u, Email, pepper)
  {
    hide HashKey;
    assert FIELDS_TO_HASH[..1] == [Phone] && [Phone][..0] == [];
    assert UserHashes(h, u, [Phone], "sha256", pepper) == Pushed(h, u, Phone, pepper);
  }

  lemma PushedOfField(h: Hasher, u: User, f: Field, pepper: string)
    ensures Pushed(h, u, f, pepper) == KeysOf(h, ActiveOnly(FieldParams(u, f, SUPPORTED_HASHES)), pepper)
  {
    hide HashKey;
    OneMethod(u, f);
    if HasField(u, f) {
      assert [ParamOf(u, f, "sha256")][..0] == [];
      assert ActiveOnly([ParamOf(u, f, "sha256")]) == if u.data.active == 1 then [ParamOf(u, f, "sha256")] else [];
    }
  }

  lemma KeysOfSplit(h: Hasher, a: seq<Param>, b: seq<Param>, pepper: string)
    ensures KeysOf(h, a + b, pepper) == KeysOf(h, a, pepper) + KeysOf(h, b, pepper)
  {
  }

  lemma PushedOfUser(h: Hasher, u: User, pepper: string)
    ensures UserHashes(h, u, FIELDS_TO_HASH, "sha256", pepper) ==
        KeysOf(h, ActiveOnly(UserParams(u, FIELDS_TO_HASH)), pepper)
  {
    hide UserHashes, UserParams, FieldParams, Pushed, KeysOf, ActiveOnly;
    var a, b := FieldParams(u, Phone, SUPPORTED_HASHES), FieldParams(u, Email, SUPPORTED_HASHES);
    TwoPushes(h, u, pepper);
    TwoFields(u);
    PushedOfField(h, u, Phone, pepper);
    PushedOfField(h, u, Email, pepper);
    ActiveOnlySplit(a, b);
    KeysOfSplit(h, ActiveOnly(a), ActiveOnly(b), pepper);
  }

  lemma {:induction false} ActiveOnlyAre(ps: seq<Param>, p: Param)
    ensures p in ActiveOnly(ps) <==> p in ps && p.active == 1
  {
    if ps != [] {
      ActiveOnlyAre(ps[..|ps| - 1], p);
      assert ps == ps[..|ps| - 1] + [ps[|ps| - 1]];
    }
  }

  /** With the same data, the default algorithm and the same pepper, what is pushed is exactly the keys of
      the added rows that are active. */
  lemma PushedHashesAreTheActiveRows(h: Hasher, data: seq<User>, given: string, key: string, table: map<string, Row>,
      es: seq<Event>)
    requires Injective(h) && DistinctContacts(data) && PepperRotation.NoBlank(given) && PepperRotation.NoBlank(key)
    requires forall e :: e in es ==> !e.Rotate?
    requires Finished(Run(h, Params(data), Start(given, key, table, Params(data)), es))
    ensures var after := Run(h, Params(data), Start(given, key, table, Params(data)), es).table;
            var pushed := UsersHashes(h, data, "sha256", if given != "" then given else key);
            forall k :: k in pushed <==> k in after && k !in table && after[k].active == 1
  {
    hide KeyOf, Params, UsersHashes, Injective, ActiveOnly, KeysOf, RowOfWorker;
    var pepper, ps := if given != "" then given else key, Params(data);
    var after := Run(h, ps, Start(given, key, table, ps), es).table;
    ContactsGiveDistinctKeys(h, data, pepper);
    EveryOrderAddsOneRowEach(h, ps, given, key, table, es, {given, key});
    OnePepper(h, ps, given, key, table, es);
    PushedAreActiveKeys(h, data, pepper);
    var t := Run(h, ps, Start(given, key, table, ps), es);
    forall k ensures k in KeysOf(h, ActiveOnly(ps), pepper) <==> k in after && k !in table && after[k].active == 1 {
      ActiveRow(h, ps, pepper, table, t, k);
    }
  }

  lemma ActiveRow(h: Hasher, ps: seq<Param>, pepper: string, table: map<string, Row>, t: State, k: string)
    requires |t.workers| == |ps|
    requires forall i :: 0 <= i < |ps| ==> t.workers[i] == Done(pepper) && RowOfWorker(h, ps[i], pepper, table, t.table)
    requires k in t.table && k !in table ==> OfWorker(h, ps, t, k)
    ensures k in KeysOf(h, ActiveOnly(ps), pepper) <==> k in t.table && k !in table && t.table[k].active == 1
  {
    hide KeyOf, ActiveOnly;
    var act := ActiveOnly(ps);
    if k in KeysOf(h, act, pepper) {
      var i :| 0 <= i < |act| && k == KeyOf(h, act[i], pepper);
      assert act[i] in act;
      ActiveOnlyAre(ps, act[i]);
      var j :| 0 <= j < |ps| && ps[j] == act[i];
      assert RowOfWorker(h, ps[j], pepper, table, t.table);
    }
    if k in t.table && k !in table && t.table[k].active == 1 {
      var j :| 0 <= j < |ps| && t.workers[j].Done? && k == KeyOf(h, ps[j], t.workers[j].pepper);
      assert RowOfWorker(h, ps[j], pepper, table, t.table);
      ActiveOnlyAre(ps, ps[j]);
      var i :| 0 <= i < |act| && act[i] == ps[j];
      assert KeysOf(h, act, pepper)[i] == k;
    }
  }
}
