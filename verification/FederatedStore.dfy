/** The federated service: pushes, garbage collection by its own peppers, lookups. */
module FederatedStore {
  import opened ListFilters

  /** One row of `hashByServer`; the three columns together are the primary key. */
  datatype Row = Row(hash: string, server: string, pepper: string)

  /** A push under way: `kept` are the peppers it read, `collected` says its delete was done. */
  datatype Push = Push(server: string, pepper: string, hashes: set<string>, kept: set<string>, collected: bool)

  /** `saved` holds between the two key updates of a rotation of this service. */
  datatype State = State(pepper: string, previous: string, saved: bool, rows: set<Row>, pushes: map<nat, Push>)

  datatype Event =
    | SavePrevious
    | Publish(newPepper: string)
    | Receive(id: nat, server: string, pepper: string, hashes: set<string>)
    | Collect(id: nat)
    | Store(id: nat, hash: string)

  predicate Collectable(r: Row, server: string, kept: set<string>) {
    r.server == server && r.pepper !in kept
  }

  function Next(s: State, e: Event): State {
    match e
    case SavePrevious => if s.saved then s else s.(previous := s.pepper, saved := true)
    case Publish(p) => if s.saved then s.(pepper := p, saved := false) else s
    case Receive(id, server, pepper, hashes) =>
      if id in s.pushes then s
      else s.(pushes := s.pushes[id := Push(server, pepper, hashes, {s.pepper, s.previous}, false)])
    case Collect(id) =>
      if id !in s.pushes || s.pushes[id].collected then s
      else s.(rows := (set r | r in s.rows && !Collectable(r, s.pushes[id].server, s.pushes[id].kept)),
              pushes := s.pushes[id := s.pushes[id].(collected := true)])
    case Store(id, hash) =>
      if id !in s.pushes || !s.pushes[id].collected || hash !in s.pushes[id].hashes then s
      else s.(rows := s.rows + {Row(hash, s.pushes[id].server, s.pushes[id].pepper)})
  }

  function Run(s: State, es: seq<Event>): State
    decreases |es|
  {
    if es == [] then s else Run(Next(s, es[0]), es[1..])
  }

  // ---------------------------------------------------------------------------
  // A pushed hash outlives one rotation
  // ---------------------------------------------------------------------------

  predicate KeysInOrder(s: State) {
    s.saved ==> s.previous == s.pepper
  }

  /** No push under way has read the peppers before `p` was among them and still has to delete. */
  predicate NoStaleCollector(s: State, server: string, p: string) {
    forall id :: id in s.pushes && !s.pushes[id].collected && s.pushes[id].server == server ==>
                   p in s.pushes[id].kept
  }

  predicate Stored(s: State, r: Row) {
    r in s.rows && NoStaleCollector(s, r.server, r.pepper)
  }

  /** How many times a run overwrites `previousPepper`. */
  function Saves(s: State, es: seq<Event>): nat
    decreases |es|
  {
    if es == [] then 0
    else (if es[0].SavePrevious? && !s.saved then 1 else 0) + Saves(Next(s, es[0]), es[1..])
  }

  /** Whether the pepper stays among the two keys to the end of the run. */
  predicate Held(s: State, es: seq<Event>, p: string) {
    || (s.pepper == p && Saves(s, es) + (if s.saved then 1 else 0) <= 1)
    || (s.previous == p && Saves(s, es) == 0)
  }

  /** A rotation of this service's keys, from its first update to its second, whatever pushes do between them: the
      stored pepper becomes the previous one, and the rows are left alone. */
  lemma KeysRotate(s: State, p: string)
    requires !s.saved
    ensures var t := Next(s, SavePrevious);
            && t.previous == s.pepper == t.pepper && t.rows == s.rows && t.pushes == s.pushes
            && Next(t, SavePrevious) == t
            && Next(t, Publish(p)) == s.(pepper := p, previous := s.pepper)
    ensures Next(s, Publish(p)) == s
    ensures forall e: Event :: !e.SavePrevious? && !e.Publish? ==>
              var t := Next(s.(previous := s.pepper, saved := true), e);
              t.saved && t.pepper == t.previous == s.pepper
  {
  }

  /** A row stored under the current pepper survives every later statement of every server until
      the second following rotation overwrites `previousPepper`. */
  lemma {:induction false} PushSurvives(s: State, es: seq<Event>, r: Row)
    requires KeysInOrder(s) && Stored(s, r) && Held(s, es, r.pepper)
    ensures Stored(Run(s, es), r) && KeysInOrder(Run(s, es))
    ensures r.pepper in {Run(s, es).pepper, Run(s, es).previous}
    decreases |es|
  {
    if es != [] {
      var t := Next(s, es[0]);
      assert r in t.rows;
      assert NoStaleCollector(t, r.server, r.pepper);
      PushSurvives(t, es[1..], r);
    }
  }

  /** Whatever the servers do, a stored row of one of the two generations stays for as long as its pepper is one
      of the two keys, if and only if no push under way read the keys before that pepper and has still to delete. */
  lemma SurvivesExactly(s: State, r: Row)
    requires KeysInOrder(s) && r in s.rows && r.pepper in {s.pepper, s.previous}
    ensures (forall es :: Held(s, es, r.pepper) ==> r in Run(s, es).rows) <==> NoStaleCollector(s, r.server, r.pepper)
  {
    if NoStaleCollector(s, r.server, r.pepper) {
      forall es | Held(s, es, r.pepper) ensures r in Run(s, es).rows {
        PushSurvives(s, es, r);
      }
    } else {
      var id :| id in s.pushes && !s.pushes[id].collected && s.pushes[id].server == r.server &&
                r.pepper !in s.pushes[id].kept;
      var es := [Collect(id)];
      assert es[1..] == [];
      assert Run(s, es) == Next(s, Collect(id)) && Held(s, es, r.pepper);
      assert r !in Run(s, es).rows;
    }
  }

  /** What the last insert of a push leaves: its rows, safe when no older push of the same server is
      still to delete. */
  lemma StoredByPush(s: State, id: nat, hash: string)
    requires id in s.pushes && s.pushes[id].collected && hash in s.pushes[id].hashes
    requires NoStaleCollector(s, s.pushes[id].server, s.pushes[id].pepper)
    ensures Stored(Next(s, Store(id, hash)), Row(hash, s.pushes[id].server, s.pushes[id].pepper))
  {
    assert Next(s, Store(id, hash)).pushes == s.pushes;
  }

  /** A push that began before the pepper was published and deletes late takes the row away. */
  lemma OverlappingPushRemovesRow(server: string, hash: string, c: string, n: string)
    requires c != n
    ensures var s := State(c, c, true, {}, map[]);
            var es := [Receive(0, server, c, {}), Publish(n), Receive(1, server, n, {hash}),
                       Collect(1), Store(1, hash), Collect(0)];
            Row(hash, server, n) in Run(s, es[..5]).rows && Run(s, es[..5]).pepper == n &&
            Row(hash, server, n) !in Run(s, es).rows
  {
    var s := State(c, c, true, {}, map[]);
    var es := [Receive(0, server, c, {}), Publish(n), Receive(1, server, n, {hash}),
               Collect(1), Store(1, hash), Collect(0)];
    var p0, p1 := Push(server, c, {}, {c, c}, false), Push(server, n, {hash}, {n, c}, false);
    var s3 := State(n, c, false, {}, map[0 := p0, 1 := p1]);
    var s5 := State(n, c, false, {Row(hash, server, n)}, map[0 := p0, 1 := p1.(collected := true)]);
    assert Next(Next(Next(s, es[0]), es[1]), es[2]) == s3;
    assert Next(Next(s3, es[3]), es[4]) == s5;
    RunFive(s, es[..5]);
    RunFive(s, es);
    assert es[5..] == [Collect(0)] && es[..5][5..] == [];
    assert Run(s5, [Collect(0)]) == Next(s5, Collect(0)) by {
      assert [Collect(0)][1..] == [];
    }
  }

  lemma RunFive(s: State, es: seq<Event>)
    requires |es| >= 5
    ensures Run(s, es) == Run(Next(Next(Next(Next(Next(s, es[0]), es[1]), es[2]), es[3]), es[4]), es[5..])
  {
    var s3 := Next(Next(Next(s, es[0]), es[1]), es[2]);
    assert es[1..][1..] == es[2..] && es[2..][1..] == es[3..];
    assert Run(s, es) == Run(Next(s, es[0]), es[1..]) == Run(Next(Next(s, es[0]), es[1]), es[2..]) == Run(s3, es[3..]);
    assert es[3..][1..] == es[4..] && es[4..][1..] == es[5..];
    assert Run(s3, es[3..]) == Run(Next(s3, es[3]), es[4..]) == Run(Next(Next(s3, es[3]), es[4]), es[5..]);
  }

  /** A push never touches the rows of another server. */
  lemma OtherServersUntouched(s: State, e: Event, r: Row)
    requires e.Collect? || e.Store?
    requires e.id in s.pushes && s.pushes[e.id].server != r.server
    ensures r in Next(s, e).rows <==> r in s.rows
  {
  }

  /** After an undisturbed push the server's rows all belong to the two stored peppers or to the
      pepper it pushed under, and a row under neither is gone. */
  lemma PushCollects(s: State, id: nat, server: string, pepper: string, hashes: set<string>)
    requires id !in s.pushes
    ensures var t := Next(Next(s, Receive(id, server, pepper, hashes)), Collect(id));
            forall r :: r in t.rows <==>
                        r in s.rows && (r.server == server ==> r.pepper in {s.pepper, s.previous})
  {
    var m := Next(s, Receive(id, server, pepper, hashes));
    assert m.pushes[id] == Push(server, pepper, hashes, {s.pepper, s.previous}, false);
  }

  // ---------------------------------------------------------------------------
  // The push handler
  // ---------------------------------------------------------------------------

  function Stores(hashes: seq<string>): seq<Event> {
    seq(|hashes|, i requires 0 <= i < |hashes| => Store(0, hashes[i]))
  }

  function PushEvents(server: string, pepper: string, hashes: seq<string>): seq<Event> {
    [Receive(0, server, pepper, set h | h in hashes), Collect(0)] + Stores(hashes)
  }

  function NewRows(server: string, pepper: string, hashes: seq<string>): set<Row> {
    set h | h in hashes :: Row(h, server, pepper)
  }

  lemma {:induction false} StoresAdd(s: State, hashes: seq<string>)
    requires 0 in s.pushes && s.pushes[0].collected && forall h :: h in hashes ==> h in s.pushes[0].hashes
    ensures Run(s, Stores(hashes)) == s.(rows := s.rows + NewRows(s.pushes[0].server, s.pushes[0].pepper, hashes))
    decreases |hashes|
  {
    if hashes == [] {
      assert s.rows + {} == s.rows;
    } else {
      var t := Next(s, Store(0, hashes[0]));
      assert Stores(hashes)[1..] == Stores(hashes[1..]);
      StoresAdd(t, hashes[1..]);
      assert hashes == [hashes[0]] + hashes[1..];
      assert t.rows + NewRows(s.pushes[0].server, s.pushes[0].pepper, hashes[1..])
          == s.rows + NewRows(s.pushes[0].server, s.pushes[0].pepper, hashes);
    }
  }

  function Collected(rows: set<Row>, server: string, kept: set<string>): set<Row> {
    set r | r in rows && !Collectable(r, server, kept)
  }

  /** What one push does on its own: its statements run one after the other. */
  lemma WholePush(pepper: string, previous: string, rows: set<Row>, server: string, pushed: string, hashes: seq<string>)
    ensures Run(State(pepper, previous, false, rows, map[]), PushEvents(server, pushed, hashes)).rows
         == Collected(rows, server, {pepper, previous}) + NewRows(server, pushed, hashes)
  {
    var s0 := State(pepper, previous, false, rows, map[]);
    var es := PushEvents(server, pushed, hashes);
    var s1 := Next(s0, es[0]);
    var s2 := Next(s1, es[1]);
    assert es[1..][1..] == Stores(hashes);
    assert Run(s0, es) == Run(s1, es[1..]) == Run(s2, es[1..][1..]);
    assert s2.rows == Collected(rows, server, {pepper, previous});
    StoresAdd(s2, hashes);
  }

  class HashByServer {
    var pepper: string
    var previous: string
    var rows: set<Row>

    /** `lookups`: read the two peppers, delete what they no longer cover, insert the pushed hashes. */
    method Lookups(server: string, pushed: string, hashes: seq<string>)
      modifies this`rows
      ensures rows == Run(State(pepper, previous, false, old(rows), map[]), PushEvents(server, pushed, hashes)).rows
      ensures forall r :: r in rows <==>
                          (r in old(rows) && (r.server == server ==> r.pepper in {pepper, previous})) ||
                          (r.server == server && r.pepper == pushed && r.hash in hashes)
    {
      var current := {pepper, previous};
      rows := set r | r in rows && !(r.server == server && r.pepper !in current);
      for i := 0 to |hashes|
        invariant rows == Collected(old(rows), server, current) + NewRows(server, pushed, hashes[..i])
      {
        rows := rows + {Row(hashes[i], server, pushed)};
        assert hashes[..i + 1] == hashes[..i] + [hashes[i]];
      }
      assert hashes[..|hashes|] == hashes;
      WholePush(pepper, previous, old(rows), server, pushed, hashes);
      forall r: Row | r.server == server && r.pepper == pushed && r.hash in hashes ensures r in rows {
        assert r == Row(r.hash, server, pushed);
      }
    }
  }

  // ---------------------------------------------------------------------------
  // Lookup
  // ---------------------------------------------------------------------------

  /** A row of the service's own `hashes` table. */
  datatype Local = Local(hash: string, value: string, active: int)

  predicate ActiveLocal(locals: seq<Local>, hash: string) {
    exists i :: 0 <= i < |locals| && locals[i].hash == hash && locals[i].active == 1
  }

  predicate InactiveLocal(locals: seq<Local>, hash: string) {
    exists i :: 0 <= i < |locals| && locals[i].hash == hash && locals[i].active != 1
  }

  predicate Offered(rows: seq<Row>, server: string, hash: string) {
    exists r :: r in rows && r.server == server && r.hash == hash
  }

  predicate PrimaryKey(locals: seq<Local>) {
    forall i, j :: 0 <= i < j < |locals| ==> locals[i].hash != locals[j].hash
  }

  /** The addresses that no active local row answers. */
  function Open(addresses: seq<string>, locals: seq<Local>): seq<string> {
    if addresses == [] then []
    else (if ActiveLocal(locals, addresses[0]) then [] else [addresses[0]]) + Open(addresses[1..], locals)
  }

  function Unanswered(addresses: seq<string>, mappings: map<string, string>): seq<string> {
    if addresses == [] then []
    else (if addresses[0] in mappings then [] else [addresses[0]]) + Unanswered(addresses[1..], mappings)
  }

  lemma {:induction false} UnansweredAreOpen(addresses: seq<string>, mappings: map<string, string>, locals: seq<Local>)
    requires forall a :: a in addresses ==> (a in mappings <==> ActiveLocal(locals, a))
    ensures Unanswered(addresses, mappings) == Open(addresses, locals)
  {
    hide ActiveLocal;
    if addresses != [] {
      assert addresses[0] in addresses;
      UnansweredAreOpen(addresses[1..], mappings, locals);
    }
  }

  lemma {:induction false} OpenAre(addresses: seq<string>, locals: seq<Local>, a: string)
    ensures a in Open(addresses, locals) <==> a in addresses && !ActiveLocal(locals, a)
  {
    hide ActiveLocal;
    if addresses != [] {
      OpenAre(addresses[1..], locals, a);
      assert addresses == [addresses[0]] + addresses[1..];
    }
  }

  /** The active and inactive local rows that are asked for; and, when some address has no active local row, what
      other servers offer for the addresses without one. */
  method Lookup(addresses: seq<string>, locals: seq<Local>, rows: seq<Row>)
    returns (mappings: map<string, string>, inactives: map<string, string>, thirdParty: map<string, seq<string>>)
    requires PrimaryKey(locals)
    ensures forall i :: 0 <= i < |locals| && Queried(locals[i].hash, addresses) ==>
              if locals[i].active == 1 then locals[i].hash in mappings && mappings[locals[i].hash] == locals[i].value
              else locals[i].hash in inactives && inactives[locals[i].hash] == locals[i].value
    ensures forall h :: h in mappings <==> Queried(h, addresses) && ActiveLocal(locals, h)
    ensures forall h :: h in inactives <==> Queried(h, addresses) && InactiveLocal(locals, h)
    ensures forall server, h :: server in thirdParty && h in thirdParty[server] <==>
              Offered(rows, server, h) && Open(addresses, locals) != [] && Queried(h, Open(addresses, locals))
    ensures forall server :: server in thirdParty <==> ThirdParty(rows, server, addresses, locals) != []
    ensures forall server :: server in thirdParty ==> thirdParty[server] == ThirdParty(rows, server, addresses, locals)
  {
    hide Queried;
    mappings, inactives := Split(locals, addresses);
    var open := Unanswered(addresses, mappings);
    forall a | a in addresses ensures Queried(a, addresses) {
      QueriedWhen(a, addresses);
    }
    UnansweredAreOpen(addresses, mappings, locals);
    thirdParty := map[];
    if |open| > 0 {
      thirdParty := Group(rows, open);
      forall server, h ensures h in HashesOf(rows, server, open) <==> Offered(rows, server, h) && Queried(h, open) {
        HashesAre(rows, server, open, h);
      }
    }
  }

  /** What is returned under a server, in the order of its rows. */
  function ThirdParty(rows: seq<Row>, server: string, addresses: seq<string>, locals: seq<Local>): seq<string> {
    var open := Open(addresses, locals);
    if open == [] then [] else HashesOf(rows, server, open)
  }

  /** A hash of another server is returned if and only if it is offered, and was asked for and has no active local
      row, or the empty text is the only address without one. */
  lemma LookupOfAddresses(rows: seq<Row>, server: string, addresses: seq<string>, locals: seq<Local>, h: string)
    ensures h in ThirdParty(rows, server, addresses, locals) <==>
            Offered(rows, server, h) &&
            ((h in addresses && !ActiveLocal(locals, h)) || Open(addresses, locals) == [""])
  {
    var open := Open(addresses, locals);
    QueriedWhen(h, open);
    OpenAre(addresses, locals, h);
    HashesAre(rows, server, open, h);
  }

  /** A stored row of one of the two generations is returned under its server, for as long as its pepper is one of
      the two keys and whatever the servers do meanwhile, if and only if its hash was asked for and has no active
      local row, or the empty text is the only address without one. */
  lemma StoredRowsAreReturned(
    s: State, es: seq<Event>, r: Row, rows: seq<Row>, addresses: seq<string>, locals: seq<Local>)
    requires KeysInOrder(s) && Stored(s, r) && Held(s, es, r.pepper)
    requires forall x :: x in rows <==> x in Run(s, es).rows
    ensures r.hash in ThirdParty(rows, r.server, addresses, locals) <==>
            (r.hash in addresses && !ActiveLocal(locals, r.hash)) || Open(addresses, locals) == [""]
  {
    PushSurvives(s, es, r);
    assert Offered(rows, r.server, r.hash) by {
      assert r in rows;
    }
    LookupOfAddresses(rows, r.server, addresses, locals, r.hash);
  }

  /** The loop that fills `mappings` and `inactives`. */
  method Split(locals: seq<Local>, addresses: seq<string>)
    returns (mappings: map<string, string>, inactives: map<string, string>)
    requires PrimaryKey(locals)
    ensures forall i :: 0 <= i < |locals| && Queried(locals[i].hash, addresses) ==>
              if locals[i].active == 1 then locals[i].hash in mappings && mappings[locals[i].hash] == locals[i].value
              else locals[i].hash in inactives && inactives[locals[i].hash] == locals[i].value
    ensures forall h :: h in mappings <==> Queried(h, addresses) && ActiveLocal(locals, h)
    ensures forall h :: h in inactives <==> Queried(h, addresses) && InactiveLocal(locals, h)
  {
    hide Queried;
    mappings, inactives := map[], map[];
    for n := 0 to |locals|
      invariant forall i :: 0 <= i < n && Queried(locals[i].hash, addresses) ==>
                  if locals[i].active == 1
                  then locals[i].hash in mappings && mappings[locals[i].hash] == locals[i].value
                  else locals[i].hash in inactives && inactives[locals[i].hash] == locals[i].value
      invariant forall h :: h in mappings ==>
                  (Queried(h, addresses) && exists i :: 0 <= i < n && locals[i].hash == h && locals[i].active == 1)
      invariant forall h :: h in inactives ==>
                  (Queried(h, addresses) && exists i :: 0 <= i < n && locals[i].hash == h && locals[i].active != 1)
    {
      if Queried(locals[n].hash, addresses) {
        if locals[n].active == 1 {
          mappings := mappings[locals[n].hash := locals[n].value];
        } else {
          inactives := inactives[locals[n].hash := locals[n].value];
        }
      }
    }
  }

  /** The hashes of a server among the queried rows, in the order of the rows. */
  function HashesOf(rows: seq<Row>, server: string, list: seq<string>): seq<string> {
    if rows == [] then []
    else
      var r := rows[|rows| - 1];
      HashesOf(rows[..|rows| - 1], server, list) +
          (if r.server == server && Queried(r.hash, list) then [r.hash] else [])
  }

  lemma {:induction false} HashesAre(rows: seq<Row>, server: string, list: seq<string>, h: string)
    ensures h in HashesOf(rows, server, list) <==> Offered(rows, server, h) && Queried(h, list)
  {
    hide Queried;
    if rows != [] {
      HashesAre(rows[..|rows| - 1], server, list, h);
      assert rows == rows[..|rows| - 1] + [rows[|rows| - 1]];
    }
  }

  /** `groupBy(rows, 'server')` of the queried rows, keeping their hashes. */
  method Group(rows: seq<Row>, list: seq<string>) returns (groups: map<string, seq<string>>)
    ensures forall server :: server in groups <==> HashesOf(rows, server, list) != []
    ensures forall server :: server in groups ==> groups[server] == HashesOf(rows, server, list)
  {
    hide Queried;
    groups := map[];
    for n := 0 to |rows|
      invariant forall server :: server in groups <==> HashesOf(rows[..n], server, list) != []
      invariant forall server :: server in groups ==> groups[server] == HashesOf(rows[..n], server, list)
    {
      var r := rows[n];
      assert rows[..n + 1][..n] == rows[..n];
      if Queried(r.hash, list) {
        var before := if r.server in groups then groups[r.server] else [];
        groups := groups[r.server := before + [r.hash]];
      }
    }
    assert rows[..|rows|] == rows;
  }
}
