/** The cron job that reconciles user database, hash table and user history. */
module UpdateUsers {
  import opened Options
  import opened Sequences
  import MatrixId
  import PepperRotation
  import Regex
  import UpdateHash

  type Row = UpdateHash.Row

  type Hasher = UpdateHash.Hasher

  datatype DirectoryUser = DirectoryUser(uid: string, mail: Option<string>, mobile: Option<string>)

  /** What one run reads besides the tables: the user database, the names in the Matrix database when
      one is configured, and whether a federated identity service is in use. */
  datatype Sources = Sources(users: seq<DirectoryUser>, matrix: Option<seq<string>>, federated: bool)

  datatype History = History(active: int, timestamp: int)

  datatype State = State(hashes: map<string, Row>, history: map<string, History>)

  /** The writes a run issues: an insert or update of a history row, the activation of a user's hash rows,
      the rows of updateHash, and setInactive. */
  datatype Op =
    | PutHistory(address: string, update: bool)
    | Activate(address: string)
    | AddRows(rows: map<string, Row>)
    | SetInactive(address: string)

  // ---------------------------------------------------------------------------
  // What a run finds
  // ---------------------------------------------------------------------------

  /** The localpart of an address; anything else as it is. */
  function Localpart(value: string): string {
    var l := MatrixId.GetLocalPart(value);
    if l.Some? then l.value else value
  }

  function KnownUids(rows: seq<Row>): (r: seq<string>)
    ensures |r| == |rows|
  {
    seq(|rows|, i requires 0 <= i < |rows| => Localpart(rows[i].value))
  }

  predicate IsMatrixUser(src: Sources, uid: string) {
    src.matrix.Some? && uid in src.matrix.value
  }

  function Status(src: Sources, uid: string): int {
    if src.matrix.None? || IsMatrixUser(src, uid) then 1 else 0
  }

  predicate New(rows: seq<Row>, u: DirectoryUser) {
    u.uid !in KnownUids(rows)
  }

  predicate Reactivated(src: Sources, rows: seq<Row>, u: DirectoryUser) {
    !New(rows, u) && IsMatrixUser(src, u.uid) && rows[IndexOf(KnownUids(rows), u.uid, 0)].active == 0
  }

  function UserOps(src: Sources, rows: seq<Row>, existing: set<string>, toId: string -> string,
      u: DirectoryUser): seq<Op>
  {
    var address := toId(u.uid);
    if New(rows, u) then
      if Status(src, u.uid) != 0 then [PutHistory(address, address in existing)] else []
    else if Reactivated(src, rows, u) then [Activate(address), PutHistory(address, address in existing)]
    else []
  }

  function AllUserOps(src: Sources, rows: seq<Row>, existing: set<string>, toId: string -> string,
      us: seq<DirectoryUser>): seq<Op>
  {
    if us == [] then []
    else AllUserOps(src, rows, existing, toId, us[..|us| - 1]) + UserOps(src, rows, existing, toId, us[|us| - 1])
  }

  predicate ToHash(src: Sources, rows: seq<Row>, u: DirectoryUser) {
    New(rows, u) && (!src.federated || IsMatrixUser(src, u.uid))
  }

  function DataOf(src: Sources, toId: string -> string, u: DirectoryUser): UpdateHash.User {
    UpdateHash.User(toId(u.uid), UpdateHash.ValueField(Status(src, u.uid), u.mail, u.mobile))
  }

  /** The users handed to updateHash. */
  function ToUpdate(src: Sources, rows: seq<Row>, toId: string -> string,
      us: seq<DirectoryUser>): seq<UpdateHash.User>
  {
    if us == [] then []
    else
      var u := us[|us| - 1];
      ToUpdate(src, rows, toId, us[..|us| - 1]) + if ToHash(src, rows, u) then [DataOf(src, toId, u)] else []
  }

  function Uids(us: seq<DirectoryUser>): set<string> {
    set u | u in us :: u.uid
  }

  /** The names that every object inherits, all with values that count as true. */
  const INHERITED_NAMES := [
    "constructor", "__defineGetter__", "__defineSetter__", "hasOwnProperty", "__lookupGetter__", "__lookupSetter__",
    "isPrototypeOf", "propertyIsEnumerable", "toString", "valueOf", "__proto__", "toLocaleString"]

  predicate Inherited(uid: string) {
    uid in INHERITED_NAMES
  }

  /** Known uids that the user database has no more, each once; the record of uids seen begins with the
      inherited names. */
  function Missing(known: seq<string>, uids: set<string>): seq<string> {
    if known == [] then []
    else
      var init, uid := known[..|known| - 1], known[|known| - 1];
      if uid in uids || uid in init || Inherited(uid) then Missing(init, uids) else Missing(init, uids) + [uid]
  }

  function InactiveOps(toId: string -> string, uids: seq<string>): seq<Op> {
    seq(|uids|, i requires 0 <= i < |uids| => SetInactive(toId(uids[i])))
  }

  function NewRows(h: Hasher, pepper: string, src: Sources, rows: seq<Row>, toId: string -> string): map<string, Row> {
    UpdateHash.RowsFor(h, UpdateHash.Params(ToUpdate(src, rows, toId, src.users)), pepper)
  }

  /** The writes of one run in the order it issues them. */
  function Plan(h: Hasher, pepper: string, src: Sources, rows: seq<Row>, existing: set<string>,
      toId: string -> string): seq<Op>
  {
    AllUserOps(src, rows, existing, toId, src.users)
    + [AddRows(NewRows(h, pepper, src, rows, toId))]
    + InactiveOps(toId, Missing(KnownUids(rows), Uids(src.users)))
  }

  // ---------------------------------------------------------------------------
  // What its writes do
  // ---------------------------------------------------------------------------

  function Activated(hashes: map<string, Row>, address: string): map<string, Row> {
    map k | k in hashes :: if hashes[k].value == address then hashes[k].(active := 1) else hashes[k]
  }

  /** An insert of a history row is refused when the address has one; an update needs one. */
  function PutHistoryRow(history: map<string, History>, a: string, update: bool, now: int): map<string, History> {
    if update == (a in history) then history[a := History(1, now)] else history
  }

  function MadeInactive(history: map<string, History>, a: string, now: int): map<string, History> {
    if a !in history then history[a := History(0, now)]
    else if history[a].active != 0 then history[a := history[a].(active := 0)]
    else history
  }

  function Apply(s: State, now: int, op: Op): State {
    match op
    case PutHistory(a, update) => s.(history := PutHistoryRow(s.history, a, update, now))
    case Activate(a) => s.(hashes := Activated(s.hashes, a))
    case AddRows(rows) => s.(hashes := rows + s.hashes)
    case SetInactive(a) => s.(history := MadeInactive(s.history, a, now))
  }

  function ApplyAll(s: State, now: int, ops: seq<Op>): State {
    if ops == [] then s else Apply(ApplyAll(s, now, ops[..|ops| - 1]), now, ops[|ops| - 1])
  }

  function After(h: Hasher, pepper: string, src: Sources, rows: seq<Row>, toId: string -> string, now: int,
      s: State): State
  {
    ApplyAll(s, now, Plan(h, pepper, src, rows, s.history.Keys, toId))
  }

  lemma {:induction false} ApplyAllSplit(s: State, now: int, a: seq<Op>, b: seq<Op>)
    ensures ApplyAll(s, now, a + b) == ApplyAll(ApplyAll(s, now, a), now, b)
  {
    if b == [] {
      assert a + b == a;
    } else {
      assert (a + b)[..|a + b| - 1] == a + b[..|b| - 1];
      ApplyAllSplit(s, now, a, b[..|b| - 1]);
    }
  }

  lemma NothingRetired(s: State, now: int, toId: string -> string)
    ensures ApplyAll(s, now, InactiveOps(toId, [])) == s
  {
  }

  lemma ApplyOne(s: State, now: int, ops: seq<Op>, op: Op)
    ensures ApplyAll(s, now, ops + [op]) == Apply(ApplyAll(s, now, ops), now, op)
  {
    assert (ops + [op])[..|ops|] == ops;
  }

  lemma ApplyNone(s: State, now: int)
    ensures ApplyAll(s, now, []) == s
  {
  }

  /** The tables, written as the run goes. */
  class Tables {
    var hashes: map<string, Row>
    var history: map<string, History>

    constructor (s: State)
      ensures Value() == s
    {
      hashes, history := s.hashes, s.history;
    }

    function Value(): State
      reads this
    {
      State(hashes, history)
    }

    method Put(a: string, update: bool, now: int)
      modifies this
      ensures Value() == Apply(old(Value()), now, PutHistory(a, update))
    {
      if update == (a in history) {
        history := history[a := History(1, now)];
      }
    }

    method SetActive(a: string, now: int)
      modifies this
      ensures Value() == Apply(old(Value()), now, Activate(a))
    {
      hashes := map k | k in hashes :: if hashes[k].value == a then hashes[k].(active := 1) else hashes[k];
    }

    method MakeInactive(a: string, now: int)
      modifies this
      ensures Value() == Apply(old(Value()), now, SetInactive(a))
    {
      if a !in history {
        history := history[a := History(0, now)];
      } else if history[a].active != 0 {
        history := history[a := history[a].(active := 0)];
      }
    }

    /** One user of the user database. */
    method Visit(src: Sources, rows: seq<Row>, known: seq<string>, existing: set<string>, toId: string -> string,
                 now: int, u: DirectoryUser)
      returns (found: seq<UpdateHash.User>)
      requires known == KnownUids(rows)
      modifies this
      ensures found == if ToHash(src, rows, u) then [DataOf(src, toId, u)] else []
      ensures Value() == ApplyAll(old(Value()), now, UserOps(src, rows, existing, toId, u))
    {
      hide Apply, ApplyAll, KnownUids, IndexOf, Status, IsMatrixUser, DataOf;
      found := [];
      var address := toId(u.uid);
      var put := PutHistory(address, address in existing);
      var pos := IndexOf(known, u.uid, 0);
      ghost var start := Value();
      ApplyNone(start, now);
      if pos < 0 {
        if Status(src, u.uid) != 0 {
          Put(address, address in existing, now);
          ApplyOne(start, now, [], put);
          assert [] + [put] == [put];
        }
        if !src.federated || IsMatrixUser(src, u.uid) {
          found := [DataOf(src, toId, u)];
        }
      } else if IsMatrixUser(src, u.uid) && rows[pos].active == 0 {
        SetActive(address, now);
        Put(address, address in existing, now);
        ApplyOne(start, now, [], Activate(address));
        ApplyOne(start, now, [Activate(address)], put);
        assert [] + [Activate(address)] == [Activate(address)];
        assert [Activate(address)] + [put] == [Activate(address), put];
      }
    }

    /** The loop over the user database. */
    method FindUpdates(src: Sources, rows: seq<Row>, existing: set<string>, toId: string -> string, now: int)
      returns (toUpdate: seq<UpdateHash.User>)
      modifies this
      ensures toUpdate == ToUpdate(src, rows, toId, src.users)
      ensures Value() == ApplyAll(old(Value()), now, AllUserOps(src, rows, existing, toId, src.users))
    {
      hide Apply, UserOps, ToHash, DataOf;
      toUpdate := [];
      var known := KnownUids(rows);
      for i := 0 to |src.users|
        invariant toUpdate == ToUpdate(src, rows, toId, src.users[..i])
        invariant Value() == ApplyAll(old(Value()), now, AllUserOps(src, rows, existing, toId, src.users[..i]))
      {
        var u := src.users[i];
        assert src.users[..i + 1][..i] == src.users[..i];
        var found := Visit(src, rows, known, existing, toId, now, u);
        toUpdate := toUpdate + found;
        ApplyAllSplit(old(Value()), now, AllUserOps(src, rows, existing, toId, src.users[..i]),
            UserOps(src, rows, existing, toId, u));
      }
      assert src.users[..|src.users|] == src.users;
    }

    /** The loop over the known uids, with its record of uids seen: `seen` holds the record's own names. */
    method RetireMissing(rows: seq<Row>, uids: set<string>, toId: string -> string, now: int)
      modifies this
      ensures Value() == ApplyAll(old(Value()), now, InactiveOps(toId, Missing(KnownUids(rows), uids)))
    {
      hide KnownUids, Apply, ApplyAll, Inherited;
      NothingRetired(Value(), now, toId);
      var known := KnownUids(rows);
      var seen: set<string> := {};
      ghost var gone: seq<string> := [];
      for i := 0 to |known|
        invariant gone == Missing(known[..i], uids)
        invariant forall uid :: uid in seen <==> uid in known[..i] && uid !in uids
        invariant Value() == ApplyAll(old(Value()), now, InactiveOps(toId, gone))
      {
        assert known[..i + 1][..i] == known[..i];
        assert known[..i + 1] == known[..i] + [known[i]];
        if known[i] !in uids {
          if known[i] !in seen && !Inherited(known[i]) {
            MakeInactive(toId(known[i]), now);
            ApplyOne(old(Value()), now, InactiveOps(toId, gone), SetInactive(toId(known[i])));
            assert InactiveOps(toId, gone + [known[i]]) == InactiveOps(toId, gone) + [SetInactive(toId(known[i]))];
            gone := gone + [known[i]];
          }
          seen := seen + {known[i]};
        }
      }
      assert known[..|known|] == known;
    }

    /** One run; the rows of updateHash arrive as one write. */
    method Update(h: Hasher, pepper: string, src: Sources, rows: seq<Row>, toId: string -> string, now: int)
      modifies this
      ensures Value() == After(h, pepper, src, rows, toId, now, old(Value()))
    {
      var existing := history.Keys;
      var toUpdate := FindUpdates(src, rows, existing, toId, now);
      ghost var first := AllUserOps(src, rows, existing, toId, src.users);
      var params := UpdateHash.CollectParams(toUpdate);
      var newRows := UpdateHash.RowsFor(h, params, pepper);
      hashes := newRows + hashes;
      ApplyOne(old(Value()), now, first, AddRows(newRows));
      var uids := set u | u in src.users :: u.uid;
      RetireMissing(rows, uids, toId, now);
      ApplyAllSplit(old(Value()), now, first + [AddRows(newRows)], InactiveOps(toId, Missing(KnownUids(rows), uids)));
    }
  }

  // ---------------------------------------------------------------------------
  // Hypotheses
  // ---------------------------------------------------------------------------

  /** The uid makes a Matrix id on this server, namely `toId` of it. */
  ghost predicate ValidUid(toId: string -> string, server: string, uid: string) {
    MatrixId.Prints(uid, server, toId(uid))
  }

  ghost predicate ValidSources(src: Sources, toId: string -> string, server: string) {
    && (forall u :: u in src.users ==> ValidUid(toId, server, u.uid))
    && forall i, j :: 0 <= i < j < |src.users| ==> src.users[i].uid != src.users[j].uid
  }

  /** The rows are for ids of any server, as long as their localparts make ids of this one. */
  ghost predicate PrintableRows(hashes: map<string, Row>, toId: string -> string, server: string) {
    forall k :: k in hashes ==> ValidUid(toId, server, Localpart(hashes[k].value))
  }

  /** What reading the table returns, in any order. */
  ghost predicate Listed(rows: seq<Row>, hashes: map<string, Row>) {
    && (forall r :: r in rows ==> exists k :: k in hashes && hashes[k] == r)
    && (forall k :: k in hashes ==> hashes[k] in rows)
  }

  lemma UidOfAddress(toId: string -> string, server: string, uid: string)
    requires ValidUid(toId, server, uid)
    ensures Localpart(toId(uid)) == uid
  {
    MatrixId.PrintedOnce(uid, server, uid, server, toId(uid));
  }

  lemma DifferentAddresses(toId: string -> string, server: string, a: string, b: string)
    requires ValidUid(toId, server, a) && ValidUid(toId, server, b)
    ensures toId(a) == toId(b) <==> a == b
  {
    UidOfAddress(toId, server, a);
    UidOfAddress(toId, server, b);
  }

  /** The known uids are the localparts of the rows. */
  lemma KnownExactly(rows: seq<Row>, hashes: map<string, Row>, uid: string)
    requires Listed(rows, hashes)
    ensures uid in KnownUids(rows) <==> exists k :: k in hashes && Localpart(hashes[k].value) == uid
  {
    hide Localpart;
    if uid in KnownUids(rows) {
      var i :| 0 <= i < |rows| && KnownUids(rows)[i] == uid;
      assert rows[i] in rows;
    }
    if k :| k in hashes && Localpart(hashes[k].value) == uid {
      var i :| 0 <= i < |rows| && rows[i] == hashes[k];
      assert KnownUids(rows)[i] == uid;
    }
  }

  lemma KnownAreValid(rows: seq<Row>, hashes: map<string, Row>, toId: string -> string, server: string, uid: string)
    requires Listed(rows, hashes) && PrintableRows(hashes, toId, server) && uid in KnownUids(rows)
    ensures ValidUid(toId, server, uid)
  {
    hide ValidUid, Localpart;
    KnownExactly(rows, hashes, uid);
  }

  /** Of the inherited names, exactly two are localparts. */
  lemma PrintableInheritedNames(uid: string)
    ensures Inherited(uid) && Regex.Matches(MatrixId.LOCALPART, uid) <==> uid == "constructor" || uid == "__proto__"
  {
    hide Regex.Matches;
    MatrixId.LocalpartExactly(uid);
    if Inherited(uid) && uid != "constructor" && uid != "__proto__" {
      var i :| 0 <= i < 12 && uid == INHERITED_NAMES[i];
      assert exists k :: 0 <= k < |uid| && 'A' <= uid[k] <= 'Z' by { NamesWithCapitals(uid, i); }
    }
    assert INHERITED_NAMES[0] == "constructor" && INHERITED_NAMES[10] == "__proto__";
  }

  lemma NamesWithCapitals(uid: string, i: nat)
    requires i < 12 && i != 0 && i != 10 && uid == INHERITED_NAMES[i]
    ensures exists k :: 0 <= k < |uid| && 'A' <= uid[k] <= 'Z'
  {
    var k := [0, 8, 8, 3, 8, 8, 2, 8, 2, 5, 0, 2][i];
    assert 'A' <= uid[k] <= 'Z';
  }

  // ---------------------------------------------------------------------------
  // The writes of one run
  // ---------------------------------------------------------------------------

  predicate WritesHistory(op: Op, address: string) {
    (op.PutHistory? || op.SetInactive?) && op.address == address
  }

  function HistoryWrites(ops: seq<Op>, address: string): nat {
    if ops == [] then 0
    else HistoryWrites(ops[..|ops| - 1], address) + if WritesHistory(ops[|ops| - 1], address) then 1 else 0
  }

  lemma {:induction false} HistoryWritesSplit(a: seq<Op>, b: seq<Op>, address: string)
    ensures HistoryWrites(a + b, address) == HistoryWrites(a, address) + HistoryWrites(b, address)
  {
    if b == [] {
      assert a + b == a;
    } else {
      assert (a + b)[..|a + b| - 1] == a + b[..|b| - 1];
      HistoryWritesSplit(a, b[..|b| - 1], address);
    }
  }

  lemma {:induction false} MissingAre(known: seq<string>, uids: set<string>)
    ensures forall uid :: uid in Missing(known, uids) <==> uid in known && uid !in uids && !Inherited(uid)
    ensures forall i, j :: 0 <= i < j < |Missing(known, uids)| ==> Missing(known, uids)[i] != Missing(known, uids)[j]
  {
    hide Inherited;
    if known != [] {
      var init := known[..|known| - 1];
      MissingAre(init, uids);
      assert forall uid :: uid in known <==> uid in init || uid == known[|known| - 1];
    }
  }

  lemma {:induction false} WriteCounts(ops: seq<Op>, i: nat, address: string)
    requires i < |ops| && WritesHistory(ops[i], address)
    ensures HistoryWrites(ops, address) >= 1
  {
    if i < |ops| - 1 {
      WriteCounts(ops[..|ops| - 1], i, address);
    }
  }

  ghost predicate ValidAll(toId: string -> string, server: string, uids: seq<string>) {
    forall uid :: uid in uids ==> ValidUid(toId, server, uid)
  }

  lemma {:induction false} InactiveWrites(toId: string -> string, server: string, gone: seq<string>, uid: string)
    requires ValidAll(toId, server, gone) && ValidUid(toId, server, uid)
    requires forall i, j :: 0 <= i < j < |gone| ==> gone[i] != gone[j]
    ensures HistoryWrites(InactiveOps(toId, gone), toId(uid)) == if uid in gone then 1 else 0
  {
    hide ValidUid;
    if gone != [] {
      var init, last := gone[..|gone| - 1], gone[|gone| - 1];
      InactiveWrites(toId, server, init, uid);
      assert InactiveOps(toId, gone)[..|gone| - 1] == InactiveOps(toId, init);
      assert gone == init + [last] && last in gone;
      DifferentAddresses(toId, server, last, uid);
    }
  }

  lemma {:induction false} UserWrites(
    src: Sources, rows: seq<Row>, existing: set<string>, toId: string -> string, server: string,
    us: seq<DirectoryUser>, uid: string)
    requires ValidUid(toId, server, uid) && forall u :: u in us ==> ValidUid(toId, server, u.uid)
    requires forall i, j :: 0 <= i < j < |us| ==> us[i].uid != us[j].uid
    ensures HistoryWrites(AllUserOps(src, rows, existing, toId, us), toId(uid)) <= if uid in Uids(us) then 1 else 0
  {
    hide ValidUid, New, Reactivated, Status, UserOps;
    if us != [] {
      var init, u := us[..|us| - 1], us[|us| - 1];
      UserWrites(src, rows, existing, toId, server, init, uid);
      var ops := UserOps(src, rows, existing, toId, u);
      HistoryWritesSplit(AllUserOps(src, rows, existing, toId, init), ops, toId(uid));
      assert us == init + [u] && u in us;
      DifferentAddresses(toId, server, u.uid, uid);
      OneUserWrites(src, rows, existing, toId, u, toId(uid));
      assert Uids(us) == Uids(init) + {u.uid};
    }
  }

  lemma OneUserWrites(src: Sources, rows: seq<Row>, existing: set<string>, toId: string -> string, u: DirectoryUser,
      address: string)
    ensures HistoryWrites(UserOps(src, rows, existing, toId, u), address) <= if toId(u.uid) == address then 1 else 0
  {
    hide New, Reactivated, Status;
    var put := PutHistory(toId(u.uid), toId(u.uid) in existing);
    assert [put][..0] == [] && [Activate(toId(u.uid)), put][..1] == [Activate(toId(u.uid))] &&
        [Activate(toId(u.uid))][..0] == [];
    assert HistoryWrites([], address) == 0;
    assert HistoryWrites([Activate(toId(u.uid))], address) == 0;
  }

  /** One run writes the history of an address at most once. When its uid is known and gone from the user database
      it does so exactly once, as inactive, if and only if the uid is not an inherited name. */
  lemma {:induction false} OneHistoryWrite(
    h: Hasher, pepper: string, src: Sources, rows: seq<Row>, s: State, toId: string -> string, server: string,
    uid: string)
    requires ValidSources(src, toId, server) && Listed(rows, s.hashes) && PrintableRows(s.hashes, toId, server)
    requires ValidUid(toId, server, uid)
    ensures var plan := Plan(h, pepper, src, rows, s.history.Keys, toId);
      && HistoryWrites(plan, toId(uid)) <= 1
      && (uid in KnownUids(rows) && uid !in Uids(src.users) ==>
            && (HistoryWrites(plan, toId(uid)) == 1 <==> !Inherited(uid))
            && (SetInactive(toId(uid)) in plan <==> !Inherited(uid)))
  {
    hide ValidUid, KnownUids, AllUserOps, NewRows;
    var known, uids := KnownUids(rows), Uids(src.users);
    var gone := Missing(known, uids);
    var first := AllUserOps(src, rows, s.history.Keys, toId, src.users);
    var mid, last := [AddRows(NewRows(h, pepper, src, rows, toId))], InactiveOps(toId, gone);
    MissingAre(known, uids);
    forall x | x in gone ensures ValidUid(toId, server, x) {
      KnownAreValid(rows, s.hashes, toId, server, x);
    }
    UserWrites(src, rows, s.history.Keys, toId, server, src.users, uid);
    InactiveWrites(toId, server, gone, uid);
    HistoryWritesSplit(first + mid, last, toId(uid));
    HistoryWritesSplit(first, mid, toId(uid));
    assert mid[..0] == [];
    if uid in gone {
      var i :| 0 <= i < |gone| && gone[i] == uid;
      assert last[i] == SetInactive(toId(uid));
    } else if i :| 0 <= i < |first + mid + last| && (first + mid + last)[i] == SetInactive(toId(uid)) {
      WriteCounts(first + mid + last, i, toId(uid));
    }
  }

  // ---------------------------------------------------------------------------
  // The order of the writes
  // ---------------------------------------------------------------------------

  /** Two writes that do not meet. */
  predicate Apart(a: Op, b: Op) {
    match a
    case PutHistory(x, _) => (b.PutHistory? || b.SetInactive?) ==> b.address != x
    case SetInactive(x) => (b.PutHistory? || b.SetInactive?) ==> b.address != x
    case Activate(x) => b.AddRows? ==> forall k :: k in b.rows ==> b.rows[k].value != x
    case AddRows(rows) => !b.AddRows? && (b.Activate? ==> forall k :: k in rows ==> rows[k].value != b.address)
  }

  lemma PutsCommute(m: map<string, History>, a: string, u: bool, b: string, v: bool, now: int)
    requires a != b
    ensures PutHistoryRow(PutHistoryRow(m, a, u, now), b, v, now) ==
        PutHistoryRow(PutHistoryRow(m, b, v, now), a, u, now)
    ensures PutHistoryRow(MadeInactive(m, b, now), a, u, now) == MadeInactive(PutHistoryRow(m, a, u, now), b, now)
  {
  }

  lemma InactivesCommute(m: map<string, History>, a: string, b: string, now: int)
    requires a != b
    ensures MadeInactive(MadeInactive(m, a, now), b, now) == MadeInactive(MadeInactive(m, b, now), a, now)
  {
  }

  lemma ActivationsCommute(hashes: map<string, Row>, a: string, b: string, rows: map<string, Row>)
    ensures Activated(Activated(hashes, a), b) == Activated(Activated(hashes, b), a)
    ensures (forall k :: k in rows ==> rows[k].value != a) ==>
        Activated(rows + hashes, a) == rows + Activated(hashes, a)
  {
  }

  lemma ApartCommute(s: State, now: int, a: Op, b: Op)
    requires Apart(a, b)
    ensures Apply(Apply(s, now, a), now, b) == Apply(Apply(s, now, b), now, a)
  {
    hide PutHistoryRow, MadeInactive, Activated;
    match a
    case PutHistory(x, u) =>
      if b.PutHistory? {
        PutsCommute(s.history, x, u, b.address, b.update, now);
      } else if b.SetInactive? {
        PutsCommute(s.history, x, u, b.address, false, now);
      }
    case SetInactive(x) =>
      if b.PutHistory? {
        PutsCommute(s.history, b.address, b.update, x, false, now);
      } else if b.SetInactive? {
        InactivesCommute(s.history, x, b.address, now);
      }
    case Activate(x) =>
      if b.Activate? {
        ActivationsCommute(s.hashes, x, b.address, map[]);
      } else if b.AddRows? {
        ActivationsCommute(s.hashes, x, x, b.rows);
      }
    case AddRows(rows) =>
      if b.Activate? {
        ActivationsCommute(s.hashes, b.address, b.address, rows);
      }
  }

  predicate AllApart(ops: seq<Op>) {
    forall i, j :: 0 <= i < j < |ops| ==> Apart(ops[i], ops[j])
  }

  /** The write at `i` may as well come last. */
  lemma {:induction false} MoveToEnd(s: State, now: int, ops: seq<Op>, i: nat)
    requires i < |ops| && AllApart(ops)
    ensures ApplyAll(s, now, ops) == Apply(ApplyAll(s, now, ops[..i] + ops[i + 1..]), now, ops[i])
    decreases |ops|
  {
    hide Apart, Apply;
    var n := |ops| - 1;
    if i == n {
      assert ops[..i] + ops[i + 1..] == ops[..n];
    } else {
      MoveToEnd(s, now, ops[..n], i);
      var rest := ops[..i] + ops[i + 1..n];
      assert ops[..n][..i] + ops[..n][i + 1..] == rest;
      ApplyOne(s, now, rest, ops[n]);
      assert ops[..i] + ops[i + 1..] == rest + [ops[n]];
      ApartCommute(ApplyAll(s, now, rest), now, ops[i], ops[n]);
    }
  }

  lemma WithoutIndex(ops: seq<Op>, i: nat)
    requires i < |ops| && AllApart(ops)
    ensures multiset(ops[..i] + ops[i + 1..]) == multiset(ops) - multiset{ops[i]}
    ensures AllApart(ops[..i] + ops[i + 1..])
  {
    hide Apart;
    assert ops == ops[..i] + [ops[i]] + ops[i + 1..];
    var rest := ops[..i] + ops[i + 1..];
    forall j, k | 0 <= j < k < |rest| ensures Apart(rest[j], rest[k]) {
      var j', k' := if j < i then j else j + 1, if k < i then k else k + 1;
      assert rest[j] == ops[j'] && rest[k] == ops[k'];
    }
  }

  /** Writes that do not meet lead to the same tables in whatever order they complete. */
  lemma {:induction false} EveryOrderAgrees(s: State, now: int, ops: seq<Op>, ops': seq<Op>)
    requires AllApart(ops) && multiset(ops) == multiset(ops')
    ensures ApplyAll(s, now, ops) == ApplyAll(s, now, ops')
    decreases |ops'|
  {
    hide Apart, Apply;
    assert |ops| == |multiset(ops)| == |ops'|;
    if ops' != [] {
      var n := |ops'| - 1;
      assert ops' == ops'[..n] + [ops'[n]];
      assert ops'[n] in multiset(ops);
      var i :| 0 <= i < |ops| && ops[i] == ops'[n];
      MoveToEnd(s, now, ops, i);
      WithoutIndex(ops, i);
      EveryOrderAgrees(s, now, ops[..i] + ops[i + 1..], ops'[..n]);
    }
  }

  /** Where the writes of a run come from. */
  lemma {:induction false} UserOpsAre(
    src: Sources, rows: seq<Row>, existing: set<string>, toId: string -> string, us: seq<DirectoryUser>, op: Op)
    requires op in AllUserOps(src, rows, existing, toId, us)
    ensures (op.PutHistory? && op.update == (op.address in existing)) || op.Activate?
    ensures exists u :: u in us && op.address == toId(u.uid) && (op.Activate? ==> Reactivated(src, rows, u))
  {
    hide New, Reactivated, Status;
    var init, u := us[..|us| - 1], us[|us| - 1];
    assert us == init + [u] && u in us;
    if op in AllUserOps(src, rows, existing, toId, init) {
      UserOpsAre(src, rows, existing, toId, init, op);
    } else {
      assert op in UserOps(src, rows, existing, toId, u);
    }
  }

  lemma {:induction false} ToUpdateAre(src: Sources, rows: seq<Row>, toId: string -> string, us: seq<DirectoryUser>,
      d: UpdateHash.User)
    ensures d in ToUpdate(src, rows, toId, us) <==>
        exists u :: u in us && ToHash(src, rows, u) && d == DataOf(src, toId, u)
  {
    hide ToHash, DataOf;
    if us != [] {
      ToUpdateAre(src, rows, toId, us[..|us| - 1], d);
      assert us == us[..|us| - 1] + [us[|us| - 1]];
    }
  }

  /** The added rows belong to new users. */
  lemma NewRowsAre(h: Hasher, pepper: string, src: Sources, rows: seq<Row>, toId: string -> string, k: string)
    requires k in NewRows(h, pepper, src, rows, toId)
    ensures var r := NewRows(h, pepper, src, rows, toId)[k];
      exists u :: u in src.users && ToHash(src, rows, u) && r.value == toId(u.uid) && r.active == Status(src, u.uid)
  {
    hide ToHash, UpdateHash.KeyOf, UpdateHash.Params, ToUpdate, UpdateHash.RowsFor, Status;
    var data := ToUpdate(src, rows, toId, src.users);
    var ps := UpdateHash.Params(data);
    UpdateHash.RowsForKeys(h, ps, pepper, k);
    var i :| 0 <= i < |ps| && k == UpdateHash.KeyOf(h, ps[i], pepper)
          && NewRows(h, pepper, src, rows, toId)[k] == UpdateHash.RowOf(ps[i], pepper);
    UpdateHash.ParamsAre(data, ps[i]);
    assert ps[i] in ps;
    var d :| d in data && UpdateHash.HasField(d, ps[i].field) && ps[i].method_ in UpdateHash.SUPPORTED_HASHES
          && ps[i] == UpdateHash.ParamOf(d, ps[i].field, ps[i].method_);
    ToUpdateAre(src, rows, toId, src.users, d);
    var u :| u in src.users && ToHash(src, rows, u) && d == DataOf(src, toId, u);
  }

  // ---------------------------------------------------------------------------
  // No write of a run meets another
  // ---------------------------------------------------------------------------

  lemma TwoWritesCount(ops: seq<Op>, i: nat, j: nat, address: string)
    requires i < j < |ops| && WritesHistory(ops[i], address) && WritesHistory(ops[j], address)
    ensures HistoryWrites(ops, address) >= 2
  {
    assert ops == ops[..j] + ops[j..];
    HistoryWritesSplit(ops[..j], ops[j..], address);
    WriteCounts(ops[..j], i, address);
    WriteCounts(ops[j..], 0, address);
  }

  /** The writes of a run concern users of the user database, or known users that left it. */
  lemma PlanAddresses(
    h: Hasher, pepper: string, src: Sources, rows: seq<Row>, s: State, toId: string -> string, server: string, op: Op)
    requires ValidSources(src, toId, server) && Listed(rows, s.hashes) && PrintableRows(s.hashes, toId, server)
    requires op in Plan(h, pepper, src, rows, s.history.Keys, toId) && !op.AddRows?
    ensures exists uid :: ValidUid(toId, server, uid) && op.address == toId(uid)
    ensures op.Activate? ==> exists u :: u in src.users && op.address == toId(u.uid) && !New(rows, u)
    ensures op.PutHistory? ==> op.update == (op.address in s.history)
  {
    hide ValidUid, KnownUids, AllUserOps, NewRows, New;
    var gone := Missing(KnownUids(rows), Uids(src.users));
    if op in AllUserOps(src, rows, s.history.Keys, toId, src.users) {
      UserOpsAre(src, rows, s.history.Keys, toId, src.users, op);
      var u :| u in src.users && op.address == toId(u.uid) && (op.Activate? ==> Reactivated(src, rows, u));
      assert ValidUid(toId, server, u.uid);
    } else {
      var i :| 0 <= i < |gone| && op == SetInactive(toId(gone[i]));
      assert gone[i] in gone;
      MissingAre(KnownUids(rows), Uids(src.users));
      KnownAreValid(rows, s.hashes, toId, server, gone[i]);
    }
  }

  lemma OneAddRows(
    h: Hasher, pepper: string, src: Sources, rows: seq<Row>, existing: set<string>, toId: string -> string, i: nat)
    requires i < |Plan(h, pepper, src, rows, existing, toId)|
    ensures Plan(h, pepper, src, rows, existing, toId)[i].AddRows? <==>
        i == |AllUserOps(src, rows, existing, toId, src.users)|
    ensures Plan(h, pepper, src, rows, existing, toId)[i].AddRows? ==>
      Plan(h, pepper, src, rows, existing, toId)[i].rows == NewRows(h, pepper, src, rows, toId)
  {
    hide KnownUids, NewRows, AllUserOps;
    var first := AllUserOps(src, rows, existing, toId, src.users);
    if i < |first| {
      assert Plan(h, pepper, src, rows, existing, toId)[i] == first[i] && first[i] in first;
      UserOpsAre(src, rows, existing, toId, src.users, first[i]);
    }
  }

  lemma ActivationsMissNewRows(
    h: Hasher, pepper: string, src: Sources, rows: seq<Row>, toId: string -> string, server: string, u: DirectoryUser)
    requires ValidSources(src, toId, server) && u in src.users && !New(rows, u)
    ensures forall k :: k in NewRows(h, pepper, src, rows, toId) ==>
        NewRows(h, pepper, src, rows, toId)[k].value != toId(u.uid)
  {
    hide ValidUid, NewRows, KnownUids;
    forall k | k in NewRows(h, pepper, src, rows, toId)
      ensures NewRows(h, pepper, src, rows, toId)[k].value != toId(u.uid)
    {
      NewRowsAre(h, pepper, src, rows, toId, k);
      var w :| w in src.users && ToHash(src, rows, w) && NewRows(h, pepper, src, rows, toId)[k].value == toId(w.uid);
      DifferentAddresses(toId, server, u.uid, w.uid);
    }
  }

  lemma PlanApart(
    h: Hasher, pepper: string, src: Sources, rows: seq<Row>, s: State, toId: string -> string, server: string)
    requires ValidSources(src, toId, server) && Listed(rows, s.hashes) && PrintableRows(s.hashes, toId, server)
    ensures AllApart(Plan(h, pepper, src, rows, s.history.Keys, toId))
  {
    hide ValidUid, Plan, New, NewRows, ValidSources, Listed, PrintableRows;
    var plan := Plan(h, pepper, src, rows, s.history.Keys, toId);
    forall i, j | 0 <= i < j < |plan| ensures Apart(plan[i], plan[j]) {
      var a, b := plan[i], plan[j];
      assert a in plan && b in plan;
      OneAddRows(h, pepper, src, rows, s.history.Keys, toId, i);
      OneAddRows(h, pepper, src, rows, s.history.Keys, toId, j);
      if !a.AddRows? && !b.AddRows? {
        PlanAddresses(h, pepper, src, rows, s, toId, server, a);
        var uid :| ValidUid(toId, server, uid) && a.address == toId(uid);
        OneHistoryWrite(h, pepper, src, rows, s, toId, server, uid);
        if WritesHistory(a, a.address) && WritesHistory(b, a.address) {
          TwoWritesCount(plan, i, j, a.address);
        }
      } else if a.AddRows? && b.Activate? {
        PlanAddresses(h, pepper, src, rows, s, toId, server, b);
        var u :| u in src.users && b.address == toId(u.uid) && !New(rows, u);
        ActivationsMissNewRows(h, pepper, src, rows, toId, server, u);
      } else if b.AddRows? && a.Activate? {
        PlanAddresses(h, pepper, src, rows, s, toId, server, a);
        var u :| u in src.users && a.address == toId(u.uid) && !New(rows, u);
        ActivationsMissNewRows(h, pepper, src, rows, toId, server, u);
      }
    }
  }

  /** However the writes of a run are ordered by the time they complete, the tables end up the same. */
  lemma WritesMayCompleteInAnyOrder(
    h: Hasher, pepper: string, src: Sources, rows: seq<Row>, s: State, toId: string -> string, server: string,
    now: int, ops: seq<Op>)
    requires ValidSources(src, toId, server) && Listed(rows, s.hashes) && PrintableRows(s.hashes, toId, server)
    requires multiset(ops) == multiset(Plan(h, pepper, src, rows, s.history.Keys, toId))
    ensures ApplyAll(s, now, ops) == After(h, pepper, src, rows, toId, now, s)
  {
    PlanApart(h, pepper, src, rows, s, toId, server);
    EveryOrderAgrees(s, now, Plan(h, pepper, src, rows, s.history.Keys, toId), ops);
  }

  // ---------------------------------------------------------------------------
  // The history after a run
  // ---------------------------------------------------------------------------

  lemma {:induction false} HistoryUntouched(s: State, now: int, ops: seq<Op>, a: string)
    requires HistoryWrites(ops, a) == 0
    ensures var t := ApplyAll(s, now, ops);
      (a in t.history <==> a in s.history) && (a in s.history ==> t.history[a] == s.history[a])
  {
    if ops != [] {
      HistoryUntouched(s, now, ops[..|ops| - 1], a);
    }
  }

  lemma {:induction false} InactiveAtEnd(s: State, now: int, ops: seq<Op>, a: string)
    requires SetInactive(a) in ops && HistoryWrites(ops, a) == 1
    ensures var t := ApplyAll(s, now, ops); a in t.history && t.history[a].active == 0
  {
    var n := |ops| - 1;
    if ops[n] != SetInactive(a) {
      assert ops == ops[..n] + [ops[n]];
      var i :| 0 <= i < n && ops[i] == SetInactive(a);
      WriteCounts(ops[..n], i, a);
      InactiveAtEnd(s, now, ops[..n], a);
    }
  }

  /** The history of an address after a run: of a known uid that left the user database it is inactive, and of an
      inherited name what it was. */
  lemma HistoryOfMissing(
    h: Hasher, pepper: string, src: Sources, rows: seq<Row>, s: State, toId: string -> string, server: string,
    now: int, uid: string)
    requires ValidSources(src, toId, server) && Listed(rows, s.hashes) && PrintableRows(s.hashes, toId, server)
    requires uid in KnownUids(rows) && uid !in Uids(src.users)
    ensures var t, a := After(h, pepper, src, rows, toId, now, s), toId(uid);
      if Inherited(uid) then (a in t.history <==> a in s.history) && (a in s.history ==> t.history[a] == s.history[a])
      else a in t.history && t.history[a].active == 0
  {
    hide Inherited, Plan;
    KnownAreValid(rows, s.hashes, toId, server, uid);
    OneHistoryWrite(h, pepper, src, rows, s, toId, server, uid);
    if Inherited(uid) {
      HistoryUntouched(s, now, Plan(h, pepper, src, rows, s.history.Keys, toId), toId(uid));
    } else {
      InactiveAtEnd(s, now, Plan(h, pepper, src, rows, s.history.Keys, toId), toId(uid));
    }
  }

  predicate InactiveIn(history: map<string, History>, a: string) {
    a in history && history[a].active == 0
  }

  /** A known uid that left the user database ends inactive if and only if it was inactive already or is not one of
      the two uids that every record inherits. */
  lemma MissingUsersEndInactive(
    h: Hasher, pepper: string, src: Sources, rows: seq<Row>, s: State, toId: string -> string, server: string,
    now: int, uid: string)
    requires ValidSources(src, toId, server) && Listed(rows, s.hashes) && PrintableRows(s.hashes, toId, server)
    requires uid in KnownUids(rows) && uid !in Uids(src.users)
    ensures InactiveIn(After(h, pepper, src, rows, toId, now, s).history, toId(uid)) <==>
            uid !in ["constructor", "__proto__"] || InactiveIn(s.history, toId(uid))
  {
    hide Inherited, After;
    HistoryOfMissing(h, pepper, src, rows, s, toId, server, now, uid);
    KnownAreValid(rows, s.hashes, toId, server, uid);
    ValidMatches(toId, server, uid);
    PrintableInheritedNames(uid);
  }

  lemma ValidMatches(toId: string -> string, server: string, uid: string)
    requires ValidUid(toId, server, uid)
    ensures Regex.Matches(MatrixId.LOCALPART, uid)
  {
  }

  /** A user `constructor` with a hash row and an active history, gone from an empty user database: he stays
      active, run after run. */
  lemma ConstructorStaysActive(
    h: Hasher, pepper: string, toId: string -> string, server: string, k: string, r: Row, now: int)
    requires ValidUid(toId, server, "constructor") && r.value == toId("constructor")
    ensures var s := State(map[k := r], map[r.value := History(1, 0)]);
      var t := After(h, pepper, Sources([], None, false), [r], toId, now, s);
      r.value in t.history && t.history[r.value] == History(1, 0)
  {
    hide ValidUid, Localpart, After;
    var s := State(map[k := r], map[r.value := History(1, 0)]);
    var src := Sources([], None, false);
    UidOfAddress(toId, server, "constructor");
    assert [r][0] in [r] && KnownUids([r])[0] == "constructor";
    assert s.hashes[k] == r;
    assert Inherited("constructor") by { assert INHERITED_NAMES[0] == "constructor"; }
    HistoryOfMissing(h, pepper, src, [r], s, toId, server, now, "constructor");
  }

  /** Every insert into the history is for an address without a row and every update for one with a row, at
      the time it is issued: no address gets a second row and no write is refused. */
  lemma HistoryWritesAreAccepted(
    h: Hasher, pepper: string, src: Sources, rows: seq<Row>, s: State, toId: string -> string, server: string,
    now: int, i: nat)
    requires ValidSources(src, toId, server) && Listed(rows, s.hashes) && PrintableRows(s.hashes, toId, server)
    requires i < |Plan(h, pepper, src, rows, s.history.Keys, toId)|
    requires Plan(h, pepper, src, rows, s.history.Keys, toId)[i].PutHistory?
    ensures var plan := Plan(h, pepper, src, rows, s.history.Keys, toId);
      plan[i].update == (plan[i].address in ApplyAll(s, now, plan[..i]).history)
  {
    hide Plan, ValidUid, ValidSources, Listed, PrintableRows, ApplyAll;
    var plan := Plan(h, pepper, src, rows, s.history.Keys, toId);
    var a := plan[i].address;
    assert plan[i] in plan;
    PlanAddresses(h, pepper, src, rows, s, toId, server, plan[i]);
    var uid :| ValidUid(toId, server, uid) && a == toId(uid);
    OneHistoryWrite(h, pepper, src, rows, s, toId, server, uid);
    assert plan == plan[..i] + plan[i..];
    HistoryWritesSplit(plan[..i], plan[i..], a);
    WriteCounts(plan[i..], 0, a);
    HistoryUntouched(s, now, plan[..i], a);
  }

  // ---------------------------------------------------------------------------
  // The hash table after a run, and after a second one
  // ---------------------------------------------------------------------------

  predicate NoAddRows(ops: seq<Op>) {
    forall op :: op in ops ==> !op.AddRows?
  }

  lemma {:induction false} HashesAt(s: State, now: int, ops: seq<Op>, k: string)
    requires NoAddRows(ops)
    ensures var t := ApplyAll(s, now, ops);
      && (k in t.hashes <==> k in s.hashes)
      && (k in s.hashes ==>
            t.hashes[k] == if Activate(s.hashes[k].value) in ops then s.hashes[k].(active := 1) else s.hashes[k])
  {
    if ops != [] {
      var n := |ops| - 1;
      assert ops == ops[..n] + [ops[n]];
      HashesAt(s, now, ops[..n], k);
    }
  }

  /** After a run a key has its old row, activated when its user was, or a new one. */
  lemma {:induction false} HashesAfterRun(
    h: Hasher, pepper: string, src: Sources, rows: seq<Row>, s: State, toId: string -> string, now: int, k: string)
    ensures var t := After(h, pepper, src, rows, toId, now, s);
      var added, ops := NewRows(h, pepper, src, rows, toId), AllUserOps(src, rows, s.history.Keys, toId, src.users);
      && (k in t.hashes <==> k in s.hashes || k in added)
      && (k in added && k !in s.hashes ==> t.hashes[k] == added[k])
      && (k in s.hashes ==>
            t.hashes[k] == if Activate(s.hashes[k].value) in ops then s.hashes[k].(active := 1) else s.hashes[k])
  {
    hide AllUserOps, NewRows, KnownUids, Missing, ApplyAll;
    var first := AllUserOps(src, rows, s.history.Keys, toId, src.users);
    var mid := AddRows(NewRows(h, pepper, src, rows, toId));
    var last := InactiveOps(toId, Missing(KnownUids(rows), Uids(src.users)));
    forall op | op in first ensures !op.AddRows? {
      UserOpsAre(src, rows, s.history.Keys, toId, src.users, op);
    }
    var one := ApplyAll(s, now, first);
    var two := Apply(one, now, mid);
    HashesAt(s, now, first, k);
    ApplyOne(s, now, first, mid);
    ApplyAllSplit(s, now, first + [mid], last);
    HashesAt(two, now, last, k);
    assert forall a :: Activate(a) !in last;
  }

  /** All rows with one localpart agree on whether their user is active. */
  predicate RowsAgree(hashes: map<string, Row>) {
    forall k, l :: k in hashes && l in hashes && Localpart(hashes[k].value) == Localpart(hashes[l].value) ==>
      (hashes[k].active == 0 <==> hashes[l].active == 0)
  }

  /** The inserts of this run meet neither each other nor the table. */
  predicate InsertsSucceed(h: Hasher, pepper: string, src: Sources, rows: seq<Row>, toId: string -> string,
      hashes: map<string, Row>)
  {
    UpdateHash.Unobstructed(h, UpdateHash.Params(ToUpdate(src, rows, toId, src.users)), hashes, pepper)
  }

  /** A new user with a phone number or an address has a row afterwards. */
  lemma HashedUsersHaveRows(
    h: Hasher, pepper: string, src: Sources, rows: seq<Row>, s: State, toId: string -> string, now: int,
    u: DirectoryUser, f: UpdateHash.Field)
    requires u in src.users && ToHash(src, rows, u) && UpdateHash.HasField(DataOf(src, toId, u), f)
    requires InsertsSucceed(h, pepper, src, rows, toId, s.hashes)
    ensures var t := After(h, pepper, src, rows, toId, now, s);
      exists k :: k in t.hashes && t.hashes[k].value == toId(u.uid)
  {
    hide ToHash, UpdateHash.KeyOf, UpdateHash.Params, UpdateHash.RowsFor, ToUpdate, After;
    var d := DataOf(src, toId, u);
    var data := ToUpdate(src, rows, toId, src.users);
    var ps := UpdateHash.Params(data);
    var p := UpdateHash.ParamOf(d, f, "sha256");
    ToUpdateAre(src, rows, toId, src.users, d);
    assert UpdateHash.SUPPORTED_HASHES[0] == "sha256";
    UpdateHash.ParamsAre(data, p);
    var i :| 0 <= i < |ps| && ps[i] == p;
    var k := UpdateHash.KeyOf(h, p, pepper);
    UpdateHash.RowsForKeys(h, ps, pepper, k);
    HashesAfterRun(h, pepper, src, rows, s, toId, now, k);
  }

  lemma KnownUsersKeepRows(
    h: Hasher, pepper: string, src: Sources, rows: seq<Row>, s: State, toId: string -> string, now: int, k: string)
    requires InsertsSucceed(h, pepper, src, rows, toId, s.hashes) && k in s.hashes
    ensures var t := After(h, pepper, src, rows, toId, now, s);
      k in t.hashes && k !in NewRows(h, pepper, src, rows, toId) && t.hashes[k].value == s.hashes[k].value
  {
    hide UpdateHash.KeyOf, UpdateHash.Params, UpdateHash.RowsFor, ToUpdate, After, AllUserOps;
    HashesAfterRun(h, pepper, src, rows, s, toId, now, k);
    UpdateHash.RowsForKeys(h, UpdateHash.Params(ToUpdate(src, rows, toId, src.users)), pepper, k);
  }

  lemma {:induction false} NoFieldsNoParams(data: seq<UpdateHash.User>)
    requires forall d, f :: d in data ==> !UpdateHash.HasField(d, f)
    ensures UpdateHash.Params(data) == []
  {
    hide UpdateHash.HasField;
    var ps := UpdateHash.Params(data);
    if ps != [] {
      assert ps[0] in ps;
      UpdateHash.ParamsAre(data, ps[0]);
    }
  }

  /** A second run on unchanged sources, whatever order it reads the table in, inserts no hash row. */
  lemma {:induction false} SecondRunInsertsNothing(
    h: Hasher, pepper: string, pepper': string, src: Sources, rows: seq<Row>, rows': seq<Row>, s: State,
    toId: string -> string, server: string, now: int)
    requires ValidSources(src, toId, server) && Listed(rows, s.hashes)
    requires InsertsSucceed(h, pepper, src, rows, toId, s.hashes)
    requires Listed(rows', After(h, pepper, src, rows, toId, now, s).hashes)
    ensures NewRows(h, pepper', src, rows', toId) == map[]
  {
    hide ValidUid, After, NewRows, KnownUids, InsertsSucceed, Localpart;
    var t := After(h, pepper, src, rows, toId, now, s);
    var data := ToUpdate(src, rows', toId, src.users);
    forall d, f | d in data ensures !UpdateHash.HasField(d, f) {
      ToUpdateAre(src, rows', toId, src.users, d);
      var u :| u in src.users && ToHash(src, rows', u) && d == DataOf(src, toId, u);
      KnownExactly(rows, s.hashes, u.uid);
      KnownExactly(rows', t.hashes, u.uid);
      UidOfAddress(toId, server, u.uid);
      if k :| k in s.hashes && Localpart(s.hashes[k].value) == u.uid {
        KnownUsersKeepRows(h, pepper, src, rows, s, toId, now, k);
      }
      if UpdateHash.HasField(d, f) && New(rows, u) {
        HashedUsersHaveRows(h, pepper, src, rows, s, toId, now, u, f);
      }
    }
    NoFieldsNoParams(data);
    NoRowsForNone(h, pepper', src, rows', toId);
  }

  lemma NoRowsForNone(h: Hasher, pepper: string, src: Sources, rows: seq<Row>, toId: string -> string)
    requires UpdateHash.Params(ToUpdate(src, rows, toId, src.users)) == []
    ensures NewRows(h, pepper, src, rows, toId) == map[]
  {
  }

  /** Nor does it change a row by activating anyone again: the hash table stays as it is. */
  lemma SecondRunLeavesHashes(
    h: Hasher, pepper: string, pepper': string, src: Sources, rows: seq<Row>, rows': seq<Row>, s: State,
    toId: string -> string, server: string, now: int, now': int)
    requires ValidSources(src, toId, server) && Listed(rows, s.hashes)
    requires InsertsSucceed(h, pepper, src, rows, toId, s.hashes) && RowsAgree(s.hashes)
    requires Listed(rows', After(h, pepper, src, rows, toId, now, s).hashes)
    ensures var t := After(h, pepper, src, rows, toId, now, s);
      After(h, pepper', src, rows', toId, now', t).hashes == t.hashes
  {
    hide ValidUid, After, NewRows, KnownUids, InsertsSucceed, AllUserOps, Reactivated, RowsAgree;
    var t := After(h, pepper, src, rows, toId, now, s);
    var t2 := After(h, pepper', src, rows', toId, now', t);
    SecondRunInsertsNothing(h, pepper, pepper', src, rows, rows', s, toId, server, now);
    forall k ensures k in t2.hashes <==> k in t.hashes {
      HashesAfterRun(h, pepper', src, rows', t, toId, now', k);
    }
    forall k | k in t.hashes ensures t2.hashes[k] == t.hashes[k] {
      HashesAfterRun(h, pepper', src, rows', t, toId, now', k);
      var ops := AllUserOps(src, rows', t.history.Keys, toId, src.users);
      if Activate(t.hashes[k].value) in ops {
        UserOpsAre(src, rows', t.history.Keys, toId, src.users, Activate(t.hashes[k].value));
        var u :| u in src.users && t.hashes[k].value == toId(u.uid) && Reactivated(src, rows', u);
        ActivatedOnce(h, pepper, src, rows, rows', s, toId, server, now, u, k);
      }
    }
  }

  /** A user whom a second run would activate had all his rows activated, or inserted as active, by the first. */
  lemma ActivatedOnce(
    h: Hasher, pepper: string, src: Sources, rows: seq<Row>, rows': seq<Row>, s: State,
    toId: string -> string, server: string, now: int, u: DirectoryUser, k: string)
    requires ValidSources(src, toId, server) && Listed(rows, s.hashes)
    requires InsertsSucceed(h, pepper, src, rows, toId, s.hashes) && RowsAgree(s.hashes)
    requires Listed(rows', After(h, pepper, src, rows, toId, now, s).hashes)
    requires u in src.users && Reactivated(src, rows', u)
    requires k in After(h, pepper, src, rows, toId, now, s).hashes
    requires After(h, pepper, src, rows, toId, now, s).hashes[k].value == toId(u.uid)
    ensures After(h, pepper, src, rows, toId, now, s).hashes[k].active == 1
  {
    hide ValidUid, After, NewRows, KnownUids, InsertsSucceed, AllUserOps, Localpart, RowsAgree;
    HashesAfterRun(h, pepper, src, rows, s, toId, now, k);
    UidOfAddress(toId, server, u.uid);
    if k in s.hashes {
      KnownExactly(rows, s.hashes, u.uid);
      if Reactivated(src, rows, u) {
        ActivationIssued(src, rows, s.history.Keys, toId, src.users, u);
      } else {
        StaysActive(h, pepper, src, rows, rows', s, toId, server, now, u, k);
      }
    } else {
      AddedAsActive(h, pepper, src, rows, toId, server, u, k);
    }
  }

  lemma AddedAsActive(
    h: Hasher, pepper: string, src: Sources, rows: seq<Row>, toId: string -> string, server: string,
    u: DirectoryUser, k: string)
    requires ValidSources(src, toId, server) && u in src.users && IsMatrixUser(src, u.uid)
    requires k in NewRows(h, pepper, src, rows, toId) && NewRows(h, pepper, src, rows, toId)[k].value == toId(u.uid)
    ensures NewRows(h, pepper, src, rows, toId)[k].active == 1
  {
    hide ValidUid, NewRows;
    NewRowsAre(h, pepper, src, rows, toId, k);
    var added := NewRows(h, pepper, src, rows, toId);
    var w :| w in src.users && ToHash(src, rows, w) && added[k].value == toId(w.uid) &&
             added[k].active == Status(src, w.uid);
    DifferentAddresses(toId, server, u.uid, w.uid);
  }

  /** A known Matrix user whom the first run does not activate is active in all his rows, and stays so. */
  lemma StaysActive(
    h: Hasher, pepper: string, src: Sources, rows: seq<Row>, rows': seq<Row>, s: State,
    toId: string -> string, server: string, now: int, u: DirectoryUser, k: string)
    requires ValidSources(src, toId, server) && Listed(rows, s.hashes)
    requires InsertsSucceed(h, pepper, src, rows, toId, s.hashes) && RowsAgree(s.hashes)
    requires Listed(rows', After(h, pepper, src, rows, toId, now, s).hashes)
    requires u in src.users && IsMatrixUser(src, u.uid) && !Reactivated(src, rows, u)
    requires k in s.hashes && Localpart(s.hashes[k].value) == u.uid
    ensures !Reactivated(src, rows', u)
  {
    hide ValidUid, After, NewRows, InsertsSucceed, AllUserOps, Localpart, RowsAgree;
    var t := After(h, pepper, src, rows, toId, now, s);
    KnownExactly(rows, s.hashes, u.uid);
    FirstListedRow(rows, s.hashes, u.uid, k);
    if Reactivated(src, rows', u) {
      var i := IndexOf(KnownUids(rows'), u.uid, 0);
      assert rows'[i] in rows' && Localpart(rows'[i].value) == u.uid;
      var l :| l in t.hashes && t.hashes[l] == rows'[i];
      HashesAfterRun(h, pepper, src, rows, s, toId, now, l);
      if l in s.hashes {
        Agreeing(s.hashes, k, l);
      } else {
        NewRowsAre(h, pepper, src, rows, toId, l);
        var w :| w in src.users && ToHash(src, rows, w) && t.hashes[l].value == toId(w.uid);
        UidOfAddress(toId, server, w.uid);
      }
    }
  }

  lemma Agreeing(hashes: map<string, Row>, k: string, l: string)
    requires RowsAgree(hashes) && k in hashes && l in hashes
    requires Localpart(hashes[k].value) == Localpart(hashes[l].value)
    ensures hashes[k].active == 0 <==> hashes[l].active == 0
  {
  }

  /** The row that decides about a user has his localpart. */
  lemma FirstListedRow(rows: seq<Row>, hashes: map<string, Row>, uid: string, k: string)
    requires Listed(rows, hashes) && RowsAgree(hashes)
    requires k in hashes && Localpart(hashes[k].value) == uid && uid in KnownUids(rows)
    ensures rows[IndexOf(KnownUids(rows), uid, 0)].active == 0 <==> hashes[k].active == 0
  {
    hide Localpart;
    var i := IndexOf(KnownUids(rows), uid, 0);
    assert rows[i] in rows && Localpart(rows[i].value) == uid;
    var l :| l in hashes && hashes[l] == rows[i];
  }

  lemma {:induction false} ActivationIssued(
    src: Sources, rows: seq<Row>, existing: set<string>, toId: string -> string, us: seq<DirectoryUser>,
    u: DirectoryUser)
    requires u in us && Reactivated(src, rows, u)
    ensures Activate(toId(u.uid)) in AllUserOps(src, rows, existing, toId, us)
  {
    var init, last := us[..|us| - 1], us[|us| - 1];
    assert us == init + [last];
    if u == last {
      assert UserOps(src, rows, existing, toId, u)[0] == Activate(toId(u.uid));
    } else {
      ActivationIssued(src, rows, existing, toId, init, u);
    }
  }

  // ---------------------------------------------------------------------------
  // What a run does for each user, from the tables and the sources alone
  // ---------------------------------------------------------------------------

  predicate HasRow(rows: seq<Row>, uid: string) {
    exists i :: 0 <= i < |rows| && Localpart(rows[i].value) == uid
  }

  /** The first listed row of the uid is inactive. */
  predicate FirstInactive(rows: seq<Row>, uid: string) {
    exists i :: 0 <= i < |rows| && Localpart(rows[i].value) == uid && rows[i].active == 0
                && forall j :: 0 <= j < i ==> Localpart(rows[j].value) != uid
  }

  /** A new user becomes active unless a Matrix database is configured and does not know him, a user with rows when
      it knows him and the first of them is inactive. */
  predicate BecomesActive(src: Sources, rows: seq<Row>, uid: string) {
    if HasRow(rows, uid) then src.matrix.Some? && uid in src.matrix.value && FirstInactive(rows, uid)
    else src.matrix.None? || uid in src.matrix.value
  }

  lemma NewExactly(rows: seq<Row>, u: DirectoryUser)
    ensures New(rows, u) <==> !HasRow(rows, u.uid)
  {
    hide Localpart;
    if !New(rows, u) {
      var i :| 0 <= i < |rows| && KnownUids(rows)[i] == u.uid;
      assert Localpart(rows[i].value) == u.uid;
    }
    if i :| 0 <= i < |rows| && Localpart(rows[i].value) == u.uid {
      assert KnownUids(rows)[i] == u.uid;
    }
  }

  lemma ReactivatedExactly(src: Sources, rows: seq<Row>, u: DirectoryUser)
    ensures Reactivated(src, rows, u) <==> HasRow(rows, u.uid) && BecomesActive(src, rows, u.uid)
  {
    hide Localpart;
    NewExactly(rows, u);
    if HasRow(rows, u.uid) {
      var known := KnownUids(rows);
      var i := IndexOf(known, u.uid, 0);
      assert Localpart(rows[i].value) == u.uid;
      forall j | 0 <= j < i ensures Localpart(rows[j].value) != u.uid {
        assert known[0..i][j] == known[j];
      }
      if FirstInactive(rows, u.uid) {
        var m :| 0 <= m < |rows| && Localpart(rows[m].value) == u.uid && rows[m].active == 0
                 && forall j :: 0 <= j < m ==> Localpart(rows[j].value) != u.uid;
        assert m == i;
      }
    }
  }

  /** The writes for one user. */
  lemma UserOpsExactly(src: Sources, rows: seq<Row>, existing: set<string>, toId: string -> string, u: DirectoryUser,
                       op: Op)
    ensures op in UserOps(src, rows, existing, toId, u) <==>
            BecomesActive(src, rows, u.uid) &&
            (op == PutHistory(toId(u.uid), toId(u.uid) in existing) ||
             (op == Activate(toId(u.uid)) && HasRow(rows, u.uid)))
  {
    hide New, HasRow, Reactivated, FirstInactive;
    NewExactly(rows, u);
    ReactivatedExactly(src, rows, u);
  }

  lemma {:induction false} UserOpsFrom(
    src: Sources, rows: seq<Row>, existing: set<string>, toId: string -> string, us: seq<DirectoryUser>, op: Op)
    ensures op in AllUserOps(src, rows, existing, toId, us) <==>
            exists u :: u in us && op in UserOps(src, rows, existing, toId, u)
  {
    hide UserOps;
    if us != [] {
      UserOpsFrom(src, rows, existing, toId, us[..|us| - 1], op);
      assert us == us[..|us| - 1] + [us[|us| - 1]];
    }
  }

  /** The writes of the loop over the users that concern one address. */
  lemma OpsForUser(
    src: Sources, rows: seq<Row>, existing: set<string>, toId: string -> string, server: string, uid: string)
    requires ValidSources(src, toId, server) && ValidUid(toId, server, uid)
    ensures var ops, a := AllUserOps(src, rows, existing, toId, src.users), toId(uid);
            var active := uid in Uids(src.users) && BecomesActive(src, rows, uid);
            && (forall update :: PutHistory(a, update) in ops <==> active && update == (a in existing))
            && (Activate(a) in ops <==> active && HasRow(rows, uid))
            && SetInactive(a) !in ops
  {
    hide ValidUid, BecomesActive, HasRow, UserOps, AllUserOps;
    var ops, a := AllUserOps(src, rows, existing, toId, src.users), toId(uid);
    forall op | op == Activate(a) || (op.PutHistory? && op.address == a) || op == SetInactive(a)
      ensures op in ops <==> uid in Uids(src.users) && BecomesActive(src, rows, uid) &&
                             (op == PutHistory(a, a in existing) || (op == Activate(a) && HasRow(rows, uid)))
    {
      UserOpsFrom(src, rows, existing, toId, src.users, op);
      forall u | u in src.users
        ensures op in UserOps(src, rows, existing, toId, u) <==>
                u.uid == uid && BecomesActive(src, rows, uid) &&
                (op == PutHistory(a, a in existing) || (op == Activate(a) && HasRow(rows, uid)))
      {
        UserOpsExactly(src, rows, existing, toId, u, op);
        DifferentAddresses(toId, server, u.uid, uid);
      }
    }
  }

  lemma {:induction false} ActiveAtEnd(s: State, now: int, ops: seq<Op>, a: string)
    requires PutHistory(a, a in s.history) in ops && HistoryWrites(ops, a) == 1
    ensures var t := ApplyAll(s, now, ops); a in t.history && t.history[a] == History(1, now)
  {
    var n := |ops| - 1;
    assert ops == ops[..n] + [ops[n]];
    if ops[n] == PutHistory(a, a in s.history) {
      HistoryUntouched(s, now, ops[..n], a);
    } else {
      var i :| 0 <= i < n && ops[i] == PutHistory(a, a in s.history);
      WriteCounts(ops[..n], i, a);
      ActiveAtEnd(s, now, ops[..n], a);
    }
  }

  lemma {:induction false} SomeWrite(ops: seq<Op>, a: string)
    requires HistoryWrites(ops, a) >= 1
    ensures exists op :: op in ops && WritesHistory(op, a)
  {
    var n := |ops| - 1;
    assert ops == ops[..n] + [ops[n]];
    if !WritesHistory(ops[n], a) {
      SomeWrite(ops[..n], a);
    } else {
      assert ops[n] in ops;
    }
  }

  /** The history of a user of the user database after a run: an active row of this run if he becomes active, and
      what it was otherwise. */
  lemma HistoryOfUser(
    h: Hasher, pepper: string, src: Sources, rows: seq<Row>, s: State, toId: string -> string, server: string,
    now: int, u: DirectoryUser)
    requires ValidSources(src, toId, server) && Listed(rows, s.hashes) && PrintableRows(s.hashes, toId, server)
    requires u in src.users
    ensures var t, a := After(h, pepper, src, rows, toId, now, s).history, toId(u.uid);
            if BecomesActive(src, rows, u.uid) then a in t && t[a] == History(1, now)
            else (a in t <==> a in s.history) && (a in s.history ==> t[a] == s.history[a])
  {
    hide ValidUid, BecomesActive, AllUserOps, NewRows, KnownUids;
    var a, plan := toId(u.uid), Plan(h, pepper, src, rows, s.history.Keys, toId);
    OpsForUser(src, rows, s.history.Keys, toId, server, u.uid);
    OneHistoryWrite(h, pepper, src, rows, s, toId, server, u.uid);
    var put := PutHistory(a, a in s.history);
    MissingAre(KnownUids(rows), Uids(src.users));
    forall op | op in plan && WritesHistory(op, a)
      ensures op in AllUserOps(src, rows, s.history.Keys, toId, src.users)
    {
      NotRetired(rows, s, src, toId, server, u, op);
    }
    if BecomesActive(src, rows, u.uid) {
      var first := AllUserOps(src, rows, s.history.Keys, toId, src.users);
      assert put in first;
      var i :| 0 <= i < |first| && first[i] == put;
      assert plan[i] == put;
      WriteCounts(plan, i, a);
      ActiveAtEnd(s, now, plan, a);
    } else {
      if HistoryWrites(plan, a) >= 1 {
        SomeWrite(plan, a);
      }
      HistoryUntouched(s, now, plan, a);
    }
  }

  /** A user of the user database is not among those who left it. */
  lemma NotRetired(
    rows: seq<Row>, s: State, src: Sources, toId: string -> string, server: string, u: DirectoryUser, op: Op)
    requires ValidSources(src, toId, server) && Listed(rows, s.hashes) && PrintableRows(s.hashes, toId, server)
    requires u in src.users
    ensures op in InactiveOps(toId, Missing(KnownUids(rows), Uids(src.users))) ==> op.address != toId(u.uid)
  {
    hide ValidUid, KnownUids;
    var gone := Missing(KnownUids(rows), Uids(src.users));
    if i :| 0 <= i < |gone| && op == SetInactive(toId(gone[i])) {
      assert gone[i] in gone;
      MissingAre(KnownUids(rows), Uids(src.users));
      KnownAreValid(rows, s.hashes, toId, server, gone[i]);
      DifferentAddresses(toId, server, gone[i], u.uid);
    }
  }

  /** A row that the table holds stays, and becomes active if and only if it is for a user of the user database who
      has rows and becomes active. */
  lemma OldRows(
    h: Hasher, pepper: string, src: Sources, rows: seq<Row>, s: State, toId: string -> string, server: string,
    now: int, uid: string, k: string)
    requires ValidSources(src, toId, server) && ValidUid(toId, server, uid)
    requires k in s.hashes && s.hashes[k].value == toId(uid)
    ensures var t := After(h, pepper, src, rows, toId, now, s).hashes;
            var active := uid in Uids(src.users) && HasRow(rows, uid) && BecomesActive(src, rows, uid);
            k in t && t[k] == if active then s.hashes[k].(active := 1) else s.hashes[k]
  {
    hide ValidUid, HasRow, BecomesActive, After, AllUserOps, NewRows;
    OpsForUser(src, rows, s.history.Keys, toId, server, uid);
    HashesAfterRun(h, pepper, src, rows, s, toId, now, k);
  }

  lemma AddedRowsStay(
    h: Hasher, pepper: string, src: Sources, rows: seq<Row>, s: State, toId: string -> string, now: int, k: string)
    requires InsertsSucceed(h, pepper, src, rows, toId, s.hashes) && k in NewRows(h, pepper, src, rows, toId)
    ensures var t := After(h, pepper, src, rows, toId, now, s).hashes;
            k in t && t[k] == NewRows(h, pepper, src, rows, toId)[k]
  {
    hide UpdateHash.KeyOf, UpdateHash.Params, UpdateHash.RowsFor, ToUpdate, After;
    HashesAfterRun(h, pepper, src, rows, s, toId, now, k);
    UpdateHash.RowsForKeys(h, UpdateHash.Params(ToUpdate(src, rows, toId, src.users)), pepper, k);
  }

  /** Every row of a user without one is made from what the database gives for him. */
  lemma RowOfNewUser(
    h: Hasher, pepper: string, src: Sources, rows: seq<Row>, s: State, toId: string -> string, server: string,
    now: int, u: DirectoryUser, k: string)
    requires ValidSources(src, toId, server) && Listed(rows, s.hashes)
    requires u in src.users && forall k :: k in s.hashes ==> Localpart(s.hashes[k].value) != u.uid
    requires var t := After(h, pepper, src, rows, toId, now, s).hashes; k in t && t[k].value == toId(u.uid)
    requires InsertsSucceed(h, pepper, src, rows, toId, s.hashes)
    ensures ToHash(src, rows, u) && OwnHash(h, pepper, u, k)
  {
    hide ValidUid, Localpart, UpdateHash.MailHash, UpdateHash.PhoneHash, UpdateHash.Params, UpdateHash.RowsFor,
      ToUpdate, After, ToHash, InsertsSucceed;
    var data := ToUpdate(src, rows, toId, src.users);
    UidOfAddress(toId, server, u.uid);
    if k in s.hashes {
      HashesAfterRun(h, pepper, src, rows, s, toId, now, k);
    }
    HashesAfterRun(h, pepper, src, rows, s, toId, now, k);
    AddedRowsStay(h, pepper, src, rows, s, toId, now, k);
    UpdateHash.RowsComeFrom(h, data, pepper, k);
    var d :| d in data && NewRows(h, pepper, src, rows, toId)[k].value == d.address &&
             ((UpdateHash.Given(d.data.email) && k == UpdateHash.MailHash(h, d.data.email.value, pepper)) ||
              (UpdateHash.Given(d.data.phone) && k == UpdateHash.PhoneHash(h, d.data.phone.value, pepper)));
    ToUpdateAre(src, rows, toId, src.users, d);
    var w :| w in src.users && ToHash(src, rows, w) && d == DataOf(src, toId, w);
    DifferentAddresses(toId, server, u.uid, w.uid);
    var i, j :| 0 <= i < |src.users| && 0 <= j < |src.users| && src.users[i] == u && src.users[j] == w;
    assert i == j;
  }

  /** The hash of the address or the number that the database gives for the user. */
  predicate OwnHash(h: Hasher, pepper: string, u: DirectoryUser, k: string) {
    || (u.mail.Some? && u.mail.value != "" && k == UpdateHash.MailHash(h, u.mail.value, pepper))
    || (u.mobile.Some? && u.mobile.value != "" && k == UpdateHash.PhoneHash(h, u.mobile.value, pepper))
  }

  /** A user of the user database without row has one row afterwards for each address and number the database gives,
      if and only if no federated service is set or the Matrix database knows him; it says active if and only if
      no Matrix database is configured or it knows him. */
  lemma RowsOfNewUser(
    h: Hasher, pepper: string, src: Sources, rows: seq<Row>, s: State, toId: string -> string, server: string,
    now: int, u: DirectoryUser)
    requires ValidSources(src, toId, server) && Listed(rows, s.hashes)
    requires InsertsSucceed(h, pepper, src, rows, toId, s.hashes)
    requires u in src.users && forall k :: k in s.hashes ==> Localpart(s.hashes[k].value) != u.uid
    ensures var t := After(h, pepper, src, rows, toId, now, s).hashes;
            var hashed := !src.federated || (src.matrix.Some? && u.uid in src.matrix.value);
            var active := if src.matrix.None? || u.uid in src.matrix.value then 1 else 0;
            && (hashed && u.mail.Some? && u.mail.value != "" ==>
                  var k := UpdateHash.MailHash(h, u.mail.value, pepper);
                  k in t && t[k] == PepperRotation.Row(pepper, "email", toId(u.uid), active))
            && (hashed && u.mobile.Some? && u.mobile.value != "" ==>
                  var k := UpdateHash.PhoneHash(h, u.mobile.value, pepper);
                  k in t && t[k] == PepperRotation.Row(pepper, "msisdn", toId(u.uid), active))
            && forall k :: k in t && t[k].value == toId(u.uid) ==> hashed && OwnHash(h, pepper, u, k)
  {
    hide ValidUid, Localpart, UpdateHash.MailHash, UpdateHash.PhoneHash, UpdateHash.Params, UpdateHash.RowsFor,
      UpdateHash.KeyOf, ToUpdate, After, HasRow, InsertsSucceed, OwnHash;
    var t := After(h, pepper, src, rows, toId, now, s).hashes;
    var data, d := ToUpdate(src, rows, toId, src.users), DataOf(src, toId, u);
    KnownExactly(rows, s.hashes, u.uid);
    ToUpdateAre(src, rows, toId, src.users, d);
    if ToHash(src, rows, u) {
      DistinctInserts(h, pepper, src, rows, toId, s.hashes);
      UpdateHash.RowsOfUser(h, data, pepper, d);
      forall k | k in NewRows(h, pepper, src, rows, toId)
        ensures k in t && t[k] == NewRows(h, pepper, src, rows, toId)[k]
      {
        AddedRowsStay(h, pepper, src, rows, s, toId, now, k);
      }
    }
    forall k | k in t && t[k].value == toId(u.uid) ensures ToHash(src, rows, u) && OwnHash(h, pepper, u, k) {
      RowOfNewUser(h, pepper, src, rows, s, toId, server, now, u, k);
    }
  }

  lemma DistinctInserts(
    h: Hasher, pepper: string, src: Sources, rows: seq<Row>, toId: string -> string, hashes: map<string, Row>)
    requires InsertsSucceed(h, pepper, src, rows, toId, hashes)
    ensures UpdateHash.DistinctKeys(h, UpdateHash.Params(ToUpdate(src, rows, toId, src.users)), pepper)
  {
  }
}
