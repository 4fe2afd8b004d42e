/** The rotation as the cron job runs it: the statements of `updateHashes` in order, proved to be one
    rotation of the protocol. */
module RotationStore {
  import opened PepperRotation

  function Start(db: Db, used: set<string>): State {
    State(db, Idle, {}, multiset{}, used, {}, {})
  }

  function Inserts(entries: seq<Entry>): seq<Event> {
    seq(|entries|, i requires 0 <= i < |entries| => Insert(entries[i]))
  }

  function SetOf(entries: seq<Entry>): set<Entry> {
    set i | 0 <= i < |entries| :: entries[i]
  }

  predicate Distinct(entries: seq<Entry>) {
    forall i, j :: 0 <= i < j < |entries| ==> entries[i] != entries[j]
  }

  function BeforeInserts(previous: string, entries: seq<Entry>, newPepper: string): seq<Event> {
    [Begin(newPepper, SetOf(entries))] +
    (if |previous| == PEPPER_LENGTH then [Drop(previous)] else []) + [SavePrevious]
  }

  /** The statements of one rotation in the order the job issues them. */
  function Rotation(previous: string, entries: seq<Entry>, newPepper: string): seq<Event> {
    BeforeInserts(previous, entries, newPepper) + Inserts(entries) + [Publish]
  }

  lemma RunSnoc(h: string -> string, s: State, es: seq<Event>, e: Event)
    ensures Run(h, s, es + [e]) == Next(h, Run(h, s, es), e)
  {
    RunAppend(h, s, es, [e]);
    assert [e][1..] == [];
  }

  /** The state when the first hash is about to be inserted. */
  lemma AfterPreparation(h: string -> string, db: Db, used: set<string>, entries: seq<Entry>, newPepper: string)
    requires newPepper !in used && |newPepper| == 32
    ensures var s := Run(h, Start(db, used), BeforeInserts(db.previous, entries, newPepper));
            && s.phase == Rotating(db.pepper, newPepper, true, SetOf(entries))
            && s.db == Db(db.pepper, db.pepper,
                          if |db.previous| == PEPPER_LENGTH then Without(db.hashes, db.previous) else db.hashes)
  {
    var begin, drop := [Begin(newPepper, SetOf(entries))], [Drop(db.previous)];
    RunSnoc(h, Start(db, used), [], begin[0]);
    assert [] + begin == begin;
    RunSnoc(h, Start(db, used), begin, drop[0]);
    RunSnoc(h, Start(db, used), begin, SavePrevious);
    RunSnoc(h, Start(db, used), begin + drop, SavePrevious);
    assert BeforeInserts(db.previous, entries, newPepper) ==
           (if |db.previous| == PEPPER_LENGTH then begin + drop else begin) + [SavePrevious] by {
      assert begin + [] == begin;
    }
  }

  /** One more insert statement, whether the primary key lets it through or not. */
  lemma InsertStep(h: string -> string, s: State, entries: seq<Entry>, i: nat)
    requires s.phase.Rotating? && i < |entries| && Distinct(entries)
    requires s.phase.todo >= SetOf(entries[i..]) && entries[i] in s.phase.todo
    ensures var t := Next(h, s, Insert(entries[i]));
            && t.db == s.db.(hashes := Added(h, s.db.hashes, entries[i], s.phase.newPepper))
            && t.phase.Rotating? && t.phase.newPepper == s.phase.newPepper && t.phase.saved == s.phase.saved
            && t.phase.todo >= SetOf(entries[i + 1..])
            && t.phase.todo == (if Key(h, entries[i], s.phase.newPepper) in s.db.hashes then s.phase.todo
                                else s.phase.todo - {entries[i]})
  {
    assert forall j :: i + 1 <= j < |entries| ==> entries[j] == entries[i..][j - i];
  }

  // ---------------------------------------------------------------------------
  // Contacts and keys
  // ---------------------------------------------------------------------------

  /** Every stored key is the hash of some contact under the row's own type and pepper. */
  ghost predicate Keyed(h: string -> string, hashes: map<string, Row>) {
    forall k :: k in hashes ==>
                  NoBlank(hashes[k].kind) && NoBlank(hashes[k].pepper) && HashOf(h, k, hashes[k])
  }

  ghost predicate HashOf(h: string -> string, k: string, r: Row) {
    exists contact :: k == h(Preimage(contact, r.kind, r.pepper))
  }

  /** Contact values are distinct within a type, and types contain no blank. */
  predicate DistinctContacts(entries: seq<Entry>) {
    && (forall i :: 0 <= i < |entries| ==> NoBlank(entries[i].kind))
    && forall i, j :: 0 <= i < j < |entries| ==>
                        !(entries[i].contact == entries[j].contact && entries[i].kind == entries[j].kind)
  }

  /** The rows under the new pepper are those of the first `n` entries. */
  predicate OnlyFirst(h: string -> string, hashes: map<string, Row>, entries: seq<Entry>, n: nat, newPepper: string)
    requires n <= |entries|
  {
    forall k :: k in hashes && hashes[k].pepper == newPepper ==>
                  exists j :: 0 <= j < n && k == Key(h, entries[j], newPepper)
  }

  lemma NoCollision(h: string -> string, hashes: map<string, Row>, entries: seq<Entry>, n: nat, newPepper: string)
    requires Injective(h) && Keyed(h, hashes) && NoBlank(newPepper) && DistinctContacts(entries)
    requires n < |entries| && OnlyFirst(h, hashes, entries, n, newPepper)
    ensures Key(h, entries[n], newPepper) !in hashes
  {
    var k, e := Key(h, entries[n], newPepper), entries[n];
    if k in hashes {
      var r := hashes[k];
      assert HashOf(h, k, r);
      var contact :| k == h(Preimage(contact, r.kind, r.pepper));
      PreimageInjective(contact, r.kind, r.pepper, e.contact, e.kind, newPepper);
      var j :| 0 <= j < n && k == Key(h, entries[j], newPepper);
      PreimageInjective(entries[j].contact, entries[j].kind, newPepper, e.contact, e.kind, newPepper);
    }
  }

  lemma FirstGrows(h: string -> string, hashes: map<string, Row>, entries: seq<Entry>, n: nat, newPepper: string)
    requires n < |entries| && OnlyFirst(h, hashes, entries, n, newPepper)
    ensures OnlyFirst(h, Added(h, hashes, entries[n], newPepper), entries, n + 1, newPepper)
  {
    hide Key;
    var after := Added(h, hashes, entries[n], newPepper);
    forall k | k in after && after[k].pepper == newPepper
      ensures exists j :: 0 <= j < n + 1 && k == Key(h, entries[j], newPepper)
    {
      if k != Key(h, entries[n], newPepper) {
        var j :| 0 <= j < n && k == Key(h, entries[j], newPepper);
      }
    }
  }

  lemma ContactKind(entries: seq<Entry>, i: nat)
    requires DistinctContacts(entries) && i < |entries|
    ensures NoBlank(entries[i].kind)
  {
  }

  lemma RunNothing(h: string -> string, s: State)
    ensures Run(h, s, []) == s
  {
  }

  lemma AddedKeyed(h: string -> string, hashes: map<string, Row>, e: Entry, pepper: string)
    requires Keyed(h, hashes) && NoBlank(e.kind) && NoBlank(pepper)
    ensures Keyed(h, Added(h, hashes, e, pepper))
  {
    assert HashOf(h, Key(h, e, pepper), Row(pepper, e.kind, e.value, e.active));
  }

  /** The entry's row, under the hash of its contact, its type and the pepper. */
  predicate HasEntry(h: string -> string, hashes: map<string, Row>, e: Entry, pepper: string) {
    var k := h(e.contact + " " + e.kind + " " + pepper);
    k in hashes && hashes[k] == Row(pepper, e.kind, e.value, e.active)
  }

  predicate Includes(hashes: map<string, Row>, earlier: map<string, Row>) {
    forall k :: k in earlier ==> k in hashes && hashes[k] == earlier[k]
  }

  lemma InsertKeeps(h: string -> string, hashes: map<string, Row>, e: Entry, pepper: string)
    ensures var after := Added(h, hashes, e, pepper);
            && Includes(after, hashes) && (Key(h, e, pepper) !in hashes ==> HasEntry(h, after, e, pepper))
            && forall x :: HasEntry(h, hashes, x, pepper) ==> HasEntry(h, after, x, pepper)
  {
  }

  // ---------------------------------------------------------------------------
  // The job
  // ---------------------------------------------------------------------------

  class IdentityDb {
    var pepper: string
    var previous: string
    var hashes: map<string, Row>

    ghost function Contents(): Db
      reads this
    {
      Db(pepper, previous, hashes)
    }

    /** The two initial rows of `keys`, no hash. */
    constructor ()
      ensures Contents() == Init().db
    {
      pepper, previous, hashes := "", "", map[];
    }

    method DeleteByPepper(p: string)
      modifies this`hashes
      ensures hashes == Without(old(hashes), p)
    {
      hashes := map k | k in hashes && hashes[k].pepper != p :: hashes[k];
    }

    /** INSERT INTO hashes; `ok` is false when the primary key refuses the row. */
    method InsertHash(h: string -> string, e: Entry, p: string) returns (ok: bool)
      modifies this`hashes
      ensures ok <==> Key(h, e, p) !in old(hashes)
      ensures hashes == Added(h, old(hashes), e, p)
    {
      var key := h(e.contact + " " + e.kind + " " + p);
      ok := key !in hashes;
      if ok {
        hashes := hashes[key := Row(p, e.kind, e.value, e.active)];
      }
    }

    /** All the insert statements of one rotation. */
    method InsertAll(h: string -> string, entries: seq<Entry>, newPepper: string, ghost s: State) returns (ok: bool)
      requires s.phase.Rotating? && s.phase.newPepper == newPepper && s.phase.todo == SetOf(entries)
      requires s.db == Contents() && Distinct(entries)
      modifies this`hashes
      ensures Contents() == Run(h, s, Inserts(entries)).db
      ensures var t := Run(h, s, Inserts(entries));
              t.phase.Rotating? && t.phase.newPepper == newPepper && t.phase.saved == s.phase.saved &&
              (ok <==> t.phase.todo == {})
      ensures (Injective(h) && Keyed(h, old(hashes)) && NoBlank(newPepper) && DistinctContacts(entries) &&
               OnlyFirst(h, old(hashes), entries, 0, newPepper)) ==> ok && Keyed(h, hashes)
      ensures Includes(hashes, old(hashes))
      ensures ok ==> forall j :: 0 <= j < |entries| ==> HasEntry(h, hashes, entries[j], newPepper)
    {
      hide Keyed, OnlyFirst, DistinctContacts, Injective, Next, Run, HasEntry, Added;
      ok := true;
      ghost var t := s;
      ghost var good := Injective(h) && Keyed(h, hashes) && NoBlank(newPepper) && DistinctContacts(entries) &&
                        OnlyFirst(h, hashes, entries, 0, newPepper);
      assert entries[0..] == entries;
      RunNothing(h, s);
      assert Inserts(entries)[..0] == [];
      for i := 0 to |entries|
        invariant t == Run(h, s, Inserts(entries)[..i]) && Contents() == t.db
        invariant t.phase.Rotating? && t.phase.newPepper == newPepper && t.phase.saved == s.phase.saved
        invariant t.phase.todo >= SetOf(entries[i..])
        invariant t.phase.todo <= SetOf(entries)
        invariant ok ==> t.phase.todo == SetOf(entries[i..])
        invariant !ok ==> exists j :: 0 <= j < i && entries[j] in t.phase.todo
        invariant good ==> ok && Keyed(h, hashes) && OnlyFirst(h, hashes, entries, i, newPepper)
        invariant Includes(hashes, old(hashes))
        invariant ok ==> forall j :: 0 <= j < i ==> HasEntry(h, hashes, entries[j], newPepper)
      {
        InsertKeeps(h, hashes, entries[i], newPepper);
        assert entries[i..][0] == entries[i];
        InsertStep(h, t, entries, i);
        RunSnoc(h, s, Inserts(entries)[..i], Insert(entries[i]));
        assert Inserts(entries)[..i + 1] == Inserts(entries)[..i] + [Insert(entries[i])];
        if good {
          NoCollision(h, hashes, entries, i, newPepper);
          ContactKind(entries, i);
          FirstGrows(h, hashes, entries, i, newPepper);
          AddedKeyed(h, hashes, entries[i], newPepper);
        }
        RestOf(entries, i);
        ghost var before := t;
        t := Next(h, t, Insert(entries[i]));
        var inserted := InsertHash(h, entries[i], newPepper);
        ok := ok && inserted;
      }
      assert Inserts(entries)[..|entries|] == Inserts(entries);
    }

    /** `updateHashes`: drop the generation before last, keep the current pepper as the previous
        one, fill the table under the new pepper, and publish it when every insert went through. */
    method UpdateHashes(h: string -> string, entries: seq<Entry>, newPepper: string, ghost used: set<string>)
      returns (published: bool)
      requires newPepper !in used && |newPepper| == 32 && Distinct(entries)
      modifies this
      ensures var t := Run(h, Start(old(Contents()), used), Rotation(old(previous), entries, newPepper));
              Contents() == t.db && (published <==> t.phase.Idle?)
      ensures previous == old(pepper) && pepper == (if published then newPepper else old(pepper))
      ensures published ==> forall j :: 0 <= j < |entries| ==> HasEntry(h, hashes, entries[j], newPepper)
      ensures forall k :: k in old(hashes) && !(|old(previous)| == 32 && old(hashes)[k].pepper == old(previous)) ==>
                k in hashes && hashes[k] == old(hashes)[k]
      ensures (Injective(h) && Keyed(h, old(hashes)) && NoBlank(newPepper) && DistinctContacts(entries) &&
               (forall k :: k in old(hashes) ==> old(hashes)[k].pepper != newPepper)) ==>
                published && Keyed(h, hashes)
    {
      AfterPreparation(h, Contents(), used, entries, newPepper);
      ghost var begun := BeforeInserts(previous, entries, newPepper);
      ghost var s := Run(h, Start(Contents(), used), begun);
      var dropped := previous;
      var current := pepper;
      if |dropped| == PEPPER_LENGTH {
        DeleteByPepper(dropped);
      }
      previous := current;
      published := InsertAll(h, entries, newPepper, s);
      RunAppend(h, Start(old(Contents()), used), begun, Inserts(entries));
      RunSnoc(h, Start(old(Contents()), used), begun + Inserts(entries), Publish);
      if published {
        pepper := newPepper;
      }
    }
  }

  lemma RestOf(entries: seq<Entry>, i: nat)
    requires i < |entries| && Distinct(entries)
    ensures SetOf(entries[i..]) == {entries[i]} + SetOf(entries[i + 1..])
    ensures entries[i] !in SetOf(entries[i + 1..])
  {
    assert entries[i..] == [entries[i]] + entries[i + 1..];
    assert forall j :: 0 < j < |entries| - i ==> entries[i..][j] == entries[i + 1..][j - 1];
  }
}
