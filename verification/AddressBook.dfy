/** The address book of one user: listing, merging, adding. */
module AddressBook {
  import opened Options
  import MatrixId

  /** A row of the `contacts` table; None is NULL or a value that is not text. */
  datatype Row = Row(id: Option<string>, mxid: Option<string>, displayName: Option<string>, active: int, book: string)

  datatype Contact = Contact(id: string, mxid: string, displayName: Option<string>, active: bool, book: string)

  // ---------------------------------------------------------------------------
  // Sorting
  // ---------------------------------------------------------------------------

  /** localeCompare: negative, zero or positive. */
  type Compare = (string, string) -> int

  ghost predicate TotalPreorder(cmp: Compare) {
    && (forall a, b :: cmp(a, b) < 0 <==> cmp(b, a) > 0)
    && (forall a, b, c :: cmp(a, b) <= 0 && cmp(b, c) <= 0 ==> cmp(a, c) <= 0)
  }

  datatype Field = ById | ByName

  function Key(f: Field, c: Contact): string {
    match f
    case ById => c.id
    case ByName => if c.displayName.Some? then c.displayName.value else ""
  }

  /** The comparison: an empty text goes to the end, or to the beginning. */
  function Order(cmp: Compare, emptyLast: bool, a: string, b: string): int {
    if a == "" && b == "" then 0
    else if a == "" then (if emptyLast then 1 else -1)
    else if b == "" then (if emptyLast then -1 else 1)
    else cmp(a, b)
  }

  lemma OrderTotal(cmp: Compare, emptyLast: bool, a: string, b: string, c: string)
    requires TotalPreorder(cmp)
    ensures Order(cmp, emptyLast, a, b) < 0 <==> Order(cmp, emptyLast, b, a) > 0
    ensures Order(cmp, emptyLast, a, b) <= 0 && Order(cmp, emptyLast, b, c) <= 0 ==> Order(cmp, emptyLast, a, c) <= 0
  {
  }

  predicate Before(cmp: Compare, emptyLast: bool, f: Field, c: Contact, d: Contact) {
    Order(cmp, emptyLast, Key(f, c), Key(f, d)) <= 0
  }

  predicate Ordered(cmp: Compare, emptyLast: bool, f: Field, cs: seq<Contact>) {
    forall i, j :: 0 <= i < j < |cs| ==> Before(cmp, emptyLast, f, cs[i], cs[j])
  }

  /** By name, those without a name at the end. */
  predicate InNameOrder(cmp: Compare, cs: seq<Contact>) {
    forall i, j :: 0 <= i < j < |cs| && cs[j].displayName.Some? && cs[j].displayName.value != "" ==>
      && cs[i].displayName.Some? && cs[i].displayName.value != ""
      && cmp(cs[i].displayName.value, cs[j].displayName.value) <= 0
  }

  lemma NameOrderIs(cmp: Compare, cs: seq<Contact>)
    requires Ordered(cmp, true, ByName, cs)
    ensures InNameOrder(cmp, cs)
  {
    forall i, j | 0 <= i < j < |cs| && cs[j].displayName.Some? && cs[j].displayName.value != ""
      ensures cs[i].displayName.Some? && cs[i].displayName.value != ""
      ensures cmp(cs[i].displayName.value, cs[j].displayName.value) <= 0
    {
      assert Before(cmp, true, ByName, cs[i], cs[j]);
    }
  }

  function Insert(cmp: Compare, emptyLast: bool, f: Field, c: Contact, cs: seq<Contact>): (r: seq<Contact>)
    ensures multiset(r) == multiset{c} + multiset(cs)
  {
    if cs == [] || Before(cmp, emptyLast, f, c, cs[0]) then [c] + cs
    else
      assert cs == [cs[0]] + cs[1..];
      [cs[0]] + Insert(cmp, emptyLast, f, c, cs[1..])
  }

  /** A stable sort by one text field. */
  function SortBy(cmp: Compare, emptyLast: bool, f: Field, cs: seq<Contact>): (r: seq<Contact>)
    ensures multiset(r) == multiset(cs)
  {
    if cs == [] then []
    else
      assert cs == [cs[0]] + cs[1..];
      Insert(cmp, emptyLast, f, cs[0], SortBy(cmp, emptyLast, f, cs[1..]))
  }

  lemma BeforeTotal(cmp: Compare, emptyLast: bool, f: Field, c: Contact, d: Contact, e: Contact)
    requires TotalPreorder(cmp)
    ensures Before(cmp, emptyLast, f, c, d) || Before(cmp, emptyLast, f, d, c)
    ensures Before(cmp, emptyLast, f, c, d) && Before(cmp, emptyLast, f, d, e) ==> Before(cmp, emptyLast, f, c, e)
  {
    OrderTotal(cmp, emptyLast, Key(f, c), Key(f, d), Key(f, e));
  }

  lemma InsertMembers(cmp: Compare, emptyLast: bool, f: Field, c: Contact, cs: seq<Contact>, d: Contact)
    ensures d in Insert(cmp, emptyLast, f, c, cs) <==> d == c || d in cs
  {
    assert d in Insert(cmp, emptyLast, f, c, cs) <==> d in multiset(Insert(cmp, emptyLast, f, c, cs));
  }

  lemma {:induction false} InsertOrdered(cmp: Compare, emptyLast: bool, f: Field, c: Contact, cs: seq<Contact>)
    requires TotalPreorder(cmp) && Ordered(cmp, emptyLast, f, cs)
    ensures Ordered(cmp, emptyLast, f, Insert(cmp, emptyLast, f, c, cs))
  {
    hide Before, TotalPreorder;
    if cs == [] {
    } else if Before(cmp, emptyLast, f, c, cs[0]) {
      forall j | 0 <= j < |cs| ensures Before(cmp, emptyLast, f, c, cs[j]) {
        BeforeTotal(cmp, emptyLast, f, c, cs[0], cs[j]);
      }
    } else {
      var rest := Insert(cmp, emptyLast, f, c, cs[1..]);
      InsertOrdered(cmp, emptyLast, f, c, cs[1..]);
      BeforeTotal(cmp, emptyLast, f, c, cs[0], c);
      forall d | d in rest ensures Before(cmp, emptyLast, f, cs[0], d) {
        InsertMembers(cmp, emptyLast, f, c, cs[1..], d);
        if d != c {
          var k :| 1 <= k < |cs| && cs[k] == d;
        }
      }
    }
  }

  lemma {:induction false} SortOrdered(cmp: Compare, emptyLast: bool, f: Field, cs: seq<Contact>)
    requires TotalPreorder(cmp)
    ensures Ordered(cmp, emptyLast, f, SortBy(cmp, emptyLast, f, cs))
  {
    if cs != [] {
      SortOrdered(cmp, emptyLast, f, cs[1..]);
      InsertOrdered(cmp, emptyLast, f, cs[0], SortBy(cmp, emptyLast, f, cs[1..]));
    }
  }

  /** Contacts of one name stand in the order of their ids. */
  predicate OldestFirstWithinNames(cmp: Compare, cs: seq<Contact>) {
    forall i, j :: 0 <= i < j < |cs| && Before(cmp, true, ByName, cs[j], cs[i]) ==>
      Before(cmp, true, ById, cs[i], cs[j])
  }

  lemma {:induction false} InsertOldest(cmp: Compare, c: Contact, cs: seq<Contact>)
    requires OldestFirstWithinNames(cmp, cs)
    requires forall d :: d in cs ==> Before(cmp, true, ById, c, d)
    requires TotalPreorder(cmp) && Ordered(cmp, true, ByName, cs)
    ensures OldestFirstWithinNames(cmp, Insert(cmp, true, ByName, c, cs))
  {
    hide Order;
    var r := Insert(cmp, true, ByName, c, cs);
    if cs == [] {
    } else if Before(cmp, true, ByName, c, cs[0]) {
      assert r == [c] + cs;
    } else {
      InsertOldest(cmp, c, cs[1..]);
      var rest := Insert(cmp, true, ByName, c, cs[1..]);
      assert r == [cs[0]] + rest;
      forall j | 0 <= j < |rest| && Before(cmp, true, ByName, rest[j], cs[0])
        ensures Before(cmp, true, ById, cs[0], rest[j])
      {
        assert rest[j] in multiset(rest);
        if rest[j] != c {
          assert rest[j] in cs[1..];
          var k :| 1 <= k < |cs| && cs[k] == rest[j];
        }
      }
    }
  }

  /** The sort is stable: a list ordered by id stays so among equal names. */
  lemma {:induction false} SortIsStable(cmp: Compare, cs: seq<Contact>)
    requires TotalPreorder(cmp) && Ordered(cmp, true, ById, cs)
    ensures OldestFirstWithinNames(cmp, SortBy(cmp, true, ByName, cs))
  {
    if cs != [] {
      SortIsStable(cmp, cs[1..]);
      SortOrdered(cmp, true, ByName, cs[1..]);
      var rest := SortBy(cmp, true, ByName, cs[1..]);
      forall d | d in rest ensures Before(cmp, true, ById, cs[0], d) {
        assert d in multiset(rest);
        var k :| 1 <= k < |cs| && cs[k] == d;
      }
      InsertOldest(cmp, cs[0], rest);
    }
  }

  // ---------------------------------------------------------------------------
  // Deduplication
  // ---------------------------------------------------------------------------

  function Mxids(cs: seq<Contact>): set<string> {
    set c | c in cs :: c.mxid
  }

  predicate UniqueMxids(cs: seq<Contact>) {
    forall i, j :: 0 <= i < j < |cs| ==> cs[i].mxid != cs[j].mxid
  }

  /** The first contact of every mxid. */
  function Firsts(cs: seq<Contact>): seq<Contact> {
    if cs == [] then []
    else
      var init, last := cs[..|cs| - 1], cs[|cs| - 1];
      if last.mxid in Mxids(init) then Firsts(init) else Firsts(init) + [last]
  }

  /** The filter with its growing set of mxids seen. */
  method Deduplicate(contacts: seq<Contact>) returns (kept: seq<Contact>)
    ensures kept == Firsts(contacts)
  {
    kept := [];
    var seen: set<string> := {};
    for i := 0 to |contacts|
      invariant kept == Firsts(contacts[..i]) && seen == Mxids(contacts[..i])
    {
      var c := contacts[i];
      assert contacts[..i + 1][..i] == contacts[..i];
      assert contacts[..i + 1] == contacts[..i] + [c];
      if c.mxid !in seen {
        seen := seen + {c.mxid};
        kept := kept + [c];
      }
    }
    assert contacts[..|contacts|] == contacts;
  }

  /** `d` stands in the list no earlier than `c` does. */
  predicate FirstOfMxid(cs: seq<Contact>, c: Contact) {
    exists i :: 0 <= i < |cs| && cs[i] == c && forall j :: 0 <= j < i ==> cs[j].mxid != c.mxid
  }

  lemma FirstInExtension(init: seq<Contact>, last: Contact, c: Contact)
    ensures FirstOfMxid(init + [last], c) <==> FirstOfMxid(init, c) || (c == last && last.mxid !in Mxids(init))
  {
    var cs := init + [last];
    if i :| 0 <= i < |init| && init[i] == c && forall j :: 0 <= j < i ==> init[j].mxid != c.mxid {
      assert cs[i] == c && forall j :: 0 <= j < i ==> cs[j] == init[j];
    }
    if i :| 0 <= i < |cs| && cs[i] == c && forall j :: 0 <= j < i ==> cs[j].mxid != c.mxid {
      assert forall j :: 0 <= j < i ==> init[j] == cs[j];
    }
    if c == last && last.mxid !in Mxids(init) {
      assert cs[|init|] == c && forall j :: 0 <= j < |init| ==> cs[j] in init;
    }
  }

  lemma {:induction false} FirstsAre(cs: seq<Contact>)
    ensures UniqueMxids(Firsts(cs)) && Mxids(Firsts(cs)) == Mxids(cs)
    ensures forall c :: c in Firsts(cs) <==> FirstOfMxid(cs, c)
  {
    hide FirstOfMxid;
    if cs == [] {
      NoneFirst();
    } else {
      var n := |cs| - 1;
      var init, last := cs[..n], cs[n];
      FirstsAre(init);
      assert cs == init + [last];
      assert Mxids(cs) == Mxids(init) + {last.mxid};
      forall c ensures c in Firsts(cs) <==> FirstOfMxid(cs, c) {
        FirstInExtension(init, last, c);
      }
      if last.mxid !in Mxids(init) {
        assert forall d :: d in Firsts(init) ==> d.mxid in Mxids(Firsts(init));
        assert Mxids(Firsts(cs)) == Mxids(Firsts(init)) + {last.mxid};
      }
    }
  }

  lemma NoneFirst()
    ensures forall c :: !FirstOfMxid([], c)
  {
  }

  // ---------------------------------------------------------------------------
  // Listing the table
  // ---------------------------------------------------------------------------

  predicate Valid(r: Row) {
    r.id.Some? && r.id.value != "" && r.mxid.Some? && r.mxid.value != ""
  }

  function Normalized(r: Row): Contact
    requires Valid(r)
  {
    Contact(r.id.value, r.mxid.value, r.displayName, r.active != 0, r.book)
  }

  /** The valid rows, normalized, in table order. */
  function ValidContacts(rows: seq<Row>): seq<Contact> {
    if rows == [] then []
    else (if Valid(rows[0]) then [Normalized(rows[0])] else []) + ValidContacts(rows[1..])
  }

  function Listing(rows: seq<Row>, cmp: Compare): seq<Contact> {
    SortBy(cmp, true, ByName, Firsts(SortBy(cmp, true, ById, ValidContacts(rows))))
  }

  /** The contacts are the rows that have an id and an mxid which are not empty. */
  lemma {:induction false} ValidContactsAre(rows: seq<Row>, c: Contact)
    ensures c in ValidContacts(rows) <==>
            exists r :: r in rows && r.id == Some(c.id) && r.mxid == Some(c.mxid) && c.id != "" && c.mxid != "" &&
                        c.displayName == r.displayName && c.active == (r.active != 0) && c.book == r.book
  {
    if rows != [] {
      ValidContactsAre(rows[1..], c);
      assert rows == [rows[0]] + rows[1..];
    }
  }

  /** No other contact of the same mxid has a smaller id. */
  predicate Oldest(cs: seq<Contact>, cmp: Compare, c: Contact) {
    c in cs && forall d :: d in cs && d.mxid == c.mxid ==> cmp(c.id, d.id) <= 0
  }

  predicate HaveIds(cs: seq<Contact>) {
    forall c :: c in cs ==> c.id != ""
  }

  lemma {:induction false} ValidHaveIds(rows: seq<Row>)
    ensures HaveIds(ValidContacts(rows))
  {
    if rows != [] {
      ValidHaveIds(rows[1..]);
    }
  }

  /** Ids that compare as equal belong to the same contact: `id` is a primary key of UUIDs. */
  predicate DistinctIds(cs: seq<Contact>, cmp: Compare) {
    forall c, d :: c in cs && d in cs && cmp(c.id, d.id) == 0 ==> c == d
  }

  lemma SameMembers(a: seq<Contact>, b: seq<Contact>)
    requires multiset(a) == multiset(b)
    ensures forall c :: c in a <==> c in b
  {
    assert forall c :: c in a <==> c in multiset(a);
    assert forall c :: c in b <==> c in multiset(b);
  }

  lemma BeforeById(cmp: Compare, c: Contact, d: Contact)
    requires TotalPreorder(cmp) && c.id != "" && d.id != ""
    ensures Before(cmp, true, ById, c, d) <==> cmp(c.id, d.id) <= 0
    ensures cmp(c.id, d.id) <= 0 && cmp(d.id, c.id) <= 0 ==> cmp(c.id, d.id) == 0
    ensures cmp(c.id, c.id) <= 0
  {
  }

  lemma FirstIsOldest(cs: seq<Contact>, sorted: seq<Contact>, cmp: Compare, c: Contact)
    requires TotalPreorder(cmp) && HaveIds(cs) && multiset(sorted) == multiset(cs) && Ordered(cmp, true, ById, sorted)
    requires FirstOfMxid(sorted, c)
    ensures Oldest(cs, cmp, c)
  {
    hide Before, TotalPreorder;
    SameMembers(sorted, cs);
    var i :| 0 <= i < |sorted| && sorted[i] == c && forall j :: 0 <= j < i ==> sorted[j].mxid != c.mxid;
    forall d | d in cs && d.mxid == c.mxid ensures cmp(c.id, d.id) <= 0 {
      var j :| 0 <= j < |sorted| && sorted[j] == d;
      assert c in cs;
      BeforeById(cmp, c, d);
      assert i < j ==> Before(cmp, true, ById, sorted[i], sorted[j]);
    }
  }

  lemma OldestIsFirst(cs: seq<Contact>, sorted: seq<Contact>, cmp: Compare, c: Contact)
    requires TotalPreorder(cmp) && HaveIds(cs) && multiset(sorted) == multiset(cs) && Ordered(cmp, true, ById, sorted)
    requires Oldest(cs, cmp, c) && DistinctIds(cs, cmp)
    ensures FirstOfMxid(sorted, c)
  {
    hide Before, TotalPreorder;
    SameMembers(sorted, cs);
    var i := LeastIndex(sorted, c.mxid, c);
    var d := sorted[i];
    var j :| 0 <= j < |sorted| && sorted[j] == c;
    assert d in sorted && d in cs;
    BeforeById(cmp, d, c);
    assert i < j ==> Before(cmp, true, ById, sorted[i], sorted[j]);
    assert i == j || cmp(d.id, c.id) == 0;
    assert d == c;
  }

  lemma {:induction false} LeastIndex(cs: seq<Contact>, mxid: string, c: Contact) returns (i: nat)
    requires c in cs && c.mxid == mxid
    ensures i < |cs| && cs[i].mxid == mxid && forall j :: 0 <= j < i ==> cs[j].mxid != mxid
    ensures forall j :: 0 <= j < |cs| && cs[j] == c ==> i <= j
  {
    if cs[0].mxid == mxid {
      return 0;
    }
    assert cs == [cs[0]] + cs[1..];
    var k := LeastIndex(cs[1..], mxid, c);
    i := k + 1;
    forall j | 0 <= j < i ensures cs[j].mxid != mxid {
      assert j > 0 ==> cs[j] == cs[1..][j - 1];
    }
    forall j | 0 <= j < |cs| && cs[j] == c ensures i <= j {
      assert j > 0 && cs[1..][j - 1] == c;
    }
  }

  lemma UniqueIsPermutable(a: seq<Contact>, b: seq<Contact>)
    requires multiset(a) == multiset(b) && UniqueMxids(a)
    ensures UniqueMxids(b)
  {
    SameMembers(a, b);
    forall i, j | 0 <= i < j < |b| ensures b[i].mxid != b[j].mxid {
      assert b[i] in b && b[j] in b;
      var p :| 0 <= p < |a| && a[p] == b[i];
      var q :| 0 <= q < |a| && a[q] == b[j];
      OnceInMultiset(a, p);
      if b[i].mxid == b[j].mxid {
        TwiceInMultiset(b, i, j);
      }
    }
  }

  lemma TwiceInMultiset(s: seq<Contact>, i: nat, j: nat)
    requires i < j < |s| && s[i] == s[j]
    ensures multiset(s)[s[i]] >= 2
  {
    assert s == s[..j] + [s[j]] + s[j + 1..];
    assert s[i] in s[..j];
  }

  lemma OnceInMultiset(s: seq<Contact>, p: nat)
    requires p < |s| && UniqueMxids(s)
    ensures multiset(s)[s[p]] == 1
  {
    assert s == s[..p] + [s[p]] + s[p + 1..];
    assert s[p] !in s[..p] && s[p] !in s[p + 1..];
  }

  /** The listing holds one contact for every mxid among the valid rows, the one with the least id,
      ordered by display name with empty names last and, within a name, oldest first. */
  lemma {:induction false} ListingHoldsOldest(rows: seq<Row>, cmp: Compare)
    requires TotalPreorder(cmp)
    ensures var r := Listing(rows, cmp);
      && UniqueMxids(r) && Mxids(r) == Mxids(ValidContacts(rows))
      && Ordered(cmp, true, ByName, r) && InNameOrder(cmp, r) && OldestFirstWithinNames(cmp, r)
    ensures forall c :: c in Listing(rows, cmp) ==> Oldest(ValidContacts(rows), cmp, c)
    ensures DistinctIds(ValidContacts(rows), cmp) ==>
      forall c :: Oldest(ValidContacts(rows), cmp, c) ==> c in Listing(rows, cmp)
  {
    var cs := ValidContacts(rows);
    var sorted := SortBy(cmp, true, ById, cs);
    var kept := Firsts(sorted);
    SortOrdered(cmp, true, ById, cs);
    FirstsAre(sorted);
    FirstsOrdered(sorted, cmp);
    SortOrdered(cmp, true, ByName, kept);
    SortIsStable(cmp, kept);
    UniqueIsPermutable(kept, Listing(rows, cmp));
    SameMembers(kept, Listing(rows, cmp));
    SameMembers(cs, sorted);
    ValidHaveIds(rows);
    forall c | c in Listing(rows, cmp) ensures Oldest(cs, cmp, c) {
      FirstIsOldest(cs, sorted, cmp, c);
    }
    if DistinctIds(cs, cmp) {
      forall c | Oldest(cs, cmp, c) ensures c in Listing(rows, cmp) {
        OldestIsFirst(cs, sorted, cmp, c);
      }
    }
    assert Mxids(Listing(rows, cmp)) == Mxids(kept) == Mxids(sorted) == Mxids(cs);
    NameOrderIs(cmp, Listing(rows, cmp));
  }

  lemma {:induction false} FirstsOrdered(cs: seq<Contact>, cmp: Compare)
    requires Ordered(cmp, true, ById, cs)
    ensures Ordered(cmp, true, ById, Firsts(cs))
  {
    hide Order;
    if cs != [] {
      var init, last := cs[..|cs| - 1], cs[|cs| - 1];
      FirstsOrdered(init, cmp);
      FirstsAre(init);
      forall d | d in Firsts(init) ensures Before(cmp, true, ById, d, last) {
        assert FirstOfMxid(init, d);
        var i :| 0 <= i < |init| && init[i] == d;
        assert cs[i] == d;
      }
    }
  }

  // ---------------------------------------------------------------------------
  // The user directory
  // ---------------------------------------------------------------------------

  /** A row of the user database; an empty text is a missing attribute. */
  datatype Entry = Entry(uid: string, cn: string, displayName: string)

  function NameOf(e: Entry): string {
    if e.cn != "" then e.cn else if e.displayName != "" then e.displayName else e.uid
  }

  /** The conversion of one entry: none when it has no uid or one that makes no Matrix id. */
  function FromEntry(e: Entry, toId: string -> MatrixId.Result): Option<Contact> {
    if e.uid == "" || !toId(e.uid).Id? then None
    else Some(Contact(e.uid, toId(e.uid).id, Some(NameOf(e)), true, ""))
  }

  function UserContacts(entries: seq<Entry>, toId: string -> MatrixId.Result): seq<Contact> {
    if entries == [] then []
    else
      var init, last := entries[..|entries| - 1], FromEntry(entries[|entries| - 1], toId);
      UserContacts(init, toId) + if last.Some? then [last.value] else []
  }

  /** The loop over the user database, with its exceptions caught entry by entry. */
  method CollectUserContacts(entries: seq<Entry>, toId: string -> MatrixId.Result) returns (contacts: seq<Contact>)
    ensures contacts == UserContacts(entries, toId)
  {
    contacts := [];
    for i := 0 to |entries|
      invariant contacts == UserContacts(entries[..i], toId)
    {
      assert entries[..i + 1][..i] == entries[..i];
      var e := entries[i];
      if e.uid == "" {
        continue;
      }
      var mxid := toId(e.uid);
      if mxid.Id? {
        contacts := contacts + [Contact(e.uid, mxid.id, Some(NameOf(e)), true, "")];
      }
    }
    assert entries[..|entries|] == entries;
  }

  /** The printing of user ids for one server. */
  ghost predicate PrintsFor(toId: string -> MatrixId.Result, server: string) {
    forall uid :: toId(uid) == MatrixId.ToMatrixId(uid, server)
  }

  predicate DistinctUids(entries: seq<Entry>) {
    forall i, j :: 0 <= i < j < |entries| ==> entries[i].uid != entries[j].uid || entries[i].uid == ""
  }

  lemma PrintedFrom(uid: string, uid': string, toId: string -> MatrixId.Result, server: string)
    requires PrintsFor(toId, server) && toId(uid).Id? && toId(uid) == toId(uid')
    ensures uid == uid'
  {
    var id := toId(uid).id;
    assert MatrixId.Prints(uid, server, id) && MatrixId.Prints(uid', server, id);
    MatrixId.PrintedOnce(uid, server, uid', server, id);
  }

  /** Distinct uids become distinct Matrix ids. */
  lemma {:induction false} UserContactsUnique(entries: seq<Entry>, toId: string -> MatrixId.Result, server: string)
    requires PrintsFor(toId, server) && DistinctUids(entries)
    ensures UniqueMxids(UserContacts(entries, toId))
    ensures forall c :: c in UserContacts(entries, toId) ==>
      c.id != "" && Key(ByName, c) != "" && toId(c.id) == MatrixId.Id(c.mxid) &&
      exists e :: e in entries && e.uid == c.id
  {
    if entries != [] {
      var n := |entries| - 1;
      var init, last := entries[..n], FromEntry(entries[n], toId);
      UserContactsUnique(init, toId, server);
      if last.Some? {
        forall c | c in UserContacts(init, toId) ensures c.mxid != last.value.mxid {
          var e :| e in init && e.uid == c.id;
          var i :| 0 <= i < n && init[i] == e;
          assert entries[i] == e;
          assert c.id != last.value.id;
          if c.mxid == last.value.mxid {
            PrintedFrom(c.id, last.value.id, toId, server);
          }
        }
      }
    }
  }

  /** Every entry whose uid makes a Matrix id is a contact under it: with its common name, or else its display name,
      or else its uid, active and in no book. */
  lemma {:induction false} UserContactsAre(entries: seq<Entry>, toId: string -> MatrixId.Result, c: Contact)
    ensures c in UserContacts(entries, toId) <==>
            exists e :: e in entries && e.uid != "" && toId(e.uid) == MatrixId.Id(c.mxid) &&
                        c.id == e.uid && c.active && c.book == "" &&
                        c.displayName == Some(if e.cn != "" then e.cn
                                              else if e.displayName != "" then e.displayName else e.uid)
  {
    if entries != [] {
      var n := |entries| - 1;
      UserContactsAre(entries[..n], toId, c);
      assert entries == entries[..n] + [entries[n]];
    }
  }

  // ---------------------------------------------------------------------------
  // The merged list
  // ---------------------------------------------------------------------------

  /** The user contacts whose mxid the address book does not have. */
  function Without(cs: seq<Contact>, mxids: set<string>): seq<Contact> {
    if cs == [] then []
    else (if cs[0].mxid in mxids then [] else [cs[0]]) + Without(cs[1..], mxids)
  }

  function Merged(book: seq<Contact>, users: seq<Contact>, cmp: Compare): seq<Contact> {
    SortBy(cmp, true, ByName, book + Without(users, Mxids(book)))
  }

  lemma {:induction false} WithoutAre(cs: seq<Contact>, mxids: set<string>)
    ensures forall c :: c in Without(cs, mxids) <==> c in cs && c.mxid !in mxids
    ensures UniqueMxids(cs) ==> UniqueMxids(Without(cs, mxids))
  {
    if cs != [] {
      WithoutAre(cs[1..], mxids);
      assert forall c :: c in cs <==> c == cs[0] || c in cs[1..];
      if UniqueMxids(cs) {
        assert forall c :: c in cs[1..] ==> c.mxid != cs[0].mxid;
        assert UniqueMxids(cs[1..]);
      }
    }
  }

  lemma UniqueAppend(a: seq<Contact>, b: seq<Contact>)
    requires UniqueMxids(a) && forall c :: c in b ==> c.mxid !in Mxids(a)
    ensures UniqueMxids(a + b) <==> UniqueMxids(b)
  {
    var all := a + b;
    forall i, j | 0 <= i < |a| <= j < |all| ensures all[i].mxid != all[j].mxid {
      assert all[i] in a && all[j] in b;
    }
    if UniqueMxids(all) {
      forall i, j | 0 <= i < j < |b| ensures b[i].mxid != b[j].mxid {
        assert all[|a| + i] == b[i] && all[|a| + j] == b[j];
      }
    }
  }

  lemma MergedMxids(book: seq<Contact>, users: seq<Contact>, merged: seq<Contact>)
    requires forall c :: c in merged <==> c in book || (c in users && c.mxid !in Mxids(book))
    ensures Mxids(merged) == Mxids(book) + Mxids(users)
  {
    forall m | m in Mxids(users) ensures m in Mxids(merged) {
      var c :| c in users && c.mxid == m;
      if m !in Mxids(book) {
        assert c in merged;
      }
    }
  }

  /** Merging loses no mxid and invents none, lets the address book win, and orders by name; mxids stay
      unique exactly when those of the user contacts it takes over are. */
  lemma MergeLetsBookWin(book: seq<Contact>, users: seq<Contact>, cmp: Compare)
    requires TotalPreorder(cmp) && UniqueMxids(book)
    ensures Ordered(cmp, true, ByName, Merged(book, users, cmp)) && InNameOrder(cmp, Merged(book, users, cmp))
    ensures Mxids(Merged(book, users, cmp)) == Mxids(book) + Mxids(users)
    ensures forall c :: c in Merged(book, users, cmp) <==> c in book || (c in users && c.mxid !in Mxids(book))
    ensures UniqueMxids(Merged(book, users, cmp)) <==> UniqueMxids(Without(users, Mxids(book)))
  {
    hide TotalPreorder, Ordered, UniqueMxids, Without, SortBy, Mxids;
    var extra := Without(users, Mxids(book));
    var all, merged := book + extra, Merged(book, users, cmp);
    WithoutAre(users, Mxids(book));
    SortOrdered(cmp, true, ByName, all);
    NameOrderIs(cmp, merged);
    SameMembers(all, merged);
    UniqueAppend(book, extra);
    if UniqueMxids(all) {
      UniqueIsPermutable(all, merged);
    }
    if UniqueMxids(merged) {
      UniqueIsPermutable(merged, all);
    }
    MergedMxids(book, users, merged);
  }

  /** The list a user sees, from the table and the user database. */
  function List(rows: seq<Row>, entries: seq<Entry>, toId: string -> MatrixId.Result, cmp: Compare): seq<Contact> {
    Merged(Listing(rows, cmp), UserContacts(entries, toId), cmp)
  }

  /** For distinct uids, every mxid of a valid row or of a user is listed once: with its oldest row where
      the table has one, with its user otherwise. */
  lemma {:induction false} ListIsComplete(rows: seq<Row>, entries: seq<Entry>, toId: string -> MatrixId.Result,
      server: string, cmp: Compare)
    requires TotalPreorder(cmp) && PrintsFor(toId, server) && DistinctUids(entries)
    ensures var r := List(rows, entries, toId, cmp);
      && UniqueMxids(r) && InNameOrder(cmp, r)
      && Mxids(r) == Mxids(ValidContacts(rows)) + Mxids(UserContacts(entries, toId))
    ensures forall c :: c in List(rows, entries, toId, cmp) ==>
      if c.mxid in Mxids(ValidContacts(rows)) then Oldest(ValidContacts(rows), cmp, c)
      else c in UserContacts(entries, toId)
  {
    var book, users := Listing(rows, cmp), UserContacts(entries, toId);
    ListingHoldsOldest(rows, cmp);
    UserContactsUnique(entries, toId, server);
    WithoutAre(users, Mxids(book));
    MergeLetsBookWin(book, users, cmp);
  }

  // ---------------------------------------------------------------------------
  // Adding contacts
  // ---------------------------------------------------------------------------

  datatype Payload = Payload(mxid: string, displayName: string)

  /** The filter of the existence check: keys with an empty value are not looked at. */
  predicate Has(r: Row, p: Payload, book: string) {
    && (p.mxid != "" ==> r.mxid == Some(p.mxid))
    && (p.displayName != "" ==> r.displayName == Some(p.displayName))
    && (book != "" ==> r.book == book)
  }

  predicate Exists(rows: seq<Row>, p: Payload, book: string) {
    exists r :: r in rows && Has(r, p, book)
  }

  function NewRow(p: Payload, id: string, book: string): Row {
    Row(Some(id), Some(p.mxid), Some(p.displayName), 1, book)
  }

  /** The rows addContacts appends, in order; `ids` are the fresh ids it would draw. */
  function Additions(rows: seq<Row>, ps: seq<Payload>, ids: seq<string>, book: string): (r: seq<Row>)
    requires |ids| == |ps|
    decreases |ps|
  {
    if ps == [] then []
    else if Exists(rows, ps[0], book) then Additions(rows, ps[1..], ids[1..], book)
    else
      var row := NewRow(ps[0], ids[0], book);
      [row] + Additions(rows + [row], ps[1..], ids[1..], book)
  }

  /** The table of contacts, appended to in place. */
  class ContactTable {
    var rows: seq<Row>

    constructor (initial: seq<Row>)
      ensures rows == initial
    {
      rows := initial;
    }

    method AddContacts(ps: seq<Payload>, ids: seq<string>, book: string) returns (created: seq<Row>)
      requires |ids| == |ps|
      modifies this
      ensures created == Additions(old(rows), ps, ids, book) && rows == old(rows) + created
    {
      created := [];
      for i := 0 to |ps|
        invariant rows == old(rows) + created
        invariant created + Additions(rows, ps[i..], ids[i..], book) == Additions(old(rows), ps, ids, book)
      {
        assert ps[i..][1..] == ps[i + 1..] && ids[i..][1..] == ids[i + 1..];
        if !Exists(rows, ps[i], book) {
          var row := NewRow(ps[i], ids[i], book);
          ghost var later := Additions(rows + [row], ps[i + 1..], ids[i + 1..], book);
          assert created + ([row] + later) == (created + [row]) + later;
          rows := rows + [row];
          created := created + [row];
          assert rows == old(rows) + created;
        }
      }
    }
  }

  lemma {:induction false} AdditionsMeetRequests(rows: seq<Row>, ps: seq<Payload>, ids: seq<string>, book: string)
    requires |ids| == |ps|
    ensures forall p :: p in ps ==> Exists(rows + Additions(rows, ps, ids, book), p, book)
    ensures forall r :: r in Additions(rows, ps, ids, book) ==> r.id.Some? && r.id.value in ids && r.book == book
    ensures forall r :: r in Additions(rows, ps, ids, book) ==> exists p :: p in ps && r.mxid == Some(p.mxid)
    decreases |ps|
  {
    if ps != [] {
      assert ps == [ps[0]] + ps[1..] && ids == [ids[0]] + ids[1..];
      if Exists(rows, ps[0], book) {
        AdditionsMeetRequests(rows, ps[1..], ids[1..], book);
        var r :| r in rows && Has(r, ps[0], book);
        assert r in rows + Additions(rows, ps, ids, book);
      } else {
        var row := NewRow(ps[0], ids[0], book);
        AdditionsMeetRequests(rows + [row], ps[1..], ids[1..], book);
        assert rows + Additions(rows, ps, ids, book)
            == rows + [row] + Additions(rows + [row], ps[1..], ids[1..], book);
        assert row in rows + Additions(rows, ps, ids, book) && Has(row, ps[0], book);
      }
    }
  }

  lemma {:induction false} NothingToAdd(rows: seq<Row>, ps: seq<Payload>, ids: seq<string>, book: string)
    requires |ids| == |ps| && forall p :: p in ps ==> Exists(rows, p, book)
    ensures Additions(rows, ps, ids, book) == []
    decreases |ps|
  {
    if ps != [] {
      assert ps[0] in ps;
      NothingToAdd(rows, ps[1..], ids[1..], book);
    }
  }

  /** The row has the contact's mxid and, where they are given, its name and the address book. */
  predicate Holds(r: Row, p: Payload, book: string) {
    && r.mxid == Some(p.mxid) && (p.displayName == "" || r.displayName == Some(p.displayName))
    && (book == "" || r.book == book)
  }

  /** Every contact with an mxid is in the table afterwards, and a row is added only for a contact that was not: an
      active row with the contact's mxid and name, in the book, under a fresh id. */
  lemma AdditionsExactly(rows: seq<Row>, ps: seq<Payload>, ids: seq<string>, book: string)
    requires |ids| == |ps|
    ensures forall p :: p in ps && p.mxid != "" ==>
              exists r :: r in rows + Additions(rows, ps, ids, book) && Holds(r, p, book)
    ensures forall row :: row in Additions(rows, ps, ids, book) ==>
              exists i :: 0 <= i < |ps| && row == Row(Some(ids[i]), Some(ps[i].mxid), Some(ps[i].displayName), 1, book)
                          && (ps[i].mxid != "" ==> forall r :: r in rows ==> !Holds(r, ps[i], book))
  {
    AdditionsMeetRequests(rows, ps, ids, book);
    forall p | p in ps && p.mxid != ""
      ensures exists r :: r in rows + Additions(rows, ps, ids, book) && Holds(r, p, book)
    {
      var r :| r in rows + Additions(rows, ps, ids, book) && Has(r, p, book);
      assert Holds(r, p, book);
    }
    forall row | row in Additions(rows, ps, ids, book)
      ensures exists i :: 0 <= i < |ps| && row == Row(Some(ids[i]), Some(ps[i].mxid), Some(ps[i].displayName), 1, book)
                          && (ps[i].mxid != "" ==> forall r :: r in rows ==> !Holds(r, ps[i], book))
    {
      var i := AddedFor(rows, ps, ids, book, row);
      forall r | r in rows && ps[i].mxid != "" ensures !Holds(r, ps[i], book) {
        assert !Has(r, ps[i], book);
      }
    }
  }

  lemma {:induction false} AddedFor(rows: seq<Row>, ps: seq<Payload>, ids: seq<string>, book: string, row: Row)
    returns (i: nat)
    requires |ids| == |ps| && row in Additions(rows, ps, ids, book)
    ensures i < |ps| && row == Row(Some(ids[i]), Some(ps[i].mxid), Some(ps[i].displayName), 1, book)
    ensures !Exists(rows, ps[i], book)
    decreases |ps|
  {
    hide Has;
    if Exists(rows, ps[0], book) {
      i := AddedFor(rows, ps[1..], ids[1..], book, row);
      i := i + 1;
    } else if row == NewRow(ps[0], ids[0], book) {
      i := 0;
    } else {
      var more := rows + [NewRow(ps[0], ids[0], book)];
      i := AddedFor(more, ps[1..], ids[1..], book, row);
      assert forall r :: r in rows ==> r in more;
      i := i + 1;
    }
  }

  /** Adding the same contacts again adds nothing, whatever other rows arrived meanwhile. */
  lemma AddingTwiceAddsNothing(rows: seq<Row>, ps: seq<Payload>, ids: seq<string>, others: seq<Row>, ids': seq<string>,
      book: string)
    requires |ids| == |ps| == |ids'|
    ensures Additions(rows + Additions(rows, ps, ids, book) + others, ps, ids', book) == []
  {
    var after := rows + Additions(rows, ps, ids, book);
    AdditionsMeetRequests(rows, ps, ids, book);
    forall p | p in ps ensures Exists(after + others, p, book) {
      var r :| r in after && Has(r, p, book);
      assert r in after + others;
    }
    NothingToAdd(after + others, ps, ids', book);
  }

  lemma {:induction false} ValidContactsSplit(a: seq<Row>, b: seq<Row>)
    ensures ValidContacts(a + b) == ValidContacts(a) + ValidContacts(b)
  {
    hide Valid, Normalized;
    if a == [] {
      assert a + b == b;
    } else {
      assert (a + b)[1..] == a[1..] + b;
      ValidContactsSplit(a[1..], b);
    }
  }

  /** Rows with later ids never replace a listed contact. */
  lemma AddingKeepsListed(rows: seq<Row>, added: seq<Row>, cmp: Compare, c: Contact)
    requires TotalPreorder(cmp) && DistinctIds(ValidContacts(rows + added), cmp)
    requires forall r, s :: r in ValidContacts(rows) && s in ValidContacts(added) ==> cmp(r.id, s.id) < 0
    ensures c in Listing(rows, cmp) ==> c in Listing(rows + added, cmp)
    ensures c in Listing(rows + added, cmp) && c.mxid in Mxids(ValidContacts(rows)) ==> c in Listing(rows, cmp)
  {
    ListingHoldsOldest(rows, cmp);
    ListingHoldsOldest(rows + added, cmp);
    ValidContactsSplit(rows, added);
    var old_, new_ := ValidContacts(rows), ValidContacts(added);
    assert forall d :: d in old_ ==> d in old_ + new_;
    if c in Listing(rows + added, cmp) && c.mxid in Mxids(old_) {
      var d :| d in old_ && d.mxid == c.mxid;
      assert Oldest(old_ + new_, cmp, c);
      assert cmp(c.id, d.id) <= 0;
      assert c in old_;
      assert Oldest(old_, cmp, c);
    }
  }
}
