/** The directory search and its pages. */
module Search {
  import opened Options
  import MatrixId

  // ---------------------------------------------------------------------------
  // Ordered lists of ids
  // ---------------------------------------------------------------------------

  /** `Array.prototype.sort` without comparator; Matrix ids are ASCII, so code units are characters. */
  predicate Less(a: string, b: string) {
    b != "" && (a == "" || a[0] < b[0] || (a[0] == b[0] && Less(a[1..], b[1..])))
  }

  lemma {:induction false} LessTotal(a: string, b: string)
    ensures Less(a, b) || Less(b, a) || a == b
    ensures !(Less(a, b) && Less(b, a))
  {
    if a != "" && b != "" {
      LessTotal(a[1..], b[1..]);
      assert a == [a[0]] + a[1..] && b == [b[0]] + b[1..];
    }
  }

  lemma {:induction false} LessTransitive(a: string, b: string, c: string)
    requires Less(a, b) && Less(b, c)
    ensures Less(a, c)
  {
    if a != "" && a[0] == b[0] == c[0] {
      LessTransitive(a[1..], b[1..], c[1..]);
    }
  }

  /** The texts agree up to some place, where `a` ends or has the smaller unit. */
  lemma {:induction false} LessExactly(a: string, b: string)
    ensures Less(a, b) <==> exists k :: 0 <= k <= |a| && k < |b| && a[..k] == b[..k] && (k == |a| || a[k] < b[k])
  {
    if a != "" && b != "" && a[0] == b[0] {
      LessExactly(a[1..], b[1..]);
      var c, d := a[1..], b[1..];
      if k :| 0 <= k <= |c| && k < |d| && c[..k] == d[..k] && (k == |c| || c[k] < d[k]) {
        assert a[..k + 1] == [a[0]] + a[1..][..k] && b[..k + 1] == [b[0]] + b[1..][..k];
      }
      if k :| 0 <= k <= |a| && k < |b| && a[..k] == b[..k] && (k == |a| || a[k] < b[k]) {
        assert k > 0 && a[1..][..k - 1] == a[..k][1..] && b[1..][..k - 1] == b[..k][1..];
      }
    } else if a == "" && b != "" {
      assert a[..0] == b[..0];
    } else if b != "" && a[0] < b[0] {
      assert a[..0] == b[..0];
    }
  }

  /** Strictly increasing, so without repetitions. */
  predicate Ascending(ids: seq<string>) {
    forall i, j :: 0 <= i < j < |ids| ==> Less(ids[i], ids[j])
  }

  predicate NoRepeats(ids: seq<string>) {
    forall i, j :: 0 <= i < j < |ids| ==> ids[i] != ids[j]
  }

  function Insert(id: string, ids: seq<string>): seq<string> {
    if ids == [] || Less(id, ids[0]) then [id] + ids else [ids[0]] + Insert(id, ids[1..])
  }

  function Sort(ids: seq<string>): seq<string> {
    if ids == [] then [] else Insert(ids[0], Sort(ids[1..]))
  }

  lemma {:induction false} InsertAscending(id: string, ids: seq<string>)
    requires Ascending(ids) && id !in ids
    ensures Ascending(Insert(id, ids))
    ensures forall x :: x in Insert(id, ids) <==> x == id || x in ids
  {
    hide Less;
    if ids != [] {
      LessTotal(id, ids[0]);
      assert ids[0] in ids;
      if Less(id, ids[0]) {
        forall j | 0 <= j < |ids| ensures Less(id, ids[j]) {
          if j > 0 {
            LessTransitive(id, ids[0], ids[j]);
          }
        }
      } else {
        InsertAscending(id, ids[1..]);
        assert forall x :: x in ids <==> x == ids[0] || x in ids[1..];
        var rest := Insert(id, ids[1..]);
        forall j | 0 <= j < |rest| ensures Less(ids[0], rest[j]) {
          assert rest[j] in rest;
          if rest[j] != id {
            var k :| 1 <= k < |ids| && ids[k] == rest[j];
          }
        }
      }
    }
  }

  lemma {:induction false} SortAscending(ids: seq<string>)
    requires NoRepeats(ids)
    ensures Ascending(Sort(ids)) && forall x :: x in Sort(ids) <==> x in ids
  {
    if ids != [] {
      SortAscending(ids[1..]);
      assert forall x :: x in ids <==> x == ids[0] || x in ids[1..];
      InsertAscending(ids[0], Sort(ids[1..]));
    }
  }

  lemma AscendingNoRepeats(ids: seq<string>)
    requires Ascending(ids)
    ensures NoRepeats(ids)
  {
    forall i, j | 0 <= i < j < |ids| ensures ids[i] != ids[j] {
      LessTotal(ids[i], ids[j]);
    }
  }

  // ---------------------------------------------------------------------------
  // The sets
  // ---------------------------------------------------------------------------

  /** A JavaScript Set lists its elements in order of first insertion. */
  function Added(ids: seq<string>, more: seq<string>): seq<string>
    decreases |more|
  {
    if more == [] then ids
    else Added(if more[0] in ids then ids else ids + [more[0]], more[1..])
  }

  /** Only what the first set does not have is added to the second. */
  function AddedOutside(ids: seq<string>, more: seq<string>, outside: seq<string>): seq<string>
    decreases |more|
  {
    if more == [] then ids
    else AddedOutside(if more[0] in outside || more[0] in ids then ids else ids + [more[0]], more[1..], outside)
  }

  lemma {:induction false} AddedIs(ids: seq<string>, more: seq<string>)
    requires NoRepeats(ids)
    ensures NoRepeats(Added(ids, more)) && forall x :: x in Added(ids, more) <==> x in ids || x in more
    decreases |more|
  {
    if more != [] {
      AddedIs(if more[0] in ids then ids else ids + [more[0]], more[1..]);
      assert forall x :: x in more <==> x == more[0] || x in more[1..];
    }
  }

  lemma {:induction false} AddedOutsideIs(ids: seq<string>, more: seq<string>, outside: seq<string>)
    requires NoRepeats(ids)
    ensures NoRepeats(AddedOutside(ids, more, outside))
    ensures forall x :: x in AddedOutside(ids, more, outside) <==> x in ids || (x in more && x !in outside)
    decreases |more|
  {
    if more != [] {
      AddedOutsideIs(if more[0] in outside || more[0] in ids then ids else ids + [more[0]], more[1..], outside);
      assert forall x :: x in more <==> x == more[0] || x in more[1..];
    }
  }

  /** The outcomes of the three searches; None is a search that failed. */
  datatype Found = Found(matrix: Option<seq<string>>, book: Option<seq<string>>, users: Option<seq<string>>)

  function Ids(o: Option<seq<string>>): seq<string> {
    if o.Some? then o.value else []
  }

  function Actives(f: Found): seq<string> {
    Added(Added([], Ids(f.matrix)), Ids(f.book))
  }

  function Inactives(f: Found): seq<string> {
    AddedOutside([], Ids(f.users), Actives(f))
  }

  /** The loops that fill the two sets. */
  method Collect(f: Found) returns (actives: seq<string>, inactives: seq<string>)
    ensures actives == Actives(f) && inactives == Inactives(f)
  {
    actives := AddAll([], Ids(f.matrix));
    actives := AddAll(actives, Ids(f.book));
    inactives := [];
    var more := Ids(f.users);
    for i := 0 to |more|
      invariant AddedOutside(inactives, more[i..], actives) == Inactives(f)
    {
      assert more[i..][1..] == more[i + 1..];
      if more[i] !in actives {
        if more[i] !in inactives {
          inactives := inactives + [more[i]];
        }
      }
    }
  }

  method AddAll(ids: seq<string>, more: seq<string>) returns (r: seq<string>)
    ensures r == Added(ids, more)
  {
    r := ids;
    for i := 0 to |more|
      invariant Added(r, more[i..]) == Added(ids, more)
    {
      assert more[i..][1..] == more[i + 1..];
      if more[i] !in r {
        r := r + [more[i]];
      }
    }
  }

  // ---------------------------------------------------------------------------
  // One page
  // ---------------------------------------------------------------------------

  /** The request body; zero limits and offsets read as missing. */
  datatype Query = Query(val: string, limit: int, offset: int)

  function Clamp(i: int, n: nat): (r: nat)
    ensures r <= n
  {
    if i < 0 then (if n + i < 0 then 0 else n + i) else if i > n then n else i
  }

  /** `Array.prototype.slice`: negative positions count from the end. */
  function Slice(ids: seq<string>, from: int, to: int): seq<string> {
    var a, b := Clamp(from, |ids|), Clamp(to, |ids|);
    if a < b then ids[a..b] else []
  }

  function Combined(f: Found): seq<string> {
    Sort(Actives(f)) + Sort(Inactives(f))
  }

  function Limit(q: Query): int {
    if q.limit == 0 then 30 else q.limit
  }

  function Page(f: Found, q: Query): seq<string> {
    if q.val == "" then [] else Slice(Combined(f), q.offset, q.offset + Limit(q))
  }

  function Among(ids: seq<string>, members: seq<string>): seq<string> {
    if ids == [] then [] else (if ids[0] in members then [ids[0]] else []) + Among(ids[1..], members)
  }

  /** The ids that the user information service knows, in order; the records it adds are the service's. */
  function Enriched(ids: seq<string>, known: set<string>): seq<string> {
    if ids == [] then [] else (if ids[0] in known then [ids[0]] else []) + Enriched(ids[1..], known)
  }

  function Matches(f: Found, q: Query, known: set<string>): seq<string> {
    Enriched(Among(Page(f, q), Actives(f)), known)
  }

  function InactiveMatches(f: Found, q: Query, known: set<string>): seq<string> {
    Enriched(Among(Page(f, q), Inactives(f)), known)
  }

  /** The response to one request. */
  method Respond(f: Found, q: Query, known: set<string>) returns (matches: seq<string>, inactiveMatches: seq<string>)
    ensures matches == Matches(f, q, known) && inactiveMatches == InactiveMatches(f, q, known)
  {
    if q.val == "" {
      return [], [];
    }
    var actives, inactives := Collect(f);
    var combined := Sort(actives) + Sort(inactives);
    var limit := if q.limit == 0 then 30 else q.limit;
    var page := Slice(combined, q.offset, q.offset + limit);
    matches := Enriched(Among(page, actives), known);
    inactiveMatches := Enriched(Among(page, inactives), known);
  }

  // ---------------------------------------------------------------------------
  // What the pages hold
  // ---------------------------------------------------------------------------

  /** The full result lists every id found exactly once, the active ones first, each part in order. */
  lemma CombinedIsComplete(f: Found)
    ensures NoRepeats(Combined(f)) && Ascending(Sort(Actives(f))) && Ascending(Sort(Inactives(f)))
    ensures forall x :: x in Sort(Actives(f)) <==> x in Ids(f.matrix) || x in Ids(f.book)
    ensures forall x :: x in Sort(Inactives(f)) <==> x in Ids(f.users) && x !in Sort(Actives(f))
  {
    AddedIs([], Ids(f.matrix));
    AddedIs(Added([], Ids(f.matrix)), Ids(f.book));
    AddedOutsideIs([], Ids(f.users), Actives(f));
    SortAscending(Actives(f));
    SortAscending(Inactives(f));
    var a, b := Sort(Actives(f)), Sort(Inactives(f));
    AscendingNoRepeats(a);
    AscendingNoRepeats(b);
    forall i, j | 0 <= i < j < |a + b| ensures (a + b)[i] != (a + b)[j] {
      if i < |a| <= j {
        assert a[i] in a && b[j - |a|] in b;
      }
    }
  }

  /** A position as slice reads it: from the end when negative, and never outside. */
  function Position(i: int, n: nat): (r: nat)
    ensures r <= n
  {
    if i >= n then n else if i >= 0 then i else if n + i >= 0 then n + i else 0
  }

  /** A page is the part of the full result between offset and offset plus limit, thirty when no limit is given; an
      empty search has none. */
  lemma PageExactly(f: Found, q: Query)
    ensures var n := |Combined(f)|;
            var from := Position(q.offset, n);
            var to := Position(q.offset + (if q.limit == 0 then 30 else q.limit), n);
            Page(f, q) == if q.val == "" || to <= from then [] else Combined(f)[from..to]
  {
    hide Combined;
  }

  /** The response holds the ids of the page that the user information service knows, each in its half. */
  lemma ResponseExactly(f: Found, q: Query, known: set<string>, x: string)
    ensures x in Matches(f, q, known) <==>
            x in Page(f, q) && x in known && (x in Ids(f.matrix) || x in Ids(f.book))
    ensures x in InactiveMatches(f, q, known) <==>
            x in Page(f, q) && x in known && x !in Ids(f.matrix) && x !in Ids(f.book)
  {
    hide Page, Actives, Inactives;
    AmongAre(Page(f, q), Actives(f), x);
    AmongAre(Page(f, q), Inactives(f), x);
    EnrichedAre(Among(Page(f, q), Actives(f)), known, x);
    EnrichedAre(Among(Page(f, q), Inactives(f)), known, x);
    FoundAre(f, x);
    if x in Page(f, q) {
      PageIsFound(f, q, x);
    }
  }

  lemma FoundAre(f: Found, x: string)
    ensures x in Actives(f) <==> x in Ids(f.matrix) || x in Ids(f.book)
    ensures x in Inactives(f) <==> x in Ids(f.users) && x !in Ids(f.matrix) && x !in Ids(f.book)
  {
    AddedIs([], Ids(f.matrix));
    AddedIs(Added([], Ids(f.matrix)), Ids(f.book));
    AddedOutsideIs([], Ids(f.users), Actives(f));
  }

  lemma PageIsFound(f: Found, q: Query, x: string)
    requires x in Page(f, q)
    ensures x in Actives(f) || x in Inactives(f)
  {
    assert x in Combined(f);
    MembersOfParts(f, x);
  }

  lemma {:induction false} AmongAre(ids: seq<string>, members: seq<string>, x: string)
    ensures x in Among(ids, members) <==> x in ids && x in members
  {
    if ids != [] {
      AmongAre(ids[1..], members, x);
      assert ids == [ids[0]] + ids[1..];
    }
  }

  lemma {:induction false} EnrichedAre(ids: seq<string>, known: set<string>, x: string)
    ensures x in Enriched(ids, known) <==> x in ids && x in known
  {
    if ids != [] {
      EnrichedAre(ids[1..], known, x);
      assert ids == [ids[0]] + ids[1..];
    }
  }

  /** The ids that the service knows keep their order. */
  lemma {:induction false} EnrichedAscends(ids: seq<string>, known: set<string>)
    requires Ascending(ids)
    ensures Ascending(Enriched(ids, known))
    ensures forall x :: x in Enriched(ids, known) ==> x in ids && x in known
  {
    hide Less;
    if ids != [] {
      EnrichedAscends(ids[1..], known);
      assert ids == [ids[0]] + ids[1..];
      var rest := Enriched(ids[1..], known);
      forall j | 0 <= j < |rest| ensures Less(ids[0], rest[j]) {
        assert rest[j] in rest;
        var k :| 1 <= k < |ids| && ids[k] == rest[j];
      }
    }
  }

  lemma {:induction false} AmongSplit(a: seq<string>, b: seq<string>, members: seq<string>)
    ensures Among(a + b, members) == Among(a, members) + Among(b, members)
  {
    if a == [] {
      assert a + b == b;
    } else {
      assert (a + b)[1..] == a[1..] + b;
      AmongSplit(a[1..], b, members);
    }
  }

  lemma {:induction false} AmongAllOrNone(ids: seq<string>, members: seq<string>)
    ensures (forall x :: x in ids ==> x in members) ==> Among(ids, members) == ids
    ensures (forall x :: x in ids ==> x !in members) ==> Among(ids, members) == []
  {
    if ids != [] {
      AmongAllOrNone(ids[1..], members);
      assert ids[0] in ids && ids == [ids[0]] + ids[1..];
    }
  }

  /** Any slice of the full result, taken apart by membership and put together again, is itself. */
  lemma PageComesApart(f: Found, q: Query)
    ensures Among(Page(f, q), Actives(f)) + Among(Page(f, q), Inactives(f)) == Page(f, q)
  {
    var a, b := Sort(Actives(f)), Sort(Inactives(f));
    if q.val != "" {
      var from, to := Clamp(q.offset, |a + b|), Clamp(q.offset + Limit(q), |a + b|);
      if from < to {
        SliceComesApart(f, from, to);
      }
    }
  }

  lemma MembersOfParts(f: Found, x: string)
    ensures x in Sort(Actives(f)) <==> x in Actives(f)
    ensures x in Sort(Inactives(f)) <==> x in Inactives(f)
    ensures !(x in Actives(f) && x in Inactives(f))
  {
    AddedIs([], Ids(f.matrix));
    AddedIs(Added([], Ids(f.matrix)), Ids(f.book));
    AddedOutsideIs([], Ids(f.users), Actives(f));
    SortAscending(Actives(f));
    SortAscending(Inactives(f));
  }

  lemma SliceComesApart(f: Found, from: nat, to: nat)
    requires from <= to <= |Combined(f)|
    ensures Among(Combined(f)[from..to], Actives(f)) == ActivePart(f, from, to)
    ensures Among(Combined(f)[from..to], Inactives(f)) == InactivePart(f, from, to)
    ensures ActivePart(f, from, to) + InactivePart(f, from, to) == Combined(f)[from..to]
  {
    var a, b := Sort(Actives(f)), Sort(Inactives(f));
    var p, q := ActivePart(f, from, to), InactivePart(f, from, to);
    assert p + q == (a + b)[from..to];
    forall x
      ensures (x in p ==> x in Actives(f) && x !in Inactives(f)) && (x in q ==> x in Inactives(f) && x !in Actives(f))
    {
      MembersOfParts(f, x);
      assert x in p ==> x in a;
      assert x in q ==> x in b;
    }
    AmongSplit(p, q, Actives(f));
    AmongSplit(p, q, Inactives(f));
    AmongAllOrNone(p, Actives(f));
    AmongAllOrNone(q, Actives(f));
    AmongAllOrNone(p, Inactives(f));
    AmongAllOrNone(q, Inactives(f));
  }

  function Min(a: int, b: int): int { if a < b then a else b }

  function ActivePart(f: Found, from: nat, to: nat): seq<string>
    requires from <= to
  {
    var a := Sort(Actives(f));
    a[Min(from, |a|)..Min(to, |a|)]
  }

  function InactivePart(f: Found, from: nat, to: nat): seq<string>
    requires from <= to <= |Combined(f)|
  {
    var n := |Sort(Actives(f))|;
    Sort(Inactives(f))[if from < n then 0 else from - n..if to < n then 0 else to - n]
  }

  // ---------------------------------------------------------------------------
  // Walking through the pages
  // ---------------------------------------------------------------------------

  /** The pages that a client sees which starts at `offset` and steps by the limit. */
  function Pages(f: Found, val: string, limit: nat, offset: nat, n: nat): seq<string>
    decreases n
  {
    if n == 0 then [] else Page(f, Query(val, limit, offset)) + Pages(f, val, limit, offset + limit, n - 1)
  }

  function AllMatches(f: Found, val: string, limit: nat, offset: nat, n: nat, known: set<string>): seq<string>
    decreases n
  {
    if n == 0 then []
    else Matches(f, Query(val, limit, offset), known) + AllMatches(f, val, limit, offset + limit, n - 1, known)
  }

  function AllInactive(f: Found, val: string, limit: nat, offset: nat, n: nat, known: set<string>): seq<string>
    decreases n
  {
    if n == 0 then []
    else InactiveMatches(f, Query(val, limit, offset), known) + AllInactive(f, val, limit, offset + limit, n - 1, known)
  }

  lemma PageIs(f: Found, val: string, limit: nat, offset: nat)
    requires val != "" && limit > 0
    ensures Page(f, Query(val, limit, offset))
         == Combined(f)[Clamp(offset, |Combined(f)|)..Clamp(offset + limit, |Combined(f)|)]
  {
  }

  lemma Multiples(n: nat, limit: nat, offset: nat)
    requires n > 0
    ensures offset + limit + (n - 1) * limit == offset + n * limit && limit <= n * limit
  {
    assert (n - 1) * limit + limit == n * limit;
  }

  lemma ClampMonotone(a: nat, b: nat, n: nat)
    requires a <= b
    ensures Clamp(a, n) <= Clamp(b, n)
  {
  }

  /** The pages, one after the other, are the rest of the full result from the offset on. */
  lemma {:induction false} PagesPartition(f: Found, val: string, limit: nat, offset: nat, n: nat)
    requires val != "" && limit > 0
    ensures Pages(f, val, limit, offset, n)
         == Combined(f)[Clamp(offset, |Combined(f)|)..Clamp(offset + n * limit, |Combined(f)|)]
    decreases n
  {
    hide Page, Combined, Clamp;
    var c := Combined(f);
    if n == 0 {
      assert 0 * limit == 0;
    } else {
      PageIs(f, val, limit, offset);
      PagesPartition(f, val, limit, offset + limit, n - 1);
      Multiples(n, limit, offset);
      var end := offset + n * limit;
      ClampMonotone(offset, offset + limit, |c|);
      ClampMonotone(offset + limit, end, |c|);
      var x, y, z := Clamp(offset, |c|), Clamp(offset + limit, |c|), Clamp(end, |c|);
      assert c[x..z] == c[x..y] + c[y..z];
    }
  }

  lemma {:induction false} EnrichedSplit(a: seq<string>, b: seq<string>, known: set<string>)
    ensures Enriched(a + b, known) == Enriched(a, known) + Enriched(b, known)
  {
    if a == [] {
      assert a + b == b;
    } else {
      assert (a + b)[1..] == a[1..] + b;
      EnrichedSplit(a[1..], b, known);
    }
  }

  lemma NothingAmong(members: seq<string>, known: set<string>)
    ensures Enriched(Among([], members), known) == []
  {
  }

  lemma {:induction false} MatchesOfPages(f: Found, val: string, limit: nat, offset: nat, n: nat, known: set<string>)
    requires val != "" && limit > 0
    ensures AllMatches(f, val, limit, offset, n, known) ==
        Enriched(Among(Pages(f, val, limit, offset, n), Actives(f)), known)
    ensures AllInactive(f, val, limit, offset, n, known) ==
        Enriched(Among(Pages(f, val, limit, offset, n), Inactives(f)), known)
    decreases n
  {
    hide Page, Actives, Inactives, Among, Enriched;
    if n == 0 {
      NothingAmong(Actives(f), known);
      NothingAmong(Inactives(f), known);
    } else {
      MatchesOfPages(f, val, limit, offset + limit, n - 1, known);
      var page, rest := Page(f, Query(val, limit, offset)), Pages(f, val, limit, offset + limit, n - 1);
      AmongSplit(page, rest, Actives(f));
      AmongSplit(page, rest, Inactives(f));
      EnrichedSplit(Among(page, Actives(f)), Among(rest, Actives(f)), known);
      EnrichedSplit(Among(page, Inactives(f)), Among(rest, Inactives(f)), known);
    }
  }

  /** A client that steps through enough pages receives every known active id exactly once among the
      matches and every known inactive id exactly once among the inactive matches, in order. */
  lemma {:induction false} WalkSeesEverythingOnce(f: Found, val: string, limit: nat, n: nat, known: set<string>)
    requires val != "" && limit > 0 && n * limit >= |Combined(f)|
    ensures AllMatches(f, val, limit, 0, n, known) == Enriched(Sort(Actives(f)), known)
    ensures AllInactive(f, val, limit, 0, n, known) == Enriched(Sort(Inactives(f)), known)
    ensures NoRepeats(Pages(f, val, limit, 0, n)) && Pages(f, val, limit, 0, n) == Combined(f)
    ensures Ascending(AllMatches(f, val, limit, 0, n, known)) && Ascending(AllInactive(f, val, limit, 0, n, known))
    ensures forall x :: x in AllMatches(f, val, limit, 0, n, known) <==>
                        x in known && (x in Ids(f.matrix) || x in Ids(f.book))
    ensures forall x :: x in AllInactive(f, val, limit, 0, n, known) <==>
                        x in known && x in Ids(f.users) && x !in Ids(f.matrix) && x !in Ids(f.book)
  {
    hide Sort, Actives, Inactives, Among, Enriched, Pages, AllMatches, AllInactive, Ascending;
    var c := Combined(f);
    PagesPartition(f, val, limit, 0, n);
    assert c[0..|c|] == c;
    MatchesOfPages(f, val, limit, 0, n, known);
    CombinedIsComplete(f);
    SliceComesApart(f, 0, |c|);
    assert ActivePart(f, 0, |c|) == Sort(Actives(f)) && InactivePart(f, 0, |c|) == Sort(Inactives(f));
    EnrichedAscends(Sort(Actives(f)), known);
    EnrichedAscends(Sort(Inactives(f)), known);
    forall x ensures (x in Enriched(Sort(Actives(f)), known) <==> x in Sort(Actives(f)) && x in known) &&
                     (x in Enriched(Sort(Inactives(f)), known) <==> x in Sort(Inactives(f)) && x in known) {
      EnrichedAre(Sort(Actives(f)), known, x);
      EnrichedAre(Sort(Inactives(f)), known, x);
    }
  }

  // ---------------------------------------------------------------------------
  // Which ids are found
  // ---------------------------------------------------------------------------

  /** A database value: an id as it is, a localpart completed, anything else nothing. */
  ghost function Candidate(uid: string, server: string): Option<string> {
    if uid == "" then None
    else if MatrixId.IsMatrixId(uid) then Some(uid)
    else if MatrixId.ToMatrixId(uid, server).Id? then Some(MatrixId.ToMatrixId(uid, server).id)
    else None
  }

  ghost function Candidates(uids: seq<string>, server: string): seq<string> {
    if uids == [] then []
    else
      var c := Candidate(uids[0], server);
      (if c.Some? then [c.value] else []) + Candidates(uids[1..], server)
  }

  /** What is found are exactly the values that are Matrix ids, and the ids printed for those that are not; only
      Matrix ids are. */
  lemma {:induction false} CandidatesAreIds(uids: seq<string>, server: string)
    ensures forall x :: x in Candidates(uids, server) <==>
              (x in uids && x != "" && MatrixId.IsMatrixId(x)) ||
              exists uid :: uid in uids && uid != "" && !MatrixId.IsMatrixId(uid) &&
                            MatrixId.ToMatrixId(uid, server) == MatrixId.Id(x)
    ensures forall x :: x in Candidates(uids, server) ==> MatrixId.IsMatrixId(x)
  {
    hide MatrixId.IsMatrixId, MatrixId.ToMatrixId;
    if uids != [] {
      CandidatesAreIds(uids[1..], server);
      assert uids == [uids[0]] + uids[1..];
      if MatrixId.ToMatrixId(uids[0], server).Id? {
        MatrixId.PrintedIds(uids[0], server);
      }
    }
  }
}
