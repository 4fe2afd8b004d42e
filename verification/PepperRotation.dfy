/** Pepper rotation on the `keys` and `hashes` tables, one database statement a step. */
module PepperRotation {
  datatype Row = Row(pepper: string, kind: string, value: string, active: int)

  /** One contact to hash: the Matrix id it belongs to, its type, its text and its status. */
  datatype Entry = Entry(value: string, kind: string, contact: string, active: int)

  datatype Db = Db(pepper: string, previous: string, hashes: map<string, Row>)

  datatype Phase =
    | Idle
    | Rotating(current: string, newPepper: string, saved: bool, todo: set<Entry>)

  /** `drops` holds the delete statements that were issued and not awaited, `writers` the peppers
      that running updates and binds have read. The last three fields are history. */
  datatype State = State(
    db: Db, phase: Phase, drops: set<string>, writers: multiset<string>,
    used: set<string>, generation: set<Entry>, done: set<Entry>)

  datatype Event =
    | Begin(newPepper: string, entries: set<Entry>)
    | Drop(pepper: string)
    | SavePrevious
    | Insert(entry: Entry)
    | Publish
    | Abort
    | Read
    | Write(pepper: string, entry: Entry)
    | Finish(pepper: string)
    | Activate(value: string)
    | Unbind(value: string)

  const PEPPER_LENGTH := 32

  // ---------------------------------------------------------------------------
  // Hash keys
  // ---------------------------------------------------------------------------

  /** The text that is hashed: contact, type and pepper separated by blanks. */
  function Preimage(contact: string, kind: string, pepper: string): string {
    contact + " " + kind + " " + pepper
  }

  function Key(h: string -> string, e: Entry, pepper: string): string {
    h(Preimage(e.contact, e.kind, pepper))
  }

  predicate NoBlank(s: string) {
    ' ' !in s
  }

  ghost predicate Injective(h: string -> string) {
    forall a, b :: h(a) == h(b) ==> a == b
  }

  lemma BlankAfter(a: string, b: string, c: string, d: string)
    requires a + " " + b == c + " " + d
    ensures |a| < |c| ==> !NoBlank(b)
  {
    if |a| < |c| {
      assert (a + " " + b)[|c|] == b[|c| - |a| - 1];
      assert (c + " " + d)[|c|] == ' ';
    }
  }

  lemma LastBlank(a: string, b: string, c: string, d: string)
    requires NoBlank(b) && NoBlank(d) && a + " " + b == c + " " + d
    ensures a == c && b == d
  {
    BlankAfter(a, b, c, d);
    BlankAfter(c, d, a, b);
    assert a == (a + " " + b)[..|a|] && c == (c + " " + d)[..|c|];
    assert b == (a + " " + b)[|a| + 1..] && d == (c + " " + d)[|c| + 1..];
  }

  /** The text names its three parts, so with an injective hash a key names contact, type and pepper. */
  lemma PreimageInjective(c1: string, k1: string, p1: string, c2: string, k2: string, p2: string)
    requires NoBlank(k1) && NoBlank(p1) && NoBlank(k2) && NoBlank(p2)
    requires Preimage(c1, k1, p1) == Preimage(c2, k2, p2)
    ensures c1 == c2 && k1 == k2 && p1 == p2
  {
    LastBlank(c1 + " " + k1, p1, c2 + " " + k2, p2);
    LastBlank(c1, k1, c2, k2);
  }

  // ---------------------------------------------------------------------------
  // Steps
  // ---------------------------------------------------------------------------

  function Without(hashes: map<string, Row>, pepper: string): map<string, Row> {
    map k | k in hashes && hashes[k].pepper != pepper :: hashes[k]
  }

  /** An INSERT; the primary key refuses a hash that is already there. */
  function Added(h: string -> string, hashes: map<string, Row>, e: Entry, pepper: string): map<string, Row> {
    if Key(h, e, pepper) in hashes then hashes
    else hashes[Key(h, e, pepper) := Row(pepper, e.kind, e.value, e.active)]
  }

  function Activated(hashes: map<string, Row>, value: string): map<string, Row> {
    map k | k in hashes :: if hashes[k].value == value then hashes[k].(active := 1) else hashes[k]
  }

  function Unbound(hashes: map<string, Row>, value: string): map<string, Row> {
    map k | k in hashes && hashes[k].value != value :: hashes[k]
  }

  function Others(es: set<Entry>, value: string): set<Entry> {
    set e | e in es && e.value != value
  }

  predicate Enabled(h: string -> string, s: State, e: Event) {
    match e
    case Begin(newPepper, entries) => s.phase.Idle? && newPepper !in s.used && |newPepper| == PEPPER_LENGTH
    case Drop(p) => p in s.drops
    case SavePrevious => s.phase.Rotating? && !s.phase.saved
    case Insert(x) => s.phase.Rotating? && x in s.phase.todo && Key(h, x, s.phase.newPepper) !in s.db.hashes
    case Publish => s.phase.Rotating? && s.phase.saved && s.phase.todo == {}
    case Abort => s.phase.Rotating?
    case Read => true
    case Write(p, x) => p in s.writers
    case Finish(p) => p in s.writers
    case Activate(_) => true
    case Unbind(_) => true
  }

  /** The state after one statement; an event that is not enabled does nothing. */
  function Next(h: string -> string, s: State, e: Event): State {
    if !Enabled(h, s, e) then s else
    match e
    case Begin(newPepper, entries) =>
      s.(phase := Rotating(s.db.pepper, newPepper, false, entries),
         drops := if |s.db.previous| == PEPPER_LENGTH then s.drops + {s.db.previous} else s.drops,
         used := s.used + {newPepper}, done := {})
    case Drop(p) =>
      s.(db := s.db.(hashes := Without(s.db.hashes, p)), drops := s.drops - {p})
    case SavePrevious =>
      s.(db := s.db.(previous := s.phase.current), phase := s.phase.(saved := true))
    case Insert(x) =>
      s.(db := s.db.(hashes := Added(h, s.db.hashes, x, s.phase.newPepper)),
         phase := s.phase.(todo := s.phase.todo - {x}), done := s.done + {x})
    case Publish =>
      s.(db := s.db.(pepper := s.phase.newPepper), phase := Idle, generation := s.done)
    case Abort =>
      s.(phase := Idle)
    case Read =>
      s.(writers := s.writers + multiset{s.db.pepper})
    case Write(p, x) =>
      s.(db := s.db.(hashes := Added(h, s.db.hashes, x, p)))
    case Finish(p) =>
      s.(writers := s.writers - multiset{p})
    case Activate(v) =>
      s.(db := s.db.(hashes := Activated(s.db.hashes, v)))
    case Unbind(v) =>
      s.(db := s.db.(hashes := Unbound(s.db.hashes, v)),
         generation := Others(s.generation, v), done := Others(s.done, v))
  }

  /** The row that an insert of this entry leaves under a pepper, unless its key is taken. */
  predicate InsertedRow(h: string -> string, before: map<string, Row>, e: Entry, pepper: string,
                        after: map<string, Row>)
  {
    var k := h(e.contact + " " + e.kind + " " + pepper);
    if k in before then after == before else after == before[k := Row(pepper, e.kind, e.value, e.active)]
  }

  /** What each statement changes in the tables, row by row, and whom it concerns. */
  lemma StatementsOnRows(h: string -> string, s: State, e: Event, k: string)
    ensures var before, after := s.db.hashes, Next(h, s, e).db.hashes;
            match e
            case Drop(p) => p in s.drops ==> (k in after <==> k in before && before[k].pepper != p)
            case Insert(x) =>
              s.phase.Rotating? && x in s.phase.todo ==>
                h(x.contact + " " + x.kind + " " + s.phase.newPepper) in before ||
                InsertedRow(h, before, x, s.phase.newPepper, after)
            case Write(p, x) => p in s.writers ==> InsertedRow(h, before, x, p, after)
            case Unbind(v) => k in after <==> k in before && before[k].value != v
            case Activate(v) =>
              && (k in after <==> k in before)
              && (k in before ==> after[k] == if before[k].value == v then before[k].(active := 1) else before[k])
            case _ => after == before
    ensures !e.Activate? && k in s.db.hashes && k in Next(h, s, e).db.hashes ==>
              Next(h, s, e).db.hashes[k] == s.db.hashes[k]
    ensures e.Unbind? ==> Next(h, s, e).generation == set x | x in s.generation && x.value != e.value
  {
  }

  /** A rotation begins with a fresh pepper of 32 characters when none is under way, and issues the delete of the rows
      under `previousPepper` if that has 32 characters; a writer reads the stored pepper and ends. */
  lemma BeginAndRead(h: string -> string, s: State, p: string, entries: set<Entry>)
    ensures Enabled(h, s, Begin(p, entries)) <==> s.phase.Idle? && p !in s.used && |p| == 32
    ensures Enabled(h, s, Begin(p, entries)) ==>
              var t := Next(h, s, Begin(p, entries));
              && t.db == s.db && t.phase == Rotating(s.db.pepper, p, false, entries)
              && forall x :: x in t.drops <==> x in s.drops || (x == s.db.previous && |x| == 32)
    ensures Next(h, s, Read).writers == s.writers[s.db.pepper := s.writers[s.db.pepper] + 1]
    ensures p in s.writers ==> Next(h, s, Finish(p)).writers == s.writers[p := s.writers[p] - 1]
  {
    var t := Next(h, s, Read);
    assert forall x :: t.writers[x] == s.writers[x] + if x == s.db.pepper then 1 else 0;
    var u := Next(h, s, Finish(p));
    if p in s.writers {
      assert forall x :: u.writers[x] == s.writers[x] - if x == p then 1 else 0;
    }
  }

  function Run(h: string -> string, s: State, es: seq<Event>): State
    decreases |es|
  {
    if es == [] then s else Run(h, Next(h, s, es[0]), es[1..])
  }

  /** The freshly initialised tables: both keys empty, no hash. */
  function Init(): State {
    State(Db("", "", map[]), Idle, {}, multiset{}, {""}, {}, {})
  }

  // ---------------------------------------------------------------------------
  // The published generation is always complete
  // ---------------------------------------------------------------------------

  predicate HasRow(h: string -> string, hashes: map<string, Row>, e: Entry, pepper: string) {
    var k := Key(h, e, pepper);
    k in hashes && hashes[k].pepper == pepper && hashes[k].kind == e.kind && hashes[k].value == e.value
  }

  /** Every user the published generation was built for, and who has not unbound since, can be
      looked up under the published pepper. */
  predicate Served(h: string -> string, s: State) {
    s.db.pepper != "" ==> forall e :: e in s.generation ==> HasRow(h, s.db.hashes, e, s.db.pepper)
  }

  predicate Inv(h: string -> string, s: State) {
    && s.db.pepper in s.used && s.db.previous in s.used && s.drops <= s.used
    && s.db.pepper !in s.drops
    && Served(h, s)
    && match s.phase
       case Idle => s.db.previous == s.db.pepper ==> |s.db.pepper| != PEPPER_LENGTH
       case Rotating(current, newPepper, saved, _) =>
         && current == s.db.pepper && newPepper != s.db.pepper && newPepper != s.db.previous
         && newPepper in s.used && newPepper !in s.drops
         && (if saved then s.db.previous == current
             else s.db.previous == s.db.pepper ==> |s.db.pepper| != PEPPER_LENGTH)
         && forall e :: e in s.done ==> HasRow(h, s.db.hashes, e, newPepper)
  }

  /** Rotations complete: none fails once it has overwritten `previousPepper`. */
  predicate Completes(h: string -> string, s: State, es: seq<Event>)
    decreases |es|
  {
    es == [] ||
    (!(es[0].Abort? && s.phase.Rotating? && s.phase.saved) && Completes(h, Next(h, s, es[0]), es[1..]))
  }

  lemma StepKeepsInv(h: string -> string, s: State, e: Event)
    requires Inv(h, s)
    requires !(e.Abort? && s.phase.Rotating? && s.phase.saved)
    ensures Inv(h, Next(h, s, e))
  {
    var t := Next(h, s, e);
    if s.db.pepper != "" {
      RowsSurvive(h, s, e, s.generation, s.db.pepper);
    }
    if s.phase.Rotating? {
      RowsSurvive(h, s, e, s.done, s.phase.newPepper);
    }
  }

  /** No statement but an unbind of its user or a drop of its pepper takes away a hash row. */
  lemma RowsSurvive(h: string -> string, s: State, e: Event, es: set<Entry>, pepper: string)
    requires pepper !in s.drops
    requires forall x :: x in es ==> HasRow(h, s.db.hashes, x, pepper)
    ensures var kept := if e.Unbind? then Others(es, e.value) else es;
            forall x :: x in kept ==> HasRow(h, Next(h, s, e).db.hashes, x, pepper)
  {
  }

  /** At every single statement of every run whose rotations complete the published generation is served. */
  lemma {:induction false} RunKeepsInv(h: string -> string, s: State, es: seq<Event>)
    requires Inv(h, s) && Completes(h, s, es)
    ensures Inv(h, Run(h, s, es)) && Served(h, Run(h, s, es))
    decreases |es|
  {
    if es != [] {
      StepKeepsInv(h, s, es[0]);
      RunKeepsInv(h, Next(h, s, es[0]), es[1..]);
    }
  }

  lemma InitInv(h: string -> string)
    ensures Inv(h, Init())
  {
  }

  /** From freshly initialised tables, at every statement of every run whose rotations complete, each user of the
      published generation who has not unbound has his row under the stored pepper. */
  lemma PublishedGenerationComplete(h: string -> string, es: seq<Event>)
    requires Completes(h, Init(), es)
    ensures Inv(h, Run(h, Init(), es)) && Served(h, Run(h, Init(), es))
  {
    InitInv(h);
    RunKeepsInv(h, Init(), es);
  }

  /** Publishing makes exactly the entries the rotation began with the served generation, unless
      their users unbound meanwhile. */
  lemma {:induction false} RotationServesItsEntries(
    h: string -> string, s: State, newPepper: string, entries: set<Entry>, es: seq<Event>)
    requires Enabled(h, s, Begin(newPepper, entries))
    requires forall e :: e in es ==> !e.Unbind? && !e.Begin? && !e.Abort? && !e.Publish?
    ensures var t := Run(h, Next(h, s, Begin(newPepper, entries)), es);
            t.phase.Rotating? && t.phase.newPepper == newPepper && t.done + t.phase.todo == entries &&
            (Enabled(h, t, Publish) ==>
               Next(h, t, Publish).generation == entries && Next(h, t, Publish).db.pepper == newPepper)
    decreases |es|
  {
    var t := Next(h, s, Begin(newPepper, entries));
    RotatingKeeps(h, t, es);
    assert t.done + t.phase.todo == entries;
  }

  lemma {:induction false} RotatingKeeps(h: string -> string, s: State, es: seq<Event>)
    requires s.phase.Rotating?
    requires forall e :: e in es ==> !e.Unbind? && !e.Begin? && !e.Abort? && !e.Publish?
    ensures var t := Run(h, s, es);
            t.phase.Rotating? && t.phase.newPepper == s.phase.newPepper &&
            t.done + t.phase.todo == s.done + s.phase.todo
    decreases |es|
  {
    if es != [] {
      assert es[0] in es;
      var t := Next(h, s, es[0]);
      assert t.phase.Rotating? && t.done + t.phase.todo == s.done + s.phase.todo;
      RotatingKeeps(h, t, es[1..]);
    }
  }

  // ---------------------------------------------------------------------------
  // When a drop takes the live generation
  // ---------------------------------------------------------------------------

  predicate PublishedRow(s: State, k: string) {
    k in s.db.hashes && s.db.hashes[k].pepper == s.db.pepper
  }

  /** A rotation that starts with the two keys holding the same 32-character pepper drops the live
      generation, and only then. */
  lemma DropTakesLiveRowsExactlyWhenKeysAgree(h: string -> string, s: State, newPepper: string, entries: set<Entry>)
    requires Enabled(h, s, Begin(newPepper, entries)) && s.drops == {}
    requires exists k :: PublishedRow(s, k)
    ensures var t := Next(h, Next(h, s, Begin(newPepper, entries)), Drop(s.db.previous));
            (exists k :: PublishedRow(s, k) && k !in t.db.hashes) <==>
            s.db.previous == s.db.pepper && |s.db.pepper| == 32
  {
    var t := Next(h, Next(h, s, Begin(newPepper, entries)), Drop(s.db.previous));
    var k :| PublishedRow(s, k);
    if s.db.previous == s.db.pepper && |s.db.pepper| == PEPPER_LENGTH {
      assert k !in t.db.hashes;
    }
  }

  /** A rotation that fails after `previousPepper` is overwritten leaves the two keys equal, so the
      next one drops the generation that is still published. */
  lemma FailedRotationLosesGeneration(h: string -> string, p: string, q: string, r: string, e: Entry)
    requires |p| == |q| == |r| == 32 && p != q && q != r && p != r
    ensures var es := [Begin(p, {e}), SavePrevious, Insert(e), Publish,
                       Begin(q, {}), SavePrevious, Abort, Begin(r, {}), Drop(p)];
            !Completes(h, Init(), es) && !Served(h, Run(h, Init(), es))
  {
    hide Run;
    var es := [Begin(p, {e}), SavePrevious, Insert(e), Publish,
               Begin(q, {}), SavePrevious, Abort, Begin(r, {}), Drop(p)];
    var s1 := Next(h, Init(), es[0]);
    var s2 := Next(h, s1, es[1]);
    var s3 := Next(h, s2, es[2]);
    assert s3.phase.todo == {};
    var s4 := Next(h, s3, es[3]);
    var s5 := Next(h, s4, es[4]);
    var s6 := Next(h, s5, es[5]);
    var s7 := Next(h, s6, es[6]);
    var s8 := Next(h, s7, es[7]);
    var s9 := Next(h, s8, es[8]);
    assert s4.generation == {e} && s4.db.pepper == p;
    assert s9.db.hashes == map[] && s9.generation == {e} && s9.db.pepper == p;
    RunNine(h, Init(), es);
    CompletesPrefix(h, Init(), es, 6);
    assert Run(h, Init(), es[..6]) == s6 by {
      assert es[..6] == [es[0], es[1], es[2], es[3], es[4], es[5]];
      RunNine(h, Init(), es[..6] + [es[6], es[7], es[8]]);
      RunAppend(h, Init(), es[..3], es[3..6]);
      assert es[..6] == es[..3] + es[3..6];
      RunThree(h, Init(), es[..3]);
      RunThree(h, s3, es[3..6]);
    }
    assert !HasRow(h, s9.db.hashes, e, p);
  }

  lemma RunThree(h: string -> string, s: State, es: seq<Event>)
    requires |es| == 3
    ensures Run(h, s, es) == Next(h, Next(h, Next(h, s, es[0]), es[1]), es[2])
  {
    assert es[1..][1..][1..] == [];
    assert Run(h, Next(h, Next(h, s, es[0]), es[1]), es[1..][1..]) == Next(h, Next(h, Next(h, s, es[0]), es[1]), es[2]);
  }

  lemma RunNine(h: string -> string, s: State, es: seq<Event>)
    requires |es| == 9
    ensures Run(h, s, es) ==
            (var a := Next(h, Next(h, Next(h, s, es[0]), es[1]), es[2]);
             var b := Next(h, Next(h, Next(h, a, es[3]), es[4]), es[5]);
             Next(h, Next(h, Next(h, b, es[6]), es[7]), es[8]))
  {
    assert es == es[..3] + (es[3..6] + es[6..]);
    RunAppend(h, s, es[..3], es[3..6] + es[6..]);
    RunThree(h, s, es[..3]);
    RunAppend(h, Run(h, s, es[..3]), es[3..6], es[6..]);
    RunThree(h, Run(h, s, es[..3]), es[3..6]);
    RunThree(h, Run(h, Run(h, s, es[..3]), es[3..6]), es[6..]);
  }

  lemma {:induction false} RunAppend(h: string -> string, s: State, a: seq<Event>, b: seq<Event>)
    ensures Run(h, s, a + b) == Run(h, Run(h, s, a), b)
    decreases |a|
  {
    if a == [] {
      assert a + b == b;
    } else {
      assert (a + b)[1..] == a[1..] + b;
      RunAppend(h, Next(h, s, a[0]), a[1..], b);
    }
  }

  lemma {:induction false} CompletesPrefix(h: string -> string, s: State, es: seq<Event>, k: nat)
    requires k < |es|
    ensures Completes(h, s, es) ==>
              var t := Run(h, s, es[..k]);
              !(es[k].Abort? && t.phase.Rotating? && t.phase.saved)
    decreases k
  {
    if k > 0 {
      assert es[..k][1..] == es[1..][..k - 1];
      CompletesPrefix(h, Next(h, s, es[0]), es[1..], k - 1);
    }
  }
}
