/** Which hash rows outlive their two generations. */
module HashGenerations {
  import opened PepperRotation

  predicate Generated(p: string) {
    p == "" || |p| == PEPPER_LENGTH
  }

  /** A pepper that is stored, waits for its delete, or is being built. */
  predicate Kept(s: State, p: string) {
    || p == s.db.pepper || p == s.db.previous || p in s.drops
    || (s.phase.Rotating? && p == s.phase.newPepper)
  }

  /** A pepper of the past that no key names and no delete is pending for. */
  predicate Stale(s: State, p: string) {
    p in s.used && !Kept(s, p)
  }

  predicate TidyKeys(s: State) {
    && Generated(s.db.pepper) && Generated(s.db.previous)
    && s.db.pepper in s.used && s.db.previous in s.used && s.drops <= s.used && "" !in s.drops && "" in s.used
    && (s.phase.Rotating? ==>
          && s.phase.current == s.db.pepper && |s.phase.newPepper| == PEPPER_LENGTH && s.phase.newPepper in s.used
          && s.phase.newPepper !in {s.db.pepper, s.db.previous} + s.drops
          && (s.phase.saved ==> s.db.previous == s.db.pepper))
  }

  /** Rows and writers have peppers that were generated. */
  predicate Tidy(s: State) {
    && TidyKeys(s)
    && (forall p :: p in s.writers ==> p in s.used)
    && (forall k :: k in s.db.hashes ==> s.db.hashes[k].pepper in s.used)
  }

  lemma StepKeepsTidyKeys(h: string -> string, s: State, e: Event)
    requires TidyKeys(s)
    ensures TidyKeys(Next(h, s, e)) && s.used <= Next(h, s, e).used
  {
  }

  /** Where a row after a step comes from: it was there, or the step inserted it. */
  lemma RowOrigin(h: string -> string, s: State, e: Event, k: string)
    requires k in Next(h, s, e).db.hashes
    ensures var p := Next(h, s, e).db.hashes[k].pepper;
            || (k in s.db.hashes && s.db.hashes[k].pepper == p && !(e.Drop? && e.pepper in s.drops && p == e.pepper))
            || (e.Insert? && Enabled(h, s, e) && p == s.phase.newPepper)
            || (Accepted(h, s, e) && p == e.pepper)
  {
  }

  lemma RowStays(h: string -> string, s: State, e: Event, k: string)
    requires k in s.db.hashes && !e.Unbind? && !(e.Drop? && e.pepper in s.drops && s.db.hashes[k].pepper == e.pepper)
    ensures k in Next(h, s, e).db.hashes && Next(h, s, e).db.hashes[k].pepper == s.db.hashes[k].pepper
  {
  }

  lemma RowInserted(h: string -> string, s: State, e: Event)
    requires Accepted(h, s, e)
    ensures var k := Key(h, e.entry, e.pepper);
            k in Next(h, s, e).db.hashes && Next(h, s, e).db.hashes[k].pepper == e.pepper
  {
  }

  lemma StepKeepsTidy(h: string -> string, s: State, e: Event)
    requires Tidy(s)
    ensures Tidy(Next(h, s, e))
  {
    var t := Next(h, s, e);
    StepKeepsTidyKeys(h, s, e);
    forall p | p in t.writers ensures p in t.used {
      assert p in s.writers || (e.Read? && p == s.db.pepper);
    }
    forall k | k in t.db.hashes ensures t.db.hashes[k].pepper in t.used {
      RowOrigin(h, s, e, k);
    }
  }

  lemma {:induction false} RunKeepsTidy(h: string -> string, s: State, es: seq<Event>)
    requires Tidy(s)
    ensures Tidy(Run(h, s, es))
    decreases |es|
  {
    if es != [] {
      StepKeepsTidy(h, s, es[0]);
      RunKeepsTidy(h, Next(h, s, es[0]), es[1..]);
    }
  }

  lemma InitTidy()
    ensures Tidy(Init())
  {
  }

  // ---------------------------------------------------------------------------
  // Stale rows stay
  // ---------------------------------------------------------------------------

  /** An update or bind inserts its row: the primary key lets it through. */
  predicate Accepted(h: string -> string, s: State, e: Event) {
    e.Write? && e.pepper in s.writers && Key(h, e.entry, e.pepper) !in s.db.hashes
  }

  predicate NoUnbind(es: seq<Event>) {
    forall e :: e in es ==> !e.Unbind?
  }

  lemma StaleStays(h: string -> string, s: State, e: Event, p: string)
    requires TidyKeys(s) && Stale(s, p)
    ensures Stale(Next(h, s, e), p)
  {
  }

  /** The row under this key, its pepper and its user. */
  predicate Holds(s: State, k: string, p: string, value: string) {
    k in s.db.hashes && s.db.hashes[k].pepper == p && s.db.hashes[k].value == value
  }

  lemma StaleRowStays(h: string -> string, s: State, e: Event, k: string, p: string, value: string)
    requires Holds(s, k, p, value) && Stale(s, p) && !(e.Unbind? && e.value == value)
    ensures Holds(Next(h, s, e), k, p, value)
  {
  }

  /** A row under a stale pepper outlives every later run that does not unbind its user. */
  lemma {:induction false} StaleRowsStay(h: string -> string, s: State, es: seq<Event>, k: string, p: string,
      value: string)
    requires Tidy(s) && Stale(s, p) && Holds(s, k, p, value)
    requires forall e :: e in es && e.Unbind? ==> e.value != value
    ensures Stale(Run(h, s, es), p) && Holds(Run(h, s, es), k, p, value)
    decreases |es|
  {
    hide Next, Stale, Holds, TidyKeys;
    if es != [] {
      assert es[0] in es;
      assert forall e :: e in es[1..] ==> e in es;
      StepKeepsTidy(h, s, es[0]);
      StaleStays(h, s, es[0], p);
      StaleRowStays(h, s, es[0], k, p, value);
      StaleRowsStay(h, Next(h, s, es[0]), es[1..], k, p, value);
    }
  }

  predicate Outside(s: State, k: string) {
    k in s.db.hashes && s.db.hashes[k].pepper !in {s.db.pepper, s.db.previous}
  }

  /** Between rotations, an accepted insert leaves a row outside the two stored generations at the end of every
      later run exactly when its pepper is stale. */
  lemma InsertIsStrandedExactly(h: string -> string, s: State, p: string, x: Entry)
    requires Tidy(s) && s.phase.Idle? && Accepted(h, s, Write(p, x))
    ensures var t := Next(h, s, Write(p, x));
            (forall es :: NoUnbind(es) ==> Outside(Run(h, t, es), Key(h, x, p))) <==> Stale(s, p)
  {
    var t, k := Next(h, s, Write(p, x)), Key(h, x, p);
    if Stale(s, p) {
      StepKeepsTidy(h, s, Write(p, x));
      forall es | NoUnbind(es) ensures Outside(Run(h, t, es), k) {
        StaleRowsStay(h, t, es, k, p, x.value);
      }
    } else {
      assert Run(h, t, []) == t;
      assert NoUnbind([]);
      if p in s.drops {
        assert [Drop(p)][1..] == [];
        assert Run(h, t, [Drop(p)]) == Next(h, t, Drop(p));
        assert k !in Next(h, t, Drop(p)).db.hashes;
        assert NoUnbind([Drop(p)]);
        assert !Outside(Run(h, t, [Drop(p)]), k);
      } else {
        assert !Outside(Run(h, t, []), k);
      }
    }
  }

  // ---------------------------------------------------------------------------
  // Every way to strand a row
  // ---------------------------------------------------------------------------

  predicate Under(hashes: map<string, Row>, p: string) {
    exists k :: k in hashes && hashes[k].pepper == p
  }

  predicate StaleRow(s: State) {
    exists k :: k in s.db.hashes && Stale(s, s.db.hashes[k].pepper)
  }

  /** The steps that strand rows: an insert under a stale pepper, the failure of a rotation that has inserted
      some, and the overwriting of a previous pepper that has rows and no delete pending. */
  predicate Strands(h: string -> string, s: State, e: Event) {
    match e
    case Write(p, _) => Accepted(h, s, e) && Stale(s, p)
    case Abort => s.phase.Rotating? && Under(s.db.hashes, s.phase.newPepper)
    case SavePrevious =>
      && Enabled(h, s, e) && s.db.previous != s.db.pepper && s.db.previous !in s.drops
      && Under(s.db.hashes, s.db.previous)
    case _ => false
  }

  predicate StrandsIn(h: string -> string, s: State, es: seq<Event>)
    decreases |es|
  {
    es != [] && (Strands(h, s, es[0]) || StrandsIn(h, Next(h, s, es[0]), es[1..]))
  }

  lemma StepStrands(h: string -> string, s: State, e: Event)
    requires Tidy(s)
    ensures StaleRow(Next(h, s, e)) ==> StaleRow(s) || Strands(h, s, e)
    ensures !e.Unbind? && (StaleRow(s) || Strands(h, s, e)) ==> StaleRow(Next(h, s, e))
  {
    var t := Next(h, s, e);
    if k :| k in t.db.hashes && Stale(t, t.db.hashes[k].pepper) {
      RowOrigin(h, s, e, k);
      NewlyStale(h, s, e, t.db.hashes[k].pepper);
    }
    if !e.Unbind? {
      if k :| k in s.db.hashes && Stale(s, s.db.hashes[k].pepper) {
        StaleStays(h, s, e, s.db.hashes[k].pepper);
        assert k in t.db.hashes && t.db.hashes[k].pepper == s.db.hashes[k].pepper;
      }
      if Strands(h, s, e) {
        StrandedRow(h, s, e);
      }
    }
  }

  /** When a pepper goes stale. */
  lemma NewlyStale(h: string -> string, s: State, e: Event, p: string)
    requires TidyKeys(s) && Stale(Next(h, s, e), p)
    ensures || Stale(s, p) || (e.Drop? && e.pepper in s.drops && p == e.pepper)
            || (e.Abort? && s.phase.Rotating? && p == s.phase.newPepper)
            || (e.SavePrevious? && Enabled(h, s, e) && p == s.db.previous && p != s.db.pepper && p !in s.drops)
  {
  }

  lemma StrandedRow(h: string -> string, s: State, e: Event)
    requires Tidy(s) && Strands(h, s, e)
    ensures StaleRow(Next(h, s, e))
  {
    var t := Next(h, s, e);
    match e
    case Write(p, x) =>
      assert Key(h, x, p) in t.db.hashes && t.db.hashes[Key(h, x, p)].pepper == p;
    case Abort =>
      var k :| k in s.db.hashes && s.db.hashes[k].pepper == s.phase.newPepper;
      assert Stale(t, t.db.hashes[k].pepper);
    case SavePrevious =>
      var k :| k in s.db.hashes && s.db.hashes[k].pepper == s.db.previous;
      assert Stale(t, t.db.hashes[k].pepper);
  }

  lemma {:induction false} RunStrands(h: string -> string, s: State, es: seq<Event>)
    requires Tidy(s)
    ensures StaleRow(Run(h, s, es)) ==> StaleRow(s) || StrandsIn(h, s, es)
    ensures NoUnbind(es) && (StaleRow(s) || StrandsIn(h, s, es)) ==> StaleRow(Run(h, s, es))
    decreases |es|
  {
    hide StaleRow, Strands, Tidy, Next;
    if es != [] {
      assert es[0] in es;
      assert forall e :: e in es[1..] ==> e in es;
      StepKeepsTidy(h, s, es[0]);
      StepStrands(h, s, es[0]);
      RunStrands(h, Next(h, s, es[0]), es[1..]);
    }
  }

  /** From empty tables, whenever no rotation is under way and its delete has been applied: a run without
      unbinds, failed rotations included, has left a row outside the two stored generations exactly when one of
      its steps stranded it. */
  lemma OutsideExactlyWhenStranded(h: string -> string, es: seq<Event>)
    requires NoUnbind(es) && Run(h, Init(), es).phase.Idle? && Run(h, Init(), es).drops == {}
    ensures (exists k :: Outside(Run(h, Init(), es), k)) <==> StrandsIn(h, Init(), es)
  {
    var s := Run(h, Init(), es);
    InitTidy();
    RunKeepsTidy(h, Init(), es);
    RunStrands(h, Init(), es);
    if k :| Outside(s, k) {
      assert Stale(s, s.db.hashes[k].pepper);
    }
    if k :| k in s.db.hashes && Stale(s, s.db.hashes[k].pepper) {
      assert Outside(s, k);
    }
  }

  // ---------------------------------------------------------------------------
  // The same, said of the writes alone
  // ---------------------------------------------------------------------------

  /** A stale pepper, or the one that a rotation under way has already dropped and is about to overwrite. */
  predicate Lost(s: State, p: string) {
    || Stale(s, p)
    || (s.phase.Rotating? && !s.phase.saved && p == s.db.previous && p != s.db.pepper && p !in s.drops)
  }

  predicate LostWrite(h: string -> string, s: State, e: Event) {
    Accepted(h, s, e) && e.pepper != "" && Lost(s, e.pepper)
  }

  predicate LosesWrite(h: string -> string, s: State, es: seq<Event>)
    decreases |es|
  {
    es != [] && (LostWrite(h, s, es[0]) || LosesWrite(h, Next(h, s, es[0]), es[1..]))
  }

  predicate EmptyWrite(h: string -> string, s: State, e: Event) {
    Accepted(h, s, e) && e.pepper == ""
  }

  predicate WritesUnderEmpty(h: string -> string, s: State, es: seq<Event>)
    decreases |es|
  {
    es != [] && (EmptyWrite(h, s, es[0]) || WritesUnderEmpty(h, Next(h, s, es[0]), es[1..]))
  }

  predicate LostRow(s: State) {
    exists k :: k in s.db.hashes && s.db.hashes[k].pepper != "" && Lost(s, s.db.hashes[k].pepper)
  }

  lemma LostStays(h: string -> string, s: State, e: Event, p: string)
    requires TidyKeys(s) && p in s.used && !e.Abort?
    ensures Lost(s, p) ==> Lost(Next(h, s, e), p)
    ensures Lost(Next(h, s, e), p) && p != "" ==> Lost(s, p) || (e.Drop? && e.pepper in s.drops && p == e.pepper)
  {
  }

  lemma StepLoses(h: string -> string, s: State, e: Event)
    requires Tidy(s) && !e.Abort?
    ensures LostRow(Next(h, s, e)) ==> LostRow(s) || LostWrite(h, s, e)
    ensures !e.Unbind? && (LostRow(s) || LostWrite(h, s, e)) ==> LostRow(Next(h, s, e))
  {
    hide Lost, Next;
    var t := Next(h, s, e);
    if k :| k in t.db.hashes && t.db.hashes[k].pepper != "" && Lost(t, t.db.hashes[k].pepper) {
      var p := t.db.hashes[k].pepper;
      RowOrigin(h, s, e, k);
      if e.Insert? && Enabled(h, s, e) && p == s.phase.newPepper {
        BuiltIsNotLost(s);
      }
      LostStays(h, s, e, p);
    }
    if !e.Unbind? {
      if k :| k in s.db.hashes && s.db.hashes[k].pepper != "" && Lost(s, s.db.hashes[k].pepper) {
        var p := s.db.hashes[k].pepper;
        LostStays(h, s, e, p);
        if e.Drop? && e.pepper in s.drops {
          DroppedIsNotLost(s, e.pepper);
        }
        RowStays(h, s, e, k);
      }
      if LostWrite(h, s, e) {
        LostStays(h, s, e, e.pepper);
        RowInserted(h, s, e);
      }
    }
  }

  lemma BuiltIsNotLost(s: State)
    requires TidyKeys(s) && s.phase.Rotating?
    ensures !Lost(s, s.phase.newPepper)
  {
  }

  lemma DroppedIsNotLost(s: State, p: string)
    requires p in s.drops
    ensures !Lost(s, p)
  {
  }

  lemma StepUnderEmpty(h: string -> string, s: State, e: Event)
    requires Tidy(s)
    ensures Under(Next(h, s, e).db.hashes, "") ==> Under(s.db.hashes, "") || EmptyWrite(h, s, e)
    ensures !e.Unbind? && (Under(s.db.hashes, "") || EmptyWrite(h, s, e)) ==> Under(Next(h, s, e).db.hashes, "")
  {
    hide Next;
    if k :| k in Next(h, s, e).db.hashes && Next(h, s, e).db.hashes[k].pepper == "" {
      RowOrigin(h, s, e, k);
    }
    if !e.Unbind? {
      if k :| k in s.db.hashes && s.db.hashes[k].pepper == "" {
        RowStays(h, s, e, k);
      }
      if EmptyWrite(h, s, e) {
        RowInserted(h, s, e);
      }
    }
  }

  lemma {:induction false} RunLoses(h: string -> string, s: State, es: seq<Event>)
    requires Tidy(s) && forall e :: e in es ==> !e.Abort?
    ensures var t := Run(h, s, es);
            && (LostRow(t) ==> LostRow(s) || LosesWrite(h, s, es))
            && (Under(t.db.hashes, "") ==> Under(s.db.hashes, "") || WritesUnderEmpty(h, s, es))
    ensures var t := Run(h, s, es);
            NoUnbind(es) ==>
              && (LostRow(s) || LosesWrite(h, s, es) ==> LostRow(t))
              && (Under(s.db.hashes, "") || WritesUnderEmpty(h, s, es) ==> Under(t.db.hashes, ""))
    decreases |es|
  {
    hide LostRow, LostWrite, EmptyWrite, Under, Tidy, Next;
    if es != [] {
      assert es[0] in es;
      assert forall e :: e in es[1..] ==> e in es;
      StepKeepsTidy(h, s, es[0]);
      StepLoses(h, s, es[0]);
      StepUnderEmpty(h, s, es[0]);
      RunLoses(h, Next(h, s, es[0]), es[1..]);
    }
  }

  /** What the writes of a run must keep to: none under a lost pepper, and none under the initial empty pepper
      unless that is still stored in the end. */
  predicate WritesInTime(h: string -> string, es: seq<Event>) {
    && !LosesWrite(h, Init(), es)
    && (WritesUnderEmpty(h, Init(), es) ==> "" in {Run(h, Init(), es).db.pepper, Run(h, Init(), es).db.previous})
  }

  /** From empty tables, in every run whose rotations complete, whenever none is under way and its delete has been
      applied: every hash row belongs to the stored `pepper` or `previousPepper` if the writes kept to their time,
      and, without unbinds, only then. */
  lemma TwoGenerations(h: string -> string, es: seq<Event>)
    requires forall e :: e in es ==> !e.Abort?
    requires Run(h, Init(), es).phase.Idle? && Run(h, Init(), es).drops == {}
    ensures WritesInTime(h, es) ==> forall k :: !Outside(Run(h, Init(), es), k)
    ensures NoUnbind(es) ==> (WritesInTime(h, es) <==> forall k :: !Outside(Run(h, Init(), es), k))
  {
    var s := Run(h, Init(), es);
    InitTidy();
    RunKeepsTidy(h, Init(), es);
    RunLoses(h, Init(), es);
    forall k | Outside(s, k)
      ensures if s.db.hashes[k].pepper == "" then Under(s.db.hashes, "") else LostRow(s)
    {
      assert Stale(s, s.db.hashes[k].pepper);
    }
    if k :| k in s.db.hashes && s.db.hashes[k].pepper != "" && Lost(s, s.db.hashes[k].pepper) {
      assert Outside(s, k);
    }
    if k :| k in s.db.hashes && s.db.hashes[k].pepper == "" {
      assert "" !in {s.db.pepper, s.db.previous} ==> Outside(s, k);
    }
  }

  /** No update or bind that read its pepper before the last publication is still running when a rotation
      begins. */
  predicate Prompt(h: string -> string, s: State, es: seq<Event>)
    decreases |es|
  {
    es == [] ||
    (&& (es[0].Begin? ==> forall p :: p in s.writers ==> p == s.db.pepper)
     && Prompt(h, Next(h, s, es[0]), es[1..]))
  }

  predicate NotOld(s: State, p: string) {
    p == s.db.pepper || (s.phase.Idle? && p == s.db.previous)
  }

  predicate NoOldWriter(s: State) {
    forall p :: p in s.writers ==> NotOld(s, p)
  }

  lemma StepKeepsWriters(h: string -> string, s: State, e: Event)
    requires TidyKeys(s) && NoOldWriter(s) && !e.Abort?
    requires e.Begin? ==> forall p :: p in s.writers ==> p == s.db.pepper
    ensures NoOldWriter(Next(h, s, e)) && !LostWrite(h, s, e)
  {
    var t := Next(h, s, e);
    forall p | p in t.writers ensures NotOld(t, p) {
      assert p in s.writers || (e.Read? && p == s.db.pepper);
    }
  }

  /** Prompt writers lose nothing. */
  lemma {:induction false} PromptWritersLoseNothing(h: string -> string, s: State, es: seq<Event>)
    requires Tidy(s) && Prompt(h, s, es) && NoOldWriter(s) && forall e :: e in es ==> !e.Abort?
    ensures !LosesWrite(h, s, es)
    decreases |es|
  {
    hide Next, LostWrite, NoOldWriter, TidyKeys;
    if es != [] {
      assert es[0] in es;
      assert forall e :: e in es[1..] ==> e in es;
      StepKeepsWriters(h, s, es[0]);
      StepKeepsTidy(h, s, es[0]);
      PromptWritersLoseNothing(h, Next(h, s, es[0]), es[1..]);
    }
  }

  // ---------------------------------------------------------------------------
  // The generation that becomes the previous one
  // ---------------------------------------------------------------------------

  function RowsOf(hashes: map<string, Row>, pepper: string): map<string, Row> {
    map k | k in hashes && hashes[k].pepper == pepper :: hashes[k]
  }

  /** What may happen during a rotation besides its own statements, without touching the rows of `p`. */
  predicate LeavesAlone(e: Event, p: string) {
    !e.Begin? && !e.Publish? && !e.Abort? && !e.Activate? && !e.Unbind? && (e.Write? ==> e.pepper != p)
  }

  lemma {:induction false} RotationKeepsRows(h: string -> string, s: State, es: seq<Event>, p: string)
    requires Inv(h, s) && s.phase.Rotating? && s.db.pepper == p
    requires forall e :: e in es ==> LeavesAlone(e, p)
    ensures var t := Run(h, s, es);
            && Inv(h, t) && t.phase.Rotating? && t.db.pepper == p
            && RowsOf(t.db.hashes, p) == RowsOf(s.db.hashes, p)
    decreases |es|
  {
    if es != [] {
      assert es[0] in es;
      StepKeepsInv(h, s, es[0]);
      StepKeepsRows(h, s, es[0], p);
      RotationKeepsRows(h, Next(h, s, es[0]), es[1..], p);
    }
  }

  lemma StepKeepsRows(h: string -> string, s: State, e: Event, p: string)
    requires Inv(h, s) && s.phase.Rotating? && s.db.pepper == p && LeavesAlone(e, p)
    ensures var t := Next(h, s, e);
            t.phase.Rotating? && t.db.pepper == p && RowsOf(t.db.hashes, p) == RowsOf(s.db.hashes, p)
  {
    var before, after := s.db.hashes, Next(h, s, e).db.hashes;
    forall k ensures k in RowsOf(after, p) <==> k in RowsOf(before, p) {
    }
  }

  /** A whole rotation, from its beginning to its publication, ends with the pepper it found as the previous one
      and that generation's rows exactly as they were. */
  lemma RotationLeavesCurrentRows(h: string -> string, s: State, newPepper: string, entries: set<Entry>, es: seq<Event>)
    requires Inv(h, s) && Enabled(h, s, Begin(newPepper, entries))
    requires forall e :: e in es ==> LeavesAlone(e, s.db.pepper)
    requires Enabled(h, Run(h, Next(h, s, Begin(newPepper, entries)), es), Publish)
    ensures var u := Next(h, Run(h, Next(h, s, Begin(newPepper, entries)), es), Publish);
            u.db.previous == s.db.pepper && RowsOf(u.db.hashes, u.db.previous) == RowsOf(s.db.hashes, s.db.pepper)
  {
    var begun := Next(h, s, Begin(newPepper, entries));
    StepKeepsInv(h, s, Begin(newPepper, entries));
    RotationKeepsRows(h, begun, es, s.db.pepper);
  }

  // ---------------------------------------------------------------------------
  // Two such runs
  // ---------------------------------------------------------------------------

  /** A row written under the initial empty pepper is never dropped: two rotations later it stands under
      neither key. */
  lemma EmptyPepperLeavesStaleRow(h: string -> string, p: string, q: string, e: Entry)
    requires |p| == |q| == 32 && p != q
    ensures var es := [Read, Write("", e), Finish(""), Begin(p, {}), SavePrevious, Publish,
                       Begin(q, {}), SavePrevious, Publish];
            var s := Run(h, Init(), es);
            s.phase.Idle? && s.drops == {} && Outside(s, Key(h, e, "")) && s.db.hashes[Key(h, e, "")].pepper == ""
  {
    var rows := map[Key(h, e, "") := Row("", e.kind, e.value, e.active)];
    var first, second := [Begin(p, {}), SavePrevious, Publish], [Begin(q, {}), SavePrevious, Publish];
    EarlyWrite(h, e, rows);
    FirstRotation(h, p, rows);
    SecondRotation(h, p, q, rows);
    hide Run, Next;
    RunAppend(h, Init(), [Read, Write("", e), Finish("")], first);
    RunAppend(h, Init(), [Read, Write("", e), Finish("")] + first, second);
    assert [Read, Write("", e), Finish("")] + first + second ==
           [Read, Write("", e), Finish(""), Begin(p, {}), SavePrevious, Publish, Begin(q, {}), SavePrevious, Publish];
  }

  lemma EarlyWrite(h: string -> string, e: Entry, rows: map<string, Row>)
    requires rows == map[Key(h, e, "") := Row("", e.kind, e.value, e.active)]
    ensures Run(h, Init(), [Read, Write("", e), Finish("")]) ==
            State(Db("", "", rows), Idle, {}, multiset{}, {""}, {}, {})
  {
    RunThree(h, Init(), [Read, Write("", e), Finish("")]);
    assert "" in multiset{""} && multiset{} + multiset{""} == multiset{""} && multiset{""} - multiset{""} == multiset{};
  }

  lemma FirstRotation(h: string -> string, p: string, rows: map<string, Row>)
    requires |p| == 32
    ensures Run(h, State(Db("", "", rows), Idle, {}, multiset{}, {""}, {}, {}),
                [Begin(p, {}), SavePrevious, Publish]) ==
            State(Db(p, "", rows), Idle, {}, multiset{}, {"", p}, {}, {})
  {
    RunThree(h, State(Db("", "", rows), Idle, {}, multiset{}, {""}, {}, {}), [Begin(p, {}), SavePrevious, Publish]);
    assert {""} + {p} == {"", p};
  }

  lemma SecondRotation(h: string -> string, p: string, q: string, rows: map<string, Row>)
    requires |p| == |q| == 32 && p != q
    ensures Run(h, State(Db(p, "", rows), Idle, {}, multiset{}, {"", p}, {}, {}),
                [Begin(q, {}), SavePrevious, Publish]) ==
            State(Db(q, p, rows), Idle, {}, multiset{}, {"", p, q}, {}, {})
  {
    RunThree(h, State(Db(p, "", rows), Idle, {}, multiset{}, {"", p}, {}, {}), [Begin(q, {}), SavePrevious, Publish]);
    assert {"", p} + {q} == {"", p, q};
  }

  /** An update that read its pepper two rotations ago leaves a row that no rotation will drop. */
  lemma SlowWriterLeavesStaleRow(h: string -> string, p: string, q: string, r: string, e: Entry)
    requires |p| == |q| == |r| == 32 && p != q && q != r && p != r
    ensures var es := [Begin(p, {}), SavePrevious, Publish, Read, Begin(q, {}), SavePrevious, Publish,
                       Begin(r, {}), SavePrevious, Drop(p), Publish, Write(p, e)];
            var s := Run(h, Init(), es);
            s.phase.Idle? && s.drops == {} && Key(h, e, p) in s.db.hashes &&
            s.db.hashes[Key(h, e, p)].pepper !in {s.db.pepper, s.db.previous}
  {
    var a, b, c, d := [Begin(p, {}), SavePrevious, Publish], [Read, Begin(q, {}), SavePrevious],
                      [Publish, Begin(r, {}), SavePrevious], [Drop(p), Publish, Write(p, e)];
    SlowFirst(h, p);
    SlowSecond(h, p, q);
    SlowThird(h, p, q, r);
    SlowLast(h, p, q, r, e);
    hide Run, Next;
    RunAppend(h, Init(), a, b);
    RunAppend(h, Init(), a + b, c);
    RunAppend(h, Init(), a + b + c, d);
    assert a + b + c + d == [Begin(p, {}), SavePrevious, Publish, Read, Begin(q, {}), SavePrevious, Publish,
                             Begin(r, {}), SavePrevious, Drop(p), Publish, Write(p, e)];
  }

  function AfterFirst(p: string): State {
    State(Db(p, "", map[]), Idle, {}, multiset{}, {"", p}, {}, {})
  }

  function AfterSecond(p: string, q: string): State {
    State(Db(p, p, map[]), Rotating(p, q, true, {}), {}, multiset{p}, {"", p, q}, {}, {})
  }

  function AfterThird(p: string, q: string, r: string): State {
    State(Db(q, q, map[]), Rotating(q, r, true, {}), {p}, multiset{p}, {"", p, q, r}, {}, {})
  }

  lemma SlowFirst(h: string -> string, p: string)
    requires |p| == 32
    ensures Run(h, Init(), [Begin(p, {}), SavePrevious, Publish]) == AfterFirst(p)
  {
    RunThree(h, Init(), [Begin(p, {}), SavePrevious, Publish]);
    assert {""} + {p} == {"", p};
  }

  lemma SlowSecond(h: string -> string, p: string, q: string)
    requires |p| == |q| == 32 && p != q
    ensures Run(h, AfterFirst(p), [Read, Begin(q, {}), SavePrevious]) == AfterSecond(p, q)
  {
    RunThree(h, AfterFirst(p), [Read, Begin(q, {}), SavePrevious]);
    assert {"", p} + {q} == {"", p, q};
    assert multiset{} + multiset{p} == multiset{p};
  }

  lemma SlowThird(h: string -> string, p: string, q: string, r: string)
    requires |p| == |q| == |r| == 32 && p != q && q != r && p != r
    ensures Run(h, AfterSecond(p, q), [Publish, Begin(r, {}), SavePrevious]) == AfterThird(p, q, r)
  {
    RunThree(h, AfterSecond(p, q), [Publish, Begin(r, {}), SavePrevious]);
    assert {"", p, q} + {r} == {"", p, q, r};
    assert {} + {p} == {p};
  }

  lemma SlowLast(h: string -> string, p: string, q: string, r: string, e: Entry)
    requires |p| == |q| == |r| == 32 && p != q && q != r && p != r
    ensures var s := Run(h, AfterThird(p, q, r), [Drop(p), Publish, Write(p, e)]);
            s.phase.Idle? && s.drops == {} && Key(h, e, p) in s.db.hashes &&
            s.db.hashes[Key(h, e, p)].pepper !in {s.db.pepper, s.db.previous}
  {
    RunThree(h, AfterThird(p, q, r), [Drop(p), Publish, Write(p, e)]);
    assert {p} - {p} == {};
    assert p in multiset{p};
  }
}
