/** The state in which a closed connector comes to rest. */
module AmqpShutdown {
  import opened AmqpProtocol
  import opened AmqpReconnect
  import opened Options

  // ---------------------------------------------------------------------------
  // Which suspended calls will be, or may be, rejected
  // ---------------------------------------------------------------------------

  /** The call will connect or create a channel when it goes on. */
  predicate Starts(t: Task) {
    t.pc.Connect? || t.pc == Setup(0)
  }

  /** No channel, and no suspended call that creates one: every later step of setupChannel throws. */
  predicate Dead(s: State) {
    s.channel.None? && forall t :: t in s.tasks ==> !Starts(t)
  }

  /** A reconnection attempt on its way to the callback that schedules the next one. */
  predicate WillReject(t: Task, dead: bool) {
    match t.pc
    case Rejected => true
    case Connect => false
    case Setup(_) => t.kind.Attempt? && dead
    case Settled(ok) => t.kind.Attempt? && !ok
    case Cancelling(failed) => t.kind.Attempt? && failed
    case ClosingChannel(failed) => t.kind.Attempt? && failed
    case ClosingConnection(failed) => t.kind.Attempt? && failed
    case Cleaned(failed) => t.kind.Attempt? && failed
  }

  predicate CanReject(t: Task) {
    WillReject(t, true) || (t.kind.Attempt? && t.pc.Connect?)
  }

  function Count(ts: seq<Task>, dead: bool): nat {
    if ts == [] then 0 else (if WillReject(ts[0], dead) then 1 else 0) + Count(ts[1..], dead)
  }

  /** The attempts that will be rejected whatever the server answers. */
  function Rejections(s: State): nat {
    Count(s.tasks, Dead(s))
  }

  predicate SomeCanReject(ts: seq<Task>) {
    exists i :: 0 <= i < |ts| && CanReject(ts[i])
  }

  /** Some attempt can still be rejected, and the retries last for all that will be. */
  predicate MayReconnect(c: Config, s: State) {
    SomeCanReject(s.tasks) &&
    (c.maxRetries == 0 || s.attempts + (if Rejections(s) == 0 then 1 else Rejections(s)) <= c.maxRetries)
  }

  function One(t: Task, dead: bool): nat {
    if WillReject(t, dead) then 1 else 0
  }

  lemma {:induction false} CountUpdate(ts: seq<Task>, i: nat, t: Task, dead: bool)
    requires i < |ts|
    ensures Count(ts[i := t], dead) == Count(ts, dead) - One(ts[i], dead) + One(t, dead)
    ensures Count(ts[..i] + ts[i + 1..], dead) == Count(ts, dead) - One(ts[i], dead)
  {
    if i == 0 {
      assert ts[i := t][1..] == ts[1..];
      assert ts[..i] + ts[i + 1..] == ts[1..];
    } else {
      CountUpdate(ts[1..], i - 1, t, dead);
      assert ts[i := t][1..] == ts[1..][i - 1 := t];
      assert (ts[..i] + ts[i + 1..])[1..] == ts[1..][..i - 1] + ts[1..][i..];
    }
  }

  lemma {:induction false} CountAdd(ts: seq<Task>, t: Task, dead: bool)
    ensures Count(ts + [t], dead) == Count(ts, dead) + One(t, dead)
  {
    if ts == [] {
      assert ts + [t] == [t];
    } else {
      CountAdd(ts[1..], t, dead);
      assert (ts + [t])[1..] == ts[1..] + [t];
    }
  }

  lemma {:induction false} CountGrows(ts: seq<Task>)
    ensures Count(ts, false) <= Count(ts, true)
    ensures (forall i :: 0 <= i < |ts| ==> !ts[i].pc.Setup?) ==> Count(ts, false) == Count(ts, true)
  {
    if ts != [] {
      CountGrows(ts[1..]);
    }
  }

  lemma {:induction false} CountPositive(ts: seq<Task>, dead: bool)
    ensures Count(ts, dead) > 0 <==> exists i :: 0 <= i < |ts| && WillReject(ts[i], dead)
  {
    hide WillReject;
    if ts != [] {
      CountPositive(ts[1..], dead);
      if i :| 0 <= i < |ts| && WillReject(ts[i], dead) {
        assert i > 0 ==> WillReject(ts[1..][i - 1], dead);
      }
      if i :| 0 <= i < |ts[1..]| && WillReject(ts[1..][i], dead) {
        assert WillReject(ts[i + 1], dead);
      }
    }
  }

  // ---------------------------------------------------------------------------
  // What one step changes
  // ---------------------------------------------------------------------------

  /** A call that ends without any way to be rejected, or that moves on and keeps what lies ahead of it. */
  predicate MovesOn(s: State, t: State, i: nat, dead: bool)
    requires i < |s.tasks|
  {
    && t.closing && t.attempts == s.attempts && (t.mode == s.mode || t.mode.Disconnected?)
    && ((t.tasks == s.tasks[..i] + s.tasks[i + 1..] && t.channel == s.channel
         && !CanReject(s.tasks[i]) && !WillReset(s.tasks[i]))
        || (|t.tasks| == |s.tasks| && t.tasks == s.tasks[i := t.tasks[i]]
            && (t.channel.Some? ==> s.channel.Some? || Starts(s.tasks[i]))
            && (Starts(t.tasks[i]) ==> Starts(s.tasks[i]))
            && (CanReject(t.tasks[i]) ==> CanReject(s.tasks[i]))
            && (WillReject(s.tasks[i], dead) ==> WillReject(t.tasks[i], dead))
            && (WillReset(s.tasks[i]) ==> WillReset(t.tasks[i]) || t.mode.Disconnected?)))
  }

  lemma CleanupMovesOn(s: State, i: nat, failed: bool, dead: bool)
    requires s.closing && i < |s.tasks| && !s.tasks[i].kind.Recreate?
    requires if failed then CanReject(s.tasks[i]) || !s.tasks[i].kind.Attempt? else !WillReject(s.tasks[i], dead)
    requires !s.tasks[i].pc.Rejected?
    ensures MovesOn(s, BeginCleanup(s, i, failed), i, dead)
  {
  }

  lemma SetupMovesOn(s: State, i: nat, ok: bool, dead: bool)
    requires s.closing && i < |s.tasks| && s.tasks[i].pc.Setup?
    requires dead ==> s.channel.None? && !Starts(s.tasks[i])
    ensures MovesOn(s, ResumeSetup(s, i, ok), i, dead)
  {
  }

  lemma CancelMovesOn(s: State, i: nat, dead: bool)
    requires s.closing && i < |s.tasks| && s.tasks[i].pc.Cancelling? && !s.tasks[i].kind.Recreate?
    ensures MovesOn(s, AfterCancel(s, i, s.tasks[i].pc.failed), i, dead)
  {
  }

  /** What resuming a call changes after close, unless it is the callback that schedules. */
  lemma ResumeMovesOn(c: Config, s: State, i: nat, ok: bool, dead: bool)
    requires s.closing && Sane(s) && i < |s.tasks| && !s.tasks[i].pc.Rejected?
    requires dead ==> s.channel.None? && !Starts(s.tasks[i])
    ensures MovesOn(s, ResumeTask(c, s, i, ok), i, dead)
  {
    hide Schedule, BeginCleanup, ResumeSetup, AfterCancel, Establish;
    assert s.tasks[i] in s.tasks;
    match s.tasks[i].pc
    case Connect => if !ok { CleanupMovesOn(s, i, true, dead); }
    case Setup(_) => SetupMovesOn(s, i, ok, dead);
    case Settled(done) => if !s.tasks[i].kind.Recreate? { CleanupMovesOn(s, i, !done, dead); }
    case Cancelling(_) => CancelMovesOn(s, i, dead);
    case _ =>
  }

  // ---------------------------------------------------------------------------
  // When no attempt can be rejected in time, the connector ends Disconnected
  // ---------------------------------------------------------------------------

  predicate SomeWillReset(ts: seq<Task>) {
    exists i :: 0 <= i < |ts| && WillReset(ts[i])
  }

  /** What is still to come will set the state back to Disconnected. */
  predicate Calms(s: State) {
    s.mode.Disconnected? || Rejections(s) > 0 || SomeWillReset(s.tasks)
  }

  predicate Settling(c: Config, s: State) {
    s.closing && Sane(s) && !MayReconnect(c, s) && Calms(s)
  }

  /** A change that rejects no fewer attempts and opens no new way to be rejected. */
  lemma SettlingKept(c: Config, s: State, t: State)
    requires Settling(c, s) && t.closing && Sane(t) && t.attempts == s.attempts
    requires SomeCanReject(t.tasks) ==> SomeCanReject(s.tasks)
    requires Rejections(t) >= Rejections(s)
    requires t.mode.Disconnected? || (t.mode == s.mode && (SomeWillReset(s.tasks) ==> SomeWillReset(t.tasks)))
    ensures Settling(c, t)
  {
    hide SomeCanReject, SomeWillReset, Rejections;
  }

  lemma MoveKeepsOthers(ts: seq<Task>, i: nat, t: Task)
    requires i < |ts|
    ensures SomeCanReject(ts[i := t]) && !CanReject(t) ==> SomeCanReject(ts)
    ensures SomeCanReject(ts[i := t]) && CanReject(ts[i]) ==> SomeCanReject(ts)
    ensures SomeCanReject(ts[..i] + ts[i + 1..]) ==> SomeCanReject(ts)
    ensures SomeWillReset(ts) && !WillReset(ts[i]) ==> SomeWillReset(ts[i := t]) && SomeWillReset(ts[..i] + ts[i + 1..])
    ensures WillReset(t) ==> SomeWillReset(ts[i := t])
  {
    hide CanReject, WillReset;
    var rest := ts[..i] + ts[i + 1..];
    if SomeCanReject(ts[i := t]) {
      var j :| 0 <= j < |ts| && CanReject(ts[i := t][j]);
      assert j == i || CanReject(ts[j]);
    }
    if SomeCanReject(rest) {
      var j :| 0 <= j < |rest| && CanReject(rest[j]);
      assert rest[j] == ts[if j < i then j else j + 1];
    }
    if SomeWillReset(ts) && !WillReset(ts[i]) {
      var j :| 0 <= j < |ts| && WillReset(ts[j]);
      assert WillReset(ts[i := t][j]);
      assert WillReset(rest[if j < i then j else j - 1]);
    }
    if WillReset(t) {
      assert WillReset(ts[i := t][i]);
    }
  }

  lemma DeadKept(s: State, t: State, i: nat)
    requires i < |s.tasks|
    requires (t.tasks == s.tasks[..i] + s.tasks[i + 1..] && t.channel == s.channel) ||
             MovesOn(s, t, i, Dead(s))
    ensures Dead(s) ==> Dead(t)
  {
    if Dead(s) {
      assert s.tasks[i] in s.tasks;
      forall u | u in t.tasks ensures !Starts(u) {
        if u in s.tasks {
        } else {
          assert u == t.tasks[i];
        }
      }
    }
  }

  lemma ResumeKeepsSettling(c: Config, s: State, i: nat, ok: bool)
    requires Settling(c, s) && i < |s.tasks| && !s.tasks[i].pc.Rejected?
    ensures Settling(c, ResumeTask(c, s, i, ok))
  {
    hide ResumeTask, WillReject, WillReset, Starts, Count, CanReject, SomeCanReject, SomeWillReset, MayReconnect, Calms;
    var t := ResumeTask(c, s, i, ok);
    assert Dead(s) ==> !Starts(s.tasks[i]) by {
      assert s.tasks[i] in s.tasks;
    }
    ResumeMovesOn(c, s, i, ok, Dead(s));
    ResumeKeepsSane(c, s, i, ok);
    DeadKept(s, t, i);
    CountGrows(t.tasks);
    var moved := if |t.tasks| == |s.tasks| then t.tasks[i] else s.tasks[i];
    CountUpdate(s.tasks, i, moved, Dead(s));
    MoveKeepsOthers(s.tasks, i, moved);
    assert WillReject(s.tasks[i], Dead(s)) ==> CanReject(s.tasks[i]) by {
      WillRejectGrows(s.tasks[i]);
    }
    SettlingKept(c, s, t);
  }

  lemma WillRejectGrows(t: Task)
    ensures WillReject(t, false) ==> WillReject(t, true)
    ensures WillReject(t, true) ==> CanReject(t)
  {
  }

  lemma CanRejectAt(ts: seq<Task>, i: nat)
    requires i < |ts|
    ensures CanReject(ts[i]) ==> SomeCanReject(ts)
  {
  }

  /** The callback of a rejected attempt, after close. */
  lemma CallbackKeepsSettling(c: Config, s: State, i: nat, ok: bool)
    requires Settling(c, s) && i < |s.tasks| && s.tasks[i].pc.Rejected?
    ensures Settling(c, ResumeTask(c, s, i, ok))
  {
    hide WillReset, Starts, Count, SomeCanReject, SomeWillReset;
    var t := ResumeTask(c, s, i, ok);
    assert t == Schedule(c, EndTask(s, i));
    ResumeKeepsSane(c, s, i, ok);
    DeadKept(s, t, i);
    CountGrows(t.tasks);
    CountUpdate(s.tasks, i, s.tasks[i], Dead(s));
    MoveKeepsOthers(s.tasks, i, s.tasks[i]);
    CanRejectAt(s.tasks, i);
    assert Rejections(t) >= Rejections(s) - 1;
  }

  /** close adds its own cleanup and leaves everything that can be rejected as it is. */
  lemma CloseAdds(c: Config, s: State) returns (u: Task)
    ensures var t := Next(c, s, CallClose);
            && t.closing && t.tasks == s.tasks + [u] && t.channel == s.channel && t.attempts == s.attempts
            && t.mode == s.mode && WillReset(u) && !CanReject(u) && !Starts(u)
  {
    var t := Next(c, s, CallClose);
    u := t.tasks[|s.tasks|];
    assert t.tasks == s.tasks + [u];
  }

  lemma CloseKeepsChances(c: Config, s: State)
    ensures var t := Next(c, s, CallClose);
            && t.closing && t.attempts == s.attempts && t.mode == s.mode
            && SomeCanReject(t.tasks) == SomeCanReject(s.tasks) && Rejections(t) == Rejections(s)
            && MayReconnect(c, t) == MayReconnect(c, s) && SomeWillReset(t.tasks)
  {
    hide Next, CanReject, WillReset, Starts, WillReject, Count;
    var u := CloseAdds(c, s);
    var t := Next(c, s, CallClose);
    CountAdd(s.tasks, u, Dead(s));
    WillRejectGrows(u);
    assert forall i :: 0 <= i < |s.tasks| ==> t.tasks[i] == s.tasks[i];
    assert t.tasks[|s.tasks|] == u;
    assert Dead(t) == Dead(s);
    assert SomeCanReject(t.tasks) == SomeCanReject(s.tasks);
  }

  lemma StepKeepsSettling(c: Config, s: State, e: Event)
    requires Settling(c, s) && Enabled(s, e) && !e.CallBuild?
    ensures Settling(c, Next(c, s, e))
  {
    hide ResumeTask, EmitConnectionClose, EmitChannelClose, BeginCleanup, CanReject, WillReset, Starts, WillReject,
      MayReconnect, Calms, SomeCanReject, SomeWillReset;
    var t := Next(c, s, e);
    StepKeepsSane(c, s, e);
    EventAfterClose(c, s, e);
    match e
    case Resume(i, ok) =>
      if s.tasks[i].pc.Rejected? {
        CallbackKeepsSettling(c, s, i, ok);
      } else {
        ResumeKeepsSettling(c, s, i, ok);
      }
    case CallClose =>
      CloseKeepsChances(c, s);
      SettlingKept(c, s, t);
    case _ =>
      CountGrows(s.tasks);
      SettlingKept(c, s, t);
  }

  predicate NoBuild(es: seq<Event>) {
    forall e :: e in es ==> !e.CallBuild?
  }

  lemma {:induction false} RunKeepsSettling(c: Config, s: State, es: seq<Event>)
    requires Settling(c, s) && Possible(c, s, es) && NoBuild(es)
    ensures Settling(c, Run(c, s, es))
    decreases |es|
  {
    hide Settling, Next;
    if es != [] {
      assert es[0] in es;
      StepKeepsSettling(c, s, es[0]);
      RunKeepsSettling(c, Next(c, s, es[0]), es[1..]);
    }
  }

  /** With no call suspended, nothing can change the state any more but to Disconnected. */
  lemma SettledIsDisconnected(c: Config, s: State)
    requires Settling(c, s) && s.tasks == []
    ensures s.mode.Disconnected?
  {
  }

  // ---------------------------------------------------------------------------
  // When an attempt can be rejected in time, some run ends Reconnecting
  // ---------------------------------------------------------------------------

  predicate Ends(s: State) {
    s.tasks == [] && s.mode.Reconnecting?
  }

  predicate Promising(c: Config, s: State) {
    s.closing && Sane(s) && MayReconnect(c, s)
  }

  predicate OpensChannel(t: Task) {
    t.pc.Connect? || t.pc.Setup?
  }

  lemma ChancesKept(c: Config, s: State, t: State)
    requires MayReconnect(c, s) && t.attempts == s.attempts && SomeCanReject(t.tasks)
    requires Rejections(t) <= Rejections(s) || (Rejections(t) == 1 && Rejections(s) == 0)
    ensures MayReconnect(c, t)
  {
    hide SomeCanReject, Rejections;
  }

  lemma CanRejectKept(ts: seq<Task>, i: nat, j: nat, t: Task)
    requires i < |ts| && j < |ts| && CanReject(ts[j]) && (i != j || CanReject(t))
    ensures SomeCanReject(ts[i := t])
    ensures i != j ==> SomeCanReject(ts[..i] + ts[i + 1..])
  {
    hide CanReject;
    assert CanReject(ts[i := t][j]);
    if i != j {
      assert CanReject((ts[..i] + ts[i + 1..])[if j < i then j else j - 1]);
    }
  }

  /** A call that connects or creates a channel goes on. */
  lemma StartGoesOn(c: Config, s: State, i: nat)
    requires Promising(c, s) && i < |s.tasks| && Starts(s.tasks[i])
    ensures MayReconnect(c, Next(c, s, Resume(i, true)))
  {
    hide SomeCanReject, Count, MayReconnect, BeginCleanup, Schedule;
    var t := Next(c, s, Resume(i, true));
    assert t.tasks == s.tasks[i := t.tasks[i]] && t.attempts == s.attempts;
    assert !Dead(s) by { assert s.tasks[i] in s.tasks; }
    assert !Dead(t) by { assert t.tasks[i] in t.tasks; }
    CountUpdate(s.tasks, i, t.tasks[i], false);
    assert SomeCanReject(t.tasks) by {
      var j := SomeOne(c, s);
      CanRejectKept(s.tasks, i, j, t.tasks[i]);
    }
    ChancesKept(c, s, t);
  }

  lemma SomeOne(c: Config, s: State) returns (j: nat)
    requires MayReconnect(c, s)
    ensures j < |s.tasks| && CanReject(s.tasks[j])
  {
    hide CanReject, Rejections;
    j :| 0 <= j < |s.tasks| && CanReject(s.tasks[j]);
  }

  /** setupChannel goes on; the last attempt that can be rejected is. */
  lemma SetupGoesOn(c: Config, s: State, i: nat) returns (ok: bool)
    requires Promising(c, s) && i < |s.tasks| && s.tasks[i].pc.Setup?
    requires forall t :: t in s.tasks ==> !Starts(t)
    ensures MayReconnect(c, Next(c, s, Resume(i, ok)))
  {
    hide SomeCanReject, Count, MayReconnect, BeginCleanup, Schedule;
    var j := SomeOne(c, s);
    if other :| 0 <= other < |s.tasks| && other != i && CanReject(s.tasks[other]) {
      j := other;
    }
    assert s.tasks[i] in s.tasks;
    ok := s.channel.None? || j != i;
    var t := Next(c, s, Resume(i, ok));
    assert t.tasks == s.tasks[i := t.tasks[i]] && t.attempts == s.attempts && t.channel == s.channel;
    assert Dead(s) == Dead(t) == s.channel.None? by {
      assert forall u :: u in t.tasks ==> u in s.tasks || u == t.tasks[i];
    }
    CountUpdate(s.tasks, i, t.tasks[i], Dead(s));
    CanRejectKept(s.tasks, i, j, t.tasks[i]);
    if s.channel.Some? && j == i {
      assert Rejections(s) == 0 by {
        CountPositive(s.tasks, false);
        assert forall k :: 0 <= k < |s.tasks| && WillReject(s.tasks[k], false) ==> CanReject(s.tasks[k]) by {
          forall k | 0 <= k < |s.tasks| ensures WillReject(s.tasks[k], false) ==> CanReject(s.tasks[k]) {
            WillRejectGrows(s.tasks[k]);
          }
        }
      }
    }
    ChancesKept(c, s, t);
  }

  predicate NoneOpens(ts: seq<Task>) {
    forall i :: 0 <= i < |ts| ==> !OpensChannel(ts[i])
  }

  lemma PastSetup(t: Task)
    requires !OpensChannel(t)
    ensures WillReject(t, true) == WillReject(t, false) == CanReject(t)
  {
  }

  lemma ResumeOpensNone(c: Config, s: State, i: nat, ok: bool)
    requires s.closing && Sane(s) && i < |s.tasks| && !s.tasks[i].pc.Rejected? && NoneOpens(s.tasks)
    ensures NoneOpens(ResumeTask(c, s, i, ok).tasks)
  {
    hide Schedule, ResumeSetup, ClearTimer, Establish, AfterConnect;
    assert s.tasks[i] in s.tasks;
    ScheduleKeepsTasks(c);
    ResumeMovesOne(c, s, i, ok);
  }

  /** Any call in its cleanup goes on. */
  lemma CleanupGoesOn(c: Config, s: State, i: nat)
    requires Promising(c, s) && i < |s.tasks| && !s.tasks[i].pc.Rejected? && NoneOpens(s.tasks)
    ensures MayReconnect(c, Next(c, s, Resume(i, true)))
  {
    hide ResumeTask, CanReject, WillReset, WillReject, SomeCanReject, Count, MayReconnect;
    var t := ResumeTask(c, s, i, true);
    ResumeMovesOn(c, s, i, true, false);
    ResumeOpensNone(c, s, i, true);
    CountGrows(s.tasks);
    CountGrows(t.tasks);
    var moved := if |t.tasks| == |s.tasks| then t.tasks[i] else s.tasks[i];
    CountUpdate(s.tasks, i, moved, false);
    PastSetup(s.tasks[i]);
    PastSetup(moved);
    var j := SomeOne(c, s);
    CanRejectKept(s.tasks, i, j, moved);
    ChancesKept(c, s, t);
  }

  lemma {:induction false} CountRejected(ts: seq<Task>, dead: bool)
    requires forall i :: 0 <= i < |ts| ==> ts[i].pc.Rejected?
    ensures Count(ts, dead) == |ts|
  {
    if ts != [] {
      CountRejected(ts[1..], dead);
    }
  }

  /** When every call left is the callback of a rejected attempt, one runs; the last leaves the state. */
  lemma CallbackGoesOn(c: Config, s: State)
    requires Promising(c, s) && forall i :: 0 <= i < |s.tasks| ==> s.tasks[i].pc.Rejected?
    ensures s.tasks != []
    ensures var t := Next(c, s, Resume(0, true)); Ends(t) || MayReconnect(c, t)
  {
    hide Count;
    var t := Next(c, s, Resume(0, true));
    CountRejected(s.tasks, Dead(s));
    assert t == Schedule(c, EndTask(s, 0));
    assert t.tasks == s.tasks[1..];
    CountRejected(t.tasks, Dead(t));
    if t.tasks != [] {
      assert CanReject(t.tasks[0]);
    }
  }

  /** From every state with a chance some call can go on and keep it, or take it. */
  lemma SomethingGoesOn(c: Config, s: State) returns (e: Event)
    requires Promising(c, s)
    ensures e.Resume? && Enabled(s, e)
    ensures Ends(Next(c, s, e)) || MayReconnect(c, Next(c, s, e))
  {
    hide MayReconnect, Ends, Next;
    if i :| 0 <= i < |s.tasks| && Starts(s.tasks[i]) {
      StartGoesOn(c, s, i);
      e := Resume(i, true);
    } else if i :| 0 <= i < |s.tasks| && s.tasks[i].pc.Setup? {
      var ok := SetupGoesOn(c, s, i);
      e := Resume(i, ok);
    } else if i :| 0 <= i < |s.tasks| && !s.tasks[i].pc.Rejected? {
      CleanupGoesOn(c, s, i);
      e := Resume(i, true);
    } else {
      CallbackGoesOn(c, s);
      e := Resume(0, true);
    }
  }

  predicate OnlyResumes(es: seq<Event>) {
    forall e :: e in es ==> e.Resume? || e.Fire?
  }

  lemma {:induction false} Drive(c: Config, s: State) returns (es: seq<Event>)
    requires Promising(c, s)
    ensures Possible(c, s, es) && OnlyResumes(es) && Ends(Run(c, s, es)) && Run(c, s, es).closing
    decreases Measure(s)
  {
    hide Next, MayReconnect, Ends, Measure;
    var e := SomethingGoesOn(c, s);
    var t := Next(c, s, e);
    StepUsesMeasure(c, s, e);
    StepKeepsSane(c, s, e);
    if Ends(t) {
      Cons(c, s, e, []);
      es := [e] + [];
    } else {
      var rest := Drive(c, t);
      Cons(c, s, e, rest);
      es := [e] + rest;
    }
  }

  /** The timers left behind run out without effect. */
  lemma {:induction false} TimersRunOut(c: Config, s: State) returns (es: seq<Event>)
    requires s.closing
    ensures Possible(c, s, es) && OnlyResumes(es) && Run(c, s, es) == s.(timers := {})
    decreases s.timers
  {
    if s.timers == {} {
      es := [];
    } else {
      var t :| t in s.timers;
      var rest := TimersRunOut(c, Next(c, s, Fire(t)));
      Cons(c, s, Fire(t), rest);
      es := [Fire(t)] + rest;
    }
  }

  // ---------------------------------------------------------------------------
  // Exactly when
  // ---------------------------------------------------------------------------

  /** A run without calls after which nothing is left to happen but the state reads Reconnecting. */
  predicate RestsReconnecting(c: Config, s: State, es: seq<Event>) {
    && Possible(c, s, es) && LeftAlone(es)
    && Run(c, s, es).tasks == [] && Run(c, s, es).timers == {} && Run(c, s, es).mode.Reconnecting?
  }

  lemma ReconnectingPossible(c: Config, s: State) returns (es: seq<Event>)
    requires Promising(c, s)
    ensures RestsReconnecting(c, s, es)
  {
    hide Promising, Next;
    var a := Drive(c, s);
    var b := TimersRunOut(c, Run(c, s, a));
    Append(c, s, a, b);
    es := a + b;
  }

  /** After any history, close may leave the state reading Reconnecting, with nothing left to happen, if and only
      if a suspended reconnection attempt can still be rejected while the retries last; otherwise every run without
      another build in which all calls have ended leaves it Disconnected. */
  lemma DisconnectedExactly(c: Config, before: seq<Event>)
    requires Possible(c, Init(), before)
    ensures var s := Run(c, Init(), before);
            var closed := Next(c, s, CallClose);
            && ((exists es :: RestsReconnecting(c, closed, es)) <==> MayReconnect(c, s))
            && (!MayReconnect(c, s) ==>
                  forall es :: Possible(c, closed, es) && NoBuild(es) && Run(c, closed, es).tasks == [] ==>
                                 Run(c, closed, es).mode.Disconnected?)
  {
    hide Next, MayReconnect, Calms;
    var s := Run(c, Init(), before);
    var closed := Next(c, s, CallClose);
    RunKeepsSane(c, Init(), before);
    StepKeepsSane(c, s, CallClose);
    CloseKeepsChances(c, s);
    if MayReconnect(c, s) {
      var es := ReconnectingPossible(c, closed);
      assert RestsReconnecting(c, closed, es);
    } else {
      assert Calms(closed) by { CalmsWithReset(closed); }
      forall es | Possible(c, closed, es) && NoBuild(es) && Run(c, closed, es).tasks == []
        ensures Run(c, closed, es).mode.Disconnected?
      {
        RunKeepsSettling(c, closed, es);
        SettledIsDisconnected(c, Run(c, closed, es));
      }
      forall es ensures !RestsReconnecting(c, closed, es) {
        assert LeftAlone(es) ==> NoBuild(es);
      }
    }
  }

  lemma CalmsWithReset(s: State)
    requires SomeWillReset(s.tasks)
    ensures Calms(s)
  {
  }

  /** build connects, the connection is lost, the timer starts an attempt. */
  function LostConnection(): seq<Event> {
    BuildRun() + [ConnectionClosed(0)] + [Fire(2)]
  }

  /** From the start: after a lost connection the attempt that is under way can still be rejected in time, unless
      only one retry is allowed, so that close can leave the state reading Reconnecting. */
  lemma LostConnectionMayReconnect(c: Config)
    requires c.enabled
    ensures Possible(c, Init(), LostConnection())
    ensures MayReconnect(c, Run(c, Init(), LostConnection())) <==> c.maxRetries != 1
    ensures c.maxRetries != 1 ==>
              exists es :: RestsReconnecting(c, Next(c, Run(c, Init(), LostConnection()), CallClose), es)
  {
    hide MayReconnect, RestsReconnecting, Next;
    Losing(c);
    TimerStarts(c, 1, 2);
    var trying := Trying(1, 2);
    Cons(c, Waiting(1, 2), Fire(2), []);
    Append(c, Init(), BuildRun() + [ConnectionClosed(0)], [Fire(2)] + []);
    assert [Fire(2)] + [] == [Fire(2)];
    OneAttempt(c, trying);
    DisconnectedExactly(c, LostConnection());
  }

  lemma OneAttempt(c: Config, s: State)
    requires s.tasks == [Task(Attempt, Connect)] && s.attempts == 1
    ensures MayReconnect(c, s) <==> c.maxRetries != 1
  {
    assert CanReject(s.tasks[0]);
    assert forall dead :: Count(s.tasks, dead) == One(s.tasks[0], dead) + Count(s.tasks[1..], dead);
    assert s.tasks[1..] == [];
  }
}
