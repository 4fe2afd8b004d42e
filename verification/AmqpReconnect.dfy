/** When the connector becomes Connected, and how it comes back after a loss. */
module AmqpReconnect {
  import opened AmqpProtocol
  import opened Options

  // ---------------------------------------------------------------------------
  // One step
  // ---------------------------------------------------------------------------

  /** A build or a reconnection attempt goes on after a fulfilled setupChannel, and close was not called. */
  predicate Completes(s: State, e: Event) {
    && e.Resume? && e.i < |s.tasks| && s.tasks[e.i].kind in {Build, Attempt}
    && s.tasks[e.i].pc == Settled(true) && !s.closing
  }

  /** One more listener on the connection the field holds. */
  function Listening(s: State): multiset<nat> {
    match s.connection
    case None => s.connHandlers
    case Some(conn) => s.connHandlers[conn := s.connHandlers[conn] + 1]
  }

  lemma CompletionConnects(c: Config, s: State, i: nat, ok: bool)
    requires Completes(s, Resume(i, ok))
    ensures var attempt := s.tasks[i].kind.Attempt?;
            Next(c, s, Resume(i, ok)) ==
            s.(mode := Connected, connHandlers := Listening(s), tasks := s.tasks[..i] + s.tasks[i + 1..],
               attempts := if attempt then 0 else s.attempts, timersSet := if attempt then 0 else s.timersSet)
  {
    hide BeginCleanup, Schedule;
    if s.connection.Some? {
      var conn := s.connection.value;
      assert s.connHandlers + multiset{conn} == s.connHandlers[conn := s.connHandlers[conn] + 1];
    }
  }

  lemma {:induction false} ListenersNeverConnect(c: Config, s: State, n: nat)
    ensures ConnectionListeners(c, s, n).mode.Connected? ==> s.mode.Connected?
    ensures ChannelListeners(s, n).mode == s.mode
    decreases n
  {
    if n > 0 {
      ListenersNeverConnect(c, LoseConnection(c, s), n - 1);
      ListenersNeverConnect(c, LoseChannel(s), n - 1);
    }
  }

  lemma PiecesNeverConnect(c: Config, s: State, i: nat, ok: bool)
    requires i < |s.tasks|
    ensures !Schedule(c, s).mode.Connected? && BeginCleanup(s, i, ok).mode == s.mode
    ensures s.tasks[i].pc.Setup? ==> ResumeSetup(s, i, ok).mode == s.mode
  {
  }

  lemma OthersNeverConnect(c: Config, s: State, i: nat, ok: bool)
    requires Sane(s) && i < |s.tasks| && !Completes(s, Resume(i, ok))
    ensures Next(c, s, Resume(i, ok)).mode.Connected? ==> s.mode.Connected?
  {
    hide Schedule, BeginCleanup, ResumeSetup;
    assert s.tasks[i] in s.tasks;
    PiecesNeverConnect(c, s, i, true);
    PiecesNeverConnect(c, s, i, false);
    if s.tasks[i].pc.Setup? {
      PiecesNeverConnect(c, s, i, ok);
    }
    forall t: State ensures !Schedule(c, t).mode.Connected? {
      ScheduleNeverConnects(c, t);
    }
  }

  lemma ScheduleNeverConnects(c: Config, s: State)
    ensures !Schedule(c, s).mode.Connected?
  {
  }

  lemma StepNeverConnects(c: Config, s: State, e: Event)
    requires Sane(s) && Enabled(s, e) && !Completes(s, e)
    ensures Next(c, s, e).mode.Connected? ==> s.mode.Connected?
  {
    hide ResumeTask, ConnectionListeners, ChannelListeners;
    match e
    case Resume(i, ok) => OthersNeverConnect(c, s, i, ok);
    case ConnectionClosed(conn) =>
      ListenersNeverConnect(c, s.(connHandlers := s.connHandlers[conn := 0]), s.connHandlers[conn]);
    case ChannelClosed(chan) =>
      ListenersNeverConnect(c, s.(chanHandlers := s.chanHandlers[chan := 0]), s.chanHandlers[chan]);
    case _ =>
  }

  /** In every reachable state a step enters Connected if and only if a build or an attempt goes on after a fulfilled
      setupChannel while the connector is not closing. The call then ends, the connection field's connection has one
      more close listener, and an attempt resets the counter. */
  lemma ConnectsExactly(c: Config, es: seq<Event>, e: Event)
    requires Possible(c, Init(), es) && Enabled(Run(c, Init(), es), e)
    ensures var s := Run(c, Init(), es);
            var t := Next(c, s, e);
            && (!s.mode.Connected? ==> (t.mode.Connected? <==> Completes(s, e)))
            && (Completes(s, e) ==>
                  && t.mode.Connected? && t.tasks == s.tasks[..e.i] + s.tasks[e.i + 1..]
                  && t.connHandlers == Listening(s)
                  && t.attempts == (if s.tasks[e.i].kind.Attempt? then 0 else s.attempts)
                  && t.connection == s.connection && t.channel == s.channel && t.timers == s.timers)
  {
    hide Next;
    var s := Run(c, Init(), es);
    RunKeepsSane(c, Init(), es);
    if Completes(s, e) {
      CompletionConnects(c, s, e.i, e.ok);
    } else {
      StepNeverConnects(c, s, e);
    }
  }

  // ---------------------------------------------------------------------------
  // Which steps arm a timer
  // ---------------------------------------------------------------------------

  /** A lost connection, a channel that could not be recreated, or a rejected attempt; the retries last. */
  predicate Arms(c: Config, s: State, e: Event) {
    && (c.maxRetries == 0 || s.attempts < c.maxRetries)
    && match e
       case ConnectionClosed(_) => !s.closing && c.enabled
       case Resume(i, _) =>
         && i < |s.tasks|
         && (s.tasks[i].pc.Rejected? ||
             (s.tasks[i].kind.Recreate? && s.tasks[i].pc == Settled(false) && !s.closing && c.enabled))
       case _ => false
  }

  lemma ScheduleArms(c: Config, s: State)
    ensures if c.maxRetries == 0 || s.attempts < c.maxRetries then
              Schedule(c, s) == s.(attempts := s.attempts + 1, mode := Reconnecting, timer := Some(s.nextId),
                                   timers := s.timers + {s.nextId}, nextId := s.nextId + 1,
                                   timersSet := s.timersSet + 1)
            else Schedule(c, s) == s.(mode := Disconnected)
  {
  }

  lemma ResumeArms(c: Config, s: State, i: nat, ok: bool)
    requires i < |s.tasks|
    ensures var t := ResumeTask(c, s, i, ok);
            if Arms(c, s, Resume(i, ok)) then
              t == s.(attempts := s.attempts + 1, mode := Reconnecting, timer := Some(s.nextId),
                      timers := s.timers + {s.nextId}, nextId := s.nextId + 1, timersSet := s.timersSet + 1,
                      tasks := s.tasks[..i] + s.tasks[i + 1..])
            else t.attempts <= s.attempts && t.timers <= s.timers
  {
    hide Schedule, BeginCleanup, ResumeSetup;
    ScheduleArms(c, EndTask(s, i));
    PiecesArmNothing(s, i, ok, ok);
    PiecesArmNothing(s, i, true, ok);
    PiecesArmNothing(s, i, false, ok);
  }

  lemma PiecesArmNothing(s: State, i: nat, failed: bool, ok: bool)
    requires i < |s.tasks|
    ensures var t := BeginCleanup(s, i, failed); t.attempts == s.attempts && t.timers <= s.timers
    ensures s.tasks[i].pc.Setup? ==>
              var t := ResumeSetup(s, i, ok); t.attempts == s.attempts && t.timers <= s.timers
  {
  }

  lemma {:induction false} ChannelListenersArmNothing(s: State, n: nat)
    ensures var t := ChannelListeners(s, n); t.attempts == s.attempts && t.timers == s.timers
    decreases n
  {
    if n > 0 {
      ChannelListenersArmNothing(LoseChannel(s), n - 1);
    }
  }

  /** A step counts an attempt and sets a timer if and only if it is one of these; a connection whose loss is
      heard by one listener is meant. No other step sets a timer. */
  lemma ArmsExactly(c: Config, s: State, e: Event)
    requires Enabled(s, e) && (e.ConnectionClosed? ==> s.connHandlers[e.conn] == 1)
    ensures var t := Next(c, s, e);
            && (t.attempts > s.attempts <==> Arms(c, s, e))
            && (Arms(c, s, e) ==> && t.attempts == s.attempts + 1 && t.mode.Reconnecting?
                                  && t.timer == Some(s.nextId) && t.timers == s.timers + {s.nextId})
            && (!Arms(c, s, e) ==> t.timers <= s.timers)
    ensures e.ConnectionClosed? ==>
              var t := Next(c, s, e);
              && t.connection.None? && t.channel.None? && !t.tagged && t.tasks == s.tasks
              && (!Arms(c, s, e) ==> t.mode.Disconnected?)
  {
    hide ResumeTask, BeginCleanup;
    match e
    case Resume(i, ok) => ResumeArms(c, s, i, ok);
    case ConnectionClosed(conn) => OneListener(c, s.(connHandlers := s.connHandlers[conn := 0]));
    case ChannelClosed(chan) =>
      ChannelListenersArmNothing(s.(chanHandlers := s.chanHandlers[chan := 0]), s.chanHandlers[chan]);
    case CallClose =>
      PiecesArmNothing(s.(closing := true, tasks := s.tasks + [Task(Close, Cleaned(false))]), |s.tasks|, false, false);
    case _ =>
  }

  lemma OneListener(c: Config, s: State)
    ensures ConnectionListeners(c, s, 1) == LoseConnection(c, s) && ChannelListeners(s, 1) == LoseChannel(s)
  {
    assert ConnectionListeners(c, LoseConnection(c, s), 0) == LoseConnection(c, s);
    assert ChannelListeners(LoseChannel(s), 0) == LoseChannel(s);
  }

  /** Calls, timers and a lost channel start a call beside those under way, or nothing when the connector is closing. */
  lemma CallsStarted(c: Config, s: State, e: Event)
    requires Enabled(s, e) && !e.Resume? && !e.ConnectionClosed?
    requires e.ChannelClosed? ==> s.chanHandlers[e.chan] == 1
    ensures var t := Next(c, s, e);
            match e
            case CallBuild => t.tasks == s.tasks + [Task(Build, Connect)]
            case CallClose => t.closing && |t.tasks| == |s.tasks| + 1 && t.tasks[..|s.tasks|] == s.tasks
            case Fire(timer) =>
              && t.timers == s.timers - {timer} && t.closing == s.closing
              && (if s.closing then t.tasks == s.tasks && t.mode == s.mode
                  else t.tasks == s.tasks + [Task(Attempt, Connect)] && t.mode.Connecting?)
            case ChannelClosed(chan) =>
              && t.channel.None? && !t.tagged && t.mode == s.mode && chan !in t.chanHandlers
              && t.tasks == if s.closing || s.connection.None? then s.tasks else s.tasks + [Task(Recreate, Setup(0))]
  {
    hide ResumeTask;
    match e
    case ChannelClosed(chan) => OneListener(c, s.(chanHandlers := s.chanHandlers[chan := 0]));
    case _ =>
  }

  /** One await of setupChannel, whatever else is under way: it fails when the await does, or when a step after the
      first finds no channel; the consumer stays registered all the same. */
  lemma SetupGoesOn(c: Config, s: State, i: nat, ok: bool)
    requires i < |s.tasks| && s.tasks[i].pc.Setup?
    ensures var k := s.tasks[i].pc.k;
            var t := Next(c, s, Resume(i, ok));
            var goesOn := ok && (k == 0 || s.channel.Some?);
            && t.tasks == s.tasks[i := Task(s.tasks[i].kind, if !goesOn then Settled(false)
                                                             else if k < 4 then Setup(k + 1) else Settled(true))]
            && t.channel == (if ok && k == 0 then Some(s.nextId) else s.channel)
            && t.tagged == (s.tagged || (ok && k >= 4))
            && t.chanHandlers == (if !goesOn || k < 4 then s.chanHandlers
                                  else s.chanHandlers + multiset{s.channel.value})
            && t.mode == s.mode && t.connection == s.connection && t.timers == s.timers
  {
    hide BeginCleanup, AfterSetup, Schedule;
  }

  // ---------------------------------------------------------------------------
  // setupChannel in a run in which the server answers
  // ---------------------------------------------------------------------------

  /** `n` awaits of the only suspended call are fulfilled. */
  function Fulfilled(n: nat): seq<Event> {
    seq(n, _ => Resume(0, true))
  }

  /** setupChannel, begun in `q` by a call of some kind, after `k` fulfilled awaits. */
  function AtSetup(q: State, kind: Kind, k: nat): State {
    q.(tasks := [Task(kind, if k < 5 then Setup(k) else Settled(true))], tagged := q.tagged || k >= 5,
       channel := if k == 0 then q.channel else Some(q.nextId), nextId := if k == 0 then q.nextId else q.nextId + 1,
       chanHandlers := if k < 5 then q.chanHandlers else q.chanHandlers + multiset{q.nextId})
  }

  lemma SetupStep(c: Config, q: State, kind: Kind, k: nat)
    requires k < 5
    ensures Next(c, AtSetup(q, kind, k), Resume(0, true)) == AtSetup(q, kind, k + 1)
  {
    hide BeginCleanup, Schedule, AfterSetup;
    assert Next(c, AtSetup(q, kind, k), Resume(0, true)).tasks == AtSetup(q, kind, k + 1).tasks;
  }

  lemma {:induction false} SetupRuns(c: Config, q: State, kind: Kind, k: nat)
    requires k <= 5
    ensures Possible(c, AtSetup(q, kind, k), Fulfilled(5 - k))
    ensures Run(c, AtSetup(q, kind, k), Fulfilled(5 - k)) == AtSetup(q, kind, 5)
    decreases 5 - k
  {
    assert Enabled(AtSetup(q, kind, k), Resume(0, true));
    hide Next, AtSetup, Enabled;
    if k == 5 {
      assert Fulfilled(0) == [];
    } else {
      assert Fulfilled(5 - k) == [Resume(0, true)] + Fulfilled(4 - k);
      SetupStep(c, q, kind, k);
      SetupRuns(c, q, kind, k + 1);
      Cons(c, AtSetup(q, kind, k), Resume(0, true), Fulfilled(4 - k));
    }
  }

  /** Connected and set up, just before the call goes on. */
  lemma CallSetsUp(c: Config, s: State, kind: Kind)
    requires s.tasks == [Task(kind, Connect)]
    ensures Possible(c, s, Fulfilled(6))
    ensures Run(c, s, Fulfilled(6)) ==
            s.(connection := Some(s.nextId), channel := Some(s.nextId + 1), tagged := true, nextId := s.nextId + 2,
               chanHandlers := s.chanHandlers + multiset{s.nextId + 1}, tasks := [Task(kind, Settled(true))])
  {
    var q := s.(connection := Some(s.nextId), nextId := s.nextId + 1);
    assert Next(c, s, Resume(0, true)) == AtSetup(q, kind, 0);
    assert Enabled(s, Resume(0, true));
    SetupRuns(c, q, kind, 0);
    hide Next;
    Cons(c, s, Resume(0, true), Fulfilled(5));
    assert Fulfilled(6) == [Resume(0, true)] + Fulfilled(5);
  }

  /** A call that has begun to connect, all of whose awaits are fulfilled, ends with the connector Connected on a new
      connection and a new channel, each with one more listener; an attempt has reset the counter. */
  lemma CallConnects(c: Config, s: State, kind: Kind)
    requires s.tasks == [Task(kind, Connect)] && kind in {Build, Attempt} && !s.closing
    ensures Possible(c, s, Fulfilled(7))
    ensures var t := Run(c, s, Fulfilled(7));
            t == s.(mode := Connected, connection := Some(s.nextId), channel := Some(s.nextId + 1), tagged := true,
                    tasks := [], connHandlers := s.connHandlers + multiset{s.nextId},
                    chanHandlers := s.chanHandlers + multiset{s.nextId + 1}, nextId := s.nextId + 2,
                    attempts := if kind.Attempt? then 0 else s.attempts,
                    timersSet := if kind.Attempt? then 0 else s.timersSet)
  {
    hide Next;
    CallSetsUp(c, s, kind);
    var up := Run(c, s, Fulfilled(6));
    CompletionConnects(c, up, 0, true);
    assert up.tasks[..0] + up.tasks[1..] == [];
    assert Listening(up) == s.connHandlers + multiset{s.nextId};
    Cons(c, up, Resume(0, true), []);
    Append(c, s, Fulfilled(6), [Resume(0, true)] + []);
    assert Fulfilled(7) == Fulfilled(6) + ([Resume(0, true)] + []);
  }

  /** A lost channel is recreated on the same connection, with the connector's state untouched. */
  lemma ChannelComesBack(c: Config, s: State, chan: nat)
    requires s.tasks == [] && !s.closing && s.connection.Some? && s.chanHandlers[chan] == 1
    ensures var es := [ChannelClosed(chan)] + Fulfilled(6);
            && Possible(c, s, es)
            && Run(c, s, es) == s.(channel := Some(s.nextId), tagged := true, nextId := s.nextId + 1,
                                   chanHandlers := s.chanHandlers[chan := 0] + multiset{s.nextId})
  {
    var q := s.(channel := None, tagged := false, chanHandlers := s.chanHandlers[chan := 0]);
    var up := AtSetup(q, Recreate, 5);
    OneListener(c, s.(chanHandlers := s.chanHandlers[chan := 0]));
    assert Next(c, s, ChannelClosed(chan)) == AtSetup(q, Recreate, 0);
    SetupRuns(c, q, Recreate, 0);
    assert up.tasks[..0] + up.tasks[1..] == [];
    var t := up.(tasks := []);
    assert Next(c, up, Resume(0, true)) == t;
    assert Enabled(up, Resume(0, true)) && Enabled(s, ChannelClosed(chan));
    hide Next;
    Cons(c, up, Resume(0, true), []);
    Append(c, AtSetup(q, Recreate, 0), Fulfilled(5), [Resume(0, true)] + []);
    assert Fulfilled(6) == Fulfilled(5) + ([Resume(0, true)] + []);
    Cons(c, s, ChannelClosed(chan), Fulfilled(6));
  }

  // ---------------------------------------------------------------------------
  // build and close in a connector without suspended calls
  // ---------------------------------------------------------------------------

  /** The timers that are left when the one that the field holds is cleared. */
  function OtherTimers(s: State): set<nat> {
    match s.timer
    case None => s.timers
    case Some(t) => s.timers - {t}
  }

  lemma BuildBegins(c: Config, s: State)
    requires s.tasks == []
    ensures Next(c, s, CallBuild) ==
            s.(mode := Connecting, attempts := 0, timersSet := 0, closing := false, timer := None,
               timers := OtherTimers(s), tasks := [Task(Build, Connect)])
  {
    assert [] + [Task(Build, Connect)] == [Task(Build, Connect)];
  }

  /** Whatever happened before, also after close: build, with every await fulfilled, ends Connected, with the counter
      at 0 and the pending reconnection cancelled. */
  lemma BuildConnects(c: Config, s: State)
    requires s.tasks == []
    ensures Possible(c, s, [CallBuild] + Fulfilled(7))
    ensures Run(c, s, [CallBuild] + Fulfilled(7)) ==
            s.(mode := Connected, attempts := 0, timersSet := 0, closing := false, timer := None,
               timers := OtherTimers(s), connection := Some(s.nextId), channel := Some(s.nextId + 1), tagged := true,
               connHandlers := s.connHandlers + multiset{s.nextId},
               chanHandlers := s.chanHandlers + multiset{s.nextId + 1}, nextId := s.nextId + 2)
  {
    BuildBegins(c, s);
    hide Next;
    CallConnects(c, Next(c, s, CallBuild), Build);
    Cons(c, s, CallBuild, Fulfilled(7));
  }

  /** The last three awaits of the cleanup. */
  lemma CleanupEnds(c: Config, q: State, kind: Kind, failed: bool)
    requires q.tasks == [Task(kind, ClosingChannel(failed))] && !(kind.Attempt? && failed)
    ensures Possible(c, q, Fulfilled(3))
    ensures Run(c, q, Fulfilled(3)) == q.(mode := Disconnected, connection := None, channel := None, tasks := [])
  {
    hide BeginCleanup, AfterSetup, AfterConnect, ResumeSetup, Schedule;
    var go := Resume(0, true);
    var a := q.(tasks := [Task(kind, ClosingConnection(failed))]);
    var b := q.(mode := Disconnected, connection := None, channel := None, tasks := [Task(kind, Cleaned(failed))]);
    assert Next(c, q, go) == a && Next(c, a, go) == b;
    assert b.tasks[..0] + b.tasks[1..] == [];
    assert Next(c, b, go) == b.(tasks := []);
    assert Enabled(q, go) && Enabled(a, go) && Enabled(b, go);
    hide Next;
    Cons(c, b, go, []);
    Cons(c, a, go, [go] + []);
    Cons(c, q, go, [go] + ([go] + []));
    assert Fulfilled(3) == [go] + ([go] + ([go] + []));
  }

  /** Whether the cleanup has a consumer to cancel. */
  predicate Consuming(s: State) {
    s.tagged && s.channel.Some?
  }

  lemma CloseBegins(c: Config, s: State)
    requires s.tasks == []
    ensures var t := Next(c, s, CallClose);
            var closing := s.(closing := true, timer := None, timers := OtherTimers(s),
                              tasks := [Task(Close, ClosingChannel(false))]);
            if Consuming(s) then Enabled(t, Resume(0, true)) && Next(c, t, Resume(0, true)) == closing.(tagged := false)
            else t == closing
  {
    hide AfterSetup, AfterConnect, ResumeSetup, Schedule;
    assert [] + [Task(Close, Cleaned(false))] == [Task(Close, Cleaned(false))];
    var t := Next(c, s, CallClose);
    if Consuming(s) {
      assert t.tasks == [Task(Close, Cancelling(false))];
    }
  }

  /** close, with every await fulfilled, ends Disconnected with connection and channel undefined and the pending
      reconnection cancelled. */
  lemma CloseEnds(c: Config, s: State)
    requires s.tasks == []
    ensures var es := [CallClose] + Fulfilled(if Consuming(s) then 4 else 3);
            && Possible(c, s, es)
            && Run(c, s, es) == s.(mode := Disconnected, connection := None, channel := None, closing := true,
                                   tagged := s.tagged && s.channel.None?, timer := None, timers := OtherTimers(s))
  {
    CloseBegins(c, s);
    hide Next;
    var t := Next(c, s, CallClose);
    if Consuming(s) {
      CleanupEnds(c, Next(c, t, Resume(0, true)), Close, false);
      Cons(c, t, Resume(0, true), Fulfilled(3));
      assert Fulfilled(4) == [Resume(0, true)] + Fulfilled(3);
      Cons(c, s, CallClose, Fulfilled(4));
    } else {
      CleanupEnds(c, t, Close, false);
      Cons(c, s, CallClose, Fulfilled(3));
    }
  }

  // ---------------------------------------------------------------------------
  // From the start: a loss, failing attempts, and what follows
  // ---------------------------------------------------------------------------

  /** Before the first build there is nothing that could happen but a call. */
  lemma AtFirst(e: Event)
    ensures Enabled(Init(), e) <==> e.CallBuild? || e.CallClose?
    ensures var s := Init();
            && s.mode.Disconnected? && s.attempts == 0 && !s.closing && s.timer.None?
            && s.connection.None? && s.channel.None? && !s.tagged && s.nextId == 0
  {
  }

  function BuildRun(): seq<Event> {
    [CallBuild] + Fulfilled(7)
  }

  function Established(): State {
    State(Connected, 0, None, false, Some(0), Some(1), true, {}, [], multiset{0}, multiset{1}, 2, 0)
  }

  lemma BuildRuns(c: Config)
    ensures Possible(c, Init(), BuildRun()) && Run(c, Init(), BuildRun()) == Established()
  {
    BuildConnects(c, Init());
  }

  /** Waiting for the timer `id` of the n-th attempt. */
  function Waiting(n: nat, id: nat): State {
    State(Reconnecting, n, Some(id), false, None, None, false, {id}, [], multiset{}, multiset{1}, id + 1, n)
  }

  /** Retries are used up: nothing is suspended and no timer is set. */
  function GivenUp(n: nat, id: nat): State {
    State(Disconnected, n, None, false, None, None, false, {}, [], multiset{}, multiset{1}, id + 1, n)
  }

  lemma Losing(c: Config)
    requires c.enabled
    ensures Possible(c, Init(), BuildRun() + [ConnectionClosed(0)])
    ensures Run(c, Init(), BuildRun() + [ConnectionClosed(0)]) == Waiting(1, 2)
  {
    BuildRuns(c);
    OneListener(c, Established().(connHandlers := multiset{}));
    assert multiset{0}[0 := 0] == multiset{};
    assert Next(c, Established(), ConnectionClosed(0)) == Waiting(1, 2);
    Cons(c, Established(), ConnectionClosed(0), []);
    Append(c, Init(), BuildRun(), [ConnectionClosed(0)] + []);
    assert [ConnectionClosed(0)] + [] == [ConnectionClosed(0)];
  }

  /** The timer fires, connecting is rejected, the cleanup and the callback go on. */
  function FailedAttempt(id: nat): seq<Event> {
    [Fire(id), Resume(0, false)] + Fulfilled(4)
  }

  /** The failed attempt in its cleanup, and then rejected. */
  function Failing(n: nat, id: nat, k: nat): State {
    State(if k < 2 then Connecting else Disconnected, n, None, false, None, None, false, {},
          [Task(Attempt, if k == 0 then ClosingChannel(true) else if k == 1 then ClosingConnection(true)
                         else if k == 2 then Cleaned(true) else Rejected)], multiset{}, multiset{1}, id + 1, n)
  }

  /** What a failed attempt leads to. */
  function AfterFailure(c: Config, n: nat, id: nat): State {
    if c.maxRetries == 0 || n < c.maxRetries then Waiting(n + 1, id + 1) else GivenUp(n, id)
  }

  lemma FailingStep(c: Config, n: nat, id: nat, k: nat)
    requires k < 4
    ensures Next(c, Failing(n, id, k), Resume(0, true)) ==
            if k < 3 then Failing(n, id, k + 1) else AfterFailure(c, n, id)
  {
    hide BeginCleanup, AfterSetup, AfterConnect, ResumeSetup;
    var s := Failing(n, id, k);
    if k < 3 {
      assert Next(c, s, Resume(0, true)).tasks == Failing(n, id, k + 1).tasks;
    } else {
      assert s.tasks[..0] + s.tasks[1..] == [];
    }
  }

  lemma {:induction false} CleanupRuns(c: Config, n: nat, id: nat, k: nat)
    requires k < 4
    ensures Possible(c, Failing(n, id, k), Fulfilled(4 - k))
    ensures Run(c, Failing(n, id, k), Fulfilled(4 - k)) == AfterFailure(c, n, id)
    decreases 4 - k
  {
    assert Enabled(Failing(n, id, k), Resume(0, true));
    hide Next, Failing, Enabled, AfterFailure;
    assert Fulfilled(4 - k) == [Resume(0, true)] + Fulfilled(3 - k);
    FailingStep(c, n, id, k);
    if k == 3 {
      assert Fulfilled(0) == [];
    } else {
      CleanupRuns(c, n, id, k + 1);
    }
    Cons(c, Failing(n, id, k), Resume(0, true), Fulfilled(3 - k));
  }

  /** The attempt has begun. */
  function Trying(n: nat, id: nat): State {
    State(Connecting, n, Some(id), false, None, None, false, {}, [Task(Attempt, Connect)], multiset{}, multiset{1},
          id + 1, n)
  }

  lemma TimerStarts(c: Config, n: nat, id: nat)
    ensures Enabled(Waiting(n, id), Fire(id)) && Next(c, Waiting(n, id), Fire(id)) == Trying(n, id)
  {
  }

  lemma ConnectFails(c: Config, n: nat, id: nat)
    ensures Enabled(Trying(n, id), Resume(0, false))
    ensures Next(c, Trying(n, id), Resume(0, false)) == Failing(n, id, 0)
  {
    hide AfterSetup, ResumeSetup, Schedule;
    assert Next(c, Trying(n, id), Resume(0, false)).tasks == Failing(n, id, 0).tasks;
  }

  lemma AttemptFails(c: Config, n: nat, id: nat)
    ensures Possible(c, Waiting(n, id), FailedAttempt(id))
    ensures Run(c, Waiting(n, id), FailedAttempt(id)) == AfterFailure(c, n, id)
  {
    var s, trying := Waiting(n, id), Trying(n, id);
    TimerStarts(c, n, id);
    ConnectFails(c, n, id);
    hide Next, Waiting, Failing, Trying, AfterFailure;
    CleanupRuns(c, n, id, 0);
    Cons(c, trying, Resume(0, false), Fulfilled(4));
    Cons(c, s, Fire(id), [Resume(0, false)] + Fulfilled(4));
    assert FailedAttempt(id) == [Fire(id)] + ([Resume(0, false)] + Fulfilled(4));
  }

  /** Attempts that fail one after the other, the first of them started by the timer `id`. */
  function Failures(id: nat, k: nat): seq<Event>
    decreases k
  {
    if k == 0 then [] else FailedAttempt(id) + Failures(id + 1, k - 1)
  }

  lemma {:induction false} AttemptsFail(c: Config, n: nat, id: nat, k: nat)
    requires c.maxRetries == 0 || n + k <= c.maxRetries
    ensures Possible(c, Waiting(n, id), Failures(id, k))
    ensures Run(c, Waiting(n, id), Failures(id, k)) == Waiting(n + k, id + k)
    decreases k
  {
    hide Next, FailedAttempt, Waiting;
    if k > 0 {
      AttemptFails(c, n, id);
      AttemptsFail(c, n + 1, id + 1, k - 1);
      Append(c, Waiting(n, id), FailedAttempt(id), Failures(id + 1, k - 1));
    }
  }

  lemma LossAndFailures(c: Config, k: nat)
    requires c.enabled && (c.maxRetries == 0 || k < c.maxRetries)
    ensures var es := BuildRun() + [ConnectionClosed(0)] + Failures(2, k);
            Possible(c, Init(), es) && Run(c, Init(), es) == Waiting(k + 1, k + 2)
  {
    hide Next, Waiting;
    Losing(c);
    AttemptsFail(c, 1, 2, k);
    Append(c, Init(), BuildRun() + [ConnectionClosed(0)], Failures(2, k));
  }

  lemma AttemptSucceeds(c: Config, n: nat, id: nat)
    ensures Possible(c, Waiting(n, id), [Fire(id)] + Fulfilled(7))
    ensures Run(c, Waiting(n, id), [Fire(id)] + Fulfilled(7)) ==
            State(Connected, 0, Some(id), false, Some(id + 1), Some(id + 2), true, {}, [],
                  multiset{id + 1}, multiset{1, id + 2}, id + 3, 0)
  {
    var s, trying := Waiting(n, id), Trying(n, id);
    TimerStarts(c, n, id);
    hide Next, Waiting;
    CallConnects(c, trying, Attempt);
    assert multiset{} + multiset{id + 1} == multiset{id + 1};
    assert multiset{1} + multiset{id + 2} == multiset{1, id + 2};
    Cons(c, s, Fire(id), Fulfilled(7));
  }

  /** From the start: after a loss and any number of failed attempts that the retries allow, an attempt whose awaits
      are fulfilled ends Connected on a new connection and channel, with the counter at 0 and no call suspended. */
  lemma Reconnects(c: Config, k: nat)
    requires c.enabled && (c.maxRetries == 0 || k < c.maxRetries)
    ensures var es := BuildRun() + [ConnectionClosed(0)] + Failures(2, k) + ([Fire(k + 2)] + Fulfilled(7));
            && Possible(c, Init(), es)
            && Run(c, Init(), es) ==
               State(Connected, 0, Some(k + 2), false, Some(k + 3), Some(k + 4), true, {}, [],
                     multiset{k + 3}, multiset{1, k + 4}, k + 5, 0)
  {
    hide Next, Waiting;
    LossAndFailures(c, k);
    AttemptSucceeds(c, k + 1, k + 2);
    Append(c, Init(), BuildRun() + [ConnectionClosed(0)] + Failures(2, k), [Fire(k + 2)] + Fulfilled(7));
  }

  /** After exactly `maxRetries` failed attempts the connector gives up: Disconnected, nothing suspended, no timer. */
  lemma GivesUp(c: Config)
    requires c.enabled && c.maxRetries > 0
    ensures var es := BuildRun() + [ConnectionClosed(0)] + Failures(2, c.maxRetries);
            && Possible(c, Init(), es)
            && Run(c, Init(), es) ==
               State(Disconnected, c.maxRetries, None, false, None, None, false, {}, [], multiset{}, multiset{1},
                     c.maxRetries + 2, c.maxRetries)
  {
    hide Next, Waiting, FailedAttempt;
    var m := c.maxRetries;
    LossAndFailures(c, m - 1);
    AttemptFails(c, m, m + 1);
    Append(c, Init(), BuildRun() + [ConnectionClosed(0)] + Failures(2, m - 1), FailedAttempt(m + 1));
    FailuresEnd(2, m - 1);
    assert BuildRun() + [ConnectionClosed(0)] + Failures(2, m - 1) + FailedAttempt(m + 1) ==
           BuildRun() + [ConnectionClosed(0)] + Failures(2, m);
  }

  lemma {:induction false} FailuresEnd(id: nat, k: nat)
    ensures Failures(id, k + 1) == Failures(id, k) + FailedAttempt(id + k)
    decreases k
  {
    hide FailedAttempt;
    if k == 0 {
      var one := FailedAttempt(id);
      assert Failures(id + 1, 0) == [] && Failures(id, 0) == [];
      assert one + [] == one && [] + one == one;
    } else {
      FailuresEnd(id + 1, k - 1);
      assert Failures(id, k + 1) == FailedAttempt(id) + Failures(id + 1, k);
      assert Failures(id, k) == FailedAttempt(id) + Failures(id + 1, k - 1);
      hide Failures;
      Join(FailedAttempt(id), Failures(id + 1, k - 1), FailedAttempt(id + k));
    }
  }

  lemma Join(a: seq<Event>, b: seq<Event>, c: seq<Event>)
    ensures (a + b) + c == a + (b + c)
  {
  }
}
