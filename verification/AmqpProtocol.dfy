/** The AMQP connector as a state machine: a step runs from one await to the next. */
module AmqpProtocol {
  import opened Options

  datatype ConnectionState = Disconnected | Connecting | Connected | Reconnecting

  datatype Kind = Build | Attempt | Close | Recreate

  /** Where a suspended call waits. `Setup(k)` is the k-th await of setupChannel; `failed` says
      whether the cleanup runs in the catch block. */
  datatype Pc =
    | Connect
    | Setup(k: nat)
    | Settled(ok: bool)
    | Cancelling(failed: bool)
    | ClosingChannel(failed: bool)
    | ClosingConnection(failed: bool)
    | Cleaned(failed: bool)
    | Rejected

  datatype Task = Task(kind: Kind, pc: Pc)

  datatype Config = Config(enabled: bool, maxRetries: nat)

  /** The connector's fields; then the runtime's pending timers, suspended calls and registered
      'close' handlers, a source of new identities, and the timers set since the last reset. */
  datatype State = State(
    mode: ConnectionState, attempts: nat, timer: Option<nat>, closing: bool,
    connection: Option<nat>, channel: Option<nat>, tagged: bool,
    timers: set<nat>, tasks: seq<Task>, connHandlers: multiset<nat>, chanHandlers: multiset<nat>, nextId: nat,
    timersSet: nat)

  datatype Event =
    | CallBuild
    | CallClose
    | Fire(timer: nat)
    | ConnectionClosed(conn: nat)
    | ChannelClosed(chan: nat)
    | Resume(i: nat, ok: bool)

  function Init(): State {
    State(Disconnected, 0, None, false, None, None, false, {}, [], multiset{}, multiset{}, 0, 0)
  }

  // ---------------------------------------------------------------------------
  // The pieces of code between awaits
  // ---------------------------------------------------------------------------

  function ClearTimer(s: State): State {
    if s.timer.Some? then s.(timers := s.timers - {s.timer.value}, timer := None) else s
  }

  /** build, once its arguments are there, up to its first await. */
  function BeginBuild(s: State): State {
    ClearTimer(s).(closing := false, attempts := 0, timersSet := 0, mode := Connecting,
                   tasks := s.tasks + [Task(Build, Connect)])
  }

  /** scheduleReconnection */
  function Schedule(c: Config, s: State): State {
    if c.maxRetries > 0 && s.attempts >= c.maxRetries then s.(mode := Disconnected)
    else s.(attempts := s.attempts + 1, mode := Reconnecting, timer := Some(s.nextId),
            timers := s.timers + {s.nextId}, nextId := s.nextId + 1, timersSet := s.timersSet + 1)
  }

  /** cleanupResources up to its first await, run by the call at position `i`. */
  function BeginCleanup(s: State, i: nat, failed: bool): State
    requires i < |s.tasks|
  {
    if s.tagged && s.channel.Some? then s.(tasks := s.tasks[i := s.tasks[i].(pc := Cancelling(failed))])
    else ClearTimer(s).(tasks := s.tasks[i := s.tasks[i].(pc := ClosingChannel(failed))])
  }

  function EndTask(s: State, i: nat): State
    requires i < |s.tasks|
  {
    s.(tasks := s.tasks[..i] + s.tasks[i + 1..])
  }

  /** attemptReconnection, called by a timer, up to its first await. */
  function BeginAttempt(s: State): State {
    if s.closing then s else s.(mode := Connecting, tasks := s.tasks + [Task(Attempt, Connect)])
  }

  /** setupChannel, resumed after its k-th await; a channel field that was cleared meanwhile makes
      the next call on it throw. */
  function ResumeSetup(s: State, i: nat, ok: bool): State
    requires i < |s.tasks| && s.tasks[i].pc.Setup?
  {
    var k := s.tasks[i].pc.k;
    if !ok then s.(tasks := s.tasks[i := s.tasks[i].(pc := Settled(false))])
    else if k == 0 then
      s.(channel := Some(s.nextId), nextId := s.nextId + 1, tasks := s.tasks[i := s.tasks[i].(pc := Setup(1))])
    else if k < 4 then
      s.(tasks := s.tasks[i := s.tasks[i].(pc := if s.channel.Some? then Setup(k + 1) else Settled(false))])
    else if s.channel.Some? then
      s.(tagged := true, chanHandlers := s.chanHandlers + multiset{s.channel.value},
         tasks := s.tasks[i := s.tasks[i].(pc := Settled(true))])
    else
      s.(tagged := true, tasks := s.tasks[i := s.tasks[i].(pc := Settled(false))])
  }

  /** A call that reaches its end: the connection gets a 'close' listener, a reconnection resets the counter. */
  function Establish(s: State, reconnected: bool): State {
    s.(connHandlers := if s.connection.Some? then s.connHandlers + multiset{s.connection.value} else s.connHandlers,
       attempts := if reconnected then 0 else s.attempts, timersSet := if reconnected then 0 else s.timersSet,
       mode := Connected)
  }

  /** The code after `await this.setupChannel()`. */
  function AfterSetup(c: Config, s: State, i: nat): State
    requires i < |s.tasks| && s.tasks[i].pc.Settled?
  {
    var ok := s.tasks[i].pc.ok;
    if s.tasks[i].kind.Recreate? then
      var t := EndTask(s, i);
      if !ok && !s.closing && c.enabled then Schedule(c, t) else t
    else if !ok then BeginCleanup(s, i, true)
    else if s.closing then BeginCleanup(s, i, false)
    else Establish(EndTask(s, i), s.tasks[i].kind.Attempt?)
  }

  /** The code after `await amqplib.connect(...)`. */
  function AfterConnect(s: State, i: nat, ok: bool): State
    requires i < |s.tasks|
  {
    if ok then
      s.(connection := Some(s.nextId), nextId := s.nextId + 1, tasks := s.tasks[i := s.tasks[i].(pc := Setup(0))])
    else BeginCleanup(s, i, true)
  }

  /** cleanupResources between the cancelled consumer and the closing channel. */
  function AfterCancel(s: State, i: nat, failed: bool): State
    requires i < |s.tasks|
  {
    ClearTimer(s.(tagged := false)).(tasks := s.tasks[i := s.tasks[i].(pc := ClosingChannel(failed))])
  }

  /** The end of cleanupResources. */
  function EndCleanup(s: State, i: nat, failed: bool): State
    requires i < |s.tasks|
  {
    s.(channel := None, connection := None, mode := Disconnected,
       tasks := s.tasks[i := s.tasks[i].(pc := Cleaned(failed))])
  }

  function ResumeTask(c: Config, s: State, i: nat, ok: bool): State
    requires i < |s.tasks|
  {
    match s.tasks[i].pc
    case Connect => AfterConnect(s, i, ok)
    case Setup(_) => ResumeSetup(s, i, ok)
    case Settled(_) => AfterSetup(c, s, i)
    case Cancelling(failed) => AfterCancel(s, i, failed)
    case ClosingChannel(failed) =>
      s.(tasks := s.tasks[i := s.tasks[i].(pc := ClosingConnection(failed))])
    case ClosingConnection(failed) => EndCleanup(s, i, failed)
    case Cleaned(failed) =>
      if failed && s.tasks[i].kind.Attempt? then s.(tasks := s.tasks[i := s.tasks[i].(pc := Rejected)])
      else EndTask(s, i)
    case Rejected => Schedule(c, EndTask(s, i))
  }

  /** The connection's 'close' listener. */
  function LoseConnection(c: Config, s: State): State {
    var t := s.(mode := Disconnected, channel := None, connection := None, tagged := false);
    if !s.closing && c.enabled then Schedule(c, t) else t
  }

  /** The channel's 'close' listener, up to the first await of setupChannel. */
  function LoseChannel(s: State): State {
    var t := s.(channel := None, tagged := false);
    if !s.closing && s.connection.Some? then t.(tasks := s.tasks + [Task(Recreate, Setup(0))]) else t
  }

  /** One 'close' event runs every listener that was registered, `n` of them, one after the other. */
  function ConnectionListeners(c: Config, s: State, n: nat): State
    decreases n
  {
    if n == 0 then s else ConnectionListeners(c, LoseConnection(c, s), n - 1)
  }

  function ChannelListeners(s: State, n: nat): State
    decreases n
  {
    if n == 0 then s else ChannelListeners(LoseChannel(s), n - 1)
  }

  function EmitConnectionClose(c: Config, s: State, conn: nat): State {
    ConnectionListeners(c, s.(connHandlers := s.connHandlers[conn := 0]), s.connHandlers[conn])
  }

  function EmitChannelClose(s: State, chan: nat): State {
    ChannelListeners(s.(chanHandlers := s.chanHandlers[chan := 0]), s.chanHandlers[chan])
  }

  predicate Enabled(s: State, e: Event) {
    match e
    case CallBuild => true
    case CallClose => true
    case Fire(t) => t in s.timers
    case ConnectionClosed(conn) => conn in s.connHandlers
    case ChannelClosed(chan) => chan in s.chanHandlers
    case Resume(i, _) => i < |s.tasks|
  }

  function Next(c: Config, s: State, e: Event): State
    requires Enabled(s, e)
  {
    match e
    case CallBuild => BeginBuild(s)
    case CallClose =>
      BeginCleanup(s.(closing := true, tasks := s.tasks + [Task(Close, Cleaned(false))]), |s.tasks|, false)
    case Fire(t) => BeginAttempt(s.(timers := s.timers - {t}))
    case ConnectionClosed(conn) => EmitConnectionClose(c, s, conn)
    case ChannelClosed(chan) => EmitChannelClose(s, chan)
    case Resume(i, ok) => ResumeTask(c, s, i, ok)
  }

  predicate Possible(c: Config, s: State, es: seq<Event>)
    decreases |es|
  {
    es == [] || (Enabled(s, es[0]) && Possible(c, Next(c, s, es[0]), es[1..]))
  }

  function Run(c: Config, s: State, es: seq<Event>): State
    requires Possible(c, s, es)
    decreases |es|
  {
    if es == [] then s else Run(c, Next(c, s, es[0]), es[1..])
  }

  /** Runs in which the application calls neither build nor close. */
  predicate LeftAlone(es: seq<Event>) {
    forall e :: e in es ==> !e.CallBuild? && !e.CallClose?
  }

  // ---------------------------------------------------------------------------
  // After close: termination
  // ---------------------------------------------------------------------------

  /** How many steps a suspended call can still cause once close has been called. */
  function Weight(t: Task): nat {
    match t.pc
    case Connect => 14
    case Setup(k) => if k >= 4 then 9 else 13 - k
    case Settled(_) => 7
    case Cancelling(_) => 6
    case ClosingChannel(_) => 5
    case ClosingConnection(_) => 4
    case Cleaned(_) => 3
    case Rejected => 2
  }

  function Weights(ts: seq<Task>): nat {
    if ts == [] then 0 else Weight(ts[0]) + Weights(ts[1..])
  }

  function Measure(s: State): nat {
    Weights(s.tasks) + |s.timers| + |s.connHandlers| + |s.chanHandlers|
  }

  lemma {:induction false} WeightsUpdate(ts: seq<Task>, i: nat, t: Task)
    requires i < |ts|
    ensures Weights(ts[i := t]) == Weights(ts) - Weight(ts[i]) + Weight(t)
    ensures Weights(ts[..i] + ts[i + 1..]) == Weights(ts) - Weight(ts[i])
  {
    if i == 0 {
      assert ts[i := t][1..] == ts[1..];
      assert ts[..i] + ts[i + 1..] == ts[1..];
    } else {
      WeightsUpdate(ts[1..], i - 1, t);
      assert ts[i := t][1..] == ts[1..][i - 1 := t];
      assert (ts[..i] + ts[i + 1..])[1..] == ts[1..][..i - 1] + ts[1..][i..];
    }
  }

  lemma ClearTimerShrinks(s: State)
    ensures |ClearTimer(s).timers| <= |s.timers|
  {
    if s.timer.Some? {
      assert s.timers - {s.timer.value} <= s.timers;
      SubsetSize(s.timers - {s.timer.value}, s.timers);
    }
  }

  lemma {:induction false} SubsetSize(a: set<nat>, b: set<nat>)
    requires a <= b
    ensures |a| <= |b|
  {
    if a != {} {
      var x :| x in a;
      SubsetSize(a - {x}, b - {x});
    }
  }

  /** Once close has been called, listeners only clear fields, however many there are. */
  lemma {:induction false} ListenersAfterClose(c: Config, s: State, n: nat)
    requires s.closing && n > 0
    ensures ConnectionListeners(c, s, n) ==
        s.(mode := Disconnected, channel := None, connection := None, tagged := false)
    ensures ChannelListeners(s, n) == s.(channel := None, tagged := false)
    decreases n
  {
    if n > 1 {
      ListenersAfterClose(c, LoseConnection(c, s), n - 1);
      ListenersAfterClose(c, LoseChannel(s), n - 1);
    }
  }

  lemma EventAfterClose(c: Config, s: State, e: Event)
    requires s.closing && Enabled(s, e)
    ensures e.ConnectionClosed? ==>
              Next(c, s, e) == s.(connHandlers := s.connHandlers[e.conn := 0], mode := Disconnected,
                                  channel := None, connection := None, tagged := false)
    ensures e.ChannelClosed? ==>
              Next(c, s, e) == s.(chanHandlers := s.chanHandlers[e.chan := 0], channel := None, tagged := false)
  {
    match e
    case ConnectionClosed(conn) =>
      ListenersAfterClose(c, s.(connHandlers := s.connHandlers[conn := 0]), s.connHandlers[conn]);
    case ChannelClosed(chan) =>
      ListenersAfterClose(c, s.(chanHandlers := s.chanHandlers[chan := 0]), s.chanHandlers[chan]);
    case _ =>
  }

  /** Once close has been called, every step that is not a new call uses up some of the measure. */
  lemma StepUsesMeasure(c: Config, s: State, e: Event)
    requires s.closing && Enabled(s, e) && !e.CallBuild? && !e.CallClose?
    ensures Next(c, s, e).closing && Measure(Next(c, s, e)) < Measure(s)
  {
    hide ResumeTask;
    EventAfterClose(c, s, e);
    if e.Resume? {
      ResumeUsesMeasure(c, s, e.i, e.ok);
    }
  }

  lemma ResumeUsesMeasure(c: Config, s: State, i: nat, ok: bool)
    requires s.closing && i < |s.tasks|
    ensures ResumeTask(c, s, i, ok).closing && Measure(ResumeTask(c, s, i, ok)) < Measure(s)
  {
    hide Weights, BeginCleanup, ResumeSetup;
    match s.tasks[i].pc
    case Connect =>
      CleanupUsesMeasure(s, i, true);
      WeightsUpdate(s.tasks, i, s.tasks[i].(pc := Setup(0)));
    case Setup(_) => SetupUsesMeasure(s, i, ok);
    case Settled(k) =>
      CleanupUsesMeasure(s, i, !k);
      WeightsUpdate(s.tasks, i, s.tasks[i]);
    case Cancelling(failed) =>
      ClearTimerShrinks(s.(tagged := false));
      WeightsUpdate(s.tasks, i, s.tasks[i].(pc := ClosingChannel(failed)));
    case ClosingChannel(failed) => WeightsUpdate(s.tasks, i, s.tasks[i].(pc := ClosingConnection(failed)));
    case ClosingConnection(failed) => WeightsUpdate(s.tasks, i, s.tasks[i].(pc := Cleaned(failed)));
    case Cleaned(failed) => WeightsUpdate(s.tasks, i, s.tasks[i].(pc := Rejected));
    case Rejected => WeightsUpdate(s.tasks, i, s.tasks[i]);
  }

  lemma CleanupUsesMeasure(s: State, i: nat, failed: bool)
    requires i < |s.tasks|
    ensures Measure(BeginCleanup(s, i, failed)) <= Measure(s) - Weight(s.tasks[i]) + 6
    ensures BeginCleanup(s, i, failed).closing == s.closing
  {
    ClearTimerShrinks(s);
    WeightsUpdate(s.tasks, i, s.tasks[i].(pc := Cancelling(failed)));
    WeightsUpdate(s.tasks, i, s.tasks[i].(pc := ClosingChannel(failed)));
  }

  lemma SetupUsesMeasure(s: State, i: nat, ok: bool)
    requires i < |s.tasks| && s.tasks[i].pc.Setup?
    ensures Measure(ResumeSetup(s, i, ok)) < Measure(s)
    ensures ResumeSetup(s, i, ok).closing == s.closing
  {
    var t := ResumeSetup(s, i, ok);
    WeightsUpdate(s.tasks, i, t.tasks[i]);
    assert t.tasks == s.tasks[i := t.tasks[i]];
  }

  /** After close, every run without a further call is finite: timers, attempts and events run out. */
  lemma {:induction false} RunsAreBounded(c: Config, s: State, es: seq<Event>)
    requires s.closing && Possible(c, s, es) && LeftAlone(es)
    ensures |es| <= Measure(s)
    decreases |es|
  {
    if es != [] {
      assert es[0] in es;
      StepUsesMeasure(c, s, es[0]);
      RunsAreBounded(c, Next(c, s, es[0]), es[1..]);
    }
  }

  // ---------------------------------------------------------------------------
  // After close: never Connected again, no connection left
  // ---------------------------------------------------------------------------

  /** A suspended call that will still reset the connection field before it ends. */
  predicate WillReset(t: Task) {
    !t.kind.Recreate? && !t.pc.Cleaned? && !t.pc.Rejected?
  }

  /** A channel that is being recreated waits in setupChannel only, close waits in its cleanup only. */
  predicate InPlace(t: Task) {
    match t.kind
    case Recreate => t.pc.Setup? || t.pc.Settled?
    case Close => t.pc.Cancelling? || t.pc.ClosingChannel? || t.pc.ClosingConnection? || t.pc.Cleaned?
    case _ => true
  }

  predicate Sane(s: State) {
    forall t :: t in s.tasks ==> InPlace(t)
  }

  lemma ScheduleKeepsTasks(c: Config)
    ensures forall t: State :: Schedule(c, t).tasks == t.tasks
    ensures forall t: State :: ClearTimer(t).tasks == t.tasks
  {
  }

  lemma {:induction false} ListenersKeepSane(c: Config, s: State, n: nat)
    requires Sane(s)
    ensures Sane(ConnectionListeners(c, s, n)) && Sane(ChannelListeners(s, n))
    decreases n
  {
    if n > 0 {
      ListenersKeepSane(c, LoseConnection(c, s), n - 1);
      ListenersKeepSane(c, LoseChannel(s), n - 1);
    }
  }

  predicate MovesOne(s: State, t: State, i: nat)
    requires i < |s.tasks|
  {
    || t.tasks == s.tasks[..i] + s.tasks[i + 1..]
    || (|t.tasks| == |s.tasks| && t.tasks == s.tasks[i := t.tasks[i]] && t.tasks[i].kind == s.tasks[i].kind
        && (InPlace(s.tasks[i]) ==> InPlace(t.tasks[i])))
  }

  lemma CleanupMovesOne(s: State, i: nat, failed: bool)
    requires i < |s.tasks| && (s.tasks[i].kind.Recreate? ==> s.tasks[i].pc.Connect?)
    ensures MovesOne(s, BeginCleanup(s, i, failed), i)
  {
  }

  lemma SetupMovesOne(s: State, i: nat, ok: bool)
    requires i < |s.tasks| && s.tasks[i].pc.Setup?
    ensures MovesOne(s, ResumeSetup(s, i, ok), i)
  {
  }

  /** Resuming a call ends it or moves it on, and leaves the other calls alone. */
  lemma ResumeMovesOne(c: Config, s: State, i: nat, ok: bool)
    requires i < |s.tasks|
    ensures MovesOne(s, ResumeTask(c, s, i, ok), i)
  {
    hide Schedule, ClearTimer, BeginCleanup, ResumeSetup;
    ScheduleKeepsTasks(c);
    match s.tasks[i].pc
    case Connect => if !ok { CleanupMovesOne(s, i, true); }
    case Setup(_) => SetupMovesOne(s, i, ok);
    case Settled(done) => if !s.tasks[i].kind.Recreate? { CleanupMovesOne(s, i, !done); }
    case _ =>
  }

  lemma ResumeKeepsSane(c: Config, s: State, i: nat, ok: bool)
    requires Sane(s) && i < |s.tasks|
    ensures Sane(ResumeTask(c, s, i, ok))
  {
    hide ResumeTask;
    ResumeMovesOne(c, s, i, ok);
    assert s.tasks[i] in s.tasks;
  }

  lemma StepKeepsSane(c: Config, s: State, e: Event)
    requires Sane(s) && Enabled(s, e)
    ensures Sane(Next(c, s, e))
  {
    hide ResumeTask, Schedule, ClearTimer, ConnectionListeners, ChannelListeners;
    ScheduleKeepsTasks(c);
    match e
    case Resume(i, ok) => ResumeKeepsSane(c, s, i, ok);
    case ConnectionClosed(conn) =>
      ListenersKeepSane(c, s.(connHandlers := s.connHandlers[conn := 0]), s.connHandlers[conn]);
    case ChannelClosed(chan) =>
      ListenersKeepSane(c, s.(chanHandlers := s.chanHandlers[chan := 0]), s.chanHandlers[chan]);
    case _ =>
  }

  predicate Covered(s: State) {
    s.connection.Some? ==> exists i :: 0 <= i < |s.tasks| && WillReset(s.tasks[i])
  }

  /** Other suspended calls keep their places when one of them moves on or ends. */
  lemma CoverKept(ts: seq<Task>, i: nat, j: nat, t: Task)
    requires i < |ts| && j < |ts| && i != j && WillReset(ts[j])
    ensures WillReset(ts[i := t][j])
    ensures var rest := ts[..i] + ts[i + 1..];
            exists k :: 0 <= k < |rest| && WillReset(rest[k])
  {
    var rest := ts[..i] + ts[i + 1..];
    assert WillReset(rest[if j < i then j else j - 1]);
  }

  /** A call that ends without owing a reset, or moves on and still owes it unless the connection is gone. */
  predicate KeepsCover(s: State, t: State, i: nat)
    requires i < |s.tasks|
  {
    && t.closing && (t.mode.Connected? ==> s.mode.Connected?)
    && ((t.tasks == s.tasks[..i] + s.tasks[i + 1..] && t.connection == s.connection && !WillReset(s.tasks[i]))
        || (|t.tasks| == |s.tasks| && t.tasks == s.tasks[i := t.tasks[i]]
            && (t.connection == s.connection || t.connection.None? || WillReset(t.tasks[i]))
            && (WillReset(s.tasks[i]) ==> WillReset(t.tasks[i]) || t.connection.None?)))
  }

  lemma CleanupKeepsCover(s: State, i: nat, failed: bool)
    requires s.closing && i < |s.tasks| && !s.tasks[i].kind.Recreate?
    ensures KeepsCover(s, BeginCleanup(s, i, failed), i)
  {
  }

  lemma SetupKeepsCover(s: State, i: nat, ok: bool)
    requires s.closing && i < |s.tasks| && s.tasks[i].pc.Setup?
    ensures KeepsCover(s, ResumeSetup(s, i, ok), i)
  {
  }

  lemma CallbackKeepsCover(c: Config, s: State, i: nat)
    requires s.closing && i < |s.tasks| && s.tasks[i].pc.Rejected?
    ensures KeepsCover(s, Schedule(c, EndTask(s, i)), i)
  {
  }

  lemma ResumeKeepsCover(c: Config, s: State, i: nat, ok: bool)
    requires s.closing && Sane(s) && i < |s.tasks|
    ensures KeepsCover(s, ResumeTask(c, s, i, ok), i)
  {
    hide Schedule, BeginCleanup, ResumeSetup, Establish;
    assert s.tasks[i] in s.tasks;
    match s.tasks[i].pc
    case Connect => if !ok { CleanupKeepsCover(s, i, true); }
    case Setup(_) => SetupKeepsCover(s, i, ok);
    case Settled(done) => if !s.tasks[i].kind.Recreate? { CleanupKeepsCover(s, i, !done); }
    case Rejected => CallbackKeepsCover(c, s, i);
    case _ =>
  }

  lemma ResumeAfterClose(c: Config, s: State, i: nat, ok: bool)
    requires s.closing && Sane(s) && Covered(s) && i < |s.tasks|
    ensures var t := ResumeTask(c, s, i, ok);
            t.closing && Covered(t) && (t.mode.Connected? ==> s.mode.Connected?)
  {
    hide ResumeTask, WillReset;
    var t := ResumeTask(c, s, i, ok);
    ResumeKeepsCover(c, s, i, ok);
    if s.connection.Some? {
      var j :| 0 <= j < |s.tasks| && WillReset(s.tasks[j]);
      if i != j {
        CoverKept(s.tasks, i, j, if i < |t.tasks| then t.tasks[i] else s.tasks[i]);
      }
    }
  }

  lemma StepAfterClose(c: Config, s: State, e: Event)
    requires s.closing && Sane(s) && Covered(s) && Enabled(s, e) && !e.CallBuild?
    ensures var t := Next(c, s, e);
            t.closing && Covered(t) && (t.mode.Connected? ==> s.mode.Connected?)
  {
    hide ResumeTask, WillReset;
    EventAfterClose(c, s, e);
    if e.Resume? {
      ResumeAfterClose(c, s, e.i, e.ok);
    } else if s.connection.Some? {
      var j :| 0 <= j < |s.tasks| && WillReset(s.tasks[j]);
      var t := Next(c, s, e);
      assert t.connection.Some? ==> |t.tasks| >= |s.tasks| && t.tasks[j] == s.tasks[j];
    }
  }

  predicate NeverEntersConnected(c: Config, s: State, es: seq<Event>)
    requires Possible(c, s, es)
    decreases |es|
  {
    es == [] ||
    ((Next(c, s, es[0]).mode.Connected? ==> s.mode.Connected?) && NeverEntersConnected(c, Next(c, s, es[0]), es[1..]))
  }

  lemma {:induction false} RunAfterClose(c: Config, s: State, es: seq<Event>)
    requires s.closing && Sane(s) && Covered(s) && Possible(c, s, es)
    requires forall e :: e in es ==> !e.CallBuild?
    ensures NeverEntersConnected(c, s, es)
    ensures Covered(Run(c, s, es)) && Run(c, s, es).closing
    decreases |es|
  {
    if es != [] {
      assert es[0] in es;
      StepAfterClose(c, s, es[0]);
      StepKeepsSane(c, s, es[0]);
      RunAfterClose(c, Next(c, s, es[0]), es[1..]);
    }
  }

  lemma {:induction false} RunKeepsSane(c: Config, s: State, es: seq<Event>)
    requires Sane(s) && Possible(c, s, es)
    ensures Sane(Run(c, s, es))
    decreases |es|
  {
    if es != [] {
      StepKeepsSane(c, s, es[0]);
      RunKeepsSane(c, Next(c, s, es[0]), es[1..]);
    }
  }

  /** Whatever happened before, once close is called and build is not called again: in every
      interleaving the connector never enters Connected; without further close calls the run is
      finite; and when no call is suspended any more the connection field is undefined. */
  lemma CloseIsFinal(c: Config, before: seq<Event>, after: seq<Event>)
    requires Possible(c, Init(), before)
    requires var s := Next(c, Run(c, Init(), before), CallClose);
             Possible(c, s, after) && forall e :: e in after ==> !e.CallBuild?
    ensures var s := Next(c, Run(c, Init(), before), CallClose);
            && NeverEntersConnected(c, s, after)
            && (LeftAlone(after) ==> |after| <= Measure(s))
            && (Run(c, s, after).tasks == [] ==> Run(c, s, after).connection == None)
  {
    RunKeepsSane(c, Init(), before);
    var r := Run(c, Init(), before);
    var s := Next(c, r, CallClose);
    StepKeepsSane(c, r, CallClose);
    assert WillReset(s.tasks[|r.tasks|]);
    RunAfterClose(c, s, after);
    if LeftAlone(after) {
      RunsAreBounded(c, s, after);
    }
  }

  lemma Cons(c: Config, s: State, e: Event, es: seq<Event>)
    requires Enabled(s, e) && Possible(c, Next(c, s, e), es)
    ensures Possible(c, s, [e] + es) && Run(c, s, [e] + es) == Run(c, Next(c, s, e), es)
  {
    assert ([e] + es)[0] == e && ([e] + es)[1..] == es;
  }

  lemma {:induction false} Append(c: Config, s: State, a: seq<Event>, b: seq<Event>)
    requires Possible(c, s, a) && Possible(c, Run(c, s, a), b)
    ensures Possible(c, s, a + b) && Run(c, s, a + b) == Run(c, Run(c, s, a), b)
    decreases |a|
  {
    hide Next;
    if a == [] {
      assert a + b == b;
    } else {
      Append(c, Next(c, s, a[0]), a[1..], b);
      assert (a + b)[1..] == a[1..] + b;
    }
  }

  // ---------------------------------------------------------------------------
  // Retries
  // ---------------------------------------------------------------------------

  /** Between two resets every timer that is set counts as one attempt. */
  predicate RetriesCounted(c: Config, s: State) {
    s.timersSet == s.attempts && (c.maxRetries > 0 ==> s.attempts <= c.maxRetries)
  }

  lemma ScheduleCounts(c: Config, s: State)
    requires RetriesCounted(c, s)
    ensures RetriesCounted(c, Schedule(c, s))
  {
  }

  lemma PiecesKeepCounters(s: State, i: nat, failed: bool, ok: bool)
    requires i < |s.tasks|
    ensures var t := BeginCleanup(s, i, failed); t.attempts == s.attempts && t.timersSet == s.timersSet
    ensures var t := EndTask(s, i); t.attempts == s.attempts && t.timersSet == s.timersSet
    ensures s.tasks[i].pc.Setup? ==>
              var t := ResumeSetup(s, i, ok); t.attempts == s.attempts && t.timersSet == s.timersSet
  {
  }

  lemma ResumeCountsRetries(c: Config, s: State, i: nat, ok: bool)
    requires RetriesCounted(c, s) && i < |s.tasks|
    ensures RetriesCounted(c, ResumeTask(c, s, i, ok))
  {
    hide Schedule, BeginCleanup, EndTask, ResumeSetup;
    PiecesKeepCounters(s, i, true, ok);
    PiecesKeepCounters(s, i, false, ok);
    ScheduleCounts(c, EndTask(s, i));
  }

  lemma {:induction false} ListenersCountRetries(c: Config, s: State, n: nat)
    requires RetriesCounted(c, s)
    ensures RetriesCounted(c, ConnectionListeners(c, s, n)) && RetriesCounted(c, ChannelListeners(s, n))
    decreases n
  {
    if n > 0 {
      ListenersCountRetries(c, LoseConnection(c, s), n - 1);
      ListenersCountRetries(c, LoseChannel(s), n - 1);
    }
  }

  lemma StepCountsRetries(c: Config, s: State, e: Event)
    requires RetriesCounted(c, s) && Enabled(s, e)
    ensures RetriesCounted(c, Next(c, s, e))
  {
    hide ResumeTask, Schedule;
    match e
    case Resume(i, ok) => ResumeCountsRetries(c, s, i, ok);
    case ConnectionClosed(conn) =>
      ListenersCountRetries(c, s.(connHandlers := s.connHandlers[conn := 0]), s.connHandlers[conn]);
    case ChannelClosed(chan) =>
      ListenersCountRetries(c, s.(chanHandlers := s.chanHandlers[chan := 0]), s.chanHandlers[chan]);
    case _ =>
  }

  /** In every run the number of timers set since the last build or successful reconnection is the
      attempt counter, and never exceeds a positive `maxRetries`. */
  lemma {:induction false} RetriesBounded(c: Config, s: State, es: seq<Event>)
    requires RetriesCounted(c, s) && Possible(c, s, es)
    ensures RetriesCounted(c, Run(c, s, es))
    decreases |es|
  {
    if es != [] {
      StepCountsRetries(c, s, es[0]);
      RetriesBounded(c, Next(c, s, es[0]), es[1..]);
    }
  }
}
