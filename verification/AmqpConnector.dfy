/** The connector object: its methods and event handlers, each stretch between awaits proved to be
    the step of the protocol that bears its name; and the delays of its backoff. */
module AmqpConnector {
  import opened AmqpProtocol
  import opened Options

  datatype BuildError = ExchangeNotSpecified | QueueNotSpecified | MessageHandlerNotProvided

  class AMQPConnector {
    const config: Config
    var exchange: Option<string>
    var queue: Option<string>
    var hasHandler: bool

    var connectionState: ConnectionState
    var reconnectAttempts: nat
    var reconnectTimeoutId: Option<nat>
    var isIntentionalClose: bool
    var connection: Option<nat>
    var channel: Option<nat>
    var consumerTag: bool

    // The runtime: pending timers, suspended calls, registered 'close' handlers.
    var timers: set<nat>
    var tasks: seq<Task>
    var connHandlers: multiset<nat>
    var chanHandlers: multiset<nat>
    var nextId: nat
    ghost var timersSet: nat

    ghost function View(): State
      reads this
    {
      State(connectionState, reconnectAttempts, reconnectTimeoutId, isIntentionalClose,
            connection, channel, consumerTag, timers, tasks, connHandlers, chanHandlers, nextId, timersSet)
    }

    constructor (config: Config)
      ensures this.config == config && View() == Init()
      ensures exchange.None? && queue.None? && !hasHandler
    {
      this.config := config;
      exchange, queue, hasHandler := None, None, false;
      connectionState, reconnectAttempts, reconnectTimeoutId := Disconnected, 0, None;
      isIntentionalClose, connection, channel, consumerTag := false, None, None, false;
      timers, tasks, connHandlers, chanHandlers, nextId, timersSet := {}, [], multiset{}, multiset{}, 0, 0;
    }

    method ClearTimeout()
      modifies this`reconnectTimeoutId, this`timers
      ensures reconnectTimeoutId == None && timers == ClearTimer(old(View())).timers
    {
      if reconnectTimeoutId.Some? {
        timers := timers - {reconnectTimeoutId.value};
        reconnectTimeoutId := None;
      }
    }

    /** Up to the await of `amqplib.connect`. */
    method Build() returns (error: Option<BuildError>)
      modifies this
      ensures error.None? <==> exchange.Some? && queue.Some? && hasHandler
      ensures error.None? ==> View() == Next(config, old(View()), CallBuild)
      ensures error.Some? ==> View() == old(View())
      ensures error == Some(ExchangeNotSpecified) <==> exchange.None?
      ensures unchanged(`exchange) && unchanged(`queue) && unchanged(`hasHandler)
    {
      hide ResumeTask, BeginBuild, BeginCleanup, BeginAttempt, AmqpProtocol.EmitConnectionClose,
        AmqpProtocol.EmitChannelClose;
      if exchange.None? {
        return Some(ExchangeNotSpecified);
      }
      if queue.None? {
        return Some(QueueNotSpecified);
      }
      if !hasHandler {
        return Some(MessageHandlerNotProvided);
      }
      Start();
      error := None;
    }

    /** The reset for a fresh build. */
    method Start()
      modifies this`reconnectTimeoutId, this`timers, this`isIntentionalClose, this`reconnectAttempts,
               this`timersSet, this`connectionState, this`tasks
      ensures View() == BeginBuild(old(View()))
    {
      ClearTimeout();
      isIntentionalClose := false;
      reconnectAttempts, timersSet := 0, 0;
      connectionState := Connecting;
      tasks := tasks + [Task(Kind.Build, Connect)];
    }

    /** Up to the first await of the cleanup. */
    method Close()
      modifies this
      ensures View() == Next(config, old(View()), CallClose)
    {
      isIntentionalClose := true;
      tasks := tasks + [Task(Kind.Close, Cleaned(false))];
      CleanupResources(|tasks| - 1, false);
    }

    /** The first stretch of `cleanupResources`. */
    method CleanupResources(i: nat, failed: bool)
      requires i < |tasks|
      modifies this
      ensures View() == BeginCleanup(old(View()), i, failed)
    {
      if consumerTag && channel.Some? {
        tasks := tasks[i := tasks[i].(pc := Cancelling(failed))];
      } else {
        ClearTimeout();
        tasks := tasks[i := tasks[i].(pc := ClosingChannel(failed))];
      }
    }

    method ScheduleReconnection()
      modifies this
      ensures View() == Schedule(config, old(View()))
    {
      if config.maxRetries > 0 && reconnectAttempts >= config.maxRetries {
        connectionState := Disconnected;
        return;
      }
      reconnectAttempts := reconnectAttempts + 1;
      connectionState := Reconnecting;
      reconnectTimeoutId := Some(nextId);
      timers, nextId, timersSet := timers + {nextId}, nextId + 1, timersSet + 1;
    }

    /** The timer callback: `attemptReconnection` up to the await of `amqplib.connect`. */
    method OnTimer(t: nat)
      requires t in timers
      modifies this
      ensures View() == Next(config, old(View()), Fire(t))
    {
      timers := timers - {t};
      if !isIntentionalClose {
        connectionState := Connecting;
        tasks := tasks + [Task(Attempt, Connect)];
      }
    }

    /** One listener of the connection's 'close' event. */
    method OnConnectionClose()
      modifies this
      ensures View() == LoseConnection(config, old(View()))
    {
      connectionState := Disconnected;
      channel := None;
      connection := None;
      consumerTag := false;
      if !isIntentionalClose && config.enabled {
        ScheduleReconnection();
      }
    }

    /** One listener of the channel's 'close' event. */
    method OnChannelClose()
      modifies this
      ensures View() == LoseChannel(old(View()))
    {
      channel := None;
      consumerTag := false;
      if !isIntentionalClose && connection.Some? {
        tasks := tasks + [Task(Recreate, Setup(0))];
      }
    }

    /** The event runs all listeners that overlapping calls registered on this connection. */
    method EmitConnectionClose(conn: nat)
      requires conn in connHandlers
      modifies this
      ensures View() == Next(config, old(View()), ConnectionClosed(conn))
    {
      hide LoseConnection;
      var n := connHandlers[conn];
      connHandlers := connHandlers[conn := 0];
      ghost var start := View();
      for i := 0 to n
        invariant ConnectionListeners(config, View(), n - i) == ConnectionListeners(config, start, n)
      {
        OnConnectionClose();
      }
    }

    method EmitChannelClose(chan: nat)
      requires chan in chanHandlers
      modifies this
      ensures View() == Next(config, old(View()), ChannelClosed(chan))
    {
      hide LoseChannel;
      var n := chanHandlers[chan];
      chanHandlers := chanHandlers[chan := 0];
      ghost var start := View();
      for i := 0 to n
        invariant ChannelListeners(View(), n - i) == ChannelListeners(start, n)
      {
        OnChannelClose();
      }
    }

    /** `setupChannel` after its k-th await. */
    method SetupChannel(i: nat, ok: bool)
      requires i < |tasks| && tasks[i].pc.Setup?
      modifies this
      ensures View() == ResumeSetup(old(View()), i, ok)
    {
      var k := tasks[i].pc.k;
      var next := Settled(false);
      if ok && k == 0 {
        channel := Some(nextId);
        nextId := nextId + 1;
        next := Setup(1);
      } else if ok && k < 4 {
        if channel.Some? {
          next := Setup(k + 1);
        }
      } else if ok {
        consumerTag := true;
        if channel.Some? {
          chanHandlers := chanHandlers + multiset{channel.value};
          next := Settled(true);
        }
      }
      tasks := tasks[i := tasks[i].(pc := next)];
    }

    method Finish(i: nat)
      requires i < |tasks|
      modifies this`tasks
      ensures View() == EndTask(old(View()), i)
    {
      tasks := tasks[..i] + tasks[i + 1..];
    }

    /** What follows `await this.setupChannel()` in build, attemptReconnection and the handler that
        recreates a channel. */
    method AfterSetupChannel(i: nat)
      requires i < |tasks| && tasks[i].pc.Settled?
      modifies this
      ensures View() == AfterSetup(config, old(View()), i)
    {
      hide BeginCleanup, Schedule, EndTask, Establish;
      var Task(kind, pc) := tasks[i];
      if kind.Recreate? {
        Finish(i);
        if !pc.ok && !isIntentionalClose && config.enabled {
          ScheduleReconnection();
        }
      } else if !pc.ok {
        CleanupResources(i, true);
      } else if isIntentionalClose {
        CleanupResources(i, false);
      } else {
        Finish(i);
        Succeed(kind.Attempt?);
      }
    }

    /** The listener of the new connection, the counter and the state. */
    method Succeed(reconnected: bool)
      modifies this`connHandlers, this`reconnectAttempts, this`timersSet, this`connectionState
      ensures View() == Establish(old(View()), reconnected)
    {
      if connection.Some? {
        connHandlers := connHandlers + multiset{connection.value};
      }
      if reconnected {
        reconnectAttempts, timersSet := 0, 0;
      }
      connectionState := Connected;
    }

    method AfterConnecting(i: nat, ok: bool)
      requires i < |tasks|
      modifies this
      ensures View() == AfterConnect(old(View()), i, ok)
    {
      hide BeginCleanup;
      if ok {
        connection := Some(nextId);
        nextId := nextId + 1;
        tasks := tasks[i := tasks[i].(pc := Setup(0))];
      } else {
        CleanupResources(i, true);
      }
    }

    /** `cleanupResources` between its first two awaits. */
    method AfterCancelling(i: nat, failed: bool)
      requires i < |tasks|
      modifies this`consumerTag, this`reconnectTimeoutId, this`timers, this`tasks
      ensures View() == AfterCancel(old(View()), i, failed)
    {
      consumerTag := false;
      ClearTimeout();
      tasks := tasks[i := tasks[i].(pc := ClosingChannel(failed))];
    }

    /** The last stretch of `cleanupResources`. */
    method FinishCleanup(i: nat, failed: bool)
      requires i < |tasks|
      modifies this`channel, this`connection, this`connectionState, this`tasks
      ensures View() == EndCleanup(old(View()), i, failed)
    {
      channel := None;
      connection := None;
      connectionState := Disconnected;
      tasks := tasks[i := tasks[i].(pc := Cleaned(failed))];
    }

    /** A suspended call goes on: the awaited promise was fulfilled or rejected. */
    method OnSettled(i: nat, ok: bool)
      requires i < |tasks|
      modifies this
      ensures View() == Next(config, old(View()), Resume(i, ok))
    {
      hide AfterConnect, ResumeSetup, AfterSetup, AfterCancel, EndCleanup, Schedule, EndTask,
        BeginBuild, BeginCleanup, BeginAttempt, AmqpProtocol.EmitConnectionClose, AmqpProtocol.EmitChannelClose;
      match tasks[i].pc {
        case Connect => AfterConnecting(i, ok);
        case Setup(_) => SetupChannel(i, ok);
        case Settled(_) => AfterSetupChannel(i);
        case Cancelling(failed) => AfterCancelling(i, failed);
        case ClosingChannel(failed) =>
          tasks := tasks[i := tasks[i].(pc := ClosingConnection(failed))];
        case ClosingConnection(failed) => FinishCleanup(i, failed);
        case Cleaned(failed) =>
          if failed && tasks[i].kind.Attempt? {
            tasks := tasks[i := tasks[i].(pc := Rejected)];
          } else {
            Finish(i);
          }
        case Rejected =>
          Finish(i);
          ScheduleReconnection();
      }
    }
  }

  // ---------------------------------------------------------------------------
  // Backoff
  // ---------------------------------------------------------------------------

  function Power(base: real, n: nat): real {
    if n == 0 then 1.0 else base * Power(base, n - 1)
  }

  function Min(a: real, b: real): real {
    if a <= b then a else b
  }

  function BaseDelay(initial: real, max: real, multiplier: real, attempts: nat): real {
    Min(initial * Power(multiplier, attempts), max)
  }

  /** calculateReconnectDelay, with the random draw as a parameter. */
  function ReconnectDelay(initial: real, max: real, multiplier: real, attempts: nat, random: real): int {
    var delay := BaseDelay(initial, max, multiplier, attempts);
    (delay + delay * 0.1 * random).Floor
  }

  lemma {:induction false} PowerPositive(base: real, n: nat)
    requires base >= 0.0
    ensures Power(base, n) >= 0.0
  {
    if n > 0 {
      PowerPositive(base, n - 1);
    }
  }

  /** The delay before jitter is the initial one, cut at the maximum, and each further attempt multiplies it until the
      maximum is reached. */
  lemma DelayGrows(initial: real, max: real, multiplier: real, n: nat)
    requires initial >= 0.0 && multiplier >= 1.0 && max >= 0.0
    ensures BaseDelay(initial, max, multiplier, 0) == if initial <= max then initial else max
    ensures var next := multiplier * BaseDelay(initial, max, multiplier, n);
            BaseDelay(initial, max, multiplier, n + 1) == if next <= max then next else max
  {
    var p := Power(multiplier, n);
    var x := initial * p;
    PowerPositive(multiplier, n);
    assert initial * (multiplier * p) == multiplier * x;
    if x > max {
      ProductNonNegative(multiplier, x - max);
      ProductNonNegative(multiplier - 1.0, max);
      assert multiplier * x >= multiplier * max >= max;
    }
  }

  /** Jitter adds the drawn share of a tenth, rounded down. */
  lemma JitterBounded(initial: real, max: real, multiplier: real, n: nat, random: real)
    requires initial >= 0.0 && multiplier >= 0.0 && max >= 0.0 && 0.0 <= random < 1.0
    ensures var d := BaseDelay(initial, max, multiplier, n);
            && ReconnectDelay(initial, max, multiplier, n, 0.0) == d.Floor
            && d.Floor <= ReconnectDelay(initial, max, multiplier, n, random) <= (1.1 * d).Floor
            && var share := d + d * random / 10.0;
               share - 1.0 < ReconnectDelay(initial, max, multiplier, n, random) as real <= share
  {
    var d := BaseDelay(initial, max, multiplier, n);
    PowerPositive(multiplier, n);
    ProductNonNegative(initial, Power(multiplier, n));
    ProductNonNegative(d * 0.1, random);
    ProductNonNegative(d * 0.1, 1.0 - random);
    assert d * 0.1 * random <= d * 0.1;
  }

  lemma DelayBounded(initial: real, max: real, multiplier: real, attempts: nat, random: real)
    requires initial >= 0.0 && max >= 0.0 && multiplier >= 0.0 && 0.0 <= random < 1.0
    ensures 0 <= ReconnectDelay(initial, max, multiplier, attempts, random) <= (1.1 * max).Floor
  {
    var d := BaseDelay(initial, max, multiplier, attempts);
    PowerPositive(multiplier, attempts);
    ProductNonNegative(initial, Power(multiplier, attempts));
    assert 0.0 <= d <= max;
    ProductNonNegative(d * 0.1, random);
    ProductNonNegative(d * 0.1, 1.0 - random);
    assert d * 0.1 * random <= d * 0.1;
    assert d + d * 0.1 * random <= 1.1 * max;
  }

  lemma ProductNonNegative(a: real, b: real)
    requires a >= 0.0 && b >= 0.0
    ensures a * b >= 0.0
  {
  }

  /** The delay before jitter never decreases, up to the cap, whatever the number of attempts. */
  lemma {:induction false} DelayMonotone(initial: real, max: real, multiplier: real, m: nat, n: nat)
    requires initial >= 0.0 && multiplier >= 1.0 && m <= n
    ensures BaseDelay(initial, max, multiplier, m) <= BaseDelay(initial, max, multiplier, n)
    decreases n - m
  {
    if m < n {
      PowerPositive(multiplier, m);
      var p := Power(multiplier, m);
      ProductNonNegative(multiplier - 1.0, p);
      assert multiplier * p >= p;
      ProductNonNegative(initial, multiplier * p - p);
      assert initial * (multiplier * p - p) == initial * (multiplier * p) - initial * p;
      DelayMonotone(initial, max, multiplier, m + 1, n);
    }
  }
}
