/**
 * The client side of the Beepiz binding: decoding the state messages Beepiz sends,
 * and the session of `runBeepizBindingUntilDisconnection`, which registers a reply
 * messenger, relays decoded states to `handleState`, and unregisters in `finally`.
 */
module BeepizBinding {
  import opened Wrappers
  import opened Messages
  import opened BeepizBindingConstants
  import opened ChannelMessageHandling
  import opened ReceiveChannels

  datatype MonitoringState = Monitoring | NotMonitoring

  /** What a state message carries: the monitoring state and whether Beepiz requires configuration. */
  type StateReport = (MonitoringState, bool)

  /** The decoding lambda given to the reply messenger's handler; `None` for unknown codes. */
  function DecodeStateMessage(msg: Message): (r: Option<StateReport>)
    ensures r.Some? <==>
      (msg.what == CURRENTLY_MONITORING || msg.what == CURRENTLY_NOT_MONITORING) &&
      (msg.arg1 == ARG1_REQUIRES_CONFIG || msg.arg1 == ARG1_CONFIG_OK)
  {
    var state :=
      if msg.what == CURRENTLY_MONITORING then Some(Monitoring)
      else if msg.what == CURRENTLY_NOT_MONITORING then Some(NotMonitoring)
      else None;
    if state.None? then None
    else
      var requiresConfig :=
        if msg.arg1 == ARG1_REQUIRES_CONFIG then Some(true)
        else if msg.arg1 == ARG1_CONFIG_OK then Some(false)
        else None;
      if requiresConfig.None? then None
      else Some((state.value, requiresConfig.value))
  }

  /** How Beepiz encodes a state report (the sending side of the same protocol). */
  function EncodeStateMessage(state: MonitoringState, requiresConfig: bool): (msg: Message)
    ensures DecodeStateMessage(msg) == Some((state, requiresConfig))
    ensures msg.replyTo.None?
  {
    Message(
      if state == Monitoring then CURRENTLY_MONITORING else CURRENTLY_NOT_MONITORING,
      if requiresConfig then ARG1_REQUIRES_CONFIG else ARG1_CONFIG_OK,
      None, false)
  }

  lemma DecodeMonitoring(msg: Message)
    requires msg.what == CURRENTLY_MONITORING
    requires msg.arg1 == ARG1_REQUIRES_CONFIG || msg.arg1 == ARG1_CONFIG_OK
    ensures DecodeStateMessage(msg) == Some((Monitoring, msg.arg1 == ARG1_REQUIRES_CONFIG))
  {
  }

  lemma DecodeNotMonitoring(msg: Message)
    requires msg.what == CURRENTLY_NOT_MONITORING
    requires msg.arg1 == ARG1_REQUIRES_CONFIG || msg.arg1 == ARG1_CONFIG_OK
    ensures DecodeStateMessage(msg) == Some((NotMonitoring, msg.arg1 == ARG1_REQUIRES_CONFIG))
  {
  }

  /** An unknown `what` is rejected whatever `arg1` is. */
  lemma DecodeRejectsUnknownWhat(msg: Message)
    requires msg.what != CURRENTLY_MONITORING && msg.what != CURRENTLY_NOT_MONITORING
    ensures DecodeStateMessage(msg) == None
  {
  }

  /** An unknown `arg1` is rejected even when `what` is a valid state code. */
  lemma DecodeRejectsUnknownArg1(msg: Message)
    requires msg.arg1 != ARG1_REQUIRES_CONFIG && msg.arg1 != ARG1_CONFIG_OK
    ensures DecodeStateMessage(msg) == None
  {
  }

  /**
   * Decoding depends only on `what` and `arg1`, and every accepted message is the
   * encoding of the report it decodes to, up to the fields decoding ignores.
   */
  lemma DecodeInvertsEncode(msg: Message)
    ensures DecodeStateMessage(msg).Some? ==>
      var m := EncodeStateMessage(DecodeStateMessage(msg).value.0, DecodeStateMessage(msg).value.1);
      m.what == msg.what && m.arg1 == msg.arg1
  {
  }

  /** Two accepted messages decode to the same report only if their codes agree. */
  lemma DecodeIsInjective(m1: Message, m2: Message)
    requires DecodeStateMessage(m1).Some? && DecodeStateMessage(m1) == DecodeStateMessage(m2)
    ensures m1.what == m2.what && m1.arg1 == m2.arg1
  {
    DecodeInvertsEncode(m1);
    DecodeInvertsEncode(m2);
  }

  /** An explicit intent: its action and the package it is restricted to. */
  datatype Intent = Intent(action: string, targetPackage: string)

  /** The intents of `startBeepizMonitoring`, `stopBeepizMonitoring` and the service binding. */
  // Each is restricted to the Beepiz package, without which the system ignores it.
  function StartMonitoringIntent(): (r: Intent)
    ensures r.targetPackage == PackageName && r.action != StopAction && r.action != BindAction
  {
    Intent(StartAction, PackageName)
  }

  function StopMonitoringIntent(): (r: Intent)
    ensures r.targetPackage == PackageName && r.action != StartAction && r.action != BindAction
  {
    Intent(StopAction, PackageName)
  }

  function BindIntent(): (r: Intent)
    ensures r.targetPackage == PackageName && r.action != StartAction && r.action != StopAction
  {
    Intent(BindAction, PackageName)
  }

  /** Every intent targets the Beepiz package, and Beepiz can tell the three apart. */
  lemma IntentsTargetBeepizAndDiffer()
    ensures StartMonitoringIntent().targetPackage == PackageName
    ensures StopMonitoringIntent().targetPackage == PackageName
    ensures BindIntent().targetPackage == PackageName
    ensures StartMonitoringIntent() != StopMonitoringIntent()
    ensures BindIntent() != StartMonitoringIntent() && BindIntent() != StopMonitoringIntent()
  {
    ActionsAreDistinct();
  }

  /** An exception thrown by a send or by `handleState`. */
  datatype Fault =
    | DeadObject         // the remote process died (`DeadObjectException`)
    | Failure(code: int) // any other exception

  /**
   * How consumption of the incoming channel stops. The channel is never closed, so
   * `consumeEachAndCancelPrevious` never returns normally.
   */
  datatype Interruption =
    | ServiceDisconnected  // `withBoundService` cancels the block on disconnection
    | OuterCancellation    // the caller's own coroutine is cancelled
    | Thrown(fault: Fault) // an exception, typically from the running `handleState`

  datatype Completion = Returned | Cancelled | Threw(fault: Fault)

  /** The outer `catch`: a dead remote process ends the session normally. */
  function CatchDeadObject(fault: Fault): (c: Completion)
    ensures c == Returned <==> fault == DeadObject
    ensures c != Returned ==> c == Threw(fault)
  {
    if fault == DeadObject then Returned else Threw(fault)
  }

  datatype SessionEvent =
    | Sent(message: Message)                  // `service.send(message)` was called
    | Job(event: JobEvent<StateReport>)       // an event of a `handleState` job

  /** A message the client sends over the service messenger. */
  function ClientMessage(what: int32, replyTo: MessengerId, sdkInt: int): (m: Message)
    // Beepiz ignores requests that do not carry the client's reply messenger.
    ensures m.what == what && m.replyTo == Some(replyTo)
    // Asynchronous delivery is only requested where the platform supports it.
    ensures m.isAsynchronous <==> sdkInt >= 22
  {
    Message(what, 0, Some(replyTo), sdkInt >= 22)
  }

  function JobEvents(log: seq<JobEvent<StateReport>>): (r: seq<SessionEvent>) {
    seq(|log|, i requires 0 <= i < |log| => Job(log[i]))
  }

  /** How the scope of `consumeEachAndCancelPrevious` sees the interruption. */
  function EndingOf(interruption: Interruption): (r: Ending) {
    if interruption.Thrown? then ActionFailed else ConsumerCancelled
  }

  /**
   * One binding session once the service is connected.
   *   replyTo         the client's reply messenger
   *   sdkInt          the platform API level
   *   incoming        the messages Beepiz delivers to the reply messenger before the end
   *   registerFault   whether sending REGISTER_CLIENT throws
   *   interruption    how consumption stops
   *   unregisterFault whether sending UNREGISTER_CLIENT throws
   * The consumer is taken to receive each offered state before the next message arrives.
   */
  method RunUntilDisconnection(
    replyTo: MessengerId, sdkInt: int, incoming: seq<Message>,
    registerFault: Option<Fault>, interruption: Interruption, unregisterFault: Option<Fault>)
    returns (log: seq<SessionEvent>, completion: Completion)
    // REGISTER_CLIENT goes first, UNREGISTER_CLIENT last, both with the same reply messenger.
    ensures |log| >= 2
    ensures log[0] == Sent(ClientMessage(REGISTER_CLIENT, replyTo, sdkInt))
    ensures log[|log| - 1] == Sent(ClientMessage(UNREGISTER_CLIENT, replyTo, sdkInt))
    ensures forall i :: 0 < i < |log| - 1 ==> log[i].Job?
    // No job when registering failed.
    ensures registerFault.Some? ==> |log| == 2
    // Otherwise the cancel-previous schedule over the decoded states, then the scope's
    // exit: one launch per decoded state, in order, one job at a time, and the last
    // job cancelled (or failed) before UNREGISTER_CLIENT is sent.
    ensures registerFault.None? ==>
      var states := ForwardedValues(DecodeStateMessage, incoming);
      var jobs := Schedule(Initial(), states, false)
        + ScopeExit(FinalState(Initial(), states, false).job, EndingOf(interruption));
      log == [log[0]] + JobEvents(jobs) + [log[|log| - 1]] &&
      Launched(jobs) == states &&
      OneAtATime(None, jobs) && ActiveAfter(None, jobs) == None
    // An exception thrown in `finally` replaces the one thrown before it.
    ensures unregisterFault.Some? ==> completion == CatchDeadObject(unregisterFault.value)
    ensures unregisterFault.None? && registerFault.Some? ==> completion == CatchDeadObject(registerFault.value)
    // Disconnection is the ordinary end: the cancelled block does not fail `withBoundService`.
    ensures unregisterFault.None? && registerFault.None? ==>
      completion == match interruption
        case ServiceDisconnected => Returned
        case OuterCancellation => Cancelled
        case Thrown(fault) => CatchDeadObject(fault)
    ensures completion != Threw(DeadObject)
  {
    var channel := new ConflatedChannel<StateReport>();
    var handler := new ChannelMessageHandler(channel, DecodeStateMessage);
    log := [Sent(ClientMessage(REGISTER_CLIENT, replyTo, sdkInt))];
    if registerFault.Some? {
      completion := CatchDeadObject(registerFault.value);
    } else {
      var received: seq<StateReport> := [];
      for i := 0 to |incoming|
        invariant handler.weakChannelReference == channel && handler.mapMessage == DecodeStateMessage
        invariant channel.slot == None && !channel.isClosed
        invariant received == ForwardedValues(DecodeStateMessage, incoming[..i])
      {
        handler.HandleMessage(incoming[i]);
        var value := channel.TryReceive();
        if value.Some? {
          received := received + [value.value];
        }
        assert incoming[..i + 1][..i] == incoming[..i];
      }
      assert incoming[..|incoming|] == incoming;
      var jobs := ConsumeEachAndCancelPrevious(received, false, EndingOf(interruption));
      log := log + JobEvents(jobs);
      // Leaving `consumeEach` cancels the incoming channel.
      channel.Cancel();
      completion := match interruption
        case ServiceDisconnected => Returned
        case OuterCancellation => Cancelled
        case Thrown(fault) => CatchDeadObject(fault);
    }
    log := log + [Sent(ClientMessage(UNREGISTER_CLIENT, replyTo, sdkInt))];
    if unregisterFault.Some? {
      completion := CatchDeadObject(unregisterFault.value);
    }
  }
}
