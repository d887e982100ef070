/**
 * The screen's reaction to each state Beepiz reports: wait for the user's click on
 * the one button shown for that state, then either open Beepiz so the user can fix
 * its configuration, or broadcast the start or stop request.
 */
module MainActivity {
  import opened Messages
  import opened BeepizBindingConstants
  import opened BeepizBinding

  datatype UserRequest = StartRequest | StopRequest

  datatype Command = LaunchBeepizForConfiguration | StartMonitoring | StopMonitoring

  datatype UiStep = AwaitRequest(request: UserRequest) | Issue(command: Command)

  /** The steps taken for one reported `(state, requiresConfig)`, in order. */
  function Reaction(state: MonitoringState, requiresConfig: bool): (steps: seq<UiStep>)
    // Exactly one command, issued only once the user's request has completed.
    ensures |steps| == 2 && steps[0].AwaitRequest? && steps[1].Issue?
    // The button offered is the one that toggles the reported state.
    ensures steps[0].request == StopRequest <==> state == Monitoring
    // Configuration problems always send the user to Beepiz instead of commanding it.
    ensures steps[1].command == LaunchBeepizForConfiguration <==> requiresConfig
    // Start is never sent while monitoring, stop never while not monitoring.
    ensures steps[1].command == StartMonitoring ==> state == NotMonitoring && steps[0].request == StartRequest
    ensures steps[1].command == StopMonitoring ==> state == Monitoring && steps[0].request == StopRequest
  {
    match state
    case Monitoring =>
      [AwaitRequest(StopRequest), Issue(if requiresConfig then LaunchBeepizForConfiguration else StopMonitoring)]
    case NotMonitoring =>
      [AwaitRequest(StartRequest), Issue(if requiresConfig then LaunchBeepizForConfiguration else StartMonitoring)]
  }

  /**
   * Against the wire protocol: start is only ever sent after Beepiz reported, with
   * valid codes, that it is not monitoring and that its configuration is fine;
   * stop only after it reported monitoring with a fine configuration.
   */
  lemma CommandsFollowReportedState(msg: Message)
    requires DecodeStateMessage(msg).Some?
    ensures var report := DecodeStateMessage(msg).value;
      var command := Reaction(report.0, report.1)[1].command;
      (command == StartMonitoring <==> msg.what == CURRENTLY_NOT_MONITORING && msg.arg1 == ARG1_CONFIG_OK) &&
      (command == StopMonitoring <==> msg.what == CURRENTLY_MONITORING && msg.arg1 == ARG1_CONFIG_OK) &&
      (command == LaunchBeepizForConfiguration <==> msg.arg1 == ARG1_REQUIRES_CONFIG)
  {
  }
}
