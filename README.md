# Beepiz external control — a Dafny model

This project models the client logic of the Beepiz external-control sample app.
A third-party Android app binds to the Beepiz service and registers a reply messenger.
Beepiz then reports its monitoring state and whether it needs configuration, and the app shows one Start or Stop button accordingly.

The modelled parts are:

- the protocol constants and the intents built from them (`BeepizBindingConstants`, `BeepizBinding`);
- the decoder of Beepiz's state messages, paired with the matching encoder (`BeepizBinding`);
- one binding session of `runBeepizBindingUntilDisconnection`. It sends REGISTER_CLIENT, relays the decoded states to `handleState` jobs, and sends UNREGISTER_CLIENT in `finally`. A dead remote process ends it normally (`BeepizBinding.RunUntilDisconnection`);
- the message handler that maps each message and offers the non-null results to a weakly held conflated channel (`ChannelMessageHandling`);
- the cancel-previous / skip-equals loop of `consumeEachAndCancelPrevious` (`ReceiveChannels`);
- index-based list iteration with size-change detection (`Lists`);
- the screen's decision table: which button to wait for and which command to issue (`MainActivity`).

Coroutine jobs are abstract: the k-th launched job is the number k.
A loop's observable behaviour is the ordered log of its jobs' events: launched, cancelled and joined, joined at the end, or failed.
The session's log holds the messages sent to the service and these job events.
Android's `Message` is a datatype with `what`, `arg1`, `replyTo` and `isAsynchronous`.
Kotlin's `Int` is the `int32` newtype.

## Model

| member | source | states |
|---|---|---|
| BeepizBindingConstants.PermissionIsScopedToPackage | example-app/src/main/java/com/example/beepizcontrol/BeepizBindingConstants.kt:14-23 | the permission is the package name, a dot, then `permission.CONTROL_MONITORING` |
| BeepizBindingConstants.CodesAreDistinct | example-app/src/main/java/com/example/beepizcontrol/BeepizBindingConstants.kt:38-67 | REGISTER/UNREGISTER, MONITORING/NOT_MONITORING and REQUIRES_CONFIG/CONFIG_OK are pairwise distinct, so each field decodes unambiguously |
| BeepizBindingConstants.ActionsAreDistinct | example-app/src/main/java/com/example/beepizcontrol/BeepizBindingConstants.kt:29-79 | the bind, start and stop actions are pairwise distinct |
| BeepizBinding.IntentsTargetBeepizAndDiffer | example-app/src/main/java/com/example/beepizcontrol/BeepizBinding.kt:32-64 | the start, stop and bind intents all target the Beepiz package and are pairwise different |
| BeepizBinding.DecodeStateMessage | example-app/src/main/java/com/example/beepizcontrol/BeepizBinding.kt:70-81 | a message is accepted exactly when `what` is one of the two state codes and `arg1` one of the two config codes |
| BeepizBinding.EncodeStateMessage | example-app/src/main/java/com/example/beepizcontrol/BeepizBinding.kt:71-81 | round trip: decoding the encoding of any `(state, requiresConfig)` gives back that pair |
| BeepizBinding.DecodeMonitoring | example-app/src/main/java/com/example/beepizcontrol/BeepizBinding.kt:72-78 | CURRENTLY_MONITORING with a valid `arg1` decodes to MONITORING, with requiresConfig true exactly for ARG1_REQUIRES_CONFIG |
| BeepizBinding.DecodeNotMonitoring | example-app/src/main/java/com/example/beepizcontrol/BeepizBinding.kt:74-78 | CURRENTLY_NOT_MONITORING with a valid `arg1` decodes to NOT_MONITORING, with requiresConfig true exactly for ARG1_REQUIRES_CONFIG |
| BeepizBinding.DecodeRejectsUnknownWhat | example-app/src/main/java/com/example/beepizcontrol/BeepizBinding.kt:75 | any other `what` is rejected, whatever `arg1` is |
| BeepizBinding.DecodeRejectsUnknownArg1 | example-app/src/main/java/com/example/beepizcontrol/BeepizBinding.kt:79 | any other `arg1` is rejected, even with a valid `what` |
| BeepizBinding.DecodeInvertsEncode | example-app/src/main/java/com/example/beepizcontrol/BeepizBinding.kt:70-81 | every accepted message has the codes of the encoding of the pair it decodes to |
| BeepizBinding.DecodeIsInjective | example-app/src/main/java/com/example/beepizcontrol/BeepizBinding.kt:72-80 | two accepted messages decode to the same pair only if their `what` and `arg1` agree |
| BeepizBinding.ClientMessage | example-app/src/main/java/com/example/beepizcontrol/BeepizBinding.kt:85-100 | REGISTER_CLIENT and UNREGISTER_CLIENT messages carry the client's reply messenger, and they request asynchronous delivery exactly from API level 22 |
| BeepizBinding.StartMonitoringIntent | example-app/src/main/java/com/example/beepizcontrol/BeepizBinding.kt:33-35 | the start broadcast is restricted to the Beepiz package, and its action is neither stop nor bind |
| BeepizBinding.StopMonitoringIntent | example-app/src/main/java/com/example/beepizcontrol/BeepizBinding.kt:43-45 | the stop broadcast is restricted to the Beepiz package, and its action is neither start nor bind |
| BeepizBinding.BindIntent | example-app/src/main/java/com/example/beepizcontrol/BeepizBinding.kt:62-64 | the bind intent is restricted to the Beepiz package, and its action is neither start nor stop |
| BeepizBinding.CatchDeadObject | example-app/src/main/java/com/example/beepizcontrol/BeepizBinding.kt:104-105 | the session ends normally exactly when the exception is a `DeadObjectException`; any other exception propagates unchanged |
| BeepizBinding.RunUntilDisconnection | example-app/src/main/java/com/example/beepizcontrol/BeepizBinding.kt:59-106 | REGISTER_CLIENT is sent first and UNREGISTER_CLIENT last, both with the same reply messenger, whatever happens. Between them, when registering did not throw, come the `handleState` jobs: one launch per decoded state, in order, one job at a time. The scope then cancels the last job, or that job has failed, before UNREGISTER_CLIENT is sent. A disconnection ends the session normally, an outer cancellation propagates as cancellation, and a dead remote ends it normally. Any other exception propagates, and one thrown in `finally` replaces the one thrown before it |
| ChannelMessageHandling.ConflatedChannel.constructor | example-app/src/main/java/com/example/beepizcontrol/BeepizBinding.kt:67-69 | the incoming channel starts empty and open |
| ChannelMessageHandling.ConflatedChannel.OfferCatching | example-app/src/main/java/com/example/beepizcontrol/extensions/coroutines/SendChannel.kt:9-11 | an offer to an open conflated channel overwrites its slot and succeeds; an offer to a closed channel is swallowed, returns false and changes nothing |
| ChannelMessageHandling.ConflatedChannel.TryReceive | example-app/src/main/java/com/example/beepizcontrol/BeepizBinding.kt:92 | receiving takes the buffered value and empties the slot |
| ChannelMessageHandling.ConflatedChannel.Cancel | example-app/src/main/java/com/example/beepizcontrol/BeepizBinding.kt:92-94 | when consumption stops, the channel is closed and its slot dropped |
| ChannelMessageHandling.ChannelMessageHandler.constructor | example-app/src/main/java/com/example/beepizcontrol/extensions/android/os/ChannelMessageHandler.kt:13-18 | the handler holds the channel through its weak reference and keeps the mapping |
| ChannelMessageHandling.ChannelMessageHandler.Collect | example-app/src/main/java/com/example/beepizcontrol/extensions/android/os/ChannelMessageHandler.kt:18 | once collected, the weak reference yields null |
| ChannelMessageHandling.ChannelMessageHandler.HandleMessage | example-app/src/main/java/com/example/beepizcontrol/extensions/android/os/ChannelMessageHandler.kt:20-25 | with the channel gone, nothing happens and the mapping is not applied. Otherwise the message is mapped once: a null result never reaches the channel, and a non-null result is offered exactly once, ignored by a closed channel |
| ChannelMessageHandling.ForwardedValues | example-app/src/main/java/com/example/beepizcontrol/extensions/android/os/ChannelMessageHandler.kt:20-24 | over a run of messages reaching a live, open channel, at most one value is forwarded per message, and none when every message maps to null |
| ChannelMessageHandling.ForwardedValuesAreMappedMessages | example-app/src/main/java/com/example/beepizcontrol/extensions/android/os/ChannelMessageHandler.kt:20-24 | over a run of messages, a value reaches the channel exactly when some message maps to it |
| ReceiveChannels.Schedule | example-app/src/main/java/com/example/beepizcontrol/extensions/coroutines/ReceiveChannel.kt:20-30 | the launch/cancel events of the loop for the values still to come: at most two events per value in total |
| ReceiveChannels.FinalState | example-app/src/main/java/com/example/beepizcontrol/extensions/coroutines/ReceiveChannel.kt:20-30 | the loop's final `job`/`previousValue`: a job is running at the end exactly when one was running before or some value arrived |
| ReceiveChannels.ScopeExit | example-app/src/main/java/com/example/beepizcontrol/extensions/coroutines/ReceiveChannel.kt:19 | when consumption stops, `coroutineScope` acts once on the job still running, joining, cancelling or losing it to failure, and does nothing when no job was ever launched |
| ReceiveChannels.ScheduleLeavesFinalJob | example-app/src/main/java/com/example/beepizcontrol/extensions/coroutines/ReceiveChannel.kt:20-30 | the job active after the loop's events is the one in the loop's final `job` variable |
| ReceiveChannels.ScopedScheduleIsSound | example-app/src/main/java/com/example/beepizcontrol/extensions/coroutines/ReceiveChannel.kt:19-31 | over the loop and the scope's exit, launched values are the input, or the input with consecutive duplicates removed under skipEquals. At most one job is active at a time, and none is left running |
| ReceiveChannels.ConsumeEachAndCancelPrevious | example-app/src/main/java/com/example/beepizcontrol/extensions/coroutines/ReceiveChannel.kt:15-31 | the loop over `job`/`previousValue`, followed by the scope's exit, emits the schedule. Its launched values are the input, or the input with consecutive duplicates removed under skipEquals. At most one job is active at any time, and none outlives the call |
| ReceiveChannels.SkipRunKeepsSchedule | example-app/src/main/java/com/example/beepizcontrol/extensions/coroutines/ReceiveChannel.kt:23-24 | under skipEquals, while a job launched with `v` runs, any number of further values equal to `v` emit no cancellation and no launch, and leave the loop's locals, and so its final state, unchanged |
| ReceiveChannels.PreviousValueIsLastLaunched | example-app/src/main/java/com/example/beepizcontrol/extensions/coroutines/ReceiveChannel.kt:23-29 | `previousValue` changes only together with a launch: after the loop it holds the value of the last launched action, or its old value when nothing was launched |
| ReceiveChannels.FirstValueLaunches | example-app/src/main/java/com/example/beepizcontrol/extensions/coroutines/ReceiveChannel.kt:21-23 | the first value always launches job 0, even with skipEquals |
| ReceiveChannels.EveryValueLaunches | example-app/src/main/java/com/example/beepizcontrol/extensions/coroutines/ReceiveChannel.kt:22-29 | without skipEquals, every received value launches an action, in order |
| ReceiveChannels.SkipEqualsLaunchesDedup | example-app/src/main/java/com/example/beepizcontrol/extensions/coroutines/ReceiveChannel.kt:22-29 | with skipEquals, the launched values are the input with consecutive duplicates removed |
| ReceiveChannels.DedupHasNoAdjacentDuplicates | example-app/src/main/java/com/example/beepizcontrol/extensions/coroutines/ReceiveChannel.kt:24 | so under skipEquals no two successive launches carry equal values, and no value is invented |
| ReceiveChannels.ScheduleIsOneAtATime | example-app/src/main/java/com/example/beepizcontrol/extensions/coroutines/ReceiveChannel.kt:24-29 | a job is launched only when none is running, and every cancellation targets the running job |
| ReceiveChannels.CancelIsFollowedByLaunch | example-app/src/main/java/com/example/beepizcontrol/extensions/coroutines/ReceiveChannel.kt:24-29 | a cancellation is always immediately followed by a launch, so a skipped value cancels nothing |
| Lists.ByIndex | example-app/src/main/java/com/example/beepizcontrol/extensions/collections/Lists.kt:13-17 | the index loop over the range fixed at the start. Completing means one call per index. A failure at index k comes after one call per earlier index, before index k is read, and only when the size no longer matches |
| Lists.IntactUpTo | example-app/src/main/java/com/example/beepizcontrol/extensions/collections/Lists.kt:13-17 | while the size is intact before each read, call j receives element j of the list as modified by the first j calls; the loop then fails at the first index whose read finds the size changed, or completes at the end of the range |
| Lists.ForEachByIndex | example-app/src/main/java/com/example/beepizcontrol/extensions/collections/Lists.kt:12-18 | the loop follows the index-range specification. On completion it has made one call per initial index. On failure at index k it made exactly k calls, 0 < k < initial size, and the size had changed |
| Lists.SameSizeCompletes | example-app/src/main/java/com/example/beepizcontrol/extensions/collections/Lists.kt:7-16 | an action that never resizes the list is never detected. The loop completes, and call k receives element k of the list as modified so far |
| Lists.ReadOnlyVisitsEachElementInOrder | example-app/src/main/java/com/example/beepizcontrol/extensions/collections/Lists.kt:14-16 | an action that leaves the list alone is called on each element exactly once, in index order |
| Lists.SecondCallResizeFailsAtTwo | example-app/src/main/java/com/example/beepizcontrol/extensions/collections/Lists.kt:12-16 | an action whose effect depends on its own earlier calls (it grows the list on its second call only) is detected before index 2 is read, after exactly two calls |
| Lists.EmptyListNoCalls | example-app/src/main/java/com/example/beepizcontrol/extensions/collections/Lists.kt:14 | an empty list causes no call |
| Lists.ResizeIsDetectedAtNextIndex | example-app/src/main/java/com/example/beepizcontrol/extensions/collections/Lists.kt:13-15 | for every index k of the range after the first, a resize by call k-1 (with the size intact before) fails the loop at index k, before that element is read, after exactly k calls |
| Lists.ResizeByLastCallUndetected | example-app/src/main/java/com/example/beepizcontrol/extensions/collections/Lists.kt:13-16 | for any list, when the size is intact before every read, the loop completes with one call per index, whatever the last call does to the size, because the range was fixed when the loop started |
| MainActivity.Reaction | example-app/src/main/java/com/example/beepizcontrol/MainActivity.kt:35-48 | one command, issued only after the awaited request. Stop is awaited exactly when monitoring. Configuration launch happens exactly when requiresConfig. Start is never sent while monitoring, and stop never while not monitoring |
| MainActivity.CommandsFollowReportedState | example-app/src/main/java/com/example/beepizcontrol/MainActivity.kt:35-48 | for a decoded message, start is sent iff Beepiz reported NOT_MONITORING with CONFIG_OK, stop iff MONITORING with CONFIG_OK, and configuration is launched iff REQUIRES_CONFIG |

## Left out

- RunUntilDisconnection: assumes the consumer receives each offered state before the next message arrives. The conflated channel's dropping of unread states depends on thread scheduling and is not modelled.
- RunUntilDisconnection: the `handleState` jobs are represented only by their launch and cancel events. What `handleState` does, and its concurrency with the consumer, are not modelled.
- RunUntilDisconnection: the exceptions are parameters: whether each send throws, and how consumption stops (disconnection, outer cancellation, or an exception). The incoming channel is never closed, so consumption never ends normally.
- RunUntilDisconnection: a disconnection is taken to arrive after the block has started. A disconnection before `block` runs never reaches this code.
- `withBoundService` (bindService/unbindService, the 3-second connection timeout, and the race between disconnection and completion) is platform IPC and is not modelled. So is `raceOf`.
- `beepizStateFlow`, `repeatWhileActive` and the package-installed checks are coroutine and PackageManager plumbing with no terminating behaviour to specify.
- MainActivity: `collectLatest` cancels a pending reaction when a new state arrives. Lifecycle, permission dialogs and the UI are not modelled. A missing launch intent for the Beepiz package is not modelled either: in that case opening Beepiz does nothing.
- The `context` parameter of `consumeEachAndCancelPrevious` (the dispatcher jobs run on) has no observable effect in the model.
- ForEachByIndex: `action` is modelled by its effect on the list, as a function of its call number, the current contents and the element. A run is deterministic, so this covers an action whose effect depends on its earlier calls. Any side effect outside the list is not modelled. `forEachByIndex` is an `inline` function, so `action` can also end the loop at a call by throwing or by a non-local `return`, and that exit reaches the caller. The model has no such exit: every call returns new contents and the loop goes on.
- Android's `Handler` threading and the `Messenger` transport are not modelled. A messenger is an opaque number.
- Garbage collection is represented only by `Collect`, which clears the weak reference.
