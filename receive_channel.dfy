/**
 * `consumeEachAndCancelPrevious`: for every value received from a channel, cancel
 * (and join) the action launched for the previous value, then launch the action
 * for the new one. With `skipEquals`, a value equal to the one the running action
 * was launched with is skipped and leaves that action running.
 *
 * Coroutine jobs are abstract: the k-th launched job is identified by k, and the
 * loop's observable behaviour is the ordered log of launches and cancellations.
 */
module ReceiveChannels {
  import opened Wrappers

  datatype JobEvent<E> =
    | Launch(job: nat, value: E)     // `launch(context) { action(value) }`
    | CancelAndJoin(job: nat)        // `job.cancelAndJoin()`, or the scope cancelling its child
    | Joined(job: nat)               // the scope waiting for its child to finish
    | Failed(job: nat)               // the action threw, which fails the scope

  /**
   * How consumption stops: the channel is closed (`consumeEach` returns), the consumer
   * is cancelled, or the running action fails. `coroutineScope` then joins, cancels or
   * loses its one remaining child.
   */
  datatype Ending = ChannelClosed | ConsumerCancelled | ActionFailed

  /** The loop's mutable locals: `job`, `previousValue`, and how many jobs were launched. */
  datatype LoopState<E> = LoopState(job: Option<nat>, previousValue: Option<E>, launches: nat)

  function Initial<E>(): (r: LoopState<E>) {
    LoopState(None, None, 0)
  }

  /** The events the loop emits, from state `st`, for the values still to be received. */
  function Schedule<E(==)>(st: LoopState<E>, values: seq<E>, skipEquals: bool): (r: seq<JobEvent<E>>)
    // At most one cancellation and one launch per received value.
    ensures |r| <= 2 * |values|
    decreases |values|
  {
    if values == [] then []
    else
      var v := values[0];
      if st.job.Some? && skipEquals && st.previousValue == Some(v) then
        Schedule(st, values[1..], skipEquals)
      else
        (if st.job.Some? then [CancelAndJoin(st.job.value)] else [])
        + [Launch(st.launches, v)]
        + Schedule(LoopState(Some(st.launches), Some(v), st.launches + 1), values[1..], skipEquals)
  }

  /** The loop's locals once the values have been consumed. */
  function FinalState<E(==)>(st: LoopState<E>, values: seq<E>, skipEquals: bool): (r: LoopState<E>)
    // A job is running at the end exactly when one was running before or some value arrived.
    ensures r.job.Some? <==> st.job.Some? || values != []
    decreases |values|
  {
    if values == [] then st
    else
      var v := values[0];
      if st.job.Some? && skipEquals && st.previousValue == Some(v) then
        FinalState(st, values[1..], skipEquals)
      else
        FinalState(LoopState(Some(st.launches), Some(v), st.launches + 1), values[1..], skipEquals)
  }

  /** What `coroutineScope` does with the job still running when consumption stops. */
  function ScopeExit<E>(running: Option<nat>, ending: Ending): (r: seq<JobEvent<E>>)
    ensures running.None? ==> r == []
    ensures running.Some? ==> |r| == 1 && r[0].job == running.value && !r[0].Launch?
  {
    match running
    case None => []
    case Some(j) =>
      match ending
      case ChannelClosed => [Joined(j)]
      case ConsumerCancelled => [CancelAndJoin(j)]
      case ActionFailed => [Failed(j)]
  }

  /** The values actions were launched with, in launch order. */
  function Launched<E>(log: seq<JobEvent<E>>): (r: seq<E>)
    ensures |r| <= |log|
  {
    if log == [] then []
    else (if log[0].Launch? then [log[0].value] else []) + Launched(log[1..])
  }

  /**
   * At most one action is active at any time: a launch happens only when no job
   * is running, and a cancellation, join or failure always concerns the running job.
   */
  predicate OneAtATime<E>(active: Option<nat>, log: seq<JobEvent<E>>)
    decreases |log|
  {
    if log == [] then true
    else if log[0].Launch? then active.None? && OneAtATime(Some(log[0].job), log[1..])
    else active == Some(log[0].job) && OneAtATime(None, log[1..])
  }

  /** The job active after `log`, starting from `active`. */
  function ActiveAfter<E>(active: Option<nat>, log: seq<JobEvent<E>>): (r: Option<nat>)
    decreases |log|
  {
    if log == [] then active
    else ActiveAfter(if log[0].Launch? then Some(log[0].job) else None, log[1..])
  }

  lemma {:induction false} OneAtATimeAppend<E>(active: Option<nat>, a: seq<JobEvent<E>>, b: seq<JobEvent<E>>)
    requires OneAtATime(active, a) && OneAtATime(ActiveAfter(active, a), b)
    ensures OneAtATime(active, a + b)
    decreases |a|
  {
    if a == [] {
      assert a + b == b;
    } else {
      assert (a + b)[0] == a[0] && (a + b)[1..] == a[1..] + b;
      OneAtATimeAppend(if a[0].Launch? then Some(a[0].job) else None, a[1..], b);
    }
  }

  lemma {:induction false} ActiveAfterAppend<E>(active: Option<nat>, a: seq<JobEvent<E>>, b: seq<JobEvent<E>>)
    ensures ActiveAfter(active, a + b) == ActiveAfter(ActiveAfter(active, a), b)
    decreases |a|
  {
    if a == [] {
      assert a + b == b;
    } else {
      assert (a + b)[0] == a[0] && (a + b)[1..] == a[1..] + b;
      ActiveAfterAppend(if a[0].Launch? then Some(a[0].job) else None, a[1..], b);
    }
  }

  /** The job the schedule leaves running is the one in the loop's final locals. */
  lemma {:induction false} ScheduleLeavesFinalJob<E>(st: LoopState<E>, values: seq<E>, skipEquals: bool)
    ensures ActiveAfter(st.job, Schedule(st, values, skipEquals)) == FinalState(st, values, skipEquals).job
    decreases |values|
  {
    if values != [] {
      var v, rest := values[0], values[1..];
      assert values == [v] + rest;
      if st.job.Some? && skipEquals && st.previousValue == Some(v) {
        SkipKeepsSchedule(st, v, rest, skipEquals);
        ScheduleLeavesFinalJob(st, rest, skipEquals);
      } else {
        var st' := LoopState(Some(st.launches), Some(v), st.launches + 1);
        LaunchKeepsSchedule(st, v, rest, skipEquals);
        var head: seq<JobEvent<E>> :=
          (if st.job.Some? then [CancelAndJoin(st.job.value)] else []) + [Launch(st.launches, v)];
        assert Schedule(st, values, skipEquals) == head + Schedule(st', rest, skipEquals);
        assert ActiveAfter(st.job, head) == st'.job by {
          ActiveAfterAppend(st.job, head[..|head| - 1], [Launch(st.launches, v)]);
          assert head == head[..|head| - 1] + [Launch(st.launches, v)];
          assert ActiveAfter(ActiveAfter(st.job, head[..|head| - 1]), [Launch(st.launches, v)]) == st'.job;
        }
        ActiveAfterAppend(st.job, head, Schedule(st', rest, skipEquals));
        ScheduleLeavesFinalJob(st', rest, skipEquals);
      }
    }
  }

  /** Reference definition: the sequence with runs of equal consecutive values collapsed. */
  function Dedup<E(==)>(s: seq<E>): (r: seq<E>)
    ensures s != [] ==> r != [] && r[0] == s[0]
  {
    if |s| <= 1 then s
    else if s[0] == s[1] then Dedup(s[1..])
    else [s[0]] + Dedup(s[1..])
  }

  /** Collapsing runs leaves no two equal neighbours and never adds a value. */
  lemma {:induction false} DedupHasNoAdjacentDuplicates<E>(s: seq<E>)
    ensures forall i :: 0 <= i < |Dedup(s)| - 1 ==> Dedup(s)[i] != Dedup(s)[i + 1]
    ensures forall x :: x in Dedup(s) ==> x in s
    ensures |Dedup(s)| <= |s|
    decreases |s|
  {
    if |s| > 1 {
      DedupHasNoAdjacentDuplicates(s[1..]);
      if s[0] != s[1] {
        var d := Dedup(s[1..]);
        assert Dedup(s) == [s[0]] + d;
        forall i | 0 <= i < |Dedup(s)| - 1
          ensures Dedup(s)[i] != Dedup(s)[i + 1]
        {
          if i > 0 {
            assert Dedup(s)[i] == d[i - 1] && Dedup(s)[i + 1] == d[i];
          }
        }
      }
    }
  }

  lemma {:induction false} LaunchedAppend<E>(a: seq<JobEvent<E>>, b: seq<JobEvent<E>>)
    ensures Launched(a + b) == Launched(a) + Launched(b)
    decreases |a|
  {
    if a == [] {
      assert a + b == b;
    } else {
      assert (a + b)[0] == a[0];
      assert (a + b)[1..] == a[1..] + b;
      LaunchedAppend(a[1..], b);
      var h: seq<E> := if a[0].Launch? then [a[0].value] else [];
      calc {
        Launched(a + b);
        h + Launched(a[1..] + b);
        h + (Launched(a[1..]) + Launched(b));
        (h + Launched(a[1..])) + Launched(b);
      }
    }
  }

  /** Helper: unfolds one step of the schedule, the events for `v` then those for the rest. */
  lemma ScheduleStep<E>(st: LoopState<E>, v: E, rest: seq<E>, skipEquals: bool)
    ensures Schedule(st, [v] + rest, skipEquals) ==
      if st.job.Some? && skipEquals && st.previousValue == Some(v) then
        Schedule(st, rest, skipEquals)
      else
        (if st.job.Some? then [CancelAndJoin(st.job.value)] else [])
        + [Launch(st.launches, v)]
        + Schedule(LoopState(Some(st.launches), Some(v), st.launches + 1), rest, skipEquals)
    ensures FinalState(st, [v] + rest, skipEquals) ==
      if st.job.Some? && skipEquals && st.previousValue == Some(v) then
        FinalState(st, rest, skipEquals)
      else
        FinalState(LoopState(Some(st.launches), Some(v), st.launches + 1), rest, skipEquals)
  {
    assert ([v] + rest)[0] == v && ([v] + rest)[1..] == rest;
  }

  /** Without `skipEquals`, every received value launches an action, in order. */
  lemma {:induction false} EveryValueLaunches<E>(st: LoopState<E>, values: seq<E>)
    ensures Launched(Schedule(st, values, false)) == values
    decreases |values|
  {
    if values != [] {
      var v, rest := values[0], values[1..];
      assert values == [v] + rest;
      ScheduleStep(st, v, rest, false);
      var st' := LoopState(Some(st.launches), Some(v), st.launches + 1);
      var head: seq<JobEvent<E>> := (if st.job.Some? then [CancelAndJoin(st.job.value)] else []) + [Launch(st.launches, v)];
      EveryValueLaunches(st', rest);
      LaunchedAppend(head, Schedule(st', rest, false));
      assert Launched(head) == [v] by {
        if st.job.Some? {
          LaunchedAppend([CancelAndJoin(st.job.value)], [Launch(st.launches, v)]);
        }
      }
    }
  }

  /**
   * With `skipEquals`, while a job launched with `p` runs, the values launched for
   * the rest are those of the collapsed sequence that follow `p`.
   */
  lemma {:induction false} SkipEqualsFrom<E>(st: LoopState<E>, p: E, values: seq<E>)
    requires st.job.Some? && st.previousValue == Some(p)
    ensures Launched(Schedule(st, values, true)) == Dedup([p] + values)[1..]
    decreases |values|
  {
    if values == [] {
      assert [p] + values == [p];
    } else {
      var v, rest := values[0], values[1..];
      assert values == [v] + rest;
      ScheduleStep(st, v, rest, true);
      var pv := [p] + values;
      assert pv[0] == p && pv[1] == v && pv[1..] == [v] + rest;
      if v == p {
        SkipEqualsFrom(st, p, rest);
        assert Dedup(pv) == Dedup([v] + rest);
      } else {
        var st' := LoopState(Some(st.launches), Some(v), st.launches + 1);
        var head: seq<JobEvent<E>> := [CancelAndJoin(st.job.value)] + [Launch(st.launches, v)];
        SkipEqualsFrom(st', v, rest);
        LaunchedAppend(head, Schedule(st', rest, true));
        LaunchedAppend([CancelAndJoin(st.job.value)], [Launch(st.launches, v)]);
        var d := Dedup([v] + rest);
        assert d == [v] + d[1..];
        assert Dedup(pv) == [p] + d;
      }
    }
  }

  /** With `skipEquals`, the launched values are the input with consecutive duplicates removed. */
  lemma {:induction false} SkipEqualsLaunchesDedup<E>(values: seq<E>)
    ensures Launched(Schedule(Initial(), values, true)) == Dedup(values)
  {
    if values != [] {
      var v, rest := values[0], values[1..];
      assert values == [v] + rest;
      ScheduleStep(Initial(), v, rest, true);
      var st' := LoopState(Some(0), Some(v), 1);
      SkipEqualsFrom(st', v, rest);
      LaunchedAppend([Launch(0, v)], Schedule(st', rest, true));
      assert Dedup(values) == [v] + Dedup(values)[1..];
    }
  }

  /**
   * `previousValue` changes only together with a launch: after the loop it holds the value
   * the last action was launched with, or its old value when nothing was launched.
   */
  lemma {:induction false} PreviousValueIsLastLaunched<E>(st: LoopState<E>, values: seq<E>, skipEquals: bool)
    requires st.job.Some? ==> st.previousValue.Some?
    ensures var l := Launched(Schedule(st, values, skipEquals));
      FinalState(st, values, skipEquals).previousValue ==
        if l == [] then st.previousValue else Some(l[|l| - 1])
    decreases |values|
  {
    if values != [] {
      var v, rest := values[0], values[1..];
      assert values == [v] + rest;
      if st.job.Some? && skipEquals && st.previousValue == Some(v) {
        SkipKeepsSchedule(st, v, rest, skipEquals);
        PreviousValueIsLastLaunched(st, rest, skipEquals);
      } else {
        var st' := LoopState(Some(st.launches), Some(v), st.launches + 1);
        LaunchKeepsSchedule(st, v, rest, skipEquals);
        var head: seq<JobEvent<E>> :=
          (if st.job.Some? then [CancelAndJoin(st.job.value)] else []) + [Launch(st.launches, v)];
        var tail := Schedule(st', rest, skipEquals);
        assert Schedule(st, values, skipEquals) == head + tail;
        LaunchedAppend(head, tail);
        assert Launched(head) == [v] by {
          if st.job.Some? {
            LaunchedAppend([CancelAndJoin(st.job.value)], [Launch(st.launches, v)]);
          }
        }
        PreviousValueIsLastLaunched(st', rest, skipEquals);
      }
    }
  }

  /** The first received value always launches job 0, whatever `skipEquals` is. */
  lemma FirstValueLaunches<E>(values: seq<E>, skipEquals: bool)
    requires values != []
    ensures Schedule(Initial(), values, skipEquals)[0] == Launch(0, values[0])
  {
  }

  /** The running job is always cancelled and joined before the next one is launched. */
  lemma {:induction false} ScheduleIsOneAtATime<E>(st: LoopState<E>, values: seq<E>, skipEquals: bool)
    ensures OneAtATime(st.job, Schedule(st, values, skipEquals))
    decreases |values|
  {
    if values != [] {
      var v, rest := values[0], values[1..];
      assert values == [v] + rest;
      ScheduleStep(st, v, rest, skipEquals);
      if st.job.Some? && skipEquals && st.previousValue == Some(v) {
        ScheduleIsOneAtATime(st, rest, skipEquals);
      } else {
        var st' := LoopState(Some(st.launches), Some(v), st.launches + 1);
        var tail := Schedule(st', rest, skipEquals);
        ScheduleIsOneAtATime(st', rest, skipEquals);
        var afterLaunch := [Launch(st.launches, v)] + tail;
        assert afterLaunch[0] == Launch(st.launches, v) && afterLaunch[1..] == tail;
        assert OneAtATime(None, afterLaunch);
        if st.job.Some? {
          var all := [CancelAndJoin(st.job.value)] + afterLaunch;
          assert all[0] == CancelAndJoin(st.job.value) && all[1..] == afterLaunch;
          assert Schedule(st, values, skipEquals) == all;
        } else {
          assert Schedule(st, values, skipEquals) == afterLaunch;
        }
      }
    }
  }

  /** A cancellation never stands alone: it is immediately followed by a launch. */
  lemma {:induction false} CancelIsFollowedByLaunch<E>(st: LoopState<E>, values: seq<E>, skipEquals: bool)
    ensures var log := Schedule(st, values, skipEquals);
      forall i :: 0 <= i < |log| && log[i].CancelAndJoin? ==> i + 1 < |log| && log[i + 1].Launch?
    decreases |values|
  {
    if values != [] {
      var v, rest := values[0], values[1..];
      assert values == [v] + rest;
      ScheduleStep(st, v, rest, skipEquals);
      if st.job.Some? && skipEquals && st.previousValue == Some(v) {
        CancelIsFollowedByLaunch(st, rest, skipEquals);
      } else {
        var st' := LoopState(Some(st.launches), Some(v), st.launches + 1);
        var tail := Schedule(st', rest, skipEquals);
        CancelIsFollowedByLaunch(st', rest, skipEquals);
        var head: seq<JobEvent<E>> := (if st.job.Some? then [CancelAndJoin(st.job.value)] else []) + [Launch(st.launches, v)];
        var log := head + tail;
        assert Schedule(st, values, skipEquals) == log;
        forall i | 0 <= i < |log| && log[i].CancelAndJoin?
          ensures i + 1 < |log| && log[i + 1].Launch?
        {
          if i >= |head| {
            assert log[i] == tail[i - |head|];
            assert log[i + 1] == tail[i + 1 - |head|];
          }
        }
      }
    }
  }

  /** Helper: `ScheduleStep` in the skip case. */
  lemma SkipKeepsSchedule<E>(st: LoopState<E>, v: E, rest: seq<E>, skipEquals: bool)
    requires st.job.Some? && skipEquals && st.previousValue == Some(v)
    ensures Schedule(st, [v] + rest, skipEquals) == Schedule(st, rest, skipEquals)
    ensures FinalState(st, [v] + rest, skipEquals) == FinalState(st, rest, skipEquals)
  {
    ScheduleStep(st, v, rest, skipEquals);
  }

  /**
   * While a job launched with `v` runs, under `skipEquals` a whole run of values equal
   * to `v` is skipped: it emits nothing and leaves the loop's locals as they were.
   */
  lemma {:induction false} SkipRunKeepsSchedule<E>(st: LoopState<E>, v: E, n: nat, rest: seq<E>)
    requires st.job.Some? && st.previousValue == Some(v)
    ensures Schedule(st, seq(n, _ => v) + rest, true) == Schedule(st, rest, true)
    ensures FinalState(st, seq(n, _ => v) + rest, true) == FinalState(st, rest, true)
    decreases n
  {
    if n == 0 {
      assert seq(n, _ => v) + rest == rest;
    } else {
      assert seq(n, _ => v) + rest == [v] + (seq(n - 1, _ => v) + rest);
      SkipKeepsSchedule(st, v, seq(n - 1, _ => v) + rest, true);
      SkipRunKeepsSchedule(st, v, n - 1, rest);
    }
  }

  /** Helper: `ScheduleStep` in the launch case. */
  lemma LaunchKeepsSchedule<E>(st: LoopState<E>, v: E, rest: seq<E>, skipEquals: bool)
    requires !(st.job.Some? && skipEquals && st.previousValue == Some(v))
    ensures var next := LoopState(Some(st.launches), Some(v), st.launches + 1);
      Schedule(st, [v] + rest, skipEquals) ==
        (if st.job.Some? then [CancelAndJoin(st.job.value)] else [])
        + [Launch(st.launches, v)] + Schedule(next, rest, skipEquals)
    ensures FinalState(st, [v] + rest, skipEquals)
      == FinalState(LoopState(Some(st.launches), Some(v), st.launches + 1), rest, skipEquals)
  {
    ScheduleStep(st, v, rest, skipEquals);
  }

  /** Helper: `LaunchKeepsSchedule` after the events already in `log`, as the loop's invariant needs it. */
  lemma LaunchExtendsLog<E>(st: LoopState<E>, v: E, rest: seq<E>, skipEquals: bool, log: seq<JobEvent<E>>)
    requires !(st.job.Some? && skipEquals && st.previousValue == Some(v))
    ensures var next := LoopState(Some(st.launches), Some(v), st.launches + 1);
      log + Schedule(st, [v] + rest, skipEquals) ==
        (if st.job.Some? then log + [CancelAndJoin(st.job.value)] else log)
        + [Launch(st.launches, v)] + Schedule(next, rest, skipEquals)
    ensures FinalState(st, [v] + rest, skipEquals)
      == FinalState(LoopState(Some(st.launches), Some(v), st.launches + 1), rest, skipEquals)
  {
    LaunchKeepsSchedule(st, v, rest, skipEquals);
  }

  /**
   * The whole run, loop and scope exit together: the launched values are the input
   * (collapsed under `skipEquals`), one job at a time, and no job is left running.
   */
  lemma ScopedScheduleIsSound<E>(received: seq<E>, skipEquals: bool, ending: Ending)
    ensures var scheduled := Schedule(Initial(), received, skipEquals);
      var log := scheduled + ScopeExit(FinalState(Initial(), received, skipEquals).job, ending);
      Launched(log) == (if skipEquals then Dedup(received) else received) &&
      OneAtATime(None, log) && ActiveAfter(None, log) == None
  {
    var scheduled := Schedule(Initial(), received, skipEquals);
    var exit: seq<JobEvent<E>> := ScopeExit(FinalState(Initial(), received, skipEquals).job, ending);
    if skipEquals {
      SkipEqualsLaunchesDedup(received);
    } else {
      EveryValueLaunches(Initial(), received);
    }
    LaunchedAppend(scheduled, exit);
    if exit != [] {
      assert exit[1..] == [];
    }
    ScheduleIsOneAtATime(Initial(), received, skipEquals);
    ScheduleLeavesFinalJob(Initial(), received, skipEquals);
    OneAtATimeAppend(None, scheduled, exit);
    ActiveAfterAppend(None, scheduled, exit);
  }

  /**
   * `consumeEachAndCancelPrevious` over the values received before consumption stops,
   * including what its `coroutineScope` does with the last job on the way out.
   */
  method ConsumeEachAndCancelPrevious<E(==)>(received: seq<E>, skipEquals: bool, ending: Ending)
    returns (log: seq<JobEvent<E>>)
    ensures log == Schedule(Initial(), received, skipEquals)
      + ScopeExit(FinalState(Initial(), received, skipEquals).job, ending)
    ensures Launched(log) == if skipEquals then Dedup(received) else received
    // At most one action at a time, and none outlives the scope.
    ensures OneAtATime(None, log) && ActiveAfter(None, log) == None
  {
    var job: Option<nat> := None;
    var previousValue: Option<E> := None;
    var launches: nat := 0;
    log := [];
    for i := 0 to |received|
      invariant job.Some? ==> previousValue.Some? && job.value + 1 == launches
      invariant log + Schedule(LoopState(job, previousValue, launches), received[i..], skipEquals)
             == Schedule(Initial(), received, skipEquals)
      invariant FinalState(LoopState(job, previousValue, launches), received[i..], skipEquals)
             == FinalState(Initial(), received, skipEquals)
    {
      var newValue := received[i];
      ghost var st := LoopState(job, previousValue, launches);
      ghost var rest := received[i + 1..];
      assert received[i..] == [newValue] + rest;
      if job.Some? && skipEquals && previousValue == Some(newValue) {
        SkipKeepsSchedule(st, newValue, rest, skipEquals);
      } else {
        LaunchExtendsLog(st, newValue, rest, skipEquals, log);
        if job.Some? {
          log := log + [CancelAndJoin(job.value)];
        }
        previousValue := Some(newValue);
        log := log + [Launch(launches, newValue)];
        job := Some(launches);
        launches := launches + 1;
      }
    }
    assert received[|received|..] == [];
    log := log + ScopeExit(job, ending);
    ScopedScheduleIsSound(received, skipEquals, ending);
  }
}
