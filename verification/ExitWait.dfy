/** The bounded wait of a relaunched GUI before it terminates anything (gui/main.py:216-334). Processes
    are observed, never signalled; the clock is monotone and a sleep may overshoot by any amount. */
module ExitWait {
  import opened Wrappers
  import opened RealFacts

  const StopInProgressWait: real := 45.0
  const ExitPoll: real := 0.25

  /** One look at a process: Some(true) alive, Some(false) gone, None unobservable. */
  datatype Sight = Sight(pid: nat, alive: Option<bool>)

  /** A monotone clock that also accounts for where the time went: sleeps that were asked for, and
      everything else (overshoot, scheduling, the observations themselves). */
  class Clock {
    var now: real
    ghost var slept: real
    ghost var other: real
    ghost var seen: seq<Sight>  // every observation so far

    constructor ()
      ensures now == 0.0 && slept == 0.0 && other == 0.0 && seen == []
    {
      now, slept, other, seen := 0.0, 0.0, 0.0, [];
    }

    method Sleep(d: real)
      requires d >= 0.0
      modifies this
      ensures slept == old(slept) + d && other >= old(other) && seen == old(seen)
      ensures now - old(now) == (slept - old(slept)) + (other - old(other))
    {
      var extra: real :| extra >= 0.0;
      now := now + d + extra;
      slept := slept + d;
      other := other + extra;
    }

    method Observe(pid: nat) returns (alive: Option<bool>)
      modifies this
      ensures slept == old(slept) && other >= old(other)
      ensures now - old(now) == other - old(other)
      ensures seen == old(seen) + [Sight(pid, alive)]
    {
      var extra: real :| extra >= 0.0;
      now := now + extra;
      other := other + extra;
      var observable: bool := *;
      var state: bool := *;
      alive := if observable then Some(state) else None;
      seen := seen + [Sight(pid, alive)];
    }
  }

  /** A wait looks at its process until it is not seen alive or the time is up, and reports the last look. */
  ghost predicate Waited(sights: seq<Sight>, pid: nat, exited: Option<bool>) {
    && |sights| > 0
    && (forall i :: 0 <= i < |sights| ==> sights[i].pid == pid)
    && (forall i :: 0 <= i < |sights| - 1 ==> sights[i].alive == Some(true))
    && match sights[|sights| - 1].alive
       case None => exited == None
       case Some(alive) => exited == Some(!alive)
  }

  /** Polls left until the deadline. */
  function PollsLeft(remaining: real): nat {
    if remaining <= 0.0 then 0 else (remaining / ExitPoll).Floor + 1
  }

  lemma PollsShrink(remaining: real, slept: real)
    requires remaining > 0.0 && slept >= Min(ExitPoll, remaining)
    ensures PollsLeft(remaining - slept) < PollsLeft(remaining)
  {
  }

  /** _wait_for_process_exit_posix: it asks for no more sleep than the timeout, and for a quarter of a second at
      most between two looks, reports a live process only once the timeout has passed, and ends. */
  method WaitForProcessExit(clock: Clock, pid: nat, timeout: real) returns (exited: Option<bool>)
    modifies clock
    ensures old(clock.seen) <= clock.seen && Waited(clock.seen[|old(clock.seen)|..], pid, exited)
    ensures clock.slept - old(clock.slept) <= 0.25 * (|clock.seen| - |old(clock.seen)| - 1) as real
    ensures 0.0 <= clock.slept - old(clock.slept) <= Max(0.0, timeout)
    ensures clock.other >= old(clock.other)
    ensures clock.now - old(clock.now) == (clock.slept - old(clock.slept)) + (clock.other - old(clock.other))
    ensures exited == Some(false) ==> clock.now - old(clock.now) >= Max(0.0, timeout)
  {
    var deadline := clock.now + Max(0.0, timeout);
    while true
      invariant 0.0 <= clock.slept - old(clock.slept) <= Max(0.0, timeout)
      invariant clock.other >= old(clock.other) && old(clock.seen) <= clock.seen
      invariant forall i :: |old(clock.seen)| <= i < |clock.seen| ==> clock.seen[i] == Sight(pid, Some(true))
      invariant clock.slept - old(clock.slept) <= 0.25 * (|clock.seen| - |old(clock.seen)|) as real
      invariant clock.now - old(clock.now) == (clock.slept - old(clock.slept)) + (clock.other - old(clock.other))
      decreases PollsLeft(deadline - clock.now), 1
    {
      ghost var before := deadline - clock.now;
      var alive := clock.Observe(pid);
      if alive.None? {
        return None;
      }
      if !alive.value {
        return Some(true);
      }
      var remaining := deadline - clock.now;
      if remaining <= 0.0 {
        return Some(false);
      }
      clock.Sleep(Min(ExitPoll, remaining));
      PollsShrink(before, before - (deadline - clock.now));
    }
  }

  /** A request a file carries: the engine it names and the GUI that wrote it. */
  datatype Request = Request(pid: nat, requester: Option<nat>)

  /** Whom to wait for: the engine, then possibly the GUI that is stopping it. */
  datatype Target = Target(engine: nat, gui: Option<nat>)

  function RunningOnly(requester: Option<nat>, guis: set<nat>): Option<nat> {
    if requester.Some? && requester.value in guis then requester else None
  }

  /** A stop is under way when the flag names a running engine, or the stop marker does and the GUI that
      wrote it still runs. */
  function StopUnderWay(flag: Option<Request>, marker: Option<Request>, engines: set<nat>, guis: set<nat>)
      : Option<Target>
  {
    if flag.Some? && flag.value.pid in engines
    then Some(Target(flag.value.pid, RunningOnly(flag.value.requester, guis)))
    else if marker.Some? && marker.value.pid in engines
            && marker.value.requester.Some? && marker.value.requester.value in guis
    then Some(Target(marker.value.pid, marker.value.requester))
    else None
  }

  /** The engine waited for runs, and the flag names it, or the marker does and its writer still runs; the flag
      goes first. The GUI waited for runs and wrote that request. */
  lemma StopUnderWayIff(flag: Option<Request>, marker: Option<Request>, engines: set<nat>, guis: set<nat>)
    ensures StopUnderWay(flag, marker, engines, guis).None?
       <==> && (forall pid, writer :: flag == Some(Request(pid, writer)) ==> pid !in engines)
            && (forall pid, writer: nat :: marker == Some(Request(pid, Some(writer))) ==> pid !in engines || writer !in guis)
    ensures forall engine, gui :: StopUnderWay(flag, marker, engines, guis) == Some(Target(engine, gui)) ==>
              && engine in engines && (gui.Some? ==> gui.value in guis)
              && if flag.Some? && flag.value.pid in engines
                 then flag.value.pid == engine && (gui == flag.value.requester || gui == None)
                      && (gui.None? ==> flag.value.requester.None? || flag.value.requester.value !in guis)
                 else marker == Some(Request(engine, gui)) && gui.Some?
  {
  }

  /** _await_stop_in_progress: the engine first, then its GUI with what is left of the 45 seconds. The two
      waits together never ask for more than 45 seconds of sleep, however long each really took. */
  method AwaitStopInProgress(clock: Clock, flag: Option<Request>, marker: Option<Request>,
                             engines: set<nat>, guis: set<nat>)
      returns (target: Option<Target>, engineExited: Option<bool>, guiExited: Option<bool>)
    modifies clock
    ensures target == StopUnderWay(flag, marker, engines, guis)
    ensures target.None? ==> clock.now == old(clock.now) && clock.seen == old(clock.seen)
    ensures target.Some? ==>
              exists m :: && |old(clock.seen)| <= m <= |clock.seen|
                          && Waited(clock.seen[|old(clock.seen)|..m], target.value.engine, engineExited)
                          && if target.value.gui.None? then m == |clock.seen| && guiExited == None
                             else Waited(clock.seen[m..], target.value.gui.value, guiExited)
    ensures clock.slept - old(clock.slept) <= 45.0
    ensures clock.now - old(clock.now) <= 45.0 + (clock.other - old(clock.other))
    ensures target.Some? && engineExited == Some(false) ==> clock.now - old(clock.now) >= 45.0
  {
    target, engineExited, guiExited := None, None, None;
    if flag.None? && marker.None? {
      return;
    }
    var engine: nat, requester: Option<nat> := 0, None;
    if flag.Some? && flag.value.pid in engines {
      engine, requester := flag.value.pid, flag.value.requester;
      if requester.Some? && requester.value !in guis {
        requester := None;
      }
    } else if marker.Some? && marker.value.pid in engines {
      if marker.value.requester.None? || marker.value.requester.value !in guis {
        return;
      }
      engine, requester := marker.value.pid, marker.value.requester;
    } else {
      return;
    }
    target := Some(Target(engine, requester));
    var started := clock.now;
    engineExited := WaitForProcessExit(clock, engine, StopInProgressWait);
    var waited := clock.now - started;
    ghost var m := |clock.seen|;
    assert clock.seen[..m] == clock.seen;
    if requester.None? {
      return;
    }
    var remaining := Max(0.0, StopInProgressWait - waited);
    ghost var before := clock.seen;
    guiExited := WaitForProcessExit(clock, requester.value, remaining);
    assert clock.seen[..m] == before;
  }
}
