/** The actor itself: its fields, overwritten by each stretch of code between two awaits. */
module LauncherActor {
  import opened Schema
  import opened LauncherProtocol
  import opened LauncherRuns

  class ServerLauncher {
    const policy: Policy
    var ownsProcesses: bool
    var inFlightStart: Option<nat>
    var inFlightStop: StopTask
    var tasks: seq<StartTask>
    var callers: seq<Caller>
    ghost var trace: seq<Event>

    ghost function Value(): State
      reads this
    {
      State(policy, ownsProcesses, inFlightStart, inFlightStop, tasks, callers, trace)
    }

    ghost predicate Valid()
      reads this
    {
      Invariant(Value())
    }

    constructor (policy: Policy)
      ensures Value() == Initial(policy) && Valid()
    {
      this.policy := policy;
      ownsProcesses, inFlightStart, inFlightStop := false, None, NotAsked;
      tasks, callers, trace := [], [], [];
      new;
      EveryRunKeepsIt(policy, [], Value());
    }

    // ── Calls ─────────────────────────────────────────────────────────

    /** A call of `start`, to its await: refused, joined to the start in flight, or with a task
        of its own. */
    method Start() returns (caller: nat)
      requires Valid()
      modifies this
      ensures Valid() && Value() == After(old(Value()), CallStart) && caller == |old(callers)|
    {
      hide Invariant;
      ghost var before := Value();
      caller := |callers|;
      if !inFlightStop.NotAsked? {
        callers := callers + [Started(None, Quitting)];
      } else if inFlightStart.Some? {
        callers := callers + [Joiner(inFlightStart.value)];
      } else {
        var task := |tasks|;
        tasks := tasks + [Created];
        inFlightStart := Some(task);
        callers := callers + [Creator(task)];
      }
      InvariantStays(before, CallStart);
    }

    /** `start` again, its task done: only the creator of the task clears the field. */
    method StartReturn(caller: nat) returns (outcome: Outcome)
      requires Valid() && Enabled(Value(), StartReturns(caller))
      modifies this
      ensures Valid() && Value() == After(old(Value()), StartReturns(caller))
      ensures outcome == old(tasks[callers[caller].task].outcome)
    {
      hide Invariant;
      ghost var before := Value();
      var task := callers[caller].task;
      outcome := tasks[task].outcome;
      if callers[caller].Creator? {
        inFlightStart := None;
      }
      callers := callers[caller := Started(Some(task), outcome)];
      InvariantStays(before, StartReturns(caller));
    }

    /** A call of `stop`, to its await. The stop task is made once and kept. */
    method Stop() returns (caller: nat)
      requires Valid()
      modifies this
      ensures Valid() && Value() == After(old(Value()), CallStop) && caller == |old(callers)|
    {
      hide Invariant;
      ghost var before := Value();
      caller := |callers|;
      if inFlightStop.NotAsked? {
        inFlightStop := Asked;
        trace := trace + [StopAsked];
      }
      callers := callers + [Stopper];
      InvariantStays(before, CallStop);
    }

    method StopReturn(caller: nat)
      requires Valid() && Enabled(Value(), StopReturns(caller))
      modifies this
      ensures Valid() && Value() == After(old(Value()), StopReturns(caller))
      ensures !ownsProcesses
    {
      ghost var before := Value();
      callers := callers[caller := Stopped];
      trace := trace + [StopReturned];
      hide Invariant;
      InvariantStays(before, StopReturns(caller));
    }

    // ── performStart, between its awaits ──────────────────────────────

    method TaskBegin(task: nat)
      requires Valid() && Enabled(Value(), TaskBegins(task))
      modifies this
      ensures Valid() && Value() == After(old(Value()), TaskBegins(task))
    {
      hide Invariant;
      ghost var before := Value();
      tasks := tasks[task := FirstProbe];
      InvariantStays(before, TaskBegins(task));
    }

    /** The first probe's answer: servers found up are taken over or left alone; else `make up`
        begins, and its servers are this launcher's. */
    method ProbeAnswer(task: nat, up: bool)
      requires Valid() && Enabled(Value(), ProbeAnswers(task, up))
      modifies this
      ensures Valid() && Value() == After(old(Value()), ProbeAnswers(task, up))
    {
      hide Invariant;
      ghost var before := Value();
      if up {
        if policy.adopts {
          ownsProcesses := true;
          trace := trace + [Adopted(task)];
        }
        tasks := tasks[task := Done(Ready)];
      } else {
        ownsProcesses := true;
        tasks := tasks[task := Upping];
        trace := trace + [UpBegan(task)];
      }
      InvariantStays(before, ProbeAnswers(task, up));
    }

    method UpReturn(task: nat)
      requires Valid() && Enabled(Value(), UpReturns(task))
      modifies this
      ensures Valid() && Value() == After(old(Value()), UpReturns(task))
    {
      hide Invariant;
      ghost var before := Value();
      var exitCode, output := tasks[task].exitCode, tasks[task].output;
      if exitCode != 0 {
        tasks := tasks[task := Done(UpFailed(exitCode, output))];
      } else {
        NextPoll(task, 0, output);
      }
      InvariantStays(before, UpReturns(task));
    }

    /** The polling loop from an attempt on, to its next probe: the attempts left are passed over
        once a stop is asked for. */
    method NextPoll(task: nat, attempt: nat, output: string)
      requires task < |tasks|
      modifies this
      ensures Value() == Poll(old(Value()), task, attempt, output)
    {
      var i := attempt;
      while i < policy.attempts
        invariant attempt <= i
        invariant Value() == old(Value())
        invariant attempt < i ==> !inFlightStop.NotAsked?
      {
        if inFlightStop.NotAsked? {
          tasks := tasks[task := Probing(i, output)];
          trace := trace + [Polled(task)];
          return;
        }
        i := i + 1;
      }
      tasks := tasks[task := Done(NoAnswer(output))];
    }

    method PollAnswer(task: nat, up: bool)
      requires Valid() && Enabled(Value(), PollAnswers(task, up))
      modifies this
      ensures Valid() && Value() == After(old(Value()), PollAnswers(task, up))
    {
      hide Invariant;
      ghost var before := Value();
      if up {
        tasks := tasks[task := Done(Ready)];
      } else {
        tasks := tasks[task := Sleeping(tasks[task].attempt, tasks[task].output)];
      }
      InvariantStays(before, PollAnswers(task, up));
    }

    method SleepEnd(task: nat)
      requires Valid() && Enabled(Value(), SleepEnds(task))
      modifies this
      ensures Valid() && Value() == After(old(Value()), SleepEnds(task))
    {
      hide Invariant;
      ghost var before := Value();
      NextPoll(task, tasks[task].attempt + 1, tasks[task].output);
      InvariantStays(before, SleepEnds(task));
    }

    // ── performStop, between its awaits ───────────────────────────────

    method StopBegin()
      requires Valid() && Enabled(Value(), StopBegins)
      modifies this
      ensures Valid() && Value() == After(old(Value()), StopBegins)
    {
      hide Invariant;
      ghost var before := Value();
      if inFlightStart.Some? {
        inFlightStop := WaitingFor(inFlightStart.value);
      } else {
        TakeDown();
      }
      InvariantStays(before, StopBegins);
    }

    method StopWake()
      requires Valid() && Enabled(Value(), StopWakes)
      modifies this
      ensures Valid() && Value() == After(old(Value()), StopWakes)
    {
      hide Invariant;
      ghost var before := Value();
      TakeDown();
      InvariantStays(before, StopWakes);
    }

    /** Past the wait: servers owned are given up, and taken down. */
    method TakeDown()
      modifies this
      ensures Value() == WaitPassed(old(Value()))
    {
      trace := trace + [StopPassed];
      if !ownsProcesses {
        inFlightStop := Over;
        return;
      }
      ownsProcesses := false;
      inFlightStop := Downing;
      trace := trace + [DownBegan];
    }

    method DownReturn()
      requires Valid() && Enabled(Value(), DownReturns)
      modifies this
      ensures Valid() && Value() == After(old(Value()), DownReturns)
    {
      hide Invariant;
      ghost var before := Value();
      inFlightStop := Over;
      InvariantStays(before, DownReturns);
    }

    // ── The commands ──────────────────────────────────────────────────

    /** `make up` exits; its task has not resumed yet. */
    method UpExit(task: nat, exitCode: int, output: string)
      requires Valid() && Enabled(Value(), UpExits(task, exitCode, output))
      modifies this
      ensures Valid() && Value() == After(old(Value()), UpExits(task, exitCode, output))
    {
      hide Invariant;
      ghost var before := Value();
      tasks := tasks[task := Upped(exitCode, output)];
      trace := trace + [UpExited(task)];
      InvariantStays(before, UpExits(task, exitCode, output));
    }

    method DownExit()
      requires Valid() && Enabled(Value(), DownExits)
      modifies this
      ensures Valid() && Value() == After(old(Value()), DownExits)
    {
      hide Invariant;
      ghost var before := Value();
      inFlightStop := Downed;
      trace := trace + [DownExited];
      InvariantStays(before, DownExits);
    }
  }
}
