/** What calls of the launcher come to: the outcome of a start, the number of polls, and that
    every call returns. */
module LauncherEnds {
  import opened Schema
  import opened LauncherProtocol
  import opened LauncherRuns

  // ── The outcome of a start ──────────────────────────────────────────

  /** The task whose outcome a call of `start` returns; none when it is refused. */
  function TaskOf(caller: Caller): Option<nat> {
    match caller
    case Creator(t) => Some(t)
    case Joiner(t) => Some(t)
    case Started(of, _) => of
    case _ => None
  }

  /** Whether a call is the same call still, perhaps returned since. */
  predicate IsSameCall(before: Caller, after: Caller) {
    && TaskOf(after) == TaskOf(before)
    && (before.Stopper? ==> after.Stopper? || after.Stopped?)
    && (before.Started? || before.Stopped? ==> after == before)
  }

  lemma StepKeepsCalls(s: State, step: Step, c: nat)
    requires Enabled(s, step) && c < |s.callers|
    ensures c < |After(s, step).callers| && IsSameCall(s.callers[c], After(s, step).callers[c])
  {
  }

  lemma {:induction false} CallersKeepTheirTask(
    policy: Policy, steps: seq<Step>, r: State, more: seq<Step>, s: State, c: nat)
    requires Reaches(policy, steps, r) && Reaches(policy, steps + more, s) && c < |r.callers|
    ensures c < |s.callers| && IsSameCall(r.callers[c], s.callers[c])
  {
    if more == [] {
      assert steps + more == steps;
    } else {
      var n := |more| - 1;
      var all := steps + more;
      assert all[..|all| - 1] == steps + more[..n] && all[|all| - 1] == more[n];
      var before := Play(policy, steps + more[..n]).value;
      CallersKeepTheirTask(policy, steps, r, more[..n], before, c);
      StepKeepsCalls(before, more[n], c);
      hide Enabled, After;
    }
  }

  /** A start that finds one in flight returns that one's outcome, whatever happens meanwhile;
      one that finds none returns the outcome of a task of its own; once a stop has been asked
      for, every start is refused. */
  lemma StartsAreSingleFlight(
    policy: Policy, steps: seq<Step>, r: State, more: seq<Step>, s: State)
    requires Reaches(policy, steps, r) && Reaches(policy, steps + [CallStart] + more, s)
    ensures var c := |r.callers|;
            && c < |s.callers|
            && (!r.inFlightStop.NotAsked? ==> s.callers[c] == Started(None, Quitting))
            && (r.inFlightStop.NotAsked? && r.inFlightStart.Some? ==>
                  TaskOf(s.callers[c]) == r.inFlightStart)
            && (r.inFlightStop.NotAsked? && r.inFlightStart.None? ==>
                  TaskOf(s.callers[c]) == Some(|r.tasks|))
            && (s.callers[c].Started? && s.callers[c].of.Some? ==>
                  && s.callers[c].of.value < |s.tasks|
                  && s.tasks[s.callers[c].of.value] == Done(s.callers[c].outcome))
  {
    var called := After(r, CallStart);
    assert (steps + [CallStart])[..|steps|] == steps;
    assert Reaches(policy, steps + [CallStart], called);
    CallersKeepTheirTask(policy, steps + [CallStart], called, more, s, |r.callers|);
    EveryRunKeepsIt(policy, steps + [CallStart] + more, s);
    assert CallerFits(s, s.callers[|r.callers|]);
  }

  // ── Polls ───────────────────────────────────────────────────────────

  function Polls(trace: seq<Event>, t: nat): nat {
    if trace == [] then 0
    else Polls(trace[..|trace| - 1], t) + if trace[|trace| - 1] == Polled(t) then 1 else 0
  }

  predicate PollsFit(s: State, t: nat) {
    var polls := Polls(s.trace, t);
    if t < |s.tasks| then
      match s.tasks[t]
      case Probing(i, _) => i < s.policy.attempts && polls == i + 1
      case Sleeping(i, _) => i < s.policy.attempts && polls == i + 1
      case Done(outcome) =>
        && polls <= s.policy.attempts
        && (outcome.NoAnswer? && s.inFlightStop.NotAsked? ==> polls == s.policy.attempts)
      case _ => polls == 0
    else polls == 0
  }

  lemma PollsOfAppend(trace: seq<Event>, event: Event, t: nat)
    ensures Polls(trace + [event], t) == Polls(trace, t) + if event == Polled(t) then 1 else 0
  {
    assert (trace + [event])[..|trace|] == trace;
  }

  predicate IsOfTask(step: Step) {
    || step.TaskBegins? || step.ProbeAnswers? || step.UpExits? || step.UpReturns?
    || step.PollAnswers? || step.SleepEnds?
  }

  /** Whether a step makes the next attempt of a polling loop. */
  predicate PollsAgain(s: State, step: Step, t: nat)
    requires Enabled(s, step)
  {
    && s.inFlightStop.NotAsked?
    && ((&& step == UpReturns(t) && s.tasks[t].exitCode == 0 && 0 < s.policy.attempts)
        || (step == SleepEnds(t) && s.tasks[t].attempt + 1 < s.policy.attempts))
  }

  lemma PollsOfStep(s: State, step: Step, t: nat)
    requires Enabled(s, step)
    ensures Polls(After(s, step).trace, t) == Polls(s.trace, t) + if PollsAgain(s, step, t) then 1 else 0
  {
    hide Polls;
    match step
    case CallStop => PollsOfAppend(s.trace, StopAsked, t);
    case ProbeAnswers(u, _) =>
      PollsOfAppend(s.trace, UpBegan(u), t);
      PollsOfAppend(s.trace, Adopted(u), t);
    case UpExits(u, _, _) => PollsOfAppend(s.trace, UpExited(u), t);
    case UpReturns(u) => PollsOfAppend(s.trace, Polled(u), t);
    case SleepEnds(u) => PollsOfAppend(s.trace, Polled(u), t);
    case DownExits => PollsOfAppend(s.trace, DownExited, t);
    case StopReturns(_) => PollsOfAppend(s.trace, StopReturned, t);
    case _ =>
      PollsOfAppend(s.trace, StopPassed, t);
      PollsOfAppend(s.trace + [StopPassed], DownBegan, t);
  }

  lemma PollsStayFit(s: State, step: Step, t: nat)
    requires Enabled(s, step) && PollsFit(s, t)
    ensures PollsFit(After(s, step), t)
  {
    PollsOfStep(s, step, t);
    hide Polls;
    if IsOfTask(step) && step.task == t {
      OwnPollsStayFit(s, step);
    } else {
      OthersStay(s, step, t);
    }
  }

  lemma OwnPollsStayFit(s: State, step: Step)
    requires Enabled(s, step) && IsOfTask(step) && PollsFit(s, step.task)
    requires Polls(After(s, step).trace, step.task)
          == Polls(s.trace, step.task) + if PollsAgain(s, step, step.task) then 1 else 0
    ensures PollsFit(After(s, step), step.task)
  {
    hide Polls;
  }

  lemma OthersStay(s: State, step: Step, t: nat)
    requires Enabled(s, step) && !(IsOfTask(step) && step.task == t)
    ensures var after := After(s, step);
            && !PollsAgain(s, step, t)
            && after.policy == s.policy
            && (s.inFlightStop.NotAsked? || !after.inFlightStop.NotAsked?)
            && (t < |s.tasks| ==> t < |after.tasks| && after.tasks[t] == s.tasks[t])
            && (|s.tasks| <= t < |after.tasks| ==> after.tasks[t] == Created)
  {
  }

  /** A task polls `attempts` times at most; one that gives up without an answer has polled
      exactly so often, unless a stop was asked for. */
  lemma {:induction false} PollsAreBounded(policy: Policy, steps: seq<Step>, s: State, t: nat)
    requires Reaches(policy, steps, s)
    ensures PollsFit(s, t) && Polls(s.trace, t) <= policy.attempts
  {
    if steps != [] {
      var n := |steps| - 1;
      var before := Play(policy, steps[..n]).value;
      PollsAreBounded(policy, steps[..n], before, t);
      PollsStayFit(before, steps[n], t);
    }
    EveryRunKeepsIt(policy, steps, s);
    hide Invariant;
  }

  // ── Every call returns ──────────────────────────────────────────────

  /** The steps a task has left at most. */
  function Left(policy: Policy, task: StartTask): int {
    match task
    case Created => 2 * policy.attempts + 4
    case FirstProbe => 2 * policy.attempts + 3
    case Upping => 2 * policy.attempts + 2
    case Upped(_, _) => 2 * policy.attempts + 1
    case Probing(i, _) => 2 * (policy.attempts - i)
    case Sleeping(i, _) => 2 * (policy.attempts - i) - 1
    case Done(_) => 0
  }

  function TasksLeft(policy: Policy, tasks: seq<StartTask>): int {
    if tasks == [] then 0
    else TasksLeft(policy, tasks[..|tasks| - 1]) + Left(policy, tasks[|tasks| - 1])
  }

  predicate IsReturned(caller: Caller) {
    caller.Started? || caller.Stopped?
  }

  function CallersLeft(callers: seq<Caller>): nat {
    if callers == [] then 0
    else CallersLeft(callers[..|callers| - 1]) + if IsReturned(callers[|callers| - 1]) then 0 else 1
  }

  function StopLeft(stop: StopTask): nat {
    match stop
    case Asked => 4
    case WaitingFor(_) => 3
    case Downing => 2
    case Downed => 1
    case _ => 0
  }

  /** The steps left, if nobody calls again. */
  function StepsLeft(s: State): int {
    TasksLeft(s.policy, s.tasks) + StopLeft(s.inFlightStop) + CallersLeft(s.callers)
  }

  lemma {:induction false} TasksLeftAfter(policy: Policy, tasks: seq<StartTask>, t: nat, task: StartTask)
    requires t < |tasks|
    ensures TasksLeft(policy, tasks[t := task])
         == TasksLeft(policy, tasks) - Left(policy, tasks[t]) + Left(policy, task)
  {
    var n := |tasks| - 1;
    if t == n {
      assert tasks[t := task][..n] == tasks[..n];
    } else {
      assert tasks[t := task][..n] == tasks[..n][t := task];
      TasksLeftAfter(policy, tasks[..n], t, task);
    }
  }

  lemma {:induction false} CallersLeftAfter(callers: seq<Caller>, c: nat, caller: Caller)
    requires c < |callers| && !IsReturned(callers[c]) && IsReturned(caller)
    ensures CallersLeft(callers[c := caller]) == CallersLeft(callers) - 1
  {
    var n := |callers| - 1;
    if c == n {
      assert callers[c := caller][..n] == callers[..n];
    } else {
      assert callers[c := caller][..n] == callers[..n][c := caller];
      CallersLeftAfter(callers[..n], c, caller);
    }
  }

  lemma TaskStepsForward(s: State, step: Step)
    requires Enabled(s, step) && IsOfTask(step) && PollsFit(s, step.task)
    ensures var after := After(s, step);
            && after.tasks == s.tasks[step.task := after.tasks[step.task]]
            && Left(s.policy, after.tasks[step.task]) < Left(s.policy, s.tasks[step.task])
            && after.callers == s.callers && after.inFlightStop == s.inFlightStop
            && after.policy == s.policy
  {
    hide Polls;
  }

  lemma StepsRunOut(s: State, step: Step)
    requires Enabled(s, step) && !IsCall(step) && forall t: nat :: PollsFit(s, t)
    ensures StepsLeft(After(s, step)) < StepsLeft(s)
  {
    var after := After(s, step);
    hide PollsFit, TasksLeft, CallersLeft;
    if IsOfTask(step) {
      TaskStepsForward(s, step);
      TasksLeftAfter(s.policy, s.tasks, step.task, after.tasks[step.task]);
    } else if step.StartReturns? || step.StopReturns? {
      CallersLeftAfter(s.callers, step.caller, after.callers[step.caller]);
    }
  }

  /** While a call has not returned, something can happen: a task, the stop task or the call
      itself can go on, or a command, a probe or a sleep it waits for can end. */
  lemma SomethingCanHappen(policy: Policy, steps: seq<Step>, s: State) returns (step: Step)
    requires Reaches(policy, steps, s)
    requires exists c :: 0 <= c < |s.callers| && !IsReturned(s.callers[c])
    ensures Enabled(s, step) && !IsCall(step)
  {
    EveryRunKeepsIt(policy, steps, s);
    var c :| 0 <= c < |s.callers| && !IsReturned(s.callers[c]);
    assert CallerFits(s, s.callers[c]);
    if s.callers[c].Stopper? {
      match s.inFlightStop
      case Asked => step := StopBegins;
      case WaitingFor(t) => step := if s.tasks[t].Done? then StopWakes else TaskStep(s, t);
      case Downing => step := DownExits;
      case Downed => step := DownReturns;
      case Over => step := StopReturns(c);
    } else {
      var t := s.callers[c].task;
      step := if s.tasks[t].Done? then StartReturns(c) else TaskStep(s, t);
    }
  }

  function TaskStep(s: State, t: nat): (step: Step)
    requires t < |s.tasks| && !s.tasks[t].Done?
    ensures Enabled(s, step) && !IsCall(step)
  {
    match s.tasks[t]
    case Created => TaskBegins(t)
    case FirstProbe => ProbeAnswers(t, true)
    case Upping => UpExits(t, 0, "")
    case Upped(_, _) => UpReturns(t)
    case Probing(_, _) => PollAnswers(t, true)
    case Sleeping(_, _) => SleepEnds(t)
  }

  /** Without further calls, a run goes on for a bounded number of steps. */
  lemma {:induction false} RunsEnd(policy: Policy, steps: seq<Step>, r: State, more: seq<Step>, s: State)
    requires Reaches(policy, steps, r) && Reaches(policy, steps + more, s)
    requires forall step | step in more :: !IsCall(step)
    ensures |more| + StepsLeft(s) <= StepsLeft(r)
  {
    if more == [] {
      assert steps + more == steps;
    } else {
      var n := |more| - 1;
      var all := steps + more;
      assert all[..|all| - 1] == steps + more[..n] && all[|all| - 1] == more[n];
      var before := Play(policy, steps + more[..n]).value;
      RunsEnd(policy, steps, r, more[..n], before);
      forall t: nat
        ensures PollsFit(before, t)
      {
        PollsAreBounded(policy, steps + more[..n], before, t);
      }
      StepsRunOut(before, more[n]);
    }
  }

  lemma {:induction false} StepsLeftIsNat(policy: Policy, steps: seq<Step>, s: State)
    requires Reaches(policy, steps, s)
    ensures 0 <= StepsLeft(s)
  {
    forall t: nat | t < |s.tasks|
      ensures 0 <= Left(policy, s.tasks[t])
    {
      PollsAreBounded(policy, steps, s, t);
      EveryRunKeepsIt(policy, steps, s);
    }
    EveryRunKeepsIt(policy, steps, s);
    TasksLeftIsNat(policy, s.tasks);
  }

  lemma {:induction false} TasksLeftIsNat(policy: Policy, tasks: seq<StartTask>)
    requires forall t | 0 <= t < |tasks| :: 0 <= Left(policy, tasks[t])
    ensures 0 <= TasksLeft(policy, tasks)
  {
    if tasks != [] {
      TasksLeftIsNat(policy, tasks[..|tasks| - 1]);
    }
  }

  /** Every call returns: however a run goes on without further calls, it takes a bounded number
      of steps, and where it can go no further every call has returned. */
  lemma EveryCallReturns(policy: Policy, steps: seq<Step>, r: State, more: seq<Step>, s: State)
    requires Reaches(policy, steps, r) && Reaches(policy, steps + more, s)
    requires forall step | step in more :: !IsCall(step)
    ensures |more| <= StepsLeft(r)
    ensures (forall step | !IsCall(step) :: !Enabled(s, step)) ==>
              forall c | 0 <= c < |s.callers| :: IsReturned(s.callers[c])
  {
    RunsEnd(policy, steps, r, more, s);
    StepsLeftIsNat(policy, steps + more, s);
    if exists c :: 0 <= c < |s.callers| && !IsReturned(s.callers[c]) {
      var step := SomethingCanHappen(policy, steps + more, s);
    }
  }
}
