/** The macOS launcher of the local server. The actor runs one stretch of code between two
    awaits at a time; a step is such a stretch, a call, or an end that an await waits for. */
module LauncherProtocol {
  import opened Schema

  // ── State ───────────────────────────────────────────────────────────

  /** What a start comes to. The message of a failure shows the end of the command's output. */
  datatype Outcome =
    | Ready
    | Quitting
    | UpFailed(exitCode: int, output: string)
    | NoAnswer(output: string)

  /** Where a start task stands: the await it is at, or its outcome. */
  datatype StartTask =
    | Created
    | FirstProbe
    | Upping
    | Upped(exitCode: int, output: string)
    | Probing(attempt: nat, output: string)
    | Sleeping(attempt: nat, output: string)
    | Done(outcome: Outcome)

  /** Where the stop task stands; NotAsked while there is none. */
  datatype StopTask = NotAsked | Asked | WaitingFor(task: nat) | Downing | Downed | Over

  /** Where a call of `start` or `stop` stands. A refused start has no task. */
  datatype Caller =
    | Creator(task: nat)
    | Joiner(task: nat)
    | Stopper
    | Started(of: Option<nat>, outcome: Outcome)
    | Stopped

  datatype Event =
    | StopAsked
    | StopPassed
    | StopReturned
    | Adopted(task: nat)
    | UpBegan(task: nat)
    | UpExited(task: nat)
    | Polled(task: nat)
    | DownBegan
    | DownExited

  datatype Policy = Policy(attempts: nat, adopts: bool)

  /** The actor's fields, the tasks and calls that run on it, and what happened so far. */
  datatype State = State(
    policy: Policy, owns: bool, inFlightStart: Option<nat>, inFlightStop: StopTask,
    tasks: seq<StartTask>, callers: seq<Caller>, trace: seq<Event>)

  function Initial(policy: Policy): State {
    State(policy, false, None, NotAsked, [], [], [])
  }

  // ── Steps ───────────────────────────────────────────────────────────

  datatype Step =
    | CallStart
    | CallStop
    | TaskBegins(task: nat)
    | ProbeAnswers(task: nat, up: bool)
    | UpExits(task: nat, exitCode: int, output: string)
    | UpReturns(task: nat)
    | PollAnswers(task: nat, up: bool)
    | SleepEnds(task: nat)
    | StartReturns(caller: nat)
    | StopBegins
    | StopWakes
    | DownExits
    | DownReturns
    | StopReturns(caller: nat)

  predicate IsCall(step: Step) {
    step.CallStart? || step.CallStop?
  }

  predicate IsDone(s: State, task: nat) {
    task < |s.tasks| && s.tasks[task].Done?
  }

  predicate Awaits(caller: Caller) {
    caller.Creator? || caller.Joiner?
  }

  predicate Enabled(s: State, step: Step) {
    match step
    case CallStart => true
    case CallStop => true
    case TaskBegins(t) => t < |s.tasks| && s.tasks[t].Created?
    case ProbeAnswers(t, _) => t < |s.tasks| && s.tasks[t].FirstProbe?
    case UpExits(t, _, _) => t < |s.tasks| && s.tasks[t].Upping?
    case UpReturns(t) => t < |s.tasks| && s.tasks[t].Upped?
    case PollAnswers(t, _) => t < |s.tasks| && s.tasks[t].Probing?
    case SleepEnds(t) => t < |s.tasks| && s.tasks[t].Sleeping?
    case StartReturns(c) => c < |s.callers| && Awaits(s.callers[c]) && IsDone(s, s.callers[c].task)
    case StopBegins => s.inFlightStop.Asked?
    case StopWakes => s.inFlightStop.WaitingFor? && IsDone(s, s.inFlightStop.task)
    case DownExits => s.inFlightStop.Downing?
    case DownReturns => s.inFlightStop.Downed?
    case StopReturns(c) => c < |s.callers| && s.callers[c].Stopper? && s.inFlightStop.Over?
  }

  function WithTask(s: State, t: nat, task: StartTask): State
    requires t < |s.tasks|
  {
    s.(tasks := s.tasks[t := task])
  }

  function Noted(s: State, event: Event): State {
    s.(trace := s.trace + [event])
  }

  function WithCaller(s: State, caller: Caller): State {
    s.(callers := s.callers + [caller])
  }

  function StartCalled(s: State): State {
    if !s.inFlightStop.NotAsked? then WithCaller(s, Started(None, Quitting))
    else if s.inFlightStart.Some? then WithCaller(s, Joiner(s.inFlightStart.value))
    else
      var t := |s.tasks|;
      WithCaller(s.(tasks := s.tasks + [Created], inFlightStart := Some(t)), Creator(t))
  }

  function StopCalled(s: State): State {
    WithCaller(
      if s.inFlightStop.NotAsked? then Noted(s.(inFlightStop := Asked), StopAsked) else s, Stopper)
  }

  function FirstProbeAnswered(s: State, t: nat, up: bool): State
    requires t < |s.tasks|
  {
    if !up then Noted(WithTask(s.(owns := true), t, Upping), UpBegan(t))
    else if s.policy.adopts then Noted(WithTask(s.(owns := true), t, Done(Ready)), Adopted(t))
    else WithTask(s, t, Done(Ready))
  }

  /** The head of the polling loop: once a stop is asked for, no attempt left is made. */
  function Poll(s: State, t: nat, attempt: nat, output: string): State
    requires t < |s.tasks|
  {
    if attempt < s.policy.attempts && s.inFlightStop.NotAsked?
    then Noted(WithTask(s, t, Probing(attempt, output)), Polled(t))
    else WithTask(s, t, Done(NoAnswer(output)))
  }

  function StartReturned(s: State, c: nat): State
    requires c < |s.callers| && Awaits(s.callers[c]) && IsDone(s, s.callers[c].task)
  {
    var t := s.callers[c].task;
    s.(callers := s.callers[c := Started(Some(t), s.tasks[t].outcome)],
       inFlightStart := if s.callers[c].Creator? then None else s.inFlightStart)
  }

  /** The stop task, past its wait for the start in flight. */
  function WaitPassed(s: State): State {
    if s.owns then Noted(Noted(s.(owns := false, inFlightStop := Downing), StopPassed), DownBegan)
    else Noted(s.(inFlightStop := Over), StopPassed)
  }

  function After(s: State, step: Step): State
    requires Enabled(s, step)
  {
    match step
    case CallStart => StartCalled(s)
    case CallStop => StopCalled(s)
    case TaskBegins(t) => WithTask(s, t, FirstProbe)
    case ProbeAnswers(t, up) => FirstProbeAnswered(s, t, up)
    case UpExits(t, exitCode, output) => Noted(WithTask(s, t, Upped(exitCode, output)), UpExited(t))
    case UpReturns(t) =>
      if s.tasks[t].exitCode == 0 then Poll(s, t, 0, s.tasks[t].output)
      else WithTask(s, t, Done(UpFailed(s.tasks[t].exitCode, s.tasks[t].output)))
    case PollAnswers(t, up) =>
      WithTask(s, t, if up then Done(Ready) else Sleeping(s.tasks[t].attempt, s.tasks[t].output))
    case SleepEnds(t) => Poll(s, t, s.tasks[t].attempt + 1, s.tasks[t].output)
    case StartReturns(c) => StartReturned(s, c)
    case StopBegins =>
      if s.inFlightStart.Some? then s.(inFlightStop := WaitingFor(s.inFlightStart.value))
      else WaitPassed(s)
    case StopWakes => WaitPassed(s)
    case DownExits => Noted(s.(inFlightStop := Downed), DownExited)
    case DownReturns => s.(inFlightStop := Over)
    case StopReturns(c) => Noted(s.(callers := s.callers[c := Stopped]), StopReturned)
  }

  /** The state a run ends in; none when a step of it is not enabled. */
  function Play(policy: Policy, steps: seq<Step>): Option<State> {
    if steps == [] then Some(Initial(policy))
    else
      var n := |steps| - 1;
      var before := Play(policy, steps[..n]);
      if before.Some? && Enabled(before.value, steps[n])
      then Some(After(before.value, steps[n]))
      else None
  }

  ghost predicate Reaches(policy: Policy, steps: seq<Step>, s: State) {
    Play(policy, steps) == Some(s)
  }
}
