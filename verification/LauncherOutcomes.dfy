/** What a start of the launcher says is what happened: its outcome by the answers of probes and
    the end of `make up`, and the history by the steps of the run. */
module LauncherOutcomes {
  import opened Schema
  import opened LauncherProtocol
  import opened LauncherRuns
  import opened LauncherEnds

  // ── What a task stands for ──────────────────────────────────────────

  /** Whether the first probe or a later one found the server up. */
  predicate FoundUp(steps: seq<Step>, t: nat) {
    ProbeAnswers(t, true) in steps || PollAnswers(t, true) in steps
  }

  /** `make up` of a task has ended, and so only. */
  ghost predicate ExitedWith(steps: seq<Step>, t: nat, exitCode: int, output: string) {
    forall x, out :: UpExits(t, x, out) in steps <==> x == exitCode && out == output
  }

  ghost predicate NeverExited(steps: seq<Step>, t: nat) {
    forall x, out :: UpExits(t, x, out) !in steps
  }

  /** What must have happened to a task for it to stand where it does. */
  ghost predicate Tells(steps: seq<Step>, t: nat, task: StartTask) {
    match task
    case Created => Untouched(steps, t)
    case FirstProbe => Untouched(steps, t)
    case Upping =>
      && ProbeAnswers(t, false) in steps && !FoundUp(steps, t)
      && NeverExited(steps, t) && UpReturns(t) !in steps
    case Upped(x, out) =>
      && ProbeAnswers(t, false) in steps && !FoundUp(steps, t)
      && ExitedWith(steps, t, x, out) && UpReturns(t) !in steps
    case Probing(_, out) => IsWaiting(steps, t, out)
    case Sleeping(_, out) => IsWaiting(steps, t, out)
    case Done(NoAnswer(out)) => IsWaiting(steps, t, out)
    case Done(Ready) => FoundUp(steps, t) && forall x, out | UpExits(t, x, out) in steps :: x == 0
    case Done(UpFailed(x, out)) =>
      && x != 0 && ProbeAnswers(t, false) in steps && !FoundUp(steps, t)
      && ExitedWith(steps, t, x, out) && UpReturns(t) in steps
    case Done(Quitting) => false
  }

  ghost predicate Untouched(steps: seq<Step>, t: nat) {
    && ProbeAnswers(t, false) !in steps && !FoundUp(steps, t)
    && NeverExited(steps, t) && UpReturns(t) !in steps
  }

  ghost predicate IsWaiting(steps: seq<Step>, t: nat, output: string) {
    && ProbeAnswers(t, false) in steps && !FoundUp(steps, t)
    && ExitedWith(steps, t, 0, output) && UpReturns(t) in steps
  }

  ghost predicate TaskTells(steps: seq<Step>, s: State, t: nat) {
    if t < |s.tasks| then Tells(steps, t, s.tasks[t]) else Untouched(steps, t)
  }

  lemma InMore(steps: seq<Step>, step: Step)
    ensures forall other :: other in steps + [step] <==> other in steps || other == step
  {
  }

  /** A step of no task, or of another one, tells nothing of a task. */
  lemma OthersTellNothing(steps: seq<Step>, step: Step, t: nat, task: StartTask)
    requires !(IsOfTask(step) && step.task == t)
    ensures Tells(steps + [step], t, task) <==> Tells(steps, t, task)
    ensures Untouched(steps + [step], t) <==> Untouched(steps, t)
  {
    InMore(steps, step);
    var more := steps + [step];
    assert FoundUp(more, t) <==> FoundUp(steps, t);
    forall x, out
      ensures UpExits(t, x, out) in more <==> UpExits(t, x, out) in steps
    {
    }
    assert NeverExited(more, t) <==> NeverExited(steps, t);
    hide FoundUp, NeverExited;
    forall x, out
      ensures ExitedWith(more, t, x, out) <==> ExitedWith(steps, t, x, out)
    {
    }
    hide ExitedWith;
  }

  /** The step of a task tells what the task then stands for. */
  lemma OwnStepTells(steps: seq<Step>, s: State, step: Step)
    requires Enabled(s, step) && IsOfTask(step) && Tells(steps, step.task, s.tasks[step.task])
    ensures Tells(steps + [step], step.task, After(s, step).tasks[step.task])
  {
    InMore(steps, step);
    assert !step.UpExits? ==>
        forall x, out :: UpExits(step.task, x, out) in steps + [step] <==> UpExits(step.task, x, out) in steps;
    if step.UpExits? {
      assert ExitedWith(steps + [step], step.task, step.exitCode, step.output);
    }
  }

  lemma TellsOn(steps: seq<Step>, s: State, step: Step, t: nat)
    requires Enabled(s, step) && TaskTells(steps, s, t)
    ensures TaskTells(steps + [step], After(s, step), t)
  {
    hide Tells, Untouched;
    if IsOfTask(step) && step.task == t {
      OwnStepTells(steps, s, step);
      assert t < |After(s, step).tasks|;
      hide After;
    } else {
      OthersStay(s, step, t);
      OthersTellNothing(steps, step, t, if t < |s.tasks| then s.tasks[t] else Created);
      NewIsUntouched(steps + [step], t);
      hide After;
    }
  }

  lemma NewIsUntouched(steps: seq<Step>, t: nat)
    ensures Tells(steps, t, Created) <==> Untouched(steps, t)
  {
  }

  lemma {:induction false} TasksTell(policy: Policy, steps: seq<Step>, s: State, t: nat)
    requires Reaches(policy, steps, s)
    ensures TaskTells(steps, s, t)
  {
    if steps != [] {
      var n := |steps| - 1;
      var before := Play(policy, steps[..n]).value;
      TasksTell(policy, steps[..n], before, t);
      TellsOn(steps[..n], before, steps[n], t);
      assert steps == steps[..n] + [steps[n]];
    }
  }

  // ── The outcome of a start ──────────────────────────────────────────

  /** A task ends ready if and only if a probe of its found the server up; failed if and only if
      its `make up` ended with that exit code, not 0, and that output; and without an answer
      only after `make up` succeeded and no probe found the server up. */
  lemma OutcomesAreWhatHappened(policy: Policy, steps: seq<Step>, s: State, t: nat)
    requires Reaches(policy, steps, s) && t < |s.tasks|
    ensures s.tasks[t] == Done(Ready) <==> ProbeAnswers(t, true) in steps || PollAnswers(t, true) in steps
    ensures forall x, out :: s.tasks[t] == Done(UpFailed(x, out)) <==>
              x != 0 && UpExits(t, x, out) in steps && UpReturns(t) in steps
    ensures forall out :: s.tasks[t] == Done(NoAnswer(out)) <==>
              && s.tasks[t].Done? && UpExits(t, 0, out) in steps
              && ProbeAnswers(t, true) !in steps && PollAnswers(t, true) !in steps
    ensures s.tasks[t] != Done(Quitting)
  {
    TasksTell(policy, steps, s, t);
    hide Reaches;
  }

  /** What a start returns: that the app is quitting, if a stop was asked for before; else what
      happened to its task. */
  lemma StartsSayWhatHappened(policy: Policy, steps: seq<Step>, s: State, c: nat)
    requires Reaches(policy, steps, s) && c < |s.callers| && s.callers[c].Started?
    ensures match s.callers[c].of
            case None => s.callers[c].outcome == Quitting && CallStop in steps
            case Some(t) =>
              match s.callers[c].outcome
              case Ready => ProbeAnswers(t, true) in steps || PollAnswers(t, true) in steps
              case UpFailed(x, out) => x != 0 && UpExits(t, x, out) in steps && UpReturns(t) in steps
              case NoAnswer(out) =>
                && UpExits(t, 0, out) in steps
                && ProbeAnswers(t, true) !in steps && PollAnswers(t, true) !in steps
              case Quitting => false
  {
    EveryRunKeepsIt(policy, steps, s);
    assert CallerFits(s, s.callers[c]);
    if s.callers[c].of.Some? {
      OutcomesAreWhatHappened(policy, steps, s, s.callers[c].of.value);
    }
    HistoryIsTheSteps(policy, steps, s, 0);
    hide Reaches, Invariant;
  }

  // ── The history ─────────────────────────────────────────────────────

  ghost predicate HasExited(steps: seq<Step>, t: nat) {
    exists x, out :: UpExits(t, x, out) in steps
  }

  ghost predicate HasReturned(steps: seq<Step>) {
    exists c :: StopReturns(c) in steps
  }

  /** What the history has of a task is what its steps were. */
  ghost predicate TaskHistoryTells(policy: Policy, steps: seq<Step>, s: State, t: nat) {
    && s.policy == policy
    && (UpBegan(t) in s.trace <==> ProbeAnswers(t, false) in steps)
    && (Adopted(t) in s.trace <==> policy.adopts && ProbeAnswers(t, true) in steps)
    && (UpExited(t) in s.trace <==> HasExited(steps, t))
  }

  /** What the history has of the stop is what its steps were. */
  ghost predicate StopHistoryTells(steps: seq<Step>, s: State) {
    && (!s.inFlightStop.NotAsked? <==> CallStop in steps)
    && (StopAsked in s.trace <==> CallStop in steps)
    && (DownExited in s.trace <==> DownExits in steps)
    && (StopReturned in s.trace <==> HasReturned(steps))
  }

  lemma ExitsOfMore(steps: seq<Step>, step: Step, t: nat)
    ensures HasExited(steps + [step], t) <==> HasExited(steps, t) || (step.UpExits? && step.task == t)
    ensures HasReturned(steps + [step]) <==> HasReturned(steps) || step.StopReturns?
  {
    InMore(steps, step);
    if step.UpExits? {
      assert UpExits(step.task, step.exitCode, step.output) in steps + [step];
    }
    if step.StopReturns? {
      assert StopReturns(step.caller) in steps + [step];
    }
  }

  lemma TaskHistoryGoesOn(policy: Policy, steps: seq<Step>, s: State, step: Step, t: nat)
    requires Enabled(s, step) && TaskHistoryTells(policy, steps, s, t)
    ensures TaskHistoryTells(policy, steps + [step], After(s, step), t)
  {
    InMore(steps, step);
    ExitsOfMore(steps, step, t);
    hide HasExited;
    var after := After(s, step);
    assert UpBegan(t) in after.trace <==> UpBegan(t) in s.trace || step == ProbeAnswers(t, false);
    assert Adopted(t) in after.trace <==>
        Adopted(t) in s.trace || (s.policy.adopts && step == ProbeAnswers(t, true));
    assert UpExited(t) in after.trace <==> UpExited(t) in s.trace || (step.UpExits? && step.task == t);
    assert after.policy == s.policy;
    hide Enabled, After;
  }

  lemma StopHistoryGoesOn(steps: seq<Step>, s: State, step: Step)
    requires Enabled(s, step) && StopHistoryTells(steps, s)
    ensures StopHistoryTells(steps + [step], After(s, step))
  {
    InMore(steps, step);
    ExitsOfMore(steps, step, 0);
    hide HasReturned;
    var after := After(s, step);
    assert !after.inFlightStop.NotAsked? <==> !s.inFlightStop.NotAsked? || step == CallStop;
    assert StopAsked in after.trace <==>
        StopAsked in s.trace || (step == CallStop && s.inFlightStop.NotAsked?);
    assert DownExited in after.trace <==> DownExited in s.trace || step == DownExits;
    assert StopReturned in after.trace <==> StopReturned in s.trace || step.StopReturns?;
    hide Enabled, After;
  }

  /** The history of every run has a beginning of `make up`, an adoption, an end of a command and
      a stop exactly where a step of the run is one. */
  lemma {:induction false} HistoryIsTheSteps(policy: Policy, steps: seq<Step>, s: State, t: nat)
    requires Reaches(policy, steps, s)
    ensures TaskHistoryTells(policy, steps, s, t) && StopHistoryTells(steps, s)
  {
    if steps != [] {
      var n := |steps| - 1;
      var before := Play(policy, steps[..n]).value;
      HistoryIsTheSteps(policy, steps[..n], before, t);
      TaskHistoryGoesOn(policy, steps[..n], before, steps[n], t);
      StopHistoryGoesOn(steps[..n], before, steps[n]);
      assert steps == steps[..n] + [steps[n]];
    }
  }
}
