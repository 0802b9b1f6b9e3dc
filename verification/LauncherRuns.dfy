/** What every run of the launcher keeps, however its calls and tasks interleave. */
module LauncherRuns {
  import opened Schema
  import opened LauncherProtocol

  // ── Tasks and calls ─────────────────────────────────────────────────

  predicate IsPastWait(stop: StopTask) {
    stop.Downing? || stop.Downed? || stop.Over?
  }

  /** A task that is not done is the one in flight, and the one the stop task waits for if it
      waits; once the stop task is past its wait there is none. */
  predicate TaskFits(s: State, t: nat)
    requires t < |s.tasks|
  {
    s.tasks[t].Done?
    || (&& s.inFlightStart == Some(t)
        && !IsPastWait(s.inFlightStop)
        && (s.inFlightStop.WaitingFor? ==> s.inFlightStop.task == t))
  }

  ghost predicate OneTaskInFlight(s: State) {
    && (forall t | 0 <= t < |s.tasks| :: TaskFits(s, t))
    && (s.inFlightStart.Some? ==> s.inFlightStart.value < |s.tasks|)
    && (s.inFlightStop.WaitingFor? ==> s.inFlightStop.task < |s.tasks|)
    && (IsPastWait(s.inFlightStop) ==> !s.owns)
  }

  predicate CallerFits(s: State, caller: Caller) {
    match caller
    case Creator(t) => s.inFlightStart == Some(t)
    case Joiner(t) => t < |s.tasks|
    case Started(Some(t), outcome) => t < |s.tasks| && s.tasks[t] == Done(outcome)
    case Started(None, outcome) => outcome.Quitting? && !s.inFlightStop.NotAsked?
    case Stopper => !s.inFlightStop.NotAsked?
    case Stopped => s.inFlightStop.Over?
  }

  /** Only the task in flight has its creator still waiting, and it has just one. */
  ghost predicate CallersFollowTasks(s: State) {
    && (forall c | 0 <= c < |s.callers| :: CallerFits(s, s.callers[c]))
    && (forall c, d | 0 <= c < |s.callers| && 0 <= d < |s.callers| ::
          s.callers[c].Creator? && s.callers[d].Creator? ==> c == d)
    && (s.inFlightStart.Some? ==> exists c :: 0 <= c < |s.callers| && s.callers[c].Creator?)
  }

  ghost predicate Controlled(s: State) {
    OneTaskInFlight(s) && CallersFollowTasks(s)
  }

  lemma TasksStay(s: State, step: Step)
    requires Controlled(s) && Enabled(s, step)
    ensures OneTaskInFlight(After(s, step))
  {
    var after := After(s, step);
    if step.ProbeAnswers? {
      assert TaskFits(s, step.task);
    }
    forall t | 0 <= t < |after.tasks|
      ensures TaskFits(after, t)
    {
      if t < |s.tasks| {
        assert TaskFits(s, t);
      }
    }
  }

  lemma CallersStay(s: State, step: Step)
    requires Controlled(s) && Enabled(s, step)
    ensures CallersFollowTasks(After(s, step))
  {
    var after := After(s, step);
    forall c | 0 <= c < |after.callers|
      ensures CallerFits(after, after.callers[c])
    {
      CallerStays(s, step, c);
    }
    CreatorStays(s, step);
  }

  /** A step other than the return of a start leaves a call as it fits. */
  lemma CallerFitsOn(s: State, step: Step, caller: Caller)
    requires CallerFits(s, caller) && Enabled(s, step) && !step.StartReturns?
    ensures CallerFits(After(s, step), caller)
  {
  }

  lemma ReturnFits(s: State, step: Step, c: nat)
    requires Controlled(s) && Enabled(s, step) && step.StartReturns? && c < |s.callers|
    ensures CallerFits(After(s, step), After(s, step).callers[c])
  {
    assert CallerFits(s, s.callers[c]);
    assert CallerFits(s, s.callers[step.caller]);
  }

  lemma CallerStays(s: State, step: Step, c: nat)
    requires Controlled(s) && Enabled(s, step) && c < |After(s, step).callers|
    ensures CallerFits(After(s, step), After(s, step).callers[c])
  {
    if step.StartReturns? {
      ReturnFits(s, step, c);
    } else if c < |s.callers| && After(s, step).callers[c] == s.callers[c] {
      CallerFitsOn(s, step, s.callers[c]);
    }
  }

  lemma CreatorStays(s: State, step: Step)
    requires Controlled(s) && Enabled(s, step)
    ensures var after := After(s, step);
            && (forall c, d | 0 <= c < |after.callers| && 0 <= d < |after.callers| ::
                  after.callers[c].Creator? && after.callers[d].Creator? ==> c == d)
            && (after.inFlightStart.Some? ==>
                  exists c :: 0 <= c < |after.callers| && after.callers[c].Creator?)
  {
    var after := After(s, step);
    if s.inFlightStart.Some? {
      var c :| 0 <= c < |s.callers| && s.callers[c].Creator?;
      assert after.inFlightStart.Some? ==> after.callers[c].Creator?;
    } else {
      assert forall c | 0 <= c < |s.callers| :: CallerFits(s, s.callers[c]) && !s.callers[c].Creator?;
      assert after.inFlightStart.Some? ==> after.callers[|s.callers|].Creator?;
    }
  }

  // ── What happens, and in which order ────────────────────────────────

  /** Events that give the launcher servers to take down. */
  predicate IsOwning(event: Event) {
    event.UpBegan? || event.Adopted?
  }

  ghost predicate ExitedBetween(trace: seq<Event>, i: nat, j: nat)
    requires i < j <= |trace| && trace[i].UpBegan?
  {
    exists k :: i < k < j && trace[k] == UpExited(trace[i].task)
  }

  ghost predicate HappenedBetween(trace: seq<Event>, event: Event, i: nat, j: nat)
    requires i <= j <= |trace|
  {
    exists k :: i <= k < j && trace[k] == event
  }

  /** Every `make up` begun before an event has exited before it. */
  ghost predicate UpsExited(trace: seq<Event>, j: nat)
    requires j <= |trace|
  {
    forall i | 0 <= i < j && trace[i].UpBegan? :: ExitedBetween(trace, i, j)
  }

  /** Whether an event may come after those before it. */
  ghost predicate Fits(trace: seq<Event>, j: nat)
    requires j < |trace|
  {
    match trace[j]
    case UpBegan(_) =>
      && UpsExited(trace, j)
      && !HappenedBetween(trace, StopPassed, 0, j) && !HappenedBetween(trace, DownBegan, 0, j)
    case DownBegan =>
      && UpsExited(trace, j)
      && HappenedBetween(trace, StopPassed, 0, j) && !HappenedBetween(trace, DownBegan, 0, j)
      && exists i :: 0 <= i < j && IsOwning(trace[i])
    case DownExited => HappenedBetween(trace, DownBegan, 0, j)
    case Polled(_) => !HappenedBetween(trace, StopAsked, 0, j)
    case StopPassed =>
      HappenedBetween(trace, StopAsked, 0, j) && !HappenedBetween(trace, StopPassed, 0, j)
    case StopReturned =>
      && HappenedBetween(trace, StopPassed, 0, j)
      && forall i | 0 <= i < j && IsOwning(trace[i]) :: HappenedBetween(trace, DownExited, i, j)
    case _ => true
  }

  ghost predicate Ordered(trace: seq<Event>) {
    forall j | 0 <= j < |trace| :: Fits(trace, j)
  }

  lemma BetweenExtends(trace: seq<Event>, event: Event, i: nat, j: nat)
    requires i <= j <= |trace|
    ensures forall e :: HappenedBetween(trace + [event], e, i, j) <==> HappenedBetween(trace, e, i, j)
    ensures i < j && trace[i].UpBegan? ==>
              (ExitedBetween(trace + [event], i, j) <==> ExitedBetween(trace, i, j))
  {
    var longer := trace + [event];
    assert forall k | 0 <= k < j :: longer[k] == trace[k];
  }

  lemma FitsExtends(trace: seq<Event>, event: Event, j: nat)
    requires j < |trace| && Fits(trace, j)
    ensures Fits(trace + [event], j)
  {
    var longer := trace + [event];
    hide HappenedBetween, ExitedBetween;
    BetweenExtends(trace, event, 0, j);
    forall i | 0 <= i < j
      ensures longer[i] == trace[i]
      ensures trace[i].UpBegan? ==> (ExitedBetween(longer, i, j) <==> ExitedBetween(trace, i, j))
      ensures HappenedBetween(longer, DownExited, i, j) <==> HappenedBetween(trace, DownExited, i, j)
    {
      BetweenExtends(trace, event, i, j);
    }
    assert UpsExited(longer, j) <==> UpsExited(trace, j);
    if trace[j].DownBegan? {
      var i :| 0 <= i < j && IsOwning(trace[i]);
      assert IsOwning(longer[i]);
    }
  }

  lemma OrderedExtends(trace: seq<Event>, event: Event)
    requires Ordered(trace) && Fits(trace + [event], |trace|)
    ensures Ordered(trace + [event])
  {
    hide Fits;
    forall j | 0 <= j < |trace|
      ensures Fits(trace + [event], j)
    {
      FitsExtends(trace, event, j);
    }
  }

  // ── What the state knows of its trace ───────────────────────────────

  /** Of a `make up` begun: its task runs it still, or it has exited since. */
  ghost predicate UpIsKnown(s: State, i: nat)
    requires i < |s.trace| && s.trace[i].UpBegan?
  {
    var t := s.trace[i].task;
    && t < |s.tasks| && !s.tasks[t].Created? && !s.tasks[t].FirstProbe?
    && (s.tasks[t].Upping? || ExitedBetween(s.trace, i, |s.trace|))
  }

  /** Of servers owned: they are still, or `make down` has begun since. */
  ghost predicate OwningIsKnown(s: State, i: nat)
    requires i < |s.trace|
  {
    s.owns || HappenedBetween(s.trace, DownBegan, i, |s.trace|)
  }

  ghost predicate RemembersStop(s: State) {
    && (StopAsked in s.trace <==> !s.inFlightStop.NotAsked?)
    && (StopPassed in s.trace <==> IsPastWait(s.inFlightStop))
    && (DownBegan in s.trace ==> IsPastWait(s.inFlightStop))
    && (s.inFlightStop.Downing? || s.inFlightStop.Downed? ==> DownBegan in s.trace)
  }

  ghost predicate RemembersUps(s: State) {
    && (forall i | 0 <= i < |s.trace| && s.trace[i].UpBegan? :: UpIsKnown(s, i))
    && (forall i | 0 <= i < |s.trace| && IsOwning(s.trace[i]) :: OwningIsKnown(s, i))
    && (s.owns ==> exists i :: 0 <= i < |s.trace| && IsOwning(s.trace[i]))
  }

  ghost predicate RemembersDown(s: State) {
    forall i | 0 <= i < |s.trace| && s.trace[i].DownBegan? ::
      s.inFlightStop.Downing? || HappenedBetween(s.trace, DownExited, i, |s.trace|)
  }

  ghost predicate Invariant(s: State) {
    Controlled(s) && RemembersStop(s) && RemembersUps(s) && RemembersDown(s) && Ordered(s.trace)
  }

  lemma StillBetween(trace: seq<Event>, more: seq<Event>, event: Event, i: nat)
    requires i <= |trace|
    ensures HappenedBetween(trace, event, i, |trace|) ==>
              HappenedBetween(trace + more, event, i, |trace + more|)
    ensures i < |trace| && trace[i].UpBegan? && ExitedBetween(trace, i, |trace|) ==>
              ExitedBetween(trace + more, i, |trace + more|)
  {
    var longer := trace + more;
    if HappenedBetween(trace, event, i, |trace|) {
      var k :| i <= k < |trace| && trace[k] == event;
      assert longer[k] == event;
    }
    if i < |trace| && trace[i].UpBegan? && ExitedBetween(trace, i, |trace|) {
      var k :| i < k < |trace| && trace[k] == UpExited(trace[i].task);
      assert longer[k] == UpExited(longer[i].task);
    }
  }

  lemma StopStaysRemembered(s: State, step: Step)
    requires Controlled(s) && RemembersStop(s) && Enabled(s, step)
    ensures RemembersStop(After(s, step))
  {
    hide OneTaskInFlight, CallersFollowTasks;
  }

  lemma DownStaysRemembered(s: State, step: Step)
    requires RemembersDown(s) && RemembersStop(s) && Enabled(s, step)
    ensures RemembersDown(After(s, step))
  {
    var after := After(s, step);
    forall i | 0 <= i < |after.trace| && after.trace[i].DownBegan?
      ensures after.inFlightStop.Downing? || HappenedBetween(after.trace, DownExited, i, |after.trace|)
    {
      if i < |s.trace| {
        StillBetween(s.trace, after.trace[|s.trace|..], DownExited, i);
        assert after.trace == s.trace + after.trace[|s.trace|..];
        assert s.trace[i] == DownBegan;
      }
      if step.DownExits? {
        assert after.trace[|s.trace|] == DownExited;
      }
    }
  }

  lemma UpsStayRemembered(s: State, step: Step)
    requires Controlled(s) && RemembersStop(s) && RemembersUps(s) && Enabled(s, step)
    ensures RemembersUps(After(s, step))
  {
    var after := After(s, step);
    forall i | 0 <= i < |after.trace| && after.trace[i].UpBegan?
      ensures UpIsKnown(after, i)
    {
      UpStaysKnown(s, step, i);
    }
    forall i | 0 <= i < |after.trace| && IsOwning(after.trace[i])
      ensures OwningIsKnown(after, i)
    {
      OwningStaysKnown(s, step, i);
    }
    if after.owns {
      if s.owns {
        var i :| 0 <= i < |s.trace| && IsOwning(s.trace[i]);
        assert IsOwning(after.trace[i]);
      } else {
        assert IsOwning(after.trace[|s.trace|]);
      }
    }
  }

  lemma UpEndsByExiting(s: State, step: Step, t: nat)
    requires Enabled(s, step) && t < |s.tasks| && !s.tasks[t].Created? && !s.tasks[t].FirstProbe?
    ensures var after := After(s, step);
            && t < |after.tasks| && !after.tasks[t].Created? && !after.tasks[t].FirstProbe?
            && (s.tasks[t].Upping? ==>
                  after.tasks[t].Upping? || after.trace == s.trace + [UpExited(t)])
  {
  }

  lemma UpStaysKnown(s: State, step: Step, i: nat)
    requires RemembersUps(s) && Enabled(s, step)
    requires i < |After(s, step).trace| && After(s, step).trace[i].UpBegan?
    ensures UpIsKnown(After(s, step), i)
  {
    var after := After(s, step);
    if i < |s.trace| {
      assert UpIsKnown(s, i);
      hide RemembersUps, Enabled;
      var t := s.trace[i].task;
      assert after.trace == s.trace + after.trace[|s.trace|..];
      UpEndsByExiting(s, step, t);
      StillBetween(s.trace, after.trace[|s.trace|..], DownExited, i);
      if s.tasks[t].Upping? && !after.tasks[t].Upping? {
        assert after.trace[|s.trace|] == UpExited(t);
      }
    }
  }

  lemma OwningStaysKnown(s: State, step: Step, i: nat)
    requires RemembersUps(s) && Enabled(s, step)
    requires i < |After(s, step).trace| && IsOwning(After(s, step).trace[i])
    ensures OwningIsKnown(After(s, step), i)
  {
    var after := After(s, step);
    if i < |s.trace| {
      assert OwningIsKnown(s, i);
      StillBetween(s.trace, after.trace[|s.trace|..], DownBegan, i);
      assert after.trace == s.trace + after.trace[|s.trace|..];
      if s.owns && !after.owns {
        assert after.trace[|s.trace| + 1] == DownBegan;
      }
    }
  }

  // ── New events fit ──────────────────────────────────────────────────

  lemma NothingBetween(trace: seq<Event>, event: Event, more: seq<Event>)
    ensures HappenedBetween(trace + more, event, 0, |trace|) <==> event in trace
  {
    var longer := trace + more;
    if event in trace {
      var k :| 0 <= k < |trace| && trace[k] == event;
      assert longer[k] == event;
    }
    if HappenedBetween(longer, event, 0, |trace|) {
      var k :| 0 <= k < |trace| && longer[k] == event;
      assert trace[k] == event;
    }
  }

  lemma UpsHaveExited(s: State, more: seq<Event>)
    requires RemembersUps(s) && forall t | 0 <= t < |s.tasks| :: !s.tasks[t].Upping?
    ensures UpsExited(s.trace + more, |s.trace|)
  {
    var longer := s.trace + more;
    forall i | 0 <= i < |s.trace| && longer[i].UpBegan?
      ensures ExitedBetween(longer, i, |s.trace|)
    {
      assert longer[i] == s.trace[i];
      assert UpIsKnown(s, i);
      var k :| i < k < |s.trace| && s.trace[k] == UpExited(s.trace[i].task);
      assert longer[k] == UpExited(longer[i].task);
    }
  }

  /** Once the stop task is over, every server owned has been taken down since. */
  lemma AllTakenDown(s: State, more: seq<Event>)
    requires RemembersUps(s) && RemembersDown(s) && s.inFlightStop.Over? && !s.owns
    ensures forall i | 0 <= i < |s.trace| && IsOwning((s.trace + more)[i]) ::
              HappenedBetween(s.trace + more, DownExited, i, |s.trace|)
  {
    var longer := s.trace + more;
    forall i | 0 <= i < |s.trace| && IsOwning(longer[i])
      ensures HappenedBetween(longer, DownExited, i, |s.trace|)
    {
      assert longer[i] == s.trace[i];
      assert OwningIsKnown(s, i);
      var j :| i <= j < |s.trace| && s.trace[j] == DownBegan;
      var k :| j <= k < |s.trace| && s.trace[k] == DownExited;
      assert longer[k] == DownExited;
    }
  }

  lemma NewEventFits(s: State, step: Step)
    requires Invariant(s) && Enabled(s, step)
    requires |After(s, step).trace| == |s.trace| + 1
    ensures Fits(After(s, step).trace, |s.trace|)
  {
    var after := After(s, step);
    var event := after.trace[|s.trace|];
    assert after.trace == s.trace + [event];
    forall e
      ensures HappenedBetween(after.trace, e, 0, |s.trace|) <==> e in s.trace
    {
      NothingBetween(s.trace, e, [event]);
    }
    hide HappenedBetween, CallersFollowTasks, Ordered;
    match event
    case UpBegan(t) =>
      NoneIsUpping(s, t);
      UpsHaveExited(s, [event]);
    case StopReturned => AllTakenDown(s, [event]);
    case _ =>
  }

  /** While a task is at its first probe, no other is in flight, and no stop is past its wait. */
  lemma NoneIsUpping(s: State, t: nat)
    requires Controlled(s) && RemembersStop(s) && t < |s.tasks| && s.tasks[t].FirstProbe?
    ensures forall u | 0 <= u < |s.tasks| :: !s.tasks[u].Upping?
    ensures StopPassed !in s.trace && DownBegan !in s.trace
  {
    assert TaskFits(s, t);
    forall u | 0 <= u < |s.tasks|
      ensures !s.tasks[u].Upping?
    {
      assert TaskFits(s, u);
    }
  }

  lemma PassedEventsFit(s: State)
    requires Invariant(s) && !s.inFlightStop.NotAsked? && !IsPastWait(s.inFlightStop) && s.owns
    requires forall t | 0 <= t < |s.tasks| :: s.tasks[t].Done?
    ensures Ordered(s.trace + [StopPassed] + [DownBegan])
  {
    var passed := s.trace + [StopPassed];
    forall e
      ensures HappenedBetween(passed, e, 0, |s.trace|) <==> e in s.trace
      ensures HappenedBetween(passed + [DownBegan], e, 0, |passed|) <==> e in passed
    {
      NothingBetween(s.trace, e, [StopPassed]);
      NothingBetween(passed, e, [DownBegan]);
    }
    UpsHaveExited(s, [StopPassed] + [DownBegan]);
    assert passed + [DownBegan] == s.trace + ([StopPassed] + [DownBegan]);
    hide HappenedBetween, CallersFollowTasks, Ordered;
    OrderedExtends(s.trace, StopPassed);
    var i :| 0 <= i < |s.trace| && IsOwning(s.trace[i]);
    assert IsOwning((passed + [DownBegan])[i]);
    UpsExitedExtends(passed + [DownBegan], |s.trace|);
    OrderedExtends(passed, DownBegan);
  }

  lemma UpsExitedExtends(trace: seq<Event>, j: nat)
    requires j < |trace| && UpsExited(trace, j) && !trace[j].UpBegan?
    ensures UpsExited(trace, j + 1)
  {
    forall i | 0 <= i < j + 1 && trace[i].UpBegan?
      ensures ExitedBetween(trace, i, j + 1)
    {
      assert ExitedBetween(trace, i, j);
    }
  }

  lemma OrderStays(s: State, step: Step)
    requires Invariant(s) && Enabled(s, step)
    ensures Ordered(After(s, step).trace)
  {
    var after := After(s, step);
    if |after.trace| == |s.trace| + 1 {
      NewEventFits(s, step);
      assert after.trace == s.trace + [after.trace[|s.trace|]];
      hide Fits;
      OrderedExtends(s.trace, after.trace[|s.trace|]);
    } else if |after.trace| == |s.trace| + 2 {
      AllDoneAtTheWait(s, step);
      PassedEventsFit(s);
    }
  }

  lemma AllDoneAtTheWait(s: State, step: Step)
    requires Controlled(s) && Enabled(s, step)
    requires step.StopWakes? || (step.StopBegins? && s.inFlightStart.None?)
    ensures forall t | 0 <= t < |s.tasks| :: s.tasks[t].Done?
  {
    forall t | 0 <= t < |s.tasks|
      ensures s.tasks[t].Done?
    {
      assert TaskFits(s, t);
    }
  }

  lemma InvariantStays(s: State, step: Step)
    requires Invariant(s) && Enabled(s, step)
    ensures Invariant(After(s, step))
  {
    TasksStay(s, step);
    CallersStay(s, step);
    StopStaysRemembered(s, step);
    UpsStayRemembered(s, step);
    DownStaysRemembered(s, step);
    OrderStays(s, step);
  }

  lemma {:induction false} EveryRunKeepsIt(policy: Policy, steps: seq<Step>, s: State)
    requires Reaches(policy, steps, s)
    ensures Invariant(s) && s.policy == policy
  {
    if steps != [] {
      var n := |steps| - 1;
      var before := Play(policy, steps[..n]).value;
      EveryRunKeepsIt(policy, steps[..n], before);
      InvariantStays(before, steps[n]);
      hide Invariant;
    }
  }

  // ── Safety of every run ─────────────────────────────────────────────

  /** At most one `make up` is in flight, and none while `make down` is. */
  lemma CommandsNeverOverlap(policy: Policy, steps: seq<Step>, s: State)
    requires Reaches(policy, steps, s)
    ensures forall t, u | 0 <= t < |s.tasks| && 0 <= u < |s.tasks| ::
              s.tasks[t].Upping? && s.tasks[u].Upping? ==> t == u
    ensures s.inFlightStop.Downing? ==> forall t | 0 <= t < |s.tasks| :: !s.tasks[t].Upping?
    ensures forall i, j | 0 <= i < j < |s.trace| && s.trace[i].UpBegan? ::
              s.trace[j].UpBegan? || s.trace[j].DownBegan? ==> ExitedBetween(s.trace, i, j)
  {
    EveryRunKeepsIt(policy, steps, s);
    forall i, j | 0 <= i < j < |s.trace| && s.trace[i].UpBegan? && (s.trace[j].UpBegan? || s.trace[j].DownBegan?)
      ensures ExitedBetween(s.trace, i, j)
    {
      assert Fits(s.trace, j);
    }
    forall t, u | 0 <= t < |s.tasks| && 0 <= u < |s.tasks| && s.tasks[t].Upping? && s.tasks[u].Upping?
      ensures t == u
    {
      assert TaskFits(s, t) && TaskFits(s, u);
    }
    forall t | 0 <= t < |s.tasks| && s.inFlightStop.Downing?
      ensures !s.tasks[t].Upping?
    {
      assert TaskFits(s, t);
    }
  }

  /** No `make up` begins once the stop task is past its wait, nor after `make down` has begun. */
  lemma NoUpAfterTheWait(policy: Policy, steps: seq<Step>, s: State)
    requires Reaches(policy, steps, s)
    ensures forall i, j | 0 <= i < j < |s.trace| && s.trace[j].UpBegan? ::
              s.trace[i] != StopPassed && s.trace[i] != DownBegan
  {
    EveryRunKeepsIt(policy, steps, s);
    forall i, j | 0 <= i < j < |s.trace| && s.trace[j].UpBegan?
      ensures s.trace[i] != StopPassed && s.trace[i] != DownBegan
    {
      assert Fits(s.trace, j);
    }
  }

  /** `make down` runs once at most, and only to take down servers this launcher owned: it
      began a `make up` before, or adopted servers it found up. */
  lemma DownOnceAndOnlyOwned(policy: Policy, steps: seq<Step>, s: State)
    requires Reaches(policy, steps, s)
    ensures forall i, j | 0 <= i < |s.trace| && 0 <= j < |s.trace| ::
              s.trace[i] == DownBegan && s.trace[j] == DownBegan ==> i == j
    ensures forall j | 0 <= j < |s.trace| && s.trace[j] == DownBegan ::
              exists i :: 0 <= i < j && IsOwning(s.trace[i])
  {
    EveryRunKeepsIt(policy, steps, s);
    forall j | 0 <= j < |s.trace| && s.trace[j] == DownBegan
      ensures forall i | 0 <= i < j :: s.trace[i] != DownBegan
      ensures exists i :: 0 <= i < j && IsOwning(s.trace[i])
    {
      assert Fits(s.trace, j);
    }
  }

  lemma StepNotesNoReturn(s: State, step: Step)
    requires Enabled(s, step) && !step.StopReturns?
    ensures StopReturned in After(s, step).trace ==> StopReturned in s.trace
    ensures s.inFlightStop.Over? ==> After(s, step).inFlightStop.Over?
  {
  }

  lemma {:induction false} StoppersKnow(policy: Policy, steps: seq<Step>, s: State)
    requires Reaches(policy, steps, s)
    ensures StopReturned in s.trace ==> s.inFlightStop.Over?
  {
    if steps != [] {
      var n := |steps| - 1;
      var before := Play(policy, steps[..n]).value;
      StoppersKnow(policy, steps[..n], before);
      if !steps[n].StopReturns? {
        StepNotesNoReturn(before, steps[n]);
        hide After, Enabled;
      }
    }
  }

  /** When a call of `stop` returns, ownership is given up for good, and a `make down` that has
      completed followed every `make up` ever begun and every adoption. */
  lemma StoppedMeansDown(policy: Policy, steps: seq<Step>, s: State)
    requires Reaches(policy, steps, s) && StopReturned in s.trace
    ensures !s.owns && s.inFlightStop.Over?
    ensures forall i | 0 <= i < |s.trace| && IsOwning(s.trace[i]) ::
              HappenedBetween(s.trace, DownExited, i, |s.trace|)
  {
    EveryRunKeepsIt(policy, steps, s);
    StoppersKnow(policy, steps, s);
    AllTakenDown(s, []);
    assert s.trace + [] == s.trace;
  }

  /** No polling probe begins once a stop has been asked for. */
  lemma NoPollAfterStop(policy: Policy, steps: seq<Step>, s: State)
    requires Reaches(policy, steps, s)
    ensures forall i, j | 0 <= i < j < |s.trace| && s.trace[j].Polled? :: s.trace[i] != StopAsked
  {
    EveryRunKeepsIt(policy, steps, s);
    forall i, j | 0 <= i < j < |s.trace| && s.trace[j].Polled?
      ensures s.trace[i] != StopAsked
    {
      assert Fits(s.trace, j);
    }
  }
}
