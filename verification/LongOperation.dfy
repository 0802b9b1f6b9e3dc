/** What a page tells of long operations, from the answers of the server it happens to get. */
module LongOperation {
  import opened Schema

  datatype Kind = LevelChange | SourceOperation

  datatype Outcome = Succeeded | Cancelled | Failed

  /** An answer: the operation last started, whether it runs, and how it ended. */
  datatype Status = Status(
    operation: int, kind: Option<Kind>, running: bool, outcome: Option<Outcome>, error: Option<string>)

  datatype Signal = Nothing | Failure(kind: Option<Kind>, error: string) | Reload | Finished

  predicate IsEnd(status: Status) {
    !status.running && status.outcome.Some?
  }

  predicate IsEndOf(status: Status, operation: int) {
    IsEnd(status) && status.operation == operation
  }

  /** Whether an answer says that an operation, the last one, runs no more. */
  predicate IsOver(status: Status, operation: int) {
    !status.running && status.operation == operation
  }

  function SignalOf(status: Status): Signal {
    if status.outcome == Some(Failed)
    then Failure(status.kind, if status.error.Some? then status.error.value else "Unknown error")
    else if status.kind == Some(LevelChange) then Reload
    else Finished
  }

  // ── The observer ────────────────────────────────────────────────────

  /** What is remembered of the last answer. */
  ghost predicate IsLast(answers: seq<Status>, wasRunning: bool, seenChange: Option<int>) {
    if answers == [] then !wasRunning && seenChange.None?
    else
      && wasRunning == answers[|answers| - 1].running
      && seenChange == Some(answers[|answers| - 1].operation)
  }

  /** Whether an answer is told of: it has an end, it is not the first answer, and the one before
      it did not say that the operation is over. */
  predicate IsTold(answers: seq<Status>, k: nat)
    requires k < |answers|
  {
    k > 0 && IsEnd(answers[k]) && !IsOver(answers[k - 1], answers[k].operation)
  }

  /** The signals of answers, in whatever order these come. */
  ghost predicate AreTold(answers: seq<Status>, signals: seq<Signal>) {
    && |signals| == |answers|
    && forall k | 0 <= k < |answers| ::
         signals[k] == if IsTold(answers, k) then SignalOf(answers[k]) else Nothing
  }

  class LongOperationObserver {
    var wasRunning: bool
    var seenChange: Option<int>
    ghost var answers: seq<Status>
    ghost var signals: seq<Signal>

    ghost predicate Valid()
      reads this
    {
      IsLast(answers, wasRunning, seenChange) && AreTold(answers, signals)
    }

    constructor ()
      ensures Valid() && answers == []
    {
      wasRunning, seenChange, answers, signals := false, None, [], [];
    }

    method Apply(next: Status) returns (signal: Signal)
      requires Valid()
      modifies this
      ensures Valid() && answers == old(answers) + [next] && signals == old(signals) + [signal]
    {
      var unseen := seenChange.Some? && next.operation != seenChange.value;
      signal := Nothing;
      if !next.running && next.outcome.Some? && (wasRunning || unseen) {
        if next.outcome == Some(Failed) {
          signal := Failure(next.kind, if next.error.Some? then next.error.value else "Unknown error");
        } else if next.kind == Some(LevelChange) {
          signal := Reload;
        } else {
          signal := Finished;
        }
      }
      OneMoreAnswer(answers, signals, next);
      assert IsTold(answers + [next], |answers|) <==> IsEnd(next) && (wasRunning || unseen);
      hide AreTold;
      seenChange := Some(next.operation);
      wasRunning := next.running;
      answers := answers + [next];
      signals := signals + [signal];
    }
  }

  lemma OneMoreAnswer(answers: seq<Status>, signals: seq<Signal>, next: Status)
    requires AreTold(answers, signals)
    ensures var all := answers + [next];
            AreTold(all, signals + [if IsTold(all, |answers|) then SignalOf(next) else Nothing])
  {
    var all := answers + [next];
    forall k | 0 <= k < |answers|
      ensures IsTold(all, k) <==> IsTold(answers, k)
    {
      assert all[k] == answers[k] && (k > 0 ==> all[k - 1] == answers[k - 1]);
    }
  }

  /** What is told: an answer that an operation has ended, which is not the first, and comes after
      one of another operation or of this one running; with what went wrong, or that the page is
      to reload after a change of level. */
  lemma SignalsSayTheEnd(answers: seq<Status>, signals: seq<Signal>, k: nat)
    requires AreTold(answers, signals) && k < |answers|
    ensures var answer := answers[k];
            var told :=
              && k > 0 && !answer.running && answer.outcome != None
              && (answers[k - 1].running || answers[k - 1].operation != answer.operation);
            && (signals[k] == Nothing <==> !told)
            && (signals[k].Failure? <==> told && answer.outcome == Some(Failed))
            && (signals[k].Failure? ==>
                  && signals[k].kind == answer.kind
                  && (answer.error.Some? ==> signals[k].error == answer.error.value)
                  && (answer.error.None? ==> signals[k].error == "Unknown error"))
            && (signals[k] == Reload <==>
                  told && answer.outcome != Some(Failed) && answer.kind == Some(LevelChange))
  {
    var told := if IsTold(answers, k) then SignalOf(answers[k]) else Nothing;
    assert signals[k] == told;
  }

  // ── When an end is told twice ───────────────────────────────────────

  ghost predicate IsToldTwice(answers: seq<Status>, signals: seq<Signal>, operation: int)
    requires |signals| == |answers|
  {
    exists i, j ::
      && 0 <= i < j < |answers|
      && signals[i] != Nothing && signals[j] != Nothing
      && answers[i].operation == operation && answers[j].operation == operation
  }

  /** Whether an answer has the end of an operation, and comes directly after an answer that
      does not say the operation is over. */
  predicate StartsItsEnd(answers: seq<Status>, k: nat, operation: int)
    requires k < |answers|
  {
    k > 0 && IsEndOf(answers[k], operation) && !IsOver(answers[k - 1], operation)
  }

  /** For every sequence of answers: the end of an operation is told twice if and only if two
      answers have it that each come directly after an answer that does not say it is over. */
  lemma ToldTwiceIff(answers: seq<Status>, signals: seq<Signal>, operation: int)
    requires AreTold(answers, signals)
    ensures IsToldTwice(answers, signals, operation) <==>
              exists i, j ::
                0 <= i < j < |answers| && StartsItsEnd(answers, i, operation) && StartsItsEnd(answers, j, operation)
  {
    forall k | 0 <= k < |answers|
      ensures signals[k] != Nothing && answers[k].operation == operation <==> StartsItsEnd(answers, k, operation)
    {
      assert signals[k] == if IsTold(answers, k) then SignalOf(answers[k]) else Nothing;
    }
    if IsToldTwice(answers, signals, operation) {
      var i, j :|
        && 0 <= i < j < |answers|
        && signals[i] != Nothing && signals[j] != Nothing
        && answers[i].operation == operation && answers[j].operation == operation;
      assert StartsItsEnd(answers, i, operation) && StartsItsEnd(answers, j, operation);
    }
    if i, j :| 0 <= i < j < |answers| && StartsItsEnd(answers, i, operation) && StartsItsEnd(answers, j, operation) {
      assert signals[i] != Nothing && signals[j] != Nothing;
    }
  }

  // ── Answers that arrive out of order ────────────────────────────────

  /** Two answers in the order the server gave them: operations are numbered as they start, and
      one that is over stays so, with the outcome it had. */
  predicate Follows(earlier: Status, later: Status) {
    && earlier.operation <= later.operation
    && (earlier.operation == later.operation && !earlier.running ==>
          !later.running && later.outcome == earlier.outcome)
  }

  ghost predicate InOrder(answers: seq<Status>) {
    forall i, j | 0 <= i < j < |answers| :: Follows(answers[i], answers[j])
  }

  /** The answers are some of those the server gave, each at most once; `given` says which. */
  ghost predicate Arrive(sent: seq<Status>, given: seq<nat>, answers: seq<Status>) {
    && InOrder(sent) && |given| == |answers|
    && (forall k | 0 <= k < |given| :: given[k] < |sent| && answers[k] == sent[given[k]])
    && (forall i, j | 0 <= i < j < |given| :: given[i] != given[j])
  }

  /** Whether, of three answers, the one in the middle does not belong between the others: the
      server gave it before both or after both. */
  predicate IsStray(given: seq<nat>, i: nat, m: nat, j: nat)
    requires i < |given| && m < |given| && j < |given|
  {
    (given[m] < given[i] && given[m] < given[j]) || (given[i] < given[m] && given[j] < given[m])
  }

  /** The last answer before `j`, from `i` on, that does not say the operation is over. */
  lemma {:induction false} LastOther(answers: seq<Status>, operation: int, i: nat, j: nat) returns (m: nat)
    requires i < j <= |answers| && !IsOver(answers[i], operation)
    ensures i <= m < j && !IsOver(answers[m], operation)
    ensures forall k | m < k < j :: IsOver(answers[k], operation)
  {
    m := j - 1;
    if IsOver(answers[j - 1], operation) {
      m := LastOther(answers, operation, i, j - 1);
    }
  }

  /** The answer that starts the run of answers saying the operation is over, in which `j` is. */
  lemma StartOfRun(
    sent: seq<Status>, given: seq<nat>, answers: seq<Status>, operation: int, from: nat, j: nat) returns (start: nat)
    requires Arrive(sent, given, answers)
    requires from < j < |answers| && !IsOver(answers[from], operation) && IsEndOf(answers[j], operation)
    ensures from < start <= j && StartsItsEnd(answers, start, operation)
  {
    var m := LastOther(answers, operation, from, j);
    start := m + 1;
    OverIsOver(sent, given, answers, operation, start, j);
  }

  /** All answers that say an operation is over have one outcome. */
  lemma OverIsOver(
    sent: seq<Status>, given: seq<nat>, answers: seq<Status>, operation: int, k: nat, j: nat)
    requires Arrive(sent, given, answers) && k < |answers| && j < |answers|
    requires k == j || IsOver(answers[k], operation)
    requires IsEndOf(answers[j], operation)
    ensures IsEndOf(answers[k], operation)
  {
    if given[k] < given[j] {
      assert Follows(sent[given[k]], sent[given[j]]);
    } else if given[j] < given[k] {
      assert Follows(sent[given[j]], sent[given[k]]);
    }
  }

  /** Whether an answer with the end of an operation arrives, then one that does not say it is
      over, and then its end again; after some first answer that does not say it is over. */
  predicate ReturnsAfter(answers: seq<Status>, operation: int, p: int, i: int, m: int, j: int) {
    && 0 <= p < i < m < j < |answers|
    && !IsOver(answers[p], operation) && IsEndOf(answers[i], operation)
    && !IsOver(answers[m], operation) && IsEndOf(answers[j], operation)
  }

  ghost predicate EndReturns(answers: seq<Status>, operation: int) {
    exists p, i, m, j :: ReturnsAfter(answers, operation, p, i, m, j)
  }

  lemma TwoStartsReturn(answers: seq<Status>, operation: int, i: nat, j: nat)
    requires i < j < |answers| && StartsItsEnd(answers, i, operation) && StartsItsEnd(answers, j, operation)
    ensures EndReturns(answers, operation)
  {
    assert ReturnsAfter(answers, operation, i - 1, i, j - 1, j);
  }

  /** For answers that arrive in any order: the end of an operation is told twice if and only if
      it returns after another answer. */
  lemma ToldTwiceIffReturns(
    sent: seq<Status>, given: seq<nat>, answers: seq<Status>, signals: seq<Signal>, operation: int)
    requires Arrive(sent, given, answers) && AreTold(answers, signals)
    ensures IsToldTwice(answers, signals, operation) <==> EndReturns(answers, operation)
  {
    ToldTwiceIff(answers, signals, operation);
    hide AreTold, IsToldTwice, Arrive;
    if i, j :| 0 <= i < j < |answers| && StartsItsEnd(answers, i, operation) && StartsItsEnd(answers, j, operation) {
      TwoStartsReturn(answers, operation, i, j);
    }
    hide StartsItsEnd;
    if p, i, m, j :| ReturnsAfter(answers, operation, p, i, m, j) {
      var first := StartOfRun(sent, given, answers, operation, p, i);
      var second := StartOfRun(sent, given, answers, operation, m, j);
      assert first < second;
    }
  }

  /** The answer an end returns after is a stray: the server gave it before both or after both. */
  lemma BetweenEndsIsStray(
    sent: seq<Status>, given: seq<nat>, answers: seq<Status>, operation: int, i: nat, m: nat, j: nat)
    requires Arrive(sent, given, answers) && i < |answers| && m < |answers| && j < |answers|
    requires IsEndOf(answers[i], operation) && IsEndOf(answers[j], operation) && !IsOver(answers[m], operation)
    ensures IsStray(given, i, m, j)
  {
    var a, b, c := given[i], given[m], given[j];
    assert a < b ==> Follows(sent[a], sent[b]);
    assert b < c ==> Follows(sent[b], sent[c]);
    assert c < b ==> Follows(sent[c], sent[b]);
    assert b < a ==> Follows(sent[b], sent[a]);
  }

  // ── Answers in order ────────────────────────────────────────────────

  /** In order, an end is told of once at most: nothing can stray between two answers with it. */
  lemma EndsAreToldOnce(answers: seq<Status>, signals: seq<Signal>, operation: int)
    requires InOrder(answers) && AreTold(answers, signals)
    ensures !IsToldTwice(answers, signals, operation)
  {
    var given: seq<nat> := seq(|answers|, k => k);
    assert Arrive(answers, given, answers);
    ToldTwiceIffReturns(answers, given, answers, signals, operation);
    hide Arrive, AreTold, IsToldTwice, InOrder;
    forall p, i, m, j | ReturnsAfter(answers, operation, p, i, m, j)
      ensures IsStray(given, i, m, j)
    {
      BetweenEndsIsStray(answers, given, answers, operation, i, m, j);
    }
  }

  /** In order, an end is told of by the first answer that has it, whether its operation was ever
      seen running or not, once any answer came before. */
  lemma EveryEndIsTold(answers: seq<Status>, signals: seq<Signal>, k: nat)
    requires InOrder(answers) && AreTold(answers, signals)
    requires 0 < k < |answers| && IsEnd(answers[k])
    requires forall i | 0 <= i < k :: !IsEndOf(answers[i], answers[k].operation)
    ensures signals[k] == SignalOf(answers[k]) != Nothing
  {
    assert Follows(answers[k - 1], answers[k]);
  }

  /** A late answer that a page can get: the operation still running, after its end. */
  method LateAnswerTellsTwice() returns (signals: seq<Signal>)
    ensures signals == [Nothing, Finished, Nothing, Finished]
  {
    var running := Status(1, Some(SourceOperation), true, None, None);
    var ended := Status(1, Some(SourceOperation), false, Some(Succeeded), None);
    var observer := new LongOperationObserver();
    var first := observer.Apply(running);
    var second := observer.Apply(ended);
    var third := observer.Apply(running);
    var fourth := observer.Apply(ended);
    signals := [first, second, third, fourth];
    ghost var answers := [running, ended, running, ended];
    assert observer.answers == answers && observer.signals == signals;
    assert !IsTold(answers, 0) && IsTold(answers, 1) && !IsTold(answers, 2) && IsTold(answers, 3);
  }
}
