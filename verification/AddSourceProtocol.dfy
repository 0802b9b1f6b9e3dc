/** The calls of one add, from the first to the one that makes the sources. */
module AddSourceProtocol {
  import opened Schema
  import opened SharedQuestions
  import opened AddSource
  import opened AddSourceAnswers

  // ── What a reply asks about an input ────────────────────────────────

  function TitleFor(request: Request): Option<string> {
    if IsBatch(request) then None else request.title
  }

  /** The questions a reply asks about one input. */
  function AboutInput(questions: seq<Asked>, i: nat): seq<Question> {
    if questions == [] then []
    else
      AboutInput(questions[..|questions| - 1], i)
      + if i in questions[|questions| - 1].inputs then [questions[|questions| - 1].question] else []
  }

  /** A client's next answers: to each question, for every input it lists, an option of it;
      the earlier answers as they were, and nothing else. */
  ghost predicate IsAnsweredBy(
    request: Request, answers: seq<Answers>, questions: seq<Asked>, next: seq<Answers>)
  {
    && |next| == |request.inputs|
    && forall i | 0 <= i < |next| :: Adds(AboutInput(questions, i), GivenAt(answers, i), next[i])
  }

  lemma {:induction false} AboutInputIs(questions: seq<Asked>, i: nat, question: Question)
    ensures question in AboutInput(questions, i) <==> AsksInput(questions, question, i)
  {
    if questions != [] {
      var n := |questions| - 1;
      AboutInputIs(questions[..n], i, question);
      if AsksInput(questions[..n], question, i) {
        var j :| 0 <= j < n && questions[..n][j].question == question && i in questions[..n][j].inputs;
        assert questions[j].question == question && i in questions[j].inputs;
      }
      if AsksInput(questions, question, i) {
        var j :| 0 <= j < |questions| && questions[j].question == question && i in questions[j].inputs;
        assert j < n ==> questions[..n][j] == questions[j];
      }
    }
  }

  lemma {:induction false} PendingAsks(
    request: Request, readings: seq<Read>, n: nat, question: Question, i: nat)
    requires n <= |readings| <= |request.inputs|
    ensures AsksInput(PendingOf(request, readings, n), question, i) <==>
              i < n && readings[i].Asking? && question in readings[i].questions
  {
    if n > 0 {
      PendingAsks(request, readings, n - 1, question, i);
      var before := PendingOf(request, readings, n - 1);
      var own := if readings[n - 1].Asking? then AskedBy(request, readings[n - 1].questions, n - 1) else [];
      AsksOfEither(before, own, question, i);
      if readings[n - 1].Asking? && i == n - 1 && question in readings[n - 1].questions {
        var k :| 0 <= k < |readings[n - 1].questions| && readings[n - 1].questions[k] == question;
        assert own[k].question == question && i in own[k].inputs;
      }
    }
  }

  lemma AsksOfEither(a: seq<Asked>, b: seq<Asked>, question: Question, i: nat)
    ensures AsksInput(a + b, question, i) <==> AsksInput(a, question, i) || AsksInput(b, question, i)
  {
    var all := a + b;
    if AsksInput(a, question, i) {
      var j :| 0 <= j < |a| && a[j].question == question && i in a[j].inputs;
      assert all[j] == a[j];
    }
    if AsksInput(b, question, i) {
      var j :| 0 <= j < |b| && b[j].question == question && i in b[j].inputs;
      assert all[|a| + j] == b[j];
    }
  }

  /** A reply asks about an input what the input still asks, no more and no less. */
  lemma ReplyAsksThePending(
    intake: Intake, request: Request, answers: seq<Answers>, naming: Option<Naming>, reply: Reply, i: nat,
    question: Question)
    requires IsReply(intake, request, answers, naming, reply) && reply.QuestionsRequired?
    requires i < |request.inputs|
    ensures ReadOne(intake, request, answers, i).Ok?
    ensures question in AboutInput(reply.questions, i) <==>
              && ReadOne(intake, request, answers, i).value.Asking?
              && question in ReadOne(intake, request, answers, i).value.questions
  {
    var n := |request.inputs|;
    ReadsAll(intake, request, answers, n);
    var readings := ReadAll(intake, request, answers, n).value;
    var pending := PendingOf(request, readings, n);
    PendingAsks(request, readings, n, question, i);
    SharedAsksTheSame(pending, reply.questions, question, i);
    AboutInputIs(reply.questions, i, question);
  }

  // ── Whose question, and whose failure ───────────────────────────────

  /** The input of a question pending, which is named if there are several. */
  lemma {:induction false} PendingIsOfAnInput(request: Request, readings: seq<Read>, n: nat, j: nat)
    returns (i: nat)
    requires n <= |readings| <= |request.inputs| && j < |PendingOf(request, readings, n)|
    ensures var one := PendingOf(request, readings, n)[j];
            && i < n && one.inputs == [i]
            && one.about == if |request.inputs| > 1 then Some(request.inputs[i].0) else None
  {
    var before := PendingOf(request, readings, n - 1);
    if j < |before| {
      i := PendingIsOfAnInput(request, readings, n - 1, j);
    } else {
      i := n - 1;
      var own := AskedBy(request, readings[i].questions, i);
      assert PendingOf(request, readings, n) == before + own;
      assert PendingOf(request, readings, n)[j] == own[j - |before|];
      assert own[j - |before|].about == if IsBatch(request) then Some(request.inputs[i].0) else None;
    }
  }

  lemma {:induction false} InputsOfOne(asked: seq<Asked>, n: nat, question: Question, i: nat)
    requires i < n <= |asked| && asked[i].question == question
    requires forall j | 0 <= j < n :: |asked[j].inputs| == 1
    ensures |InputsOf(asked, n, question)| >= 1
    ensures (forall j | 0 <= j < n && j != i :: asked[j].question != question) ==>
              InputsOf(asked, n, question) == asked[i].inputs
    ensures (exists j :: 0 <= j < n && j != i && asked[j].question == question) ==>
              |InputsOf(asked, n, question)| >= 2
  {
    if i < n - 1 {
      InputsOfOne(asked, n - 1, question, i);
    } else if exists j :: 0 <= j < n - 1 && asked[j].question == question {
      var j :| 0 <= j < n - 1 && asked[j].question == question;
      InputsOfOne(asked, n - 1, question, j);
    } else {
      NotAskedBefore(asked, n - 1, question);
    }
  }

  /** A question of a reply names its input if and only if the add is of several, and just one of
      them asks it. */
  lemma QuestionsNameTheirInput(
    intake: Intake, request: Request, answers: seq<Answers>, naming: Option<Naming>, reply: Reply, k: nat)
    requires IsReply(intake, request, answers, naming, reply) && reply.QuestionsRequired?
    requires k < |reply.questions|
    ensures var one := reply.questions[k];
            if |request.inputs| > 1 && |one.inputs| == 1 then
              one.inputs[0] < |request.inputs| && one.about == Some(request.inputs[one.inputs[0]].0)
            else one.about == None
  {
    var n := |request.inputs|;
    ReadsAll(intake, request, answers, n);
    var readings := ReadAll(intake, request, answers, n).value;
    var pending, one := PendingOf(request, readings, n), reply.questions[k];
    assert AreShared(pending, |pending|, reply.questions);
    hide IsReply, ReadAll, ReadOne, PendingOf;
    assert IsSharedAt(pending, |pending|, one);
    var first :| 0 <= first < |pending| && IsFirst(pending, one.question, first)
                 && one.about == if IsAskedAgain(pending, |pending|, first) then None else pending[first].about;
    forall j | 0 <= j < |pending|
      ensures |pending[j].inputs| == 1
    {
      var i := PendingIsOfAnInput(request, readings, n, j);
    }
    var input := PendingIsOfAnInput(request, readings, n, first);
    InputsOfOne(pending, |pending|, one.question, first);
  }

  /** A call fails for having more answers than inputs, or over the first input that cannot be
      read or has a wrong answer; of several inputs, it says which. */
  lemma FirstFailureIsTold(
    intake: Intake, request: Request, answers: seq<Answers>, naming: Option<Naming>, reply: Reply)
    requires IsReply(intake, request, answers, naming, reply)
    ensures |answers| > |request.inputs| ==> reply == Failed(TooManyAnswers)
    ensures |answers| <= |request.inputs| && reply.Failed? ==>
              exists i ::
                && 0 <= i < |request.inputs|
                && (forall j | 0 <= j < i :: ReadInput(
                      intake, request.inputs[j].1, TitleFor(request), GivenAt(answers, j)).Ok?)
                && var result := ReadInput(intake, request.inputs[i].1, TitleFor(request), GivenAt(answers, i));
                   result.Err? && reply.error ==
                     if |request.inputs| > 1 then InputFailed(request.inputs[i].0, result.error) else result.error
  {
    hide ReadInput;
    if |answers| <= |request.inputs| && reply.Failed? {
      var i := FirstFailure(intake, request, answers, |request.inputs|);
      forall j | 0 <= j < i
        ensures ReadInput(intake, request.inputs[j].1, TitleFor(request), GivenAt(answers, j)).Ok?
      {
        assert ReadOne(intake, request, answers, j).Ok?;
      }
      assert ReadOne(intake, request, answers, i).Err?;
    }
  }

  lemma {:induction false} FirstFailure(intake: Intake, request: Request, answers: seq<Answers>, n: nat)
    returns (i: nat)
    requires n <= |request.inputs| && ReadAll(intake, request, answers, n).Err?
    ensures i < n && ReadOne(intake, request, answers, i) == Err(ReadAll(intake, request, answers, n).error)
    ensures forall j | 0 <= j < i :: ReadOne(intake, request, answers, j).Ok?
  {
    if ReadAll(intake, request, answers, n - 1).Err? {
      i := FirstFailure(intake, request, answers, n - 1);
    } else {
      i := n - 1;
      ReadsAll(intake, request, answers, n - 1);
    }
  }

  // ── The same questions, answered the same ───────────────────────────

  lemma SameQuestionsSameAnswers(a: seq<Question>, b: seq<Question>, answers: Answers, more: Answers)
    requires Adds(a, answers, more) && forall question :: question in a <==> question in b
    ensures Adds(b, answers, more)
  {
    forall k | 0 <= k < |b|
      ensures b[k].id in more
    {
      assert b[k] in b && b[k] in a;
      var j :| 0 <= j < |a| && a[j] == b[k];
      assert a[j].id in more;
    }
    forall id | id in more && id !in answers
      ensures IsAnsweredIn(b, id, more[id])
    {
      assert IsAnsweredIn(a, id, more[id]);
      var k :| 0 <= k < |a| && a[k].id == id && HasOption(a[k], more[id]);
      assert a[k] in a && a[k] in b;
    }
  }

  lemma {:induction false} NothingPending(request: Request, readings: seq<Read>, n: nat)
    requires n <= |readings| <= |request.inputs| && forall i | 0 <= i < n :: readings[i].Drafted?
    ensures PendingOf(request, readings, n) == []
  {
    if n > 0 {
      NothingPending(request, readings, n - 1);
    }
  }

  // ── The calls of a client ───────────────────────────────────────────

  /** Whether a client goes on so: it answers what it is asked, or names what it is to name. */
  ghost predicate GoesOn(request: Request, call: Call, next: Call) {
    match call.reply
    case QuestionsRequired(questions) => IsAnsweredBy(request, call.answers, questions, next.answers)
    case NamingRequired(_) => next.answers == call.answers && next.naming.Some?
    case _ => false
  }

  function WrittenBefore(was: seq<Write>, calls: seq<Call>, k: nat): seq<Write>
    requires k <= |calls|
  {
    if k == 0 then was else calls[k - 1].written
  }

  /** The calls of one add by some client: the first has no answers, and each of the others goes
      on from the one before it. A naming may come at any time. */
  ghost predicate IsConversation(intake: Intake, request: Request, was: seq<Write>, calls: seq<Call>) {
    && calls != [] && calls[0].answers == []
    && (forall k | 0 <= k < |calls| :: IsCall(intake, request, WrittenBefore(was, calls, k), calls[k]))
    && (forall k | 0 < k < |calls| :: GoesOn(request, calls[k - 1], calls[k]))
  }

  ghost predicate AllAccept(intake: Intake, request: Request) {
    forall i | 0 <= i < |request.inputs| ::
      AcceptsAllAnswers(intake, request.inputs[i].1, TitleFor(request))
  }

  ghost predicate AllAtStage(intake: Intake, request: Request, n: nat, answers: seq<Answers>) {
    && |answers| <= |request.inputs|
    && forall i | 0 <= i < |request.inputs| ::
         IsAtStage(intake, request.inputs[i].1, TitleFor(request), n, GivenAt(answers, i))
  }

  /** A round of questions about one input. */
  lemma InputGoesOn(
    intake: Intake, request: Request, n: nat, call: Call, next: seq<Answers>, i: nat)
    requires ReadsByOwnAnswers(intake) && AllAccept(intake, request)
    requires AllAtStage(intake, request, n, call.answers)
    requires IsReply(intake, request, call.answers, call.naming, call.reply) && call.reply.QuestionsRequired?
    requires IsAnsweredBy(request, call.answers, call.reply.questions, next) && i < |request.inputs|
    ensures IsAtStage(intake, request.inputs[i].1, TitleFor(request), n + 1, next[i])
    ensures n >= 2 ==>
              ReadOne(intake, request, call.answers, i).Ok? && ReadOne(intake, request, call.answers, i).value.Drafted?
  {
    var input, title, given := request.inputs[i].1, TitleFor(request), GivenAt(call.answers, i);
    assert IsAtStage(intake, input, title, n, given) && AcceptsAllAnswers(intake, input, title);
    assert Adds(AboutInput(call.reply.questions, i), given, next[i]);
    hide IsReply, IsAtStage, AllAtStage, AcceptsAllAnswers, AllAccept, ReadsByOwnAnswers, Adds, ReadInput;
    ReplyAsksThePending(
      intake, request, call.answers, call.naming, call.reply, i, Question("", "", [], ""));
    var read := ReadInput(intake, input, title, given).value;
    var pending := if read.Asking? then read.questions else [];
    forall question
      ensures question in AboutInput(call.reply.questions, i) <==> question in pending
    {
      ReplyAsksThePending(intake, request, call.answers, call.naming, call.reply, i, question);
    }
    SameQuestionsSameAnswers(AboutInput(call.reply.questions, i), pending, given, next[i]);
    NextStage(intake, input, title, n, given, next[i]);
  }

  /** A round of questions gets every input one stage on, and there is none after the second. */
  lemma RoundGoesOn(intake: Intake, request: Request, n: nat, call: Call, next: seq<Answers>)
    requires ReadsByOwnAnswers(intake) && AllAccept(intake, request)
    requires AllAtStage(intake, request, n, call.answers)
    requires IsReply(intake, request, call.answers, call.naming, call.reply) && call.reply.QuestionsRequired?
    requires IsAnsweredBy(request, call.answers, call.reply.questions, next)
    ensures n < 2 && AllAtStage(intake, request, n + 1, next)
  {
    forall i | 0 <= i < |request.inputs|
      ensures IsAtStage(intake, request.inputs[i].1, TitleFor(request), n + 1, next[i])
      ensures n >= 2 ==>
                && ReadOne(intake, request, call.answers, i).Ok?
                && ReadOne(intake, request, call.answers, i).value.Drafted?
    {
      InputGoesOn(intake, request, n, call, next, i);
    }
    if n >= 2 {
      DraftedAsksNothing(intake, request, call);
    }
    hide IsAtStage;
  }

  lemma DraftedAsksNothing(intake: Intake, request: Request, call: Call)
    requires IsReply(intake, request, call.answers, call.naming, call.reply)
    requires forall i | 0 <= i < |request.inputs| ::
               ReadOne(intake, request, call.answers, i).Ok? && ReadOne(intake, request, call.answers, i).value.Drafted?
    ensures !call.reply.QuestionsRequired?
  {
    var n := |request.inputs|;
    ReadsAll(intake, request, call.answers, n);
    var all := ReadAll(intake, request, call.answers, n);
    if |call.answers| <= n {
      assert all.Ok?;
      forall i | 0 <= i < n
        ensures all.value[i].Drafted?
      {
        assert ReadOne(intake, request, call.answers, i) == Ok(all.value[i]);
      }
      NothingPending(request, all.value, n);
    }
  }

  /** At any stage, a call fails for an unreadable input only. */
  lemma StageIsNotBlamed(intake: Intake, request: Request, n: nat, call: Call)
    requires ReadsByOwnAnswers(intake) && AllAccept(intake, request)
    requires AllAtStage(intake, request, n, call.answers)
    requires IsReply(intake, request, call.answers, call.naming, call.reply)
    ensures call.reply.Failed? ==> !BlamesAnswers(call.reply.error)
  {
    hide IsAtStage, AcceptsAllAnswers, ReadsByOwnAnswers, ReadInput;
    ReadsAll(intake, request, call.answers, |request.inputs|);
    if call.reply.Failed? {
      var i :| 0 <= i < |request.inputs| && ReadOne(intake, request, call.answers, i) == Err(call.reply.error);
      NoStageIsRefused(
        intake, request.inputs[i].1, TitleFor(request), n, GivenAt(call.answers, i));
    }
  }

  /** A naming given once it is asked for makes the sources. */
  lemma NamingIsLast(intake: Intake, request: Request, call: Call, next: Call)
    requires IsReply(intake, request, call.answers, call.naming, call.reply) && call.reply.NamingRequired?
    requires IsReply(intake, request, next.answers, next.naming, next.reply)
    requires next.answers == call.answers && next.naming.Some?
    ensures next.reply.SourcesCreated?
  {
  }

  // ── Where the calls lead ────────────────────────────────────────────

  /** Where a conversation can stand at a call: after rounds of questions only, or at its end. */
  ghost predicate StandsAt(intake: Intake, request: Request, calls: seq<Call>, k: nat)
    requires k < |calls|
  {
    || (&& k <= 2 && AllAtStage(intake, request, k, calls[k].answers)
        && forall j | 0 <= j < k :: calls[j].reply.QuestionsRequired?)
    || (0 < k <= 3 && calls[k - 1].reply.NamingRequired? && calls[k].reply.SourcesCreated?)
  }

  lemma {:induction false} ConversationStands(
    intake: Intake, request: Request, was: seq<Write>, calls: seq<Call>, k: nat)
    requires ReadsByOwnAnswers(intake) && AllAccept(intake, request)
    requires IsConversation(intake, request, was, calls) && k < |calls|
    ensures StandsAt(intake, request, calls, k)
  {
    hide ReadsByOwnAnswers, AllAccept, IsReply, IsAtStage;
    if k == 0 {
      NoAnswersAreTheStart(intake, request);
    } else {
      ConversationStands(intake, request, was, calls, k - 1);
      assert GoesOn(request, calls[k - 1], calls[k]);
      assert IsCall(intake, request, WrittenBefore(was, calls, k - 1), calls[k - 1]);
      assert IsCall(intake, request, WrittenBefore(was, calls, k), calls[k]);
      if calls[k - 1].reply.QuestionsRequired? {
        RoundGoesOn(intake, request, k - 1, calls[k - 1], calls[k].answers);
      } else {
        NamingIsLast(intake, request, calls[k - 1], calls[k]);
      }
    }
  }

  lemma NoAnswersAreTheStart(intake: Intake, request: Request)
    ensures AllAtStage(intake, request, 0, [])
  {
  }

  /** The calls of any client over inputs that accept all answers: two rounds of answers at most,
      a naming at most, and then the sources; no call is refused, so only an unreadable input
      ends them otherwise. Nothing is written before the call that makes the sources. */
  lemma AddEnds(intake: Intake, request: Request, was: seq<Write>, calls: seq<Call>)
    requires ReadsByOwnAnswers(intake) && AllAccept(intake, request)
    requires IsConversation(intake, request, was, calls)
    ensures |calls| <= 4
    ensures forall k | 0 <= k < |calls| && calls[k].reply.QuestionsRequired? :: k < 2
    ensures forall k | 0 <= k < |calls| && calls[k].reply.NamingRequired? ::
              k < 3 && (k + 1 < |calls| ==> k + 2 == |calls| && calls[k + 1].reply.SourcesCreated?)
    ensures forall k | 0 <= k < |calls| && calls[k].reply.Failed? ::
              k + 1 == |calls| && !BlamesAnswers(calls[k].reply.error)
    ensures forall k | 0 <= k < |calls| - 1 :: calls[k].written == was
    ensures var last := calls[|calls| - 1];
            last.written == was
              + if last.reply.SourcesCreated? then [Write(last.reply.drafts, last.reply.titles)] else []
  {
    forall k | 0 <= k < |calls|
      ensures StandsAt(intake, request, calls, k)
      ensures calls[k].reply.QuestionsRequired? ==> k < 2
      ensures calls[k].reply.Failed? ==> !BlamesAnswers(calls[k].reply.error)
      ensures k + 1 < |calls| ==> calls[k].reply.QuestionsRequired? || calls[k].reply.NamingRequired?
    {
      CallOfConversation(intake, request, was, calls, k);
    }
    hide ReadsByOwnAnswers, AllAccept, AllAtStage, IsReply, GoesOn;
    LittleWritten(intake, request, was, calls, |calls| - 1);
    forall k | 0 <= k < |calls| - 1
      ensures calls[k].written == was
    {
      LittleWritten(intake, request, was, calls, k);
    }
    assert StandsAt(intake, request, calls, |calls| - 1);
  }

  lemma CallOfConversation(intake: Intake, request: Request, was: seq<Write>, calls: seq<Call>, k: nat)
    requires ReadsByOwnAnswers(intake) && AllAccept(intake, request)
    requires IsConversation(intake, request, was, calls) && k < |calls|
    ensures StandsAt(intake, request, calls, k)
    ensures calls[k].reply.QuestionsRequired? ==> k < 2
    ensures calls[k].reply.Failed? ==> !BlamesAnswers(calls[k].reply.error)
    ensures k + 1 < |calls| ==> calls[k].reply.QuestionsRequired? || calls[k].reply.NamingRequired?
  {
    hide ReadsByOwnAnswers, AllAccept, IsReply, IsAtStage, AllAtStage;
    ConversationStands(intake, request, was, calls, k);
    assert IsCall(intake, request, WrittenBefore(was, calls, k), calls[k]);
    if !calls[k].reply.SourcesCreated? {
      StageIsNotBlamed(intake, request, k, calls[k]);
      if calls[k].reply.QuestionsRequired? && k == 2 {
        StageAsksNothing(intake, request, calls[k]);
      }
    }
    if k + 1 < |calls| {
      assert GoesOn(request, calls[k], calls[k + 1]);
    }
  }

  lemma StageAsksNothing(intake: Intake, request: Request, call: Call)
    requires ReadsByOwnAnswers(intake) && AllAccept(intake, request)
    requires AllAtStage(intake, request, 2, call.answers)
    requires IsReply(intake, request, call.answers, call.naming, call.reply)
    ensures !call.reply.QuestionsRequired?
  {
    if call.reply.QuestionsRequired? {
      ReadsAll(intake, request, call.answers, |request.inputs|);
      forall i | 0 <= i < |request.inputs|
        ensures ReadOne(intake, request, call.answers, i).Ok?
        ensures ReadOne(intake, request, call.answers, i).value.Drafted?
      {
        assert IsAtStage(intake, request.inputs[i].1, TitleFor(request), 2, GivenAt(call.answers, i));
        DoneIsRead(intake, request.inputs[i].1, TitleFor(request), GivenAt(call.answers, i));
      }
      DraftedAsksNothing(intake, request, call);
    }
  }

  lemma {:induction false} LittleWritten(
    intake: Intake, request: Request, was: seq<Write>, calls: seq<Call>, k: nat)
    requires IsConversation(intake, request, was, calls) && k < |calls|
    requires forall j | 0 <= j < k :: calls[j].reply.QuestionsRequired? || calls[j].reply.NamingRequired?
    ensures calls[k].written == was
              + if calls[k].reply.SourcesCreated? then [Write(calls[k].reply.drafts, calls[k].reply.titles)] else []
  {
    hide IsReply, GoesOn;
    assert IsCall(intake, request, WrittenBefore(was, calls, k), calls[k]);
    if k > 0 {
      LittleWritten(intake, request, was, calls, k - 1);
    }
  }

  // ── A client can always go on ───────────────────────────────────────

  lemma SomeReply(intake: Intake, request: Request, answers: seq<Answers>, naming: Option<Naming>)
    returns (reply: Reply)
    ensures IsReply(intake, request, answers, naming, reply)
  {
    ReadsAll(intake, request, answers, |request.inputs|);
    var all := ReadAll(intake, request, answers, |request.inputs|);
    if |answers| > |request.inputs| {
      reply := Failed(TooManyAnswers);
    } else if all.Err? {
      reply := Failed(all.error);
    } else {
      var pending := PendingOf(request, all.value, |all.value|);
      var drafts := DraftsOf(InOrder(request, all.value));
      if pending != [] {
        var questions := SomeShared(pending, |pending|);
        reply := QuestionsRequired(questions);
      } else if |drafts| == 1 {
        reply := SourcesCreated(drafts, None);
      } else if naming.None? {
        reply := NamingRequired(drafts);
      } else {
        reply := SourcesCreated(drafts, Some(TitlesOf(naming.value, drafts)));
      }
    }
  }

  lemma AskingAreQuestions(intake: Intake, input: Input, title: Option<string>, answers: Answers)
    requires AsksQuestions(intake)
    ensures var result := ReadInput(intake, input, title, answers);
            result.Ok? && result.value.Asking? ==>
              result.value.questions != []
              && forall k | 0 <= k < |result.value.questions| :: IsQuestion(result.value.questions[k])
  {
    hide FirstWrong, HasUnasked;
    if intake.check(input).Got? && intake.questions(intake.check(input).value).Got? {
      var checked := intake.check(input).value;
      var asked := intake.questions(checked).value;
      PartsAreQuestions(asked, answers);
      if intake.read(checked, answers).Got? {
        var titled := Titled(intake.read(checked, answers).value, title);
        PartsAreQuestions(asked + intake.kindQuestions(titled), answers);
      }
    }
  }

  lemma PartsAreQuestions(asked: seq<Question>, answers: Answers)
    requires forall k | 0 <= k < |asked| :: IsQuestion(asked[k])
    ensures forall k | 0 <= k < |Unanswered(asked, answers)| :: IsQuestion(Unanswered(asked, answers)[k])
  {
    var rest := Unanswered(asked, answers);
    UnansweredAre(asked, answers);
    forall k | 0 <= k < |rest|
      ensures IsQuestion(rest[k])
    {
      assert rest[k] in rest && rest[k] in asked;
    }
  }

  predicate AreQuestions(asked: seq<Question>) {
    forall k | 0 <= k < |asked| :: IsQuestion(asked[k])
  }

  lemma AnswerAll(pending: seq<Question>, answers: Answers) returns (next: Answers)
    requires AreQuestions(pending)
    ensures Adds(pending, answers, next)
  {
    var defaults := Defaults(pending, |pending|);
    DefaultsAnswer(pending, |pending|);
    next := defaults + answers;
    forall id | id in next && id !in answers
      ensures IsAnsweredIn(pending, id, next[id])
    {
      assert IsAnsweredIn(pending, id, defaults[id]);
    }
  }

  lemma AboutInputAreQuestions(intake: Intake, request: Request, call: Call, i: nat)
    requires AsksQuestions(intake) && i < |request.inputs|
    requires IsReply(intake, request, call.answers, call.naming, call.reply) && call.reply.QuestionsRequired?
    ensures AreQuestions(AboutInput(call.reply.questions, i))
  {
    hide IsReply, AsksQuestions, ReadInput;
    var about := AboutInput(call.reply.questions, i);
    AskingAreQuestions(intake, request.inputs[i].1, TitleFor(request), GivenAt(call.answers, i));
    forall k | 0 <= k < |about|
      ensures IsQuestion(about[k])
    {
      assert about[k] in about;
      ReplyAsksThePending(intake, request, call.answers, call.naming, call.reply, i, about[k]);
      var questions := ReadOne(intake, request, call.answers, i).value.questions;
      var l :| 0 <= l < |questions| && questions[l] == about[k];
    }
  }

  /** A client can answer whatever it is asked, with any answers it likes about one input. */
  lemma {:induction false} ClientCanAnswer(
    intake: Intake, request: Request, call: Call, at: nat, chosen: Answers, n: nat) returns (next: seq<Answers>)
    requires AsksQuestions(intake) && at < |request.inputs| && n <= |request.inputs|
    requires IsReply(intake, request, call.answers, call.naming, call.reply) && call.reply.QuestionsRequired?
    requires Adds(AboutInput(call.reply.questions, at), GivenAt(call.answers, at), chosen)
    ensures |next| == n && (at < n ==> next[at] == chosen)
    ensures forall i | 0 <= i < n :: Adds(AboutInput(call.reply.questions, i), GivenAt(call.answers, i), next[i])
  {
    hide IsReply, AsksQuestions, Adds;
    if n == 0 {
      next := [];
    } else {
      var before := ClientCanAnswer(intake, request, call, at, chosen, n - 1);
      AboutInputAreQuestions(intake, request, call, n - 1);
      var answers := AnswerAll(AboutInput(call.reply.questions, n - 1), GivenAt(call.answers, n - 1));
      next := before + [if n - 1 == at then chosen else answers];
    }
  }

  // ── When no client of an add is refused ─────────────────────────────

  ghost predicate NoClientIsRefused(intake: Intake, request: Request) {
    forall calls: seq<Call>, k | IsConversation(intake, request, [], calls) && 0 <= k < |calls| ::
      calls[k].reply.Failed? ==> !BlamesAnswers(calls[k].reply.error)
  }

  /** Every input can be read, whatever is answered. */
  ghost predicate AllReadable(intake: Intake, request: Request) {
    forall i | 0 <= i < |request.inputs| :: IsReadable(intake, request.inputs[i].1)
  }

  ghost predicate IsReadable(intake: Intake, input: Input) {
    && intake.check(input).Got?
    && var checked := intake.check(input).value;
    && intake.questions(checked).Got? && forall answers :: intake.read(checked, answers).Got?
  }

  /** Every input but one can be read, whatever is answered. */
  ghost predicate OthersReadable(intake: Intake, request: Request, i: nat) {
    forall j | 0 <= j < |request.inputs| && j != i :: IsReadable(intake, request.inputs[j].1)
  }

  lemma OthersFailByAnswers(intake: Intake, request: Request, call: Call, i: nat)
    requires OthersReadable(intake, request, i) && i < |request.inputs|
    requires IsReply(intake, request, call.answers, call.naming, call.reply)
    requires var result := ReadInput(intake, request.inputs[i].1, TitleFor(request), GivenAt(call.answers, i));
             result.Ok? || IsRefused(result)
    ensures call.reply.Failed? ==> BlamesAnswers(call.reply.error)
  {
    hide ReadInput, IsReadable;
    ReadsAll(intake, request, call.answers, |request.inputs|);
    if call.reply.Failed? && |call.answers| <= |request.inputs| {
      var j :| 0 <= j < |request.inputs| && ReadOne(intake, request, call.answers, j) == Err(call.reply.error);
      if j != i {
        assert IsReadable(intake, request.inputs[j].1);
        ReadableIsNotUnread(intake, request.inputs[j].1, TitleFor(request), GivenAt(call.answers, j));
      }
    }
  }

  lemma ReadableIsNotUnread(intake: Intake, input: Input, title: Option<string>, answers: Answers)
    requires IsReadable(intake, input)
    ensures var result := ReadInput(intake, input, title, answers);
            result.Err? ==> BlamesAnswers(result.error)
  {
  }

  /** Answers a client can give about one input, it can give in the calls of an add of several. */
  lemma {:induction false} CallsGive(
    intake: Intake, request: Request, i: nat, n: nat, answers: Answers) returns (calls: seq<Call>)
    requires AsksQuestions(intake) && OthersReadable(intake, request, i) && NoClientIsRefused(intake, request)
    requires i < |request.inputs| && CanGive(intake, request.inputs[i].1, TitleFor(request), n, answers)
    ensures IsConversation(intake, request, [], calls) && |calls| == n + 1
    ensures GivenAt(calls[n].answers, i) == answers && |calls[n].answers| <= |request.inputs|
  {
    hide AsksQuestions, OthersReadable, NoClientIsRefused, IsReply, ReadInput, Adds;
    if n == 0 {
      var reply := SomeReply(intake, request, [], None);
      calls := [Call([], None, reply, WrittenBy([], reply))];
    } else {
      var input, title := request.inputs[i].1, TitleFor(request);
      var before :| CanGive(intake, input, title, n - 1, before) && LeadsTo(intake, input, title, before, answers);
      var first := CallsGive(intake, request, i, n - 1, before);
      var last := first[n - 1];
      assert IsCall(intake, request, WrittenBefore([], first, n - 1), last);
      CallAsks(intake, request, first, i);
      PendingIsAbout(intake, request, last, i, before, answers);
      var next := ClientCanAnswer(intake, request, last, i, answers, |request.inputs|);
      var reply := SomeReply(intake, request, next, None);
      var call := Call(next, None, reply, WrittenBy(last.written, reply));
      calls := first + [call];
      assert GoesOn(request, last, call);
      ConversationGrows(intake, request, first, call);
    }
  }

  function WrittenBy(was: seq<Write>, reply: Reply): seq<Write> {
    was + if reply.SourcesCreated? then [Write(reply.drafts, reply.titles)] else []
  }

  lemma ConversationGrows(intake: Intake, request: Request, calls: seq<Call>, call: Call)
    requires IsConversation(intake, request, [], calls)
    requires IsCall(intake, request, calls[|calls| - 1].written, call) && GoesOn(request, calls[|calls| - 1], call)
    ensures IsConversation(intake, request, [], calls + [call])
  {
    hide IsReply, GoesOn, IsCall;
    var more := calls + [call];
    forall k | 0 <= k < |more|
      ensures IsCall(intake, request, WrittenBefore([], more, k), more[k])
    {
      if k < |calls| {
        assert IsCall(intake, request, WrittenBefore([], calls, k), calls[k]);
        assert WrittenBefore([], more, k) == WrittenBefore([], calls, k);
      }
    }
    forall k | 0 < k < |more|
      ensures GoesOn(request, more[k - 1], more[k])
    {
      if k < |calls| {
        assert GoesOn(request, calls[k - 1], calls[k]);
      }
    }
  }

  /** While an input asks, the last call of a conversation asks. */
  lemma CallAsks(intake: Intake, request: Request, calls: seq<Call>, i: nat)
    requires OthersReadable(intake, request, i) && NoClientIsRefused(intake, request) && AsksQuestions(intake)
    requires IsConversation(intake, request, [], calls) && i < |request.inputs|
    requires |calls[|calls| - 1].answers| <= |request.inputs|
    requires var result := ReadInput(
               intake, request.inputs[i].1, TitleFor(request), GivenAt(calls[|calls| - 1].answers, i));
             result.Ok? && result.value.Asking?
    ensures calls[|calls| - 1].reply.QuestionsRequired?
  {
    var k := |calls| - 1;
    var call := calls[k];
    assert IsCall(intake, request, WrittenBefore([], calls, k), call);
    assert !call.reply.Failed? by {
      OthersFailByAnswers(intake, request, call, i);
    }
    AskingAreQuestions(intake, request.inputs[i].1, TitleFor(request), GivenAt(call.answers, i));
    hide OthersReadable, NoClientIsRefused, AsksQuestions, ReadInput, IsConversation;
    var n := |request.inputs|;
    ReadsAll(intake, request, call.answers, n);
    var readings := ReadAll(intake, request, call.answers, n).value;
    assert ReadOne(intake, request, call.answers, i) == Ok(readings[i]);
    var question := readings[i].questions[0];
    PendingAsks(request, readings, n, question, i);
  }

  lemma PendingIsAbout(
    intake: Intake, request: Request, call: Call, i: nat, before: Answers, answers: Answers)
    requires IsReply(intake, request, call.answers, call.naming, call.reply) && call.reply.QuestionsRequired?
    requires i < |request.inputs| && GivenAt(call.answers, i) == before
    requires LeadsTo(intake, request.inputs[i].1, TitleFor(request), before, answers)
    ensures Adds(AboutInput(call.reply.questions, i), before, answers)
  {
    hide IsReply, ReadInput, Adds, AboutInput;
    var pending := ReadInput(intake, request.inputs[i].1, TitleFor(request), before).value.questions;
    forall question
      ensures question in AboutInput(call.reply.questions, i) <==> question in pending
    {
      ReplyAsksThePending(intake, request, call.answers, call.naming, call.reply, i, question);
    }
    SameQuestionsSameAnswers(pending, AboutInput(call.reply.questions, i), before, answers);
  }

  lemma InputIsNeverRefused(intake: Intake, request: Request, i: nat)
    requires AsksQuestions(intake) && OthersReadable(intake, request, i) && NoClientIsRefused(intake, request)
    requires i < |request.inputs|
    ensures NeverRefused(intake, request.inputs[i].1, TitleFor(request))
  {
    hide AsksQuestions, CanGive, ReadInput, OthersReadable;
    forall n: nat, answers | CanGive(intake, request.inputs[i].1, TitleFor(request), n, answers)
      ensures !IsRefused(ReadInput(intake, request.inputs[i].1, TitleFor(request), answers))
    {
      var calls := CallsGive(intake, request, i, n, answers);
      assert IsCall(intake, request, WrittenBefore([], calls, n), calls[n]);
      if IsRefused(ReadInput(intake, request.inputs[i].1, TitleFor(request), answers)) {
        OthersFailByAnswers(intake, request, calls[n], i);
        RefusedFails(intake, request, calls[n], i);
        assert false;
      }
    }
  }

  lemma RefusedFails(intake: Intake, request: Request, call: Call, i: nat)
    requires IsReply(intake, request, call.answers, call.naming, call.reply)
    requires i < |request.inputs|
    requires ReadInput(intake, request.inputs[i].1, TitleFor(request), GivenAt(call.answers, i)).Err?
    ensures call.reply.Failed?
  {
    hide ReadInput;
    ReadsAll(intake, request, call.answers, |request.inputs|);
    assert ReadOne(intake, request, call.answers, i).Err?;
  }

  /** No client of an add is ever refused, if and only if every input accepts all answers: for
      an add of one input, and for one of several that can all be read. Where one of several
      cannot, it holds one way, since that input may end the calls before another is refused. */
  lemma NoClientIsRefusedIff(intake: Intake, request: Request)
    requires ReadsByOwnAnswers(intake) && AsksQuestions(intake)
    ensures AllAccept(intake, request) ==> NoClientIsRefused(intake, request)
    ensures |request.inputs| == 1 || AllReadable(intake, request) ==>
              (NoClientIsRefused(intake, request) <==> AllAccept(intake, request))
  {
    hide ReadsByOwnAnswers, AsksQuestions, IsConversation, AcceptsAllAnswers, IsReadable, NeverRefused;
    if AllAccept(intake, request) {
      forall calls: seq<Call>, k | IsConversation(intake, request, [], calls) && 0 <= k < |calls|
        ensures calls[k].reply.Failed? ==> !BlamesAnswers(calls[k].reply.error)
      {
        CallOfConversation(intake, request, [], calls, k);
      }
    }
    if (|request.inputs| == 1 || AllReadable(intake, request)) && NoClientIsRefused(intake, request) {
      forall i | 0 <= i < |request.inputs|
        ensures AcceptsAllAnswers(intake, request.inputs[i].1, TitleFor(request))
      {
        InputIsNeverRefused(intake, request, i);
        NeverRefusedIff(intake, request.inputs[i].1, TitleFor(request));
      }
    }
  }
}
