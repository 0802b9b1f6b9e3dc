/** One input of an add: which answers it refuses, and when it refuses none a client can give. */
module AddSourceAnswers {
  import opened Schema
  import opened SharedQuestions
  import opened AddSource

  // ── What is asked about an input ────────────────────────────────────

  predicate AllAnswered(asked: seq<Question>, answers: Answers) {
    forall k | 0 <= k < |asked| :: asked[k].id in answers
  }

  /** The questions of an input's reader; none if there is no telling. */
  function ReaderAsks(intake: Intake, input: Input): seq<Question> {
    match intake.check(input)
    case Unreadable(_) => []
    case Got(checked) =>
      match intake.questions(checked)
      case Unreadable(_) => []
      case Got(asked) => asked
  }

  /** The questions asked about an input under the answers given: its reader's, and once these
      are answered and the input is read, its kind's too. */
  function AskedOf(intake: Intake, input: Input, title: Option<string>, answers: Answers): seq<Question> {
    match intake.check(input)
    case Unreadable(_) => []
    case Got(checked) =>
      match intake.questions(checked)
      case Unreadable(_) => []
      case Got(asked) =>
        if !AllAnswered(asked, answers) || intake.read(checked, answers).Unreadable? then asked
        else asked + intake.kindQuestions(Titled(intake.read(checked, answers).value, title))
  }

  predicate IsAnsweredIn(asked: seq<Question>, id: string, answer: string) {
    exists k :: 0 <= k < |asked| && asked[k].id == id && HasOption(asked[k], answer)
  }

  /** Every answer is to a question asked, and an option of it. */
  predicate AreAnswersTo(asked: seq<Question>, answers: Answers) {
    forall id | id in answers :: IsAnsweredIn(asked, id, answers[id])
  }

  /** Questions of one id offer the same options. */
  ghost predicate OptionsAgree(asked: seq<Question>) {
    forall j, k, answer: string | 0 <= j < |asked| && 0 <= k < |asked| ::
      asked[j].id == asked[k].id && HasOption(asked[j], answer) ==> HasOption(asked[k], answer)
  }

  // ── Answers accepted and refused ────────────────────────────────────

  lemma {:induction false} FirstWrongIs(asked: seq<Question>, answers: Answers)
    ensures FirstWrong(asked, answers).Some? <==>
              exists k :: 0 <= k < |asked| && asked[k].id in answers
                          && !HasOption(asked[k], answers[asked[k].id])
  {
    if asked != [] {
      FirstWrongIs(asked[1..], answers);
      if k :| 0 <= k < |asked[1..]| && asked[1..][k].id in answers
              && !HasOption(asked[1..][k], answers[asked[1..][k].id]) {
        assert asked[k + 1] == asked[1..][k];
      }
      if k :| 0 <= k < |asked| && asked[k].id in answers && !HasOption(asked[k], answers[asked[k].id]) {
        assert k > 0 ==> asked[1..][k - 1] == asked[k];
      }
    }
  }

  lemma {:induction false} UnansweredAre(asked: seq<Question>, answers: Answers)
    ensures forall question :: question in Unanswered(asked, answers) <==>
              question in asked && question.id !in answers
    ensures Unanswered(asked, answers) == [] <==> AllAnswered(asked, answers)
  {
    if asked != [] {
      UnansweredAre(asked[1..], answers);
      assert asked == [asked[0]] + asked[1..];
      if AllAnswered(asked[1..], answers) && asked[0].id in answers {
        forall k | 0 <= k < |asked|
          ensures asked[k].id in answers
        {
          assert k > 0 ==> asked[k] == asked[1..][k - 1];
        }
      }
      if AllAnswered(asked, answers) {
        assert asked[0].id in answers;
        forall k | 0 <= k < |asked[1..]|
          ensures asked[1..][k].id in answers
        {
          assert asked[1..][k] == asked[k + 1];
        }
      }
    }
  }

  predicate IsRefused(result: Result<Read>) {
    result.Err? && BlamesAnswers(result.error)
  }

  /** What an input that may be read comes to, if its answers are accepted. */
  ghost predicate IsReadAs(asked: seq<Question>, answers: Answers, result: Result<Read>) {
    match result
    case Err(e) => e.CannotRead?
    case Ok(Asking(questions)) =>
      !AllAnswered(asked, answers) && questions == Unanswered(asked, answers)
    case Ok(Drafted(_)) => AllAnswered(asked, answers)
  }

  lemma AcceptedDrafts(intake: Intake, content: Content, asked: seq<Question>, answers: Answers)
    requires FirstWrong(asked, answers).None? && !HasUnasked(asked, answers)
    ensures ReadDrafts(intake, content, asked, answers).Ok?
    ensures IsReadAs(asked, answers, ReadDrafts(intake, content, asked, answers))
  {
    UnansweredAre(asked, answers);
  }

  lemma AcceptedIsRead(
    intake: Intake, input: Input, title: Option<string>, asked: seq<Question>, answers: Answers)
    requires FirstWrong(asked, answers).None?
    requires !AllAnswered(asked, answers) || intake.read(input, answers).Unreadable?
    ensures IsReadAs(asked, answers, ReadChecked(intake, input, title, asked, answers))
  {
    UnansweredAre(asked, answers);
  }

  lemma AreAskedFor(asked: seq<Question>, answers: Answers)
    requires AreAnswersTo(asked, answers)
    ensures !HasUnasked(asked, answers)
  {
    forall id | id in answers
      ensures exists k :: 0 <= k < |asked| && asked[k].id == id
    {
      assert IsAnsweredIn(asked, id, answers[id]);
    }
  }

  /** Answers that are options of what is asked are never refused: the input is read, unless it
      cannot be, and asks what is still unanswered. */
  lemma AcceptedInputIsRead(intake: Intake, input: Input, title: Option<string>, answers: Answers)
    requires AreAnswersTo(AskedOf(intake, input, title, answers), answers)
    requires FirstWrong(AskedOf(intake, input, title, answers), answers).None?
    ensures IsReadAs(AskedOf(intake, input, title, answers), answers, ReadInput(intake, input, title, answers))
  {
    var all := AskedOf(intake, input, title, answers);
    AreAskedFor(all, answers);
    hide FirstWrong, Unanswered, AllAnswered, HasUnasked, ReadDrafts, Titled, AreAnswersTo;
    if intake.check(input).Got? && intake.questions(intake.check(input).value).Got? {
      var checked := intake.check(input).value;
      var asked := intake.questions(checked).value;
      if !AllAnswered(asked, answers) || intake.read(checked, answers).Unreadable? {
        AcceptedIsRead(intake, checked, title, asked, answers);
      } else {
        var content := Titled(intake.read(checked, answers).value, title);
        ReaderAccepts(asked, intake.kindQuestions(content), answers);
        UnansweredAre(asked, answers);
        AcceptedDrafts(intake, content, all, answers);
      }
    }
  }

  /** An answer that is no option of a question asked of its id is refused. */
  lemma WrongIsRefused(intake: Intake, input: Input, title: Option<string>, answers: Answers)
    requires FirstWrong(AskedOf(intake, input, title, answers), answers).Some?
    ensures IsRefused(ReadInput(intake, input, title, answers))
  {
    hide Titled;
    if intake.check(input).Got? && intake.questions(intake.check(input).value).Got? {
      UnansweredAre(intake.questions(intake.check(input).value).value, answers);
      hide FirstWrong, Unanswered, AllAnswered;
    }
  }

  /** An input is read to its drafts only if everything asked is answered with an option, and
      nothing else is answered; while it asks, no answer is wrong. */
  lemma ReadIsAnswered(intake: Intake, input: Input, title: Option<string>, answers: Answers)
    requires ReadInput(intake, input, title, answers).Ok?
    ensures var asked := AskedOf(intake, input, title, answers);
            && (forall k | 0 <= k < |asked| && asked[k].id in answers :: HasOption(asked[k], answers[asked[k].id]))
            && (ReadInput(intake, input, title, answers).value.Drafted? ==>
                  AllAnswered(asked, answers) && AreAnswersTo(asked, answers))
  {
    var asked := AskedOf(intake, input, title, answers);
    if FirstWrong(asked, answers).Some? {
      WrongIsRefused(intake, input, title, answers);
    }
    FirstWrongIs(asked, answers);
    if ReadInput(intake, input, title, answers).value.Drafted? {
      var reader := intake.questions(intake.check(input).value).value;
      UnansweredAre(reader, answers);
      UnansweredAre(asked, answers);
      NothingUnasked(asked, answers);
    }
  }

  lemma NothingUnasked(asked: seq<Question>, answers: Answers)
    requires !HasUnasked(asked, answers)
    requires forall k | 0 <= k < |asked| && asked[k].id in answers :: HasOption(asked[k], answers[asked[k].id])
    ensures AreAnswersTo(asked, answers)
  {
    forall id | id in answers
      ensures IsAnsweredIn(asked, id, answers[id])
    {
      var k :| 0 <= k < |asked| && asked[k].id == id;
      assert HasOption(asked[k], answers[asked[k].id]);
    }
  }

  lemma {:induction false} FirstWrongIsOne(asked: seq<Question>, answers: Answers)
    ensures FirstWrong(asked, answers).Some? ==>
              exists k :: 0 <= k < |asked| && asked[k].id == FirstWrong(asked, answers).value
                          && asked[k].id in answers && !HasOption(asked[k], answers[asked[k].id])
  {
    if asked != [] && FirstWrong(asked, answers).Some? {
      if asked[0].id in answers && !HasOption(asked[0], answers[asked[0].id]) {
        assert asked[0].id == FirstWrong(asked, answers).value;
      } else {
        var rest := asked[1..];
        FirstWrongIsOne(rest, answers);
        var k :| 0 <= k < |rest| && rest[k].id == FirstWrong(rest, answers).value
                 && rest[k].id in answers && !HasOption(rest[k], answers[rest[k].id]);
        assert asked[k + 1] == rest[k];
      }
    }
  }

  /** Answers are refused for a reason: one is no option of a question asked of its id, or
      everything asked is answered, and there is an answer to something else. */
  lemma RefusedForAReason(intake: Intake, input: Input, title: Option<string>, answers: Answers)
    requires IsRefused(ReadInput(intake, input, title, answers))
    ensures var asked := AskedOf(intake, input, title, answers);
            match ReadInput(intake, input, title, answers).error
            case InvalidAnswer(id) =>
              exists k :: 0 <= k < |asked| && asked[k].id == id && id in answers && !HasOption(asked[k], answers[id])
            case UnaskedAnswer =>
              && AllAnswered(asked, answers)
              && exists id :: id in answers && forall k | 0 <= k < |asked| :: asked[k].id != id
            case _ => false
  {
    var reader := intake.questions(intake.check(input).value).value;
    var asked := AskedOf(intake, input, title, answers);
    FirstWrongIsOne(reader, answers);
    FirstWrongIsOne(asked, answers);
    UnansweredAre(reader, answers);
    UnansweredAre(asked, answers);
    if FirstWrong(reader, answers).Some? {
      var k :| 0 <= k < |reader| && reader[k].id == FirstWrong(reader, answers).value && reader[k].id in answers
               && !HasOption(reader[k], answers[reader[k].id]);
      assert asked[k] == reader[k];
    }
  }

  lemma ReaderAccepts(asked: seq<Question>, more: seq<Question>, answers: Answers)
    requires FirstWrong(asked + more, answers).None?
    ensures FirstWrong(asked, answers).None?
  {
    var all := asked + more;
    FirstWrongIs(asked, answers);
    FirstWrongIs(all, answers);
    forall k | 0 <= k < |asked| && asked[k].id in answers
      ensures HasOption(asked[k], answers[asked[k].id])
    {
      assert all[k] == asked[k];
    }
  }

  /** What a client adds to its answers about one input: an option for every question pending,
      and nothing else. */
  ghost predicate Adds(pending: seq<Question>, answers: Answers, more: Answers) {
    && (forall id | id in answers :: id in more && more[id] == answers[id])
    && (forall id | id in more && id !in answers :: IsAnsweredIn(pending, id, more[id]))
    && AllAnswered(pending, more)
  }

  lemma MoreAnswersFit(asked: seq<Question>, answers: Answers, more: Answers)
    requires AreAnswersTo(asked, answers) && Adds(Unanswered(asked, answers), answers, more)
    ensures AreAnswersTo(asked, more) && AllAnswered(asked, more)
  {
    var pending := Unanswered(asked, answers);
    UnansweredAre(asked, answers);
    forall k | 0 <= k < |asked|
      ensures asked[k].id in more
    {
      if asked[k].id !in answers {
        assert asked[k] in asked && asked[k] in pending;
        var j :| 0 <= j < |pending| && pending[j] == asked[k];
        assert pending[j].id in more;
      }
    }
    forall id | id in more
      ensures IsAnsweredIn(asked, id, more[id])
    {
      if id in answers {
        assert IsAnsweredIn(asked, id, answers[id]);
      } else {
        assert IsAnsweredIn(pending, id, more[id]);
        var k :| 0 <= k < |pending| && pending[k].id == id && HasOption(pending[k], more[id]);
        assert pending[k] in pending && pending[k] in asked;
      }
    }
  }

  lemma MoreQuestionsFit(asked: seq<Question>, more: seq<Question>, answers: Answers)
    requires AreAnswersTo(asked, answers)
    ensures AreAnswersTo(asked + more, answers)
  {
    forall id | id in answers
      ensures IsAnsweredIn(asked + more, id, answers[id])
    {
      assert IsAnsweredIn(asked, id, answers[id]);
      var k :| 0 <= k < |asked| && asked[k].id == id && HasOption(asked[k], answers[id]);
      assert (asked + more)[k] == asked[k];
    }
  }

  // ── What a client can be asked and can answer ───────────────────────

  /** Every question can be answered, as its constructor checks. */
  ghost predicate AsksQuestions(intake: Intake) {
    && (forall checked, k | intake.questions(checked).Got? && 0 <= k < |intake.questions(checked).value| ::
          IsQuestion(intake.questions(checked).value[k]))
    && (forall content, k | 0 <= k < |intake.kindQuestions(content)| ::
          IsQuestion(intake.kindQuestions(content)[k]))
  }

  predicate AgreeOn(asked: seq<Question>, a: Answers, b: Answers) {
    forall k | 0 <= k < |asked| ::
      asked[k].id in a && asked[k].id in b && a[asked[k].id] == b[asked[k].id]
  }

  /** A reader reads by the answers to its own questions only. */
  ghost predicate ReadsByOwnAnswers(intake: Intake) {
    forall checked, a, b ::
      intake.questions(checked).Got? && AgreeOn(intake.questions(checked).value, a, b) ==>
        intake.read(checked, a) == intake.read(checked, b)
  }

  /** The answers of one call lead to those of the next: what is asked is answered. */
  ghost predicate LeadsTo(
    intake: Intake, input: Input, title: Option<string>, answers: Answers, next: Answers)
  {
    var result := ReadInput(intake, input, title, answers);
    result.Ok? && result.value.Asking? && Adds(result.value.questions, answers, next)
  }

  /** The answers some client can have given after a number of calls. */
  ghost predicate CanGive(intake: Intake, input: Input, title: Option<string>, n: nat, answers: Answers) {
    if n == 0 then answers == map[]
    else
      exists before ::
        CanGive(intake, input, title, n - 1, before) && LeadsTo(intake, input, title, before, answers)
  }

  ghost predicate NeverRefused(intake: Intake, input: Input, title: Option<string>) {
    forall n, answers | CanGive(intake, input, title, n, answers) ::
      !IsRefused(ReadInput(intake, input, title, answers))
  }

  /** Full answers to the reader's questions: an option for each, and nothing else. */
  ghost predicate IsFull(intake: Intake, input: Input, answers: Answers) {
    var asked := ReaderAsks(intake, input);
    AreAnswersTo(asked, answers) && AllAnswered(asked, answers)
  }

  /** Whatever options are picked of the reader's questions, every question of the reader and of
      the kind accepts them, and the questions then left agree on the options of an id. */
  ghost predicate AcceptsAllAnswers(intake: Intake, input: Input, title: Option<string>) {
    forall answers | IsFull(intake, input, answers) ::
      var asked := AskedOf(intake, input, title, answers);
      FirstWrong(asked, answers).None? && OptionsAgree(Unanswered(asked, answers))
  }

  // ── The stages of a client's answers ────────────────────────────────

  /** Answers to everything: full ones, and an option for each question then left. */
  ghost predicate IsDone(intake: Intake, input: Input, title: Option<string>, answers: Answers) {
    exists first ::
      && IsFull(intake, input, first)
      && Adds(Unanswered(AskedOf(intake, input, title, first), first), first, answers)
  }

  lemma ReadOfNothing(intake: Intake, input: Input, title: Option<string>)
    ensures ReaderAsks(intake, input) == [] ==> IsFull(intake, input, map[])
    ensures ReaderAsks(intake, input) != [] ==>
              ReadInput(intake, input, title, map[]) == Ok(Asking(ReaderAsks(intake, input)))
  {
    var asked := ReaderAsks(intake, input);
    FirstWrongIs(asked, map[]);
    NothingAnswered(asked);
  }

  lemma {:induction false} NothingAnswered(asked: seq<Question>)
    ensures Unanswered(asked, map[]) == asked
  {
    if asked != [] {
      NothingAnswered(asked[1..]);
      assert asked == [asked[0]] + asked[1..];
    }
  }

  lemma FullIsAskedFor(intake: Intake, input: Input, title: Option<string>, answers: Answers)
    requires IsFull(intake, input, answers)
    ensures AreAnswersTo(AskedOf(intake, input, title, answers), answers)
  {
    var asked := ReaderAsks(intake, input);
    var all := AskedOf(intake, input, title, answers);
    assert |asked| <= |all| && all == asked + all[|asked|..];
    MoreQuestionsFit(asked, all[|asked|..], answers);
  }

  /** Full answers are read as accepted, or refused, by what is asked under them. */
  lemma FullIsRead(intake: Intake, input: Input, title: Option<string>, answers: Answers)
    requires AcceptsAllAnswers(intake, input, title) && IsFull(intake, input, answers)
    ensures IsReadAs(AskedOf(intake, input, title, answers), answers, ReadInput(intake, input, title, answers))
  {
    FullIsAskedFor(intake, input, title, answers);
    AcceptedInputIsRead(intake, input, title, answers);
  }

  lemma AnswersKept(asked: seq<Question>, answers: Answers, more: Answers)
    requires AllAnswered(asked, answers) && forall id | id in answers :: id in more && more[id] == answers[id]
    ensures AgreeOn(asked, answers, more)
  {
  }

  /** More answers do not change what is asked. */
  lemma SameAsked(intake: Intake, input: Input, title: Option<string>, first: Answers, more: Answers)
    requires ReadsByOwnAnswers(intake) && IsFull(intake, input, first)
    requires forall id | id in first :: id in more && more[id] == first[id]
    ensures AskedOf(intake, input, title, more) == AskedOf(intake, input, title, first)
  {
    AnswersKept(ReaderAsks(intake, input), first, more);
    if intake.check(input).Got? && intake.questions(intake.check(input).value).Got? {
      var checked := intake.check(input).value;
      assert intake.read(checked, first) == intake.read(checked, more);
    }
  }

  lemma AnswersToTheRest(asked: seq<Question>, first: Answers, more: Answers)
    requires FirstWrong(asked, first).None? && OptionsAgree(Unanswered(asked, first))
    requires Adds(Unanswered(asked, first), first, more)
    ensures FirstWrong(asked, more).None?
  {
    var rest := Unanswered(asked, first);
    UnansweredAre(asked, first);
    FirstWrongIs(asked, first);
    FirstWrongIs(asked, more);
    forall k | 0 <= k < |asked| && asked[k].id in more
      ensures HasOption(asked[k], more[asked[k].id])
    {
      if asked[k].id !in first {
        assert asked[k] in rest;
        var i :| 0 <= i < |rest| && rest[i] == asked[k];
        assert IsAnsweredIn(rest, asked[k].id, more[asked[k].id]);
        var j :| 0 <= j < |rest| && rest[j].id == asked[k].id && HasOption(rest[j], more[asked[k].id]);
        assert HasOption(rest[i], more[asked[k].id]);
      }
    }
  }

  /** Answers to everything leave nothing to ask. */
  lemma DoneIsRead(intake: Intake, input: Input, title: Option<string>, answers: Answers)
    requires ReadsByOwnAnswers(intake) && AcceptsAllAnswers(intake, input, title)
    requires IsDone(intake, input, title, answers)
    ensures var result := ReadInput(intake, input, title, answers);
            if result.Err? then result.error.CannotRead? else result.value.Drafted?
  {
    var first :|
      && IsFull(intake, input, first)
      && Adds(Unanswered(AskedOf(intake, input, title, first), first), first, answers);
    var asked := AskedOf(intake, input, title, first);
    FullIsAskedFor(intake, input, title, first);
    SameAsked(intake, input, title, first, answers);
    MoreAnswersFit(asked, first, answers);
    AnswersToTheRest(asked, first, answers);
    AcceptedInputIsRead(intake, input, title, answers);
  }

  /** Where answers stand after a number of rounds of questions. */
  ghost predicate IsAtStage(intake: Intake, input: Input, title: Option<string>, n: nat, answers: Answers) {
    if n == 0 then answers == map[]
    else (n == 1 && IsFull(intake, input, answers)) || IsDone(intake, input, title, answers)
  }

  /** Answering what is asked gets one stage on; at the last, nothing is asked. */
  lemma NextStage(
    intake: Intake, input: Input, title: Option<string>, n: nat, answers: Answers, next: Answers)
    requires ReadsByOwnAnswers(intake) && AcceptsAllAnswers(intake, input, title)
    requires IsAtStage(intake, input, title, n, answers) && ReadInput(intake, input, title, answers).Ok?
    requires var read := ReadInput(intake, input, title, answers).value;
             Adds(if read.Asking? then read.questions else [], answers, next)
    ensures IsAtStage(intake, input, title, n + 1, next)
    ensures n >= 2 ==> ReadInput(intake, input, title, answers).value.Drafted?
  {
    hide ReadInput, AskedOf, Adds, AcceptsAllAnswers, ReadsByOwnAnswers;
    if IsDone(intake, input, title, answers) {
      DoneIsRead(intake, input, title, answers);
      DoneStaysDone(intake, input, title, answers, next);
    } else if n == 1 || ReaderAsks(intake, input) == [] {
      ReadOfNothing(intake, input, title);
      FullIsRead(intake, input, title, answers);
      UnansweredAre(AskedOf(intake, input, title, answers), answers);
      assert IsDone(intake, input, title, next);
    } else {
      ReadOfNothing(intake, input, title);
      FirstAnswersAreFull(intake, input, next);
    }
  }

  lemma FirstAnswersAreFull(intake: Intake, input: Input, next: Answers)
    requires Adds(ReaderAsks(intake, input), map[], next)
    ensures IsFull(intake, input, next)
  {
  }

  lemma DoneStaysDone(intake: Intake, input: Input, title: Option<string>, answers: Answers, next: Answers)
    requires IsDone(intake, input, title, answers) && Adds([], answers, next)
    ensures IsDone(intake, input, title, next)
  {
    hide AskedOf, IsFull;
    var first :|
      && IsFull(intake, input, first)
      && Adds(Unanswered(AskedOf(intake, input, title, first), first), first, answers);
    var rest := Unanswered(AskedOf(intake, input, title, first), first);
    assert forall id | id in next :: id in answers;
    assert Adds(rest, first, next);
  }

  lemma NoStageIsRefused(intake: Intake, input: Input, title: Option<string>, n: nat, answers: Answers)
    requires ReadsByOwnAnswers(intake) && AcceptsAllAnswers(intake, input, title)
    requires IsAtStage(intake, input, title, n, answers)
    ensures !IsRefused(ReadInput(intake, input, title, answers))
  {
    hide ReadInput, AskedOf, AcceptsAllAnswers, ReadsByOwnAnswers;
    if IsDone(intake, input, title, answers) {
      DoneIsRead(intake, input, title, answers);
    } else {
      ReadOfNothing(intake, input, title);
      if ReaderAsks(intake, input) == [] || n == 1 {
        FullIsRead(intake, input, title, answers);
      }
    }
  }

  // ── When no client is refused ───────────────────────────────────────

  lemma {:induction false} GivenIsAtStage(intake: Intake, input: Input, title: Option<string>, n: nat, answers: Answers)
    requires ReadsByOwnAnswers(intake) && AcceptsAllAnswers(intake, input, title)
    requires CanGive(intake, input, title, n, answers)
    ensures IsAtStage(intake, input, title, n, answers)
  {
    hide ReadsByOwnAnswers, AcceptsAllAnswers;
    if n > 0 {
      var before :| CanGive(intake, input, title, n - 1, before) && LeadsTo(intake, input, title, before, answers);
      GivenIsAtStage(intake, input, title, n - 1, before);
      NextStage(intake, input, title, n - 1, before, answers);
    }
  }

  function Defaults(asked: seq<Question>, n: nat): Answers
    requires n <= |asked|
  {
    if n == 0 then map[] else Defaults(asked, n - 1)[asked[n - 1].id := asked[n - 1].default]
  }

  lemma {:induction false} DefaultsAnswer(asked: seq<Question>, n: nat)
    requires n <= |asked| && forall k | 0 <= k < |asked| :: IsQuestion(asked[k])
    ensures AreAnswersTo(asked, Defaults(asked, n))
    ensures forall k | 0 <= k < n :: asked[k].id in Defaults(asked, n)
  {
    if n > 0 {
      DefaultsAnswer(asked, n - 1);
      var answers := Defaults(asked, n);
      forall id | id in answers
        ensures IsAnsweredIn(asked, id, answers[id])
      {
        if id == asked[n - 1].id {
          assert HasOption(asked[n - 1], answers[id]);
        } else {
          assert IsAnsweredIn(asked, id, Defaults(asked, n - 1)[id]);
        }
      }
    }
  }

  /** A client can answer every question pending, and pick any option of one of them. */
  lemma AnswersWith(pending: seq<Question>, answers: Answers, j: nat, answer: string) returns (next: Answers)
    requires forall k | 0 <= k < |pending| :: IsQuestion(pending[k]) && pending[k].id !in answers
    requires j < |pending| ==> HasOption(pending[j], answer)
    ensures Adds(pending, answers, next)
    ensures j < |pending| ==> next[pending[j].id] == answer
  {
    var defaults := Defaults(pending, |pending|);
    DefaultsAnswer(pending, |pending|);
    next := defaults + answers;
    if j < |pending| {
      next := next[pending[j].id := answer];
      assert IsAnsweredIn(pending, pending[j].id, answer);
    }
    forall id | id in next && id !in answers
      ensures IsAnsweredIn(pending, id, next[id])
    {
      if j >= |pending| || id != pending[j].id {
        assert IsAnsweredIn(pending, id, defaults[id]);
      }
    }
  }

  lemma AskedAreQuestions(intake: Intake, input: Input, title: Option<string>, answers: Answers)
    requires AsksQuestions(intake)
    ensures forall k | 0 <= k < |AskedOf(intake, input, title, answers)| ::
              IsQuestion(AskedOf(intake, input, title, answers)[k])
  {
  }

  lemma RestAreQuestions(intake: Intake, input: Input, title: Option<string>, answers: Answers)
    requires AsksQuestions(intake)
    ensures var rest := Unanswered(AskedOf(intake, input, title, answers), answers);
            forall k | 0 <= k < |rest| :: IsQuestion(rest[k]) && rest[k].id !in answers
  {
    var asked := AskedOf(intake, input, title, answers);
    var rest := Unanswered(asked, answers);
    AskedAreQuestions(intake, input, title, answers);
    UnansweredAre(asked, answers);
    forall k | 0 <= k < |rest|
      ensures IsQuestion(rest[k]) && rest[k].id !in answers
    {
      assert rest[k] in rest && rest[k] in asked;
    }
  }

  /** Full answers are given by some client, by its first call or its second. */
  lemma FullCanBeGiven(intake: Intake, input: Input, title: Option<string>, answers: Answers)
    requires IsFull(intake, input, answers)
    ensures exists n :: CanGive(intake, input, title, n, answers)
  {
    ReadOfNothing(intake, input, title);
    assert CanGive(intake, input, title, 0, map[]);
    if ReaderAsks(intake, input) == [] {
      assert forall id | id in answers :: IsAnsweredIn([], id, answers[id]);
      assert forall id :: id !in answers;
      assert answers == map[];
    } else {
      assert LeadsTo(intake, input, title, map[], answers);
      assert CanGive(intake, input, title, 1, answers);
    }
  }

  lemma FullIsNotWrong(intake: Intake, input: Input, title: Option<string>, n: nat, answers: Answers)
    requires NeverRefused(intake, input, title)
    requires CanGive(intake, input, title, n, answers) && IsFull(intake, input, answers)
    ensures var asked := AskedOf(intake, input, title, answers);
            && FirstWrong(asked, answers).None?
            && IsReadAs(asked, answers, ReadInput(intake, input, title, answers))
  {
    if FirstWrong(AskedOf(intake, input, title, answers), answers).Some? {
      WrongIsRefused(intake, input, title, answers);
    }
    FullIsAskedFor(intake, input, title, answers);
    AcceptedInputIsRead(intake, input, title, answers);
  }

  /** No client is refused its full answers, nor any pick of the questions then left. */
  lemma NeverRefusedAccepts(intake: Intake, input: Input, title: Option<string>, answers: Answers)
    requires ReadsByOwnAnswers(intake) && AsksQuestions(intake) && NeverRefused(intake, input, title)
    requires IsFull(intake, input, answers)
    ensures var asked := AskedOf(intake, input, title, answers);
            FirstWrong(asked, answers).None? && OptionsAgree(Unanswered(asked, answers))
  {
    var asked := AskedOf(intake, input, title, answers);
    var rest := Unanswered(asked, answers);
    UnansweredAre(asked, answers);
    FullIsRefusedOrRead(intake, input, title, answers);
    hide AskedOf, ReadInput, FirstWrong, Unanswered, ReadsByOwnAnswers, AsksQuestions, NeverRefused, CanGive, IsFull;
    FullCanBeGiven(intake, input, title, answers);
    var n :| CanGive(intake, input, title, n, answers);
    FullIsNotWrong(intake, input, title, n, answers);
    forall i, j, answer: string | 0 <= i < |rest| && 0 <= j < |rest| && rest[j].id == rest[i].id
                                  && HasOption(rest[j], answer)
      ensures HasOption(rest[i], answer)
    {
      PickIsAccepted(intake, input, title, n, answers, i, j, answer);
    }
  }

  /** Under full answers, an input that cannot be read has nothing left to ask. */
  lemma FullIsRefusedOrRead(intake: Intake, input: Input, title: Option<string>, answers: Answers)
    requires IsFull(intake, input, answers)
    ensures var result := ReadInput(intake, input, title, answers);
            result.Err? && result.error.CannotRead? ==>
              Unanswered(AskedOf(intake, input, title, answers), answers) == []
  {
    UnansweredAre(AskedOf(intake, input, title, answers), answers);
    hide FirstWrong, Unanswered;
  }

  /** What a client adds to full answers is accepted by everything asked. */
  lemma RestIsAccepted(
    intake: Intake, input: Input, title: Option<string>, n: nat, answers: Answers, next: Answers)
    requires ReadsByOwnAnswers(intake) && NeverRefused(intake, input, title)
    requires CanGive(intake, input, title, n, answers) && IsFull(intake, input, answers)
    requires LeadsTo(intake, input, title, answers, next)
    ensures FirstWrong(AskedOf(intake, input, title, answers), next).None?
  {
    assert forall id | id in answers :: id in next && next[id] == answers[id];
    SameAsked(intake, input, title, answers, next);
    hide AskedOf, ReadInput, ReadsByOwnAnswers, LeadsTo, IsFull;
    assert CanGive(intake, input, title, n + 1, next);
    if FirstWrong(AskedOf(intake, input, title, next), next).Some? {
      WrongIsRefused(intake, input, title, next);
    }
  }

  lemma PickIsAccepted(
    intake: Intake, input: Input, title: Option<string>, n: nat, answers: Answers, i: nat, j: nat, answer: string)
    requires ReadsByOwnAnswers(intake) && AsksQuestions(intake) && NeverRefused(intake, input, title)
    requires CanGive(intake, input, title, n, answers) && IsFull(intake, input, answers)
    requires var rest := Unanswered(AskedOf(intake, input, title, answers), answers);
             && ReadInput(intake, input, title, answers) == Ok(Asking(rest))
             && i < |rest| && j < |rest| && rest[j].id == rest[i].id && HasOption(rest[j], answer)
    ensures HasOption(Unanswered(AskedOf(intake, input, title, answers), answers)[i], answer)
  {
    hide AskedOf, ReadInput, ReadsByOwnAnswers, AsksQuestions, IsFull, CanGive, NeverRefused;
    var asked := AskedOf(intake, input, title, answers);
    var rest := Unanswered(asked, answers);
    RestAreQuestions(intake, input, title, answers);
    var next := AnswersWith(rest, answers, j, answer);
    RestIsAccepted(intake, input, title, n, answers, next);
    UnansweredAre(asked, answers);
    FirstWrongIs(asked, next);
    hide Unanswered, FirstWrong, Adds;
    assert rest[i] in rest && rest[i] in asked;
    var k :| 0 <= k < |asked| && asked[k] == rest[i];
    assert next[asked[k].id] == answer && asked[k].id in next;
  }

  /** No client is ever refused over an input, whatever options it picks, if and only if the
      input accepts all answers. */
  lemma NeverRefusedIff(intake: Intake, input: Input, title: Option<string>)
    requires ReadsByOwnAnswers(intake) && AsksQuestions(intake)
    ensures NeverRefused(intake, input, title) <==> AcceptsAllAnswers(intake, input, title)
  {
    hide ReadsByOwnAnswers, AsksQuestions, AskedOf, ReadInput, IsFull, IsRefused;
    if AcceptsAllAnswers(intake, input, title) {
      forall n: nat, answers | CanGive(intake, input, title, n, answers)
        ensures !IsRefused(ReadInput(intake, input, title, answers))
      {
        GivenIsAtStage(intake, input, title, n, answers);
        NoStageIsRefused(intake, input, title, n, answers);
      }
    }
    if NeverRefused(intake, input, title) {
      forall answers | IsFull(intake, input, answers)
        ensures var asked := AskedOf(intake, input, title, answers);
                FirstWrong(asked, answers).None? && OptionsAgree(Unanswered(asked, answers))
      {
        NeverRefusedAccepts(intake, input, title, answers);
      }
    }
  }

  predicate HaveOwnIds(asked: seq<Question>) {
    forall j, k | 0 <= j < k < |asked| :: asked[j].id != asked[k].id
  }

  /** Questions with an id each accept all answers. */
  lemma OwnIdsAcceptAll(intake: Intake, input: Input, title: Option<string>)
    requires forall answers :: HaveOwnIds(AskedOf(intake, input, title, answers))
    ensures AcceptsAllAnswers(intake, input, title)
  {
    forall answers | IsFull(intake, input, answers)
      ensures var asked := AskedOf(intake, input, title, answers);
              FirstWrong(asked, answers).None? && OptionsAgree(Unanswered(asked, answers))
    {
      var asked := AskedOf(intake, input, title, answers);
      assert HaveOwnIds(asked);
      FullIsAskedFor(intake, input, title, answers);
      OwnIdsAccept(asked, answers);
    }
  }

  lemma OwnIdsAccept(asked: seq<Question>, answers: Answers)
    requires HaveOwnIds(asked) && AreAnswersTo(asked, answers)
    ensures FirstWrong(asked, answers).None? && OptionsAgree(Unanswered(asked, answers))
  {
    FirstWrongIs(asked, answers);
    UnansweredAre(asked, answers);
    forall k | 0 <= k < |asked| && asked[k].id in answers
      ensures HasOption(asked[k], answers[asked[k].id])
    {
      assert IsAnsweredIn(asked, asked[k].id, answers[asked[k].id]);
    }
    var rest := Unanswered(asked, answers);
    forall i, j | 0 <= i < |rest| && 0 <= j < |rest| && rest[i].id == rest[j].id
      ensures rest[i] == rest[j]
    {
      assert rest[i] in rest && rest[j] in rest && rest[i] in asked && rest[j] in asked;
      var k :| 0 <= k < |asked| && asked[k] == rest[i];
      var l :| 0 <= l < |asked| && asked[l] == rest[j];
      assert k == l;
    }
  }
}
