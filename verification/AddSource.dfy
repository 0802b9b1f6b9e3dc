/** One call of an add: what is read under the answers given, what is replied, and what is written. */
module AddSource {
  import opened NaturalOrder
  import opened Orders
  import opened Schema
  import opened SharedQuestions

  // ── What reads an input ─────────────────────────────────────────────

  type Input = int

  /** The options chosen for one input, by question id. */
  type Answers = map<string, string>

  datatype Content = Content(title: Option<string>, body: int)

  datatype Draft = Draft(ownTitle: string, body: int)

  datatype Try<+T> = Got(value: T) | Unreadable(reason: int)

  /** The check of an input, the reader of its format and the handler of its content's kind. */
  datatype Intake = Intake(
    check: Input -> Try<Input>,
    questions: Input -> Try<seq<Question>>,
    read: (Input, Answers) -> Try<Content>,
    kindQuestions: Content -> seq<Question>,
    drafts: (Content, Answers) -> seq<Draft>)

  datatype Error =
    | InvalidAnswer(id: string)
    | UnaskedAnswer
    | TooManyAnswers
    | CannotRead(reason: int)
    | InputFailed(name: string, error: Error)

  predicate BlamesAnswers(error: Error) {
    match error
    case CannotRead(_) => false
    case InputFailed(_, inner) => BlamesAnswers(inner)
    case _ => true
  }

  datatype Result<+T> = Ok(value: T) | Err(error: Error)

  // ── One input ───────────────────────────────────────────────────────

  function FirstWrong(asked: seq<Question>, answers: Answers): Option<string> {
    if asked == [] then None
    else if asked[0].id in answers && !HasOption(asked[0], answers[asked[0].id]) then Some(asked[0].id)
    else FirstWrong(asked[1..], answers)
  }

  function Unanswered(asked: seq<Question>, answers: Answers): seq<Question> {
    if asked == [] then []
    else (if asked[0].id in answers then [] else [asked[0]]) + Unanswered(asked[1..], answers)
  }

  function Pending(asked: seq<Question>, answers: Answers): Result<seq<Question>> {
    var wrong := FirstWrong(asked, answers);
    if wrong.Some? then Err(InvalidAnswer(wrong.value)) else Ok(Unanswered(asked, answers))
  }

  predicate HasUnasked(asked: seq<Question>, answers: Answers) {
    exists id :: id in answers && forall k | 0 <= k < |asked| :: asked[k].id != id
  }

  function Titled(content: Content, title: Option<string>): Content {
    if title.Some? then content.(title := title) else content
  }

  datatype Read = Asking(questions: seq<Question>) | Drafted(drafts: seq<Draft>)

  function ReadDrafts(
    intake: Intake, content: Content, asked: seq<Question>, answers: Answers): Result<Read>
  {
    match Pending(asked, answers)
    case Err(e) => Err(e)
    case Ok(pending) =>
      if pending != [] then Ok(Asking(pending))
      else if HasUnasked(asked, answers) then Err(UnaskedAnswer)
      else Ok(Drafted(intake.drafts(content, answers)))
  }

  function ReadChecked(
    intake: Intake, input: Input, title: Option<string>, asked: seq<Question>, answers: Answers)
    : Result<Read>
  {
    match Pending(asked, answers)
    case Err(e) => Err(e)
    case Ok(pending) =>
      if pending != [] then Ok(Asking(pending))
      else
        match intake.read(input, answers)
        case Unreadable(reason) => Err(CannotRead(reason))
        case Got(content) =>
          var titled := Titled(content, title);
          ReadDrafts(intake, titled, asked + intake.kindQuestions(titled), answers)
  }

  /** The stages of one input in order: check, reader's questions, reading, kind's questions. */
  function ReadInput(intake: Intake, input: Input, title: Option<string>, answers: Answers): Result<Read> {
    match intake.check(input)
    case Unreadable(reason) => Err(CannotRead(reason))
    case Got(checked) =>
      match intake.questions(checked)
      case Unreadable(reason) => Err(CannotRead(reason))
      case Got(asked) => ReadChecked(intake, checked, title, asked, answers)
  }

  // ── All of them ─────────────────────────────────────────────────────

  /** What the user adds: the inputs by their names, and the title of a single one. */
  datatype Request = Request(inputs: seq<(string, Input)>, title: Option<string>)

  predicate IsBatch(request: Request) {
    |request.inputs| > 1
  }

  function GivenAt(answers: seq<Answers>, i: nat): Answers {
    if i < |answers| then answers[i] else map[]
  }

  function ReadOne(intake: Intake, request: Request, answers: seq<Answers>, i: nat): Result<Read>
    requires i < |request.inputs|
  {
    var title := if IsBatch(request) then None else request.title;
    match ReadInput(intake, request.inputs[i].1, title, GivenAt(answers, i))
    case Ok(read) => Ok(read)
    case Err(e) => Err(if IsBatch(request) then InputFailed(request.inputs[i].0, e) else e)
  }

  /** The first inputs read; the first to fail ends the call. */
  function ReadAll(intake: Intake, request: Request, answers: seq<Answers>, n: nat): Result<seq<Read>>
    requires n <= |request.inputs|
  {
    if n == 0 then Ok([])
    else
      match ReadAll(intake, request, answers, n - 1)
      case Err(e) => Err(e)
      case Ok(readings) =>
        match ReadOne(intake, request, answers, n - 1)
        case Err(e) => Err(e)
        case Ok(read) => Ok(readings + [read])
  }

  function AskedBy(request: Request, questions: seq<Question>, i: nat): seq<Asked>
    requires i < |request.inputs|
  {
    seq(|questions|, k requires 0 <= k < |questions| =>
      Asked(questions[k], [i], if IsBatch(request) then Some(request.inputs[i].0) else None))
  }

  function PendingOf(request: Request, readings: seq<Read>, n: nat): seq<Asked>
    requires n <= |readings| <= |request.inputs|
  {
    if n == 0 then []
    else
      PendingOf(request, readings, n - 1)
      + if readings[n - 1].Asking? then AskedBy(request, readings[n - 1].questions, n - 1) else []
  }

  /** An input as it is read, by its name; `input` is its index. */
  datatype NamedRead = NamedRead(name: string, input: nat, read: Read)

  function NamedReads(request: Request, readings: seq<Read>): seq<NamedRead>
    requires |readings| == |request.inputs|
  {
    seq(|readings|, i requires 0 <= i < |readings| => NamedRead(request.inputs[i].0, i, readings[i]))
  }

  predicate NamedBefore(a: NamedRead, b: NamedRead) {
    NaturallyBefore(a.name, b.name)
  }

  /** The inputs in the order their drafts are in: those of a batch by their names. */
  function InOrder(request: Request, readings: seq<Read>): seq<NamedRead>
    requires |readings| == |request.inputs|
  {
    var named := NamedReads(request, readings);
    if IsBatch(request) then StableSort(named, NamedBefore) else named
  }

  function DraftsOf(inputs: seq<NamedRead>): seq<Draft> {
    if inputs == [] then []
    else (if inputs[0].read.Drafted? then inputs[0].read.drafts else []) + DraftsOf(inputs[1..])
  }

  /** The user's naming: titles written by hand, and what the rule makes of the others, given how
      many drafts there are, which one it is, and its own title. */
  datatype Naming = Naming(titles: map<nat, string>, render: (nat, nat, string) -> string)

  function TitlesOf(naming: Naming, drafts: seq<Draft>): seq<string> {
    seq(|drafts|, i requires 0 <= i < |drafts| =>
      if i in naming.titles && naming.titles[i] != "" then naming.titles[i]
      else naming.render(|drafts|, i + 1, drafts[i].ownTitle))
  }

  datatype Reply =
    | Failed(error: Error)
    | QuestionsRequired(questions: seq<Asked>)
    | NamingRequired(drafts: seq<Draft>)
    | SourcesCreated(drafts: seq<Draft>, titles: Option<seq<string>>)

  /** What a call replies once every input is read. */
  ghost predicate IsReplyOf(request: Request, readings: seq<Read>, naming: Option<Naming>, reply: Reply)
    requires |readings| == |request.inputs|
  {
    var pending := PendingOf(request, readings, |readings|);
    var drafts := DraftsOf(InOrder(request, readings));
    if pending != [] then
      reply.QuestionsRequired? && AreShared(pending, |pending|, reply.questions)
    else if |drafts| == 1 then reply == SourcesCreated(drafts, None)
    else if naming.None? then reply == NamingRequired(drafts)
    else reply == SourcesCreated(drafts, Some(TitlesOf(naming.value, drafts)))
  }

  ghost predicate IsReply(
    intake: Intake, request: Request, answers: seq<Answers>, naming: Option<Naming>, reply: Reply)
  {
    if |answers| > |request.inputs| then reply == Failed(TooManyAnswers)
    else
      match ReadAll(intake, request, answers, |request.inputs|)
      case Err(e) => reply == Failed(e)
      case Ok(readings) => |readings| == |request.inputs| && IsReplyOf(request, readings, naming, reply)
  }

  lemma {:induction false} ReadsAll(intake: Intake, request: Request, answers: seq<Answers>, n: nat)
    requires n <= |request.inputs|
    ensures match ReadAll(intake, request, answers, n)
            case Ok(readings) =>
              && |readings| == n
              && forall i | 0 <= i < n :: ReadOne(intake, request, answers, i) == Ok(readings[i])
            case Err(e) => exists i :: 0 <= i < n && ReadOne(intake, request, answers, i) == Err(e)
  {
    if n > 0 {
      ReadsAll(intake, request, answers, n - 1);
    }
  }

  /** What is written: sources alone, or a group of them under its titles. */
  datatype Write = Write(drafts: seq<Draft>, titles: Option<seq<string>>)

  /** A call, its reply, and all that is written after it. */
  datatype Call = Call(
    answers: seq<Answers>, naming: Option<Naming>, reply: Reply, written: seq<Write>)

  /** Whether a call goes so: only one that makes the sources writes, and it writes them once. */
  ghost predicate IsCall(intake: Intake, request: Request, was: seq<Write>, call: Call) {
    && IsReply(intake, request, call.answers, call.naming, call.reply)
    && call.written == was
         + if call.reply.SourcesCreated? then [Write(call.reply.drafts, call.reply.titles)] else []
  }

  lemma {:induction false} FirstErrorEnds(
    intake: Intake, request: Request, answers: seq<Answers>, n: nat, m: nat)
    requires n <= m <= |request.inputs| && ReadAll(intake, request, answers, n).Err?
    ensures ReadAll(intake, request, answers, m) == ReadAll(intake, request, answers, n)
  {
    if n < m {
      FirstErrorEnds(intake, request, answers, n, m - 1);
    }
  }

  class AddSourceUseCase {
    const intake: Intake
    var written: seq<Write>

    constructor (intake: Intake)
      ensures this.intake == intake && written == []
    {
      this.intake := intake;
      written := [];
    }

    /** One call of the add. */
    method Execute(request: Request, answers: seq<Answers>, naming: Option<Naming>) returns (reply: Reply)
      modifies this
      ensures IsCall(intake, request, old(written), Call(answers, naming, reply, written))
    {
      if |answers| > |request.inputs| {
        return Failed(TooManyAnswers);
      }
      var readings: seq<Read> := [];
      for i := 0 to |request.inputs|
        invariant |readings| == i && ReadAll(intake, request, answers, i) == Ok(readings)
        invariant written == old(written)
      {
        var read := ReadOne(intake, request, answers, i);
        if read.Err? {
          FirstErrorEnds(intake, request, answers, i + 1, |request.inputs|);
          return Failed(read.error);
        }
        readings := readings + [read.value];
      }
      var asked := PendingOf(request, readings, |readings|);
      if asked != [] {
        var questions := Shared(asked);
        return QuestionsRequired(questions);
      }
      var named := NamedReads(request, readings);
      if IsBatch(request) {
        named := StableSort(named, NamedBefore);
      }
      var drafts := DraftsOf(named);
      if |drafts| == 1 {
        written := written + [Write(drafts, None)];
        return SourcesCreated(drafts, None);
      }
      if naming.None? {
        return NamingRequired(drafts);
      }
      var titles := TitlesOf(naming.value, drafts);
      written := written + [Write(drafts, Some(titles))];
      return SourcesCreated(drafts, Some(titles));
    }
  }
}
