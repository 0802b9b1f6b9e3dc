/** The questions the readers and handlers of this application ask: no client of an add is refused
    over them. */
module SourceReaders {
  import opened Schema
  import opened SharedQuestions
  import opened AddSource
  import opened AddSourceAnswers
  import opened AddSourceProtocol

  // ── Readers ─────────────────────────────────────────────────────────

  /** A track of a video; its id is its index, written out. */
  datatype Track = Track(id: string, name: string)

  /** What reads an input. Plain text, markdown and html ask one question; subtitles, books and
      links ask none. */
  datatype Reader =
    | TextReader
    | VideoReader(attached: bool, subtitles: seq<Track>, audio: seq<Track>)
    | QuietReader

  const TEXT_KIND := "text.kind"
  const SUBTITLE_TRACK := "video.subtitle_track"
  const AUDIO_TRACK := "video.audio_track"
  const BOOK_SPLIT := "book.split"
  const NO_SUBTITLES := 1

  const TEXT_KIND_QUESTION := Question(
    TEXT_KIND, "Is it a text or a song?", [Choice("text", "Text"), Choice("song", "Song")], "text")

  function TrackQuestion(id: string, prompt: string, tracks: seq<Track>): Question
    requires tracks != []
  {
    Question(
      id, prompt, seq(|tracks|, k requires 0 <= k < |tracks| => Choice(tracks[k].id, tracks[k].name)),
      tracks[0].id)
  }

  /** A question for each kind of track of which there are several. */
  function ReaderQuestions(reader: Reader): Try<seq<Question>> {
    match reader
    case TextReader => Got([TEXT_KIND_QUESTION])
    case QuietReader => Got([])
    case VideoReader(attached, subtitles, audio) =>
      if !attached && subtitles == [] then Unreadable(NO_SUBTITLES)
      else
        Got((if !attached && |subtitles| > 1 then [TrackQuestion(SUBTITLE_TRACK, "Subtitle track", subtitles)] else [])
            + if |audio| > 1 then [TrackQuestion(AUDIO_TRACK, "Audio track", audio)] else [])
  }

  // ── Handlers ────────────────────────────────────────────────────────

  /** A book, and how its question words the name of the book and the counts of its chapters. */
  datatype Book = Book(chapters: nat, prompt: string, splitText: string, wholeText: string)

  /** What a handler asks: of a book of several chapters, whether to split it; of other content
      nothing. */
  function KindQuestions(book: Option<Book>): seq<Question> {
    if book.None? || book.value.chapters < 2 then []
    else
      [Question(BOOK_SPLIT, book.value.prompt,
                [Choice("split", book.value.splitText), Choice("whole", book.value.wholeText)], "split")]
  }

  // ── The application's readers and handlers together ─────────────────

  predicate IsAskedBy(reader: Reader, id: string) {
    var asked := ReaderQuestions(reader);
    asked.Got? && exists k :: 0 <= k < |asked.value| && asked.value[k].id == id
  }

  /** The answers to a reader's own questions: a read is kept, and found again, by these. */
  function OwnAnswers(reader: Reader, answers: Answers): Answers {
    map id | id in answers && IsAskedBy(reader, id) :: answers[id]
  }

  /** What the application knows of inputs and contents: the check and the detection of the
      reader, the reading by the reader's own answers, and the book a content is. */
  datatype Application = Application(
    check: Input -> Try<Input>, readerOf: Input -> Reader, contentOf: (Input, Answers) -> Try<Content>,
    bookOf: Content -> Option<Book>, draftsOf: (Content, Answers) -> seq<Draft>)

  function IntakeOf(app: Application): Intake {
    Intake(
      app.check,
      input => ReaderQuestions(app.readerOf(input)),
      (input, answers) => app.contentOf(input, OwnAnswers(app.readerOf(input), answers)),
      content => KindQuestions(app.bookOf(content)),
      app.draftsOf)
  }

  lemma ReadersReadByOwnAnswers(app: Application)
    ensures ReadsByOwnAnswers(IntakeOf(app))
  {
    var intake := IntakeOf(app);
    forall checked, a, b | intake.questions(checked).Got? && AgreeOn(intake.questions(checked).value, a, b)
      ensures intake.read(checked, a) == intake.read(checked, b)
    {
      assert OwnAnswers(app.readerOf(checked), a) == OwnAnswers(app.readerOf(checked), b);
    }
  }

  lemma EveryQuestionHasADefault(app: Application)
    ensures AsksQuestions(IntakeOf(app))
  {
    assert HasOption(TEXT_KIND_QUESTION, TEXT_KIND_QUESTION.options[0].id);
    forall reader, k | ReaderQuestions(reader).Got? && 0 <= k < |ReaderQuestions(reader).value|
      ensures IsQuestion(ReaderQuestions(reader).value[k])
    {
      var question := ReaderQuestions(reader).value[k];
      assert question.options[0].id == question.default;
    }
    forall book, k | 0 <= k < |KindQuestions(book)|
      ensures IsQuestion(KindQuestions(book)[k])
    {
      var question := KindQuestions(book)[k];
      assert question.options[0].id == question.default;
    }
  }

  lemma IdsDiffer()
    ensures TEXT_KIND != BOOK_SPLIT && SUBTITLE_TRACK != BOOK_SPLIT && AUDIO_TRACK != BOOK_SPLIT
    ensures SUBTITLE_TRACK != AUDIO_TRACK && TEXT_KIND != SUBTITLE_TRACK && TEXT_KIND != AUDIO_TRACK
  {
    assert TEXT_KIND[0] != BOOK_SPLIT[0] && SUBTITLE_TRACK[0] != BOOK_SPLIT[0] && AUDIO_TRACK[0] != BOOK_SPLIT[0];
    assert SUBTITLE_TRACK[6] != AUDIO_TRACK[6] && TEXT_KIND[0] != SUBTITLE_TRACK[0] && TEXT_KIND[0] != AUDIO_TRACK[0];
  }

  /** Nothing is asked but what there is a choice of: which track of several, a book's chapters if
      there are several, and whether plain text is a song; every question has two options. */
  lemma OnlyChoicesAreAsked(reader: Reader, book: Option<Book>)
    ensures ReaderQuestions(reader).Got? ==>
              && (IsAskedBy(reader, SUBTITLE_TRACK) <==>
                    reader.VideoReader? && !reader.attached && |reader.subtitles| >= 2)
              && (IsAskedBy(reader, AUDIO_TRACK) <==> reader.VideoReader? && |reader.audio| >= 2)
              && (IsAskedBy(reader, TEXT_KIND) <==> reader.TextReader?)
              && forall k | 0 <= k < |ReaderQuestions(reader).value| ::
                   |ReaderQuestions(reader).value[k].options| >= 2
    ensures KindQuestions(book) != [] <==> book.Some? && book.value.chapters >= 2
    ensures forall k | 0 <= k < |KindQuestions(book)| :: |KindQuestions(book)[k].options| >= 2
  {
    IdsDiffer();
    if reader.VideoReader? && ReaderQuestions(reader).Got? {
      var asked := ReaderQuestions(reader).value;
      assert reader.TextReader? || forall k | 0 <= k < |asked| :: asked[k].id in {SUBTITLE_TRACK, AUDIO_TRACK};
      assert |reader.audio| >= 2 ==> asked[|asked| - 1].id == AUDIO_TRACK;
      assert !reader.attached && |reader.subtitles| >= 2 ==> asked[0].id == SUBTITLE_TRACK;
    }
    if reader.TextReader? {
      assert ReaderQuestions(reader).value[0].id == TEXT_KIND;
    }
    hide SUBTITLE_TRACK, AUDIO_TRACK, TEXT_KIND, BOOK_SPLIT;
  }

  /** No reader asks two questions of one id, nor one of the id of books. */
  lemma ReaderHasOwnIds(reader: Reader)
    requires ReaderQuestions(reader).Got?
    ensures HaveOwnIds(ReaderQuestions(reader).value)
    ensures !IsAskedBy(reader, BOOK_SPLIT)
  {
    IdsDiffer();
    hide TEXT_KIND, SUBTITLE_TRACK, AUDIO_TRACK, BOOK_SPLIT;
  }

  lemma KindAddsItsOwnId(asked: seq<Question>, book: Option<Book>)
    requires HaveOwnIds(asked) && forall k | 0 <= k < |asked| :: asked[k].id != BOOK_SPLIT
    ensures HaveOwnIds(asked + KindQuestions(book))
  {
    hide BOOK_SPLIT;
  }

  /** The questions asked about an input have an id each. */
  lemma QuestionsHaveOwnIds(app: Application, input: Input, title: Option<string>, answers: Answers)
    ensures HaveOwnIds(AskedOf(IntakeOf(app), input, title, answers))
  {
    var checked := app.check(input);
    if checked.Got? && ReaderQuestions(app.readerOf(checked.value)).Got? {
      var asked := ReaderQuestions(app.readerOf(checked.value)).value;
      ReaderHasOwnIds(app.readerOf(checked.value));
      forall book: Option<Book>
        ensures HaveOwnIds(asked + KindQuestions(book))
      {
        KindAddsItsOwnId(asked, book);
      }
    }
    hide KindQuestions, ReaderQuestions;
  }

  /** No client of an add to this application is ever refused; every add ends after two rounds
      of answers at most and one naming, with the sources or at an input that cannot be read,
      and writes nothing before the sources. */
  lemma AddsEnd(app: Application, request: Request, was: seq<Write>, calls: seq<Call>)
    requires IsConversation(IntakeOf(app), request, was, calls)
    ensures NoClientIsRefused(IntakeOf(app), request)
    ensures |calls| <= 4
    ensures forall k | 0 <= k < |calls| && calls[k].reply.QuestionsRequired? :: k < 2
    ensures forall k | 0 <= k < |calls| - 1 :: calls[k].written == was && !calls[k].reply.Failed?
    ensures var reply := calls[|calls| - 1].reply; reply.Failed? ==> !BlamesAnswers(reply.error)
  {
    var intake := IntakeOf(app);
    ReadersReadByOwnAnswers(app);
    EveryQuestionHasADefault(app);
    forall i | 0 <= i < |request.inputs|
      ensures AcceptsAllAnswers(intake, request.inputs[i].1, TitleFor(request))
    {
      forall answers
        ensures HaveOwnIds(AskedOf(intake, request.inputs[i].1, TitleFor(request), answers))
      {
        QuestionsHaveOwnIds(app, request.inputs[i].1, TitleFor(request), answers);
      }
      OwnIdsAcceptAll(intake, request.inputs[i].1, TitleFor(request));
    }
    hide ReadsByOwnAnswers, AsksQuestions, AcceptsAllAnswers, IsConversation, NoClientIsRefused, AskedOf;
    NoClientIsRefusedIff(intake, request);
    AddEnds(intake, request, was, calls);
  }
}
