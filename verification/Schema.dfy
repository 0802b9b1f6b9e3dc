/** The values stored in the tables the migrations work on, as far as a rule reads or writes
    them. A table is a map from its primary key to its row. */
module Schema {

  datatype Option<+T> = None | Some(value: T)

  /** Timestamps, in the order of their stored text. */
  type Time = int

  function LowerChar(c: char): char {
    if 'A' <= c <= 'Z' then (c as int - 'A' as int + 'a' as int) as char else c
  }

  /** The lower-case form of a lemma. No proof uses more of it than that it is a function. */
  function Lower(s: string): string {
    seq(|s|, i requires 0 <= i < |s| => LowerChar(s[i]))
  }

  /** It has the small letter for each capital one, and every other character as it is. */
  lemma LowerIs(s: string, i: nat)
    requires i < |s|
    ensures |Lower(s)| == |s| && !('A' <= Lower(s)[i] <= 'Z')
    ensures !('A' <= s[i] <= 'Z') ==> Lower(s)[i] == s[i]
    ensures 'A' <= s[i] <= 'Z' ==> 'a' <= Lower(s)[i] <= 'z' && Lower(s)[i] - 'a' == s[i] - 'A'
  {
  }

  /** What the user chose for a card; Unmarked is the stored "none". */
  datatype Choice = Unmarked | Learn | Cloze | Known | Skip

  predicate IsDecision(choice: Choice) {
    choice.Learn? || choice.Cloze? || choice.Known?
  }

  /** The stored status of a word, and of a card before words and phrases parted. */
  datatype Status = Pending | Learn | Learning | Known | Skip

  predicate IsDecided(status: Status) {
    status.Learn? || status.Known?
  }

  function StatusOfChoice(choice: Choice): Status {
    match choice
    case Learn => Status.Learn
    case Cloze => Status.Learn
    case Known => Status.Known
    case _ => Status.Pending
  }

  datatype Origin = Auto | Manual | Example | Collected

  datatype ShownBy = Selection | User

  /** The place in the document where the target of a phrase starts. */
  datatype Key = Key(block: int, line: int, column: int)

  /** Where a phrase stands: the block and the place of its first character. */
  datatype Position = Position(block: int, line: nat, column: nat)

  /** A stored phrase: where each of its words starts, and which words are its target. */
  datatype Wording = Wording(text: string, wordStarts: seq<nat>, target: seq<nat>)

  /** What a card holds of its phrase; it moves to the phrase as it is. */
  datatype CardText = CardText(
    source: Wording, position: Option<Position>, polished: Option<Wording>, polishReverted: bool,
    collectedKind: Option<string>, collectedTitle: Option<string>)

  datatype Phrase = Phrase(
    word: int, key: Option<Key>, text: CardText, shownBy: Option<ShownBy>, origin: Origin,
    choice: Choice, replacesSelection: bool)

  datatype Word = Word(
    source: int, spelling: string, pos: Option<string>, phrasal: bool, status: Status,
    studiedAt: Option<Time>)

  /** An export record: the binding of a card to its Anki note. It is active until released. */
  datatype Binding = Binding(
    word: Option<int>, phrase: Option<int>, note: int, spelling: string, pos: Option<string>,
    noteKind: Choice, cardChoice: Option<Choice>, learningSince: Time, releasedAt: Option<Time>)

  datatype MarkKind = KnownMark | UnknownMark

  datatype Mark = Mark(kind: MarkKind, createdAt: Time)

  /** A row of the Known list; no part of speech means any. */
  datatype KnownRow = KnownRow(spelling: string, pos: Option<string>, createdAt: Time)

  datatype UnknownRow = UnknownRow(spelling: string, createdAt: Time)
}
