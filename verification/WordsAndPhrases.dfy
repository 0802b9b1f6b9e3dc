/** Revision 0049, by what it makes of the old cards: each table after each of its steps, as a
    function of the tables before the upgrade. The steps themselves, which update the tables in
    place, are in module WordsAndPhrasesUpgrade and meet these functions. */
module WordsAndPhrases {
  import opened Schema
  import opened OccurrenceKeys
  import Sets

  // ── The tables before the upgrade ───────────────────────────────────

  datatype Role = Content | Topic | SavedPhrases

  /** A row of `candidates` while it still holds its phrase. */
  datatype Card = Card(
    source: int, spelling: string, pos: Option<string>, phrasal: bool, status: Status,
    text: CardText)

  datatype Export = Export(candidate: int, note: int, phrase: Option<int>)

  datatype JobType = Polish | Meaning | Media | Tts | OtherJob(name: string)

  datatype Job = Job(jobType: JobType, candidate: Option<int>, phrase: Option<int>)

  datatype Report = Report(candidate: int, phrase: Option<int>)

  /** Jobs, reports and exports have no phrase yet. `documents` holds the line lengths of every
      block; `ipas` is the column of `meanings` that has the transcription, where it is not NULL. */
  datatype Old = Old(
    roles: map<int, Role>, documents: map<int, map<int, seq<nat>>>, candidates: map<int, Card>,
    exports: map<int, Export>, jobs: map<int, Job>, reports: map<int, Report>,
    pronunciations: map<int, string>, images: map<int, string>, breakdowns: set<int>,
    meanings: map<int, string>, ipas: map<int, string>, media: map<int, string>,
    tts: map<int, string>, clozes: map<int, string>, known: seq<KnownRow>, unknown: seq<UnknownRow>)

  /** What earlier revisions enforce: child rows have their parent (0025), a card has at most
      one export record (0002), row ids start at 1, and a stored target names words. */
  ghost predicate Legal(o: Old) {
    && (forall c | c in o.candidates ::
          o.candidates[c].source in o.roles && ValidTarget(o.candidates[c].text.source))
    && (forall e | e in o.exports :: 0 < e && o.exports[e].candidate in o.candidates)
    && (forall e, f | e in o.exports && f in o.exports ::
          o.exports[e].candidate == o.exports[f].candidate ==> e == f)
    && (forall j | j in o.jobs ::
          o.jobs[j].candidate.Some? ==> o.jobs[j].candidate.value in o.candidates)
    && o.pronunciations.Keys <= o.candidates.Keys
    && o.images.Keys <= o.candidates.Keys
    && o.breakdowns <= o.candidates.Keys
    && o.ipas.Keys <= o.meanings.Keys <= o.candidates.Keys
    && o.media.Keys <= o.candidates.Keys
    && o.tts.Keys <= o.candidates.Keys
    && o.clozes.Keys <= o.candidates.Keys
  }

  // ── Words: cards of one lemma ───────────────────────────────────────

  datatype WordKey = WordKey(source: int, folded: string, phrasal: bool)

  function KeyOfWord(source: int, spelling: string, phrasal: bool): WordKey {
    WordKey(source, Lower(spelling), phrasal)
  }

  function KeyOfCard(card: Card): WordKey {
    KeyOfWord(card.source, card.spelling, card.phrasal)
  }

  ghost predicate SameWord(o: Old, a: int, b: int) {
    a in o.candidates && b in o.candidates && KeyOfCard(o.candidates[a]) == KeyOfCard(o.candidates[b])
  }

  /** What a merge weighs of a card; `latest` is 0 without an export record. */
  datatype CardRow = CardRow(
    id: int, source: int, spelling: string, phrasal: bool, status: Status, exported: bool,
    latest: int)

  ghost predicate Exported(o: Old, c: int) {
    exists e :: e in o.exports && o.exports[e].candidate == c
  }

  ghost predicate IsRowOf(o: Old, row: CardRow) {
    && row.id in o.candidates
    && var card := o.candidates[row.id];
    && row.source == card.source && row.spelling == card.spelling
    && row.phrasal == card.phrasal && row.status == card.status
    && row.exported == Exported(o, row.id)
    && (!row.exported ==> row.latest == 0)
    && (row.exported ==>
          row.latest in o.exports && o.exports[row.latest].candidate == row.id)
  }

  /** An exported card outranks the others, then the later export, then a decision, Known over
      Learn, and the newer card. */
  predicate RankedBelow(a: CardRow, b: CardRow) {
    if a.exported != b.exported then b.exported
    else if a.latest != b.latest then a.latest < b.latest
    else if IsDecided(a.status) != IsDecided(b.status) then IsDecided(b.status)
    else if a.status.Known? != b.status.Known? then b.status.Known?
    else a.id < b.id
  }

  function Bit(b: bool): int {
    if b then 1 else 0
  }

  /** What `merge_rank` compares. */
  function MergeRank(row: CardRow): seq<int> {
    [Bit(row.exported), row.latest, Bit(IsDecided(row.status)), Bit(row.status.Known?), row.id]
  }

  /** The order of tuples: by the first items that differ. */
  predicate TupleLess(a: seq<int>, b: seq<int>) {
    if a == [] || b == [] then a == [] && b != []
    else a[0] < b[0] || (a[0] == b[0] && TupleLess(a[1..], b[1..]))
  }

  /** The rank of cards is the order of their tuples, and a total one. */
  lemma RankIsTheTuple(a: CardRow, b: CardRow)
    ensures RankedBelow(a, b) <==> TupleLess(MergeRank(a), MergeRank(b))
    ensures a.id != b.id ==> (RankedBelow(a, b) <==> !RankedBelow(b, a))
  {
    var x, y := MergeRank(a), MergeRank(b);
    assert TupleLess(x[4..], y[4..]) <==> a.id < b.id by {
      assert x[4..][1..] == [] && y[4..][1..] == [];
    }
    assert x[3..][1..] == x[4..] && y[3..][1..] == y[4..];
    assert x[2..][1..] == x[3..] && y[2..][1..] == y[3..];
    assert x[1..][1..] == x[2..] && y[1..][1..] == y[2..];
    assert TupleLess(x[3..], y[3..]) <==> x[3] < y[3] || (x[3] == y[3] && a.id < b.id);
    assert TupleLess(x[2..], y[2..]) <==> x[2] < y[2] || (x[2] == y[2] && TupleLess(x[3..], y[3..]));
    assert TupleLess(x[1..], y[1..]) <==> x[1] < y[1] || (x[1] == y[1] && TupleLess(x[2..], y[2..]));
  }

  /** The row of a card. A card has one export record at most. */
  ghost function RowOf(o: Old, c: int): (row: CardRow)
    requires c in o.candidates
    ensures row.id == c && IsRowOf(o, row)
  {
    var card := o.candidates[c];
    var latest := if Exported(o, c) then var e :| e in o.exports && o.exports[e].candidate == c; e
                  else 0;
    CardRow(c, card.source, card.spelling, card.phrasal, card.status, Exported(o, c), latest)
  }

  ghost predicate Outranks(o: Old, a: int, b: int)
    requires a in o.candidates && b in o.candidates
  {
    RankedBelow(RowOf(o, b), RowOf(o, a))
  }

  ghost predicate IsWinner(o: Old, w: int) {
    && w in o.candidates
    && forall c | SameWord(o, w, c) && c != w :: Outranks(o, w, c)
  }

  lemma {:induction false} SomeCardIsBest(o: Old, cards: set<int>) returns (w: int)
    requires cards != {}
    requires cards <= o.candidates.Keys
    ensures w in cards
    ensures forall c | c in cards && c != w :: Outranks(o, w, c)
  {
    var c := Sets.SomeElement(cards);
    w := c;
    var others := cards - {c};
    if others != {} {
      var best := SomeCardIsBest(o, others);
      if !Outranks(o, c, best) {
        w := best;
      }
    }
    forall d | d in cards && d != w
      ensures Outranks(o, w, d)
    {
      assert d == c || d in others;
    }
  }

  lemma EveryWordHasAWinner(o: Old, c: int)
    requires c in o.candidates
    ensures exists w :: SameWord(o, c, w) && IsWinner(o, w)
  {
    var group := set d | d in o.candidates && SameWord(o, c, d);
    assert c in group;
    var w := SomeCardIsBest(o, group);
    assert forall d | SameWord(o, w, d) :: d in group;
    assert SameWord(o, c, w) && IsWinner(o, w);
  }

  /** The card a card merges into: the word its phrase ends in. */
  ghost function Winner(o: Old, c: int): (w: int)
    requires c in o.candidates
    ensures SameWord(o, c, w) && IsWinner(o, w)
  {
    EveryWordHasAWinner(o, c);
    var w :| SameWord(o, c, w) && IsWinner(o, w);
    w
  }

  ghost predicate IsLoser(o: Old, c: int) {
    c in o.candidates && Winner(o, c) != c
  }

  ghost function Losers(o: Old): set<int> {
    set c | c in o.candidates && IsLoser(o, c)
  }

  lemma OneWinner(o: Old, a: int, b: int)
    requires IsWinner(o, a) && SameWord(o, a, b)
    ensures Winner(o, b) == a
  {
    var w := Winner(o, b);
    assert SameWord(o, a, w) && SameWord(o, w, a);
  }

  // ── Phrases as they are made, one of each card ──────────────────────

  function OriginOf(role: Role, position: Option<Position>): Origin {
    if !role.Content? then Origin.Collected
    else if position.None? then Origin.Example
    else Origin.Auto
  }

  ghost function LinesOfSource(o: Old, source: int): map<int, seq<nat>> {
    if source in o.documents then o.documents[source] else map[]
  }

  ghost function FirstPhrase(o: Old, c: int): Phrase
    requires Legal(o) && c in o.candidates
  {
    var card := o.candidates[c];
    var origin := OriginOf(o.roles[card.source], card.text.position);
    Phrase(
      c,
      if origin.Auto?
      then Some(KeyOf(card.text.position.value, card.text.source, LinesOfSource(o, card.source)))
      else None,
      card.text,
      Some(if origin.Auto? then Selection else User),
      origin,
      if card.status.Skip? then Choice.Skip else Unmarked,
      false)
  }

  /** `_card_phrase` and its inverse: a phrase id for each card, in the order of the cards. */
  ghost predicate Numbered(cards: set<int>, phraseOf: map<int, int>, cardOf: map<int, int>) {
    && phraseOf.Keys == cards
    && cardOf.Values <= cards
    && (forall c | c in phraseOf :: phraseOf[c] in cardOf && cardOf[phraseOf[c]] == c)
    && (forall p | p in cardOf :: cardOf[p] in phraseOf && phraseOf[cardOf[p]] == p)
    && (forall a, b | a in phraseOf && b in phraseOf && a < b :: phraseOf[a] < phraseOf[b])
  }

  // ── Merging: the losers `m` have been merged into their winners ─────

  ghost function Rebound(o: Old, m: set<int>, c: int): int {
    if c in m && c in o.candidates then Winner(o, c) else c
  }

  ghost function MergedPhrase(o: Old, m: set<int>, c: int): Phrase
    requires Legal(o) && c in o.candidates
  {
    var phrase := FirstPhrase(o, c);
    if c !in m then phrase
    else if phrase.origin.Auto?
    then phrase.(word := Winner(o, c), origin := Origin.Manual, shownBy := Some(User))
    else phrase.(word := Winner(o, c))
  }

  ghost predicate PhrasesMerged(o: Old, cardOf: map<int, int>, m: set<int>, phrases: map<int, Phrase>)
    requires Legal(o)
  {
    && (forall p :: p in phrases <==> p in cardOf)
    && forall p | p in cardOf ::
         cardOf[p] in o.candidates && phrases[p] == MergedPhrase(o, m, cardOf[p])
  }

  predicate IsPhraseLevel(jobType: JobType) {
    !jobType.OtherJob?
  }

  function PhraseOfCard(phraseOf: map<int, int>, c: int): Option<int> {
    if c in phraseOf then Some(phraseOf[c]) else None
  }

  ghost function MergedJob(o: Old, phraseOf: map<int, int>, m: set<int>, job: Job): Job {
    if job.candidate.None? then job
    else Job(
      job.jobType, Some(Rebound(o, m, job.candidate.value)),
      if IsPhraseLevel(job.jobType) then PhraseOfCard(phraseOf, job.candidate.value) else job.phrase)
  }

  ghost predicate JobsMerged(o: Old, phraseOf: map<int, int>, m: set<int>, jobs: map<int, Job>) {
    && (forall j :: j in jobs <==> j in o.jobs)
    && forall j | j in jobs :: jobs[j] == MergedJob(o, phraseOf, m, o.jobs[j])
  }

  ghost function MergedReport(o: Old, phraseOf: map<int, int>, m: set<int>, report: Report): Report {
    Report(Rebound(o, m, report.candidate), PhraseOfCard(phraseOf, report.candidate))
  }

  ghost predicate ReportsMerged(o: Old, phraseOf: map<int, int>, m: set<int>, reports: map<int, Report>) {
    && (forall r :: r in reports <==> r in o.reports)
    && forall r | r in reports :: reports[r] == MergedReport(o, phraseOf, m, o.reports[r])
  }

  function NoteKind(clozes: map<int, string>, c: int): Choice {
    if c in clozes then Choice.Cloze else Choice.Learn
  }

  ghost function MergedBinding(o: Old, phraseOf: map<int, int>, m: set<int>, now: Time, e: int): Binding
    requires Legal(o) && e in o.exports
  {
    var c := o.exports[e].candidate;
    var kind := NoteKind(o.clozes, c);
    Binding(
      Some(Rebound(o, m, c)), PhraseOfCard(phraseOf, c), o.exports[e].note,
      o.candidates[c].spelling, o.candidates[c].pos, kind, Some(kind), now, None)
  }

  ghost predicate BindingsMerged(
    o: Old, phraseOf: map<int, int>, m: set<int>, now: Time, bindings: map<int, Binding>)
    requires Legal(o)
  {
    && (forall e :: e in bindings <==> e in o.exports)
    && forall e | e in bindings :: bindings[e] == MergedBinding(o, phraseOf, m, now, e)
  }

  /** The card of a word whose row of a per-word table the word keeps: its own if it has one,
      else that of the first of its merged losers to have one. */
  ghost predicate IsHeir(o: Old, table: map<int, string>, m: set<int>, w: int, d: int) {
    && d in table
    && (d == w
        || (&& w !in table && d in m && d in o.candidates && Winner(o, d) == w
            && forall e | e in table && e in m && e in o.candidates && Winner(o, e) == w :: d <= e))
  }

  /** A per-word table while words merge: a live word has a row exactly when it or one of its
      merged losers had one, and it is the heir's. */
  ghost predicate Inherited(o: Old, table: map<int, string>, m: set<int>, now: map<int, string>) {
    && (forall w | w in now :: w in o.candidates && w !in m && exists d :: IsHeir(o, table, m, w, d))
    && (forall w, d | w in o.candidates && w !in m && IsHeir(o, table, m, w, d) ::
          w in now && now[w] == table[d])
  }

  // ── Skipped originals: the cards `done` have been seen ──────────────

  ghost predicate HasExample(o: Old, c: int)
    requires Legal(o)
  {
    exists e :: SameWord(o, c, e) && FirstPhrase(o, e).origin.Example?
  }

  /** Whether the loop over skipped cards changes a card's phrase. */
  ghost predicate IsReleased(o: Old, c: int)
    requires Legal(o)
  {
    && c in o.candidates
    && o.candidates[c].status.Skip?
    && FirstPhrase(o, c).origin.Auto?
    && HasExample(o, c)
  }

  /** Whether the phrase of card `d` holds the place of the phrase of a merged card `c`. */
  ghost predicate Holds(o: Old, d: int, c: int)
    requires Legal(o)
  {
    && SameWord(o, c, d) && d != c
    && FirstPhrase(o, d).origin.Auto?
    && FirstPhrase(o, d).key == FirstPhrase(o, c).key
    && (IsWinner(o, d) || (IsReleased(o, d) && d < c))
  }

  ghost predicate IsHeld(o: Old, c: int)
    requires Legal(o)
  {
    exists d :: Holds(o, d, c)
  }

  ghost function ReleasedPhrase(o: Old, done: set<int>, c: int): Phrase
    requires Legal(o) && c in o.candidates
  {
    var phrase := MergedPhrase(o, Losers(o), c);
    if c in done && IsReleased(o, c) then
      var origin := if IsLoser(o, c) && IsHeld(o, c) then Origin.Manual else Origin.Auto;
      phrase.(choice := Unmarked, shownBy := None, origin := origin)
    else if phrase.origin.Example? && exists d :: d in done && IsReleased(o, d) && SameWord(o, c, d) then
      phrase.(replacesSelection := true)
    else
      phrase
  }

  ghost predicate PhrasesReleased(o: Old, cardOf: map<int, int>, done: set<int>, phrases: map<int, Phrase>)
    requires Legal(o)
  {
    && (forall p :: p in phrases <==> p in cardOf)
    && forall p | p in cardOf ::
         cardOf[p] in o.candidates && phrases[p] == ReleasedPhrase(o, done, cardOf[p])
  }

  // ── Decisions: the winners `won` have got theirs ────────────────────

  ghost predicate IsListed(o: Old, folded: string) {
    && (exists i :: 0 <= i < |o.known| && Lower(o.known[i].spelling) == folded)
    && !(exists i :: 0 <= i < |o.unknown| && Lower(o.unknown[i].spelling) == folded)
  }

  /** What the old rows say a winner's card decides; None if they say nothing. */
  ghost function Decision(o: Old, w: int): Option<Choice>
    requires w in o.candidates
  {
    var card := o.candidates[w];
    if !IsDecided(card.status) then None
    else if Exported(o, w) || card.status.Known? then
      Some(if IsListed(o, Lower(card.spelling)) then Choice.Known else Unmarked)
    else Some(if w in o.clozes then Choice.Cloze else Choice.Learn)
  }

  ghost function DecidedPhrase(o: Old, won: set<int>, c: int): Phrase
    requires Legal(o) && c in o.candidates
  {
    var phrase := ReleasedPhrase(o, o.candidates.Keys, c);
    if c in won && Decision(o, c).Some? then phrase.(choice := Decision(o, c).value) else phrase
  }

  ghost predicate PhrasesDecided(o: Old, cardOf: map<int, int>, won: set<int>, phrases: map<int, Phrase>)
    requires Legal(o)
  {
    && (forall p :: p in phrases <==> p in cardOf)
    && forall p | p in cardOf ::
         cardOf[p] in o.candidates && phrases[p] == DecidedPhrase(o, won, cardOf[p])
  }

  ghost function StatusOf(o: Old, w: int): Status
    requires w in o.candidates
  {
    StatusOfChoice(if Decision(o, w).Some? then Decision(o, w).value else Unmarked)
  }

  ghost function DecidedCard(o: Old, won: set<int>, w: int): Card
    requires w in o.candidates
  {
    if w in won then o.candidates[w].(status := StatusOf(o, w)) else o.candidates[w]
  }

  ghost predicate CandidatesDecided(o: Old, won: set<int>, candidates: map<int, Card>) {
    && (forall w :: w in candidates <==> w in o.candidates && !IsLoser(o, w))
    && forall w | w in candidates :: candidates[w] == DecidedCard(o, won, w)
  }

  /** Whether the binding of a card stays active: the card won its word and is its Known. */
  ghost predicate StaysActive(o: Old, c: int)
    requires c in o.candidates
  {
    !IsLoser(o, c) && Decision(o, c) == Some(Choice.Known)
  }

  /** The binding rows once they follow their words, and are released with the decisions. */
  ghost function DecidedBinding(o: Old, phraseOf: map<int, int>, won: set<int>, now: Time, e: int): Binding
    requires Legal(o) && e in o.exports
  {
    var c := o.exports[e].candidate;
    var w := Winner(o, c);
    MergedBinding(o, phraseOf, Losers(o), now, e).(
      spelling := o.candidates[w].spelling, pos := o.candidates[w].pos,
      releasedAt := if w in won && !StaysActive(o, c) then Some(now) else None)
  }

  ghost predicate BindingsDecided(
    o: Old, phraseOf: map<int, int>, won: set<int>, now: Time, bindings: map<int, Binding>)
    requires Legal(o)
  {
    && (forall e :: e in bindings <==> e in o.exports)
    && forall e | e in bindings :: bindings[e] == DecidedBinding(o, phraseOf, won, now, e)
  }

  // ── The tables after the upgrade ────────────────────────────────────

  ghost function Winners(o: Old): set<int> {
    o.candidates.Keys - Losers(o)
  }

  ghost function FinalPhrase(o: Old, c: int): Phrase
    requires Legal(o) && c in o.candidates
  {
    DecidedPhrase(o, Winners(o), c)
  }

  /** The card choice at the end: the phrase's decision if it is one, else the note kind. */
  ghost function FinalBinding(o: Old, phraseOf: map<int, int>, now: Time, e: int): Binding
    requires Legal(o) && e in o.exports
  {
    var binding := DecidedBinding(o, phraseOf, Winners(o), now, e);
    var choice := FinalPhrase(o, o.exports[e].candidate).choice;
    binding.(cardChoice := Some(if IsDecision(choice) then choice else binding.noteKind))
  }

  ghost predicate BindingsFinal(
    o: Old, phraseOf: map<int, int>, now: Time, bindings: map<int, Binding>)
    requires Legal(o)
  {
    && (forall e :: e in bindings <==> e in o.exports)
    && forall e | e in bindings :: bindings[e] == FinalBinding(o, phraseOf, now, e)
  }

  /** A table of results keyed by card, keyed by the phrase of the card instead. */
  ghost predicate Rekeyed(table: map<int, string>, cardOf: map<int, int>, byPhrase: map<int, string>) {
    && (forall p :: p in byPhrase <==> p in cardOf && cardOf[p] in table)
    && forall p | p in byPhrase :: byPhrase[p] == table[cardOf[p]]
  }

  // ── Transcriptions: they move from the meanings to the words ────────

  /** A row of the pronunciations: what it held before, nothing in a new row, and the
      transcription it gets. */
  datatype Pronunciation = Pronunciation(sound: Option<string>, ipa: Option<string>)

  /** A card whose meaning has a transcription. */
  ghost predicate HasIpa(o: Old, c: int) {
    c in o.candidates && c in o.ipas && o.ipas[c] != ""
  }

  ghost predicate EndsDecided(o: Old, c: int)
    requires Legal(o) && c in o.candidates
  {
    IsDecision(FinalPhrase(o, c).choice)
  }

  /** Which of two cards comes first in the query: a decision, then the earlier card. */
  ghost predicate IpaBefore(o: Old, c: int, d: int)
    requires Legal(o) && c in o.candidates && d in o.candidates
  {
    if EndsDecided(o, c) != EndsDecided(o, d) then EndsDecided(o, c) else c < d
  }

  /** The card of a word whose transcription the word gets. */
  ghost predicate IsIpaOf(o: Old, w: int, c: int)
    requires Legal(o)
  {
    && HasIpa(o, c) && Winner(o, c) == w
    && forall d | HasIpa(o, d) && Winner(o, d) == w && d != c :: IpaBefore(o, c, d)
  }

  ghost predicate IpaIs(o: Old, w: int, ipa: Option<string>)
    requires Legal(o)
  {
    match ipa
    case None => forall c :: !IsIpaOf(o, w, c)
    case Some(text) => exists c :: IsIpaOf(o, w, c) && o.ipas[c] == text
  }

  function RowOfTable(table: map<int, string>, w: int): Option<string> {
    if w in table then Some(table[w]) else None
  }

  /** The pronunciations left by the merge, with the transcriptions moved to them: a word that
      has a transcription and no row gets a row. */
  ghost predicate IpaMoved(o: Old, sounds: map<int, string>, rows: map<int, Pronunciation>)
    requires Legal(o)
  {
    && (forall w :: w in rows <==> w in sounds || exists c :: IsIpaOf(o, w, c))
    && forall w | w in rows :: rows[w].sound == RowOfTable(sounds, w) && IpaIs(o, w, rows[w].ipa)
  }

  ghost predicate PronunciationsFinal(o: Old, rows: map<int, Pronunciation>)
    requires Legal(o)
  {
    exists sounds ::
      Inherited(o, o.pronunciations, Losers(o), sounds) && IpaMoved(o, sounds, rows)
  }

  /** The tables the upgrade leaves, with `_card_phrase` before it is dropped. */
  datatype Tables = Tables(
    candidates: map<int, Card>, phrases: map<int, Phrase>, cardPhrase: map<int, int>,
    bindings: map<int, Binding>, jobs: map<int, Job>, reports: map<int, Report>,
    pronunciations: map<int, Pronunciation>, images: map<int, string>, breakdowns: set<int>,
    meanings: map<int, string>, media: map<int, string>, tts: map<int, string>,
    clozes: map<int, string>)

  ghost predicate IsUpgrade(o: Old, now: Time, t: Tables, cardOf: map<int, int>)
    requires Legal(o)
  {
    && Numbered(o.candidates.Keys, t.cardPhrase, cardOf)
    && PhrasesDecided(o, cardOf, Winners(o), t.phrases)
    && CandidatesDecided(o, Winners(o), t.candidates)
    && JobsMerged(o, t.cardPhrase, Losers(o), t.jobs)
    && ReportsMerged(o, t.cardPhrase, Losers(o), t.reports)
    && BindingsFinal(o, t.cardPhrase, now, t.bindings)
    && PronunciationsFinal(o, t.pronunciations)
    && Inherited(o, o.images, Losers(o), t.images)
    && t.breakdowns == o.breakdowns - Losers(o)
    && Rekeyed(o.meanings, cardOf, t.meanings) && Rekeyed(o.media, cardOf, t.media)
    && Rekeyed(o.tts, cardOf, t.tts) && Rekeyed(o.clozes, cardOf, t.clozes)
  }
}
