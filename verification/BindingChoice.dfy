/** Revision 0055, by what it makes of the tables: the decisions of a lemma in conflict, the
    bindings they release and the marks that follow. The steps are in BindingChoiceUpgrade. */
module BindingChoice {
  import opened Schema
  import opened Ranking
  import WordMarks

  type KnownPos = WordMarks.KnownPos

  datatype Tables = Tables(
    words: map<int, Word>, phrases: map<int, Phrase>, bindings: map<int, Binding>,
    marks: map<string, Mark>, knownPos: set<KnownPos>)

  // ── Decisions of a lemma ────────────────────────────────────────────

  /** Whether a phrase is a decision card of a lower-case lemma. */
  predicate Decides(t: Tables, folded: string, p: int) {
    && p in t.phrases && IsDecision(t.phrases[p].choice)
    && t.phrases[p].word in t.words
    && Lower(t.words[t.phrases[p].word].spelling) == folded
  }

  predicate IsActiveOf(binding: Binding, p: int) {
    binding.phrase == Some(p) && binding.releasedAt.None?
  }

  predicate IsBound(bindings: map<int, Binding>, p: int) {
    exists e :: e in bindings && IsActiveOf(bindings[e], p)
  }

  function DecisionOf(t: Tables, p: int): Decision
    requires p in t.phrases && t.phrases[p].word in t.words
  {
    var word := t.words[t.phrases[p].word];
    Decision(
      p, t.phrases[p].word, word.pos, t.phrases[p].choice, word.studiedAt, IsBound(t.bindings, p))
  }

  /** The decision that stays: it beats every other of its lemma. */
  ghost predicate Wins(t: Tables, folded: string, p: int) {
    && Decides(t, folded, p)
    && forall q | Decides(t, folded, q) && q != p :: Beats(DecisionOf(t, p), DecisionOf(t, q))
  }

  ghost predicate Loses(t: Tables, folded: string, p: int) {
    Decides(t, folded, p) && !Wins(t, folded, p)
  }

  ghost predicate IsDropped(t: Tables, p: int) {
    exists folded :: Loses(t, folded, p)
  }

  ghost predicate InConflict(t: Tables, folded: string) {
    exists p, q :: p != q && Decides(t, folded, p) && Decides(t, folded, q)
  }

  // ── The tables, once the decisions `d` are dropped ──────────────────

  ghost function DroppedPhrase(t: Tables, d: set<int>, p: int): Phrase
    requires p in t.phrases
  {
    if p in d then t.phrases[p].(choice := Unmarked) else t.phrases[p]
  }

  ghost predicate PhrasesDropped(t: Tables, d: set<int>, phrases: map<int, Phrase>) {
    && (forall p :: p in phrases <==> p in t.phrases)
    && forall p | p in phrases :: phrases[p] == DroppedPhrase(t, d, p)
  }

  ghost predicate LostDecision(t: Tables, d: set<int>, w: int) {
    exists p :: p in d && p in t.phrases && t.phrases[p].word == w
  }

  ghost predicate StillMarked(t: Tables, d: set<int>, w: int) {
    exists p :: p in t.phrases && p !in d && t.phrases[p].word == w && !t.phrases[p].choice.Unmarked?
  }

  /** A word that lost a decision is pending; without a marked card left it was never studied. */
  ghost function DroppedWord(t: Tables, d: set<int>, w: int): Word
    requires w in t.words
  {
    if !LostDecision(t, d, w) then t.words[w]
    else if StillMarked(t, d, w) then t.words[w].(status := Status.Pending)
    else t.words[w].(status := Status.Pending, studiedAt := None)
  }

  ghost predicate WordsDropped(t: Tables, d: set<int>, words: map<int, Word>) {
    && (forall w :: w in words <==> w in t.words)
    && forall w | w in words :: words[w] == DroppedWord(t, d, w)
  }

  ghost function DroppedBinding(t: Tables, now: Time, d: set<int>, e: int): Binding
    requires e in t.bindings
  {
    var binding := t.bindings[e];
    if binding.releasedAt.None? && binding.phrase.Some? && binding.phrase.value in d
    then binding.(releasedAt := Some(now)) else binding
  }

  ghost predicate BindingsDropped(t: Tables, now: Time, d: set<int>, bindings: map<int, Binding>) {
    && (forall e :: e in bindings <==> e in t.bindings)
    && forall e | e in bindings :: bindings[e] == DroppedBinding(t, now, d, e)
  }

  // ── The marks, once they follow the winners ─────────────────────────

  function MarkOf(marks: map<string, Mark>, folded: string): Option<Mark> {
    if folded in marks then Some(marks[folded]) else None
  }

  predicate IsMarked(marks: map<string, Mark>, folded: string, kind: MarkKind) {
    folded in marks && marks[folded].kind == kind
  }

  ghost function PosOf(knownPos: set<KnownPos>, folded: string): iset<Option<string>> {
    iset pos | WordMarks.KnownPos(folded, pos) in knownPos
  }

  /** The mark of a lemma whose conflict a decision won. */
  ghost function MarkAfter(t: Tables, now: Time, folded: string, winner: int): Option<Mark>
    requires winner in t.phrases
  {
    if t.phrases[winner].choice.Known? then
      if IsMarked(t.marks, folded, KnownMark) then Some(t.marks[folded]) else Some(Mark(KnownMark, now))
    else if IsMarked(t.marks, folded, KnownMark) then None
    else MarkOf(t.marks, folded)
  }

  ghost function PosAfter(t: Tables, folded: string, winner: int): iset<Option<string>>
    requires winner in t.phrases && t.phrases[winner].word in t.words
  {
    var was := PosOf(t.knownPos, folded);
    if t.phrases[winner].choice.Known? then
      if IsMarked(t.marks, folded, KnownMark) then was
      else was + iset{t.words[t.phrases[winner].word].pos}
    else if IsMarked(t.marks, folded, KnownMark) then iset{}
    else was
  }

  ghost predicate MarkFollowed(
    t: Tables, now: Time, folded: string, marks: map<string, Mark>, knownPos: set<KnownPos>)
  {
    if InConflict(t, folded) then
      exists p ::
        && Wins(t, folded, p)
        && MarkOf(marks, folded) == MarkAfter(t, now, folded, p)
        && PosOf(knownPos, folded) == PosAfter(t, folded, p)
    else MarkKept(t, folded, marks, knownPos)
  }

  ghost predicate MarkKept(
    t: Tables, folded: string, marks: map<string, Mark>, knownPos: set<KnownPos>)
  {
    MarkOf(marks, folded) == MarkOf(t.marks, folded) && PosOf(knownPos, folded) == PosOf(t.knownPos, folded)
  }

  /** The marks, the lemmas `done` seen. */
  ghost predicate MarksFollowed(
    t: Tables, now: Time, done: set<string>, marks: map<string, Mark>, knownPos: set<KnownPos>)
  {
    forall l: string ::
      if l in done then MarkFollowed(t, now, l, marks, knownPos) else MarkKept(t, l, marks, knownPos)
  }

  /** Only Known marks have parts of speech. */
  ghost predicate PosUnderKnown(marks: map<string, Mark>, knownPos: set<KnownPos>) {
    forall row | row in knownPos :: IsMarked(marks, row.folded, KnownMark)
  }

  // ── After the first pass ────────────────────────────────────────────

  /** Every loser is dropped, and the mark of every lemma in conflict follows. */
  ghost predicate IsResolvedBy(t: Tables, now: Time, d: set<int>, done: set<string>, s: Tables) {
    && (forall p :: p in d <==> IsDropped(t, p))
    && (forall l: string :: InConflict(t, l) ==> l in done)
    && PhrasesDropped(t, d, s.phrases) && WordsDropped(t, d, s.words)
    && BindingsDropped(t, now, d, s.bindings)
    && MarksFollowed(t, now, done, s.marks, s.knownPos)
  }

  ghost predicate IsResolved(t: Tables, now: Time, s: Tables) {
    exists d, done :: IsResolvedBy(t, now, d, done, s)
  }

  /** A line of the log: what was done, to which lemma, and why. */
  datatype LogLine =
    | DecisionConflict(folded: string, kept: int, dropped: int, why: Reason, released: set<int>)
    | KnownRemoved(folded: string, kept: int)
    | KnownAdded(folded: string, kept: int, was: Option<Mark>)
    | UnknownRemoved(folded: string, learned: bool, bound: bool)

  /** Whether a line tells of a change the first pass makes. */
  ghost predicate TellsConflict(t: Tables, line: LogLine) {
    match line
    case DecisionConflict(l, kept, dropped, why, released) =>
      && Wins(t, l, kept) && Loses(t, l, dropped)
      && why == Why(DecisionOf(t, kept), DecisionOf(t, dropped))
      && forall e :: e in released <==> e in t.bindings && IsActiveOf(t.bindings[e], dropped)
    case KnownRemoved(l, kept) =>
      && InConflict(t, l) && Wins(t, l, kept) && !t.phrases[kept].choice.Known?
      && IsMarked(t.marks, l, KnownMark)
    case KnownAdded(l, kept, was) =>
      && InConflict(t, l) && Wins(t, l, kept) && t.phrases[kept].choice.Known?
      && !IsMarked(t.marks, l, KnownMark) && was == MarkOf(t.marks, l)
    case UnknownRemoved(_, _, _) => false
  }

  // ── After the second: "learning" beats Unknown ──────────────────────

  predicate IsLearned(t: Tables, folded: string) {
    exists p :: p in t.phrases && Decides(t, folded, p) && !t.phrases[p].choice.Known?
  }

  predicate HasActiveBinding(t: Tables, folded: string) {
    exists e :: e in t.bindings && t.bindings[e].releasedAt.None? && Lower(t.bindings[e].spelling) == folded
  }

  predicate LosesUnknown(t: Tables, folded: string) {
    IsMarked(t.marks, folded, UnknownMark) && (IsLearned(t, folded) || HasActiveBinding(t, folded))
  }

  ghost predicate TellsUnknown(t: Tables, line: LogLine) {
    && line.UnknownRemoved? && LosesUnknown(t, line.folded)
    && line.learned == IsLearned(t, line.folded) && line.bound == HasActiveBinding(t, line.folded)
  }

  ghost predicate IsUnmarked(t: Tables, s: Tables) {
    && s == t.(marks := s.marks)
    && forall l: string ::
         MarkOf(s.marks, l) == if LosesUnknown(t, l) then None else MarkOf(t.marks, l)
  }

  // ── At the end: the card choice stays on orphans only ───────────────

  function OrphanChoice(binding: Binding): Binding {
    if binding.phrase.Some? then binding.(cardChoice := None) else binding
  }

  function ChoiceOnOrphans(t: Tables): Tables {
    t.(bindings := map e | e in t.bindings :: OrphanChoice(t.bindings[e]))
  }

  ghost predicate IsUpgrade(t: Tables, now: Time, s: Tables) {
    exists resolved, unmarked ::
      IsResolved(t, now, resolved) && IsUnmarked(resolved, unmarked) && s == ChoiceOnOrphans(unmarked)
  }
}
