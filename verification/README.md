# Vocabulary: models and proofs

A Dafny model of the parts of the vocabulary application whose correctness depends on long chains
of steps, and proofs about every input or every run of them:

- **The words, phrases and decisions migrations** (revisions 0049, 0054 and 0055). Revision 0049
  turns cards into words with phrases, merges the cards of one lemma and rebinds every row that
  pointed at a merged card; `MovedTranscriptions` is its loop over the transcriptions of meanings.
  Revision 0054 folds the Known and Unknown lists into one mark per lemma. Revision 0055 leaves
  one decision per lemma across all sources. Each migration is a class whose methods overwrite the
  tables statement by statement (`WordsAndPhrasesUpgrade`, `WordMarks`, `BindingChoiceUpgrade`),
  proved against a closed form of the tables it leaves (`WordsAndPhrases`, `BindingChoice`). The
  laws are proved of the closed forms (`WordsAndPhrasesLaws`, `BindingChoiceLaws`), and of the
  three revisions in a row (`MigrationChain`). `WordsAndPhrasesRows` and `BindingChoiceRows` say
  what every row ends as, in terms of the rows there were and of no closed form.
- **The server launcher** of the macOS application: a re-entrant actor with any number of `start`
  and `stop` calls. `LauncherProtocol` is the transition system, `LauncherActor` the actor with
  its fields, `LauncherRuns` the inductive invariant and the safety of every run, `LauncherEnds`
  that every call returns, and `LauncherOutcomes` that what a start returns is what happened.
- **The question and answer protocol of adding sources**: `SharedQuestions` and `AddSource` are the
  calls, `AddSourceAnswers` is what one input accepts, `AddSourceProtocol` are the calls of any
  client one after another, `AddSourceDrafts` says what becomes of every draft, in the
  `NaturalOrder` of names, and `SourceReaders` are the readers and handlers of this application.
- **The rows a card shows of its layout** (`ShownLayout`, `ShownBlocks`), **the part of speech and
  the progress of text analysis** (`TextAnalysis`), **the spacing of update checks**
  (`UpdateCheck`) and **what a page tells of long operations** (`LongOperation`).

`Schema` holds the values the migrations share, `Sets` a few facts of finite sets, `Orders` the
alphabetical order and the stable sort. `dafny verify dfyconfig.toml` checks the whole project.

## Where the code and its documentation differ

- The key 0049 computes for a phrase (`_target_key`) is documented as the one the analysis gives.
  The two differ exactly when the offset is beyond the phrase's block, or on the separator after a
  line that is not its last: there 0049 says column -1 of the next line (`AgreesWithTheAnalysis`,
  over all lines of a document; `DisagreesOnASeparator` gives such an offset). No word starts
  there, so the keys of phrases with words are those of the analysis (`WordsHaveOneKey`).
- An add promises to ask until nothing is left to ask. The interfaces of readers and handlers allow
  some that break it: an answer to a reader's question may be no option of a handler's question of
  the same id, and the next call then refuses it. `NeverRefusedIff` states exactly when no client
  is ever refused over an input, `NoClientIsRefusedIff` when over an add. The readers and handlers
  of this application keep the promise: their adds end (`SourceReaders.AddsEnd`).
- 0055 marks a lemma Known for the winner of a conflict only, so that every Known decision ends
  with the Known mark if and only if those without a rival had it before (`KnownIsMarkedIff`).
  0049 and 0054 see to that (`HandedIsSound`).
- The observer of long operations is to tell every end once. It tells one twice if and only if the
  end arrives, then an answer that does not say the operation is over, then the end again
  (`ToldTwiceIffReturns`). Answers in the order the server gave them do not do that
  (`EndsAreToldOnce`), late ones may (`LateAnswerTellsTwice`).

## Assumptions

- The old database meets what earlier revisions enforce: child rows have their parent, a card has
  one export record at most, row ids start at 1, and the indexes of a stored target are those of
  words of its phrase, if that has words (`WordsAndPhrases.Legal`).
- Timestamps are integers in the order of their stored text. Lemmas are lower-cased by one
  function, for SQL and for Python; no proof about them uses more than that it is a function.
- Nothing but 0050 to 0053 comes between 0049 and 0054. They leave the modelled columns as they
  are, and `studied_at` empty.
- A step of the launcher is the code between two awaits. Probe answers, exit codes, the ends of
  commands and of sleeps are arbitrary, and come in any order.
- Readers and handlers of inputs are functions: what they ask and read of an input stays the same
  from call to call. That a reader reads by the answers to its own questions only
  (`ReadsByOwnAnswers`) is proved of those of this application.
- The clock of update checks does not go back, and the parse of a document reports parts that do
  not decrease.

## Model

| member | source | states |
|---|---|---|
| OccurrenceKeys.TargetKey | backend/src/backend/alembic/versions/0049_words_and_phrases.py:291-309 | the walk over the lines of a block ends at the place where the first word of the target starts, of all its words the one that starts first; at the phrase's own start without a target or words; also across empty lines and past the last line |
| OccurrenceKeys.WalkKeepsTheOffset | backend/src/backend/alembic/versions/0049_words_and_phrases.py:291-309 | the key flattens back to the offset the target starts at |
| OccurrenceKeys.KeyIsOnALine | backend/src/backend/alembic/versions/0049_words_and_phrases.py:291-309 | the key is a character of its line if and only if the offset is on a character of some line and not on a separator |
| OccurrenceKeys.SameKeyIffSameOffset | backend/src/backend/alembic/versions/0049_words_and_phrases.py:291-309 | two targets of a block have the same key if and only if they start at the same offset, wherever their phrases start |
| OccurrenceKeys.OneKeyOfFirstWord | backend/src/backend/alembic/versions/0049_words_and_phrases.py:291-309 | only one key is where the first word of the target starts |
| OccurrenceKeys.AgreesWithTheAnalysis | backend/src/backend/domain/services/document_layout.py:107-114 | over all lines of a document: the key is the one of the analysis if and only if the offset is in the phrase's block and not on a separator before its last line |
| OccurrenceKeys.WordsHaveOneKey | backend/src/backend/domain/services/document_layout.py:107-114 | a target that starts on a character of its block, as every word does, has one key by both rules |
| OccurrenceKeys.DisagreesOnASeparator | backend/src/backend/domain/services/document_layout.py:107-114 | a document and an offset, at which no word starts, whose two keys differ |
| WordsAndPhrases.RankIsTheTuple | backend/src/backend/alembic/versions/0049_words_and_phrases.py:98-105 | the rank is the order of the five-item tuples, first difference first, and total on cards |
| WordsAndPhrases.Winner | backend/src/backend/alembic/versions/0049_words_and_phrases.py:98-105 | every card has a card of its word that outranks all others of the word |
| WordsAndPhrases.OneWinner | backend/src/backend/alembic/versions/0049_words_and_phrases.py:332-352 | the winner of a word is the same from each of its cards |
| WordsAndPhrasesSteps.PhrasesMerge | backend/src/backend/alembic/versions/0049_words_and_phrases.py:355-363 | the two UPDATEs of phrases take them from the losers merged so far to those and one more |
| WordsAndPhrasesSteps.LoserBequeaths | backend/src/backend/alembic/versions/0049_words_and_phrases.py:369-379 | a loser's row of a per-word table goes to its winner unless the winner has one; then it goes away |
| WordsAndPhrasesSteps.OneCardReleased | backend/src/backend/alembic/versions/0049_words_and_phrases.py:387-431 | one turn of the loop over skipped cards releases its original, marks its examples, and takes the place back unless it is taken |
| WordsAndPhrasesSteps.TakenIffHeld | backend/src/backend/alembic/versions/0049_words_and_phrases.py:420-431 | in the middle of that loop, a place is taken by an analyzer's phrase exactly when the winner's own or an earlier released card's phrase has it |
| WordsAndPhrasesSteps.PhraseDecided | backend/src/backend/alembic/versions/0049_words_and_phrases.py:434-471 | one turn of the loop over winners gives the winner's phrase its choice and no other phrase any |
| WordsAndPhrasesSteps.BindingsOfWordDecided | backend/src/backend/alembic/versions/0049_words_and_phrases.py:448-471 | one turn of that loop releases the word's bindings but that of its Known decision |
| WordsAndPhrasesUpgrade.MaxByRank | backend/src/backend/alembic/versions/0049_words_and_phrases.py:343-347 | the maximum by rank: every other row of the group ranks below it |
| WordsAndPhrasesUpgrade.Groups | backend/src/backend/alembic/versions/0049_words_and_phrases.py:333-342 | cards are grouped by source, lower-case lemma and phrasal flag; each group lists exactly the cards of its word in their order |
| Schema.LowerIs | backend/src/backend/alembic/versions/0049_words_and_phrases.py:333-342 | lower case has the small letter for each capital one of ASCII, and every other character as it is |
| WordsAndPhrasesUpgrade.Database.CreatePhrases | backend/src/backend/alembic/versions/0049_words_and_phrases.py:222-269 | every card gets one phrase of its own, numbered in the order of the cards, as the closed form says; `PhrasesEndAsTheyShould` and `PhrasesAreChosenAsTheyShould` say it of the old cards |
| WordsAndPhrasesUpgrade.Database.FillPhraseIds | backend/src/backend/alembic/versions/0049_words_and_phrases.py:312-326 | jobs about a phrase, reports and export records learn the phrase of their card |
| WordsAndPhrasesUpgrade.Database.RebuildAnkiSyncedCards | backend/src/backend/alembic/versions/0049_words_and_phrases.py:631-683 | every export record becomes an active binding with its card's lemma, phrase and note kind |
| WordsAndPhrasesUpgrade.Database.Merge | backend/src/backend/alembic/versions/0049_words_and_phrases.py:355-381 | merging one loser takes every table, all at once, from the losers merged so far to those and this one |
| WordsAndPhrasesUpgrade.Database.MergeGroup | backend/src/backend/alembic/versions/0049_words_and_phrases.py:332-352 | a group ends with its losers merged into the card that outranks them, and lists those whose decision is dropped |
| WordsAndPhrasesUpgrade.Database.MergeDuplicates | backend/src/backend/alembic/versions/0049_words_and_phrases.py:332-352 | all losers are merged; the winners are returned once each, with the dropped decisions in their order |
| WordsAndPhrasesUpgrade.Database.RowsFollowTheirWord | backend/src/backend/alembic/versions/0049_words_and_phrases.py:700-706 | bindings take the lemma and part of speech of the word they ended in |
| WordsAndPhrasesUpgrade.Database.ReleaseSkippedOriginals | backend/src/backend/alembic/versions/0049_words_and_phrases.py:387-431 | the loop ends with exactly the skipped originals of words with an example released |
| WordsAndPhrasesUpgrade.Database.SetDecisions | backend/src/backend/alembic/versions/0049_words_and_phrases.py:434-471 | the loop ends with every winner's choice, status and bindings set |
| WordsAndPhrasesUpgrade.Database.DecisionChoice | backend/src/backend/alembic/versions/0049_words_and_phrases.py:474-487 | the choice a winner's card gets, by status, export and the lists |
| WordsAndPhrasesUpgrade.Database.Lemmas | backend/src/backend/alembic/versions/0049_words_and_phrases.py:490-494 | the lemmas in Known and not in Unknown |
| WordsAndPhrasesUpgrade.Database.BindingsTakeTheirCardsChoice | backend/src/backend/alembic/versions/0049_words_and_phrases.py:686-697 | a binding's card choice becomes its phrase's decision, or stays the kind it was exported as |
| WordsAndPhrasesUpgrade.Database.Rekey | backend/src/backend/alembic/versions/0049_words_and_phrases.py:574-593 | a table of results keyed by card comes back keyed by the phrase of the card, with the same rows |
| MovedTranscriptions.IpaRows | backend/src/backend/alembic/versions/0049_words_and_phrases.py:502-508 | the rows of the query: every card with a transcription once, under the word it merged into, decision cards first and then by phrase |
| MovedTranscriptions.TakeIpas | backend/src/backend/alembic/versions/0049_words_and_phrases.py:509-531 | the loop takes the first row of each word: it sets the word's transcription, or makes a row for it |
| MovedTranscriptions.RowsTakenAreMoved | backend/src/backend/alembic/versions/0049_words_and_phrases.py:500-531 | the first rows of the words are those of the cards that come first among the word's cards |
| WordsAndPhrasesUpgrade.Database.MoveIpa | backend/src/backend/alembic/versions/0049_words_and_phrases.py:500-531 | query and loop leave the closed form of the pronunciations, and nothing else changes |
| WordsAndPhrasesUpgrade.Database.Upgrade | backend/src/backend/alembic/versions/0049_words_and_phrases.py:108-132 | the whole upgrade, on any legal old database, ends in the closed form of every table of the model |
| WordsAndPhrasesLaws.PhrasesAreTheCards | backend/src/backend/alembic/versions/0049_words_and_phrases.py:222-269 | phrases are in bijection with the old cards; each keeps its card's text and belongs to the word its card merged into |
| WordsAndPhrasesLaws.RowsFollowTheirCard | backend/src/backend/alembic/versions/0049_words_and_phrases.py:364-368 | every job, report and export record survives, bound to its group's winner and its own card's phrase; no other row appears |
| WordsAndPhrasesLaws.ResultsFollowTheirCard | backend/src/backend/alembic/versions/0049_words_and_phrases.py:534-571 | no result of a card is lost or changes hands |
| WordsAndPhrasesLaws.OneRowPerWord | backend/src/backend/alembic/versions/0049_words_and_phrases.py:369-379 | a word has a picture, and what sounds the merge leaves, if and only if a card of its group had one: its own, else the first merged card's |
| WordsAndPhrasesLaws.PronunciationOfWord | backend/src/backend/alembic/versions/0049_words_and_phrases.py:500-531 | a word ends with one row of pronunciation if and only if a card of its group had a sound or a transcription; it has the sound the merge left, and a transcription if and only if a card of its group had one |
| WordsAndPhrasesLaws.TranscriptionOfWord | backend/src/backend/alembic/versions/0049_words_and_phrases.py:502-512 | the transcription is that of the decision's card if it has one, else of the card whose phrase has the lowest id |
| WordsAndPhrasesLaws.NoRowDangles | backend/src/backend/alembic/versions/0049_words_and_phrases.py:355-381 | no row of any table points at a merged word or a missing phrase |
| WordsAndPhrasesLaws.WordsAreUnique | backend/src/backend/alembic/versions/0049_words_and_phrases.py:722-725 | source, lower-case lemma and phrasal flag are unique among words, and every card's are still there |
| WordsAndPhrasesLaws.PlacesAreUnique | backend/src/backend/alembic/versions/0049_words_and_phrases.py:714-717 | no two analyzer's phrases of a word have one place, although released merged phrases become the analyzer's again; each has a place |
| WordsAndPhrasesLaws.PlacesAreTakenBack | backend/src/backend/alembic/versions/0049_words_and_phrases.py:420-431 | the place of every released original is held by exactly one analyzer's phrase of its word |
| WordsAndPhrasesLaws.ActiveBindingsAreUnique | backend/src/backend/alembic/versions/0049_words_and_phrases.py:631-683 | a phrase has one binding at most |
| WordsAndPhrasesLaws.EveryWordIsShown | backend/src/backend/alembic/versions/0049_words_and_phrases.py:387-431 | hiding originals leaves every word a shown phrase and never hides a decision |
| WordsAndPhrasesLaws.ExamplesReplaceTheHidden | backend/src/backend/alembic/versions/0049_words_and_phrases.py:387-431 | a phrase replaces the selection if and only if it is an example whose word has a hidden original |
| WordsAndPhrasesLaws.OneDecisionPerWord | backend/src/backend/alembic/versions/0049_words_and_phrases.py:718-721 | a word has one decision at most, on its winner's card; its status is that decision's, and pending without one |
| WordsAndPhrasesLaws.WhichCardsDecide | backend/src/backend/alembic/versions/0049_words_and_phrases.py:474-487 | which cards end Known, Learn or Cloze, as an equivalence on what the old cards, exports, cloze markup and lists were |
| WordsAndPhrasesLaws.KnownIsListed | backend/src/backend/alembic/versions/0049_words_and_phrases.py:474-487 | Known is chosen only for lemmas in Known and not in Unknown |
| WordsAndPhrasesLaws.ActiveBindingsAreKnown | backend/src/backend/alembic/versions/0049_words_and_phrases.py:448-471 | a binding stays active if and only if its card won its word, had a decision, and its lemma is in Known and not in Unknown; it is then on the word's Known decision |
| WordsAndPhrasesRows.MergedIfAlike | backend/src/backend/alembic/versions/0049_words_and_phrases.py:332-352 | cards end in one word if and only if they have one source, one lemma in lower case, and are both phrasal verbs or neither |
| WordsAndPhrasesRows.WordsGoFirst | backend/src/backend/alembic/versions/0049_words_and_phrases.py:98-105 | the word a card ends in goes before every other card of its lemma: exported, exported later, decided, Known, newer |
| WordsAndPhrasesRows.WordsKeepTheirRows | backend/src/backend/alembic/versions/0049_words_and_phrases.py:434-471 | a word keeps the row of its card, with the status of its decision |
| WordsAndPhrasesRows.PhrasesEndAsTheyShould | backend/src/backend/alembic/versions/0049_words_and_phrases.py:222-277 | every phrase ends with its card's text, and shown, of the origin and at the place that the role of the source, the position and the status of the old cards say |
| WordsAndPhrasesRows.PhrasesAreChosenAsTheyShould | backend/src/backend/alembic/versions/0049_words_and_phrases.py:474-487 | every phrase ends Known, Learn, Cloze or skipped exactly when status, export, cloze markup and lists say so; a skip stays, but for an original beside an example of its lemma |
| WordsAndPhrasesRows.JobsAre | backend/src/backend/alembic/versions/0049_words_and_phrases.py:312-326 | every job of a card ends about the card's word, and if it is a polish, meaning, media or speech job about the card's phrase |
| WordsAndPhrasesRows.ReportsAre | backend/src/backend/alembic/versions/0049_words_and_phrases.py:364-368 | every report ends about its card's word and phrase |
| WordsAndPhrasesRows.BindingsAre | backend/src/backend/alembic/versions/0049_words_and_phrases.py:631-706 | every column of every binding: word, phrase, note, lemma, part of speech, kind, card choice, and released unless its phrase ends Known |
| WordsAndPhrasesRows.ImagesAre | backend/src/backend/alembic/versions/0049_words_and_phrases.py:369-381 | a word keeps its picture, else that of the first card of its lemma to have one; breakdowns stay with the words that had them |
| WordsAndPhrasesRows.ResultsAre | backend/src/backend/alembic/versions/0049_words_and_phrases.py:534-593 | meanings, media, speech and clozes of a card end with its phrase |
| WordsAndPhrasesRows.PronunciationsAre | backend/src/backend/alembic/versions/0049_words_and_phrases.py:500-531 | whether a word has a pronunciation, with which sound and which transcription, in terms of the old rows |
| WordMarks.LemmaRows.SeeKnown | backend/src/backend/alembic/versions/0054_word_marks.py:48-51 | the state after one more Known row |
| WordMarks.LemmaRows.SeeUnknown | backend/src/backend/alembic/versions/0054_word_marks.py:53-55 | the state after one more Unknown row |
| WordMarks.ReadLemmas | backend/src/backend/alembic/versions/0054_word_marks.py:119-129 | the loops over both lists leave, for every lower-case lemma with a row and no other, what its rows fold to |
| WordMarks.FoldSaysTheLists | backend/src/backend/alembic/versions/0054_word_marks.py:39-55 | what the rows fold to are the newest times of each list and exactly the parts of speech of the Known rows |
| WordMarks.Resolve | backend/src/backend/alembic/versions/0054_word_marks.py:132-155 | the mark, its parts of speech and the lines of the log follow from what was folded |
| WordMarks.Upgrade | backend/src/backend/alembic/versions/0054_word_marks.py:65-111 | one mark for every lower-case lemma of either list, and none for others, as the lists declare it; the log has exactly their lines |
| WordMarks.SameRowsSameMarks | backend/src/backend/alembic/versions/0054_word_marks.py:119-155 | the same rows in any order, and however often, give the same marks and parts of speech |
| WordMarks.KnownIffNewer | backend/src/backend/alembic/versions/0054_word_marks.py:132-143 | a lemma ends Known if and only if a Known row is newer than all its Unknown rows; the mark is exactly as old as its newest row |
| WordMarks.PosOfMarks | backend/src/backend/alembic/versions/0054_word_marks.py:146-155 | only Known marks have parts of speech, each has one at least, any part stands alone, and the others are exactly those of the Known rows |
| WordMarks.LogTellsTheRows | backend/src/backend/alembic/versions/0054_word_marks.py:132-155 | the lines of the log, in terms of the rows of both lists |
| Ranking.Ranked | backend/src/backend/alembic/versions/0055_binding_choice_fact.py:112-117 | the three sorts in place leave the same decisions, each ahead of all it beats by the rule |
| Orders.StableSortRefines | backend/src/backend/alembic/versions/0055_binding_choice_fact.py:112-117 | a stable sort by a key keeps the order of equal keys, and the elements |
| Ranking.RankedByTheRule | backend/src/backend/alembic/versions/0055_binding_choice_fact.py:112-117 | the three stable sorts are one sort: bound first, then studied later with never studied last, then the lower id |
| Ranking.RankedInAnyOrder | backend/src/backend/alembic/versions/0055_binding_choice_fact.py:112-117 | every permutation of the rows ranks the same |
| Ranking.HeadBeatsAll | backend/src/backend/alembic/versions/0055_binding_choice_fact.py:99-99 | the head of the ranking beats every other decision by the rule |
| Ranking.WhyNamesTheKey | backend/src/backend/alembic/versions/0055_binding_choice_fact.py:120-125 | the reason logged is the first key by which winner and loser differ, and the winner is ahead by it |
| BindingChoiceUpgrade.Database.ReadDecisions | backend/src/backend/alembic/versions/0055_binding_choice_fact.py:84-95 | the decisions of every lower-case lemma, each once, with whether it has an active binding, and of no other |
| BindingChoiceUpgrade.Database.Drop | backend/src/backend/alembic/versions/0055_binding_choice_fact.py:128-143 | dropping one decision takes phrases and words from those dropped so far to those and this one |
| BindingChoiceUpgrade.Database.Release | backend/src/backend/alembic/versions/0055_binding_choice_fact.py:146-157 | the ids returned are exactly the active bindings of the decision, and only these are released |
| BindingChoiceUpgrade.Database.MarkFollows | backend/src/backend/alembic/versions/0055_binding_choice_fact.py:160-189 | the lemma's mark and parts of speech follow the winner, no other lemma's change, and the log says what was done |
| BindingChoiceUpgrade.Database.DropLosers | backend/src/backend/alembic/versions/0055_binding_choice_fact.py:100-108 | exactly the losers of the lemma are dropped, with one line each |
| BindingChoiceUpgrade.Database.OneDecisionPerLemma | backend/src/backend/alembic/versions/0055_binding_choice_fact.py:83-109 | the first pass ends with every loser of every lemma dropped and every conflict's mark following; the log tells exactly that |
| BindingChoiceUpgrade.Database.LearnBeatsUnknown | backend/src/backend/alembic/versions/0055_binding_choice_fact.py:192-206 | exactly the Unknown marks beside a Learn or Cloze decision or an active binding go, and the log gives the reasons |
| BindingChoiceUpgrade.Database.ChoiceOnlyOnOrphans | backend/src/backend/alembic/versions/0055_binding_choice_fact.py:225-260 | the card choice stays on bindings without a phrase only |
| BindingChoiceUpgrade.Database.Upgrade | backend/src/backend/alembic/versions/0055_binding_choice_fact.py:64-71 | the whole upgrade ends in the closed form of every table, and the log has exactly the lines of what changed |
| BindingChoiceLaws.OneDecisionPerLemma | backend/src/backend/alembic/versions/0055_binding_choice_fact.py:83-109 | every lemma that had a decision keeps exactly one, unchanged: the one that beats the others |
| BindingChoiceLaws.WinnersAreKept | backend/src/backend/alembic/versions/0055_binding_choice_fact.py:128-157 | the word of the decision kept, its status and its bindings are as they were |
| BindingChoiceLaws.StatusStillFollows | backend/src/backend/alembic/versions/0055_binding_choice_fact.py:128-143 | every word's status is still that of its decision, and pending without one |
| BindingChoiceLaws.StudiedAtIsForgotten | backend/src/backend/alembic/versions/0055_binding_choice_fact.py:128-143 | a word forgets when it was studied if and only if it lost its decision and has no marked card left |
| BindingChoiceLaws.ActiveStayOnDecisions | backend/src/backend/alembic/versions/0055_binding_choice_fact.py:146-157 | active bindings with a card stay on decision cards, one a card; released ones stay released, orphans stay as they are |
| BindingChoiceLaws.ConflictsSettleMarks | backend/src/backend/alembic/versions/0055_binding_choice_fact.py:160-189 | a conflict leaves its lemma Known with a part of speech if a Known decision won, and no mark at all if a Learn or Cloze did |
| BindingChoiceLaws.PosStaysUnderKnown | backend/src/backend/alembic/versions/0055_binding_choice_fact.py:160-206 | parts of speech stay under Known marks, and every Known mark keeps one |
| BindingChoiceLaws.KnownIsMarkedIff | backend/src/backend/alembic/versions/0055_binding_choice_fact.py:160-189 | every Known decision ends with the Known mark if and only if those without a rival had it before |
| BindingChoiceLaws.UnknownIsFree | backend/src/backend/alembic/versions/0055_binding_choice_fact.py:192-206 | no lemma left Unknown has a Learn or Cloze decision or an active binding |
| BindingChoiceLaws.UpgradeTwiceIsOnce | backend/src/backend/alembic/versions/0055_binding_choice_fact.py:64-71 | running the upgrade again, at any time, changes nothing |
| BindingChoiceRows.OneStays | backend/src/backend/alembic/versions/0055_binding_choice_fact.py:83-109 | every lemma with decisions keeps exactly one of them |
| BindingChoiceRows.KeptByTheRule | backend/src/backend/alembic/versions/0055_binding_choice_fact.py:112-117 | it is actively bound if any was; of those bound as it is, none was studied later, and of those studied at the same time it has the lowest id |
| BindingChoiceRows.PhrasesAre | backend/src/backend/alembic/versions/0055_binding_choice_fact.py:128-143 | a phrase loses its choice if its lemma keeps another decision; nothing else of it changes |
| BindingChoiceRows.WordsAre | backend/src/backend/alembic/versions/0055_binding_choice_fact.py:128-143 | a word that loses a decision is pending, and never studied unless a card of it is still marked; nothing else changes |
| BindingChoiceRows.BindingsAre | backend/src/backend/alembic/versions/0055_binding_choice_fact.py:146-157 | every column of every binding: released with its decision, without card choice if it has a phrase |
| BindingChoiceRows.MarksOfConflictsAre | backend/src/backend/alembic/versions/0055_binding_choice_fact.py:160-189 | the mark of a lemma in conflict: Known as it was or anew, or none, as the decision kept says |
| BindingChoiceRows.PartsOfConflictsAre | backend/src/backend/alembic/versions/0055_binding_choice_fact.py:160-189 | its parts of speech, with that of the word of a decision newly Known |
| BindingChoiceRows.MarksOfOthersAre | backend/src/backend/alembic/versions/0055_binding_choice_fact.py:192-206 | any other lemma keeps its mark and parts, but for Unknown beside a decision to learn or an active binding |
| BindingChoiceRows.ConflictLinesTell | backend/src/backend/alembic/versions/0055_binding_choice_fact.py:100-108 | the log has a line for each decision dropped, with the one kept, the reason and the bindings released |
| BindingChoiceRows.KnownLinesTell | backend/src/backend/alembic/versions/0055_binding_choice_fact.py:160-189 | and one for each Known mark taken away or added |
| MigrationChain.HandedIsSound | backend/src/backend/alembic/versions/0054_word_marks.py:132-155 | 0049 and 0054 establish, on any legal old database, everything 0055 relies on and does not check |
| MigrationChain.SoundIsSettled | backend/src/backend/alembic/versions/0055_binding_choice_fact.py:83-206 | on such tables 0055 settles every lemma and keeps them such |
| MigrationChain.ChainSettlesEveryLemma | backend/src/backend/alembic/versions/0055_binding_choice_fact.py:83-206 | after the chain, each lemma has at most one decision across all sources, every Known decision the Known mark, every active binding is on a Known decision of its word, and an Unknown lemma has neither decision nor active binding |
| MigrationChain.SettledRows | backend/src/backend/alembic/versions/0055_binding_choice_fact.py:83-206 | the same in terms of the rows |
| MigrationChain.WordsOfTheChain | backend/src/backend/alembic/versions/0049_words_and_phrases.py:108-132 | the words left are old cards with their lemma and part of speech |
| MigrationChain.Upgrade | backend/src/backend/alembic/versions/0049_words_and_phrases.py:108-132 | the three upgrades run one after another on any legal old database end so |
| LauncherActor.ServerLauncher.constructor | frontends/macos/Sources/LauncherCore/ServerLauncher.swift:42-56 | a new launcher owns nothing and has no task |
| LauncherActor.ServerLauncher.Start | frontends/macos/Sources/LauncherCore/ServerLauncher.swift:61-65 | a call of start up to its await is a step of the protocol and keeps the invariant |
| LauncherActor.ServerLauncher.StartReturn | frontends/macos/Sources/LauncherCore/ServerLauncher.swift:66-69 | a call resumed returns its task's outcome; only the creator clears the field |
| LauncherActor.ServerLauncher.Stop | frontends/macos/Sources/LauncherCore/ServerLauncher.swift:71-76 | a call of stop up to its await makes the one stop task, or joins it |
| LauncherActor.ServerLauncher.StopReturn | frontends/macos/Sources/LauncherCore/ServerLauncher.swift:71-76 | when a stop returns, the launcher owns nothing |
| LauncherActor.ServerLauncher.ProbeAnswer | frontends/macos/Sources/LauncherCore/ServerLauncher.swift:78-85 | what the first probe's answer makes of ownership and the task |
| LauncherActor.ServerLauncher.UpReturn | frontends/macos/Sources/LauncherCore/ServerLauncher.swift:85-88 | a failed make up ends the start with its exit code and output, a successful one enters the polling loop |
| LauncherActor.ServerLauncher.NextPoll | frontends/macos/Sources/LauncherCore/ServerLauncher.swift:90-94 | the polling loop from an attempt to its next probe: attempts left are passed over once a stop is asked for |
| LauncherActor.ServerLauncher.PollAnswer | frontends/macos/Sources/LauncherCore/ServerLauncher.swift:91-92 | a poll's answer ends the start or goes to sleep |
| LauncherActor.ServerLauncher.SleepEnd | frontends/macos/Sources/LauncherCore/ServerLauncher.swift:90-94 | the end of a sleep goes to the next attempt |
| LauncherActor.ServerLauncher.StopBegin | frontends/macos/Sources/LauncherCore/ServerLauncher.swift:97-101 | the stop task waits for the start in flight, if any |
| LauncherActor.ServerLauncher.StopWake | frontends/macos/Sources/LauncherCore/ServerLauncher.swift:97-101 | past its wait, the stop task gives up what is owned and begins make down, or ends |
| LauncherRuns.InvariantStays | frontends/macos/Sources/LauncherCore/ServerLauncher.swift:61-102 | every step of every interleaving keeps the invariant of tasks, calls, ownership and history |
| LauncherRuns.EveryRunKeepsIt | frontends/macos/Sources/LauncherCore/ServerLauncher.swift:61-102 | the invariant holds in every reachable state |
| LauncherRuns.CommandsNeverOverlap | frontends/macos/Sources/LauncherCore/ServerLauncher.swift:61-102 | at most one make up is in flight, and none when another make up or make down begins or while make down runs |
| LauncherRuns.NoUpAfterTheWait | frontends/macos/Sources/LauncherCore/ServerLauncher.swift:97-101 | no make up begins once the stop task is past its wait or make down has begun |
| LauncherRuns.DownOnceAndOnlyOwned | frontends/macos/Sources/LauncherCore/ServerLauncher.swift:97-101 | make down runs at most once, and only after a make up or an adoption of this launcher |
| LauncherRuns.StoppedMeansDown | frontends/macos/Sources/LauncherCore/ServerLauncher.swift:71-102 | when a stop has returned, ownership is given up and every make up ever begun, and every adoption, was followed by a completed make down |
| LauncherRuns.NoPollAfterStop | frontends/macos/Sources/LauncherCore/ServerLauncher.swift:90-94 | no polling probe begins once a stop is asked for |
| LauncherEnds.StartsAreSingleFlight | frontends/macos/Sources/LauncherCore/ServerLauncher.swift:61-69 | a start that finds one in flight returns that one's outcome whatever happens meanwhile; one that finds none returns its own task's; after a stop was asked for, starts are refused |
| LauncherEnds.PollsAreBounded | frontends/macos/Sources/LauncherCore/ServerLauncher.swift:90-94 | a start polls at most `attempts` times, and exactly so often if it gives up without a stop |
| LauncherEnds.SomethingCanHappen | frontends/macos/Sources/LauncherCore/ServerLauncher.swift:61-102 | there is no deadlock: while a call has not returned, some step other than a new call can happen |
| LauncherEnds.EveryCallReturns | frontends/macos/Sources/LauncherCore/ServerLauncher.swift:61-102 | without further calls a run takes a bounded number of steps, and where it can go no further every call has returned |
| LauncherOutcomes.OutcomesAreWhatHappened | frontends/macos/Sources/LauncherCore/ServerLauncher.swift:78-95 | a start is ready if and only if a probe of its found the server up, failed if and only if its make up ended so, with that exit code and output, and without an answer if and only if it is done, make up succeeded and no probe found the server |
| LauncherOutcomes.StartsSayWhatHappened | frontends/macos/Sources/LauncherCore/ServerLauncher.swift:61-69 | a call of start returns what happened to its task, or that the app is quitting after a stop was asked for |
| LauncherOutcomes.HistoryIsTheSteps | frontends/macos/Sources/LauncherCore/ServerLauncher.swift:78-101 | the history of a run has a make up begun, an adoption, an end of a command and a stop exactly where a step is one |
| SharedQuestions.Shared | backend/src/backend/application/use_cases/add_source.py:284-294 | the loop leaves each question once, in the order first asked, with the inputs that ask it in their order, and named while just one does; the inputs listed are a permutation of the originals |
| SharedQuestions.SharedAsksTheSame | backend/src/backend/application/use_cases/add_source.py:284-294 | an input is asked a question by the results if and only if it asked it, and by exactly one of them |
| AddSource.AddSourceUseCase.Execute | backend/src/backend/application/use_cases/add_source.py:126-161 | one call: the first error, the questions still pending, the naming, or the sources, of a batch in the natural order of names; only the last writes |
| AddSourceDrafts.DraftsAreOfAllInputs | backend/src/backend/application/use_cases/add_source.py:145-152 | what a call makes sources of, or asks a naming for, are all drafts of all inputs, each once, those of an input together, the inputs in the natural order of their names, equal names as given |
| AddSourceDrafts.DraftsAreOfTheContent | backend/src/backend/application/use_cases/add_source.py:202-212 | the drafts of an input are made of what its reader reads under its answers, with the title given in place of its own |
| AddSourceDrafts.TitlesAreTheNaming | backend/src/backend/application/use_cases/add_source.py:148-161 | one draft is written under its own title; several ask a naming, and get the title written by hand, else the one the rule makes of their number |
| NaturalOrder.NaturalIsWeakOrder | backend/src/backend/domain/services/natural_order.py:8-13 | the order of names is the order of a key |
| NaturalOrder.NumbersByValue | backend/src/backend/domain/services/natural_order.py:8-13 | of names alike up to a number, the one with the lower number comes first, whatever follows |
| NaturalOrder.NumbersComeFirst | backend/src/backend/domain/services/natural_order.py:8-13 | a name that starts with a number comes before one that does not |
| NaturalOrder.ValuesAreAsWritten | backend/src/backend/domain/services/natural_order.py:8-13 | of numbers without leading zeros the longer is greater, of one length the alphabetically later |
| NaturalOrder.ZeroInFront | backend/src/backend/domain/services/natural_order.py:8-13 | a leading zero does not count |
| NaturalOrder.WithoutNumbers | backend/src/backend/domain/services/natural_order.py:8-13 | names without numbers are in alphabetical order, small and capital letters alike |
| AddSourceAnswers.AcceptedInputIsRead | backend/src/backend/application/use_cases/add_source.py:180-212 | answers that are options of what is asked are never refused: the input is read, asks exactly what is unanswered, or cannot be read |
| AddSourceAnswers.ReadIsAnswered | backend/src/backend/application/use_cases/add_source.py:180-212 | an input is read to its drafts only if everything asked is answered with an option, and nothing else is answered |
| AddSourceAnswers.RefusedForAReason | backend/src/backend/application/use_cases/add_source.py:262-281 | answers are refused only if one is no option of a question of its id, or all is answered and there is an answer to something not asked |
| AddSourceAnswers.NextStage | backend/src/backend/application/use_cases/add_source.py:180-212 | answering what is asked gets an input past its reader's questions, then past all of them |
| AddSourceAnswers.NeverRefusedIff | backend/src/backend/application/use_cases/add_source.py:262-281 | no client, whatever options it picks call after call, is ever refused over an input, if and only if under all full answers to the reader's questions every question asked accepts them, and those then left agree on their options by id |
| AddSourceAnswers.OwnIdsAcceptAll | backend/src/backend/application/use_cases/add_source.py:262-274 | questions that have an id each accept all answers |
| AddSourceProtocol.ReplyAsksThePending | backend/src/backend/application/use_cases/add_source.py:138-144 | a reply asks about an input what the input still asks, no more and no less |
| AddSourceProtocol.QuestionsNameTheirInput | backend/src/backend/application/use_cases/add_source.py:262-294 | a question names its input if and only if there are several and just this one asks it |
| AddSourceProtocol.FirstFailureIsTold | backend/src/backend/application/use_cases/add_source.py:163-178 | a call fails for too many answers, or over the first input that fails, which is named if there are several |
| AddSourceProtocol.RoundGoesOn | backend/src/backend/application/use_cases/add_source.py:180-212 | a round of questions gets every input of an add one stage on, and there is none after the second |
| AddSourceProtocol.StageIsNotBlamed | backend/src/backend/application/use_cases/add_source.py:262-281 | a call at any stage fails for an unreadable input only |
| AddSourceProtocol.ClientCanAnswer | backend/src/backend/application/use_cases/add_source.py:284-294 | whatever is asked can be answered, and about one input as the client likes |
| AddSourceProtocol.AddEnds | backend/src/backend/application/use_cases/add_source.py:126-161 | the calls of any client, one after another: two rounds of answers at most, one naming at most, then the sources; nothing is written before them; only an unreadable input ends the calls otherwise |
| AddSourceProtocol.NoClientIsRefusedIff | backend/src/backend/application/use_cases/add_source.py:126-161 | no client of an add is ever refused if and only if each of its inputs accepts all answers: for an add of one input, and for one whose inputs can all be read; otherwise if they do |
| SourceReaders.ReadersReadByOwnAnswers | backend/src/backend/infrastructure/readers/caching_reader.py:56-65 | a reader reads the same by answers that agree on its own questions |
| SourceReaders.EveryQuestionHasADefault | backend/src/backend/infrastructure/readers/video_file_reader.py:51-67 | the default of every question a reader or handler asks is one of its options |
| SourceReaders.QuestionsHaveOwnIds | backend/src/backend/application/source_intake/book_handler.py:35-55 | no two questions asked about an input share an id, its handler's included |
| SourceReaders.OnlyChoicesAreAsked | backend/src/backend/infrastructure/readers/video_file_reader.py:51-67 | a track is asked for if and only if there are several to choose from, a split if and only if a book has several chapters; every question has two options at least |
| SourceReaders.AddsEnd | backend/src/backend/application/use_cases/add_source.py:126-161 | with the readers and handlers of this application every add ends, and no client is refused |
| ShownLayout.RowOrderParts | frontends/web/src/cardLayout/layoutView.ts:15-16 | row order is the blocks not at the end and then those at the end, each as they come |
| ShownLayout.ShownRows | frontends/web/src/cardLayout/shownLayout.ts:38-52 | the loop with its pending divider leaves exactly the rows a column shows, in order |
| ShownLayout.OneWayToShow | frontends/web/src/cardLayout/shownLayout.ts:38-52 | a column shows its rows in one way only |
| ShownLayout.DividersAreBetween | frontends/web/src/cardLayout/shownLayout.ts:42-51 | a shown divider stands between two shown rows of blocks, none at an edge or doubled, and is the last of the layout between them |
| ShownLayout.NoDividerIsLost | frontends/web/src/cardLayout/shownLayout.ts:42-51 | where two rows of blocks follow one another, the layout had no divider between them |
| ShownLayout.BottomIs | frontends/web/src/cardLayout/shownLayout.ts:53-56 | no row before the one from which everything goes to the bottom holds a bottom block; that row does, or is the divider right above that sticks to it |
| ShownLayout.ShownColumns | frontends/web/src/cardLayout/shownLayout.ts:36-62 | exactly the columns with content are shown, in order, all if empty ones are kept, and the first of a card without any; each with its rows and the row everything goes to the bottom from |
| ShownLayout.VisibleAgain | frontends/web/src/cardLayout/layoutView.ts:15-16 | the blocks of a row, shown again, are the same in the same order |
| ShownBlocks.VisibleIs | frontends/web/src/cardLayout/shownLayout.ts:46-48 | a row shows exactly the elements that draw something, each at its place in the layout |
| ShownBlocks.VisibleIsInOrder | frontends/web/src/cardLayout/layoutView.ts:15-16 | those whose first style is at the end come last; on either side they are in the order of their places |
| ShownBlocks.RowsOfBlocksAreShown | frontends/web/src/cardLayout/shownLayout.ts:46-51 | a row of blocks is shown if and only if an element of it draws something |
| ShownBlocks.HoldsBottomIs | frontends/web/src/cardLayout/shownLayout.ts:53-53 | a row goes to the bottom if the first style of a block of it says so |
| ShownLayout.ShowingAgainChangesNothing | frontends/web/src/cardLayout/shownLayout.ts:36-62 | showing again what is shown gives the same columns, with the same rows and the same row from which everything goes to the bottom |
| TextAnalysis.CollectWords | backend/src/backend/application/use_cases/analyze_text.py:177-195 | exactly the words of tokens the filters keep are collected, each with all its places and at least one |
| TextAnalysis.PlacesAreTokens | backend/src/backend/application/use_cases/analyze_text.py:177-195 | a place is listed under a word if and only if it is a kept token of that word |
| TextAnalysis.PlacesAreInOrder | backend/src/backend/application/use_cases/analyze_text.py:177-195 | the places of a word are in the order of the text |
| TextAnalysis.MostFrequentForm | backend/src/backend/application/use_cases/analyze_text.py:307-313 | the tag is the most frequent and of those the alphabetically first, and so is the part of speech among its occurrences |
| TextAnalysis.FormIsOfTheMost | backend/src/backend/application/use_cases/analyze_text.py:307-313 | no tag is on more occurrences than the form's, and none on as many comes before it; so with the parts of speech of that tag |
| TextAnalysis.OrderDoesNotMatter | backend/src/backend/application/use_cases/analyze_text.py:307-313 | every permutation of the occurrences gives the same form |
| TextAnalysis.TellParse | backend/src/backend/application/use_cases/analyze_text.py:112-112 | the parse's parts are told scaled to its share |
| TextAnalysis.TellCollecting | backend/src/backend/application/use_cases/analyze_text.py:133-139 | each step of collecting tells its share, never less than before |
| TextAnalysis.TellWords | backend/src/backend/application/use_cases/analyze_text.py:140-161 | each word done tells the mean of the shares of words and of occurrences, never less than before |
| TextAnalysis.SharesAre | backend/src/backend/application/use_cases/analyze_text.py:112-139 | the parse has three quarters of the progress, the collecting a twentieth in three steps |
| TextAnalysis.WordsToldAre | backend/src/backend/application/use_cases/analyze_text.py:140-161 | the rest is the mean of the shares of words and of their occurrences, and the last word tells the whole |
| TextAnalysis.Execute | backend/src/backend/application/use_cases/analyze_text.py:106-162 | the progress told never decreases, stays between 0 and 1 and ends at 1, for any words and any split of occurrences among them |
| UpdateCheck.CheckForUpdatesUseCase.Execute | backend/src/backend/application/use_cases/check_for_updates.py:49-69 | an unforced check asks if and only if a day has passed since the last answer and the time to retry has come; so all asks are spaced; the version told is the one answered, else the last known; what is stored is the answer, or when to try again |
| UpdateCheck.CheckForUpdatesUseCase.Remember | backend/src/backend/application/use_cases/check_for_updates.py:97-109 | an answer or a failure is stored unless the storing is refused |
| UpdateCheck.LastKnownIs | backend/src/backend/application/use_cases/check_for_updates.py:88-109 | the last known version is that of the latest stored answer: no failed ask loses it |
| LongOperation.LongOperationObserver.Apply | frontends/web/src/shell/useLongOperation.ts:39-50 | in whatever order answers come, one is told of if and only if it has an end, is not the first of all, and the one before it did not say that operation is over |
| LongOperation.SignalsSayTheEnd | frontends/web/src/shell/useLongOperation.ts:39-50 | which answers are told, and as what: a failure with its kind and error, a reload after a change of level, else an end |
| LongOperation.ToldTwiceIff | frontends/web/src/shell/useLongOperation.ts:39-50 | for every sequence of answers, the end of an operation is told twice if and only if two answers with it each come directly after one that does not say the operation is over |
| LongOperation.ToldTwiceIffReturns | frontends/web/src/shell/useLongOperation.ts:39-50 | for answers of a server that arrive in any order, an end is told twice if and only if it arrives, then an answer that does not say the operation is over, then the end again |
| LongOperation.BetweenEndsIsStray | frontends/web/src/shell/useLongOperation.ts:39-50 | the answer between was given before both answers with the end, or after both |
| LongOperation.EndsAreToldOnce | frontends/web/src/shell/useLongOperation.ts:39-50 | of answers in the server's order, the end of an operation is told once at most |
| LongOperation.EveryEndIsTold | frontends/web/src/shell/useLongOperation.ts:39-50 | it is told by the first answer that has it, also if the operation was never seen running |
| LongOperation.LateAnswerTellsTwice | frontends/web/src/shell/useLongOperation.ts:39-50 | a late answer that the operation runs makes its end be told twice |

## Left out

- WordsAndPhrasesUpgrade.Database.Upgrade: does not turn sources left processing back to new and those in review to done (`_sources_without_processing`): two UPDATEs of a table the model has nothing else of.
- Columns no rule of the migrations reads (`revision`, `created_at` of phrases, texts of results), and the schema work around them: adding and dropping columns, batch rebuilds, indexes as objects.
- The order in which 0054 and 0055 go through the lemmas: the model allows any, and the results do not depend on it.
- BindingChoiceUpgrade.Database.Upgrade: does not write the summary line with its counts; the other lines of the log are values that say what the lines tell, not their text.
- The text of 0054's log lines, in the same way.
- SQL's and Python's lower-casing of letters outside ASCII, which differ: the model has one function for both, and for the case folding of names; decimal digits are those of ASCII.
- LauncherActor.ServerLauncher: a step is one method and the runtime's part, which task or call goes on next, is the choice of the caller of the methods; cancellation of Swift tasks does not occur in the code.
- The tail of the output in the launcher's messages: an outcome holds the output whole.
- AddSource.AddSourceUseCase.Execute: does not tell equal file names apart by folder, and cannot fail once every input is read.
- AddSourceProtocol.NoClientIsRefusedIff: says nothing of the other direction for several inputs of which one cannot be read, because that input can end the calls before another is refused; `NeverRefusedIff` says it of each input alone.
- The detection of a format and the facts shown beside options: a reader is given for every input, and a track or a book brings the text of its option.
- Titles of drafts come with surrounding blanks removed.
- The default collection, heading and rule offered with a naming.
- TextAnalysis.Execute: reals stand for floating point numbers; rounding is not modelled.
- TextAnalysis.CollectWords: takes what the filters say of a token as given; `CandidateFilter`, `WordKnowledge`, `FragmentSelector` and the classifiers are not part of this model.
- `_collect_phrasal_verbs`: the same loop over the matches of a detector that is not part of this model.
- UpdateCheck.CheckForUpdatesUseCase.Execute: does not list the changelog entries between two versions.
- The answers of a page's polling timer and focus events: the observer is given any sequence of answers.
- All other migrations, use cases and screens: no property here depends on them.
