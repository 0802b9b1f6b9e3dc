/** Revisions 0049, 0054 and 0055 in a row, on any legal old database: what the last one
    leaves holds because of what each one before it left. */
module MigrationChain {
  import opened Schema
  import OldTables = WordsAndPhrases
  import OldLaws = WordsAndPhrasesLaws
  import OldRows = WordsAndPhrasesRows
  import WordsAndPhrasesUpgrade
  import WordMarks
  import opened BindingChoice
  import opened BindingChoiceLaws
  import opened BindingChoiceRows
  import BindingChoiceUpgrade

  type Old = OldTables.Old

  // ── From one revision to the next ───────────────────────────────────

  /** A word as 0051 leaves it: no time of marking was stored before. */
  function WordOf(card: OldTables.Card): Word {
    Word(card.source, card.spelling, card.pos, card.phrasal, card.status, None)
  }

  /** The tables 0055 finds: the cards of 0049 and the marks of 0054. */
  function Handed(t: OldTables.Tables, marks: map<string, Mark>, knownPos: set<KnownPos>): Tables {
    Tables(map w | w in t.candidates :: WordOf(t.candidates[w]), t.phrases, t.bindings, marks, knownPos)
  }

  /** What 0049 and 0054 make of an old database, as 0055 finds it. */
  ghost predicate IsHanded(o: Old, now: Time, h: Tables)
    requires OldTables.Legal(o)
  {
    exists t, cardOf, marks, knownPos ::
      && OldTables.IsUpgrade(o, now, t, cardOf)
      && WordMarks.AreMarks(o.known, o.unknown, marks, knownPos)
      && h == Handed(t, marks, knownPos)
  }

  ghost predicate IsChain(o: Old, now: Time, later: Time, s: Tables)
    requires OldTables.Legal(o)
  {
    exists h :: IsHanded(o, now, h) && IsUpgrade(h, later, s)
  }

  // ── What 0055 relies on ─────────────────────────────────────────────

  /** Whether a binding is on a Known decision card of its own word and lemma. */
  ghost predicate IsOnKnown(t: Tables, binding: Binding) {
    && binding.phrase.Some? && binding.phrase.value in t.phrases
    && var phrase := t.phrases[binding.phrase.value];
    && phrase.choice.Known?
    && binding.word == Some(phrase.word)
    && phrase.word in t.words && t.words[phrase.word].spelling == binding.spelling
  }

  ghost predicate ActiveOnKnown(t: Tables) {
    forall e | e in t.bindings && t.bindings[e].releasedAt.None? :: IsOnKnown(t, t.bindings[e])
  }

  /** Everything 0055 relies on. Its own text checks none of it. */
  ghost predicate IsSound(t: Tables) {
    && Legal(t) && StatusFollows(t) && ActiveOnKnown(t) && ActiveAreUnique(t)
    && PosUnderKnown(t.marks, t.knownPos) && KnownHasPos(t) && KnownIsMarked(t)
  }

  lemma CardsAreSound(o: Old, now: Time, t: OldTables.Tables, cardOf: map<int, int>, h: Tables)
    requires OldTables.Legal(o) && OldTables.IsUpgrade(o, now, t, cardOf)
    requires h.words == map w | w in t.candidates :: WordOf(t.candidates[w])
    requires h.phrases == t.phrases && h.bindings == t.bindings
    ensures Legal(h) && StatusFollows(h)
  {
    hide OldTables.Legal, OldTables.IsUpgrade;
    PhrasesHaveWords(o, now, t, cardOf);
    OldLaws.OneDecisionPerWord(o, now, t, cardOf);
    StatusesFollow(t, h);
  }

  lemma PhrasesHaveWords(o: Old, now: Time, t: OldTables.Tables, cardOf: map<int, int>)
    requires OldTables.Legal(o) && OldTables.IsUpgrade(o, now, t, cardOf)
    ensures forall p | p in t.phrases :: t.phrases[p].word in t.candidates
  {
    hide OldTables.Legal, OldTables.IsUpgrade;
    OldLaws.NoRowDangles(o, now, t, cardOf);
  }

  lemma StatusesFollow(t: OldTables.Tables, h: Tables)
    requires h.words == map w | w in t.candidates :: WordOf(t.candidates[w])
    requires h.phrases == t.phrases
    requires forall p | p in t.phrases && IsDecision(t.phrases[p].choice) ::
               && t.phrases[p].word in t.candidates
               && t.candidates[t.phrases[p].word].status == StatusOfChoice(t.phrases[p].choice)
    requires forall w | w in t.candidates ::
               (forall p | p in t.phrases && t.phrases[p].word == w :: !IsDecision(t.phrases[p].choice))
               ==> t.candidates[w].status == Status.Pending
    ensures StatusFollows(h)
  {
    forall w | w in h.words && !HasDecision(h, w)
      ensures h.words[w].status == Status.Pending
    {
      forall p | p in t.phrases && t.phrases[p].word == w
        ensures !IsDecision(t.phrases[p].choice)
      {
        assert p in h.phrases;
      }
    }
  }

  lemma BindingsAreSound(o: Old, now: Time, t: OldTables.Tables, cardOf: map<int, int>, h: Tables)
    requires OldTables.Legal(o) && OldTables.IsUpgrade(o, now, t, cardOf)
    requires h.words == map w | w in t.candidates :: WordOf(t.candidates[w])
    requires h.phrases == t.phrases && h.bindings == t.bindings
    ensures ActiveOnKnown(h) && ActiveAreUnique(h)
  {
    OldLaws.ActiveBindingsAreUnique(o, now, t, cardOf);
    OldLaws.ActiveBindingsAreKnown(o, now, t, cardOf);
    OldLaws.NoRowDangles(o, now, t, cardOf);
    OldLaws.RowsFollowTheirCard(o, now, t, cardOf);
    OldLaws.WordsAreTheWinners(o, now, t, cardOf);
    hide OldTables.Legal, OldTables.IsUpgrade, OldTables.IsListed, OldTables.IsWinner, OldTables.Decision;
    forall e | e in h.bindings && h.bindings[e].releasedAt.None?
      ensures IsOnKnown(h, h.bindings[e])
    {
      assert OldLaws.FollowsDecision(o, now, t, t.bindings[e], o.exports[e].candidate);
    }
  }

  lemma MarksAreSound(
    o: Old, now: Time, t: OldTables.Tables, cardOf: map<int, int>, h: Tables)
    requires OldTables.Legal(o) && OldTables.IsUpgrade(o, now, t, cardOf)
    requires WordMarks.AreMarks(o.known, o.unknown, h.marks, h.knownPos)
    requires h.words == map w | w in t.candidates :: WordOf(t.candidates[w])
    requires h.phrases == t.phrases
    ensures PosUnderKnown(h.marks, h.knownPos) && KnownHasPos(h) && KnownIsMarked(h)
  {
    WordMarks.PosOfMarks(o.known, o.unknown, h.marks, h.knownPos);
    OldLaws.KnownIsListed(o, now, t, cardOf);
    hide OldTables.Legal, OldTables.IsUpgrade, OldTables.IsListed, WordMarks.AreMarks;
    forall l: string | IsMarked(h.marks, l, KnownMark)
      ensures exists pos :: pos in PosOf(h.knownPos, l)
    {
      var pos :| WordMarks.KnownPos(l, pos) in h.knownPos;
      assert pos in PosOf(h.knownPos, l);
    }
    forall l, p | Decides(h, l, p) && h.phrases[p].choice.Known?
      ensures IsMarked(h.marks, l, KnownMark)
    {
      ListedIsMarked(o, h.marks, h.knownPos, l);
    }
  }

  /** A lemma in Known and not in Unknown is marked Known. */
  lemma ListedIsMarked(o: Old, marks: map<string, Mark>, knownPos: set<KnownPos>, l: string)
    requires WordMarks.AreMarks(o.known, o.unknown, marks, knownPos) && OldTables.IsListed(o, l)
    ensures IsMarked(marks, l, KnownMark)
  {
    WordMarks.KnownIffNewer(o.known, o.unknown, marks, knownPos, l);
    var i :| 0 <= i < |o.known| && Lower(o.known[i].spelling) == l;
    assert WordMarks.InKnown(o.known, l, o.known[i]);
    forall row | row in o.unknown
      ensures Lower(row.spelling) != l
    {
      var j :| 0 <= j < |o.unknown| && o.unknown[j] == row;
    }
  }

  /** 0049 and 0054 establish, on any legal old database, all that 0055 relies on. */
  lemma HandedIsSound(o: Old, now: Time, h: Tables)
    requires OldTables.Legal(o) && IsHanded(o, now, h)
    ensures IsSound(h)
  {
    hide OldTables.Legal, OldTables.IsUpgrade, WordMarks.AreMarks;
    var t, cardOf, marks, knownPos :|
      && OldTables.IsUpgrade(o, now, t, cardOf)
      && WordMarks.AreMarks(o.known, o.unknown, marks, knownPos)
      && h == Handed(t, marks, knownPos);
    CardsAreSound(o, now, t, cardOf, h);
    BindingsAreSound(o, now, t, cardOf, h);
    MarksAreSound(o, now, t, cardOf, h);
  }

  // ── What 0055 leaves ────────────────────────────────────────────────

  /** What the design asks of every lemma: at most one decision across all sources; a Known
      decision has the Known mark; an active binding is on a Known decision; and Unknown has
      neither a decision nor an active binding. */
  ghost predicate EveryLemmaIsSettled(s: Tables) {
    && (forall l, p, q | Decides(s, l, p) && Decides(s, l, q) :: p == q)
    && KnownIsMarked(s) && ActiveOnKnown(s)
    && (forall l: string | IsMarked(s.marks, l, UnknownMark) ::
          !HasActiveBinding(s, l) && forall p :: !Decides(s, l, p))
  }

  lemma ActiveStayOnKnown(t: Tables, now: Time, s: Tables)
    requires IsUpgrade(t, now, s) && ActiveOnKnown(t)
    ensures ActiveOnKnown(s)
  {
    var r, u :| IsResolved(t, now, r) && IsUnmarked(r, u) && s == ChoiceOnOrphans(u);
    ResolvedPhrases(t, now, r);
    hide IsResolved, IsUnmarked, IsDropped;
    forall e | e in s.bindings && s.bindings[e].releasedAt.None?
      ensures IsOnKnown(s, s.bindings[e])
    {
      assert s.bindings[e] == OrphanChoice(r.bindings[e]);
      assert IsOnKnown(t, t.bindings[e]);
    }
  }

  /** On sound tables, 0055 settles every lemma and leaves the tables sound. */
  lemma SoundIsSettled(t: Tables, now: Time, s: Tables)
    requires IsSound(t) && IsUpgrade(t, now, s)
    ensures IsSound(s) && EveryLemmaIsSettled(s)
  {
    StatusStillFollows(t, now, s);
    ActiveStayOnKnown(t, now, s);
    ActiveStayOnDecisions(t, now, s);
    PosStaysUnderKnown(t, now, s);
    KnownIsMarkedIff(t, now, s);
    OneDecisionPerLemma(t, now, s);
    UnknownIsFree(t, now, s);
    hide IsUpgrade, Legal, StatusFollows, ActiveOnKnown, HasActiveBinding, PosUnderKnown, KnownHasPos,
         InConflict, Wins, ActiveAreUnique;
    forall l: string, p | IsMarked(s.marks, l, UnknownMark)
      ensures !Decides(s, l, p)
    {
      assert !IsLearned(s, l);
    }
  }

  /** The chain settles every lemma of any legal old database. */
  lemma ChainSettlesEveryLemma(o: Old, now: Time, later: Time, s: Tables)
    requires OldTables.Legal(o) && IsChain(o, now, later, s)
    ensures IsSound(s) && EveryLemmaIsSettled(s)
  {
    hide OldTables.Legal, IsHanded, IsUpgrade, IsSound, EveryLemmaIsSettled;
    var h :| IsHanded(o, now, h) && IsUpgrade(h, later, s);
    HandedIsSound(o, now, h);
    SoundIsSettled(h, later, s);
  }

  /** The same, of the rows: a lemma has one card at most that is learned, a cloze or known; if it
      is known, the lemma is marked Known; a lemma marked Unknown has no such card and no active
      binding; and an active binding is of a known card, under the lemma of its word. */
  lemma SettledRows(s: Tables, l: string)
    requires EveryLemmaIsSettled(s)
    ensures forall p, q | IsDecisionOf(s, l, p) && IsDecisionOf(s, l, q) :: p == q
    ensures forall p | IsDecisionOf(s, l, p) && s.phrases[p].choice == Choice.Known :: WasKnown(s, l)
    ensures l in s.marks && s.marks[l].kind == UnknownMark ==>
              && (forall p :: !IsDecisionOf(s, l, p))
              && forall e | e in s.bindings && s.bindings[e].releasedAt == None :: Lower(s.bindings[e].spelling) != l
    ensures forall e | e in s.bindings && s.bindings[e].releasedAt == None && Lower(s.bindings[e].spelling) == l ::
              && s.bindings[e].phrase.Some?
              && IsDecisionOf(s, l, s.bindings[e].phrase.value)
              && s.phrases[s.bindings[e].phrase.value].choice == Choice.Known
  {
    forall p
      ensures IsDecisionOf(s, l, p) <==> Decides(s, l, p)
    {
      DecisionIs(s, l, p);
    }
    forall e | e in s.bindings && s.bindings[e].releasedAt == None
      ensures IsOnKnown(s, s.bindings[e])
    {
    }
    if l in s.marks && s.marks[l].kind == UnknownMark {
      assert IsMarked(s.marks, l, UnknownMark);
      assert !HasActiveBinding(s, l) && forall p :: !Decides(s, l, p);
    }
  }

  /** The words the chain leaves are those of the old cards that no card of their lemma outdoes, with
      their lemma and part of speech; nobody has studied them yet. */
  lemma WordsOfTheChain(o: Old, now: Time, later: Time, s: Tables, w: int)
    requires OldTables.Legal(o) && IsChain(o, now, later, s) && w in s.words
    ensures w in o.candidates
    ensures var card := o.candidates[w];
            s.words[w] == Word(card.source, card.spelling, card.pos, card.phrasal, s.words[w].status, None)
  {
    hide OldTables.Legal, OldTables.IsUpgrade, WordMarks.AreMarks, IsUpgrade;
    var h :| IsHanded(o, now, h) && IsUpgrade(h, later, s);
    var t, cardOf, marks, knownPos :|
      && OldTables.IsUpgrade(o, now, t, cardOf)
      && WordMarks.AreMarks(o.known, o.unknown, marks, knownPos)
      && h == Handed(t, marks, knownPos);
    WordsAre(h, later, s, w);
    OldRows.WordsKeepTheirRows(o, now, t, cardOf, w);
    hide LosesDecision;
  }

  // ── The run ─────────────────────────────────────────────────────────

  /** The three upgrades, one after the other. */
  method Upgrade(o: Old, now: Time, later: Time) returns (s: Tables)
    requires OldTables.Legal(o)
    ensures IsChain(o, now, later, s)
    ensures IsSound(s) && EveryLemmaIsSettled(s)
  {
    hide OldTables.Legal, OldTables.IsUpgrade, WordMarks.AreMarks, IsSound, EveryLemmaIsSettled;
    var cards := new WordsAndPhrasesUpgrade.Database(o, now);
    var dropped := cards.Upgrade(now);
    var marks, knownPos, log := WordMarks.Upgrade(o.known, o.unknown);
    var handed := Handed(cards.Result(), marks, knownPos);
    assert IsHanded(o, now, handed);
    assert PosUnderKnown(marks, knownPos) by {
      WordMarks.PosOfMarks(o.known, o.unknown, marks, knownPos);
    }
    var decisions := new BindingChoiceUpgrade.Database(handed, later);
    var lines := decisions.Upgrade(later);
    s := decisions.Value();
    ChainSettlesEveryLemma(o, now, later, s);
  }
}
