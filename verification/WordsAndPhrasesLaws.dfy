/** What revision 0049 guarantees of the tables it leaves, for every legal old database. */
module WordsAndPhrasesLaws {
  import opened Schema
  import opened WordsAndPhrases
  import opened WordsAndPhrasesSteps
  import Sets

  // ── One phrase ──────────────────────────────────────────────────────

  /** The phrase of a card in the tables. */
  lemma PhraseOfCardIs(o: Old, now: Time, t: Tables, cardOf: map<int, int>, c: int)
    requires Legal(o) && IsUpgrade(o, now, t, cardOf) && c in o.candidates
    ensures c in t.cardPhrase && t.cardPhrase[c] in t.phrases
    ensures t.cardPhrase[c] in cardOf && cardOf[t.cardPhrase[c]] == c
    ensures t.phrases[t.cardPhrase[c]] == FinalPhrase(o, c)
  {
    hide Legal, DecidedPhrase, CandidatesDecided, JobsMerged, ReportsMerged, BindingsFinal, Inherited,
         PronunciationsFinal, Rekeyed;
    var p := t.cardPhrase[c];
    assert p in cardOf;
  }

  lemma CardOfPhraseIs(o: Old, now: Time, t: Tables, cardOf: map<int, int>, p: int)
    requires Legal(o) && IsUpgrade(o, now, t, cardOf) && p in t.phrases
    ensures p in cardOf && cardOf[p] in o.candidates && t.cardPhrase[cardOf[p]] == p
    ensures t.phrases[p] == FinalPhrase(o, cardOf[p])
  {
    hide Legal, DecidedPhrase, CandidatesDecided, JobsMerged, ReportsMerged, BindingsFinal, Inherited,
         PronunciationsFinal, Rekeyed;
  }

  lemma FinalPhraseIs(o: Old, c: int)
    requires Legal(o) && c in o.candidates
    ensures var phrase := FinalPhrase(o, c);
            && phrase.word == Winner(o, c)
            && phrase.text == o.candidates[c].text
            && phrase.key == FirstPhrase(o, c).key
            && (phrase.origin.Auto? ==> phrase.key.Some?)
            && (phrase.origin.Auto? <==> Stands(o, o.candidates.Keys, c))
            && (phrase.origin.Example? <==> FirstPhrase(o, c).origin.Example?)
            && (phrase.shownBy.None? <==> IsReleased(o, c))
            && (IsDecision(phrase.choice) ==>
                  && !IsLoser(o, c) && Decision(o, c) == Some(phrase.choice)
                  && IsDecided(o.candidates[c].status))
            && (!IsLoser(o, c) && Decision(o, c).Some? ==> phrase.choice == Decision(o, c).value)
  {
    hide HasExample, IsHeld, IsWinner, IsListed, Exported;
    PhraseStands(o, o.candidates.Keys, c);
  }

  lemma WinnersAreNoLosers(o: Old, c: int)
    requires c in o.candidates
    ensures IsWinner(o, c) <==> !IsLoser(o, c)
  {
    assert SameWord(o, c, c);
    if IsWinner(o, c) {
      OneWinner(o, c, c);
    }
  }

  // ── Nothing is lost ─────────────────────────────────────────────────

  /** Phrases are in bijection with the old cards; each keeps what its card held of it, and
      belongs to the word its card merged into. */
  lemma PhrasesAreTheCards(o: Old, now: Time, t: Tables, cardOf: map<int, int>)
    requires Legal(o) && IsUpgrade(o, now, t, cardOf)
    ensures t.cardPhrase.Keys == o.candidates.Keys
    ensures forall a, b | a in t.cardPhrase && b in t.cardPhrase ::
              t.cardPhrase[a] == t.cardPhrase[b] ==> a == b
    ensures forall p | p in t.phrases :: exists c :: c in t.cardPhrase && t.cardPhrase[c] == p
    ensures forall c | c in o.candidates ::
              && t.cardPhrase[c] in t.phrases
              && t.phrases[t.cardPhrase[c]].text == o.candidates[c].text
              && t.phrases[t.cardPhrase[c]].word == Winner(o, c)
  {
    hide Legal, PhrasesDecided, CandidatesDecided, JobsMerged, ReportsMerged, BindingsFinal, Inherited,
         PronunciationsFinal, Rekeyed, FinalPhrase, IsWinner;
    forall c | c in o.candidates
      ensures t.cardPhrase[c] in t.phrases
      ensures t.phrases[t.cardPhrase[c]].text == o.candidates[c].text
      ensures t.phrases[t.cardPhrase[c]].word == Winner(o, c)
    {
      PhraseOfCardIs(o, now, t, cardOf, c);
      FinalPhraseIs(o, c);
    }
    forall p | p in t.phrases
      ensures exists c :: c in t.cardPhrase && t.cardPhrase[c] == p
    {
      CardOfPhraseIs(o, now, t, cardOf, p);
    }
  }

  /** Every job, report and export record of a card is there, bound to the card's word and,
      when it is about the phrase, to the card's phrase; no other row appears. */
  lemma RowsFollowTheirCard(o: Old, now: Time, t: Tables, cardOf: map<int, int>)
    requires Legal(o) && IsUpgrade(o, now, t, cardOf)
    ensures forall j :: j in t.jobs <==> j in o.jobs
    ensures forall r :: r in t.reports <==> r in o.reports
    ensures forall e :: e in t.bindings <==> e in o.exports
    ensures forall j | j in o.jobs && o.jobs[j].candidate.Some? ::
              var c := o.jobs[j].candidate.value;
              && t.jobs[j].candidate == Some(Winner(o, c))
              && t.jobs[j].jobType == o.jobs[j].jobType
              && (IsPhraseLevel(o.jobs[j].jobType) ==> t.jobs[j].phrase == Some(t.cardPhrase[c]))
    ensures forall r | r in o.reports && o.reports[r].candidate in o.candidates ::
              var c := o.reports[r].candidate;
              t.reports[r] == Report(Winner(o, c), Some(t.cardPhrase[c]))
    ensures forall e | e in o.exports ::
              var c := o.exports[e].candidate;
              && t.bindings[e].word == Some(Winner(o, c))
              && t.bindings[e].phrase == Some(t.cardPhrase[c])
              && t.bindings[e].note == o.exports[e].note
              && t.bindings[e].spelling == o.candidates[Winner(o, c)].spelling
              && t.bindings[e].pos == o.candidates[Winner(o, c)].pos
              && (t.bindings[e].noteKind == Choice.Cloze <==> c in o.clozes)
  {
    JobsAndReportsFollow(o, now, t, cardOf);
    BindingsFollow(o, now, t, cardOf);
    hide Legal, PhrasesDecided, CandidatesDecided, JobsMerged, ReportsMerged, BindingsFinal, Inherited,
         PronunciationsFinal, Rekeyed, FinalPhrase, IsWinner;
  }

  lemma JobsAndReportsFollow(o: Old, now: Time, t: Tables, cardOf: map<int, int>)
    requires Legal(o) && IsUpgrade(o, now, t, cardOf)
    ensures forall j :: j in t.jobs <==> j in o.jobs
    ensures forall r :: r in t.reports <==> r in o.reports
    ensures forall j | j in t.jobs && j in o.jobs && o.jobs[j].candidate.Some? ::
              var c := o.jobs[j].candidate.value;
              && t.jobs[j].candidate == Some(Winner(o, c))
              && t.jobs[j].jobType == o.jobs[j].jobType
              && (IsPhraseLevel(o.jobs[j].jobType) ==> t.jobs[j].phrase == PhraseOfCard(t.cardPhrase, c))
    ensures forall r | r in t.reports && r in o.reports && o.reports[r].candidate in o.candidates ::
              var c := o.reports[r].candidate;
              t.reports[r] == Report(Winner(o, c), PhraseOfCard(t.cardPhrase, c))
  {
    hide PhrasesDecided, CandidatesDecided, BindingsFinal, Inherited, PronunciationsFinal, Rekeyed, FinalPhrase,
         IsWinner;
    forall c | c in o.candidates {
      WordIsTheWinner(o, c);
    }
  }

  lemma BindingsFollow(o: Old, now: Time, t: Tables, cardOf: map<int, int>)
    requires Legal(o) && IsUpgrade(o, now, t, cardOf)
    ensures forall e :: e in t.bindings <==> e in o.exports
    ensures forall e | e in t.bindings && e in o.exports ::
              var c := o.exports[e].candidate;
              && c in o.candidates
              && t.bindings[e].word == Some(Winner(o, c))
              && t.bindings[e].phrase == PhraseOfCard(t.cardPhrase, c)
              && t.bindings[e].note == o.exports[e].note
              && t.bindings[e].spelling == o.candidates[Winner(o, c)].spelling
              && t.bindings[e].pos == o.candidates[Winner(o, c)].pos
              && (t.bindings[e].noteKind == Choice.Cloze <==> c in o.clozes)
  {
    hide PhrasesDecided, CandidatesDecided, JobsMerged, ReportsMerged, Inherited, PronunciationsFinal, Rekeyed,
         FinalPhrase, IsWinner;
    forall c | c in o.candidates {
      WordIsTheWinner(o, c);
    }
  }

  /** Results of a card are its phrase's: none is lost, none changes hands. */
  lemma ResultsFollowTheirCard(
    o: Old, now: Time, t: Tables, cardOf: map<int, int>, table: map<int, string>,
    byPhrase: map<int, string>)
    requires Legal(o) && IsUpgrade(o, now, t, cardOf)
    requires table.Keys <= o.candidates.Keys && Rekeyed(table, cardOf, byPhrase)
    ensures forall c | c in table ::
              t.cardPhrase[c] in byPhrase && byPhrase[t.cardPhrase[c]] == table[c]
    ensures forall p | p in byPhrase ::
              exists c :: c in table && t.cardPhrase[c] == p
  {
    hide Legal, PhrasesDecided, CandidatesDecided, JobsMerged, ReportsMerged, BindingsFinal, Inherited,
         PronunciationsFinal;
    forall c | c in table
      ensures t.cardPhrase[c] in byPhrase && byPhrase[t.cardPhrase[c]] == table[c]
    {
      var p := t.cardPhrase[c];
      assert p in cardOf && cardOf[p] == c;
    }
    forall p | p in byPhrase
      ensures exists c :: c in table && t.cardPhrase[c] == p
    {
      var c := cardOf[p];
      assert t.cardPhrase[c] == p;
    }
  }

  /** A word has one row of a per-word table exactly when a card of it had one. It is the
      word's own if it had one; else it is that of the first of its cards that had. */
  lemma OneRowPerWord(o: Old, table: map<int, string>, rows: map<int, string>, w: int)
    requires table.Keys <= o.candidates.Keys && Inherited(o, table, Losers(o), rows)
    requires w in o.candidates && !IsLoser(o, w)
    ensures w in rows <==> exists c :: SameWord(o, w, c) && c in table
    ensures w in table ==> rows[w] == table[w]
    ensures w in rows && w !in table ==>
              exists c :: SameWord(o, w, c) && c in table && rows[w] == table[c]
                          && forall d | SameWord(o, w, d) && d in table :: c <= d
  {
    if w in table {
      assert IsHeir(o, table, Losers(o), w, w);
      assert SameWord(o, w, w);
    } else {
      forall c | c in table
        ensures SameWord(o, w, c) <==> Winner(o, c) == w
        ensures Winner(o, c) == w ==> c in Losers(o)
      {
        SameWinnerIffSameWord(o, w, c);
      }
      if c :| SameWord(o, w, c) && c in table {
        var heir := FirstHeir(o, table, Losers(o), w, c);
      }
      if w in rows {
        var d :| IsHeir(o, table, Losers(o), w, d);
      }
    }
  }

  // ── Transcriptions ──────────────────────────────────────────────────

  lemma {:induction false} FirstTranscription(o: Old, cards: set<int>) returns (c: int)
    requires Legal(o) && cards != {} && cards <= o.candidates.Keys
    ensures c in cards && forall d | d in cards && d != c :: IpaBefore(o, c, d)
  {
    hide Legal, EndsDecided;
    c := Sets.SomeElement(cards);
    var first, others := c, cards - {c};
    if others != {} {
      var best := FirstTranscription(o, others);
      if !IpaBefore(o, c, best) {
        c := best;
      }
    }
    forall d | d in cards && d != c
      ensures IpaBefore(o, c, d)
    {
      assert d == first || d in others;
    }
  }

  /** A word with a transcribed card gets the transcription of one. */
  lemma SomeTranscription(o: Old, w: int)
    requires Legal(o) && w in o.candidates && !IsLoser(o, w)
    ensures (exists c :: IsIpaOf(o, w, c)) <==> exists c :: SameWord(o, w, c) && HasIpa(o, c)
  {
    hide Legal, IpaBefore, IsWinner;
    forall c | c in o.candidates
      ensures SameWord(o, w, c) <==> Winner(o, c) == w
    {
      SameWinnerIffSameWord(o, w, c);
    }
    if c :| SameWord(o, w, c) && HasIpa(o, c) {
      var cards := set d | d in o.candidates && HasIpa(o, d) && Winner(o, d) == w;
      assert c in cards;
      var first := FirstTranscription(o, cards);
      assert IsIpaOf(o, w, first);
    }
  }

  ghost predicate IsDecisionCard(t: Tables, c: int) {
    c in t.cardPhrase && t.cardPhrase[c] in t.phrases && IsDecision(t.phrases[t.cardPhrase[c]].choice)
  }

  /** Whether the transcription of a card goes before that of another of its word: it is the
      word's decision, or the other is not and its phrase has the higher id. */
  ghost predicate GoesBefore(t: Tables, c: int, d: int) {
    || IsDecisionCard(t, c)
    || (&& !IsDecisionCard(t, d)
        && c in t.cardPhrase && d in t.cardPhrase && t.cardPhrase[c] < t.cardPhrase[d])
  }

  lemma DecisionCardIs(o: Old, now: Time, t: Tables, cardOf: map<int, int>, c: int)
    requires Legal(o) && IsUpgrade(o, now, t, cardOf) && c in o.candidates
    ensures c in t.cardPhrase && (IsDecisionCard(t, c) <==> EndsDecided(o, c))
    ensures EndsDecided(o, c) ==> !IsLoser(o, c)
  {
    hide Legal, IsUpgrade, FinalPhrase, FirstPhrase, IsWinner, Stands, IsReleased, Decision, IsLoser;
    PhraseOfCardIs(o, now, t, cardOf, c);
    FinalPhraseIs(o, c);
  }

  lemma BeforeIsBefore(o: Old, now: Time, t: Tables, cardOf: map<int, int>, c: int, d: int)
    requires Legal(o) && IsUpgrade(o, now, t, cardOf) && SameWord(o, c, d) && c != d
    ensures GoesBefore(t, c, d) <==> IpaBefore(o, c, d)
  {
    hide Legal, IsUpgrade, EndsDecided, IsDecisionCard, IsWinner;
    DecisionCardIs(o, now, t, cardOf, c);
    DecisionCardIs(o, now, t, cardOf, d);
    SameWinnerIffSameWord(o, c, d);
    PhrasesInOrder(o, now, t, cardOf, c, d);
  }

  lemma PhrasesInOrder(o: Old, now: Time, t: Tables, cardOf: map<int, int>, c: int, d: int)
    requires Legal(o) && IsUpgrade(o, now, t, cardOf) && c in t.cardPhrase && d in t.cardPhrase && c != d
    ensures t.cardPhrase[c] < t.cardPhrase[d] <==> c < d
  {
    hide Legal, PhrasesDecided, CandidatesDecided, JobsMerged, ReportsMerged, BindingsFinal, Inherited,
         PronunciationsFinal, Rekeyed;
  }

  /** The pronunciations as the merge left them. */
  lemma SoundsLeft(o: Old, now: Time, t: Tables, cardOf: map<int, int>) returns (sounds: map<int, string>)
    requires Legal(o) && IsUpgrade(o, now, t, cardOf)
    ensures Inherited(o, o.pronunciations, Losers(o), sounds) && IpaMoved(o, sounds, t.pronunciations)
    ensures o.pronunciations.Keys <= o.candidates.Keys
  {
    hide Numbered, PhrasesDecided, CandidatesDecided, JobsMerged, ReportsMerged, BindingsFinal, Inherited,
         IpaMoved, Rekeyed;
    sounds :| Inherited(o, o.pronunciations, Losers(o), sounds) && IpaMoved(o, sounds, t.pronunciations);
  }

  /** Whether a row holds a word's pronunciation: the sound of a card of the word if any had one,
      the word's own first; and a transcription if and only if a card of the word had one. */
  ghost predicate IsPronunciationOf(o: Old, w: int, row: Pronunciation) {
    && (row.sound.Some? <==> exists c :: SameWord(o, w, c) && c in o.pronunciations)
    && (w in o.pronunciations ==> row.sound == Some(o.pronunciations[w]))
    && (row.ipa.Some? <==> exists c :: SameWord(o, w, c) && HasIpa(o, c))
  }

  /** A word ends with one row of pronunciation or none: with one exactly when a card of it had a
      row or a transcription. */
  lemma PronunciationOfWord(o: Old, now: Time, t: Tables, cardOf: map<int, int>, w: int)
    requires Legal(o) && IsUpgrade(o, now, t, cardOf) && w in t.candidates
    ensures w in t.pronunciations <==>
              exists c :: SameWord(o, w, c) && (c in o.pronunciations || HasIpa(o, c))
    ensures w in t.pronunciations ==> IsPronunciationOf(o, w, t.pronunciations[w])
  {
    WordsAreTheWinners(o, now, t, cardOf);
    var sounds := SoundsLeft(o, now, t, cardOf);
    hide Legal, IsUpgrade, Inherited, SameWord, HasIpa, DecidedCard, IpaMoved;
    OneRowPerWord(o, o.pronunciations, sounds, w);
    SomeTranscription(o, w);
    RowOfWord(o, sounds, t.pronunciations, w);
  }

  lemma RowOfWord(o: Old, sounds: map<int, string>, rows: map<int, Pronunciation>, w: int)
    requires Legal(o) && IpaMoved(o, sounds, rows)
    requires w in sounds <==> exists c :: SameWord(o, w, c) && c in o.pronunciations
    requires w in o.pronunciations && w in sounds ==> sounds[w] == o.pronunciations[w]
    requires w in o.pronunciations ==> w in sounds
    requires (exists c :: IsIpaOf(o, w, c)) <==> exists c :: SameWord(o, w, c) && HasIpa(o, c)
    ensures w in rows <==> exists c :: SameWord(o, w, c) && (c in o.pronunciations || HasIpa(o, c))
    ensures w in rows ==> IsPronunciationOf(o, w, rows[w])
  {
    hide Legal, IsIpaOf, SameWord, HasIpa;
  }

  /** The transcription of a word is its decision's card's, if that has one; else the one of the
      card whose phrase has the lowest id. */
  lemma TranscriptionOfWord(o: Old, now: Time, t: Tables, cardOf: map<int, int>, w: int, c: int)
    requires Legal(o) && IsUpgrade(o, now, t, cardOf) && w in t.candidates
    requires SameWord(o, w, c) && HasIpa(o, c)
    requires forall d | SameWord(o, w, d) && HasIpa(o, d) && d != c :: GoesBefore(t, c, d)
    ensures w in t.pronunciations && t.pronunciations[w].ipa == Some(o.ipas[c])
  {
    WordsAreTheWinners(o, now, t, cardOf);
    var sounds := SoundsLeft(o, now, t, cardOf);
    hide Legal, IsUpgrade, Inherited, DecidedCard, IpaBefore, GoesBefore, IsWinner;
    SameWinnerIffSameWord(o, w, c);
    forall d | HasIpa(o, d) && Winner(o, d) == w && d != c
      ensures IpaBefore(o, c, d)
    {
      SameWinnerIffSameWord(o, w, d);
      BeforeIsBefore(o, now, t, cardOf, c, d);
    }
    assert IsIpaOf(o, w, c);
    OneTranscription(o, w, c);
  }

  lemma OneTranscription(o: Old, w: int, c: int)
    requires Legal(o) && IsIpaOf(o, w, c)
    ensures forall d | IsIpaOf(o, w, d) :: d == c
  {
    hide Legal, EndsDecided;
  }

  // ── No row points at a merged word ──────────────────────────────────

  lemma NoRowDangles(o: Old, now: Time, t: Tables, cardOf: map<int, int>)
    requires Legal(o) && IsUpgrade(o, now, t, cardOf)
    ensures forall p | p in t.phrases :: t.phrases[p].word in t.candidates
    ensures forall j | j in t.jobs ::
              && (t.jobs[j].candidate.Some? ==> t.jobs[j].candidate.value in t.candidates)
              && (t.jobs[j].candidate.Some? && IsPhraseLevel(t.jobs[j].jobType) ==>
                    t.jobs[j].phrase.Some? && t.jobs[j].phrase.value in t.phrases)
    ensures forall r | r in t.reports && o.reports[r].candidate in o.candidates ::
              && t.reports[r].candidate in t.candidates
              && t.reports[r].phrase.Some? && t.reports[r].phrase.value in t.phrases
    ensures forall e | e in t.bindings ::
              && t.bindings[e].word.Some? && t.bindings[e].word.value in t.candidates
              && t.bindings[e].phrase.Some? && t.bindings[e].phrase.value in t.phrases
              && t.phrases[t.bindings[e].phrase.value].word == t.bindings[e].word.value
    ensures forall w | w in t.pronunciations :: w in t.candidates
    ensures forall w | w in t.images :: w in t.candidates
    ensures forall w | w in t.breakdowns :: w in t.candidates
  {
    RowsFollowTheirCard(o, now, t, cardOf);
    PhrasesAreTheCards(o, now, t, cardOf);
    WordsAreTheWinners(o, now, t, cardOf);
    PronunciationsAreOfWords(o, now, t, cardOf);
    forall c | c in o.candidates
      ensures Winner(o, c) in t.candidates
    {
      OneWinner(o, Winner(o, c), Winner(o, c));
    }
    forall p | p in t.phrases
      ensures t.phrases[p].word in t.candidates
    {
      CardOfPhraseIs(o, now, t, cardOf, p);
    }
    forall j | j in t.jobs
      ensures t.jobs[j].candidate.Some? ==> o.jobs[j].candidate.Some?
    {
      JobOf(o, now, t, cardOf, j);
    }
    hide IsUpgrade, FinalPhrase, IsWinner, SameWord, IsLoser;
  }

  lemma JobOf(o: Old, now: Time, t: Tables, cardOf: map<int, int>, j: int)
    requires Legal(o) && IsUpgrade(o, now, t, cardOf) && j in t.jobs
    ensures j in o.jobs && (t.jobs[j].candidate.Some? <==> o.jobs[j].candidate.Some?)
    ensures t.jobs[j].jobType == o.jobs[j].jobType
  {
    hide Legal, PhrasesDecided, CandidatesDecided, ReportsMerged, BindingsFinal, Inherited,
         PronunciationsFinal, Rekeyed;
  }

  lemma WordsAreTheWinners(o: Old, now: Time, t: Tables, cardOf: map<int, int>)
    requires Legal(o) && IsUpgrade(o, now, t, cardOf)
    ensures forall w :: w in t.candidates <==> w in o.candidates && !IsLoser(o, w)
    ensures forall w | w in t.candidates :: t.candidates[w] == DecidedCard(o, Winners(o), w)
    ensures forall w | w in t.images :: w in t.candidates
    ensures forall w | w in t.breakdowns :: w in t.candidates
  {
    hide PhrasesDecided, JobsMerged, ReportsMerged, BindingsFinal, PronunciationsFinal, Rekeyed, IsHeir,
         IsWinner;
  }

  lemma PronunciationsAreOfWords(o: Old, now: Time, t: Tables, cardOf: map<int, int>)
    requires Legal(o) && IsUpgrade(o, now, t, cardOf)
    ensures forall w | w in t.pronunciations :: w in t.candidates
  {
    WordsAreTheWinners(o, now, t, cardOf);
    var sounds := SoundsLeft(o, now, t, cardOf);
    hide Legal, IsUpgrade, IpaBefore, IsWinner, IsHeir, DecidedCard;
    forall w | w in t.pronunciations
      ensures w in o.candidates && !IsLoser(o, w)
    {
      if w !in sounds {
        var c :| IsIpaOf(o, w, c);
        OneWinner(o, w, w);
      }
    }
  }

  // ── The indexes the last step creates ───────────────────────────────

  /** One word of each source, lower-case lemma and phrasal-verb flag; every card's is there. */
  lemma WordsAreUnique(o: Old, now: Time, t: Tables, cardOf: map<int, int>)
    requires Legal(o) && IsUpgrade(o, now, t, cardOf)
    ensures forall a, b | a in t.candidates && b in t.candidates ::
              KeyOfCard(t.candidates[a]) == KeyOfCard(t.candidates[b]) ==> a == b
    ensures forall c | c in o.candidates ::
              exists w :: w in t.candidates && KeyOfCard(t.candidates[w]) == KeyOfCard(o.candidates[c])
  {
    hide IsUpgrade, Legal, IsWinner, StatusOf;
    WordsAreTheWinners(o, now, t, cardOf);
    forall w | w in t.candidates
      ensures KeyOfCard(t.candidates[w]) == KeyOfCard(o.candidates[w])
    {
    }
    hide KeyOfCard, DecidedCard;
    forall a, b | a in t.candidates && b in t.candidates
      ensures KeyOfCard(t.candidates[a]) == KeyOfCard(t.candidates[b]) ==> a == b
    {
      SameWinnerIffSameWord(o, a, b);
    }
    hide IsLoser;
    forall c | c in o.candidates
      ensures exists w :: w in t.candidates && KeyOfCard(t.candidates[w]) == KeyOfCard(o.candidates[c])
    {
      var w := Winner(o, c);
      OneWinner(o, w, w);
      assert w in t.candidates;
    }
  }

  /** Whether two of the analyzer's phrases of a word hold one place of the document. */
  ghost predicate Clash(phrases: map<int, Phrase>, p: int, q: int)
    requires p in phrases && q in phrases
  {
    && p != q
    && phrases[p].word == phrases[q].word
    && phrases[p].origin.Auto? && phrases[q].origin.Auto?
    && phrases[p].key == phrases[q].key
  }

  lemma StandingPhrasesDiffer(o: Old, c: int, d: int)
    requires Legal(o) && SameWord(o, c, d) && c != d
    requires Stands(o, o.candidates.Keys, c) && Stands(o, o.candidates.Keys, d)
    ensures FirstPhrase(o, c).key != FirstPhrase(o, d).key
  {
    hide Legal, FirstPhrase, HasExample;
    SameWinnerIffSameWord(o, c, d);
    if FirstPhrase(o, c).key == FirstPhrase(o, d).key {
      if IsLoser(o, d) && (IsLoser(o, c) ==> c < d) {
        StandingPhraseHolds(o, c, d);
      } else {
        StandingPhraseHolds(o, d, c);
      }
    }
  }

  lemma StandingPhraseHolds(o: Old, c: int, d: int)
    requires Legal(o) && SameWord(o, c, d) && c != d
    requires Stands(o, o.candidates.Keys, c)
    requires IsLoser(o, d) && (IsLoser(o, c) ==> c < d)
    requires FirstPhrase(o, c).key == FirstPhrase(o, d).key
    ensures IsHeld(o, d)
  {
    hide Legal, FirstPhrase, HasExample;
    assert IsWinner(o, Winner(o, c));
    assert Holds(o, c, d);
  }

  /** Turning released originals back to the analyzer's never breaks the unique index over
      (word, block, line, char), and every analyzer's phrase has a place. */
  lemma PlacesAreUnique(o: Old, now: Time, t: Tables, cardOf: map<int, int>)
    requires Legal(o) && IsUpgrade(o, now, t, cardOf)
    ensures forall p, q | p in t.phrases && q in t.phrases :: !Clash(t.phrases, p, q)
    ensures forall p | p in t.phrases && t.phrases[p].origin.Auto? :: t.phrases[p].key.Some?
  {
    forall p | p in t.phrases
      ensures t.phrases[p].origin.Auto? ==> t.phrases[p].key.Some?
    {
      CardOfPhraseIs(o, now, t, cardOf, p);
      FinalPhraseIs(o, cardOf[p]);
    }
    hide Legal, IsUpgrade, FinalPhrase, FirstPhrase, Stands;
    forall p, q | p in t.phrases && q in t.phrases
      ensures !Clash(t.phrases, p, q)
    {
      CardOfPhraseIs(o, now, t, cardOf, p);
      CardOfPhraseIs(o, now, t, cardOf, q);
      FinalPhraseIs(o, cardOf[p]);
      FinalPhraseIs(o, cardOf[q]);
      SameWinnerIffSameWord(o, cardOf[p], cardOf[q]);
      if Clash(t.phrases, p, q) {
        StandingPhrasesDiffer(o, cardOf[p], cardOf[q]);
      }
    }
  }

  /** A released original's place is held by exactly one analyzer's phrase of its word: its
      own, unless another's held it before. */
  lemma PlacesAreTakenBack(o: Old, now: Time, t: Tables, cardOf: map<int, int>, c: int)
    requires Legal(o) && IsUpgrade(o, now, t, cardOf) && IsReleased(o, c)
    ensures exists d :: SameWord(o, c, d) && HasPlaceOf(t, d, c)
    ensures forall d, e | SameWord(o, c, d) && HasPlaceOf(t, d, c) && SameWord(o, c, e) && HasPlaceOf(t, e, c) ::
              d == e
  {
    hide Legal, IsUpgrade, IsReleased, SameWord, HasPlaceOf;
    var d := PlaceIsHeld(o, now, t, cardOf, c);
    forall d, e | SameWord(o, c, d) && HasPlaceOf(t, d, c) && SameWord(o, c, e) && HasPlaceOf(t, e, c)
      ensures d == e
    {
      OneHasThePlace(o, now, t, cardOf, c, d, e);
    }
  }

  lemma PlaceIsHeld(o: Old, now: Time, t: Tables, cardOf: map<int, int>, c: int) returns (d: int)
    requires Legal(o) && IsUpgrade(o, now, t, cardOf) && IsReleased(o, c)
    ensures SameWord(o, c, d) && HasPlaceOf(t, d, c)
  {
    hide Legal, IsUpgrade, FinalPhrase, FirstPhrase, HasExample, IsWinner, Stands;
    d := StandingAt(o, c);
    PhraseOfCardIs(o, now, t, cardOf, c);
    PhraseOfCardIs(o, now, t, cardOf, d);
    FinalPhraseIs(o, c);
    FinalPhraseIs(o, d);
  }

  lemma OneHasThePlace(o: Old, now: Time, t: Tables, cardOf: map<int, int>, c: int, d: int, e: int)
    requires Legal(o) && IsUpgrade(o, now, t, cardOf) && IsReleased(o, c)
    requires SameWord(o, c, d) && HasPlaceOf(t, d, c) && SameWord(o, c, e) && HasPlaceOf(t, e, c)
    ensures d == e
  {
    hide Legal, IsUpgrade, FinalPhrase, FirstPhrase, IsReleased, IsWinner, Stands, Decision;
    PlacesAreUnique(o, now, t, cardOf);
    PhraseOfCardIs(o, now, t, cardOf, d);
    PhraseOfCardIs(o, now, t, cardOf, e);
    FinalPhraseIs(o, d);
    FinalPhraseIs(o, e);
    SameWinnerIffSameWord(o, d, e);
    assert !Clash(t.phrases, t.cardPhrase[d], t.cardPhrase[e]);
  }

  ghost predicate HasPlaceOf(t: Tables, d: int, c: int) {
    && c in t.cardPhrase && t.cardPhrase[c] in t.phrases
    && d in t.cardPhrase && t.cardPhrase[d] in t.phrases
    && t.phrases[t.cardPhrase[d]].origin.Auto?
    && t.phrases[t.cardPhrase[d]].key == t.phrases[t.cardPhrase[c]].key
  }

  lemma StandingAt(o: Old, c: int) returns (d: int)
    requires Legal(o) && IsReleased(o, c)
    ensures SameWord(o, c, d) && Stands(o, o.candidates.Keys, d)
    ensures FirstPhrase(o, d).key == FirstPhrase(o, c).key
  {
    hide Legal, FirstPhrase, HasExample, IsWinner;
    d := c;
    if IsLoser(o, c) && IsHeld(o, c) {
      d := FirstHolder(o, c);
    }
  }

  /** An active binding is its phrase's only one. */
  lemma ActiveBindingsAreUnique(o: Old, now: Time, t: Tables, cardOf: map<int, int>)
    requires Legal(o) && IsUpgrade(o, now, t, cardOf)
    ensures forall e, f | e in t.bindings && f in t.bindings ::
              t.bindings[e].phrase == t.bindings[f].phrase ==> e == f
  {
    RowsFollowTheirCard(o, now, t, cardOf);
    PhrasesAreTheCards(o, now, t, cardOf);
    hide IsUpgrade;
  }

  // ── Shown phrases ───────────────────────────────────────────────────

  /** Hiding skipped originals leaves every word a shown phrase, and never hides a decision. */
  lemma EveryWordIsShown(o: Old, now: Time, t: Tables, cardOf: map<int, int>)
    requires Legal(o) && IsUpgrade(o, now, t, cardOf)
    ensures forall w | w in t.candidates ::
              exists p :: p in t.phrases && t.phrases[p].word == w && t.phrases[p].shownBy.Some?
    ensures forall p | p in t.phrases && IsDecision(t.phrases[p].choice) :: t.phrases[p].shownBy.Some?
  {
    WordsAreTheWinners(o, now, t, cardOf);
    hide Legal, IsUpgrade, FinalPhrase, FirstPhrase, IsWinner, Stands, IsReleased, Decision;
    forall w | w in t.candidates
      ensures exists p :: p in t.phrases && t.phrases[p].word == w && t.phrases[p].shownBy.Some?
    {
      var p := ShownPhrase(o, now, t, cardOf, w);
      assert p in t.phrases && t.phrases[p].word == w && t.phrases[p].shownBy.Some?;
    }
    forall p | p in t.phrases && IsDecision(t.phrases[p].choice)
      ensures t.phrases[p].shownBy.Some?
    {
      DecisionIsShown(o, now, t, cardOf, p);
    }
  }

  /** A shown phrase of a word: its own, or the example its own is hidden for. */
  lemma ShownPhrase(o: Old, now: Time, t: Tables, cardOf: map<int, int>, w: int) returns (p: int)
    requires Legal(o) && IsUpgrade(o, now, t, cardOf) && w in o.candidates && !IsLoser(o, w)
    ensures p in t.phrases && t.phrases[p].word == w && t.phrases[p].shownBy.Some?
  {
    hide Legal, IsUpgrade, FinalPhrase, FirstPhrase, IsWinner, Stands, Decision;
    var c := w;
    if IsReleased(o, w) {
      c :| SameWord(o, w, c) && FirstPhrase(o, c).origin.Example?;
    }
    PhraseOfCardIs(o, now, t, cardOf, c);
    FinalPhraseIs(o, c);
    assert SameWord(o, w, w);
    SameWinnerIffSameWord(o, w, c);
    p := t.cardPhrase[c];
  }

  lemma DecisionIsShown(o: Old, now: Time, t: Tables, cardOf: map<int, int>, p: int)
    requires Legal(o) && IsUpgrade(o, now, t, cardOf)
    requires p in t.phrases && IsDecision(t.phrases[p].choice)
    ensures t.phrases[p].shownBy.Some?
  {
    hide Legal, IsUpgrade, FinalPhrase, FirstPhrase, IsWinner, Stands, Decision, HasExample;
    CardOfPhraseIs(o, now, t, cardOf, p);
    FinalPhraseIs(o, cardOf[p]);
  }

  /** An example replaces the analyzer's selection exactly when an original of its word is hidden
      for it; no other phrase does. */
  lemma ExamplesReplaceTheHidden(o: Old, now: Time, t: Tables, cardOf: map<int, int>, p: int)
    requires Legal(o) && IsUpgrade(o, now, t, cardOf) && p in t.phrases
    ensures t.phrases[p].replacesSelection <==>
              && t.phrases[p].origin.Example?
              && exists q :: q in t.phrases && t.phrases[q].word == t.phrases[p].word
                             && t.phrases[q].shownBy.None?
  {
    hide Legal, IsUpgrade, FinalPhrase, FirstPhrase, IsWinner, Stands, IsReleased, Decision;
    CardOfPhraseIs(o, now, t, cardOf, p);
    var c := cardOf[p];
    FinalPhraseIs(o, c);
    ReplacesIffReleased(o, c);
    HiddenIsReleased(o, now, t, cardOf, c);
  }

  lemma HiddenIsReleased(o: Old, now: Time, t: Tables, cardOf: map<int, int>, c: int)
    requires Legal(o) && IsUpgrade(o, now, t, cardOf) && c in o.candidates
    ensures (exists d :: IsReleased(o, d) && SameWord(o, c, d))
       <==> exists q :: q in t.phrases && t.phrases[q].word == Winner(o, c) && t.phrases[q].shownBy.None?
  {
    hide Legal, IsUpgrade, FinalPhrase, FirstPhrase, IsWinner, Stands, HasExample, SameWord, Decision;
    if d :| IsReleased(o, d) && SameWord(o, c, d) {
      PhraseOfCardIs(o, now, t, cardOf, d);
      FinalPhraseIs(o, d);
      SameWinnerIffSameWord(o, c, d);
      var q := t.cardPhrase[d];
      assert q in t.phrases && t.phrases[q].word == Winner(o, c) && t.phrases[q].shownBy.None?;
    }
    if q :| q in t.phrases && t.phrases[q].word == Winner(o, c) && t.phrases[q].shownBy.None? {
      CardOfPhraseIs(o, now, t, cardOf, q);
      FinalPhraseIs(o, cardOf[q]);
      SameWinnerIffSameWord(o, c, cardOf[q]);
    }
  }

  lemma ReplacesIffReleased(o: Old, c: int)
    requires Legal(o) && c in o.candidates
    ensures FinalPhrase(o, c).replacesSelection <==>
              && FirstPhrase(o, c).origin.Example?
              && exists d :: IsReleased(o, d) && SameWord(o, c, d)
  {
    hide HasExample, IsHeld, IsWinner, SameWord;
  }

  // ── Decisions ───────────────────────────────────────────────────────

  /** A word has at most one decision, on its winner's own card, and its status is the one of
      that decision; without a decision it is pending. */
  lemma OneDecisionPerWord(o: Old, now: Time, t: Tables, cardOf: map<int, int>)
    requires Legal(o) && IsUpgrade(o, now, t, cardOf)
    ensures forall p, q | p in t.phrases && q in t.phrases ::
              (&& IsDecision(t.phrases[p].choice) && IsDecision(t.phrases[q].choice)
               && t.phrases[p].word == t.phrases[q].word)
              ==> p == q
    ensures forall p | p in t.phrases && IsDecision(t.phrases[p].choice) ::
              && t.phrases[p].word == cardOf[p] && t.phrases[p].word in t.candidates
              && t.candidates[t.phrases[p].word].status == StatusOfChoice(t.phrases[p].choice)
    ensures forall w | w in t.candidates ::
              (forall p | p in t.phrases && t.phrases[p].word == w :: !IsDecision(t.phrases[p].choice))
              ==> t.candidates[w].status == Status.Pending
  {
    WordsAreTheWinners(o, now, t, cardOf);
    hide Legal, IsUpgrade, FinalPhrase, FirstPhrase, IsWinner, Decision, Stands;
    forall p | p in t.phrases && IsDecision(t.phrases[p].choice)
      ensures p in cardOf && t.cardPhrase[cardOf[p]] == p
      ensures t.phrases[p].word == cardOf[p] && t.phrases[p].word in t.candidates
      ensures t.candidates[t.phrases[p].word].status == StatusOfChoice(t.phrases[p].choice)
    {
      CardOfPhraseIs(o, now, t, cardOf, p);
      FinalPhraseIs(o, cardOf[p]);
    }
    forall w | w in t.candidates
      ensures (forall p | p in t.phrases && t.phrases[p].word == w :: !IsDecision(t.phrases[p].choice))
              ==> t.candidates[w].status == Status.Pending
    {
      PhraseOfCardIs(o, now, t, cardOf, w);
      FinalPhraseIs(o, w);
      var p := t.cardPhrase[w];
      assert p in t.phrases && t.phrases[p].word == w;
    }
  }

  /** Which cards are decisions, by what they were: those that won their word and were a Known,
      or were exported, while their lemma is in Known and not in Unknown; and those that won it
      as a Learn never exported, which are Cloze exactly when they had cloze markup. */
  ghost predicate IsChoiceOf(o: Old, c: int, choice: Choice)
    requires c in o.candidates
  {
    var status := o.candidates[c].status;
    && (choice.Known? <==>
          && IsWinner(o, c) && IsListed(o, Lower(o.candidates[c].spelling))
          && (status.Known? || (status.Learn? && Exported(o, c))))
    && (choice.Cloze? <==> IsWinner(o, c) && status.Learn? && !Exported(o, c) && c in o.clozes)
    && (choice.Learn? <==> IsWinner(o, c) && status.Learn? && !Exported(o, c) && c !in o.clozes)
    && (choice.Skip? ==> status.Skip?)
  }

  lemma WhichCardsDecide(o: Old, now: Time, t: Tables, cardOf: map<int, int>, c: int)
    requires Legal(o) && IsUpgrade(o, now, t, cardOf) && c in o.candidates
    ensures c in t.cardPhrase && t.cardPhrase[c] in t.phrases
    ensures IsChoiceOf(o, c, t.phrases[t.cardPhrase[c]].choice)
  {
    PhraseOfCardIs(o, now, t, cardOf, c);
    FinalPhraseIs(o, c);
    SkipWasSkip(o, c);
    WinnersAreNoLosers(o, c);
    hide Legal, IsUpgrade, FinalPhrase, FirstPhrase, Stands, IsListed, Exported, Outranks, SameWord, IsLoser,
         IsWinner;
  }

  lemma SkipWasSkip(o: Old, c: int)
    requires Legal(o) && c in o.candidates
    ensures FinalPhrase(o, c).choice.Skip? ==> o.candidates[c].status.Skip?
  {
    hide HasExample, IsHeld, IsWinner, SameWord, IsListed, Exported;
  }

  /** Known is chosen only for lemmas in Known and not in Unknown. */
  lemma KnownIsListed(o: Old, now: Time, t: Tables, cardOf: map<int, int>)
    requires Legal(o) && IsUpgrade(o, now, t, cardOf)
    ensures forall p | p in t.phrases && t.phrases[p].choice == Choice.Known ::
              && t.phrases[p].word in t.candidates
              && IsListed(o, Lower(t.candidates[t.phrases[p].word].spelling))
  {
    WordsAreTheWinners(o, now, t, cardOf);
    hide Legal, IsUpgrade, FinalPhrase, FirstPhrase, IsWinner, Stands, IsListed;
    forall p | p in t.phrases && t.phrases[p].choice == Choice.Known
      ensures t.phrases[p].word in t.candidates
      ensures IsListed(o, Lower(t.candidates[t.phrases[p].word].spelling))
    {
      CardOfPhraseIs(o, now, t, cardOf, p);
      FinalPhraseIs(o, cardOf[p]);
    }
  }

  /** Whether a binding of card `c` is as its card's decision makes it. */
  ghost predicate FollowsDecision(o: Old, now: Time, t: Tables, binding: Binding, c: int)
    requires c in o.candidates
  {
    && (binding.releasedAt.None?
        <==> && Winner(o, c) == c && IsDecided(o.candidates[c].status)
             && IsListed(o, Lower(o.candidates[c].spelling)))
    && (binding.releasedAt.None? ==>
          && binding.phrase.Some? && binding.phrase.value in t.phrases
          && t.phrases[binding.phrase.value].choice == Choice.Known
          && t.phrases[binding.phrase.value].word == c
          && binding.word == Some(c)
          && binding.cardChoice == Some(Choice.Known))
    && (binding.releasedAt.Some? ==> binding.releasedAt == Some(now))
  }

  /** A binding stays active exactly when its card won its word, had a decision, and its lemma
      is in Known and not in Unknown; its phrase is then the word's Known decision. Every
      other binding is released at the migration. */
  lemma ActiveBindingsAreKnown(o: Old, now: Time, t: Tables, cardOf: map<int, int>)
    requires Legal(o) && IsUpgrade(o, now, t, cardOf)
    ensures forall e | e in t.bindings ::
              && e in o.exports && o.exports[e].candidate in o.candidates
              && FollowsDecision(o, now, t, t.bindings[e], o.exports[e].candidate)
  {
    hide Legal, IsUpgrade, FollowsDecision;
    forall e | e in t.bindings
      ensures e in o.exports && o.exports[e].candidate in o.candidates
      ensures FollowsDecision(o, now, t, t.bindings[e], o.exports[e].candidate)
    {
      BindingOf(o, now, t, cardOf, e);
      BindingFollowsDecision(o, now, t, cardOf, e);
    }
  }

  lemma BindingFollowsDecision(o: Old, now: Time, t: Tables, cardOf: map<int, int>, e: int)
    requires Legal(o) && IsUpgrade(o, now, t, cardOf)
    requires e in o.exports && o.exports[e].candidate in o.candidates && e in t.bindings
    ensures FollowsDecision(o, now, t, t.bindings[e], o.exports[e].candidate)
  {
    hide Legal, IsUpgrade, FinalPhrase, FirstPhrase, IsWinner, Stands, IsListed, Exported;
    var c := o.exports[e].candidate;
    BindingOf(o, now, t, cardOf, e);
    PhraseOfCardIs(o, now, t, cardOf, c);
    FinalPhraseIs(o, c);
    WordIsTheWinner(o, c);
    OneWinner(o, Winner(o, c), Winner(o, c));
  }

  lemma BindingOf(o: Old, now: Time, t: Tables, cardOf: map<int, int>, e: int)
    requires Legal(o) && IsUpgrade(o, now, t, cardOf) && e in t.bindings
    ensures e in o.exports && t.bindings[e] == FinalBinding(o, t.cardPhrase, now, e)
    ensures o.exports[e].candidate in o.candidates && Exported(o, o.exports[e].candidate)
  {
    hide PhrasesDecided, CandidatesDecided, JobsMerged, ReportsMerged, Inherited, PronunciationsFinal, Rekeyed;
  }
}
