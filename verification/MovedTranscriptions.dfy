/** Revision 0049's loop over the transcriptions of meanings: which word gets which. */
module MovedTranscriptions {
  import opened Schema
  import opened WordsAndPhrases
  import opened WordsAndPhrasesSteps
  import Sets

  // ── The rows of the query ───────────────────────────────────────────

  datatype IpaRow = IpaRow(word: int, ipa: string)

  /** The rows of the query, with the cards they come from: every card with a transcription,
      once, decisions first and then by phrase. */
  ghost predicate AreIpaRows(o: Old, rows: seq<IpaRow>, cards: seq<int>)
    requires Legal(o)
  {
    && |rows| == |cards|
    && (forall k | 0 <= k < |cards| ::
          HasIpa(o, cards[k]) && rows[k] == IpaRow(Winner(o, cards[k]), o.ipas[cards[k]]))
    && (forall c | HasIpa(o, c) :: c in cards)
    && (forall j, k | 0 <= j < k < |cards| ::
          cards[j] != cards[k] && IpaBefore(o, cards[j], cards[k]))
  }

  predicate IsFirstOf(rows: seq<IpaRow>, k: nat)
    requires k < |rows|
  {
    forall j | 0 <= j < k :: rows[j].word != rows[k].word
  }

  lemma FirstRowIsTheWords(o: Old, rows: seq<IpaRow>, cards: seq<int>, k: nat)
    requires Legal(o) && AreIpaRows(o, rows, cards) && k < |rows|
    ensures IsFirstOf(rows, k) <==> IsIpaOf(o, rows[k].word, cards[k])
  {
    hide Legal, EndsDecided;
    var w := rows[k].word;
    if IsFirstOf(rows, k) {
      forall d | HasIpa(o, d) && Winner(o, d) == w && d != cards[k]
        ensures IpaBefore(o, cards[k], d)
      {
        var j :| 0 <= j < |cards| && cards[j] == d;
        assert rows[j].word == w;
      }
    }
    if IsIpaOf(o, w, cards[k]) {
      forall j | 0 <= j < k
        ensures rows[j].word != w
      {
        if rows[j].word == w {
          assert false;
        }
      }
    }
  }

  // ── The loop ────────────────────────────────────────────────────────

  predicate IsNamed(rows: seq<IpaRow>, n: nat, w: int)
    requires n <= |rows|
  {
    exists k :: 0 <= k < n && rows[k].word == w
  }

  /** The pronunciations once the first rows are seen: each word's first row gives its
      transcription. */
  ghost predicate IpasTaken(
    sounds: map<int, string>, rows: seq<IpaRow>, n: nat, now: map<int, Pronunciation>)
    requires n <= |rows|
  {
    && (forall w :: w in now <==> w in sounds || IsNamed(rows, n, w))
    && (forall w | w in now :: now[w].sound == RowOfTable(sounds, w))
    && (forall k | 0 <= k < n && IsFirstOf(rows, k) ::
          rows[k].word in now && now[rows[k].word].ipa == Some(rows[k].ipa))
    && (forall w | w in now && !IsNamed(rows, n, w) :: now[w].ipa.None?)
  }

  function TakeIpa(now: map<int, Pronunciation>, row: IpaRow): map<int, Pronunciation> {
    if row.word in now then now[row.word := now[row.word].(ipa := Some(row.ipa))]
    else now[row.word := Pronunciation(None, Some(row.ipa))]
  }

  /** A row more names its word, if no row before did. */
  lemma NamedByMore(rows: seq<IpaRow>, n: nat, w: int)
    requires n < |rows|
    ensures IsNamed(rows, n + 1, w) <==> IsNamed(rows, n, w) || rows[n].word == w
  {
  }

  lemma OneMoreRow(sounds: map<int, string>, rows: seq<IpaRow>, n: nat, now: map<int, Pronunciation>)
    requires n < |rows| && IpasTaken(sounds, rows, n, now)
    ensures IpasTaken(
              sounds, rows, n + 1, if IsFirstOf(rows, n) then TakeIpa(now, rows[n]) else now)
  {
    forall w
      ensures IsNamed(rows, n + 1, w) <==> IsNamed(rows, n, w) || rows[n].word == w
    {
      NamedByMore(rows, n, w);
    }
    if IsFirstOf(rows, n) {
      FirstRowTaken(sounds, rows, n, now);
    } else {
      var j :| 0 <= j < n && rows[j].word == rows[n].word;
      assert IsNamed(rows, n, rows[n].word);
      hide IsNamed, IsFirstOf, TakeIpa;
    }
  }

  lemma FirstRowTaken(sounds: map<int, string>, rows: seq<IpaRow>, n: nat, now: map<int, Pronunciation>)
    requires n < |rows| && IpasTaken(sounds, rows, n, now) && IsFirstOf(rows, n)
    requires forall w :: IsNamed(rows, n + 1, w) <==> IsNamed(rows, n, w) || rows[n].word == w
    ensures IpasTaken(sounds, rows, n + 1, TakeIpa(now, rows[n]))
  {
    var next := TakeIpa(now, rows[n]);
    forall k | 0 <= k < n && IsFirstOf(rows, k)
      ensures rows[k].word in next && next[rows[k].word].ipa == Some(rows[k].ipa)
    {
      assert rows[k].word != rows[n].word;
    }
    assert !IsNamed(rows, n, rows[n].word);
    hide IsNamed, IsFirstOf;
  }

  lemma RowsTakenAreMoved(
    o: Old, sounds: map<int, string>, rows: seq<IpaRow>, cards: seq<int>, now: map<int, Pronunciation>)
    requires Legal(o) && AreIpaRows(o, rows, cards) && IpasTaken(sounds, rows, |rows|, now)
    ensures IpaMoved(o, sounds, now)
  {
    hide Legal, IsIpaOf;
    forall w
      ensures (exists k :: 0 <= k < |rows| && rows[k].word == w) <==> exists c :: IsIpaOf(o, w, c)
      ensures w in now ==> IpaIs(o, w, now[w].ipa)
    {
      WordsRow(o, rows, cards, w);
      if k :| 0 <= k < |rows| && rows[k].word == w && IsFirstOf(rows, k) {
        FirstRowIsTheWords(o, rows, cards, k);
      }
    }
  }

  /** A word has a row exactly when a card of it has a transcription, and then a first one. */
  lemma WordsRow(o: Old, rows: seq<IpaRow>, cards: seq<int>, w: int)
    requires Legal(o) && AreIpaRows(o, rows, cards)
    ensures (exists k :: 0 <= k < |rows| && rows[k].word == w) <==>
              exists k :: 0 <= k < |rows| && rows[k].word == w && IsFirstOf(rows, k)
    ensures (exists k :: 0 <= k < |rows| && rows[k].word == w) <==> exists c :: IsIpaOf(o, w, c)
  {
    hide Legal, IpaBefore;
    if k :| 0 <= k < |rows| && rows[k].word == w {
      var first := FirstOf(rows, k);
      FirstRowIsTheWords(o, rows, cards, first);
    }
    if c :| IsIpaOf(o, w, c) {
      assert c in cards;
      var k :| 0 <= k < |cards| && cards[k] == c;
      assert rows[k].word == w;
    }
  }

  lemma {:induction false} FirstOf(rows: seq<IpaRow>, k: nat) returns (first: nat)
    requires k < |rows|
    ensures first <= k && rows[first].word == rows[k].word && IsFirstOf(rows, first)
  {
    first := k;
    if j :| 0 <= j < k && rows[j].word == rows[k].word {
      first := FirstOf(rows, j);
    }
  }

  // ── The steps ───────────────────────────────────────────────────────

  /** A phrase in the order of the query. */
  predicate PhraseBefore(phrases: map<int, Phrase>, p: int, q: int)
    requires p in phrases && q in phrases
  {
    var x, y := IsDecision(phrases[p].choice), IsDecision(phrases[q].choice);
    if x != y then x else p < q
  }

  /** The phrases whose cards have a transcription, in the order of the query. */
  method PhrasesInOrder(phrases: map<int, Phrase>, named: set<int>) returns (ids: seq<int>)
    requires named <= phrases.Keys
    ensures forall p | p in named :: p in ids
    ensures forall k | 0 <= k < |ids| :: ids[k] in named
    ensures forall j, k | 0 <= j < k < |ids| ::
              ids[j] != ids[k] && ids[j] in phrases && ids[k] in phrases && PhraseBefore(phrases, ids[j], ids[k])
  {
    var decided := set p | p in named && IsDecision(phrases[p].choice);
    var first := Sets.Sorted(decided);
    var second := Sets.Sorted(named - decided);
    ids := first + second;
    assert forall j | 0 <= j < |first| :: first[j] in first;
    assert forall j | 0 <= j < |second| :: second[j] in second;
  }

  /** The card of a phrase, and what the closed forms say of it. */
  lemma CardOfPhrase(o: Old, cardPhrase: map<int, int>, cardOf: map<int, int>, phrases: map<int, Phrase>, p: int)
    requires Legal(o) && Numbered(o.candidates.Keys, cardPhrase, cardOf)
    requires PhrasesDecided(o, cardOf, Winners(o), phrases) && p in phrases
    ensures p in cardOf && cardOf[p] in o.candidates && cardPhrase[cardOf[p]] == p
    ensures phrases[p].word == Winner(o, cardOf[p])
    ensures IsDecision(phrases[p].choice) <==> EndsDecided(o, cardOf[p])
  {
    hide Legal, IsWinner, HasExample, IsHeld, Decision;
    var c := cardOf[p];
    assert phrases[p] == FinalPhrase(o, c);
    WordIsTheWinner(o, c);
    WordOfFinalPhrase(o, c);
  }

  lemma WordOfFinalPhrase(o: Old, c: int)
    requires Legal(o) && c in o.candidates
    ensures FinalPhrase(o, c).word == Winner(o, c)
  {
    hide Legal, IsWinner, HasExample, IsHeld, Decision, IsReleased;
    WordIsTheWinner(o, c);
  }

  /** The transcriptions of the query, by phrase. */
  ghost predicate AreTexts(
    o: Old, cardPhrase: map<int, int>, cardOf: map<int, int>, phrases: map<int, Phrase>,
    texts: map<int, string>)
  {
    && texts.Keys <= phrases.Keys
    && (forall p | p in texts ::
          p in cardOf && HasIpa(o, cardOf[p]) && texts[p] == o.ipas[cardOf[p]])
    && (forall c | HasIpa(o, c) :: c in cardPhrase && cardPhrase[c] in texts)
  }

  method Texts(
    cardPhrase: map<int, int>, ipas: map<int, string>,
    ghost o: Old, ghost cardOf: map<int, int>, ghost phrases: map<int, Phrase>)
    returns (texts: map<int, string>)
    requires Legal(o) && Numbered(o.candidates.Keys, cardPhrase, cardOf) && ipas == o.ipas
    requires PhrasesDecided(o, cardOf, Winners(o), phrases)
    ensures AreTexts(o, cardPhrase, cardOf, phrases, texts)
  {
    hide Legal, DecidedPhrase;
    texts := map c | c in ipas && c in cardPhrase && ipas[c] != "" :: cardPhrase[c] := ipas[c];
  }

  method IpaRows(
    phrases: map<int, Phrase>, cardPhrase: map<int, int>, ipas: map<int, string>,
    ghost o: Old, ghost cardOf: map<int, int>)
    returns (rows: seq<IpaRow>)
    requires Legal(o) && Numbered(o.candidates.Keys, cardPhrase, cardOf) && ipas == o.ipas
    requires PhrasesDecided(o, cardOf, Winners(o), phrases)
    ensures exists cards :: AreIpaRows(o, rows, cards)
  {
    hide Legal, PhrasesDecided, Numbered, AreIpaRows, PhraseBefore;
    var texts := Texts(cardPhrase, ipas, o, cardOf, phrases);
    var ids := PhrasesInOrder(phrases, texts.Keys);
    forall k | 0 <= k < |ids|
      ensures ids[k] in texts && ids[k] in phrases && ids[k] in cardOf
      ensures HasIpa(o, cardOf[ids[k]]) && texts[ids[k]] == o.ipas[cardOf[ids[k]]]
    {
      var p := ids[k];
      assert p in texts.Keys && p in texts;
    }
    rows := seq(|ids|, k requires 0 <= k < |ids| => IpaRow(phrases[ids[k]].word, texts[ids[k]]));
    ghost var cards := seq(|ids|, k requires 0 <= k < |ids| => cardOf[ids[k]]);
    forall c | HasIpa(o, c)
      ensures c in cardPhrase && cardPhrase[c] in ids
    {
      var p := cardPhrase[c];
      assert p in texts && p in texts.Keys;
    }
    RowsOfPhrases(o, cardPhrase, cardOf, phrases, ids, rows, cards);
  }

  lemma RowsOfPhrases(
    o: Old, cardPhrase: map<int, int>, cardOf: map<int, int>, phrases: map<int, Phrase>,
    ids: seq<int>, rows: seq<IpaRow>, cards: seq<int>)
    requires Legal(o) && Numbered(o.candidates.Keys, cardPhrase, cardOf)
    requires PhrasesDecided(o, cardOf, Winners(o), phrases)
    requires |rows| == |cards| == |ids|
    requires forall k | 0 <= k < |ids| ::
               && ids[k] in phrases && ids[k] in cardOf && HasIpa(o, cardOf[ids[k]]) && cards[k] == cardOf[ids[k]]
               && rows[k] == IpaRow(phrases[ids[k]].word, o.ipas[cards[k]])
    requires forall c | HasIpa(o, c) :: c in cardPhrase && cardPhrase[c] in ids
    requires forall j, k | 0 <= j < k < |ids| :: ids[j] != ids[k] && PhraseBefore(phrases, ids[j], ids[k])
    ensures AreIpaRows(o, rows, cards)
  {
    hide Legal, PhrasesDecided;
    forall k | 0 <= k < |ids|
      ensures HasIpa(o, cards[k]) && rows[k] == IpaRow(Winner(o, cards[k]), o.ipas[cards[k]])
    {
      CardOfPhrase(o, cardPhrase, cardOf, phrases, ids[k]);
    }
    forall j, k | 0 <= j < k < |ids|
      ensures cards[j] != cards[k] && IpaBefore(o, cards[j], cards[k])
    {
      CardOfPhrase(o, cardPhrase, cardOf, phrases, ids[j]);
      CardOfPhrase(o, cardPhrase, cardOf, phrases, ids[k]);
    }
    forall c | HasIpa(o, c)
      ensures c in cards
    {
      var k :| 0 <= k < |ids| && ids[k] == cardPhrase[c];
      assert cards[k] == c;
    }
  }

  /** The loop over the rows: a word seen before keeps what it got, a word without a row gets
      one. */
  method TakeIpas(sounds: map<int, string>, rows: seq<IpaRow>) returns (now: map<int, Pronunciation>)
    ensures IpasTaken(sounds, rows, |rows|, now)
  {
    now := map w | w in sounds :: Pronunciation(Some(sounds[w]), None);
    var seen: set<int> := {};
    for i := 0 to |rows|
      invariant IpasTaken(sounds, rows, i, now)
      invariant forall w :: w in seen <==> exists k :: 0 <= k < i && rows[k].word == w
    {
      OneMoreRow(sounds, rows, i, now);
      assert rows[i].word in seen <==> !IsFirstOf(rows, i);
      ghost var before := seen;
      if rows[i].word !in seen {
        seen := seen + {rows[i].word};
        now := TakeIpa(now, rows[i]);
      }
      forall w
        ensures w in seen <==> exists k :: 0 <= k < i + 1 && rows[k].word == w
      {
        if w in before {
          var k :| 0 <= k < i && rows[k].word == w;
          assert k < i + 1;
        }
      }
    }
  }
}
