/** Revision 0049, step by step, over the tables it updates in place. */
module WordsAndPhrasesUpgrade {
  import opened Schema
  import opened OccurrenceKeys
  import opened WordsAndPhrases
  import opened WordsAndPhrasesSteps
  import MovedTranscriptions
  import Sets

  // ── What the steps rely on ──────────────────────────────────────────

  /** The cards of the database, as the merge reads them: every card once, in id order. */
  ghost predicate IsListing(o: Old, cards: seq<CardRow>) {
    && (forall i | 0 <= i < |cards| :: IsRowOf(o, cards[i]))
    && (forall i, j | 0 <= i < j < |cards| :: cards[i].id < cards[j].id)
    && (forall c | c in o.candidates :: exists i :: 0 <= i < |cards| && cards[i].id == c)
  }

  lemma RowsAreUnique(o: Old, row: CardRow)
    requires Legal(o) && IsRowOf(o, row)
    ensures row == RowOf(o, row.id)
  {
  }

  function KeyOfRow(row: CardRow): WordKey {
    KeyOfWord(row.source, row.spelling, row.phrasal)
  }

  function Later(a: int, b: int): int {
    if a < b then b else a
  }

  /** The cards of one word among the first of the list, in its order. */
  function OfWord(cards: seq<CardRow>, n: nat, key: WordKey): seq<CardRow>
    requires n <= |cards|
  {
    if n == 0 then []
    else OfWord(cards, n - 1, key) + if KeyOfRow(cards[n - 1]) == key then [cards[n - 1]] else []
  }

  lemma {:induction false} OfWordKeepsOrder(cards: seq<CardRow>, n: nat, key: WordKey)
    requires n <= |cards|
    requires forall i, j | 0 <= i < j < |cards| :: cards[i].id < cards[j].id
    ensures var group := OfWord(cards, n, key);
            && (forall row :: row in group <==> row in cards[..n] && KeyOfRow(row) == key)
            && (forall i, j | 0 <= i < j < |group| :: group[i].id < group[j].id)
  {
    if n > 0 {
      OfWordKeepsOrder(cards, n - 1, key);
      var group := OfWord(cards, n - 1, key);
      forall i | 0 <= i < |group|
        ensures group[i].id < cards[n - 1].id
      {
        assert group[i] in group;
      }
      assert cards[..n] == cards[..n - 1] + [cards[n - 1]];
    }
  }

  ghost predicate IsGroup(o: Old, key: WordKey, group: seq<CardRow>) {
    && group != []
    && (forall i | 0 <= i < |group| ::
          IsRowOf(o, group[i]) && KeyOfCard(o.candidates[group[i].id]) == key)
    && (forall i, j | 0 <= i < j < |group| :: group[i].id < group[j].id)
    && (forall c | c in o.candidates && KeyOfCard(o.candidates[c]) == key ::
          exists i :: 0 <= i < |group| && group[i].id == c)
  }

  lemma CardsOfWordAreAGroup(o: Old, cards: seq<CardRow>, key: WordKey)
    requires IsListing(o, cards) && OfWord(cards, |cards|, key) != []
    ensures IsGroup(o, key, OfWord(cards, |cards|, key))
  {
    var group := OfWord(cards, |cards|, key);
    OfWordKeepsOrder(cards, |cards|, key);
    assert cards[..|cards|] == cards;
    forall i | 0 <= i < |group|
      ensures IsRowOf(o, group[i]) && KeyOfCard(o.candidates[group[i].id]) == key
    {
      assert group[i] in group;
    }
    forall c | c in o.candidates && KeyOfCard(o.candidates[c]) == key
      ensures exists i :: 0 <= i < |group| && group[i].id == c
    {
      var i :| 0 <= i < |cards| && cards[i].id == c;
      assert cards[i] in group;
    }
  }

  lemma EveryCardIsInAGroup(o: Old, cards: seq<CardRow>, c: int)
    requires IsListing(o, cards) && c in o.candidates
    ensures OfWord(cards, |cards|, KeyOfCard(o.candidates[c])) != []
  {
    var i :| 0 <= i < |cards| && cards[i].id == c;
    OfWordKeepsOrder(cards, |cards|, KeyOfRow(cards[i]));
    assert cards[..|cards|] == cards;
    assert cards[i] in cards;
  }

  /** The card of a group the others rank below is the winner of each of them. */
  lemma BestOfGroupWins(o: Old, key: WordKey, group: seq<CardRow>, k: int)
    requires Legal(o) && IsGroup(o, key, group) && 0 <= k < |group|
    requires forall i | 0 <= i < |group| && i != k :: RankedBelow(group[i], group[k])
    ensures IsWinner(o, group[k].id)
    ensures forall c | c in o.candidates && KeyOfCard(o.candidates[c]) == key ::
              Winner(o, c) == group[k].id
  {
    var w := group[k].id;
    RowsAreUnique(o, group[k]);
    forall c | SameWord(o, w, c) && c != w
      ensures Outranks(o, w, c)
    {
      var i :| 0 <= i < |group| && group[i].id == c;
      RowsAreUnique(o, group[i]);
    }
    forall c | c in o.candidates && KeyOfCard(o.candidates[c]) == key
      ensures Winner(o, c) == w
    {
      OneWinner(o, w, c);
    }
  }

  /** The first cards by word, and the words in the order their first cards come. */
  ghost predicate AreGroups(
    cards: seq<CardRow>, n: nat, order: seq<WordKey>, groups: map<WordKey, seq<CardRow>>)
    requires n <= |cards|
  {
    && (forall i, j | 0 <= i < j < |order| :: order[i] != order[j])
    && (forall key | key in order ::
          key in groups && groups[key] == OfWord(cards, n, key) && groups[key] != [])
    && (forall key | key !in order :: key !in groups && OfWord(cards, n, key) == [])
  }

  function AddToGroup(groups: map<WordKey, seq<CardRow>>, card: CardRow): map<WordKey, seq<CardRow>> {
    var key := KeyOfRow(card);
    groups[key := (if key in groups then groups[key] else []) + [card]]
  }

  lemma OneMoreCard(
    cards: seq<CardRow>, n: nat, order: seq<WordKey>, groups: map<WordKey, seq<CardRow>>)
    requires n < |cards| && AreGroups(cards, n, order, groups)
    ensures var key := KeyOfRow(cards[n]);
            AreGroups(
              cards, n + 1, if key in groups then order else order + [key], AddToGroup(groups, cards[n]))
  {
    var key := KeyOfRow(cards[n]);
    var after := if key in groups then order else order + [key];
    assert key in groups <==> key in order;
    forall other
      ensures other in after <==> other in order || other == key
      ensures OfWord(cards, n + 1, other) ==
              OfWord(cards, n, other) + if key == other then [cards[n]] else []
    {
      assert key !in groups ==> after[|order|] == key;
    }
  }

  method Groups(cards: seq<CardRow>) returns (order: seq<WordKey>, groups: map<WordKey, seq<CardRow>>)
    ensures forall i, j | 0 <= i < j < |order| :: order[i] != order[j]
    ensures forall key | key in order ::
              key in groups && groups[key] == OfWord(cards, |cards|, key) && groups[key] != []
    ensures forall key | key !in order :: OfWord(cards, |cards|, key) == []
  {
    order, groups := [], map[];
    for i := 0 to |cards|
      invariant AreGroups(cards, i, order, groups)
    {
      OneMoreCard(cards, i, order, groups);
      hide AreGroups;
      var key := KeyOfRow(cards[i]);
      if key !in groups {
        order := order + [key];
      }
      groups := AddToGroup(groups, cards[i]);
    }
  }

  method MaxByRank(group: seq<CardRow>) returns (winner: CardRow, ghost at: int)
    requires group != []
    requires forall i, j | 0 <= i < j < |group| :: group[i].id < group[j].id
    ensures 0 <= at < |group| && winner == group[at]
    ensures forall i | 0 <= i < |group| && i != at :: RankedBelow(group[i], winner)
    ensures winner in group && forall row | row in group && row != winner :: RankedBelow(row, winner)
  {
    winner, at := group[0], 0;
    for k := 1 to |group|
      invariant 0 <= at < k && winner == group[at]
      invariant forall i | 0 <= i < k && i != at :: RankedBelow(group[i], winner)
    {
      if RankedBelow(winner, group[k]) {
        winner, at := group[k], k;
      }
    }
  }

  /** The losers among the first cards of a group, whose winner stands at `at`. */
  ghost function LosersIn(group: seq<CardRow>, at: int, k: nat): set<int>
    requires k <= |group|
  {
    set i | 0 <= i < k && i != at :: group[i].id
  }

  /** Those of them that had a decision, in the order they merge. */
  ghost function DroppedIn(group: seq<CardRow>, at: int, k: nat): seq<int>
    requires k <= |group|
  {
    if k == 0 then []
    else
      DroppedIn(group, at, k - 1)
      + if k - 1 != at && IsDecided(group[k - 1].status) then [group[k - 1].id] else []
  }

  lemma NotEmptyGroup(o: Old, key: WordKey, group: seq<CardRow>)
    requires IsGroup(o, key, group)
    ensures group != []
    ensures forall i, j | 0 <= i < j < |group| :: group[i].id < group[j].id
  {
  }

  lemma LosersOfGroup(o: Old, key: WordKey, group: seq<CardRow>, at: int)
    requires IsGroup(o, key, group) && 0 <= at < |group|
    requires forall c | c in o.candidates && KeyOfCard(o.candidates[c]) == key ::
               Winner(o, c) == group[at].id
    ensures !IsLoser(o, group[at].id)
    ensures LosersIn(group, at, |group|) == LosersOf(o, key)
  {
    forall c | c in LosersOf(o, key)
      ensures c in LosersIn(group, at, |group|)
    {
      var i :| 0 <= i < |group| && group[i].id == c;
      assert i != at;
    }
  }

  lemma NextLoser(o: Old, key: WordKey, group: seq<CardRow>, at: int, k: int, m: set<int>)
    requires IsGroup(o, key, group) && 0 <= at < |group| && 0 <= k < |group|
    requires forall c | c in o.candidates && KeyOfCard(o.candidates[c]) == key ::
               Winner(o, c) == group[at].id
    requires m <= Losers(o) && m !! LosersOf(o, key)
    ensures var loser := group[k].id;
            var merged := m + LosersIn(group, at, k);
            if k == at then loser == group[at].id && m + LosersIn(group, at, k + 1) == merged
            else
              && loser != group[at].id
              && IsLoser(o, loser) && loser !in merged && Winner(o, loser) == group[at].id
              && (forall d | d in merged && Winner(o, d) == group[at].id :: d < loser)
              && m + LosersIn(group, at, k + 1) == merged + {loser}
  {
    var loser := group[k].id;
    var merged := m + LosersIn(group, at, k);
    assert LosersIn(group, at, k + 1) == LosersIn(group, at, k) + if k == at then {} else {loser};
    forall d | d in m
      ensures Winner(o, d) != group[at].id
    {
    }
  }

  ghost function LosersOf(o: Old, key: WordKey): set<int> {
    set c | c in o.candidates && IsLoser(o, c) && KeyOfCard(o.candidates[c]) == key
  }

  /** The losers of the first groups. */
  ghost function LosersUpTo(o: Old, order: seq<WordKey>, g: nat): set<int>
    requires g <= |order|
  {
    set c | c in o.candidates && IsLoser(o, c) && KeyOfCard(o.candidates[c]) in order[..g]
  }

  lemma NextGroup(o: Old, order: seq<WordKey>, g: nat)
    requires g < |order|
    requires forall i, j | 0 <= i < j < |order| :: order[i] != order[j]
    ensures LosersUpTo(o, order, g) <= Losers(o)
    ensures LosersUpTo(o, order, g) !! LosersOf(o, order[g])
    ensures LosersUpTo(o, order, g + 1) == LosersUpTo(o, order, g) + LosersOf(o, order[g])
  {
    assert order[..g + 1] == order[..g] + [order[g]];
  }

  lemma AllGroups(o: Old, cards: seq<CardRow>, order: seq<WordKey>)
    requires IsListing(o, cards)
    requires forall key | key !in order :: OfWord(cards, |cards|, key) == []
    ensures LosersUpTo(o, order, 0) == {}
    ensures LosersUpTo(o, order, |order|) == Losers(o)
  {
    assert order[..|order|] == order;
    forall c | c in o.candidates {
      EveryCardIsInAGroup(o, cards, c);
    }
  }

  ghost predicate LosesDecision(group: seq<CardRow>, at: int, k: nat, c: int)
    requires k <= |group|
  {
    exists i :: 0 <= i < k && i != at && group[i].id == c && IsDecided(group[i].status)
  }

  lemma {:induction false} DroppedOnce(group: seq<CardRow>, at: int, k: nat)
    requires k <= |group|
    requires forall i, j | 0 <= i < j < |group| :: group[i].id < group[j].id
    ensures var dropped := DroppedIn(group, at, k);
            && (forall i, j | 0 <= i < j < |dropped| :: dropped[i] != dropped[j])
            && (forall c :: c in dropped <==> LosesDecision(group, at, k, c))
  {
    if k > 0 {
      DroppedOnce(group, at, k - 1);
      var before := DroppedIn(group, at, k - 1);
      forall i | 0 <= i < |before|
        ensures before[i] != group[k - 1].id
      {
        assert LosesDecision(group, at, k - 1, before[i]);
      }
      forall c
        ensures LosesDecision(group, at, k, c) <==>
                LosesDecision(group, at, k - 1, c)
                || (k - 1 != at && group[k - 1].id == c && IsDecided(group[k - 1].status))
      {
      }
    }
  }

  /** Each loser that had a decision, once. */
  ghost predicate AreDropped(o: Old, losers: set<int>, dropped: seq<int>) {
    && (forall i, j | 0 <= i < j < |dropped| :: dropped[i] != dropped[j])
    && (forall c :: c in dropped <==>
          c in losers && c in o.candidates && IsDecided(o.candidates[c].status))
  }

  lemma DroppedOfGroup(
    o: Old, key: WordKey, group: seq<CardRow>, at: int, losers: set<int>, dropped: seq<int>)
    requires IsGroup(o, key, group) && 0 <= at < |group|
    requires !IsLoser(o, group[at].id)
    requires losers !! LosersOf(o, key) && AreDropped(o, losers, dropped)
    ensures AreDropped(
              o, losers + LosersOf(o, key), dropped + DroppedIn(group, at, |group|))
  {
    var more := DroppedIn(group, at, |group|);
    DroppedOnce(group, at, |group|);
    forall c: int {
      DroppedAreLosers(o, key, group, at, c);
    }
    hide IsLoser, IsGroup, LosersOf, LosesDecision;
    forall i, j | 0 <= i < |dropped| && 0 <= j < |more|
      ensures dropped[i] != more[j]
    {
      assert dropped[i] in dropped && more[j] in more;
    }
  }

  lemma DroppedAreLosers(o: Old, key: WordKey, group: seq<CardRow>, at: int, c: int)
    requires IsGroup(o, key, group) && 0 <= at < |group|
    requires !IsLoser(o, group[at].id)
    ensures LosesDecision(group, at, |group|, c) <==>
            c in LosersOf(o, key) && IsDecided(o.candidates[c].status)
  {
    hide IsWinner;
    if c in LosersOf(o, key) {
      var i :| 0 <= i < |group| && group[i].id == c;
    }
    if i :| 0 <= i < |group| && i != at && group[i].id == c && IsDecided(group[i].status) {
      OtherCardsLose(o, key, group, at, i);
    }
  }

  lemma OtherCardsLose(o: Old, key: WordKey, group: seq<CardRow>, at: int, i: int)
    requires IsGroup(o, key, group) && 0 <= at < |group| && 0 <= i < |group| && i != at
    requires !IsLoser(o, group[at].id)
    ensures IsLoser(o, group[i].id)
  {
    var w := group[at].id;
    assert SameWord(o, w, group[i].id);
    assert w == Winner(o, w);
    OneWinner(o, w, group[i].id);
  }

  ghost predicate AreWinners(o: Old, winners: seq<CardRow>) {
    && (forall i | 0 <= i < |winners| ::
          IsRowOf(o, winners[i]) && !IsLoser(o, winners[i].id))
    && (forall i, j | 0 <= i < j < |winners| :: winners[i].id != winners[j].id)
    && (forall w | w in o.candidates && !IsLoser(o, w) ::
          exists i :: 0 <= i < |winners| && winners[i].id == w)
  }

  lemma WinnersOfGroups(o: Old, cards: seq<CardRow>, order: seq<WordKey>, winners: seq<CardRow>)
    requires IsListing(o, cards)
    requires forall i, j | 0 <= i < j < |order| :: order[i] != order[j]
    requires forall key | key !in order :: OfWord(cards, |cards|, key) == []
    requires |winners| == |order|
    requires forall i | 0 <= i < |winners| ::
               && IsRowOf(o, winners[i]) && !IsLoser(o, winners[i].id)
               && KeyOfCard(o.candidates[winners[i].id]) == order[i]
    ensures AreWinners(o, winners)
  {
    forall w | w in o.candidates && !IsLoser(o, w)
      ensures exists i :: 0 <= i < |winners| && winners[i].id == w
    {
      EveryCardIsInAGroup(o, cards, w);
      var i :| 0 <= i < |order| && order[i] == KeyOfCard(o.candidates[w]);
      assert SameWord(o, w, winners[i].id);
      assert IsWinner(o, Winner(o, w));
      OneWinner(o, w, winners[i].id);
    }
  }

  /** The ids of the first rows of a list. */
  ghost function Ids(rows: seq<CardRow>, n: nat): set<int>
    requires n <= |rows|
  {
    set k | 0 <= k < n :: rows[k].id
  }

  lemma OneMoreId(rows: seq<CardRow>, n: nat)
    requires n < |rows|
    ensures Ids(rows, n + 1) == Ids(rows, n) + {rows[n].id}
  {
  }

  lemma SeenCards(o: Old, cards: seq<CardRow>, n: nat)
    requires IsListing(o, cards) && n <= |cards|
    ensures n < |cards| ==> forall d | d in o.candidates :: d in Ids(cards, n) <==> d < cards[n].id
    ensures n == |cards| ==> Ids(cards, n) == o.candidates.Keys
  {
    forall d | d in o.candidates
      ensures n < |cards| ==> (d in Ids(cards, n) <==> d < cards[n].id)
      ensures n == |cards| ==> d in Ids(cards, n)
    {
      var i :| 0 <= i < |cards| && cards[i].id == d;
    }
  }

  lemma DecidedWords(o: Old, winners: seq<CardRow>, n: nat)
    requires AreWinners(o, winners) && n <= |winners|
    ensures n < |winners| ==> winners[n].id !in Ids(winners, n)
    ensures n == |winners| ==> Ids(winners, n) == Winners(o)
  {
  }

  lemma NothingInherited(o: Old, table: map<int, string>)
    requires table.Keys <= o.candidates.Keys
    ensures Inherited(o, table, {}, table)
  {
    forall w | w in table
      ensures exists d :: IsHeir(o, table, {}, w, d)
    {
      assert IsHeir(o, table, {}, w, w);
    }
  }

  // ── The database ────────────────────────────────────────────────────

  class Database {
    ghost const before: Old
    ghost const now: Time
    const roles: map<int, Role>
    const documents: map<int, map<int, seq<nat>>>
    const known: seq<KnownRow>
    const unknown: seq<UnknownRow>

    var candidates: map<int, Card>
    var exports: map<int, Export>
    var jobs: map<int, Job>
    var reports: map<int, Report>
    var pronunciations: map<int, string>
    var images: map<int, string>
    var breakdowns: set<int>
    var meanings: map<int, string>
    const ipas: map<int, string>
    var media: map<int, string>
    var tts: map<int, string>
    var clozes: map<int, string>

    var phrases: map<int, Phrase>
    var cardPhrase: map<int, int>
    ghost var cardOf: map<int, int>
    var bindings: map<int, Binding>
    var withIpa: map<int, Pronunciation>

    ghost predicate Valid()
      reads this
    {
      && Legal(before)
      && roles == before.roles && documents == before.documents
      && known == before.known && unknown == before.unknown && ipas == before.ipas
    }

    /** Valid, and every card has its phrase. */
    ghost predicate HasPhrases()
      reads this
    {
      && Valid()
      && Numbered(before.candidates.Keys, cardPhrase, cardOf)
    }

    /** The tables of the words and of the rows bound to them, the losers `m` merged. */
    ghost predicate Merged(m: set<int>)
      reads this
    {
      && HasPhrases()
      && m <= Losers(before)
      && candidates == before.candidates - m
      && PhrasesMerged(before, cardOf, m, phrases)
      && JobsMerged(before, cardPhrase, m, jobs)
      && ReportsMerged(before, cardPhrase, m, reports)
      && BindingsMerged(before, cardPhrase, m, now, bindings)
      && Inherited(before, before.pronunciations, m, pronunciations)
      && Inherited(before, before.images, m, images)
      && breakdowns == before.breakdowns - m
    }

    /** The results of cards, not yet moved. */
    ghost predicate KeepsResults()
      reads this
    {
      && meanings == before.meanings && media == before.media
      && tts == before.tts && clozes == before.clozes
    }

    constructor (o: Old, ghost time: Time)
      requires Legal(o)
      ensures before == o && now == time
      ensures Untouched()
    {
      before, now := o, time;
      roles, documents, known, unknown := o.roles, o.documents, o.known, o.unknown;
      candidates, exports, jobs, reports := o.candidates, o.exports, o.jobs, o.reports;
      pronunciations, images, breakdowns := o.pronunciations, o.images, o.breakdowns;
      meanings, ipas, media, tts, clozes := o.meanings, o.ipas, o.media, o.tts, o.clozes;
      phrases, cardPhrase, cardOf, bindings, withIpa := map[], map[], map[], map[], map[];
    }

    // ── One phrase per card ───────────────────────────────────────────

    method Cards() returns (cards: seq<CardRow>)
      requires Valid() && candidates == before.candidates && exports == before.exports
      ensures IsListing(before, cards)
    {
      var latest := Latest();
      var ids := Sets.Sorted(candidates.Keys);
      cards := [];
      for i := 0 to |ids|
        invariant |cards| == i
        invariant forall k | 0 <= k < i :: cards[k].id == ids[k] && IsRowOf(before, cards[k])
      {
        var id := ids[i];
        assert id in ids;
        var card := candidates[id];
        cards := cards + [CardRow(
          id, card.source, card.spelling, card.phrasal, card.status, id in latest,
          if id in latest then latest[id] else 0)];
      }
    }

    /** The export record of every exported card. */
    method Latest() returns (latest: map<int, int>)
      requires Valid() && exports == before.exports
      ensures forall c :: c in latest <==> Exported(before, c)
      ensures forall c | c in latest ::
                latest[c] in exports && exports[latest[c]].candidate == c
    {
      latest := map[];
      var rest := exports.Keys;
      while rest != {}
        invariant rest <= exports.Keys
        invariant forall c | c in latest ::
                    latest[c] in exports && exports[latest[c]].candidate == c
        invariant forall e | e in exports && e !in rest :: exports[e].candidate in latest
        decreases rest
      {
        ghost var some := Sets.SomeElement(rest);
        var e :| e in rest;
        rest := rest - {e};
        var c := exports[e].candidate;
        latest := latest[c := if c in latest then Later(latest[c], e) else e];
      }
      forall c | c in latest
        ensures Exported(before, c)
      {
        var e := latest[c];
        assert e in before.exports && before.exports[e].candidate == c;
      }
      forall c | Exported(before, c)
        ensures c in latest
      {
        var e :| e in before.exports && before.exports[e].candidate == c;
        assert exports[e].candidate in latest;
      }
    }

    method CreatePhrases()
      requires Valid() && candidates == before.candidates
      requires phrases == map[] && cardPhrase == map[]
      modifies this`phrases, this`cardPhrase, this`cardOf
      ensures HasPhrases()
      ensures PhrasesMerged(before, cardOf, {}, phrases)
    {
      hide Legal, FirstPhrase, PhrasesMerged, Numbered;
      StartMerging(before);
      var ids := Sets.Sorted(candidates.Keys);
      var next := 1;
      ghost var made: set<int> := {};
      cardOf := map[];
      for i := 0 to |ids|
        invariant made <= before.candidates.Keys
        invariant forall c :: c in made <==> c in ids[..i]
        invariant Numbered(made, cardPhrase, cardOf)
        invariant forall p | p in cardOf :: p < next
        invariant PhrasesMerged(before, cardOf, {}, phrases)
      {
        var id := ids[i];
        assert id in ids;
        assert forall c | c in made :: c < id;
        var phrase := PhraseOfNewCard(id);
        NextPhrase(made, cardPhrase, cardOf, id, next, phrases, phrase);
        phrases := phrases[next := phrase];
        cardPhrase := cardPhrase[id := next];
        cardOf := cardOf[next := id];
        made := made + {id};
        next := next + 1;
        assert ids[..i + 1] == ids[..i] + [id];
      }
      forall c | c in before.candidates.Keys
        ensures c in made
      {
        assert c in ids && ids[..|ids|] == ids;
      }
      assert made == before.candidates.Keys;
    }

    lemma StartMerging(o: Old)
      requires Legal(o)
      ensures PhrasesMerged(o, map[], {}, map[])
      ensures Numbered({}, map[], map[])
    {
    }

    method PhraseOfNewCard(id: int) returns (phrase: Phrase)
      requires Valid() && candidates == before.candidates && id in candidates
      ensures phrase == FirstPhrase(before, id)
    {
      var card := candidates[id];
      var origin := OriginOf(roles[card.source], card.text.position);
      var key: Option<Key> := None;
      if origin.Auto? {
        var lengths := if card.source in documents then documents[card.source] else map[];
        var place := TargetKey(card.text.position.value, card.text.source, lengths);
        key := Some(place);
      }
      phrase := Phrase(
        id, key, card.text, Some(if origin.Auto? then Selection else User), origin,
        if card.status.Skip? then Choice.Skip else Unmarked, false);
    }

    lemma NextPhrase(
      made: set<int>, phraseOf: map<int, int>, cardsOf: map<int, int>, id: int, next: int,
      rows: map<int, Phrase>, phrase: Phrase)
      requires Valid() && id in before.candidates
      requires Numbered(made, phraseOf, cardsOf)
      requires forall c | c in made :: c < id
      requires forall p | p in cardsOf :: p < next
      requires PhrasesMerged(before, cardsOf, {}, rows) && phrase == FirstPhrase(before, id)
      ensures Numbered(made + {id}, phraseOf[id := next], cardsOf[next := id])
      ensures PhrasesMerged(before, cardsOf[next := id], {}, rows[next := phrase])
    {
      hide Legal, FirstPhrase;
      var phraseOf', cardsOf' := phraseOf[id := next], cardsOf[next := id];
      assert forall p | p in cardsOf' :: cardsOf'[p] in made + {id};
    }

    /** The phrase column is filled: of jobs about a phrase, of reports and of export records. */
    method FillPhraseIds()
      requires HasPhrases()
      requires jobs == before.jobs && reports == before.reports && exports == before.exports
      modifies this`jobs, this`reports, this`exports
      ensures JobsMerged(before, cardPhrase, {}, jobs)
      ensures ReportsMerged(before, cardPhrase, {}, reports)
      ensures exports == LearnPhraseOfExports(before.exports, cardPhrase)
    {
      jobs := LearnPhraseOfJobs(jobs, cardPhrase);
      reports := LearnPhraseOfReports(reports, cardPhrase);
      exports := LearnPhraseOfExports(exports, cardPhrase);
      RowsLearnTheirPhrase(before, cardPhrase);
    }

    /** One binding for each export record, of the same id and all active, since now. */
    method RebuildAnkiSyncedCards(time: Time)
      requires HasPhrases() && KeepsResults() && time == now
      requires candidates == before.candidates
      requires exports == LearnPhraseOfExports(before.exports, cardPhrase)
      modifies this`bindings
      ensures BindingsMerged(before, cardPhrase, {}, now, bindings)
    {
      bindings := BindingsOf(exports, candidates, clozes, time);
      ExportsBecomeBindings(before, cardPhrase, now);
    }

    // ── Words of one lemma merge ──────────────────────────────────────

    method Merge(loser: int, winner: int, ghost m: set<int>)
      requires Merged(m)
      requires IsLoser(before, loser) && loser !in m && winner == Winner(before, loser)
      requires forall d | d in m && Winner(before, d) == winner :: d < loser
      modifies this`candidates, this`phrases, this`jobs, this`reports, this`bindings,
               this`pronunciations, this`images, this`breakdowns
      ensures Merged(m + {loser})
    {
      hide Legal, Numbered, PhrasesMerged, JobsMerged, ReportsMerged, BindingsMerged, Inherited;
      RebindRows(loser, winner, m);
      RebindResults(loser, winner, m);
      breakdowns := breakdowns - {loser};
      candidates := candidates - {loser};
    }

    /** A loser's phrases, jobs, reports and export records go to its winner. */
    method RebindRows(loser: int, winner: int, ghost m: set<int>)
      requires HasPhrases()
      requires PhrasesMerged(before, cardOf, m, phrases) && JobsMerged(before, cardPhrase, m, jobs)
      requires ReportsMerged(before, cardPhrase, m, reports)
      requires BindingsMerged(before, cardPhrase, m, now, bindings)
      requires m <= Losers(before)
      requires IsLoser(before, loser) && loser !in m && winner == Winner(before, loser)
      modifies this`phrases, this`jobs, this`reports, this`bindings
      ensures PhrasesMerged(before, cardOf, m + {loser}, phrases)
      ensures JobsMerged(before, cardPhrase, m + {loser}, jobs)
      ensures ReportsMerged(before, cardPhrase, m + {loser}, reports)
      ensures BindingsMerged(before, cardPhrase, m + {loser}, now, bindings)
    {
      hide Legal, Numbered, PhrasesMerged, JobsMerged, ReportsMerged, BindingsMerged,
           MakeManual, RebindPhrases, RebindJobs, RebindReports, RebindBindings;
      PhrasesMerge(before, cardOf, m, loser, phrases);
      phrases := MakeManual(phrases, loser);
      phrases := RebindPhrases(phrases, loser, winner);
      JobsMerge(before, cardPhrase, m, loser, jobs);
      jobs := RebindJobs(jobs, loser, winner);
      BindingsMerge(before, cardPhrase, m, now, loser, bindings);
      bindings := RebindBindings(bindings, loser, winner);
      ReportsMerge(before, cardPhrase, m, loser, reports);
      reports := RebindReports(reports, loser, winner);
    }

    /** A loser's pronunciation and picture go to its winner, unless that has its own. */
    method RebindResults(loser: int, winner: int, ghost m: set<int>)
      requires Valid() && m <= Losers(before)
      requires Inherited(before, before.pronunciations, m, pronunciations)
      requires Inherited(before, before.images, m, images)
      requires IsLoser(before, loser) && loser !in m && winner == Winner(before, loser)
      requires forall d | d in m && Winner(before, d) == winner :: d < loser
      modifies this`pronunciations, this`images
      ensures Inherited(before, before.pronunciations, m + {loser}, pronunciations)
      ensures Inherited(before, before.images, m + {loser}, images)
    {
      hide Legal, Inherited, InheritRow;
      LoserBequeaths(
        before, before.pronunciations, m, pronunciations, loser, InheritRow(pronunciations, loser, winner));
      pronunciations := InheritRow(pronunciations, loser, winner);
      LoserBequeaths(before, before.images, m, images, loser, InheritRow(images, loser, winner));
      images := InheritRow(images, loser, winner);
    }

    /** One group: its best card stands at `at`, all others have merged, in list order. */
    method MergeGroup(group: seq<CardRow>, ghost key: WordKey, ghost m: set<int>)
      returns (winner: CardRow, dropped: seq<int>, ghost at: int)
      requires Merged(m) && Legal(before) && IsGroup(before, key, group)
      requires m <= Losers(before) && m !! LosersOf(before, key)
      modifies this`candidates, this`phrases, this`jobs, this`reports, this`bindings,
               this`pronunciations, this`images, this`breakdowns
      ensures Merged(m + LosersOf(before, key))
      ensures 0 <= at < |group| && winner == group[at] && !IsLoser(before, winner.id)
      ensures dropped == DroppedIn(group, at, |group|)
    {
      hide Legal, Merged, IsLoser, IsGroup;
      NotEmptyGroup(before, key, group);
      winner, at := MaxByRank(group);
      dropped := [];
      BestOfGroupWins(before, key, group, at);
      LosersOfGroup(before, key, group, at);
      assert m + LosersIn(group, at, 0) == m;
      for k := 0 to |group|
        invariant Merged(m + LosersIn(group, at, k))
        invariant dropped == DroppedIn(group, at, k)
      {
        var loser := group[k];
        NextLoser(before, key, group, at, k, m);
        if loser.id != winner.id {
          if IsDecided(loser.status) {
            dropped := dropped + [loser.id];
          }
          Merge(loser.id, winner.id, m + LosersIn(group, at, k));
        }
      }
    }

    /** Every group: nobody but losers has merged, and all of them have. */
    method MergeDuplicates(cards: seq<CardRow>) returns (winners: seq<CardRow>, dropped: seq<int>)
      requires Merged({}) && Legal(before) && IsListing(before, cards)
      modifies this`candidates, this`phrases, this`jobs, this`reports, this`bindings,
               this`pronunciations, this`images, this`breakdowns
      ensures Merged(Losers(before))
      ensures AreWinners(before, winners)
      ensures AreDropped(before, Losers(before), dropped)
    {
      hide Legal, Merged, IsLoser, IsListing, AreDropped;
      var order, groups := Groups(cards);
      winners, dropped := [], [];
      AllGroups(before, cards, order);
      assert AreDropped(before, {}, dropped) by {
        NothingDropped(before);
      }
      for g := 0 to |order|
        invariant Merged(LosersUpTo(before, order, g))
        invariant |winners| == g
        invariant forall i | 0 <= i < g ::
                    && IsRowOf(before, winners[i]) && !IsLoser(before, winners[i].id)
                    && KeyOfCard(before.candidates[winners[i].id]) == order[i]
        invariant AreDropped(before, LosersUpTo(before, order, g), dropped)
      {
        var group := groups[order[g]];
        CardsOfWordAreAGroup(before, cards, order[g]);
        NextGroup(before, order, g);
        ghost var losers := LosersUpTo(before, order, g);
        var winner, lost, at := MergeGroup(group, order[g], losers);
        DroppedOfGroup(before, order[g], group, at, losers, dropped);
        winners, dropped := winners + [winner], dropped + lost;
      }
      WinnersOfGroups(before, cards, order, winners);
    }

    lemma NothingDropped(o: Old)
      ensures AreDropped(o, {}, [])
    {
    }

    /** Every binding has the spelling of the winner it points at, none is decided yet. */
    method RowsFollowTheirWord()
      requires Merged(Losers(before)) && Legal(before)
      modifies this`bindings
      ensures BindingsDecided(before, cardPhrase, {}, now, bindings)
    {
      hide Legal, Numbered, PhrasesMerged, JobsMerged, ReportsMerged, BindingsMerged, Inherited,
           BindingsDecided, FollowWords;
      BindingsFollowTheirWord(before, cardPhrase, now, bindings);
      bindings := FollowWords(bindings, candidates);
    }

    // ── Skips and decisions ───────────────────────────────────────────

    method ReleaseSkippedOriginals(cards: seq<CardRow>)
      requires HasPhrases() && IsListing(before, cards)
      requires PhrasesMerged(before, cardOf, Losers(before), phrases)
      modifies this`phrases
      ensures PhrasesReleased(before, cardOf, before.candidates.Keys, phrases)
    {
      hide Legal, PhrasesMerged, PhrasesReleased, Numbered, IsReleased, IsListing,
           TakeBackPlace, IsOriginal;
      ReadyToRelease(before, cardOf, phrases);
      assert Ids(cards, 0) == {};
      for i := 0 to |cards|
        invariant PhrasesReleased(before, cardOf, Ids(cards, i), phrases)
      {
        var card := cards[i];
        OneMoreId(cards, i);
        SeenCards(before, cards, i);
        ghost var done := Ids(cards, i);
        ListedCard(cards, i, done);
        if card.status == Status.Skip {
          var p := cardPhrase[card.id];
          OriginalIffReleased(before, cardPhrase, cardOf, done, card.id, phrases);
          if IsOriginal(phrases, p) {
            OneCardReleased(before, cardPhrase, cardOf, done, card.id, phrases);
            phrases := Unskip(phrases, p);
            phrases := ReplaceSelection(phrases, p);
            phrases := TakeBackPlace(phrases, p);
          } else {
            CardNotReleased(before, cardOf, done, card.id, phrases);
          }
        } else {
          CardNotReleased(before, cardOf, done, card.id, phrases);
        }
      }
      SeenCards(before, cards, |cards|);
    }

    lemma ListedCard(cards: seq<CardRow>, i: int, done: set<int>)
      requires HasPhrases() && IsListing(before, cards) && 0 <= i < |cards|
      ensures cards[i].id in before.candidates
      ensures cards[i].status == before.candidates[cards[i].id].status
      ensures cards[i].id in cardPhrase
      ensures cards[i].status != Status.Skip ==> !IsReleased(before, cards[i].id)
      ensures PhrasesReleased(before, cardOf, done, phrases) ==> cardPhrase[cards[i].id] in phrases
    {
      var p := cardPhrase[cards[i].id];
      assert p in cardOf;
    }

    method SetDecisions(winners: seq<CardRow>, time: Time)
      requires HasPhrases() && AreWinners(before, winners) && time == now
      requires clozes == before.clozes
      requires candidates == before.candidates - Losers(before)
      requires PhrasesReleased(before, cardOf, before.candidates.Keys, phrases)
      requires BindingsDecided(before, cardPhrase, {}, now, bindings)
      modifies this`phrases, this`candidates, this`bindings
      ensures PhrasesDecided(before, cardOf, Winners(before), phrases)
      ensures CandidatesDecided(before, Winners(before), candidates)
      ensures BindingsDecided(before, cardPhrase, Winners(before), now, bindings)
    {
      hide Legal, PhrasesReleased, PhrasesDecided, CandidatesDecided, BindingsDecided, IsLoser,
           Numbered, AreWinners, Decision, ReleaseOthers, SetChoice;
      var listed := Lemmas();
      ReadyToDecide(before, cardOf, phrases, candidates);
      assert Ids(winners, 0) == {};
      for i := 0 to |winners|
        invariant PhrasesDecided(before, cardOf, Ids(winners, i), phrases)
        invariant CandidatesDecided(before, Ids(winners, i), candidates)
        invariant BindingsDecided(before, cardPhrase, Ids(winners, i), now, bindings)
      {
        var winner := winners[i];
        ghost var won := Ids(winners, i);
        OneMoreId(winners, i);
        DecidedWords(before, winners, i);
        ListedWinner(winners, i, won);
        var p := cardPhrase[winner.id];
        var choice := DecisionChoice(winner, Lower(winner.spelling) in listed);
        PhraseDecided(before, cardPhrase, cardOf, won, winner.id, phrases);
        CandidateDecided(before, won, winner.id, candidates);
        phrases := SetChoice(phrases, p, choice);
        candidates := candidates[winner.id := candidates[winner.id].(
          status := StatusOfChoice(if choice.Some? then choice.value else Unmarked))];
        var active := if choice == Some(Choice.Known) && winner.exported then Some(p) else None;
        BindingsOfWordDecided(before, cardPhrase, cardOf, won, winner.id, now, bindings, active);
        bindings := ReleaseOthers(bindings, winner.id, active, time);
      }
      DecidedWords(before, winners, |winners|);
    }

    lemma ListedWinner(winners: seq<CardRow>, i: int, won: set<int>)
      requires HasPhrases() && AreWinners(before, winners) && 0 <= i < |winners|
      ensures IsRowOf(before, winners[i]) && !IsLoser(before, winners[i].id)
      ensures winners[i].id in cardPhrase
      ensures PhrasesDecided(before, cardOf, won, phrases) ==> cardPhrase[winners[i].id] in phrases
      ensures CandidatesDecided(before, won, candidates) ==> winners[i].id in candidates
    {
      var p := cardPhrase[winners[i].id];
      assert p in cardOf;
    }

    /** What SetDecisions writes to a winner's own phrase; None writes nothing. */
    method DecisionChoice(winner: CardRow, lemmaKnown: bool) returns (choice: Option<Choice>)
      requires IsRowOf(before, winner) && clozes == before.clozes
      requires lemmaKnown == IsListed(before, Lower(winner.spelling))
      ensures choice == Decision(before, winner.id)
    {
      if !IsDecided(winner.status) {
        return None;
      }
      if winner.exported || winner.status == Status.Known {
        return Some(if lemmaKnown then Choice.Known else Unmarked);
      }
      return Some(if winner.id in clozes then Choice.Cloze else Choice.Learn);
    }

    /** The lemmas of Known, without those of Unknown. */
    method Lemmas() returns (listed: set<string>)
      requires Valid()
      ensures forall folded :: folded in listed <==> IsListed(before, folded)
    {
      listed := (set i | 0 <= i < |known| :: Lower(known[i].spelling))
              - (set i | 0 <= i < |unknown| :: Lower(unknown[i].spelling));
    }

    method BindingsTakeTheirCardsChoice()
      requires HasPhrases()
      requires PhrasesDecided(before, cardOf, Winners(before), phrases)
      requires BindingsDecided(before, cardPhrase, Winners(before), now, bindings)
      modifies this`bindings
      ensures BindingsFinal(before, cardPhrase, now, bindings)
    {
      ChoicesTaken(before, cardPhrase, cardOf, now, phrases, bindings);
      bindings := TakeChoices(bindings, phrases);
    }

    // ── Results ───────────────────────────────────────────────────────

    /** The transcriptions of meanings go to the pronunciations of words. */
    method MoveIpa()
      requires HasPhrases() && PhrasesDecided(before, cardOf, Winners(before), phrases)
      modifies this`withIpa
      ensures IpaMoved(before, pronunciations, withIpa)
    {
      hide Legal, Numbered, PhrasesDecided, IpaMoved, MovedTranscriptions.AreIpaRows,
           MovedTranscriptions.IpasTaken;
      var rows := MovedTranscriptions.IpaRows(phrases, cardPhrase, ipas, before, cardOf);
      ghost var cards :| MovedTranscriptions.AreIpaRows(before, rows, cards);
      withIpa := MovedTranscriptions.TakeIpas(pronunciations, rows);
      MovedTranscriptions.RowsTakenAreMoved(before, pronunciations, rows, cards, withIpa);
    }

    method RekeyResults()
      requires HasPhrases() && KeepsResults()
      modifies this`meanings, this`media, this`tts, this`clozes
      ensures Rekeyed(before.meanings, cardOf, meanings)
      ensures Rekeyed(before.media, cardOf, media)
      ensures Rekeyed(before.tts, cardOf, tts)
      ensures Rekeyed(before.clozes, cardOf, clozes)
    {
      meanings := Rekey(meanings);
      media := Rekey(media);
      tts := Rekey(tts);
      clozes := Rekey(clozes);
    }

    /** The same rows under the phrases of their cards. */
    method Rekey(table: map<int, string>) returns (byPhrase: map<int, string>)
      requires HasPhrases() && table.Keys <= before.candidates.Keys
      ensures Rekeyed(table, cardOf, byPhrase)
    {
      byPhrase := map c | c in table && c in cardPhrase :: cardPhrase[c] := table[c];
      forall p
        ensures p in byPhrase <==> p in cardOf && cardOf[p] in table
      {
        if p in cardOf && cardOf[p] in table {
          assert cardPhrase[cardOf[p]] == p;
        }
      }
    }

    // ── The whole upgrade ─────────────────────────────────────────────

    /** The tables as revision 0048 left them. */
    ghost predicate Untouched()
      reads this
    {
      && Valid() && KeepsResults()
      && candidates == before.candidates && exports == before.exports && jobs == before.jobs
      && reports == before.reports && pronunciations == before.pronunciations
      && images == before.images && breakdowns == before.breakdowns
      && phrases == map[] && cardPhrase == map[]
    }

    function Result(): Tables
      reads this
    {
      Tables(
        candidates, phrases, cardPhrase, bindings, jobs, reports, withIpa, images, breakdowns,
        meanings, media, tts, clozes)
    }

    ghost predicate Upgraded()
      reads this
    {
      Valid() && IsUpgrade(before, now, Result(), cardOf)
    }

    method Upgrade(time: Time) returns (dropped: seq<int>)
      requires Untouched() && time == now
      modifies this
      ensures Upgraded()
      ensures AreDropped(before, Losers(before), dropped)
    {
      hide Legal, Numbered, PhrasesMerged, JobsMerged, ReportsMerged, BindingsMerged, Inherited,
           IsListing, AreWinners, AreDropped, Losers, Upgraded, Decided, IpaMoved, Rekeyed;
      var cards := Cards();
      MakePhrases(time);
      var winners;
      winners, dropped := MergeDuplicates(cards);
      DecideCards(cards, winners, time);
      MoveResults();
      StepsMakeTheUpgrade(pronunciations);
    }

    /** Words, phrases and bindings, decided. */
    ghost predicate Decided()
      reads this
    {
      && HasPhrases()
      && PhrasesDecided(before, cardOf, Winners(before), phrases)
      && CandidatesDecided(before, Winners(before), candidates)
      && BindingsFinal(before, cardPhrase, now, bindings)
    }

    method DecideCards(cards: seq<CardRow>, winners: seq<CardRow>, time: Time)
      requires Merged(Losers(before)) && KeepsResults() && time == now
      requires IsListing(before, cards) && AreWinners(before, winners)
      modifies this`phrases, this`candidates, this`bindings
      ensures Decided()
    {
      hide Legal, Numbered, PhrasesMerged, JobsMerged, ReportsMerged, BindingsMerged, Inherited,
           PhrasesReleased, PhrasesDecided, CandidatesDecided, BindingsDecided, BindingsFinal,
           IsListing, AreWinners, Losers;
      RowsFollowTheirWord();
      ReleaseSkippedOriginals(cards);
      SetDecisions(winners, time);
      BindingsTakeTheirCardsChoice();
    }

    method MoveResults()
      requires Decided() && KeepsResults()
      modifies this`meanings, this`media, this`tts, this`clozes, this`withIpa
      ensures Decided() && IpaMoved(before, pronunciations, withIpa)
      ensures Rekeyed(before.meanings, cardOf, meanings) && Rekeyed(before.media, cardOf, media)
      ensures Rekeyed(before.tts, cardOf, tts) && Rekeyed(before.clozes, cardOf, clozes)
    {
      hide Legal, Numbered, PhrasesDecided, CandidatesDecided, BindingsFinal, Rekeyed, IpaMoved;
      MoveIpa();
      RekeyResults();
    }

    /** The tables after every step are those of the closed form. */
    lemma StepsMakeTheUpgrade(sounds: map<int, string>)
      requires Decided() && IpaMoved(before, sounds, withIpa)
      requires JobsMerged(before, cardPhrase, Losers(before), jobs)
      requires ReportsMerged(before, cardPhrase, Losers(before), reports)
      requires Inherited(before, before.pronunciations, Losers(before), sounds)
      requires Inherited(before, before.images, Losers(before), images)
      requires breakdowns == before.breakdowns - Losers(before)
      requires Rekeyed(before.meanings, cardOf, meanings) && Rekeyed(before.media, cardOf, media)
      requires Rekeyed(before.tts, cardOf, tts) && Rekeyed(before.clozes, cardOf, clozes)
      ensures Upgraded()
    {
      hide Legal, Numbered, JobsMerged, ReportsMerged, Inherited, PhrasesDecided, CandidatesDecided,
           BindingsFinal, Rekeyed, Losers, IpaMoved;
    }

    method MakePhrases(time: Time)
      requires Untouched() && time == now
      modifies this`phrases, this`cardPhrase, this`cardOf, this`jobs, this`reports, this`exports,
               this`bindings
      ensures Merged({})
    {
      hide Legal, Numbered, PhrasesMerged, JobsMerged, ReportsMerged, BindingsMerged, Inherited, Merged;
      CreatePhrases();
      FillPhraseIds();
      RebuildAnkiSyncedCards(time);
      NothingMerged();
    }

    /** Before the first merge. */
    lemma NothingMerged()
      requires HasPhrases()
      requires PhrasesMerged(before, cardOf, {}, phrases) && JobsMerged(before, cardPhrase, {}, jobs)
      requires ReportsMerged(before, cardPhrase, {}, reports)
      requires BindingsMerged(before, cardPhrase, {}, now, bindings)
      requires candidates == before.candidates && breakdowns == before.breakdowns
      requires pronunciations == before.pronunciations && images == before.images
      ensures Merged({})
    {
      assert before.pronunciations.Keys <= before.candidates.Keys && before.images.Keys <= before.candidates.Keys;
      hide Legal, Numbered, PhrasesMerged, JobsMerged, ReportsMerged, BindingsMerged, Inherited;
      NothingInherited(before, before.pronunciations);
      NothingInherited(before, before.images);
      assert before.candidates - {} == before.candidates;
    }
  }
}
