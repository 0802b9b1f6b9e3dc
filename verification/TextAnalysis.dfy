/** The part of speech a word gets from its occurrences, and the progress the analysis tells. */
module TextAnalysis {
  import opened Orders
  import opened Schema
  import Sets

  // ── The most frequent form ──────────────────────────────────────────

  /** A token that is an occurrence, by its index, with its part of speech and tag. */
  datatype Occurrence = Occurrence(target: nat, pos: string, tag: string)

  datatype Form = Form(pos: string, tag: string)

  /** Whether a text outdoes another: more frequent, or as frequent and alphabetically first. */
  predicate Outdoes(counts: multiset<string>, a: string, b: string) {
    counts[b] < counts[a] || (counts[a] == counts[b] && Precedes(a, b))
  }

  /** The most frequent text, and of those the alphabetically first. */
  ghost predicate IsMostFrequent(counts: multiset<string>, text: string) {
    text in counts && forall other | other in counts && other != text :: Outdoes(counts, text, other)
  }

  lemma OneIsMostFrequent(counts: multiset<string>, a: string, b: string)
    requires IsMostFrequent(counts, a) && IsMostFrequent(counts, b)
    ensures a == b
  {
    PrecedesIsTotal(a, b);
  }

  function TagsOf(found: seq<Occurrence>): multiset<string> {
    if found == [] then multiset{} else multiset{found[0].tag} + TagsOf(found[1..])
  }

  /** The parts of speech of the occurrences with a tag. */
  function PartsOf(found: seq<Occurrence>, tag: string): multiset<string> {
    if found == [] then multiset{}
    else (if found[0].tag == tag then multiset{found[0].pos} else multiset{}) + PartsOf(found[1..], tag)
  }

  ghost predicate IsFormOf(found: seq<Occurrence>, form: Form) {
    IsMostFrequent(TagsOf(found), form.tag) && IsMostFrequent(PartsOf(found, form.tag), form.pos)
  }

  /** The text of the smallest key: the most frequent, then the alphabetically first. */
  method Most(counts: multiset<string>, texts: set<string>) returns (most: string)
    requires texts != {} && forall text :: text in texts <==> text in counts
    ensures IsMostFrequent(counts, most)
  {
    var first := Sets.SomeElement(texts);
    most :| most in texts;
    var rest := texts - {most};
    while rest != {}
      invariant rest <= texts && most in texts && most !in rest
      invariant forall other | other in texts && other !in rest && other != most :: Outdoes(counts, most, other)
      decreases rest
    {
      ghost var some := Sets.SomeElement(rest);
      var text :| text in rest;
      rest := rest - {text};
      PrecedesIsTotal(text, most);
      if counts[most] < counts[text] || (counts[text] == counts[most] && Precedes(text, most)) {
        BetterOutdoesAll(counts, text, most, texts - rest - {text, most});
        most := text;
      }
    }
  }

  lemma BetterOutdoesAll(counts: multiset<string>, better: string, most: string, others: set<string>)
    requires Outdoes(counts, better, most)
    requires forall other | other in others :: Outdoes(counts, most, other)
    ensures forall other | other in others :: Outdoes(counts, better, other)
  {
    forall other | other in others
      ensures Outdoes(counts, better, other)
    {
      if counts[better] == counts[other] {
        PrecedesIsTransitive(better, most, other);
      }
    }
  }

  method MostFrequentForm(found: seq<Occurrence>) returns (form: Form)
    requires found != []
    ensures IsFormOf(found, form)
  {
    var tags: multiset<string> := multiset{};
    for i := |found| downto 0
      invariant tags == TagsOf(found[i..])
    {
      assert found[i..][1..] == found[i + 1..];
      tags := multiset{found[i].tag} + tags;
    }
    assert found[0..] == found;
    assert found[0].tag in tags;
    var texts := set text | text in tags;
    assert found[0].tag in texts;
    var tag := Most(tags, texts);
    var parts: multiset<string> := multiset{};
    for i := |found| downto 0
      invariant parts == PartsOf(found[i..], tag)
    {
      assert found[i..][1..] == found[i + 1..];
      if found[i].tag == tag {
        parts := multiset{found[i].pos} + parts;
      }
    }
    var partTexts := set text | text in parts;
    ghost var part := TagHasParts(found, tag);
    assert part in partTexts;
    assert found[0..] == found;
    var pos := Most(parts, partTexts);
    form := Form(pos, tag);
  }

  lemma {:induction false} TagHasParts(found: seq<Occurrence>, tag: string) returns (part: string)
    requires tag in TagsOf(found)
    ensures part in PartsOf(found, tag)
  {
    if found[0].tag == tag {
      part := found[0].pos;
    } else {
      part := TagHasParts(found[1..], tag);
    }
  }

  lemma {:induction false} CountsOfBoth(a: seq<Occurrence>, b: seq<Occurrence>, tag: string)
    ensures TagsOf(a + b) == TagsOf(a) + TagsOf(b)
    ensures PartsOf(a + b, tag) == PartsOf(a, tag) + PartsOf(b, tag)
  {
    if a == [] {
      assert a + b == b;
    } else {
      assert (a + b)[1..] == a[1..] + b;
      CountsOfBoth(a[1..], b, tag);
    }
  }

  /** A sequence with its element at an index apart. */
  lemma OneApart(b: seq<Occurrence>, i: nat)
    requires i < |b|
    ensures b == b[..i] + ([b[i]] + b[i + 1..])
    ensures multiset(b) == multiset([b[i]]) + multiset(b[..i] + b[i + 1..])
  {
    var start, x, end := b[..i], [b[i]], b[i + 1..];
    assert b == start + (x + end);
    assert multiset(start + end) == multiset(start) + multiset(end);
    assert multiset(start + (x + end)) == multiset(start) + multiset(x + end);
    assert multiset(x + end) == multiset(x) + multiset(end);
  }

  lemma RestIsPermutation(a: seq<Occurrence>, b: seq<Occurrence>) returns (i: nat)
    requires multiset(a) == multiset(b) && a != []
    ensures i < |b| && b[i] == a[0]
    ensures a == [a[0]] + a[1..] && b == b[..i] + ([b[i]] + b[i + 1..])
    ensures multiset(a[1..]) == multiset(b[..i] + b[i + 1..])
  {
    assert a[0] in multiset(b);
    i :| 0 <= i < |b| && b[i] == a[0];
    OneApart(a, 0);
    OneApart(b, i);
    assert a[..0] + a[1..] == a[1..];
    Removed(multiset([a[0]]), multiset(a[1..]), multiset(b[..i] + b[i + 1..]));
  }

  lemma Removed(x: multiset<Occurrence>, a: multiset<Occurrence>, b: multiset<Occurrence>)
    requires x + a == x + b
    ensures a == b
  {
    forall y
      ensures a[y] == b[y]
    {
      assert (x + a)[y] == (x + b)[y];
    }
  }

  lemma {:induction false} CountsOfPermutation(a: seq<Occurrence>, b: seq<Occurrence>, tag: string)
    requires multiset(a) == multiset(b)
    ensures TagsOf(a) == TagsOf(b) && PartsOf(a, tag) == PartsOf(b, tag)
  {
    if a == [] {
      assert |multiset(b)| == 0;
    } else {
      var i := RestIsPermutation(a, b);
      hide TagsOf, PartsOf;
      var start, end := b[..i], b[i + 1..];
      CountsOfPermutation(a[1..], start + end, tag);
      CountsOfBoth(start, end, tag);
      CountsOfBoth(start, [b[i]] + end, tag);
      CountsOfBoth([b[i]], end, tag);
      CountsOfBoth([a[0]], a[1..], tag);
    }
  }

  /** Permuted occurrences have one form. */
  lemma OrderDoesNotMatter(a: seq<Occurrence>, formA: Form, b: seq<Occurrence>, formB: Form)
    requires multiset(a) == multiset(b) && IsFormOf(a, formA) && IsFormOf(b, formB)
    ensures formA == formB
  {
    CountsOfPermutation(a, b, formA.tag);
    OneIsMostFrequent(TagsOf(a), formA.tag, formB.tag);
    OneIsMostFrequent(PartsOf(a, formA.tag), formA.pos, formB.pos);
  }

  function Tags(found: seq<Occurrence>): seq<string> {
    seq(|found|, i requires 0 <= i < |found| => found[i].tag)
  }

  function TagsAndParts(found: seq<Occurrence>): seq<(string, string)> {
    seq(|found|, i requires 0 <= i < |found| => (found[i].tag, found[i].pos))
  }

  lemma {:induction false} TagsAreOfAll(found: seq<Occurrence>)
    ensures TagsOf(found) == multiset(Tags(found))
  {
    if found != [] {
      TagsAreOfAll(found[1..]);
      assert Tags(found) == [found[0].tag] + Tags(found[1..]);
    }
  }

  lemma {:induction false} PartsAreOfAll(found: seq<Occurrence>, tag: string, pos: string)
    ensures PartsOf(found, tag)[pos] == multiset(TagsAndParts(found))[(tag, pos)]
  {
    if found != [] {
      PartsAreOfAll(found[1..], tag, pos);
      var first, rest := (found[0].tag, found[0].pos), TagsAndParts(found[1..]);
      assert TagsAndParts(found) == [first] + rest;
      hide TagsAndParts;
      assert multiset([first] + rest) == multiset{first} + multiset(rest);
    }
  }

  /** In terms of the occurrences: no tag is on more of them than the form's, and none on as many
      comes before it; so with the parts of speech of that tag. */
  lemma FormIsOfTheMost(found: seq<Occurrence>, form: Form, i: nat)
    requires IsFormOf(found, form) && i < |found|
    ensures var tags := multiset(Tags(found));
            && tags[form.tag] > 0
            && (found[i].tag == form.tag || tags[found[i].tag] < tags[form.tag]
                || (tags[found[i].tag] == tags[form.tag] && Precedes(form.tag, found[i].tag)))
    ensures var both := multiset(TagsAndParts(found));
            && both[(form.tag, form.pos)] > 0
            && (found[i].tag == form.tag ==>
                  || found[i].pos == form.pos
                  || both[(form.tag, found[i].pos)] < both[(form.tag, form.pos)]
                  || (both[(form.tag, found[i].pos)] == both[(form.tag, form.pos)]
                      && Precedes(form.pos, found[i].pos)))
  {
    TagsAreOfAll(found);
    PartsAreOfAll(found, form.tag, form.pos);
    PartsAreOfAll(found, form.tag, found[i].pos);
    assert Tags(found)[i] in multiset(Tags(found));
    assert TagsAndParts(found)[i] in multiset(TagsAndParts(found));
    hide TagsOf, PartsOf, Precedes;
  }

  // ── Collecting the words ────────────────────────────────────────────

  /** A token, with what the filters say of it. */
  datatype Token = Token(
    index: nat, text: string, pos: string, tag: string, relevant: bool, functionWord: bool, known: bool)

  predicate IsKept(token: Token) {
    token.relevant && !token.functionWord && !token.known
  }

  /** The places of a word among the first tokens, in the order of the text. */
  function PlacesOf(tokens: seq<Token>, n: nat, word: string): seq<Occurrence>
    requires n <= |tokens|
  {
    if n == 0 then []
    else
      var token := tokens[n - 1];
      PlacesOf(tokens, n - 1, word)
      + if IsKept(token) && token.text == word then [Occurrence(token.index, token.pos, token.tag)] else []
  }

  /** Every word of a kept token, and no other, with all its places; so each has a form. */
  method CollectWords(tokens: seq<Token>) returns (words: map<string, seq<Occurrence>>)
    ensures forall word :: word in words <==>
              exists i :: 0 <= i < |tokens| && tokens[i].relevant && !tokens[i].functionWord && !tokens[i].known
                          && tokens[i].text == word
    ensures forall word | word in words :: words[word] == PlacesOf(tokens, |tokens|, word) != []
  {
    words := map[];
    for n := 0 to |tokens|
      invariant forall word :: word in words <==>
                  exists i :: 0 <= i < n && IsKept(tokens[i]) && tokens[i].text == word
      invariant forall word | word in words :: words[word] == PlacesOf(tokens, n, word) != []
      invariant forall word | word !in words :: PlacesOf(tokens, n, word) == []
    {
      var token := tokens[n];
      if !IsKept(token) {
        continue;
      }
      var found := if token.text in words then words[token.text] else [];
      words := words[token.text := found + [Occurrence(token.index, token.pos, token.tag)]];
    }
  }

  /** A place is listed under a word exactly when it is a kept token of that word. */
  lemma {:induction false} PlacesAreTokens(tokens: seq<Token>, n: nat, word: string, place: Occurrence)
    requires n <= |tokens|
    ensures place in PlacesOf(tokens, n, word) <==>
              exists i :: 0 <= i < n && tokens[i].relevant && !tokens[i].functionWord && !tokens[i].known
                          && tokens[i].text == word
                          && place == Occurrence(tokens[i].index, tokens[i].pos, tokens[i].tag)
  {
    if n > 0 {
      PlacesAreTokens(tokens, n - 1, word, place);
    }
  }

  /** Places are in the order of the text. */
  lemma {:induction false} PlacesAreInOrder(tokens: seq<Token>, n: nat, word: string)
    requires n <= |tokens| && forall i, j | 0 <= i < j < |tokens| :: tokens[i].index < tokens[j].index
    ensures var places := PlacesOf(tokens, n, word);
            forall i, j | 0 <= i < j < |places| :: places[i].target < places[j].target
  {
    if n > 0 {
      PlacesAreInOrder(tokens, n - 1, word);
      var before, places := PlacesOf(tokens, n - 1, word), PlacesOf(tokens, n, word);
      forall i, j | 0 <= i < j < |places|
        ensures places[i].target < places[j].target
      {
        assert places[i] == before[i] && before[i] in before;
        PlacesAreTokens(tokens, n - 1, word, before[i]);
        assert j < |before| ==> places[j] == before[j];
      }
    }
  }

  // ── Progress ────────────────────────────────────────────────────────

  const PARSE_SHARE := 0.75
  const COLLECT_SHARE := 0.05
  const COLLECT_STEPS := 3

  function Clamped(part: real): real {
    if part < 0.0 then 0.0 else if part > 1.0 then 1.0 else part
  }

  /** A part clamped to [0, 1] and laid out on a share of the whole. */
  function Scaled(start: real, share: real, part: real): real {
    start + share * Clamped(part)
  }

  function PartOf(done: nat, total: nat): real {
    if total == 0 then 0.0 else (if done < total then done else total) as real / total as real
  }

  ghost predicate NeverDecreases(told: seq<real>) {
    forall i, j | 0 <= i <= j < |told| :: told[i] <= told[j]
  }

  function Sum(counts: seq<nat>, n: nat): nat
    requires n <= |counts|
  {
    if n == 0 then 0 else Sum(counts, n - 1) + counts[n - 1]
  }

  lemma PartsGrow(less: nat, more: nat, total: nat)
    requires less <= more
    ensures 0.0 <= PartOf(less, total) <= PartOf(more, total) <= 1.0
    ensures total > 0 && total <= more ==> PartOf(more, total) == 1.0
  {
    if total > 0 {
      var a, b := if less < total then less else total, if more < total then more else total;
      QuotientsGrow(a as real, b as real, total as real);
      QuotientsGrow(b as real, total as real, total as real);
    }
  }

  lemma QuotientsGrow(a: real, b: real, c: real)
    requires 0.0 <= a <= b && 0.0 < c
    ensures 0.0 <= a / c <= b / c && c / c == 1.0
  {
    assert a / c * c == a && b / c * c == b;
    assert (b / c - a / c) * c >= 0.0;
  }

  function WordsPart(words: seq<nat>, n: nat): real
    requires n <= |words|
  {
    (PartOf(n, |words|) + PartOf(Sum(words, n), Sum(words, |words|))) / 2.0
  }

  lemma {:induction false} SumGrows(counts: seq<nat>, n: nat, m: nat)
    requires n <= m <= |counts|
    ensures Sum(counts, n) <= Sum(counts, m)
  {
    if n < m {
      SumGrows(counts, n, m - 1);
    }
  }

  /** Parts told so far: none decreases, and all are between 0 and a limit. */
  ghost predicate ToldUpTo(told: seq<real>, limit: real) {
    NeverDecreases(told) && limit <= 1.0 && forall i | 0 <= i < |told| :: 0.0 <= told[i] <= limit
  }

  lemma TellingMore(told: seq<real>, limit: real, part: real)
    requires ToldUpTo(told, limit) && 0.0 <= limit <= part <= 1.0
    ensures ToldUpTo(told + [part], part)
  {
  }

  lemma ScaledGrows(start: real, share: real, less: real, more: real)
    requires 0.0 <= start && 0.0 <= share && start + share <= 1.0 && less <= more
    ensures 0.0 <= start <= Scaled(start, share, less) <= Scaled(start, share, more) <= start + share <= 1.0
  {
    var a, b := Clamped(less), Clamped(more);
    ProductIsPositive(share, a);
    ProductIsPositive(share, b - a);
    ProductIsPositive(share, 1.0 - b);
    assert share * (b - a) == share * b - share * a;
    assert share * (1.0 - b) == share - share * b;
  }

  lemma ProductIsPositive(a: real, b: real)
    requires 0.0 <= a && 0.0 <= b
    ensures 0.0 <= a * b
  {
  }

  lemma WordsPartGrows(words: seq<nat>, n: nat)
    requires n < |words|
    ensures 0.0 <= WordsPart(words, n) <= WordsPart(words, n + 1)
  {
    PartsGrow(n, n + 1, |words|);
    PartsGrow(Sum(words, n), Sum(words, n + 1), Sum(words, |words|));
  }

  method TellParse(parse: seq<real>) returns (told: seq<real>)
    requires NeverDecreases(parse)
    ensures ToldUpTo(told, PARSE_SHARE) && |told| == |parse|
    ensures forall i | 0 <= i < |parse| :: told[i] == Scaled(0.0, PARSE_SHARE, parse[i])
  {
    told := [];
    var limit := 0.0;
    for i := 0 to |parse|
      invariant |told| == i && 0.0 <= limit <= PARSE_SHARE && ToldUpTo(told, limit)
      invariant i < |parse| ==> limit <= Scaled(0.0, PARSE_SHARE, parse[i])
      invariant forall k | 0 <= k < i :: told[k] == Scaled(0.0, PARSE_SHARE, parse[k])
    {
      var part := Scaled(0.0, PARSE_SHARE, parse[i]);
      ScaledGrows(0.0, PARSE_SHARE, parse[i], if i + 1 < |parse| then parse[i + 1] else parse[i]);
      TellingMore(told, limit, part);
      told, limit := told + [part], part;
    }
  }

  /** What is told once a number of the steps of collecting is done. */
  function StepTold(n: nat): real {
    Scaled(PARSE_SHARE, COLLECT_SHARE, PartOf(n, COLLECT_STEPS))
  }

  /** Three parts more, none below the parse's share. */
  method TellCollecting(before: seq<real>) returns (told: seq<real>)
    requires ToldUpTo(before, PARSE_SHARE)
    ensures ToldUpTo(told, PARSE_SHARE + COLLECT_SHARE)
    ensures |told| == |before| + COLLECT_STEPS && before <= told
    ensures forall j | |before| <= j < |told| :: told[j] == StepTold(j - |before| + 1)
  {
    told := before;
    var limit := PARSE_SHARE;
    for step := 1 to COLLECT_STEPS + 1
      invariant |told| == |before| + step - 1 && before <= told
      invariant PARSE_SHARE <= limit && ToldUpTo(told, limit)
      invariant limit <= StepTold(step - 1)
      invariant forall j | |before| <= j < |told| :: told[j] == StepTold(j - |before| + 1)
    {
      var part := Scaled(PARSE_SHARE, COLLECT_SHARE, PartOf(step, COLLECT_STEPS));
      PartsGrow(step - 1, step, COLLECT_STEPS);
      ScaledGrows(PARSE_SHARE, COLLECT_SHARE, PartOf(step - 1, COLLECT_STEPS), PartOf(step, COLLECT_STEPS));
      TellingMore(told, limit, part);
      told, limit := told + [part], part;
    }
    ScaledGrows(PARSE_SHARE, COLLECT_SHARE, PartOf(COLLECT_STEPS, COLLECT_STEPS), 1.0);
  }

  /** What is told once a number of words is done. */
  function WordTold(words: seq<nat>, n: nat): real
    requires n <= |words|
  {
    Scaled(PARSE_SHARE + COLLECT_SHARE, 1.0 - PARSE_SHARE - COLLECT_SHARE, WordsPart(words, n))
  }

  /** A part more for each word; `words` holds the number of occurrences of each. */
  method TellWords(before: seq<real>, words: seq<nat>) returns (told: seq<real>)
    requires ToldUpTo(before, PARSE_SHARE + COLLECT_SHARE)
    ensures ToldUpTo(told, 1.0)
    ensures |told| == |before| + |words| && before <= told
    ensures forall j | |before| <= j < |told| :: told[j] == WordTold(words, j - |before| + 1)
  {
    told := before;
    var limit := PARSE_SHARE + COLLECT_SHARE;
    var allFound := Sum(words, |words|);
    var wordsDone, foundDone := 0, 0;
    while wordsDone < |words|
      invariant 0 <= wordsDone <= |words| && foundDone == Sum(words, wordsDone)
      invariant |told| == |before| + wordsDone && before <= told
      invariant PARSE_SHARE + COLLECT_SHARE <= limit && ToldUpTo(told, limit)
      invariant limit <= WordTold(words, wordsDone)
      invariant forall j | |before| <= j < |told| :: told[j] == WordTold(words, j - |before| + 1)
    {
      foundDone := foundDone + words[wordsDone];
      var done := (PartOf(wordsDone + 1, |words|) + PartOf(foundDone, allFound)) / 2.0;
      var part := Scaled(PARSE_SHARE + COLLECT_SHARE, 1.0 - PARSE_SHARE - COLLECT_SHARE, done);
      WordsPartGrows(words, wordsDone);
      ScaledGrows(
        PARSE_SHARE + COLLECT_SHARE, 1.0 - PARSE_SHARE - COLLECT_SHARE, WordsPart(words, wordsDone), done);
      TellingMore(told, limit, part);
      told, limit := told + [part], part;
      wordsDone := wordsDone + 1;
    }
  }

  /** The analysis of a document, by the parts it tells: the parse's, then those of collecting
      and of each word, by the number of its occurrences; then the whole. */
  method Execute(parse: seq<real>, hasTokens: bool, words: seq<nat>) returns (told: seq<real>)
    requires NeverDecreases(parse)
    ensures NeverDecreases(told)
    ensures forall i | 0 <= i < |told| :: 0.0 <= told[i] <= 1.0
    ensures |told| == |parse| + 1 + if hasTokens then COLLECT_STEPS + |words| else 0
    ensures told[|told| - 1] == 1.0
    ensures forall i | 0 <= i < |parse| :: told[i] == Scaled(0.0, PARSE_SHARE, parse[i])
    ensures forall j | |parse| <= j < |told| - 1 ::
              told[j] == var n := j - |parse| + 1;
                if n <= COLLECT_STEPS then StepTold(n) else WordTold(words, n - COLLECT_STEPS)
  {
    told := TellParse(parse);
    ghost var parsed := told;
    if hasTokens {
      told := TellCollecting(told);
      ghost var collected := told;
      told := TellWords(told, words);
      assert forall i | 0 <= i < |parse| :: told[i] == collected[i] == parsed[i];
      assert forall j | |parse| <= j < |parse| + COLLECT_STEPS :: told[j] == collected[j];
    }
    TellingMore(told, 1.0, 1.0);
    told := told + [1.0];
  }

  // ── What the parts told are ─────────────────────────────────────────

  /** Three quarters are the parse's, a twentieth the collecting's, in three steps. */
  lemma SharesAre(part: real, n: nat)
    ensures 0.0 <= part <= 1.0 ==> Scaled(0.0, PARSE_SHARE, part) == 0.75 * part
    ensures n <= 3 ==> StepTold(n) == 0.75 + 0.05 * (n as real / 3.0)
  {
  }

  /** The rest is that of the words: the mean of the share of words and of that of their
      occurrences, so the last word with any tells the whole. */
  lemma WordsToldAre(words: seq<nat>, n: nat)
    requires 0 < n <= |words|
    ensures Sum(words, n) <= Sum(words, |words|)
    ensures Sum(words, |words|) > 0 ==>
              WordTold(words, n) ==
              0.8 + 0.2 * ((n as real / |words| as real + Sum(words, n) as real / Sum(words, |words|) as real) / 2.0)
    ensures Sum(words, |words|) > 0 ==> WordTold(words, |words|) == 1.0
    ensures Sum(words, |words|) == 0 ==> WordTold(words, n) == 0.8 + 0.2 * (n as real / |words| as real / 2.0)
  {
    SumGrows(words, n, |words|);
    PartsGrow(n, |words|, |words|);
    PartsGrow(Sum(words, n), Sum(words, |words|), Sum(words, |words|));
    PartsGrow(|words|, |words|, |words|);
    PartsGrow(Sum(words, |words|), Sum(words, |words|), Sum(words, |words|));
  }
}
