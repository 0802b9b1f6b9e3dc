/** Revision 0054: the Known and Unknown lists become one mark per lower-case lemma, with the
    parts of speech of the Known ones. */
module WordMarks {
  import opened Schema
  import Sets

  // ── What a mark is, said of the lists ───────────────────────────────

  type PartOfSpeech = Option<string>

  ghost predicate InKnown(known: seq<KnownRow>, folded: string, row: KnownRow) {
    row in known && Lower(row.spelling) == folded
  }

  ghost predicate InUnknown(unknown: seq<UnknownRow>, folded: string, row: UnknownRow) {
    row in unknown && Lower(row.spelling) == folded
  }

  /** The time of the newest row of a lemma in a list; none without a row. */
  ghost predicate IsKnownAt(known: seq<KnownRow>, folded: string, at: Option<Time>) {
    match at
    case None => forall row :: !InKnown(known, folded, row)
    case Some(time) =>
      && (exists row :: InKnown(known, folded, row) && row.createdAt == time)
      && (forall row | InKnown(known, folded, row) :: row.createdAt <= time)
  }

  ghost predicate IsUnknownAt(unknown: seq<UnknownRow>, folded: string, at: Option<Time>) {
    match at
    case None => forall row :: !InUnknown(unknown, folded, row)
    case Some(time) =>
      && (exists row :: InUnknown(unknown, folded, row) && row.createdAt == time)
      && (forall row | InUnknown(unknown, folded, row) :: row.createdAt <= time)
  }

  /** What the lists say of a lemma: the later list wins, Unknown on a tie; the mark is as old
      as the newest row of both. */
  ghost predicate IsMark(known: seq<KnownRow>, unknown: seq<UnknownRow>, folded: string, mark: Mark) {
    exists knownAt, unknownAt ::
      && IsKnownAt(known, folded, knownAt) && IsUnknownAt(unknown, folded, unknownAt)
      && (knownAt.Some? || unknownAt.Some?)
      && (mark.kind.KnownMark? <==>
            knownAt.Some? && (unknownAt.Some? ==> unknownAt.value < knownAt.value))
      && mark.createdAt == Newest(knownAt, unknownAt)
  }

  function Newest(knownAt: Option<Time>, unknownAt: Option<Time>): Time
    requires knownAt.Some? || unknownAt.Some?
  {
    if unknownAt.None? || (knownAt.Some? && unknownAt.value < knownAt.value) then knownAt.value
    else unknownAt.value
  }

  ghost predicate HasPos(known: seq<KnownRow>, folded: string, pos: PartOfSpeech) {
    exists row :: InKnown(known, folded, row) && row.pos == pos
  }

  /** A Known mark holds the parts of speech of its rows; any part absorbs the others. */
  ghost predicate IsKnownPos(known: seq<KnownRow>, folded: string, mark: Mark, pos: PartOfSpeech) {
    && mark.kind.KnownMark?
    && HasPos(known, folded, pos)
    && (HasPos(known, folded, None) ==> pos == None)
  }

  // ── The rows of one lemma ───────────────────────────────────────────

  /** What rows of one lemma fold to: newest times by list, and everything else as sets. */
  datatype Seen = Seen(
    spellings: set<string>, knownAt: Option<Time>, unknownAt: Option<Time>, pos: set<PartOfSpeech>)

  const NOTHING := Seen({}, None, None, {})

  function Later(at: Option<Time>, time: Time): Option<Time> {
    if at.Some? && time < at.value then at else Some(time)
  }

  function AfterKnown(seen: Seen, row: KnownRow): Seen {
    Seen(seen.spellings + {row.spelling}, Later(seen.knownAt, row.createdAt), seen.unknownAt,
         seen.pos + {row.pos})
  }

  function AfterUnknown(seen: Seen, row: UnknownRow): Seen {
    Seen(seen.spellings + {row.spelling}, seen.knownAt, Later(seen.unknownAt, row.createdAt), seen.pos)
  }

  /** What the first rows of each list say of a lemma. */
  function Fold(known: seq<KnownRow>, n: nat, unknown: seq<UnknownRow>, m: nat, folded: string): Seen
    requires n <= |known| && m <= |unknown|
    decreases m, n
  {
    if m > 0 then
      var seen := Fold(known, n, unknown, m - 1, folded);
      if Lower(unknown[m - 1].spelling) == folded then AfterUnknown(seen, unknown[m - 1]) else seen
    else if n > 0 then
      var seen := Fold(known, n - 1, unknown, 0, folded);
      if Lower(known[n - 1].spelling) == folded then AfterKnown(seen, known[n - 1]) else seen
    else NOTHING
  }

  class LemmaRows {
    var spellings: set<string>
    var knownAt: Option<Time>
    var unknownAt: Option<Time>
    var pos: set<PartOfSpeech>

    function Value(): Seen
      reads this
    {
      Seen(spellings, knownAt, unknownAt, pos)
    }

    constructor ()
      ensures Value() == NOTHING
    {
      spellings, knownAt, unknownAt, pos := {}, None, None, {};
    }

    method SeeKnown(spelling: string, rowPos: PartOfSpeech, createdAt: Time)
      modifies this
      ensures Value() == AfterKnown(old(Value()), KnownRow(spelling, rowPos, createdAt))
    {
      spellings := spellings + {spelling};
      pos := pos + {rowPos};
      var since := if knownAt.Some? then knownAt.value else createdAt;
      knownAt := Some(if createdAt < since then since else createdAt);
    }

    method SeeUnknown(spelling: string, createdAt: Time)
      modifies this
      ensures Value() == AfterUnknown(old(Value()), UnknownRow(spelling, createdAt))
    {
      spellings := spellings + {spelling};
      var since := if unknownAt.Some? then unknownAt.value else createdAt;
      unknownAt := Some(if createdAt < since then since else createdAt);
    }
  }

  // ── The upgrade ─────────────────────────────────────────────────────

  datatype LogLine =
    | CaseMerge(folded: string, spellings: set<string>)
    | Conflict(folded: string, knownAt: Time, unknownAt: Time, kept: MarkKind, droppedPos: set<PartOfSpeech>)
    | PosAbsorbed(folded: string, droppedPos: set<PartOfSpeech>)

  function KindOf(seen: Seen): MarkKind {
    if seen.knownAt.Some? && (seen.unknownAt.None? || seen.unknownAt.value < seen.knownAt.value)
    then KnownMark else UnknownMark
  }

  function PosOf(seen: Seen): set<PartOfSpeech> {
    if KindOf(seen).UnknownMark? then {}
    else if None in seen.pos then {None}
    else seen.pos
  }

  /** What the log says of a lemma: spellings merged, lists in conflict, parts absorbed. */
  ghost predicate IsLogged(folded: string, seen: Seen, line: LogLine) {
    match line
    case CaseMerge(l, spellings) => l == folded && |seen.spellings| > 1 && spellings == seen.spellings
    case Conflict(l, knownAt, unknownAt, kept, dropped) =>
      && l == folded && seen.knownAt == Some(knownAt) && seen.unknownAt == Some(unknownAt)
      && kept == KindOf(seen) && dropped == if kept.UnknownMark? then seen.pos else {}
    case PosAbsorbed(l, dropped) =>
      && l == folded && KindOf(seen).KnownMark? && None in seen.pos
      && dropped == seen.pos - {None} && dropped != {}
  }

  /** The rows of every lemma of either list, each with an object of its own. */
  method ReadLemmas(known: seq<KnownRow>, unknown: seq<UnknownRow>)
    returns (lemmas: map<string, LemmaRows>)
    ensures forall l | l in lemmas :: fresh(lemmas[l])
    ensures forall l | l in lemmas ::
              lemmas[l].Value() == Fold(known, |known|, unknown, |unknown|, l) != NOTHING
    ensures forall l | l !in lemmas :: Fold(known, |known|, unknown, |unknown|, l) == NOTHING
  {
    lemmas := map[];
    for i := 0 to |known|
      invariant forall l | l in lemmas :: fresh(lemmas[l])
      invariant forall k, l | k in lemmas && l in lemmas && k != l :: lemmas[k] != lemmas[l]
      invariant forall l | l in lemmas :: lemmas[l].Value() == Fold(known, i, unknown, 0, l) != NOTHING
      invariant forall l | l !in lemmas :: Fold(known, i, unknown, 0, l) == NOTHING
    {
      var folded := Lower(known[i].spelling);
      var rows;
      if folded in lemmas {
        rows := lemmas[folded];
      } else {
        rows := new LemmaRows();
      }
      ghost var was := rows.Value();
      assert was == Fold(known, i, unknown, 0, folded);
      rows.SeeKnown(known[i].spelling, known[i].pos, known[i].createdAt);
      assert known[i].spelling in rows.spellings;
      lemmas := lemmas[folded := rows];
    }
    for j := 0 to |unknown|
      invariant forall l | l in lemmas :: fresh(lemmas[l])
      invariant forall k, l | k in lemmas && l in lemmas && k != l :: lemmas[k] != lemmas[l]
      invariant forall l | l in lemmas ::
                  lemmas[l].Value() == Fold(known, |known|, unknown, j, l) != NOTHING
      invariant forall l | l !in lemmas :: Fold(known, |known|, unknown, j, l) == NOTHING
    {
      var folded := Lower(unknown[j].spelling);
      var rows;
      if folded in lemmas {
        rows := lemmas[folded];
      } else {
        rows := new LemmaRows();
      }
      ghost var was := rows.Value();
      assert was == Fold(known, |known|, unknown, j, folded);
      rows.SeeUnknown(unknown[j].spelling, unknown[j].createdAt);
      assert unknown[j].spelling in rows.spellings;
      lemmas := lemmas[folded := rows];
    }
  }

  /** The mark of a lemma, its parts of speech, and what the log says of it. */
  method Resolve(folded: string, rows: LemmaRows)
    returns (mark: Mark, pos: set<PartOfSpeech>, lines: seq<LogLine>)
    requires rows.knownAt.Some? || rows.unknownAt.Some?
    ensures mark == Mark(KindOf(rows.Value()), Newest(rows.knownAt, rows.unknownAt))
    ensures pos == PosOf(rows.Value())
    ensures forall line :: line in lines <==> IsLogged(folded, rows.Value(), line)
    ensures forall i, j | 0 <= i < j < |lines| :: lines[i] != lines[j]
  {
    lines := [];
    if |rows.spellings| > 1 {
      lines := lines + [CaseMerge(folded, rows.spellings)];
    }
    var kind;
    if rows.knownAt.Some? && rows.unknownAt.Some? {
      kind := if rows.knownAt.value > rows.unknownAt.value then KnownMark else UnknownMark;
      lines := lines + [Conflict(
        folded, rows.knownAt.value, rows.unknownAt.value, kind,
        if kind.KnownMark? then {} else rows.pos)];
    } else {
      kind := if rows.knownAt.Some? then KnownMark else UnknownMark;
    }
    mark := Mark(kind, Newest(rows.knownAt, rows.unknownAt));
    if kind.UnknownMark? {
      pos := {};
    } else {
      pos := rows.pos;
      if None in pos && pos != {None} {
        lines := lines + [PosAbsorbed(folded, pos - {None})];
        pos := {None};
      }
    }
  }

  /** A row of `known_pos`. */
  datatype KnownPos = KnownPos(folded: string, pos: PartOfSpeech)

  ghost predicate InLists(known: seq<KnownRow>, unknown: seq<UnknownRow>, folded: string) {
    (exists row :: InKnown(known, folded, row)) || (exists row :: InUnknown(unknown, folded, row))
  }

  /** The tables are what the lists say: a mark for each of their lemmas, and its parts. */
  ghost predicate AreMarks(
    known: seq<KnownRow>, unknown: seq<UnknownRow>, marks: map<string, Mark>, knownPos: set<KnownPos>)
  {
    && (forall l :: l in marks <==> InLists(known, unknown, l))
    && (forall l | l in marks :: IsMark(known, unknown, l, marks[l]))
    && (forall row | row in knownPos :: row.folded in marks)
    && (forall l, pos | l in marks ::
          KnownPos(l, pos) in knownPos <==> IsKnownPos(known, l, marks[l], pos))
  }

  method Upgrade(known: seq<KnownRow>, unknown: seq<UnknownRow>)
    returns (marks: map<string, Mark>, knownPos: set<KnownPos>, log: seq<LogLine>)
    ensures AreMarks(known, unknown, marks, knownPos)
    ensures forall line :: line in log <==>
              exists l :: l in marks && IsLogged(l, Fold(known, |known|, unknown, |unknown|, l), line)
  {
    var lemmas := ReadLemmas(known, unknown);
    marks, knownPos, log := map[], {}, [];
    var rest := lemmas.Keys;
    while rest != {}
      invariant rest <= lemmas.Keys
      invariant forall l | l in lemmas ::
                  lemmas[l].Value() == Fold(known, |known|, unknown, |unknown|, l)
      invariant forall l :: l in marks <==> l in lemmas && l !in rest
      invariant forall l | l in marks ::
                  && IsMark(known, unknown, l, marks[l])
                  && forall pos :: KnownPos(l, pos) in knownPos <==> IsKnownPos(known, l, marks[l], pos)
      invariant forall row | row in knownPos :: row.folded in marks
      invariant forall line :: line in log <==>
                  exists l :: l in marks && IsLogged(l, Fold(known, |known|, unknown, |unknown|, l), line)
      decreases rest
    {
      ghost var some := Sets.SomeElement(rest);
      var l :| l in rest;
      rest := rest - {l};
      ghost var seen := lemmas[l].Value();
      SeenInLists(known, unknown, l);
      var mark, pos, lines := Resolve(l, lemmas[l]);
      SeenIsTheMark(known, unknown, l, seen, mark, pos);
      marks := marks[l := mark];
      knownPos := knownPos + set p | p in pos :: KnownPos(l, p);
      log := log + lines;
    }
    forall l
      ensures l in marks <==> InLists(known, unknown, l)
    {
      SeenInLists(known, unknown, l);
    }
  }

  // ── The fold says what the lists say ────────────────────────────────

  lemma NewestOfMoreKnown(known: seq<KnownRow>, row: KnownRow, folded: string, at: Option<Time>)
    requires IsKnownAt(known, folded, at)
    ensures IsKnownAt(
              known + [row], folded, if Lower(row.spelling) == folded then Later(at, row.createdAt) else at)
    ensures forall pos :: HasPos(known + [row], folded, pos) <==>
              HasPos(known, folded, pos) || (Lower(row.spelling) == folded && row.pos == pos)
  {
    forall other
      ensures InKnown(known + [row], folded, other) <==>
              InKnown(known, folded, other) || (other == row && Lower(row.spelling) == folded)
    {
    }
    hide InKnown;
  }

  lemma NewestOfMoreUnknown(unknown: seq<UnknownRow>, row: UnknownRow, folded: string, at: Option<Time>)
    requires IsUnknownAt(unknown, folded, at)
    ensures IsUnknownAt(
              unknown + [row], folded, if Lower(row.spelling) == folded then Later(at, row.createdAt) else at)
  {
    forall other
      ensures InUnknown(unknown + [row], folded, other) <==>
              InUnknown(unknown, folded, other) || (other == row && Lower(row.spelling) == folded)
    {
    }
    hide InUnknown;
  }

  lemma {:induction false} FoldSaysTheLists(
    known: seq<KnownRow>, n: nat, unknown: seq<UnknownRow>, m: nat, folded: string)
    requires n <= |known| && m <= |unknown|
    ensures var seen := Fold(known, n, unknown, m, folded);
            && IsKnownAt(known[..n], folded, seen.knownAt)
            && IsUnknownAt(unknown[..m], folded, seen.unknownAt)
            && forall pos :: pos in seen.pos <==> HasPos(known[..n], folded, pos)
    decreases m, n
  {
    if m > 0 {
      FoldSaysTheLists(known, n, unknown, m - 1, folded);
      assert unknown[..m] == unknown[..m - 1] + [unknown[m - 1]];
      NewestOfMoreUnknown(
        unknown[..m - 1], unknown[m - 1], folded, Fold(known, n, unknown, m - 1, folded).unknownAt);
      hide IsKnownAt, IsUnknownAt, HasPos, Lower, Later;
    } else if n > 0 {
      FoldSaysTheLists(known, n - 1, unknown, 0, folded);
      assert known[..n] == known[..n - 1] + [known[n - 1]];
      NewestOfMoreKnown(known[..n - 1], known[n - 1], folded, Fold(known, n - 1, unknown, 0, folded).knownAt);
      hide IsKnownAt, IsUnknownAt, HasPos, Lower, Later;
    }
  }

  lemma SeenInLists(known: seq<KnownRow>, unknown: seq<UnknownRow>, folded: string)
    ensures var seen := Fold(known, |known|, unknown, |unknown|, folded);
            && IsKnownAt(known, folded, seen.knownAt)
            && IsUnknownAt(unknown, folded, seen.unknownAt)
            && (forall pos :: pos in seen.pos <==> HasPos(known, folded, pos))
            && (seen == NOTHING <==> !InLists(known, unknown, folded))
            && (seen != NOTHING ==> seen.knownAt.Some? || seen.unknownAt.Some?)
  {
    FoldSaysTheLists(known, |known|, unknown, |unknown|, folded);
    assert known[..|known|] == known && unknown[..|unknown|] == unknown;
    FoldOfNothing(known, |known|, unknown, |unknown|, folded);
  }

  lemma {:induction false} FoldOfNothing(
    known: seq<KnownRow>, n: nat, unknown: seq<UnknownRow>, m: nat, folded: string)
    requires n <= |known| && m <= |unknown|
    ensures var seen := Fold(known, n, unknown, m, folded);
            seen.knownAt.None? && seen.unknownAt.None? ==> seen == NOTHING
    decreases m, n
  {
    if m > 0 {
      FoldOfNothing(known, n, unknown, m - 1, folded);
    } else if n > 0 {
      FoldOfNothing(known, n - 1, unknown, 0, folded);
    }
  }

  lemma SeenIsTheMark(
    known: seq<KnownRow>, unknown: seq<UnknownRow>, folded: string, seen: Seen, mark: Mark,
    pos: set<PartOfSpeech>)
    requires IsKnownAt(known, folded, seen.knownAt) && IsUnknownAt(unknown, folded, seen.unknownAt)
    requires forall p :: p in seen.pos <==> HasPos(known, folded, p)
    requires seen.knownAt.Some? || seen.unknownAt.Some?
    requires mark == Mark(KindOf(seen), Newest(seen.knownAt, seen.unknownAt)) && pos == PosOf(seen)
    ensures IsMark(known, unknown, folded, mark)
    ensures forall p :: p in pos <==> IsKnownPos(known, folded, mark, p)
  {
  }

  // ── Laws ────────────────────────────────────────────────────────────

  lemma OneNewestTime(known: seq<KnownRow>, unknown: seq<UnknownRow>, folded: string, a: Option<Time>, b: Option<Time>)
    ensures IsKnownAt(known, folded, a) && IsKnownAt(known, folded, b) ==> a == b
    ensures IsUnknownAt(unknown, folded, a) && IsUnknownAt(unknown, folded, b) ==> a == b
  {
  }

  /** The lists determine the tables: the same rows, in any order and however often, give the
      same marks and the same parts of speech. */
  lemma SameRowsSameMarks(
    known: seq<KnownRow>, unknown: seq<UnknownRow>, marks: map<string, Mark>, knownPos: set<KnownPos>,
    known': seq<KnownRow>, unknown': seq<UnknownRow>, marks': map<string, Mark>, knownPos': set<KnownPos>)
    requires forall row :: row in known <==> row in known'
    requires forall row :: row in unknown <==> row in unknown'
    requires AreMarks(known, unknown, marks, knownPos)
    requires AreMarks(known', unknown', marks', knownPos')
    ensures marks == marks' && knownPos == knownPos'
  {
    forall l, row: KnownRow
      ensures InKnown(known, l, row) <==> InKnown(known', l, row)
    {
    }
    forall l, row: UnknownRow
      ensures InUnknown(unknown, l, row) <==> InUnknown(unknown', l, row)
    {
    }
    forall l
      ensures InLists(known, unknown, l) <==> InLists(known', unknown', l)
    {
    }
    forall l | l in marks
      ensures marks[l] == marks'[l]
    {
      SameMark(known, unknown, known', unknown', l, marks[l], marks'[l]);
    }
    forall row: KnownPos
      ensures row in knownPos <==> row in knownPos'
    {
      assert HasPos(known, row.folded, row.pos) <==> HasPos(known', row.folded, row.pos);
      assert HasPos(known, row.folded, None) <==> HasPos(known', row.folded, None);
      assert row == KnownPos(row.folded, row.pos);
    }
  }

  lemma SameMark(
    known: seq<KnownRow>, unknown: seq<UnknownRow>, known': seq<KnownRow>, unknown': seq<UnknownRow>,
    folded: string, mark: Mark, mark': Mark)
    requires forall row :: InKnown(known, folded, row) <==> InKnown(known', folded, row)
    requires forall row :: InUnknown(unknown, folded, row) <==> InUnknown(unknown', folded, row)
    requires IsMark(known, unknown, folded, mark) && IsMark(known', unknown', folded, mark')
    ensures mark == mark'
  {
    var k, u :| && IsKnownAt(known, folded, k) && IsUnknownAt(unknown, folded, u)
      && (k.Some? || u.Some?)
      && (mark.kind.KnownMark? <==> k.Some? && (u.Some? ==> u.value < k.value))
      && mark.createdAt == Newest(k, u);
    var k', u' :| && IsKnownAt(known', folded, k') && IsUnknownAt(unknown', folded, u')
      && (k'.Some? || u'.Some?)
      && (mark'.kind.KnownMark? <==> k'.Some? && (u'.Some? ==> u'.value < k'.value))
      && mark'.createdAt == Newest(k', u');
    assert IsKnownAt(known, folded, k') && IsUnknownAt(unknown, folded, u');
    OneNewestTime(known, unknown, folded, k, k');
    OneNewestTime(known, unknown, folded, u, u');
  }

  /** Only Known marks have parts of speech; each has one at least, and any part stands alone. */
  lemma PosOfMarks(
    known: seq<KnownRow>, unknown: seq<UnknownRow>, marks: map<string, Mark>, knownPos: set<KnownPos>)
    requires AreMarks(known, unknown, marks, knownPos)
    ensures forall row | row in knownPos :: row.folded in marks && marks[row.folded].kind.KnownMark?
    ensures forall l | l in marks && marks[l].kind.KnownMark? ::
              exists pos :: KnownPos(l, pos) in knownPos
    ensures forall l, pos | KnownPos(l, None) in knownPos && KnownPos(l, pos) in knownPos :: pos == None
    ensures forall l | l in marks && marks[l].kind.KnownMark? ::
              KnownPos(l, None) in knownPos <==> HasPos(known, l, None)
    ensures forall l, pos | l in marks && marks[l].kind.KnownMark? && pos != None ::
              KnownPos(l, pos) in knownPos <==>
                && (exists row :: row in known && Lower(row.spelling) == l && row.pos == pos)
                && forall row | row in known && Lower(row.spelling) == l :: row.pos != None
  {
    forall row | row in knownPos
      ensures marks[row.folded].kind.KnownMark?
    {
      assert row == KnownPos(row.folded, row.pos);
    }
    forall l | l in marks && marks[l].kind.KnownMark?
      ensures exists pos :: KnownPos(l, pos) in knownPos
    {
      var row :| InKnown(known, l, row);
      assert HasPos(known, l, row.pos);
      var pos := if HasPos(known, l, None) then None else row.pos;
      assert KnownPos(l, pos) in knownPos;
    }
    forall l, pos
      ensures HasPos(known, l, pos) <==> exists row :: row in known && Lower(row.spelling) == l && row.pos == pos
    {
      if row :| row in known && Lower(row.spelling) == l && row.pos == pos {
        assert InKnown(known, l, row);
      }
    }
  }

  /** A lemma ends Known exactly when it is in Known and no row of Unknown is as new. */
  lemma KnownIffNewer(
    known: seq<KnownRow>, unknown: seq<UnknownRow>, marks: map<string, Mark>, knownPos: set<KnownPos>,
    folded: string)
    requires AreMarks(known, unknown, marks, knownPos)
    ensures folded in marks && marks[folded].kind.KnownMark?
       <==> exists row :: InKnown(known, folded, row)
              && forall other | InUnknown(unknown, folded, other) :: other.createdAt < row.createdAt
    ensures folded in marks ==>
              && (forall row | InKnown(known, folded, row) :: row.createdAt <= marks[folded].createdAt)
              && (forall row | InUnknown(unknown, folded, row) :: row.createdAt <= marks[folded].createdAt)
    ensures folded in marks ==>
              || (exists row :: InKnown(known, folded, row) && row.createdAt == marks[folded].createdAt)
              || (exists row :: InUnknown(unknown, folded, row) && row.createdAt == marks[folded].createdAt)
  {
    if folded in marks {
      var mark := marks[folded];
      var k, u :| && IsKnownAt(known, folded, k) && IsUnknownAt(unknown, folded, u)
        && (k.Some? || u.Some?)
        && (mark.kind.KnownMark? <==> k.Some? && (u.Some? ==> u.value < k.value))
        && mark.createdAt == Newest(k, u);
    }
  }

  // ── What the log tells ──────────────────────────────────────────────

  ghost predicate IsSpelled(known: seq<KnownRow>, unknown: seq<UnknownRow>, folded: string, spelling: string) {
    || (exists row :: row in known && Lower(row.spelling) == folded && row.spelling == spelling)
    || (exists row :: row in unknown && Lower(row.spelling) == folded && row.spelling == spelling)
  }

  lemma {:induction false} SpellingsAre(
    known: seq<KnownRow>, n: nat, unknown: seq<UnknownRow>, m: nat, folded: string, spelling: string)
    requires n <= |known| && m <= |unknown|
    ensures spelling in Fold(known, n, unknown, m, folded).spellings <==>
              IsSpelled(known[..n], unknown[..m], folded, spelling)
    decreases m, n
  {
    if m > 0 {
      SpellingsAre(known, n, unknown, m - 1, folded, spelling);
      assert unknown[..m] == unknown[..m - 1] + [unknown[m - 1]];
    } else if n > 0 {
      SpellingsAre(known, n - 1, unknown, 0, folded, spelling);
      assert known[..n] == known[..n - 1] + [known[n - 1]];
      assert unknown[..0] == [];
    }
  }

  /** What the log says of a lemma, in terms of the rows: its spellings, if there are several; the
      newest times of both lists, if it is in both, which of them is kept and the parts of speech
      dropped with Known; and the parts any part absorbs. */
  ghost predicate TellsOfRows(known: seq<KnownRow>, unknown: seq<UnknownRow>, l: string, line: LogLine) {
    match line
    case CaseMerge(folded, spellings) =>
      folded == l && |spellings| > 1
      && forall spelling :: spelling in spellings <==> IsSpelled(known, unknown, l, spelling)
    case Conflict(folded, knownAt, unknownAt, kept, dropped) =>
      && folded == l && IsKnownAt(known, l, Some(knownAt)) && IsUnknownAt(unknown, l, Some(unknownAt))
      && kept == (if unknownAt < knownAt then KnownMark else UnknownMark)
      && forall pos :: pos in dropped <==> kept == UnknownMark && HasPos(known, l, pos)
    case PosAbsorbed(folded, dropped) =>
      && folded == l && HasPos(known, l, None) && dropped != {}
      && (exists row :: InKnown(known, l, row)
            && forall other | InUnknown(unknown, l, other) :: other.createdAt < row.createdAt)
      && forall pos :: pos in dropped <==> pos != None && HasPos(known, l, pos)
  }

  lemma LogTellsTheRows(known: seq<KnownRow>, unknown: seq<UnknownRow>, l: string, line: LogLine)
    ensures IsLogged(l, Fold(known, |known|, unknown, |unknown|, l), line) <==> TellsOfRows(known, unknown, l, line)
  {
    var seen := Fold(known, |known|, unknown, |unknown|, l);
    FoldSaysTheLists(known, |known|, unknown, |unknown|, l);
    assert known[..|known|] == known && unknown[..|unknown|] == unknown;
    forall spelling
      ensures spelling in seen.spellings <==> IsSpelled(known, unknown, l, spelling)
    {
      SpellingsAre(known, |known|, unknown, |unknown|, l, spelling);
    }
    hide Fold, IsSpelled;
    match line
    case CaseMerge(folded, spellings) =>
      if forall spelling :: spelling in spellings <==> IsSpelled(known, unknown, l, spelling) {
        assert spellings == seen.spellings;
      }
    case Conflict(folded, knownAt, unknownAt, kept, dropped) =>
      OneNewestTime(known, unknown, l, seen.knownAt, Some(knownAt));
      OneNewestTime(known, unknown, l, seen.unknownAt, Some(unknownAt));
      if forall pos :: pos in dropped <==> kept == UnknownMark && HasPos(known, l, pos) {
        assert dropped == if kept == UnknownMark then seen.pos else {};
      }
    case PosAbsorbed(folded, dropped) =>
      if forall pos :: pos in dropped <==> pos != None && HasPos(known, l, pos) {
        assert dropped == seen.pos - {None};
      }
  }
}
