/** The key of an occurrence: the line and character of a block where the target starts. The
    migration finds it by walking the lines; the analysis finds it from the text's offsets. */
module OccurrenceKeys {
  import opened Schema

  const SEPARATOR_LENGTH: nat := 1

  /** The offset in a block's text where a line starts: its lines are joined by a separator. */
  function LineStart(lengths: seq<nat>, line: nat): nat
    requires line <= |lengths|
  {
    if line == 0 then 0 else LineStart(lengths, line - 1) + lengths[line - 1] + SEPARATOR_LENGTH
  }

  /** Where the walk over the lines ends, started at a character of a line. */
  function Settled(lengths: seq<nat>, line: nat, column: int): (int, int)
    decreases |lengths| - line
  {
    if line < |lengths| - 1 && column >= lengths[line]
    then Settled(lengths, line + 1, column - lengths[line] - SEPARATOR_LENGTH)
    else (line, column)
  }

  /** The target's indexes are those of words of the phrase, if it has words. */
  predicate ValidTarget(phrase: Wording) {
    phrase.wordStarts == [] || forall k | 0 <= k < |phrase.target| :: phrase.target[k] < |phrase.wordStarts|
  }

  function LeastStart(starts: seq<nat>, target: seq<nat>): nat
    requires target != []
    requires forall k | 0 <= k < |target| :: target[k] < |starts|
  {
    var first := starts[target[0]];
    if |target| == 1 then first
    else var rest := LeastStart(starts, target[1..]); if first < rest then first else rest
  }

  /** How far into the phrase its first target word starts. */
  function TargetOffset(phrase: Wording): nat
    requires ValidTarget(phrase)
  {
    if phrase.target == [] || phrase.wordStarts == [] then 0
    else LeastStart(phrase.wordStarts, phrase.target)
  }

  function LinesOf(lengths: map<int, seq<nat>>, block: int): seq<nat> {
    if block in lengths then lengths[block] else []
  }

  function KeyOf(position: Position, phrase: Wording, lengths: map<int, seq<nat>>): Key
    requires ValidTarget(phrase)
  {
    var place := Settled(
      LinesOf(lengths, position.block), position.line, position.column + TargetOffset(phrase));
    Key(position.block, place.0, place.1)
  }

  // ── The key is the offset in the block's text, and only that ────────

  /** Whether an offset of the block's text is a character of the given line. */
  predicate OnLine(lengths: seq<nat>, offset: int, line: int) {
    && 0 <= line < |lengths|
    && LineStart(lengths, line) <= offset < LineStart(lengths, line) + lengths[line]
  }

  ghost predicate OnSomeLine(lengths: seq<nat>, offset: int) {
    exists line :: OnLine(lengths, offset, line)
  }

  lemma {:induction false} LinesAreApart(lengths: seq<nat>, a: nat, b: nat)
    requires a < b <= |lengths|
    ensures LineStart(lengths, a) + lengths[a] + SEPARATOR_LENGTH <= LineStart(lengths, b)
  {
    if a < b - 1 {
      LinesAreApart(lengths, a, b - 1);
    }
  }

  /** The walk never leaves its offset: the key it ends at flattens back to it, whatever the
      offset is, and it ends on a line of the block. */
  lemma {:induction false} WalkKeepsTheOffset(lengths: seq<nat>, line: nat, column: int)
    requires line < |lengths|
    ensures var (l, c) := Settled(lengths, line, column);
            line <= l < |lengths| && LineStart(lengths, l) + c == LineStart(lengths, line) + column
    decreases |lengths| - line
  {
    if line < |lengths| - 1 && column >= lengths[line] {
      WalkKeepsTheOffset(lengths, line + 1, column - lengths[line] - SEPARATOR_LENGTH);
    }
  }

  /** The walk stops at the first line the offset does not pass: it lies before the end of
      that line, unless that line is the last. Only a separator gives a negative character. */
  lemma {:induction false} WalkStops(lengths: seq<nat>, line: nat, column: int)
    requires line < |lengths| && column >= -1
    ensures var (l, c) := Settled(lengths, line, column);
            && c >= -1
            && (0 <= l < |lengths| - 1 ==> c < lengths[l])
            && (c == -1 ==> l == line || 0 < l)
    decreases |lengths| - line
  {
    if line < |lengths| - 1 && column >= lengths[line] {
      WalkStops(lengths, line + 1, column - lengths[line] - SEPARATOR_LENGTH);
    }
  }

  // ── The key is of the target's first word ───────────────────────────

  /** Whether a key is the place so many characters after a position, in the lines of its block:
      a character of a line, the place before it, or anywhere on or past the last line. */
  predicate IsAfter(lines: seq<nat>, position: Position, distance: nat, key: Key) {
    && key.block == position.block
    && if position.line < |lines| then
         && position.line <= key.line < |lines|
         && LineStart(lines, key.line) + key.column == LineStart(lines, position.line) + position.column + distance
         && -1 <= key.column && (key.line < |lines| - 1 ==> key.column < lines[key.line])
       else
         key.line == position.line && key.column == position.column + distance
  }

  /** Whether a key is where the first word of the target starts: that of all its words which
      starts first, or the phrase's own start if it has no target or no words. */
  ghost predicate IsOfFirstWord(lines: seq<nat>, position: Position, phrase: Wording, key: Key)
    requires ValidTarget(phrase)
  {
    if phrase.target == [] || phrase.wordStarts == [] then IsAfter(lines, position, 0, key)
    else
      exists k ::
        && 0 <= k < |phrase.target|
        && IsAfter(lines, position, phrase.wordStarts[phrase.target[k]], key)
        && forall j | 0 <= j < |phrase.target| ::
             phrase.wordStarts[phrase.target[k]] <= phrase.wordStarts[phrase.target[j]]
  }

  lemma {:induction false} LeastStartIs(starts: seq<nat>, target: seq<nat>) returns (k: nat)
    requires target != [] && forall j | 0 <= j < |target| :: target[j] < |starts|
    ensures k < |target| && starts[target[k]] == LeastStart(starts, target)
    ensures forall j | 0 <= j < |target| :: starts[target[k]] <= starts[target[j]]
  {
    k := 0;
    if |target| > 1 {
      var rest := LeastStartIs(starts, target[1..]);
      assert forall j | 1 <= j < |target| :: target[j] == target[1..][j - 1];
      if starts[target[0]] >= starts[target[1..][rest]] {
        k := rest + 1;
      }
    }
  }

  lemma KeyIsOfTheFirstWord(position: Position, phrase: Wording, lengths: map<int, seq<nat>>)
    requires ValidTarget(phrase)
    ensures IsOfFirstWord(
              if position.block in lengths then lengths[position.block] else [], position, phrase,
              KeyOf(position, phrase, lengths))
  {
    var lines := LinesOf(lengths, position.block);
    var distance := TargetOffset(phrase);
    if position.line < |lines| {
      WalkKeepsTheOffset(lines, position.line, position.column + distance);
      WalkStops(lines, position.line, position.column + distance);
    }
    assert IsAfter(lines, position, distance, KeyOf(position, phrase, lengths));
    if phrase.target != [] && phrase.wordStarts != [] {
      var k := LeastStartIs(phrase.wordStarts, phrase.target);
    }
  }

  lemma OnePlaceAfter(lines: seq<nat>, position: Position, distance: nat, a: Key, b: Key)
    requires IsAfter(lines, position, distance, a) && IsAfter(lines, position, distance, b)
    ensures a == b
  {
    if position.line < |lines| {
      if a.line < b.line {
        LinesAreApart(lines, a.line, b.line);
      } else if b.line < a.line {
        LinesAreApart(lines, b.line, a.line);
      }
    }
  }

  /** Only one key is that of the target's first word. */
  lemma OneKeyOfFirstWord(lines: seq<nat>, position: Position, phrase: Wording, a: Key, b: Key)
    requires ValidTarget(phrase)
    requires IsOfFirstWord(lines, position, phrase, a) && IsOfFirstWord(lines, position, phrase, b)
    ensures a == b
  {
    hide IsAfter;
    if phrase.target == [] || phrase.wordStarts == [] {
      OnePlaceAfter(lines, position, 0, a, b);
    } else {
      var j :| 0 <= j < |phrase.target| && IsAfter(lines, position, phrase.wordStarts[phrase.target[j]], a)
               && forall i | 0 <= i < |phrase.target| ::
                    phrase.wordStarts[phrase.target[j]] <= phrase.wordStarts[phrase.target[i]];
      var k :| 0 <= k < |phrase.target| && IsAfter(lines, position, phrase.wordStarts[phrase.target[k]], b)
               && forall i | 0 <= i < |phrase.target| ::
                    phrase.wordStarts[phrase.target[k]] <= phrase.wordStarts[phrase.target[i]];
      OnePlaceAfter(lines, position, phrase.wordStarts[phrase.target[j]], a, b);
    }
  }

  method TargetKey(position: Position, phrase: Wording, lengths: map<int, seq<nat>>)
    returns (key: Key)
    requires ValidTarget(phrase)
    ensures key == KeyOf(position, phrase, lengths)
    ensures IsOfFirstWord(
              if position.block in lengths then lengths[position.block] else [], position, phrase, key)
  {
    KeyIsOfTheFirstWord(position, phrase, lengths);
    var line: nat, column: int := position.line, position.column + TargetOffset(phrase);
    var blockLines := LinesOf(lengths, position.block);
    while line < |blockLines| - 1 && column >= blockLines[line]
      invariant Settled(blockLines, line, column)
             == Settled(blockLines, position.line, position.column + TargetOffset(phrase))
      decreases |blockLines| - line
    {
      column := column - (blockLines[line] + SEPARATOR_LENGTH);
      line := line + 1;
    }
    key := Key(position.block, line, column);
  }

  /** The key is a character of its line exactly when the offset is a character of some line:
      empty lines in between are passed, and a separator never reads as a character. */
  lemma KeyIsOnALine(lengths: seq<nat>, line: nat, column: nat)
    requires line < |lengths|
    ensures var (l, c) := Settled(lengths, line, column);
            && 0 <= l < |lengths|
            && (0 <= c < lengths[l] <==> OnSomeLine(lengths, LineStart(lengths, line) + column))
  {
    var offset := LineStart(lengths, line) + column;
    var (l, c) := Settled(lengths, line, column);
    WalkKeepsTheOffset(lengths, line, column);
    WalkStops(lengths, line, column);
    if 0 <= c < lengths[l] {
      assert OnLine(lengths, offset, l);
    }
    if OnSomeLine(lengths, offset) {
      var at :| OnLine(lengths, offset, at);
      WalkStartsAtLeastAt(lengths, line, column, at);
      if l < at {
        LinesAreApart(lengths, l, at);
      }
    }
  }

  /** A line whose characters hold the offset is never walked past. */
  lemma {:induction false} WalkStartsAtLeastAt(lengths: seq<nat>, line: nat, column: nat, at: nat)
    requires line < |lengths| && OnLine(lengths, LineStart(lengths, line) + column, at)
    ensures Settled(lengths, line, column).0 <= at
    decreases |lengths| - line
  {
    if at < line {
      LinesAreApart(lengths, at, line);
    } else if line < |lengths| - 1 && column >= lengths[line] {
      if at == line {
        assert false;
      } else {
        LinesAreApart(lengths, line, at);
        WalkStartsAtLeastAt(lengths, line + 1, column - lengths[line] - SEPARATOR_LENGTH, at);
      }
    }
  }

  /** The walk from the first line passes every line before a later start of it. */
  lemma {:induction false} WalkPasses(lengths: seq<nat>, from: nat, line: nat, column: nat)
    requires from <= line < |lengths|
    ensures Settled(lengths, from, LineStart(lengths, line) - LineStart(lengths, from) + column)
         == Settled(lengths, line, column)
    decreases line - from
  {
    if from < line {
      LinesAreApart(lengths, from, line);
      WalkPasses(lengths, from + 1, line, column);
    }
  }

  /** Two targets of a block get the same key exactly when they start at the same offset,
      wherever their phrases start: an occurrence has one key, and two have two. */
  lemma SameKeyIffSameOffset(lengths: seq<nat>, lineA: nat, columnA: nat, lineB: nat, columnB: nat)
    requires lineA < |lengths| && lineB < |lengths|
    ensures Settled(lengths, lineA, columnA) == Settled(lengths, lineB, columnB)
       <==> LineStart(lengths, lineA) + columnA == LineStart(lengths, lineB) + columnB
  {
    WalkKeepsTheOffset(lengths, lineA, columnA);
    WalkKeepsTheOffset(lengths, lineB, columnB);
    WalkPasses(lengths, 0, lineA, columnA);
    WalkPasses(lengths, 0, lineB, columnB);
  }

  // ── The rule of the analysis ────────────────────────────────────────

  const BLOCK_SEPARATOR_LENGTH: nat := 2

  function BlockLength(lengths: seq<nat>): nat {
    if lengths == [] then 0 else LineStart(lengths, |lengths| - 1) + lengths[|lengths| - 1]
  }

  /** The offset in the document's text where a block starts. */
  function BlockStart(blocks: seq<seq<nat>>, block: nat): nat
    requires block <= |blocks|
  {
    if block == 0 then 0
    else BlockStart(blocks, block - 1) + BlockLength(blocks[block - 1]) + BLOCK_SEPARATOR_LENGTH
  }

  predicate IsPlace(blocks: seq<seq<nat>>, block: int, line: int) {
    0 <= block < |blocks| && 0 <= line < |blocks[block]|
  }

  /** Where a line of the document starts. */
  function PlaceStart(blocks: seq<seq<nat>>, block: nat, line: nat): nat
    requires IsPlace(blocks, block, line)
  {
    BlockStart(blocks, block) + LineStart(blocks[block], line)
  }

  /** The line the analysis places an offset on: of all lines of the document, the last one
      that starts at or before it. */
  ghost predicate IsLineAt(blocks: seq<seq<nat>>, offset: nat, block: int, line: int) {
    && IsPlace(blocks, block, line) && PlaceStart(blocks, block, line) <= offset
    && forall b, l | IsPlace(blocks, b, l) && PlaceStart(blocks, b, l) <= offset ::
         PlaceStart(blocks, b, l) <= PlaceStart(blocks, block, line)
  }

  lemma {:induction false} BlocksAreApart(blocks: seq<seq<nat>>, a: nat, b: nat)
    requires a < b <= |blocks|
    ensures BlockStart(blocks, a) + BlockLength(blocks[a]) + BLOCK_SEPARATOR_LENGTH <= BlockStart(blocks, b)
  {
    if a < b - 1 {
      BlocksAreApart(blocks, a, b - 1);
    }
  }

  lemma LineInBlock(lengths: seq<nat>, line: nat)
    requires line < |lengths|
    ensures LineStart(lengths, line) + lengths[line] <= BlockLength(lengths)
  {
    if line < |lengths| - 1 {
      LinesAreApart(lengths, line, |lengths| - 1);
    }
  }

  /** A line of the block the analysis places an offset on is the last of it to start at or
      before the offset. */
  lemma LineOfBlock(blocks: seq<seq<nat>>, offset: nat, block: nat, line: nat)
    requires IsLineAt(blocks, offset, block, line)
    ensures LineStart(blocks[block], line) <= offset - BlockStart(blocks, block)
    ensures line + 1 < |blocks[block]| ==> offset - BlockStart(blocks, block) < LineStart(blocks[block], line + 1)
  {
    if line + 1 < |blocks[block]| {
      LinesAreApart(blocks[block], line, line + 1);
      assert IsPlace(blocks, block, line + 1);
    }
  }

  /** The migration's key is said to follow the analysis' rule. It does if and only if the
      analysis finds the target in the phrase's block, and not on the separator after a line:
      there it gives the end of that line, the migration the place before the next one. */
  lemma AgreesWithTheAnalysis(
    blocks: seq<seq<nat>>, block: nat, line: nat, column: nat, foundBlock: nat, foundLine: nat)
    requires IsPlace(blocks, block, line)
    requires IsLineAt(blocks, PlaceStart(blocks, block, line) + column, foundBlock, foundLine)
    ensures
      var offset := PlaceStart(blocks, block, line) + column;
      var place := Settled(blocks[block], line, column);
      Key(block, place.0, place.1)
        == Key(foundBlock, foundLine, offset - PlaceStart(blocks, foundBlock, foundLine))
      <==>
        && foundBlock == block
        && (foundLine < |blocks[block]| - 1 ==>
              offset != PlaceStart(blocks, block, foundLine) + blocks[block][foundLine])
  {
    if foundBlock == block {
      var lengths := blocks[block];
      var offset := LineStart(lengths, line) + column;
      var (l, c) := Settled(lengths, line, column);
      LineOfBlock(blocks, PlaceStart(blocks, block, line) + column, block, foundLine);
      WalkKeepsTheOffset(lengths, line, column);
      WalkStops(lengths, line, column);
      if l < foundLine {
        LinesAreApart(lengths, l, foundLine);
      }
      if foundLine < line {
        LinesAreApart(lengths, foundLine, line);
      }
      if offset < LineStart(lengths, foundLine) + lengths[foundLine] {
        WalkStartsAtLeastAt(lengths, line, column, foundLine);
      } else if foundLine < |lengths| - 1 {
        assert offset == LineStart(lengths, foundLine) + lengths[foundLine];
      }
    }
  }

  /** A target word starts on a character of its block, so the two rules give it one key. */
  lemma WordsHaveOneKey(
    blocks: seq<seq<nat>>, block: nat, line: nat, column: nat, foundBlock: nat, foundLine: nat)
    requires IsPlace(blocks, block, line)
    requires OnSomeLine(blocks[block], LineStart(blocks[block], line) + column)
    requires IsLineAt(blocks, PlaceStart(blocks, block, line) + column, foundBlock, foundLine)
    ensures
      var offset := PlaceStart(blocks, block, line) + column;
      var place := Settled(blocks[block], line, column);
      Key(block, place.0, place.1)
        == Key(foundBlock, foundLine, offset - PlaceStart(blocks, foundBlock, foundLine))
  {
    var lengths := blocks[block];
    var offset := PlaceStart(blocks, block, line) + column;
    var at :| OnLine(lengths, LineStart(lengths, line) + column, at);
    assert IsPlace(blocks, block, at) && PlaceStart(blocks, block, at) <= offset;
    LineInBlock(lengths, at);
    LineInBlock(blocks[foundBlock], foundLine);
    if foundBlock < block {
      BlocksAreApart(blocks, foundBlock, block);
    } else if block < foundBlock {
      BlocksAreApart(blocks, block, foundBlock);
    }
    AgreesWithTheAnalysis(blocks, block, line, column, foundBlock, foundLine);
    if at < foundLine {
      LinesAreApart(lengths, at, foundLine);
    } else if foundLine < at {
      LinesAreApart(lengths, foundLine, at);
    }
  }

  /** An offset that no word starts at, the separator after an empty first line: the migration
      says (1, -1), the analysis (0, 0). */
  lemma DisagreesOnASeparator()
    ensures Settled([0, 3], 0, 0) == (1, -1)
    ensures IsLineAt([[0, 3]], 0, 0, 0)
  {
    assert LineStart([0, 3], 1) == 1;
    assert BlockStart([[0, 3]], 0) == 0;
    forall b, l | IsPlace([[0, 3]], b, l) && PlaceStart([[0, 3]], b, l) <= 0
      ensures PlaceStart([[0, 3]], b, l) <= PlaceStart([[0, 3]], 0, 0)
    {
    }
  }
}
