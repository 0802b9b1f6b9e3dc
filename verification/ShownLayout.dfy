/** What a card shows of its layout: rows with content, and dividers between them only. */
module ShownLayout {
  import opened Schema
  import Sets

  // ── Layout ──────────────────────────────────────────────────────────

  /** An element of a card, by its number in the list of elements. */
  type Element = nat

  /** What an element draws; nothing stands for null, undefined and false. */
  datatype Content = Nothing | Text(text: string) | Drawn(node: nat)

  predicate IsEmptyBlock(content: Content) {
    content.Nothing? || content == Text("")
  }

  datatype Sticks = Above | Below

  datatype Style = Style(alignEnd: bool, valignBottom: bool)

  datatype LayoutRow = Divider(sticks: Sticks) | Blocks(elements: seq<Element>)

  /** The styles of a layout, and what its elements draw. */
  datatype View = View(styles: seq<(Element, Style)>, render: Element -> Content)

  datatype ShownBlock = ShownBlock(element: Element, position: nat, content: Content)

  datatype ShownRow =
    | ShownDivider(index: nat, sticks: Sticks)
    | ShownBlocks(index: nat, blocks: seq<ShownBlock>)

  /** The first style listed for an element. */
  function StyleOf(styles: seq<(Element, Style)>, element: Element): Option<Style> {
    if styles == [] then None
    else if styles[0].0 == element then Some(styles[0].1)
    else StyleOf(styles[1..], element)
  }

  predicate IsAtEnd(view: View, element: Element) {
    StyleOf(view.styles, element).Some? && StyleOf(view.styles, element).value.alignEnd
  }

  predicate IsAtBottom(view: View, element: Element) {
    StyleOf(view.styles, element).Some? && StyleOf(view.styles, element).value.valignBottom
  }

  // ── The blocks of a row ─────────────────────────────────────────────

  function Insert(view: View, block: ShownBlock, blocks: seq<ShownBlock>): seq<ShownBlock> {
    if blocks == [] then [block]
    else if IsAtEnd(view, block.element) && !IsAtEnd(view, blocks[0].element)
    then [blocks[0]] + Insert(view, block, blocks[1..])
    else [block] + blocks
  }

  /** The blocks in the order of the screen: a stable sort, those at the end last. */
  function InRowOrder(view: View, blocks: seq<ShownBlock>): seq<ShownBlock> {
    if blocks == [] then [] else Insert(view, blocks[0], InRowOrder(view, blocks[1..]))
  }

  /** The blocks of the first elements that have something to show. */
  function Placed(view: View, elements: seq<Element>, n: nat): seq<ShownBlock>
    requires n <= |elements|
  {
    if n == 0 then []
    else
      var rest := Placed(view, elements, n - 1);
      var content := view.render(elements[n - 1]);
      if IsEmptyBlock(content) then rest
      else rest + [ShownBlock(elements[n - 1], n - 1, content)]
  }

  function Visible(view: View, elements: seq<Element>): seq<ShownBlock> {
    InRowOrder(view, Placed(view, elements, |elements|))
  }

  predicate HasSide(view: View, block: ShownBlock, atEnd: bool) {
    IsAtEnd(view, block.element) == atEnd
  }

  /** The blocks on one side of the row, as they come. */
  function OnSide(view: View, blocks: seq<ShownBlock>, atEnd: bool): seq<ShownBlock> {
    if blocks == [] then []
    else (if HasSide(view, blocks[0], atEnd) then [blocks[0]] else []) + OnSide(view, blocks[1..], atEnd)
  }

  lemma {:induction false} SideIsOne(view: View, blocks: seq<ShownBlock>, atEnd: bool)
    ensures forall block | block in OnSide(view, blocks, atEnd) :: HasSide(view, block, atEnd)
  {
    if blocks != [] {
      SideIsOne(view, blocks[1..], atEnd);
    }
  }

  lemma {:induction false} InsertParts(
    view: View, block: ShownBlock, start: seq<ShownBlock>, end: seq<ShownBlock>)
    requires forall other | other in start :: HasSide(view, other, false)
    requires forall other | other in end :: HasSide(view, other, true)
    ensures Insert(view, block, start + end) ==
            if HasSide(view, block, true) then start + [block] + end else [block] + start + end
  {
    if HasSide(view, block, true) && start != [] {
      assert (start + end)[1..] == start[1..] + end;
      assert start[0] in start;
      InsertParts(view, block, start[1..], end);
      assert start == [start[0]] + start[1..];
    } else {
      assert start + end != [] ==> (start + end)[0] in start + end;
      assert [block] + (start + end) == [block] + start + end;
    }
  }

  /** Row order puts the blocks at the end after the others; on either side they stay as they
      come. */
  lemma {:induction false} RowOrderParts(view: View, blocks: seq<ShownBlock>)
    ensures InRowOrder(view, blocks) == OnSide(view, blocks, false) + OnSide(view, blocks, true)
  {
    if blocks != [] {
      RowOrderParts(view, blocks[1..]);
      SideIsOne(view, blocks[1..], false);
      SideIsOne(view, blocks[1..], true);
      InsertParts(view, blocks[0], OnSide(view, blocks[1..], false), OnSide(view, blocks[1..], true));
    }
  }

  /** Blocks in row order stay as they are: it changes nothing to order them again. */
  lemma {:induction false} OrderedStay(view: View, start: seq<ShownBlock>, end: seq<ShownBlock>)
    requires forall other | other in start :: HasSide(view, other, false)
    requires forall other | other in end :: HasSide(view, other, true)
    ensures InRowOrder(view, start + end) == start + end
  {
    var blocks := start + end;
    if start != [] {
      assert blocks[1..] == start[1..] + end && blocks[0] == start[0];
      OrderedStay(view, start[1..], end);
      assert start[0] in start;
      InsertParts(view, start[0], start[1..], end);
      assert [start[0]] + start[1..] + end == blocks;
    } else if end != [] {
      assert blocks == end;
      OrderedStay(view, [], end[1..]);
      assert [] + end[1..] == end[1..];
      assert end[0] in end;
      InsertParts(view, end[0], [], end[1..]);
      assert [] + [end[0]] + end[1..] == end;
    }
  }

  // ── The rows of a column ────────────────────────────────────────────

  predicate IsVisible(view: View, row: LayoutRow) {
    row.Blocks? && Visible(view, row.elements) != []
  }

  /** Whether a column shows a row, of its first `n`: a row of blocks if it has content; a
      divider if a row with content comes before it and another after, with no divider
      between it and the next of them. */
  ghost predicate Shows(view: View, rows: seq<LayoutRow>, n: nat, i: nat)
    requires i < n <= |rows|
  {
    if rows[i].Blocks? then IsVisible(view, rows[i])
    else
      && (exists a :: 0 <= a < i && IsVisible(view, rows[a]))
      && exists b :: i < b < n && IsNextShown(view, rows, i, b)
  }

  ghost predicate IsNextShown(view: View, rows: seq<LayoutRow>, i: nat, b: nat)
    requires i < b < |rows|
  {
    && IsVisible(view, rows[b])
    && forall k | i < k < b :: rows[k].Blocks? && !IsVisible(view, rows[k])
  }

  function RowAt(view: View, rows: seq<LayoutRow>, i: nat): ShownRow
    requires i < |rows|
  {
    match rows[i]
    case Divider(sticks) => ShownDivider(i, sticks)
    case Blocks(elements) => ShownBlocks(i, Visible(view, elements))
  }

  ghost predicate HasIndex(shown: seq<ShownRow>, i: nat) {
    exists k :: 0 <= k < |shown| && shown[k].index == i
  }

  /** The rows a column shows of its first `n`, in order. */
  ghost predicate AreShown(view: View, rows: seq<LayoutRow>, n: nat, shown: seq<ShownRow>)
    requires n <= |rows|
  {
    && (forall k | 0 <= k < |shown| ::
          shown[k].index < n && Shows(view, rows, n, shown[k].index)
          && shown[k] == RowAt(view, rows, shown[k].index))
    && (forall k, l | 0 <= k < l < |shown| :: shown[k].index < shown[l].index)
    && (forall i | 0 <= i < n && Shows(view, rows, n, i) :: HasIndex(shown, i))
  }

  /** A divider seen after a row with content, and neither shown nor replaced by a later one. */
  ghost predicate IsPending(view: View, rows: seq<LayoutRow>, n: nat, d: nat)
    requires n <= |rows|
  {
    && d < n && rows[d].Divider?
    && (exists a :: 0 <= a < d && IsVisible(view, rows[a]))
    && forall k | d < k < n :: rows[k].Blocks? && !IsVisible(view, rows[k])
  }

  ghost predicate PendingIs(view: View, rows: seq<LayoutRow>, n: nat, pending: Option<ShownRow>)
    requires n <= |rows|
  {
    match pending
    case None => forall d :: !IsPending(view, rows, n, d)
    case Some(row) => IsPending(view, rows, n, row.index) && row == RowAt(view, rows, row.index)
  }

  method ShownRows(view: View, rows: seq<LayoutRow>) returns (shown: seq<ShownRow>)
    ensures AreShown(view, rows, |rows|, shown)
  {
    shown := [];
    var pendingDivider: Option<ShownRow> := None;
    assert AreShown(view, rows, 0, shown) && PendingIs(view, rows, 0, None);
    hide AreShown, PendingIs, Visible;
    for i := 0 to |rows|
      invariant AreShown(view, rows, i, shown)
      invariant PendingIs(view, rows, i, pendingDivider)
    {
      match rows[i]
      case Divider(sticks) =>
        DividerSeen(view, rows, i, shown, pendingDivider);
        if shown != [] {
          pendingDivider := Some(ShownDivider(i, sticks));
        }
      case Blocks(elements) =>
        var blocks := Visible(view, elements);
        if blocks == [] {
          HiddenSeen(view, rows, i, shown, pendingDivider);
          continue;
        }
        VisibleSeen(view, rows, i, shown, pendingDivider);
        ghost var was, added := shown, RowsAdded(view, rows, i, pendingDivider);
        if pendingDivider.Some? {
          shown := shown + [pendingDivider.value];
        }
        pendingDivider := None;
        shown := shown + [ShownBlocks(i, blocks)];
        assert shown == was + added;
    }
  }

  lemma ShownIffVisible(view: View, rows: seq<LayoutRow>, n: nat, shown: seq<ShownRow>)
    requires n <= |rows| && AreShown(view, rows, n, shown)
    ensures shown != [] <==> exists a :: 0 <= a < n && IsVisible(view, rows[a])
  {
    if a :| 0 <= a < n && IsVisible(view, rows[a]) {
      assert Shows(view, rows, n, a);
      assert HasIndex(shown, a);
    }
    if shown != [] {
      assert Shows(view, rows, n, shown[0].index);
    }
  }

  /** A row more that shows nothing leaves the rows shown as they are. */
  lemma NothingMoreShown(view: View, rows: seq<LayoutRow>, n: nat, shown: seq<ShownRow>)
    requires n < |rows| && AreShown(view, rows, n, shown) && !IsVisible(view, rows[n])
    ensures AreShown(view, rows, n + 1, shown)
  {
    hide IsVisible;
    forall i | 0 <= i < n
      ensures Shows(view, rows, n + 1, i) <==> Shows(view, rows, n, i)
    {
    }
    assert !Shows(view, rows, n + 1, n);
  }

  lemma DividerSeen(
    view: View, rows: seq<LayoutRow>, n: nat, shown: seq<ShownRow>, pending: Option<ShownRow>)
    requires n < |rows| && rows[n].Divider?
    requires AreShown(view, rows, n, shown) && PendingIs(view, rows, n, pending)
    ensures AreShown(view, rows, n + 1, shown)
    ensures PendingIs(
              view, rows, n + 1, if shown != [] then Some(RowAt(view, rows, n)) else pending)
  {
    ShownIffVisible(view, rows, n, shown);
    NothingMoreShown(view, rows, n, shown);
    hide IsVisible, AreShown;
  }

  lemma HiddenSeen(
    view: View, rows: seq<LayoutRow>, n: nat, shown: seq<ShownRow>, pending: Option<ShownRow>)
    requires n < |rows| && rows[n].Blocks? && !IsVisible(view, rows[n])
    requires AreShown(view, rows, n, shown) && PendingIs(view, rows, n, pending)
    ensures AreShown(view, rows, n + 1, shown) && PendingIs(view, rows, n + 1, pending)
  {
    NothingMoreShown(view, rows, n, shown);
    hide IsVisible, AreShown, Shows;
    var more := n + 1;
    forall d: nat
      ensures IsPending(view, rows, more, d) <==> IsPending(view, rows, n, d)
    {
      if IsPending(view, rows, more, d) {
        assert d != n;
      }
    }
    if pending.Some? {
      assert IsPending(view, rows, n + 1, pending.value.index);
    }
  }

  /** A row with content shows itself and the divider pending above it. */
  lemma VisibleShows(view: View, rows: seq<LayoutRow>, n: nat, i: nat)
    requires i < n < |rows| && IsVisible(view, rows[n])
    ensures Shows(view, rows, n + 1, i) <==> Shows(view, rows, n, i) || IsPending(view, rows, n, i)
    ensures Shows(view, rows, n + 1, n)
  {
    hide IsVisible, Visible;
    assert rows[n].Blocks? by { VisibleIsBlocks(view, rows[n]); }
    if IsPending(view, rows, n, i) {
      assert IsNextShown(view, rows, i, n);
    }
    if Shows(view, rows, n, i) && rows[i].Divider? {
      var b :| i < b < n && IsNextShown(view, rows, i, b);
      assert i < b < n + 1;
    }
    if Shows(view, rows, n + 1, i) && rows[i].Divider? && !Shows(view, rows, n, i) {
      var b :| i < b < n + 1 && IsNextShown(view, rows, i, b);
      assert b == n;
    }
  }

  lemma VisibleIsBlocks(view: View, row: LayoutRow)
    requires IsVisible(view, row)
    ensures row.Blocks?
  {
  }

  lemma PendingIsLast(view: View, rows: seq<LayoutRow>, n: nat, d: nat, i: nat)
    requires i < n <= |rows| && IsPending(view, rows, n, d)
    ensures Shows(view, rows, n, i) ==> i < d
    ensures IsPending(view, rows, n, i) ==> i == d
  {
    hide Visible;
    assert forall b | d < b < n :: !IsNextShown(view, rows, d, b);
  }

  lemma ShowsItself(view: View, rows: seq<LayoutRow>, n: nat)
    requires n < |rows| && IsVisible(view, rows[n])
    ensures Shows(view, rows, n + 1, n)
    ensures PendingIs(view, rows, n + 1, None)
  {
    VisibleIsBlocks(view, rows[n]);
    hide IsVisible;
    var more := n + 1;
    forall d: nat
      ensures !IsPending(view, rows, more, d)
    {
      assert d < n ==> IsVisible(view, rows[n]);
    }
  }

  /** What a row with content adds to those shown: the divider pending above it, then itself. */
  function RowsAdded(view: View, rows: seq<LayoutRow>, n: nat, pending: Option<ShownRow>): seq<ShownRow>
    requires n < |rows|
  {
    (if pending.Some? then [pending.value] else []) + [RowAt(view, rows, n)]
  }

  /** A row added is shown from then on, and comes after the rows shown before and any other added. */
  lemma AddedIsShown(
    view: View, rows: seq<LayoutRow>, n: nat, shown: seq<ShownRow>, pending: Option<ShownRow>, k: nat)
    requires n < |rows| && IsVisible(view, rows[n])
    requires AreShown(view, rows, n, shown) && PendingIs(view, rows, n, pending)
    requires k < |RowsAdded(view, rows, n, pending)|
    ensures var added := RowsAdded(view, rows, n, pending);
            && added[k].index < n + 1 && Shows(view, rows, n + 1, added[k].index)
            && added[k] == RowAt(view, rows, added[k].index)
            && (forall l | 0 <= l < |shown| :: shown[l].index < added[k].index)
            && (k > 0 ==> added[k - 1].index < added[k].index)
  {
    ShowsItself(view, rows, n);
    if pending.Some? {
      var d := pending.value.index;
      VisibleShows(view, rows, n, d);
      forall l | 0 <= l < |shown|
        ensures shown[l].index < d
      {
        PendingIsLast(view, rows, n, d, shown[l].index);
      }
    }
    hide Shows, IsPending, IsVisible;
  }

  /** What is shown with a row more was shown before, or is added. */
  lemma ShownOrAdded(
    view: View, rows: seq<LayoutRow>, n: nat, shown: seq<ShownRow>, pending: Option<ShownRow>, i: nat)
    requires n < |rows| && IsVisible(view, rows[n])
    requires AreShown(view, rows, n, shown) && PendingIs(view, rows, n, pending)
    requires i <= n && Shows(view, rows, n + 1, i)
    ensures HasIndex(shown, i) || HasIndex(RowsAdded(view, rows, n, pending), i)
  {
    var added := RowsAdded(view, rows, n, pending);
    if i == n {
      assert added[|added| - 1].index == i;
    } else {
      VisibleShows(view, rows, n, i);
      if !Shows(view, rows, n, i) {
        PendingIsLast(view, rows, n, pending.value.index, i);
        assert added[0].index == i;
      }
    }
  }

  lemma HasIndexOfEither(a: seq<ShownRow>, b: seq<ShownRow>, i: nat)
    requires HasIndex(a, i) || HasIndex(b, i)
    ensures HasIndex(a + b, i)
  {
    if HasIndex(a, i) {
      var k :| 0 <= k < |a| && a[k].index == i;
      assert (a + b)[k].index == i;
    } else {
      var k :| 0 <= k < |b| && b[k].index == i;
      assert (a + b)[|a| + k].index == i;
    }
  }

  lemma VisibleSeen(
    view: View, rows: seq<LayoutRow>, n: nat, shown: seq<ShownRow>, pending: Option<ShownRow>)
    requires n < |rows| && IsVisible(view, rows[n])
    requires AreShown(view, rows, n, shown) && PendingIs(view, rows, n, pending)
    ensures AreShown(view, rows, n + 1, shown + RowsAdded(view, rows, n, pending))
    ensures PendingIs(view, rows, n + 1, None)
  {
    var added := RowsAdded(view, rows, n, pending);
    var more := shown + added;
    ShowsItself(view, rows, n);
    forall k | 0 <= k < |added|
      ensures added[k].index < n + 1 && Shows(view, rows, n + 1, added[k].index)
      ensures added[k] == RowAt(view, rows, added[k].index)
      ensures forall l | 0 <= l < |shown| :: shown[l].index < added[k].index
      ensures k > 0 ==> added[k - 1].index < added[k].index
    {
      AddedIsShown(view, rows, n, shown, pending, k);
    }
    forall k | 0 <= k < |shown|
      ensures shown[k].index < n + 1 && Shows(view, rows, n + 1, shown[k].index)
      ensures shown[k] == RowAt(view, rows, shown[k].index)
    {
      VisibleShows(view, rows, n, shown[k].index);
    }
    forall i | 0 <= i < n + 1 && Shows(view, rows, n + 1, i)
      ensures HasIndex(more, i)
    {
      ShownOrAdded(view, rows, n, shown, pending, i);
      HasIndexOfEither(shown, added, i);
    }
    hide Shows, IsPending, IsVisible, RowAt, PendingIs, HasIndex;
  }

  // ── From where everything goes to the bottom ────────────────────────

  predicate HoldsBottom(view: View, row: ShownRow) {
    row.ShownBlocks? && exists j :: 0 <= j < |row.blocks| && IsAtBottom(view, row.blocks[j].element)
  }

  /** The first row, from one on, with a block at the bottom. */
  function FirstBottom(view: View, shown: seq<ShownRow>, from: nat): Option<nat>
    requires from <= |shown|
    decreases |shown| - from
  {
    if from == |shown| then None
    else if HoldsBottom(view, shown[from]) then Some(from)
    else FirstBottom(view, shown, from + 1)
  }

  function BottomFrom(view: View, shown: seq<ShownRow>): Option<nat> {
    match FirstBottom(view, shown, 0)
    case None => None
    case Some(first) =>
      if first > 0 && first <= |shown| && shown[first - 1].ShownDivider? && shown[first - 1].sticks.Below?
      then Some(first - 1) else Some(first)
  }

  lemma {:induction false} FirstBottomIs(view: View, shown: seq<ShownRow>, from: nat)
    requires from <= |shown|
    ensures match FirstBottom(view, shown, from)
            case None => forall j | from <= j < |shown| :: !HoldsBottom(view, shown[j])
            case Some(first) =>
              && from <= first < |shown| && HoldsBottom(view, shown[first])
              && forall j | from <= j < first :: !HoldsBottom(view, shown[j])
    decreases |shown| - from
  {
    if from < |shown| {
      FirstBottomIs(view, shown, from + 1);
    }
  }

  /** Everything goes to the bottom from the first row with a block there, or from the divider
      right above it if that sticks to it; no row before has such a block. */
  lemma BottomIs(view: View, shown: seq<ShownRow>)
    ensures match BottomFrom(view, shown)
            case None => forall j | 0 <= j < |shown| :: !HoldsBottom(view, shown[j])
            case Some(from) =>
              && from < |shown|
              && (forall j | 0 <= j < from :: !HoldsBottom(view, shown[j]))
              && if HoldsBottom(view, shown[from])
                 then from > 0 ==> shown[from - 1].ShownBlocks? || shown[from - 1].sticks.Above?
                 else shown[from].ShownDivider? && shown[from].sticks.Below?
                      && from + 1 < |shown| && HoldsBottom(view, shown[from + 1])
  {
    FirstBottomIs(view, shown, 0);
  }

  // ── Columns ─────────────────────────────────────────────────────────

  datatype Column = Column(width: nat, rows: seq<LayoutRow>)

  datatype ShownColumn = ShownColumn(
    index: nat, width: nat, rows: seq<ShownRow>, bottomFrom: Option<nat>)

  ghost predicate HasContent(view: View, column: Column) {
    exists i :: 0 <= i < |column.rows| && IsVisible(view, column.rows[i])
  }

  ghost predicate IsColumn(view: View, columns: seq<Column>, column: ShownColumn) {
    && column.index < |columns| && column.width == columns[column.index].width
    && AreShown(view, columns[column.index].rows, |columns[column.index].rows|, column.rows)
    && column.bottomFrom == BottomFrom(view, column.rows)
  }

  predicate HasColumn(shown: seq<ShownColumn>, i: nat) {
    exists k :: 0 <= k < |shown| && shown[k].index == i
  }

  /** Whether a card shows a column: it has content, or empty ones are kept, or it is the first
      of a card without content. */
  ghost predicate ShowsColumn(view: View, columns: seq<Column>, keepEmpty: bool, i: nat)
    requires i < |columns|
  {
    || keepEmpty || HasContent(view, columns[i])
    || (i == 0 && forall j | 0 <= j < |columns| :: !HasContent(view, columns[j]))
  }

  /** The columns a card shows, in order. */
  ghost predicate AreColumns(view: View, columns: seq<Column>, keepEmpty: bool, shown: seq<ShownColumn>) {
    && (forall k | 0 <= k < |shown| :: IsColumn(view, columns, shown[k]))
    && (forall k, l | 0 <= k < l < |shown| :: shown[k].index < shown[l].index)
    && (forall i | 0 <= i < |columns| :: HasColumn(shown, i) <==> ShowsColumn(view, columns, keepEmpty, i))
  }

  /** The first columns that have content, all if empty ones are kept. */
  ghost predicate AreKept(view: View, columns: seq<Column>, keepEmpty: bool, n: nat, shown: seq<ShownColumn>)
    requires n <= |columns|
  {
    && (forall k | 0 <= k < |shown| :: IsColumn(view, columns, shown[k]) && shown[k].index < n)
    && (forall k, l | 0 <= k < l < |shown| :: shown[k].index < shown[l].index)
    && (forall i | 0 <= i < n :: HasColumn(shown, i) <==> keepEmpty || HasContent(view, columns[i]))
  }

  lemma NoneKept(view: View, columns: seq<Column>, keepEmpty: bool)
    ensures AreKept(view, columns, keepEmpty, 0, [])
  {
    hide IsColumn;
  }

  lemma OneMoreColumn(
    view: View, columns: seq<Column>, keepEmpty: bool, n: nat, shown: seq<ShownColumn>, column: ShownColumn)
    requires n < |columns| && AreKept(view, columns, keepEmpty, n, shown)
    requires IsColumn(view, columns, column) && column.index == n
    requires column.rows != [] <==> HasContent(view, columns[n])
    ensures AreKept(
              view, columns, keepEmpty, n + 1, if keepEmpty || column.rows != [] then shown + [column] else shown)
  {
    hide HasContent, IsColumn;
    var more := if keepEmpty || column.rows != [] then shown + [column] else shown;
    forall i | 0 <= i < n
      ensures HasColumn(more, i) <==> HasColumn(shown, i)
    {
      if k :| 0 <= k < |shown| && shown[k].index == i {
        assert more[k].index == i;
      }
    }
    if keepEmpty || column.rows != [] {
      assert more[|shown|].index == n;
    }
  }

  lemma ContentIsShown(view: View, column: Column, shown: seq<ShownRow>)
    requires AreShown(view, column.rows, |column.rows|, shown)
    ensures shown != [] <==> HasContent(view, column)
  {
    ShownIffVisible(view, column.rows, |column.rows|, shown);
  }

  lemma KeptAreColumns(view: View, columns: seq<Column>, keepEmpty: bool, shown: seq<ShownColumn>)
    requires AreKept(view, columns, keepEmpty, |columns|, shown) && (shown != [] || columns == [])
    ensures AreColumns(view, columns, keepEmpty, shown)
  {
    hide HasContent, IsColumn;
    if shown != [] {
      var first := shown[0].index;
      assert HasColumn(shown, first);
      assert keepEmpty || HasContent(view, columns[first]);
    }
  }

  /** A card of which no column is kept shows its first column. */
  lemma FirstColumnIsShown(view: View, columns: seq<Column>, keepEmpty: bool, column: ShownColumn)
    requires columns != [] && AreKept(view, columns, keepEmpty, |columns|, [])
    requires IsColumn(view, columns, column) && column.index == 0
    ensures AreColumns(view, columns, keepEmpty, [column])
  {
    hide HasContent, IsColumn;
    var shown := [column];
    forall i | 0 <= i < |columns|
      ensures !keepEmpty && !HasContent(view, columns[i])
      ensures HasColumn(shown, i) <==> i == 0
    {
      assert !HasColumn([], i);
      assert shown[0].index == 0;
    }
  }

  method ShownColumns(view: View, columns: seq<Column>, keepEmpty: bool)
    returns (shown: seq<ShownColumn>)
    ensures AreColumns(view, columns, keepEmpty, shown)
  {
    hide HasContent, AreShown, BottomFrom, AreKept, AreColumns;
    shown := [];
    NoneKept(view, columns, keepEmpty);
    for i := 0 to |columns|
      invariant AreKept(view, columns, keepEmpty, i, shown)
    {
      var rows := ShownRows(view, columns[i].rows);
      ContentIsShown(view, columns[i], rows);
      var column := ShownColumn(i, columns[i].width, rows, BottomFrom(view, rows));
      OneMoreColumn(view, columns, keepEmpty, i, shown, column);
      if keepEmpty || rows != [] {
        shown := shown + [column];
      }
    }
    if shown == [] && columns != [] {
      var rows := ShownRows(view, columns[0].rows);
      shown := [ShownColumn(0, columns[0].width, rows, BottomFrom(view, rows))];
      FirstColumnIsShown(view, columns, keepEmpty, shown[0]);
    } else {
      KeptAreColumns(view, columns, keepEmpty, shown);
    }
  }

  // ── Laws of the rows shown ──────────────────────────────────────────

  function Indexes(shown: seq<ShownRow>): seq<int> {
    seq(|shown|, k requires 0 <= k < |shown| => shown[k].index)
  }

  /** A column shows its rows in one way only. */
  lemma OneWayToShow(view: View, rows: seq<LayoutRow>, a: seq<ShownRow>, b: seq<ShownRow>)
    requires AreShown(view, rows, |rows|, a) && AreShown(view, rows, |rows|, b)
    ensures a == b
  {
    IndexesAreShown(view, rows, a);
    IndexesAreShown(view, rows, b);
    hide Shows;
    Sets.OneAscendingList(Indexes(a), Indexes(b));
    assert |a| == |Indexes(a)| == |b|;
    forall k | 0 <= k < |a|
      ensures a[k] == b[k]
    {
      assert Indexes(a)[k] == Indexes(b)[k];
    }
  }

  lemma IndexesAreShown(view: View, rows: seq<LayoutRow>, shown: seq<ShownRow>)
    requires AreShown(view, rows, |rows|, shown)
    ensures Sets.Ascending(Indexes(shown))
    ensures forall i :: i in Indexes(shown) <==> 0 <= i < |rows| && Shows(view, rows, |rows|, i)
  {
    hide Shows;
    forall i | 0 <= i < |rows| && Shows(view, rows, |rows|, i)
      ensures i in Indexes(shown)
    {
      assert HasIndex(shown, i);
      var k :| 0 <= k < |shown| && shown[k].index == i;
      assert Indexes(shown)[k] == i;
    }
  }

  lemma NothingShownBetween(view: View, rows: seq<LayoutRow>, shown: seq<ShownRow>, k: nat, i: nat)
    requires AreShown(view, rows, |rows|, shown) && k + 1 < |shown|
    requires shown[k].index < i < shown[k + 1].index
    ensures i < |rows| && !Shows(view, rows, |rows|, i)
  {
    forall m | 0 <= m < |shown|
      ensures shown[m].index != i
    {
    }
    assert !HasIndex(shown, i);
  }

  /** Where a row with content is shown. */
  lemma IndexOf(view: View, rows: seq<LayoutRow>, shown: seq<ShownRow>, i: nat) returns (k: nat)
    requires AreShown(view, rows, |rows|, shown) && i < |rows| && IsVisible(view, rows[i])
    ensures k < |shown| && shown[k].index == i
  {
    assert Shows(view, rows, |rows|, i);
    assert HasIndex(shown, i);
    k :| 0 <= k < |shown| && shown[k].index == i;
  }

  lemma NextOfDivider(view: View, rows: seq<LayoutRow>, shown: seq<ShownRow>, k: nat)
    requires AreShown(view, rows, |rows|, shown) && k + 1 < |shown| && shown[k].ShownDivider?
    ensures shown[k + 1].ShownBlocks?
  {
    var d := shown[k].index;
    assert Shows(view, rows, |rows|, d);
    var b :| d < b < |rows| && IsNextShown(view, rows, d, b);
    VisibleIsBlocks(view, rows[b]);
    hide IsVisible;
    assert Shows(view, rows, |rows|, b);
    if shown[k + 1].index > b {
      NothingShownBetween(view, rows, shown, k, b);
    } else {
      assert Shows(view, rows, |rows|, shown[k + 1].index);
    }
  }

  /** A shown divider stands between two shown rows, and no divider of the layout is between it
      and the second. */
  lemma StandsBetween(view: View, rows: seq<LayoutRow>, shown: seq<ShownRow>, k: nat)
    requires AreShown(view, rows, |rows|, shown) && k < |shown| && shown[k].ShownDivider?
    ensures 0 < k && k + 1 < |shown|
    ensures forall i | shown[k].index < i < shown[k + 1].index :: rows[i].Blocks?
  {
    var d := shown[k].index;
    assert Shows(view, rows, |rows|, d);
    var a :| 0 <= a < d && IsVisible(view, rows[a]);
    var b :| d < b < |rows| && IsNextShown(view, rows, d, b);
    var p := IndexOf(view, rows, shown, a);
    var q := IndexOf(view, rows, shown, b);
    hide Shows, IsVisible;
    assert p < k < q;
    forall i | d < i < shown[k + 1].index
      ensures rows[i].Blocks?
    {
      assert i < shown[k + 1].index <= shown[q].index == b;
      assert IsNextShown(view, rows, d, b);
    }
  }

  /** A shown divider stands between two shown rows of blocks, and is the last divider of the
      layout between them. */
  lemma DividersAreBetween(view: View, rows: seq<LayoutRow>, shown: seq<ShownRow>, k: nat)
    requires AreShown(view, rows, |rows|, shown) && k < |shown| && shown[k].ShownDivider?
    ensures 0 < k && k + 1 < |shown|
    ensures shown[k - 1].ShownBlocks? && shown[k + 1].ShownBlocks?
    ensures forall i | shown[k].index < i < shown[k + 1].index :: rows[i].Blocks?
  {
    hide AreShown;
    StandsBetween(view, rows, shown, k);
    NextOfDivider(view, rows, shown, k);
    if shown[k - 1].ShownDivider? {
      NextOfDivider(view, rows, shown, k - 1);
    }
  }

  lemma {:induction false} LastDivider(rows: seq<LayoutRow>, i: nat, n: nat) returns (d: nat)
    requires i < n <= |rows| && rows[i].Divider?
    ensures i <= d < n && rows[d].Divider? && forall k | d < k < n :: rows[k].Blocks?
  {
    d := n - 1;
    if rows[n - 1].Blocks? {
      d := LastDivider(rows, i, n - 1);
    }
  }

  /** Where two shown rows of blocks follow one another, the layout has no divider between. */
  lemma NoDividerIsLost(view: View, rows: seq<LayoutRow>, shown: seq<ShownRow>, k: nat)
    requires AreShown(view, rows, |rows|, shown) && k + 1 < |shown|
    requires shown[k].ShownBlocks? && shown[k + 1].ShownBlocks?
    ensures forall i | shown[k].index < i < shown[k + 1].index :: rows[i].Blocks?
  {
    var a, b := shown[k].index, shown[k + 1].index;
    assert IsVisible(view, rows[a]) && IsVisible(view, rows[b]);
    hide IsVisible;
    if i :| a < i < b && rows[i].Divider? {
      var d := LastDivider(rows, i, b);
      forall j | d < j < b
        ensures !IsVisible(view, rows[j])
      {
        NothingShownBetween(view, rows, shown, k, j);
      }
      assert IsNextShown(view, rows, d, b);
      NothingShownBetween(view, rows, shown, k, d);
      assert false;
    }
  }

  // ── Showing again what is shown ─────────────────────────────────────

  function ElementsOf(blocks: seq<ShownBlock>): seq<Element> {
    seq(|blocks|, j requires 0 <= j < |blocks| => blocks[j].element)
  }

  function Renumbered(blocks: seq<ShownBlock>): seq<ShownBlock> {
    seq(|blocks|, j requires 0 <= j < |blocks| => blocks[j].(position := j))
  }

  /** What is shown, as a layout of its own. */
  function AsLayout(shown: seq<ShownRow>): seq<LayoutRow> {
    seq(|shown|, k requires 0 <= k < |shown| =>
      match shown[k]
      case ShownDivider(_, sticks) => Divider(sticks)
      case ShownBlocks(_, blocks) => Blocks(ElementsOf(blocks)))
  }

  function RowsRenumbered(shown: seq<ShownRow>): seq<ShownRow> {
    seq(|shown|, k requires 0 <= k < |shown| =>
      match shown[k]
      case ShownDivider(_, sticks) => ShownDivider(k, sticks)
      case ShownBlocks(_, blocks) => ShownBlocks(k, Renumbered(blocks)))
  }

  predicate IsDrawn(view: View, block: ShownBlock) {
    block.content == view.render(block.element) && !IsEmptyBlock(block.content)
  }

  lemma {:induction false} PlacedAreDrawn(view: View, elements: seq<Element>, n: nat)
    requires n <= |elements|
    ensures forall block | block in Placed(view, elements, n) :: IsDrawn(view, block)
  {
    if n > 0 {
      PlacedAreDrawn(view, elements, n - 1);
    }
  }

  lemma {:induction false} SideIsPart(view: View, blocks: seq<ShownBlock>, atEnd: bool)
    ensures forall block | block in OnSide(view, blocks, atEnd) :: block in blocks
  {
    if blocks != [] {
      SideIsPart(view, blocks[1..], atEnd);
    }
  }

  lemma {:induction false} PlacedAgain(view: View, blocks: seq<ShownBlock>, n: nat)
    requires n <= |blocks| && forall block | block in blocks :: IsDrawn(view, block)
    ensures Placed(view, ElementsOf(blocks), n) == Renumbered(blocks)[..n]
  {
    if n > 0 {
      PlacedAgain(view, blocks, n - 1);
      assert blocks[n - 1] in blocks;
      assert Renumbered(blocks)[..n] == Renumbered(blocks)[..n - 1] + [Renumbered(blocks)[n - 1]];
    }
  }

  lemma RenumberedStay(view: View, start: seq<ShownBlock>, end: seq<ShownBlock>)
    requires forall other | other in start :: HasSide(view, other, false)
    requires forall other | other in end :: HasSide(view, other, true)
    ensures InRowOrder(view, Renumbered(start + end)) == Renumbered(start + end)
  {
    hide InRowOrder;
    var again := Renumbered(start + end);
    var first, second := again[..|start|], again[|start|..];
    assert again == first + second;
    forall j | 0 <= j < |first|
      ensures HasSide(view, first[j], false)
    {
      assert start[j] in start;
    }
    forall j | 0 <= j < |second|
      ensures HasSide(view, second[j], true)
    {
      assert end[j] in end;
    }
    OrderedStay(view, first, second);
  }

  /** The blocks of a row, shown again, are the same in the same order. */
  lemma VisibleAgain(view: View, elements: seq<Element>)
    ensures Visible(view, ElementsOf(Visible(view, elements))) == Renumbered(Visible(view, elements))
  {
    var placed := Placed(view, elements, |elements|);
    var blocks := Visible(view, elements);
    var start, end := OnSide(view, placed, false), OnSide(view, placed, true);
    RowOrderParts(view, placed);
    SideIsOne(view, placed, false);
    SideIsOne(view, placed, true);
    RenumberedStay(view, start, end);
    VisibleAreDrawn(view, elements);
    PlacedAgain(view, blocks, |blocks|);
    assert Renumbered(blocks)[..|blocks|] == Renumbered(blocks);
  }

  lemma VisibleAreDrawn(view: View, elements: seq<Element>)
    ensures forall block | block in Visible(view, elements) :: IsDrawn(view, block)
  {
    var placed := Placed(view, elements, |elements|);
    RowOrderParts(view, placed);
    PlacedAreDrawn(view, elements, |elements|);
    SideIsPart(view, placed, false);
    SideIsPart(view, placed, true);
  }

  /** A shown column is its own normal form. */
  lemma RowsShownAgain(view: View, rows: seq<LayoutRow>, shown: seq<ShownRow>)
    requires AreShown(view, rows, |rows|, shown)
    ensures AreShown(view, AsLayout(shown), |shown|, RowsRenumbered(shown))
  {
    var again := AsLayout(shown);
    forall k | 0 <= k < |shown|
      ensures RowsRenumbered(shown)[k] == RowAt(view, again, k)
      ensures shown[k].ShownBlocks? ==> IsVisible(view, again[k])
    {
      if shown[k].ShownBlocks? {
        assert Shows(view, rows, |rows|, shown[k].index);
        VisibleAgain(view, rows[shown[k].index].elements);
      }
    }
    hide IsVisible, Visible;
    forall k | 0 <= k < |shown|
      ensures Shows(view, again, |shown|, k)
      ensures HasIndex(RowsRenumbered(shown), k)
    {
      assert RowsRenumbered(shown)[k].index == k;
      if shown[k].ShownDivider? {
        DividersAreBetween(view, rows, shown, k);
        assert IsVisible(view, again[k - 1]);
        assert IsNextShown(view, again, k, k + 1);
      }
    }
  }

  /** What a card shows, as the columns of a layout of its own. */
  function ColumnsAsLayout(shown: seq<ShownColumn>): seq<Column> {
    seq(|shown|, k requires 0 <= k < |shown| => Column(shown[k].width, AsLayout(shown[k].rows)))
  }

  function ColumnsRenumbered(shown: seq<ShownColumn>): seq<ShownColumn> {
    seq(|shown|, k requires 0 <= k < |shown| =>
      ShownColumn(k, shown[k].width, RowsRenumbered(shown[k].rows), shown[k].bottomFrom))
  }

  lemma {:induction false} SameFirstBottom(view: View, shown: seq<ShownRow>, from: nat)
    requires from <= |shown|
    ensures FirstBottom(view, RowsRenumbered(shown), from) == FirstBottom(view, shown, from)
    decreases |shown| - from
  {
    if from < |shown| {
      SameFirstBottom(view, shown, from + 1);
      var again := RowsRenumbered(shown);
      if shown[from].ShownBlocks? {
        assert forall j | 0 <= j < |shown[from].blocks| ::
            again[from].blocks[j].element == shown[from].blocks[j].element;
      }
      assert HoldsBottom(view, again[from]) <==> HoldsBottom(view, shown[from]);
    }
  }

  lemma SameBottom(view: View, shown: seq<ShownRow>)
    ensures BottomFrom(view, RowsRenumbered(shown)) == BottomFrom(view, shown)
  {
    SameFirstBottom(view, shown, 0);
    FirstBottomIs(view, shown, 0);
  }

  /** Showing again what a card shows changes nothing: the same columns with the same rows, going
      to the bottom from the same row. */
  lemma ShowingAgainChangesNothing(view: View, columns: seq<Column>, keepEmpty: bool, shown: seq<ShownColumn>)
    requires AreColumns(view, columns, keepEmpty, shown)
    ensures AreColumns(view, ColumnsAsLayout(shown), keepEmpty, ColumnsRenumbered(shown))
  {
    var again, renumbered := ColumnsAsLayout(shown), ColumnsRenumbered(shown);
    hide AreShown, BottomFrom, HasContent, AsLayout, RowsRenumbered;
    forall k | 0 <= k < |shown|
      ensures IsColumn(view, again, renumbered[k])
      ensures HasContent(view, again[k]) <==> HasContent(view, columns[shown[k].index])
      ensures HasColumn(renumbered, k)
    {
      assert IsColumn(view, columns, shown[k]);
      ColumnShownAgain(view, columns[shown[k].index], shown[k].rows);
      SameBottom(view, shown[k].rows);
      assert renumbered[k].index == k;
    }
    forall k | 0 <= k < |shown|
      ensures ShowsColumn(view, again, keepEmpty, k)
    {
      assert HasColumn(shown, shown[k].index) && ShowsColumn(view, columns, keepEmpty, shown[k].index);
      if !keepEmpty && !HasContent(view, columns[shown[k].index]) {
        OnlyColumn(view, columns, shown, k);
      }
    }
  }

  lemma ColumnShownAgain(view: View, column: Column, rows: seq<ShownRow>)
    requires AreShown(view, column.rows, |column.rows|, rows)
    ensures |AsLayout(rows)| == |rows| && AreShown(view, AsLayout(rows), |rows|, RowsRenumbered(rows))
    ensures HasContent(view, Column(column.width, AsLayout(rows))) <==> HasContent(view, column)
  {
    RowsShownAgain(view, column.rows, rows);
    ContentIsShown(view, column, rows);
    ContentIsShown(view, Column(column.width, AsLayout(rows)), RowsRenumbered(rows));
  }

  /** A column shown without content, empty ones not kept, is the card's only one shown. */
  lemma OnlyColumn(view: View, columns: seq<Column>, shown: seq<ShownColumn>, k: nat)
    requires AreColumns(view, columns, false, shown) && k < |shown|
    requires !HasContent(view, columns[shown[k].index])
    ensures k == 0 && |shown| == 1
  {
    FirstTwo(shown);
    hide HasContent, AreShown, BottomFrom;
    forall l | 0 <= l < |shown|
      ensures shown[l].index == 0
    {
      assert IsColumn(view, columns, shown[l]) && IsColumn(view, columns, shown[k]);
      assert HasColumn(shown, shown[l].index) && HasColumn(shown, shown[k].index);
      assert ShowsColumn(view, columns, false, shown[l].index) && ShowsColumn(view, columns, false, shown[k].index);
    }
  }

  lemma FirstTwo(shown: seq<ShownColumn>)
    requires forall k, l | 0 <= k < l < |shown| :: shown[k].index < shown[l].index
    ensures |shown| > 1 ==> shown[0].index < shown[1].index
  {
  }
}
