/** What a row of blocks shows: each element that draws something, those at the end last. */
module ShownBlocks {
  import opened Schema
  import opened ShownLayout

  // ── Styles ──────────────────────────────────────────────────────────

  /** Whether the first style listed for an element is the one at an index. */
  predicate IsFirstStyle(view: View, element: Element, k: nat) {
    && k < |view.styles| && view.styles[k].0 == element
    && forall j | 0 <= j < k :: view.styles[j].0 != element
  }

  ghost predicate GoesToTheEnd(view: View, element: Element) {
    exists k: nat :: IsFirstStyle(view, element, k) && view.styles[k].1.alignEnd
  }

  ghost predicate GoesToTheBottom(view: View, element: Element) {
    exists k: nat :: IsFirstStyle(view, element, k) && view.styles[k].1.valignBottom
  }

  lemma {:induction false} StyleOfIs(styles: seq<(Element, Style)>, element: Element)
    ensures match StyleOf(styles, element)
            case None => forall j | 0 <= j < |styles| :: styles[j].0 != element
            case Some(style) =>
              exists k :: 0 <= k < |styles| && styles[k] == (element, style)
                          && forall j | 0 <= j < k :: styles[j].0 != element
  {
    if styles != [] && styles[0].0 != element {
      var rest := styles[1..];
      StyleOfIs(rest, element);
      assert forall j | 1 <= j < |styles| :: styles[j] == rest[j - 1];
      if StyleOf(rest, element).Some? {
        var k :| 0 <= k < |rest| && rest[k] == (element, StyleOf(rest, element).value)
                 && forall j | 0 <= j < k :: rest[j].0 != element;
        assert styles[k + 1] == (element, StyleOf(rest, element).value);
      }
    } else if styles != [] {
      assert styles[0] == (element, styles[0].1);
    }
  }

  lemma StylesDecide(view: View, element: Element)
    ensures IsAtEnd(view, element) <==> GoesToTheEnd(view, element)
    ensures IsAtBottom(view, element) <==> GoesToTheBottom(view, element)
  {
    StyleOfIs(view.styles, element);
    hide StyleOf;
    if StyleOf(view.styles, element).Some? {
      var k :| 0 <= k < |view.styles| && view.styles[k] == (element, StyleOf(view.styles, element).value)
               && forall j | 0 <= j < k :: view.styles[j].0 != element;
      assert IsFirstStyle(view, element, k);
      forall other: nat | IsFirstStyle(view, element, other)
        ensures other == k
      {
      }
    }
  }

  /** A row holds a block at the bottom if a block of it is styled so. */
  lemma HoldsBottomIs(view: View, row: ShownRow)
    ensures HoldsBottom(view, row) <==>
              row.ShownBlocks? && exists block :: block in row.blocks && GoesToTheBottom(view, block.element)
  {
    forall element
      ensures IsAtBottom(view, element) <==> GoesToTheBottom(view, element)
    {
      StylesDecide(view, element);
    }
    hide IsAtBottom, GoesToTheBottom;
    if row.ShownBlocks? {
      forall j | 0 <= j < |row.blocks|
        ensures row.blocks[j] in row.blocks
      {
      }
    }
  }

  // ── The blocks of a row ─────────────────────────────────────────────

  /** A block of a row: an element at its place there, and what it draws, which is not nothing. */
  predicate IsBlockOf(view: View, elements: seq<Element>, block: ShownBlock) {
    && block.position < |elements| && elements[block.position] == block.element
    && block.content == view.render(block.element)
    && block.content != Nothing && block.content != Text("")
  }

  ghost predicate InPlaces(blocks: seq<ShownBlock>) {
    forall i, j | 0 <= i < j < |blocks| :: blocks[i].position < blocks[j].position
  }

  lemma {:induction false} PlacedIs(view: View, elements: seq<Element>, n: nat)
    requires n <= |elements|
    ensures InPlaces(Placed(view, elements, n))
    ensures forall block :: block in Placed(view, elements, n) <==>
              IsBlockOf(view, elements, block) && block.position < n
  {
    if n > 0 {
      PlacedIs(view, elements, n - 1);
      var rest, content := Placed(view, elements, n - 1), view.render(elements[n - 1]);
      var last := ShownBlock(elements[n - 1], n - 1, content);
      forall i | 0 <= i < |rest|
        ensures rest[i].position < n - 1
      {
        assert rest[i] in rest;
      }
      forall block | IsBlockOf(view, elements, block) && block.position == n - 1
        ensures block == last && !IsEmptyBlock(content)
      {
      }
      assert !IsEmptyBlock(content) ==> IsBlockOf(view, elements, last);
    }
  }

  lemma {:induction false} SideKeepsPlaces(view: View, blocks: seq<ShownBlock>, atEnd: bool)
    requires InPlaces(blocks)
    ensures InPlaces(OnSide(view, blocks, atEnd))
    ensures forall block :: block in OnSide(view, blocks, atEnd) <==> block in blocks && HasSide(view, block, atEnd)
  {
    if blocks != [] {
      SideKeepsPlaces(view, blocks[1..], atEnd);
      assert blocks == [blocks[0]] + blocks[1..];
      var rest := OnSide(view, blocks[1..], atEnd);
      forall j | 0 <= j < |rest|
        ensures blocks[0].position < rest[j].position
      {
        assert rest[j] in rest && rest[j] in blocks[1..];
        var k :| 0 <= k < |blocks[1..]| && blocks[1..][k] == rest[j];
        assert blocks[k + 1] == rest[j];
      }
    }
  }

  /** A row shows exactly the blocks of its elements. */
  lemma VisibleIs(view: View, elements: seq<Element>, block: ShownBlock)
    ensures block in Visible(view, elements) <==> IsBlockOf(view, elements, block)
  {
    var placed := Placed(view, elements, |elements|);
    PlacedIs(view, elements, |elements|);
    RowOrderParts(view, placed);
    SideKeepsPlaces(view, placed, false);
    SideKeepsPlaces(view, placed, true);
    hide Placed, InRowOrder, OnSide;
  }

  /** Those not at the end come first; on either side they are in the order of their places. */
  lemma VisibleIsInOrder(view: View, elements: seq<Element>, i: nat, j: nat)
    requires i < j < |Visible(view, elements)|
    ensures var a, b := Visible(view, elements)[i], Visible(view, elements)[j];
            || (!GoesToTheEnd(view, a.element) && GoesToTheEnd(view, b.element))
            || ((GoesToTheEnd(view, a.element) <==> GoesToTheEnd(view, b.element)) && a.position < b.position)
  {
    var placed := Placed(view, elements, |elements|);
    var start, end := OnSide(view, placed, false), OnSide(view, placed, true);
    PlacedIs(view, elements, |elements|);
    RowOrderParts(view, placed);
    SideKeepsPlaces(view, placed, false);
    SideKeepsPlaces(view, placed, true);
    var all := start + end;
    assert Visible(view, elements) == all;
    hide Placed, InRowOrder, OnSide, Visible;
    StylesDecide(view, all[i].element);
    StylesDecide(view, all[j].element);
    hide IsAtEnd, GoesToTheEnd;
    assert i < |start| ==> all[i] in start;
    assert j < |start| ==> all[j] in start;
    assert i >= |start| ==> all[i] in end;
    assert j >= |start| ==> all[j] in end;
  }

  /** A column shows a row of blocks if and only if an element of it draws something. */
  lemma RowsOfBlocksAreShown(view: View, rows: seq<LayoutRow>, shown: seq<ShownRow>, i: nat)
    requires AreShown(view, rows, |rows|, shown) && i < |rows| && rows[i].Blocks?
    ensures HasIndex(shown, i) <==>
              exists k :: 0 <= k < |rows[i].elements|
                          && view.render(rows[i].elements[k]) != Nothing
                          && view.render(rows[i].elements[k]) != Text("")
    ensures forall k | 0 <= k < |shown| && shown[k].index == i ::
              && shown[k].ShownBlocks?
              && forall block :: block in shown[k].blocks <==> IsBlockOf(view, rows[i].elements, block)
  {
    var elements := rows[i].elements;
    forall block
      ensures block in Visible(view, elements) <==> IsBlockOf(view, elements, block)
    {
      VisibleIs(view, elements, block);
    }
    if k :| 0 <= k < |elements| && view.render(elements[k]) != Nothing && view.render(elements[k]) != Text("") {
      assert IsBlockOf(view, elements, ShownBlock(elements[k], k, view.render(elements[k])));
    }
    if Visible(view, elements) != [] {
      assert IsBlockOf(view, elements, Visible(view, elements)[0]);
    }
    hide Visible;
    assert Shows(view, rows, |rows|, i) <==> Visible(view, elements) != [];
    assert HasIndex(shown, i) <==> Shows(view, rows, |rows|, i);
  }
}
