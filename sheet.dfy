/** The sheet compositor `combineNotecards` (main.py:99-103): up to eight
    cards pasted, in order, onto a white 3400x4400 sheet. The sheet is
    modelled as its 2x4 grid of card-sized cells (column, row), each blank
    (white) or holding the card last pasted there; the pixel offset of every
    paste is computed as the source computes it and names the cell. */
module Sheet {
  import opened Notecard

  const Columns: nat := 2
  const Rows: nat := 4
  /** The cards a sheet has room for. */
  const SheetCards: nat := Columns * Rows

  /** The column of card `index`: `(index // 4 + index) % 2`. */
  function Column(index: nat): nat
  {
    (index / 4 + index) % 2
  }

  /** The row of card `index`: `index % 4`. */
  function Row(index: nat): nat
  {
    index % 4
  }

  /** The paste offset of card `index`, with Python's left-to-right
      evaluation of `*` and `//`: the top-left corner of cell
      (Column, Row), so that the pasted card lies inside the sheet. */
  function PasteOffset(index: nat): (p: (int, int))
    ensures p == (Column(index) * CardWidth, Row(index) * CardHeight)
    ensures 0 <= p.0 && p.0 + CardWidth <= SheetWidth
    ensures 0 <= p.1 && p.1 + CardHeight <= SheetHeight
  {
    (Column(index) * SheetWidth / 2, Row(index) * SheetHeight / 4)
  }

  /** The paste offset of card `index` is the corner of cell (Column, Row). */
  lemma OffsetCell(index: nat)
    ensures PasteOffset(index).0 / CardWidth == Column(index) < Columns
    ensures PasteOffset(index).1 / CardHeight == Row(index) < Rows
  {
    var c, r := Column(index), Row(index);
    if c == 0 {
      assert PasteOffset(index).0 == 0;
    } else {
      assert c == 1 && PasteOffset(index).0 == CardWidth;
    }
    if r == 0 {
      assert PasteOffset(index).1 == 0;
    } else if r == 1 {
      assert PasteOffset(index).1 == CardHeight;
    } else if r == 2 {
      assert PasteOffset(index).1 == 2 * CardHeight;
    } else {
      assert r == 3 && PasteOffset(index).1 == 3 * CardHeight;
    }
  }

  /** The card index that lands on cell (column, row): the inverse of the
      placement on the eight indices of one sheet. */
  function Slot(column: nat, row: nat): (index: nat)
    requires column < Columns && row < Rows
    ensures index < SheetCards
    ensures Column(index) == column && Row(index) == row
  {
    if column == row % 2 then row else row + 4
  }

  /** The placement is the checkerboard 0->(0,0), 1->(1,1), 2->(0,2),
      3->(1,3), 4->(1,0), 5->(0,1), 6->(1,2), 7->(0,3), as (column, row);
      it is not a column-by-column fill. */
  lemma PlacementOrder()
    ensures seq(8, i requires 0 <= i => (Column(i), Row(i))) ==
      [(0, 0), (1, 1), (0, 2), (1, 3), (1, 0), (0, 1), (1, 2), (0, 3)]
  {
    var order := seq(8, i requires 0 <= i => (Column(i), Row(i)));
    assert order[0] == (0, 0) && order[1] == (1, 1) && order[2] == (0, 2) && order[3] == (1, 3);
    assert order[4] == (1, 0) && order[5] == (0, 1) && order[6] == (1, 2) && order[7] == (0, 3);
  }

  /** The eight indices of a sheet go to eight different cells, and every
      cell gets one of them: each index is the slot of its own cell. */
  lemma PlacementBijective(index: nat)
    requires index < SheetCards
    ensures Column(index) < Columns && Row(index) < Rows
    ensures Slot(Column(index), Row(index)) == index
  {
    assert index in {0, 1, 2, 3, 4, 5, 6, 7};
  }

  /** Cards `index` and `index + 4` share a row, in opposite columns. */
  lemma HalvesInterleave(index: nat)
    requires index < 4
    ensures Row(index + 4) == Row(index)
    ensures Column(index + 4) == 1 - Column(index)
  {
    assert index in {0, 1, 2, 3};
  }

  /** What a cell of the sheet shows. */
  datatype Cell<C> = Blank | Pasted(card: C)

  /** What cell (column, row) shows after `cards` have been pasted in order:
      the last card placed there, or white when none is. */
  function CellAfter<C>(cards: seq<C>, column: nat, row: nat): Cell<C>
  {
    if cards == [] then Blank
    else if Column(|cards| - 1) == column && Row(|cards| - 1) == row then Pasted(cards[|cards| - 1])
    else CellAfter(cards[..|cards| - 1], column, row)
  }

  /** With at most eight cards, no card covers another: each cell holds the
      card whose slot it is, and the cells of the missing slots stay white. */
  lemma {:induction false} CellOfBatch<C>(cards: seq<C>, column: nat, row: nat)
    requires |cards| <= SheetCards && column < Columns && row < Rows
    ensures CellAfter(cards, column, row) ==
      if Slot(column, row) < |cards| then Pasted(cards[Slot(column, row)]) else Blank
  {
    if cards != [] {
      var last := |cards| - 1;
      PlacementBijective(last);
      if !(Column(last) == column && Row(last) == row) {
        CellOfBatch(cards[..last], column, row);
        assert Slot(column, row) != last;
      }
    }
  }

  /** `combineNotecards(notecards)`: a white sheet, then each card pasted at
      its offset in turn. Every cell shows the last card pasted on it; for a
      batch of at most eight, the card of its slot or white. */
  method CombineNotecards<C>(cards: seq<C>) returns (sheet: array2<Cell<C>>)
    ensures fresh(sheet) && sheet.Length0 == Columns && sheet.Length1 == Rows
    ensures forall c, r :: 0 <= c < Columns && 0 <= r < Rows ==> sheet[c, r] == CellAfter(cards, c, r)
    ensures |cards| <= SheetCards ==> forall c, r :: 0 <= c < Columns && 0 <= r < Rows ==>
      sheet[c, r] == if Slot(c, r) < |cards| then Pasted(cards[Slot(c, r)]) else Blank
  {
    sheet := new Cell<C>[Columns, Rows]((c, r) => Blank);
    for index := 0 to |cards|
      invariant forall c, r :: 0 <= c < Columns && 0 <= r < Rows ==> sheet[c, r] == CellAfter(cards[..index], c, r)
    {
      var offset := PasteOffset(index);
      OffsetCell(index);
      sheet[offset.0 / CardWidth, offset.1 / CardHeight] := Pasted(cards[index]);
      assert cards[..index + 1][..index] == cards[..index];
    }
    assert cards[..|cards|] == cards;
    if |cards| <= SheetCards {
      forall c, r | 0 <= c < Columns && 0 <= r < Rows
        ensures sheet[c, r] == if Slot(c, r) < |cards| then Pasted(cards[Slot(c, r)]) else Blank
      {
        CellOfBatch(cards, c, r);
      }
    }
  }
}
