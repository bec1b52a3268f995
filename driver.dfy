/** The batch driver (main.py:105-127): the rows of the table in order, one
    card rendered per row, the cards buffered and written out eight to a
    sheet, sheets numbered from 0. With DEBUG set, each card is shown and the
    run waits for a line of input instead, and nothing is buffered or written.

    Reading the table and rendering are outside the model: the driver gets
    the `Response` texts of the rows and a `render` function standing for
    `createNotecard`. What the driver does to the outside world is its list
    of events: `Save(n, batch)` for `cards.save(".../notecards_n.png")` and
    `print(n)` of the sheet composed from `batch`, `Show(card)` for
    `notecard.show()` followed by `input()`. */
module Driver {
  import opened Lines
  import opened Sheet

  datatype Event<C> = Show(card: C) | Save(sheet: nat, batch: seq<C>)

  /** The cards cut into batches of `SheetCards` (8), in order, the last
      one holding what is left. */
  function Batches<C>(cards: seq<C>): seq<seq<C>>
    decreases |cards|
  {
    if cards == [] then []
    else if |cards| <= SheetCards then [cards]
    else [cards[..SheetCards]] + Batches(cards[SheetCards..])
  }

  /** The events that save the batches as sheets 0, 1, 2, ... */
  function SaveEvents<C>(batches: seq<seq<C>>): seq<Event<C>>
  {
    seq(|batches|, k requires 0 <= k < |batches| => Save(k, batches[k]))
  }

  /** N cards make ceil(N/8) batches; all but the last hold eight cards,
      the last holds the remaining N - 8 * (ceil(N/8) - 1), from 1 to 8;
      one after the other they give back the cards. */
  lemma {:induction false} BatchesShape<C>(cards: seq<C>)
    ensures |Batches(cards)| == (|cards| + SheetCards - 1) / SheetCards
    ensures forall k :: 0 <= k < |Batches(cards)| - 1 ==> |Batches(cards)[k]| == SheetCards
    ensures |cards| > 0 ==>
      1 <= |Batches(cards)[|Batches(cards)| - 1]| == |cards| - SheetCards * (|Batches(cards)| - 1) <= SheetCards
    ensures Concat(Batches(cards)) == cards
  {
    if |cards| > SheetCards {
      var rest := cards[SheetCards..];
      BatchesShape(rest);
      assert Batches(cards) == [cards[..SheetCards]] + Batches(rest);
      assert Batches(cards)[1..] == Batches(rest);
      assert cards[..SheetCards] + rest == cards;
    } else if cards != [] {
      assert Batches(cards) == [cards];
      assert Concat([cards]) == cards + Concat([]);
    }
  }

  /** Cutting a whole number of sheets' worth of cards first does not change
      how the rest is cut. */
  lemma {:induction false} BatchesAppend<C>(done: seq<C>, rest: seq<C>)
    requires |done| % SheetCards == 0
    ensures Batches(done + rest) == Batches(done) + Batches(rest)
    decreases |done|
  {
    if done == [] {
      assert done + rest == rest;
    } else {
      var all := done + rest;
      assert all[..SheetCards] == done[..SheetCards];
      assert all[SheetCards..] == done[SheetCards..] + rest;
      BatchesAppend(done[SheetCards..], rest);
      if |done| == SheetCards {
        assert done[..SheetCards] == done && done[SheetCards..] == [];
        assert Batches(done) == [done];
        if rest == [] {
          assert all == done;
        }
      }
    }
  }

  /** Saving one more batch appends its event, numbered after the others. */
  lemma SaveEventsSnoc<C>(batches: seq<seq<C>>, batch: seq<C>)
    ensures SaveEvents(batches + [batch]) == SaveEvents(batches) + [Save(|batches|, batch)]
  {
  }

  /** The batch a save event writes out (nothing for a show event). */
  function SavedBatch<C>(e: Event<C>): seq<C>
  {
    if e.Save? then e.batch else []
  }

  /** The save events of N cards: ceil(N/8) sheets numbered 0, 1, 2, ...,
      all full but the last, which holds 1 to 8 cards, and together they
      hold every card in order. */
  lemma SheetsOf<C>(cards: seq<C>)
    ensures var events := SaveEvents(Batches(cards));
      |events| == (|cards| + SheetCards - 1) / SheetCards &&
      (forall k :: 0 <= k < |events| ==> events[k].Save? && events[k].sheet == k) &&
      (forall k :: 0 <= k < |events| - 1 ==> |events[k].batch| == SheetCards) &&
      (|cards| > 0 ==> 1 <= |events[|events| - 1].batch| <= SheetCards) &&
      Concat(Map(SavedBatch, events)) == cards
  {
    var events := SaveEvents(Batches(cards));
    BatchesShape(cards);
    assert Map(SavedBatch, events) == Batches(cards);
  }

  /** Ten rows make two sheets: the first with eight cards, the second with
      the last two (`Sheet.CellOfBatch` leaves its other six cells white). */
  lemma TenRowsTwoSheets<C>(cards: seq<C>)
    requires |cards| == 10
    ensures var events := SaveEvents(Batches(cards));
      |events| == 2 && events[0] == Save(0, cards[..SheetCards]) && events[1] == Save(1, cards[SheetCards..])
  {
    assert Batches(cards) == [cards[..SheetCards]] + Batches(cards[SheetCards..]);
    assert Batches(cards[SheetCards..]) == [cards[SheetCards..]];
  }

  /** The driver loop. Without DEBUG the events are the saves of the
      batches of the rendered cards (their shape is `SheetsOf`); with DEBUG
      every card is shown in order and no sheet is saved. */
  method Run<C>(rows: seq<string>, render: string -> C, debug: bool) returns (events: seq<Event<C>>)
    ensures debug ==> events == Map((r: string) => Show(render(r)), rows)
    ensures !debug ==> events == SaveEvents(Batches(Map(render, rows)))
  {
    ghost var cards := Map(render, rows);
    var n := 0;
    var notecards: seq<C> := [];
    events := [];
    var i := 0;
    while i < |rows|
      invariant 0 <= i <= |rows|
      invariant debug ==> notecards == [] && Shown(events, rows[..i], render)
      invariant !debug ==> |notecards| < SheetCards && i == SheetCards * n + |notecards|
      invariant !debug ==> notecards == cards[SheetCards * n..i] && events == SaveEvents(Batches(cards[..SheetCards * n]))
    {
      var notecard := render(rows[i]);
      if debug {
        ShownSnoc(events, rows, i, render);
        events := events + [Show(notecard)];
      } else {
        Buffer(cards, n, i);
        notecards := notecards + [notecard];
        if |notecards| == SheetCards {
          SaveNextBatch(cards[..SheetCards * n], notecards, n);
          events := events + [Save(n, notecards)];
          notecards := [];
          n := n + 1;
        }
      }
      i := i + 1;
    }
    if notecards != [] {
      SaveNextBatch(cards[..SheetCards * n], notecards, n);
      assert cards[..SheetCards * n] + notecards == cards;
      events := events + [Save(n, notecards)];
    } else if !debug {
      assert cards[..SheetCards * n] == cards;
    } else {
      assert rows[..i] == rows;
      ShownIsMap(events, rows, render);
    }
  }

  /** The buffer after card `i` holds the cards since the last full sheet,
      and a full buffer completes sheet `n`. */
  lemma Buffer<C>(cards: seq<C>, n: nat, i: nat)
    requires SheetCards * n <= i < |cards|
    ensures cards[SheetCards * n..i + 1] == cards[SheetCards * n..i] + [cards[i]]
    ensures i + 1 == SheetCards * (n + 1) ==> cards[..SheetCards * n] + cards[SheetCards * n..i + 1] == cards[..SheetCards * (n + 1)]
  {
  }

  /** `events` show the cards rendered from `rows`, one per row, in order. */
  ghost predicate Shown<C>(events: seq<Event<C>>, rows: seq<string>, render: string -> C)
  {
    |events| == |rows| && forall k :: 0 <= k < |rows| ==> events[k] == Show(render(rows[k]))
  }

  /** Showing the card of the next row extends the shown prefix by that row. */
  lemma ShownSnoc<C>(events: seq<Event<C>>, rows: seq<string>, i: nat, render: string -> C)
    requires i < |rows| && Shown(events, rows[..i], render)
    ensures Shown(events + [Show(render(rows[i]))], rows[..i + 1], render)
  {
    var extended := events + [Show(render(rows[i]))];
    forall k | 0 <= k < i + 1 ensures extended[k] == Show(render(rows[..i + 1][k])) {
      if k < i {
        assert extended[k] == events[k];
        assert rows[..i][k] == rows[..i + 1][k];
      }
    }
  }

  /** Shown events are the show events of the rows' cards. */
  lemma ShownIsMap<C>(events: seq<Event<C>>, rows: seq<string>, render: string -> C)
    requires Shown(events, rows, render)
    ensures events == Map((r: string) => Show(render(r)), rows)
  {
  }

  /** Cards making `n` full sheets make `n` batches. */
  lemma {:induction false} FullBatchesCount<C>(done: seq<C>, n: nat)
    requires |done| == SheetCards * n
    ensures |Batches(done)| == n
  {
    if n > 0 {
      FullBatchesCount(done[SheetCards..], n - 1);
      if n == 1 {
        assert Batches(done) == [done];
      } else {
        assert Batches(done) == [done[..SheetCards]] + Batches(done[SheetCards..]);
      }
    }
  }

  /** After `n` full sheets, the next buffer of one to eight cards is saved
      as sheet `n`. */
  lemma SaveNextBatch<C>(done: seq<C>, batch: seq<C>, n: nat)
    requires |done| == SheetCards * n && 0 < |batch| <= SheetCards
    ensures SaveEvents(Batches(done + batch)) == SaveEvents(Batches(done)) + [Save(n, batch)]
  {
    BatchesAppend(done, batch);
    FullBatchesCount(done, n);
    assert Batches(batch) == [batch];
    SaveEventsSnoc(Batches(done), batch);
  }
}
