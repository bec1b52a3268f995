# smileCards notecard generator, modelled in Dafny

The program turns the rows of a survey table into printable "thank you"
notecards. Each row's `Response` text is split into paragraphs, word-wrapped
at 45 columns, stripped of emoji, and drawn centred on a 1700x1100 card under
a heart picture, above a "Thank you" caption and the project's handle. Cards
are tiled eight to a 3400x4400 sheet, and each sheet is saved as
`notecards_<n>.png`, with `n` counting from 0.

This project models the logic of `main.py` that remains once drawing, fonts
and files are set aside:

- `Sanitizer` (sanitizer.dfy) models `remove_emojis`. The regex character
  class is a table of the eleven ranges exactly as written. The substitution
  is a filter over code points.
- `Notecard` (notecard.dfy) models `createNotecard`. It covers the
  paragraph split, wrap and join of line 78, the sanitising of line 79, and
  every drawing coordinate. A card is the list of drawing calls made on the
  blank canvas, in order. `textwrap.wrap(p, width=45)` and `getDimensions`
  are function-valued parameters (`wrap`, `measure`). `IsWrapper` states what
  the renderer relies on from the wrapper.
- `Sheet` (sheet.dfy) models `combineNotecards`. The sheet is an `array2` of
  2x4 cells, each blank (white) or holding the card last pasted there. The
  paste offset is computed as the source computes it.
- `Driver` (driver.dfy) models the loop at the bottom of the file. It keeps
  a buffer and a sheet counter. Its output is a list of `Save(n, batch)`
  events, or `Show(card)` events with DEBUG set. Rendering is a function
  parameter.
- `Lines` (lines.dfy) holds Python's `str.split("\n")`, `"\n".join` and
  `"\n" * n`, with the round-trip lemmas between split and join.

Python's `//` is used only with positive constant divisors. For those,
Dafny's `/` gives the same result, since both round towards minus infinity,
so the coordinate arithmetic is written as in the source.

Two behaviours of main.py are easy to misread, and the model keeps both
as written:

- Sheet placement. The offset `((i // 4 + i) % 2, i % 4)` at main.py:102
  does not fill the sheet column by column. It gives a checkerboard:
  0->(0,0), 1->(1,1), 2->(0,2), 3->(1,3), 4->(1,0), 5->(0,1), 6->(1,2),
  7->(0,3), as (column, row). `Sheet.PlacementOrder` states this order.
- Sanitizer scope. The comments at main.py:18-28 name emoji blocks. But the
  "Enclosed characters" range U+24C2-U+1F251 (main.py:28) also covers
  Dingbats and everything in the Basic Multilingual Plane from U+24C2 up.
  That takes in CJK ideographs, kana, Hangul syllables, Yi, the private use
  area and the fullwidth forms. Greek, Cyrillic, Hebrew, Arabic, the Indic
  scripts and Thai lie below U+24C2 and survive. The range also covers the
  Supplementary Multilingual Plane from U+10000 up to U+1F251, including the
  regional-indicator letters that make up flag emoji. The merged class is
  [U+24C2, U+1F251] ∪ [U+1F300, U+1F64F] ∪ [U+1F680, U+1FAFF]. It leaves
  two gaps, U+1F252-U+1F2FF and U+1F650-U+1F67F, whose characters survive
  the sanitizer. `Sanitizer.MergedRanges` states this.

## Model

| member | source | states |
|---|---|---|
| `Lines.Split` | main.py:81 | `str.split("\n")` always returns at least one piece |
| `Lines.SplitNoNewline` | main.py:81 | no piece of a split contains a newline |
| `Lines.SplitCount` | main.py:81 | the number of pieces is the number of newlines plus one |
| `Lines.JoinSplit` | main.py:78 | joining the pieces of a split with newlines gives back the original text |
| `Lines.SplitJoin` | main.py:78 | splitting a join of one or more newline-free parts gives back exactly those parts |
| `Lines.SplitJoinAll` | main.py:78 | splitting a join of any texts splits each text in turn |
| `Lines.Join` | main.py:78 | `"\n".join(parts)`: the parts in order with a newline between neighbours; `JoinSplit` and `SplitJoin` make it the inverse of `Split` |
| `Lines.Repeat` | main.py:84 | `"\n" * index`: a sequence of exactly `n` copies of the element |
| `Lines.SplitPiecesFrom` | main.py:81 | every character of a split piece occurs in the text |
| `Sanitizer.InEmojiClass` | main.py:16-29 | the character class as written: a code point matches when it lies in one of the eleven listed ranges, kept in the source's order (`EmojiClass`); `MergedRanges` gives its merged form |
| `Sanitizer.MergedRanges` | main.py:16-28 | a code point matches the eleven listed ranges exactly when it lies in [U+24C2, U+1F251], [U+1F300, U+1F64F] or [U+1F680, U+1FAFF] |
| `Sanitizer.RemoveEmojis` | main.py:15-31 | the result is never longer than the input |
| `Sanitizer.RemoveEmojisClean` | main.py:31 | the result contains no code point of the class |
| `Sanitizer.NewlineNotInClass` | main.py:16-28 | a newline is not in the class, so line breaks survive the sanitizer |
| `Sanitizer.RemoveEmojisCounts` | main.py:31 | every code point outside the class keeps its number of occurrences, and every code point in the class is removed |
| `Sanitizer.RemoveEmojisFrom` | main.py:31 | every character of the result occurs in the input |
| `Sanitizer.RemoveEmojisAppend` | main.py:31 | sanitizing a concatenation gives the concatenation of the sanitized parts, so surviving characters keep their order |
| `Sanitizer.RemoveEmojisUnchanged` | main.py:31 | a text is returned unchanged if and only if none of its characters is in the class |
| `Sanitizer.RemoveEmojisIdempotent` | main.py:31 | sanitizing twice gives the same result as sanitizing once |
| `Sanitizer.RemoveEmojisShrinks` | main.py:31 | the output is shorter than the input if and only if the input contains a class character |
| `Sanitizer.RemoveEmojisKeepsLines` | main.py:79-81 | the lines of the sanitized text are the sanitized lines of the text, so the newline structure is kept |
| `Notecard.Reflow` | main.py:78 | the whole line-78 expression: each paragraph of the response wrapped and joined with newlines, the paragraphs joined with newlines; `ReflowLines` states its lines |
| `Notecard.CardText` | main.py:79 | `modifiedresponse`: the sanitized reflowed block that is measured and drawn; `CardLines` states its lines |
| `Notecard.ReflowLines` | main.py:78 | the lines of the reflowed block are the paragraphs' wrapped lines, in paragraph order; a paragraph that wraps to nothing gives one empty line; there are at least as many lines as paragraphs |
| `Notecard.ReflowLineWidth` | main.py:78 | every line of the reflowed block is at most 45 code points long |
| `Notecard.CardLines` | main.py:78-81 | each drawn line is a sanitized line of the reflowed block and is at most 45 code points long; there are at least as many drawn lines as paragraphs |
| `Notecard.EmojiOnlyIsBlank` | main.py:78-81 | a response made only of class characters and newlines leaves only spaces to draw |
| `Notecard.HeartOrigin` | main.py:73-74 | the 125x125 heart is pasted at (787, 80), horizontally centred to within one pixel |
| `Notecard.TextTop` | main.py:80-84 | the block's top edge `(1100 - rheight)//2` centres the measured block vertically, rounding up |
| `Notecard.LineOrigin` | main.py:82-84 | line `i` is horizontally centred on its own measured width (x + w//2 = 850) and its top edge is at TextTop + 10·i |
| `Notecard.LinesStepDown` | main.py:84 | each line's top edge is 10·(j − i) pixels below line i's, whatever the line widths |
| `Notecard.DrawnLineRow` | main.py:84 | the string `"\n"*i + line` puts the line on row i of the multi-line text, below i empty rows |
| `Notecard.DrawnLineClean` | main.py:79-84 | the drawn string for a line of the sanitized block contains no class character |
| `Notecard.ThankYouOrigin` | main.py:86-90 | the caption is drawn at (730, 850), centred for its hard-coded width of 240 and 250 px above the bottom edge |
| `Notecard.HandleOrigin` | main.py:92-93 | the handle is centred on its measured width, at y = 1000, below the caption |
| `Notecard.DrawsLinesSnoc` | main.py:81-84 | drawing the next line at its `LineOrigin` extends the calls that draw the block's lines, in order |
| `Notecard.LinesGoDown` | main.py:82-84 | calls that draw a block's lines in order have strictly increasing y |
| `Notecard.DrawnBlockClean` | main.py:79-84 | the calls that draw the lines of a clean block draw clean strings |
| `Notecard.DrawBlock` | main.py:81-84 | one text call per line of the block, each centred and at its own y, with y strictly increasing; if the block is clean, so is every drawn string |
| `Notecard.CreateNotecard` | main.py:70-96 | the card's calls, in order: the heart, then one centred, clean call per sanitized line going down the card, then the caption and the handle |
| `Sheet.Column` | main.py:102 | the column `(index // 4 + index) % 2` of card `index`; `PlacementOrder` and `HalvesInterleave` state its values |
| `Sheet.Row` | main.py:102 | the row `index % 4` of card `index`; `PlacementBijective` shows (Column, Row) is one-to-one on a sheet |
| `Sheet.PasteOffset` | main.py:102 | the offset of card i is (column·1700, row·1100), and the pasted 1700x1100 card lies inside the 3400x4400 sheet |
| `Sheet.OffsetCell` | main.py:102 | dividing the offset by the card size gives back the cell (column, row) |
| `Sheet.Slot` | main.py:102 | each cell of the 2x4 grid gets exactly one of the indices 0..7 |
| `Sheet.PlacementOrder` | main.py:101-102 | cards 0..7 go to (0,0), (1,1), (0,2), (1,3), (1,0), (0,1), (1,2), (0,3) |
| `Sheet.PlacementBijective` | main.py:102 | each index 0..7 is the slot of its own cell, so no two cards of a batch share a cell |
| `Sheet.HalvesInterleave` | main.py:102 | cards i and i+4 share a row and sit in opposite columns |
| `Sheet.CellOfBatch` | main.py:100-102 | after pasting at most eight cards, each cell holds its slot's card, or stays white if its slot is past the batch |
| `Sheet.CombineNotecards` | main.py:99-103 | the new sheet's cells show the last card pasted on each; for a batch of at most eight, each cell shows its slot's card or is white |
| `Driver.Batches` | main.py:115-127 | the reference cutting of the cards into sheets of eight, in order, the last holding the rest; `Run` is proved against it and `BatchesShape` states its shape |
| `Driver.BatchesShape` | main.py:107-127 | N cards make ceil(N/8) batches; all but the last hold 8 cards; the last holds N − 8·(k−1) cards, between 1 and 8; concatenated, the batches give back the cards |
| `Driver.BatchesAppend` | main.py:115-122 | after a whole number of full sheets, the remaining cards are batched independently of the cards before them |
| `Driver.SaveEventsSnoc` | main.py:118-122 | saving one more batch appends one event, numbered after the ones before it |
| `Driver.SheetsOf` | main.py:107-127 | the save events are numbered 0, 1, 2, …; there are ceil(N/8) of them; all but the last hold 8 cards and the last holds 1 to 8; together they hold every card in input order |
| `Driver.FullBatchesCount` | main.py:115-122 | 8·n cards make exactly n batches |
| `Driver.SaveNextBatch` | main.py:116-127 | after n full sheets, the next buffer of one to eight cards is saved as sheet n |
| `Driver.ShownSnoc` | main.py:110-113 | with DEBUG, showing the next row's card extends the shown events by that row |
| `Driver.ShownIsMap` | main.py:110-113 | the shown events are exactly the show events of the rows' cards, in order |
| `Driver.TenRowsTwoSheets` | main.py:107-127 | ten rows give two sheets: eight cards, then two |
| `Driver.Run` | main.py:105-127 | without DEBUG, the events are exactly the numbered saves of the batches of the rendered cards; with DEBUG, each card is shown in order and nothing is saved |

## Left out

- Image contents are not modelled. This covers `Image.new`, `paste`, `resize`, `draw.text`, fill colours and pixels (main.py:71-76, 84, 90, 93, 100, 102). A card is its list of drawing calls, and a sheet is its grid of cells.
- Fonts are not modelled (main.py:6-8). `Font` only names the three fonts.
- `getDimensions` is not modelled (main.py:54-67). Its `multiline_textbbox` is a library call, so widths and heights come from the `measure` parameter.
- `textwrap.wrap` is not modelled (main.py:78). It is a library call, passed in as the `wrap` parameter. `IsWrapper` assumes only three things of it: no newline in a line, at most 45 code points per line, and only the paragraph's characters and spaces. So the idempotence of word-wrapping cannot be stated here.
- `getEmojiMask` is not modelled (main.py:34-52). It is never called and only draws with the image library.
- Python's regular-expression engine is not modelled. The pattern `[...]+` with an empty replacement deletes every run of class characters, so the model deletes each class character one by one.
- I/O is replaced by events. Opening and decoding the CSV (main.py:105-106) is not modelled: the driver receives the `Response` texts. `save` and `print` (main.py:118-119, 126-127) become the `Save` event, and `show` and `input` (main.py:112-113) become the `Show` event.
- DEBUG is a parameter of `Driver.Run`. The source fixes it to `False` (main.py:10).
- Driver.Run: its postcondition ties the events to `SaveEvents(Batches(...))`. The shape of the sheets (count, numbering, sizes, order) is proved separately by `Driver.SheetsOf` and is not repeated in `Run`'s own postcondition.
