/** The card renderer `createNotecard` (main.py:70-96): the response is split
    into paragraphs, each paragraph is word-wrapped, the lines are joined back
    with newlines and sanitized, and the card is drawn as a heart picture, one
    text call per line, a "Thank you" caption and the project's handle.

    A card is modelled as the list of drawing operations issued on the blank
    1700x1100 canvas, in order. The library calls the renderer depends on are
    parameters: `wrap` stands for `textwrap.wrap(paragraph, width=45)` and
    `measure` for `getDimensions` (the width and height of the text's bounding
    box in a font). Every division in the source is Python's `//` by a positive
    constant, which Dafny's `/` computes exactly (both round towards minus
    infinity for a positive divisor). */
module Notecard {
  import opened Lines
  import opened Sanitizer

  const SheetWidth: int := 3400
  const SheetHeight: int := 4400
  /** A card is one cell of a sheet's 2x4 grid. */
  const CardWidth: int := SheetWidth / 2
  const CardHeight: int := SheetHeight / 4
  /** The heart picture is resized to a square of this side and pasted this far from the top. */
  const HeartSize: int := 125
  const HeartTop: int := 80
  /** Extra pixels between the origins of consecutive text lines. */
  const Spacing: int := 10
  /** The column width given to the word wrapper. */
  const WrapWidth: nat := 45
  const Margin: int := 100
  const Margin2: int := 150
  /** The caption's width, written into the source instead of measured. */
  const ThankYouWidth: int := 240
  const ThankYou: string := "Thank you"
  const Handle: string := "@wrhs_smileproject"

  /** TYPEWRITER (size 65), TYPEWRITER2 (size 55) and MODERNLINE (size 55). */
  datatype Font = Typewriter | Typewriter2 | Modernline

  /** One drawing call on the card's canvas. */
  datatype DrawOp =
    | PasteHeart(x: int, y: int)
    | DrawText(x: int, y: int, text: string, font: Font)

  /** What the renderer relies on from `textwrap.wrap(p, width=45)`: each line
      it returns is at most 45 code points long, holds no newline, and is made
      of the paragraph's characters and of spaces (the wrapper expands tabs
      and turns the ASCII whitespace characters into spaces). */
  ghost predicate IsWrapper(wrap: string -> seq<string>)
  {
    forall p: string, i :: 0 <= i < |wrap(p)| ==> WrappedFrom(p, wrap(p)[i])
  }

  predicate WrappedFrom(p: string, line: string)
  {
    |line| <= WrapWidth && '\n' !in line && forall i :: 0 <= i < |line| ==> line[i] == ' ' || line[i] in p
  }

  /** The block of main.py:78: every paragraph of the response wrapped and
      joined with newlines, the paragraphs joined with newlines. */
  function Reflow(response: string, wrap: string -> seq<string>): string
  {
    Join(Map((p: string) => Join(wrap(p)), Split(response)))
  }

  /** The lines a paragraph contributes to the block: its wrapped lines, or
      one empty line when the wrapper returns none (an empty or blank
      paragraph). */
  function ParagraphLines(lines: seq<string>): (r: seq<string>)
    ensures |r| >= 1
  {
    if lines == [] then [""] else lines
  }

  /** The block's lines are the paragraphs' lines, paragraph after paragraph,
      so no paragraph is lost, merged or reordered: there are at least as
      many lines as paragraphs. */
  lemma ReflowLines(response: string, wrap: string -> seq<string>)
    requires IsWrapper(wrap)
    ensures Split(Reflow(response, wrap)) == Concat(Map((p: string) => ParagraphLines(wrap(p)), Split(response)))
    ensures |Split(Reflow(response, wrap))| >= |Split(response)|
  {
    var paragraphs := Split(response);
    var joinWrapped := (p: string) => Join(wrap(p));
    var linesOf := (p: string) => ParagraphLines(wrap(p));
    var texts := Map(joinWrapped, paragraphs);
    SplitJoinAll(texts);
    forall k | 0 <= k < |paragraphs|
      ensures Map(Split, texts)[k] == Map(linesOf, paragraphs)[k]
    {
      var lines := wrap(paragraphs[k]);
      if lines != [] {
        forall j | 0 <= j < |lines| ensures '\n' !in lines[j] {
          assert WrappedFrom(paragraphs[k], lines[j]);
        }
        SplitJoin(lines);
      }
    }
    assert Map(Split, texts) == Map(linesOf, paragraphs);
    ConcatAtLeastOneEach(Map(linesOf, paragraphs));
  }

  /** The sanitized block that is measured and drawn (main.py:79). */
  function CardText(response: string, wrap: string -> seq<string>): string
  {
    RemoveEmojis(Reflow(response, wrap))
  }

  /** Each line of the reflowed block is at most the wrap width long: it is
      a line the wrapper returned or the empty line of an empty paragraph. */
  lemma ReflowLineWidth(response: string, wrap: string -> seq<string>, k: nat)
    requires IsWrapper(wrap) && k < |Split(Reflow(response, wrap))|
    ensures |Split(Reflow(response, wrap))[k]| <= WrapWidth
  {
    var all := Map((p: string) => ParagraphLines(wrap(p)), Split(response));
    ReflowLines(response, wrap);
    InConcat(all, k);
    var j, i :| 0 <= j < |all| && 0 <= i < |all[j]| && Split(Reflow(response, wrap))[k] == all[j][i];
    var p := Split(response)[j];
    var lines := wrap(p);
    if lines != [] {
      assert all[j] == lines;
      assert WrappedFrom(p, lines[i]);
    }
  }

  /** Each drawn line is a sanitized line of the reflowed block: none holds
      a class character or is longer than the wrap width, and there are at
      least as many as the response has paragraphs. */
  lemma CardLines(response: string, wrap: string -> seq<string>)
    requires IsWrapper(wrap)
    ensures Split(CardText(response, wrap)) == Map(RemoveEmojis, Split(Reflow(response, wrap)))
    ensures |Split(CardText(response, wrap))| >= |Split(response)|
    ensures forall k :: 0 <= k < |Split(CardText(response, wrap))| ==> |Split(CardText(response, wrap))[k]| <= WrapWidth
  {
    var block := Reflow(response, wrap);
    var shown := Split(CardText(response, wrap));
    RemoveEmojisKeepsLines(block);
    ReflowLines(response, wrap);
    forall k | 0 <= k < |shown| ensures |shown[k]| <= WrapWidth {
      ReflowLineWidth(response, wrap, k);
      assert shown[k] == RemoveEmojis(Split(block)[k]);
    }
  }

  /** A response made only of class characters and newlines leaves nothing
      but spaces to draw. */
  lemma EmojiOnlyIsBlank(response: string, wrap: string -> seq<string>)
    requires IsWrapper(wrap)
    requires forall i :: 0 <= i < |response| ==> response[i] == '\n' || InEmojiClass(response[i])
    ensures forall k, i :: 0 <= k < |Split(CardText(response, wrap))| && 0 <= i < |Split(CardText(response, wrap))[k]|
              ==> Split(CardText(response, wrap))[k][i] == ' '
  {
    var block := Reflow(response, wrap);
    var paragraphs := Split(response);
    var all := Map((p: string) => ParagraphLines(wrap(p)), paragraphs);
    RemoveEmojisKeepsLines(block);
    ReflowLines(response, wrap);
    forall k, i | 0 <= k < |Split(CardText(response, wrap))| && 0 <= i < |Split(CardText(response, wrap))[k]|
      ensures Split(CardText(response, wrap))[k][i] == ' '
    {
      var line := Split(block)[k];
      var c := RemoveEmojis(line)[i];
      RemoveEmojisClean(line);
      RemoveEmojisFrom(line, i);
      var at :| 0 <= at < |line| && line[at] == c;
      InConcat(all, k);
      var j, m :| 0 <= j < |all| && 0 <= m < |all[j]| && line == all[j][m];
      var lines := wrap(paragraphs[j]);
      assert lines != [];
      assert all[j] == lines;
      assert WrappedFrom(paragraphs[j], lines[m]);
      if c in paragraphs[j] {
        var q :| 0 <= q < |paragraphs[j]| && paragraphs[j][q] == c;
        SplitPiecesFrom(response, j, q);
      }
    }
  }

  /** The heart is pasted horizontally centred (to the pixel, rounding
      left) at 80 pixels from the top. */
  function HeartOrigin(): (p: (int, int))
    ensures p == (787, 80)
    ensures CardWidth - 1 <= 2 * p.0 + HeartSize <= CardWidth
  {
    ((CardWidth - HeartSize) / 2, HeartTop)
  }

  /** The top of the text block of the measured height: vertically centred
      on the card, rounding up. */
  function TextTop(blockHeight: int): (y: int)
    ensures CardHeight - 1 <= 2 * y + blockHeight <= CardHeight
  {
    (CardHeight - blockHeight) / 2
  }

  /** Where line `index` of the block, of measured width `width`, is drawn:
      horizontally centred (rounding left) and `Spacing` pixels further
      down per line. */
  function LineOrigin(width: int, blockHeight: int, index: nat): (p: (int, int))
    ensures CardWidth <= 2 * p.0 + width <= CardWidth + 1
    ensures p.1 == TextTop(blockHeight) + Spacing * index
  {
    (CardWidth / 2 - width / 2, (CardHeight - blockHeight) / 2 + Spacing * index)
  }

  /** Later lines are drawn lower, whatever their widths. */
  lemma LinesStepDown(w1: int, w2: int, blockHeight: int, i: nat, j: nat)
    requires i < j
    ensures LineOrigin(w1, blockHeight, i).1 + Spacing * (j - i) == LineOrigin(w2, blockHeight, j).1
    ensures LineOrigin(w1, blockHeight, i).1 < LineOrigin(w2, blockHeight, j).1
  {
  }

  /** The text drawn for line `index`: `index` newlines, then the line. */
  function DrawnLine(index: nat, line: string): string
  {
    Repeat('\n', index) + line
  }

  /** Drawn as multi-line text, the line lands on row `index` below `index`
      empty rows, so on top of `Spacing * index` it moves down by `index`
      line heights. */
  lemma {:induction false} DrawnLineRow(index: nat, line: string)
    requires '\n' !in line
    ensures Split(DrawnLine(index, line)) == Repeat("", index) + [line]
  {
    if index == 0 {
      SplitLine(line);
      assert DrawnLine(0, line) == line;
    } else {
      var below := DrawnLine(index - 1, line);
      DrawnLineRow(index - 1, line);
      assert DrawnLine(index, line) == ['\n'] + below;
      SplitCons('\n', below);
      ConsAssoc("", Repeat("", index - 1), [line]);
      assert Repeat("", index) == [""] + Repeat("", index - 1);
    }
  }

  /** The caption "Thank you", of the hard-coded width 240, is centred
      horizontally with its origin 250 pixels above the bottom edge. */
  function ThankYouOrigin(): (p: (int, int))
    ensures p == (730, 850)
    ensures 2 * p.0 + ThankYouWidth == CardWidth
    ensures p.1 + Margin + Margin2 == CardHeight
  {
    (CardWidth / 2 - ThankYouWidth / 2, CardHeight - Margin - Margin2)
  }

  /** The handle, of measured width `width`, is centred horizontally
      (rounding left) with its origin 100 pixels above the bottom edge,
      below the caption. */
  function HandleOrigin(width: int): (p: (int, int))
    ensures CardWidth <= 2 * p.0 + width <= CardWidth + 1
    ensures p.1 == 1000 && p.1 > ThankYouOrigin().1
  {
    (CardWidth / 2 - width / 2, CardHeight - Margin)
  }

  /** `op` is the call that draws `line` as line `index` of a block of
      height `blockHeight`, the line measuring `width`. */
  predicate DrawsLine(op: DrawOp, index: nat, line: string, blockHeight: int, width: int)
  {
    op.DrawText? && op.font == Typewriter && op.text == DrawnLine(index, line) &&
    CardWidth <= 2 * op.x + width <= CardWidth + 1 &&
    op.y == TextTop(blockHeight) + Spacing * index
  }

  /** A line of a clean block stays clean when drawn after its newlines. */
  lemma DrawnLineClean(text: string, index: nat)
    requires Clean(text) && index < |Split(text)|
    ensures Clean(DrawnLine(index, Split(text)[index]))
  {
    var piece := Split(text)[index];
    var shown := DrawnLine(index, piece);
    NewlineNotInClass();
    forall i | 0 <= i < |shown| ensures !InEmojiClass(shown[i]) {
      if i < index {
        assert shown[i] == '\n';
      } else {
        assert shown[i] == piece[i - index];
        SplitPiecesFrom(text, index, i - index);
        var j :| 0 <= j < |text| && text[j] == shown[i];
      }
    }
  }

  /** The loop of main.py:81-84: one text call per line of the sanitized
      block `text` of measured height `blockHeight`, each centred on its own
      measured width and lower than the one before; when the block is free
      of emoji-class characters, so is every drawn text. */
  method DrawBlock(text: string, blockHeight: int, measure: (string, Font) -> (int, int))
    returns (drawn: seq<DrawOp>)
    ensures |drawn| == |Split(text)|
    ensures forall k :: 0 <= k < |drawn| ==> DrawsLine(drawn[k], k, Split(text)[k], blockHeight, measure(Split(text)[k], Typewriter).0)
    ensures forall j, k :: 0 <= j < k < |drawn| ==> drawn[j].y < drawn[k].y
    ensures Clean(text) ==> forall k :: 0 <= k < |drawn| ==> drawn[k].DrawText? && Clean(drawn[k].text)
  {
    var lines := Split(text);
    drawn := [];
    var index := 0;
    while index < |lines|
      invariant 0 <= index <= |lines|
      invariant |drawn| == index
      invariant DrawsLines(drawn, lines, blockHeight, measure)
    {
      var line := lines[index];
      var width := measure(line, Typewriter).0;
      var origin := LineOrigin(width, blockHeight, index);
      var op := DrawText(origin.0, origin.1, DrawnLine(index, line), Typewriter);
      DrawsLinesSnoc(drawn, op, lines, blockHeight, measure);
      drawn := drawn + [op];
      index := index + 1;
    }
    LinesGoDown(drawn, lines, blockHeight, measure);
    if Clean(text) {
      DrawnBlockClean(text, drawn, blockHeight, measure);
    }
  }

  /** The calls that draw the lines of a clean block draw clean strings. */
  lemma DrawnBlockClean(text: string, drawn: seq<DrawOp>, blockHeight: int, measure: (string, Font) -> (int, int))
    requires Clean(text) && |drawn| == |Split(text)|
    requires forall k :: 0 <= k < |drawn| ==> DrawsLine(drawn[k], k, Split(text)[k], blockHeight, measure(Split(text)[k], Typewriter).0)
    ensures forall k :: 0 <= k < |drawn| ==> drawn[k].DrawText? && Clean(drawn[k].text)
  {
    forall k | 0 <= k < |drawn| ensures drawn[k].DrawText? && Clean(drawn[k].text) {
      assert DrawsLine(drawn[k], k, Split(text)[k], blockHeight, measure(Split(text)[k], Typewriter).0);
      DrawnLineClean(text, k);
    }
  }

  /** `drawn` are the calls that draw the first `|drawn|` of `lines`, in order. */
  predicate DrawsLines(drawn: seq<DrawOp>, lines: seq<string>, blockHeight: int, measure: (string, Font) -> (int, int))
  {
    |drawn| <= |lines| &&
    forall k :: 0 <= k < |drawn| ==> DrawsLine(drawn[k], k, lines[k], blockHeight, measure(lines[k], Typewriter).0)
  }

  /** One more call, drawing the next line where `LineOrigin` puts it,
      extends the drawn prefix by that line. */
  lemma DrawsLinesSnoc(drawn: seq<DrawOp>, op: DrawOp, lines: seq<string>, blockHeight: int, measure: (string, Font) -> (int, int))
    requires DrawsLines(drawn, lines, blockHeight, measure) && |drawn| < |lines|
    requires var index, width := |drawn|, measure(lines[|drawn|], Typewriter).0;
      op == DrawText(LineOrigin(width, blockHeight, index).0, LineOrigin(width, blockHeight, index).1,
                     DrawnLine(index, lines[index]), Typewriter)
    ensures DrawsLines(drawn + [op], lines, blockHeight, measure)
  {
    var index := |drawn|;
    assert DrawsLine(op, index, lines[index], blockHeight, measure(lines[index], Typewriter).0);
    forall k | 0 <= k < index + 1
      ensures DrawsLine((drawn + [op])[k], k, lines[k], blockHeight, measure(lines[k], Typewriter).0)
    {
      if k < index {
        assert (drawn + [op])[k] == drawn[k];
      }
    }
  }

  /** Calls that draw the lines of a block, one per line in order, go down
      the card. */
  lemma LinesGoDown(drawn: seq<DrawOp>, lines: seq<string>, blockHeight: int, measure: (string, Font) -> (int, int))
    requires |drawn| == |lines|
    requires forall k :: 0 <= k < |drawn| ==> DrawsLine(drawn[k], k, lines[k], blockHeight, measure(lines[k], Typewriter).0)
    ensures forall j, k :: 0 <= j < k < |drawn| ==> drawn[j].y < drawn[k].y
  {
    forall j, k | 0 <= j < k < |drawn| ensures drawn[j].y < drawn[k].y {
      assert DrawsLine(drawn[j], j, lines[j], blockHeight, measure(lines[j], Typewriter).0);
      assert DrawsLine(drawn[k], k, lines[k], blockHeight, measure(lines[k], Typewriter).0);
    }
  }

  /** `createNotecard(response)`: the drawing calls on the blank card, in
      order. The heart comes first; then one call per line of the
      sanitized block, drawn as `DrawnLine`, centred on its own measured
      width, each lower than the one before, and free of emoji-class
      characters; then the caption and the handle. */
  method CreateNotecard(response: string, wrap: string -> seq<string>, measure: (string, Font) -> (int, int))
    returns (card: seq<DrawOp>)
    ensures var lines := Split(CardText(response, wrap));
      var blockHeight := measure(CardText(response, wrap), Typewriter).1;
      |card| == |lines| + 3 &&
      card[0] == PasteHeart(HeartOrigin().0, HeartOrigin().1) &&
      (forall k :: 0 <= k < |lines| ==>
        DrawsLine(card[k + 1], k, lines[k], blockHeight, measure(lines[k], Typewriter).0) && Clean(card[k + 1].text)) &&
      (forall j, k :: 1 <= j < k <= |lines| ==> card[j].y < card[k].y) &&
      card[|lines| + 1] == DrawText(ThankYouOrigin().0, ThankYouOrigin().1, ThankYou, Modernline) &&
      card[|lines| + 2] == DrawText(HandleOrigin(measure(Handle, Typewriter2).0).0, 1000, Handle, Typewriter2)
  {
    var text := CardText(response, wrap);
    RemoveEmojisClean(Reflow(response, wrap));
    assert Clean(text);
    var blockHeight := measure(text, Typewriter).1;
    var drawn := DrawBlock(text, blockHeight, measure);
    var handleWidth := measure(Handle, Typewriter2).0;
    var heart := PasteHeart(HeartOrigin().0, HeartOrigin().1);
    var footer := [DrawText(ThankYouOrigin().0, ThankYouOrigin().1, ThankYou, Modernline),
                   DrawText(HandleOrigin(handleWidth).0, HandleOrigin(handleWidth).1, Handle, Typewriter2)];
    card := [heart] + drawn + footer;
    CardLayout(heart, drawn, footer);
    forall j, k | 1 <= j < k <= |drawn| ensures card[j].y < card[k].y {
      assert card[j] == drawn[j - 1] && card[k] == drawn[k - 1];
    }
  }

  /** Where the parts of a card sit in its list of calls. */
  lemma CardLayout(heart: DrawOp, drawn: seq<DrawOp>, footer: seq<DrawOp>)
    requires |footer| == 2
    ensures var card := [heart] + drawn + footer;
      |card| == |drawn| + 3 && card[0] == heart &&
      (forall k :: 0 <= k < |drawn| ==> card[k + 1] == drawn[k]) &&
      card[|drawn| + 1] == footer[0] && card[|drawn| + 2] == footer[1]
  {
    var card := [heart] + drawn + footer;
    forall k | 0 <= k < |drawn| ensures card[k + 1] == drawn[k] {
      assert card[k + 1] == ([heart] + drawn)[k + 1];
    }
  }
}
