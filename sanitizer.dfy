/** The emoji sanitizer `remove_emojis` (main.py:15-31): a regular-expression
    character class of code-point ranges, and the substitution that deletes
    every run of characters in the class. Deleting every run of class
    characters deletes every class character, so the substitution is a filter
    over code points. */
module Sanitizer {
  import opened Lines

  /** One inclusive range `lo-hi` of a character class. */
  datatype CodeRange = CodeRange(lo: int, hi: int)

  /** The ranges of the class, in the order main.py:18-28 lists them. */
  const EmojiClass: seq<CodeRange> := [
    CodeRange(0x1F600, 0x1F64F),  // Emoticons
    CodeRange(0x1F300, 0x1F5FF),  // Symbols & Pictographs
    CodeRange(0x1F680, 0x1F6FF),  // Transport & Map Symbols
    CodeRange(0x1F700, 0x1F77F),  // Alchemical Symbols
    CodeRange(0x1F780, 0x1F7FF),  // Geometric Shapes Extended
    CodeRange(0x1F800, 0x1F8FF),  // Supplemental Arrows-C
    CodeRange(0x1F900, 0x1F9FF),  // Supplemental Symbols and Pictographs
    CodeRange(0x1FA00, 0x1FA6F),  // Chess Symbols
    CodeRange(0x1FA70, 0x1FAFF),  // Symbols and Pictographs Extended-A
    CodeRange(0x2702, 0x27B0),    // Dingbats
    CodeRange(0x24C2, 0x1F251)    // Enclosed characters
  ]

  /** `c` matches the character class: its code point lies in one of the ranges. */
  predicate InEmojiClass(c: char)
  {
    exists k :: 0 <= k < |EmojiClass| && EmojiClass[k].lo <= c as int <= EmojiClass[k].hi
  }

  /** What the class amounts to once its ranges are merged: the "Enclosed
      characters" range swallows the Dingbats range and the whole of the Basic
      Multilingual Plane from U+24C2 up (CJK and Hangul included). Two gaps
      are left: U+1F252-U+1F2FF, between Enclosed characters and Symbols &
      Pictographs, and U+1F650-U+1F67F, between Emoticons and Transport &
      Map Symbols. */
  predicate InMergedRanges(c: char)
  {
    var n := c as int;
    (0x24C2 <= n <= 0x1F251) || (0x1F300 <= n <= 0x1F64F) || (0x1F680 <= n <= 0x1FAFF)
  }

  lemma MergedRanges(c: char)
    ensures InEmojiClass(c) <==> InMergedRanges(c)
  {
    var n := c as int;
    if InEmojiClass(c) {
      var k :| 0 <= k < |EmojiClass| && EmojiClass[k].lo <= n <= EmojiClass[k].hi;
      assert k in {0, 1, 2, 3, 4, 5, 6, 7, 8, 9, 10};
    }
    if InMergedRanges(c) {
      if 0x24C2 <= n <= 0x1F251 {
        assert EmojiClass[10].lo <= n <= EmojiClass[10].hi;
      } else if n <= 0x1F5FF {
        assert EmojiClass[1].lo <= n <= EmojiClass[1].hi;
      } else if n <= 0x1F64F {
        assert EmojiClass[0].lo <= n <= EmojiClass[0].hi;
      } else if n <= 0x1F6FF {
        assert EmojiClass[2].lo <= n <= EmojiClass[2].hi;
      } else if n <= 0x1F77F {
        assert EmojiClass[3].lo <= n <= EmojiClass[3].hi;
      } else if n <= 0x1F7FF {
        assert EmojiClass[4].lo <= n <= EmojiClass[4].hi;
      } else if n <= 0x1F8FF {
        assert EmojiClass[5].lo <= n <= EmojiClass[5].hi;
      } else if n <= 0x1F9FF {
        assert EmojiClass[6].lo <= n <= EmojiClass[6].hi;
      } else if n <= 0x1FA6F {
        assert EmojiClass[7].lo <= n <= EmojiClass[7].hi;
      } else {
        assert EmojiClass[8].lo <= n <= EmojiClass[8].hi;
      }
    }
  }

  /** A newline is not in the class. */
  lemma NewlineNotInClass()
    ensures !InEmojiClass('\n')
  {
    MergedRanges('\n');
  }

  /** No character of `s` is in the class. */
  predicate Clean(s: string)
  {
    forall i :: 0 <= i < |s| ==> !InEmojiClass(s[i])
  }

  /** `emoji_pattern.sub('', text)`: the text with every character of the
      class deleted (`RemoveEmojisClean`). The text never grows. */
  function RemoveEmojis(text: string): (r: string)
    ensures |r| <= |text|
  {
    if text == [] then []
    else if InEmojiClass(text[0]) then RemoveEmojis(text[1..])
    else [text[0]] + RemoveEmojis(text[1..])
  }

  /** No character of the result is in the class. */
  lemma {:induction false} RemoveEmojisClean(text: string)
    ensures Clean(RemoveEmojis(text))
  {
    if text != [] {
      var rest := RemoveEmojis(text[1..]);
      RemoveEmojisClean(text[1..]);
      if !InEmojiClass(text[0]) {
        assert RemoveEmojis(text) == [text[0]] + rest;
      }
    }
  }

  /** Every character outside the class keeps its number of occurrences;
      every character in the class is gone. */
  lemma {:induction false} RemoveEmojisCounts(text: string)
    ensures forall c :: multiset(RemoveEmojis(text))[c] == if InEmojiClass(c) then 0 else multiset(text)[c]
  {
    if text != [] {
      RemoveEmojisCounts(text[1..]);
      assert text == [text[0]] + text[1..];
      assert multiset(text) == multiset{text[0]} + multiset(text[1..]);
    }
  }

  /** Every character of the result is a character of the text. */
  lemma RemoveEmojisFrom(text: string, i: nat)
    requires i < |RemoveEmojis(text)|
    ensures RemoveEmojis(text)[i] in text
  {
    var c := RemoveEmojis(text)[i];
    RemoveEmojisCounts(text);
    assert c in multiset(RemoveEmojis(text));
  }

  /** The filter works character by character: what it keeps of a text is
      what it keeps of each part, in the original order. */
  lemma {:induction false} RemoveEmojisAppend(a: string, b: string)
    ensures RemoveEmojis(a + b) == RemoveEmojis(a) + RemoveEmojis(b)
  {
    if a != [] {
      var ab := a + b;
      assert ab[0] == a[0];
      assert ab[1..] == a[1..] + b;
      RemoveEmojisAppend(a[1..], b);
      if InEmojiClass(a[0]) {
        assert RemoveEmojis(ab) == RemoveEmojis(a[1..] + b);
        assert RemoveEmojis(a) == RemoveEmojis(a[1..]);
      } else {
        assert RemoveEmojis(ab) == [a[0]] + RemoveEmojis(a[1..] + b);
        assert RemoveEmojis(a) == [a[0]] + RemoveEmojis(a[1..]);
        assert [a[0]] + (RemoveEmojis(a[1..]) + RemoveEmojis(b)) == ([a[0]] + RemoveEmojis(a[1..])) + RemoveEmojis(b);
      }
    } else {
      assert a + b == b;
    }
  }

  /** A text is returned unchanged exactly when none of its characters is in
      the class. */
  lemma {:induction false} RemoveEmojisUnchanged(text: string)
    ensures RemoveEmojis(text) == text <==> Clean(text)
  {
    RemoveEmojisClean(text);
    if text != [] && Clean(text) {
      assert !InEmojiClass(text[0]);
      assert Clean(text[1..]) by {
        forall i | 0 <= i < |text[1..]| ensures !InEmojiClass(text[1..][i]) {
          assert text[1..][i] == text[i + 1];
        }
      }
      RemoveEmojisUnchanged(text[1..]);
      assert [text[0]] + text[1..] == text;
    }
  }

  /** Sanitizing twice is sanitizing once. */
  lemma RemoveEmojisIdempotent(text: string)
    ensures RemoveEmojis(RemoveEmojis(text)) == RemoveEmojis(text)
  {
    RemoveEmojisClean(text);
    RemoveEmojisUnchanged(RemoveEmojis(text));
  }

  /** The text shrinks exactly when it holds a class character. */
  lemma {:induction false} RemoveEmojisShrinks(text: string)
    ensures |RemoveEmojis(text)| < |text| <==> exists i :: 0 <= i < |text| && InEmojiClass(text[i])
  {
    if text != [] {
      RemoveEmojisShrinks(text[1..]);
      if exists i :: 0 <= i < |text[1..]| && InEmojiClass(text[1..][i]) {
        var i :| 0 <= i < |text[1..]| && InEmojiClass(text[1..][i]);
        assert text[i + 1] == text[1..][i];
      }
      if exists i :: 0 <= i < |text| && InEmojiClass(text[i]) {
        var i :| 0 <= i < |text| && InEmojiClass(text[i]);
        if i > 0 {
          assert text[1..][i - 1] == text[i];
        }
      }
    }
  }

  /** Newlines are never in the class, so sanitizing keeps the line
      structure: the lines of the result are the sanitized lines of the
      text. */
  lemma {:induction false} RemoveEmojisKeepsLines(text: string)
    ensures Split(RemoveEmojis(text)) == Map(RemoveEmojis, Split(text))
  {
    NewlineNotInClass();
    if text != [] {
      var c := text[0];
      var lines := Split(text[1..]);
      RemoveEmojisKeepsLines(text[1..]);
      var cleaned := RemoveEmojis(text[1..]);
      if c == '\n' {
        assert RemoveEmojis(text) == "\n" + cleaned;
        assert ("\n" + cleaned)[1..] == cleaned;
        assert Map(RemoveEmojis, Split(text))[1..] == Map(RemoveEmojis, lines);
      } else {
        RemoveEmojisAppend([c], lines[0]);
        assert Split(text) == [[c] + lines[0]] + lines[1..];
        assert Map(RemoveEmojis, Split(text))[1..] == Map(RemoveEmojis, lines[1..]);
        assert Map(RemoveEmojis, lines)[1..] == Map(RemoveEmojis, lines[1..]);
        if InEmojiClass(c) {
          assert RemoveEmojis(text) == cleaned;
        } else {
          var out := [c] + cleaned;
          assert RemoveEmojis(text) == out;
          assert out[0] == c && out[1..] == cleaned;
        }
      }
    }
  }
}
