/** Newline-separated text as main.py handles it: Python's `s.split("\n")`,
    `"\n".join(parts)` and `"\n" * n`, over strings of code points. */
module Lines {

  /** How many times `c` occurs in `s`. */
  function Count(s: string, c: char): nat
  {
    if s == [] then 0 else (if s[0] == c then 1 else 0) + Count(s[1..], c)
  }

  /** The pieces of `s` between its newlines, as Python's `s.split("\n")`:
      there is always at least one piece ("" gives [""], "a\n" gives
      ["a", ""]); no piece holds a newline (`SplitNoNewline`). */
  function Split(s: string): (r: seq<string>)
    ensures |r| >= 1
  {
    if s == [] then [""]
    else if s[0] == '\n' then [""] + Split(s[1..])
    else
      var rest := Split(s[1..]);
      [[s[0]] + rest[0]] + rest[1..]
  }

  /** Python's `"\n".join(parts)`: the parts in order, a newline between
      neighbours; no parts give the empty string. */
  function Join(parts: seq<string>): string
  {
    if |parts| == 0 then ""
    else if |parts| == 1 then parts[0]
    else parts[0] + "\n" + Join(parts[1..])
  }

  /** Python's `x * n` on a one-element sequence (`"\n" * index` at main.py:84). */
  function Repeat<T>(x: T, n: nat): (r: seq<T>)
    ensures |r| == n
    ensures forall i :: 0 <= i < n ==> r[i] == x
  {
    if n == 0 then [] else [x] + Repeat(x, n - 1)
  }

  /** The sequences of `xss` one after the other. */
  function Concat<T>(xss: seq<seq<T>>): seq<T>
  {
    if xss == [] then [] else xss[0] + Concat(xss[1..])
  }

  /** `f` applied to every element, in order (a Python list comprehension). */
  function Map<A, B>(f: A -> B, xs: seq<A>): (r: seq<B>)
    ensures |r| == |xs|
    ensures forall i :: 0 <= i < |xs| ==> r[i] == f(xs[i])
  {
    if xs == [] then [] else [f(xs[0])] + Map(f, xs[1..])
  }

  /** There is one piece more than there are newlines. */
  lemma {:induction false} SplitCount(s: string)
    ensures |Split(s)| == Count(s, '\n') + 1
  {
    if s != [] {
      SplitCount(s[1..]);
    }
  }

  /** Split one character at a time: a newline starts a new piece, any
      other character joins the first piece of the rest. */
  lemma SplitCons(c: char, t: string)
    ensures Split([c] + t) ==
      if c == '\n' then [""] + Split(t) else [[c] + Split(t)[0]] + Split(t)[1..]
  {
    var s := [c] + t;
    assert s[0] == c && s[1..] == t;
  }

  /** No piece of a split holds a newline. */
  lemma {:induction false} SplitNoNewline(s: string, k: nat)
    requires k < |Split(s)|
    ensures '\n' !in Split(s)[k]
  {
    if s != [] {
      var c, t := s[0], s[1..];
      assert s == [c] + t;
      SplitCons(c, t);
      if c == '\n' {
        if k > 0 {
          SplitNoNewline(t, k - 1);
        }
      } else if k == 0 {
        SplitNoNewline(t, 0);
        assert Split(s)[0] == [c] + Split(t)[0];
      } else {
        SplitNoNewline(t, k);
        assert Split(s)[k] == Split(t)[k];
      }
    }
  }

  /** Every character of a piece of `s` is a character of `s`. */
  lemma SplitPiecesFrom(s: string, k: nat, i: nat)
    requires k < |Split(s)| && i < |Split(s)[k]|
    ensures Split(s)[k][i] in s
  {
    JoinSplit(s);
    InJoin(Split(s), k, i);
  }

  /** Every character of a part is a character of the join. */
  lemma {:induction false} InJoin(parts: seq<string>, k: nat, i: nat)
    requires k < |parts| && i < |parts[k]|
    ensures parts[k][i] in Join(parts)
  {
    if |parts| > 1 {
      var tail := Join(parts[1..]);
      assert Join(parts) == parts[0] + ("\n" + tail);
      if k == 0 {
        assert Join(parts)[i] == parts[0][i];
      } else {
        InJoin(parts[1..], k - 1, i);
        var j :| 0 <= j < |tail| && tail[j] == parts[k][i];
        assert Join(parts)[|parts[0]| + 1 + j] == tail[j];
      }
    }
  }

  /** Joining the pieces of a split gives the text back. */
  lemma {:induction false} JoinSplit(s: string)
    ensures Join(Split(s)) == s
  {
    if s != [] {
      var c, t := s[0], s[1..];
      assert s == [c] + t;
      JoinSplit(t);
      SplitCons(c, t);
      if c == '\n' {
        JoinCons("", Split(t));
      } else {
        JoinExtendFirst([c], Split(t));
      }
    }
  }

  /** Joining a part in front of one or more parts puts a newline between
      it and their join. */
  lemma JoinCons(x: string, parts: seq<string>)
    requires |parts| >= 1
    ensures Join([x] + parts) == x + "\n" + Join(parts)
  {
    var all := [x] + parts;
    assert all[0] == x && all[1..] == parts;
  }

  /** Extending the first part of a join extends the join at the front. */
  lemma JoinExtendFirst(p: string, parts: seq<string>)
    requires |parts| >= 1
    ensures Join([p + parts[0]] + parts[1..]) == p + Join(parts)
  {
    if |parts| == 1 {
      assert [p + parts[0]] + parts[1..] == [p + parts[0]];
    } else {
      var rest := Join(parts[1..]);
      JoinCons(p + parts[0], parts[1..]);
      assert Join(parts) == parts[0] + "\n" + rest;
      AppendAssoc(p, parts[0], "\n");
      AppendAssoc(p, parts[0] + "\n", rest);
    }
  }

  /** A newline splits a text into the pieces before it and the pieces after it. */
  lemma {:induction false} SplitAtNewline(a: string, b: string)
    ensures Split(a + "\n" + b) == Split(a) + Split(b)
  {
    if a == [] {
      assert a + "\n" + b == ['\n'] + b;
      SplitCons('\n', b);
    } else {
      SplitAtNewline(a[1..], b);
      SplitAtNewlineCons(a[0], a[1..], b);
      assert [a[0]] + a[1..] == a;
    }
  }

  /** The step of `SplitAtNewline`: one more character in front of the
      first text. */
  lemma SplitAtNewlineCons(c: char, t: string, b: string)
    requires Split(t + "\n" + b) == Split(t) + Split(b)
    ensures Split([c] + t + "\n" + b) == Split([c] + t) + Split(b)
  {
    assert [c] + t + "\n" + b == [c] + (t + "\n" + b);
    if c == '\n' {
      NewlineCons(t, b);
    } else {
      OtherCons(c, t, b);
    }
  }

  lemma NewlineCons(t: string, b: string)
    requires Split(t + "\n" + b) == Split(t) + Split(b)
    ensures Split(['\n'] + (t + "\n" + b)) == Split(['\n'] + t) + Split(b)
  {
    SplitCons('\n', t);
    SplitCons('\n', t + "\n" + b);
    ConsAssoc("", Split(t), Split(b));
  }

  lemma OtherCons(c: char, t: string, b: string)
    requires c != '\n'
    requires Split(t + "\n" + b) == Split(t) + Split(b)
    ensures Split([c] + (t + "\n" + b)) == Split([c] + t) + Split(b)
  {
    SplitCons(c, t);
    SplitCons(c, t + "\n" + b);
    ExtendFirst([c], Split(t), Split(b));
  }

  /** Extending the first piece of `left + right` extends the first piece
      of `left`. */
  lemma ExtendFirst(p: string, left: seq<string>, right: seq<string>)
    requires |left| >= 1
    ensures [p + (left + right)[0]] + (left + right)[1..] == ([p + left[0]] + left[1..]) + right
  {
    assert (left + right)[0] == left[0];
    assert (left + right)[1..] == left[1..] + right;
  }

  /** Concatenation is associative. */
  lemma AppendAssoc<T>(a: seq<T>, b: seq<T>, c: seq<T>)
    ensures (a + b) + c == a + (b + c)
  {
  }

  /** Prepending an element and appending a sequence can be done in either order. */
  lemma ConsAssoc<T>(x: T, l: seq<T>, r: seq<T>)
    ensures [x] + (l + r) == ([x] + l) + r
  {
  }

  /** Text without a newline splits into itself alone. */
  lemma {:induction false} SplitLine(a: string)
    requires '\n' !in a
    ensures Split(a) == [a]
  {
    if a != [] {
      assert a[1..] == a[1..] && '\n' !in a[1..] by {
        forall c | c in a[1..] ensures c in a { }
      }
      SplitLine(a[1..]);
      assert [a[0]] + a[1..] == a;
    }
  }

  /** Splitting a join gives back the parts when none of them holds a newline
      (one or more parts: joining no parts gives "", whose split is [""]). */
  lemma {:induction false} SplitJoin(parts: seq<string>)
    requires |parts| > 0
    requires forall k :: 0 <= k < |parts| ==> '\n' !in parts[k]
    ensures Split(Join(parts)) == parts
  {
    var first, rest := parts[0], parts[1..];
    SplitLine(first);
    if |parts| > 1 {
      assert Join(parts) == first + "\n" + Join(rest);
      SplitAtNewline(first, Join(rest));
      assert forall k :: 0 <= k < |rest| ==> rest[k] == parts[k + 1];
      SplitJoin(rest);
      assert [first] + rest == parts;
    }
  }

  /** Splitting the join of several texts splits each of them in turn. */
  lemma {:induction false} SplitJoinAll(texts: seq<string>)
    requires |texts| > 0
    ensures Split(Join(texts)) == Concat(Map(Split, texts))
  {
    if |texts| == 1 {
      assert Map(Split, texts) == [Split(texts[0])];
      assert Concat([Split(texts[0])]) == Split(texts[0]) + Concat([]);
    } else {
      SplitAtNewline(texts[0], Join(texts[1..]));
      SplitJoinAll(texts[1..]);
      assert Map(Split, texts)[1..] == Map(Split, texts[1..]);
    }
  }

  /** Every element of a concatenation comes from one of its parts. */
  lemma {:induction false} InConcat<T>(xss: seq<seq<T>>, j: nat)
    requires j < |Concat(xss)|
    ensures exists k, i :: 0 <= k < |xss| && 0 <= i < |xss[k]| && Concat(xss)[j] == xss[k][i]
  {
    if j < |xss[0]| {
      assert Concat(xss)[j] == xss[0][j];
    } else {
      InConcat(xss[1..], j - |xss[0]|);
      var k, i :| 0 <= k < |xss[1..]| && 0 <= i < |xss[1..][k]| && Concat(xss[1..])[j - |xss[0]|] == xss[1..][k][i];
      assert Concat(xss)[j] == xss[k + 1][i];
    }
  }

  /** A concatenation of non-empty parts is at least as long as there are parts. */
  lemma {:induction false} ConcatAtLeastOneEach<T>(xss: seq<seq<T>>)
    requires forall k :: 0 <= k < |xss| ==> |xss[k]| >= 1
    ensures |Concat(xss)| >= |xss|
  {
    if xss != [] {
      ConcatAtLeastOneEach(xss[1..]);
    }
  }
}
