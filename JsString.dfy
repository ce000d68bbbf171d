/**
 * The JavaScript string operations the core relies on, for a separator of one
 * character: `String.prototype.split`, `String.prototype.startsWith`, and the
 * inverse of split, `Array.prototype.join`.
 */
module JsString {

  /** Number of occurrences of `c` in `s`. */
  function Count(s: string, c: char): nat
  {
    if s == [] then 0 else (if s[0] == c then 1 else 0) + Count(s[1..], c)
  }

  /**
   * `s.split(c)`: the maximal pieces of `s` between occurrences of `c`.
   * Like JavaScript, it never returns an empty array: `"".split(c)` is `[""]`.
   */
  function Split(s: string, c: char): (parts: seq<string>)
    ensures |parts| >= 1
    decreases |s|
  {
    if s == [] then [[]]
    else
      var rest := Split(s[1..], c);
      if s[0] == c then [[]] + rest
      else [[s[0]] + rest[0]] + rest[1..]
  }

  /** `parts.join(c)`. */
  function Join(parts: seq<string>, c: char): string
  {
    if parts == [] then []
    else if |parts| == 1 then parts[0]
    else parts[0] + [c] + Join(parts[1..], c)
  }

  /** `s.startsWith(prefix)`. */
  predicate StartsWith(s: string, prefix: string)
  {
    |prefix| <= |s| && s[..|prefix|] == prefix
  }

  /** The last piece of `s.split(c)`, as `parts[parts.length - 1]` reads it. */
  function LastPiece(s: string, c: char): string
  {
    var parts := Split(s, c);
    parts[|parts| - 1]
  }

  /** Splitting and joining again gives back the original text. */
  lemma {:induction false} JoinSplit(s: string, c: char)
    ensures Join(Split(s, c), c) == s
    decreases |s|
  {
    if s != [] {
      var rest := Split(s[1..], c);
      JoinSplit(s[1..], c);
      if s[0] == c {
        assert Split(s, c) == [[]] + rest;
        assert s == [c] + s[1..];
      } else {
        var parts := Split(s, c);
        assert parts == [[s[0]] + rest[0]] + rest[1..];
        if |rest| == 1 {
          assert s == [s[0]] + s[1..];
        } else {
          assert rest == [rest[0]] + rest[1..];
          assert Join(rest, c) == rest[0] + [c] + Join(rest[1..], c);
          assert parts[1..] == rest[1..];
          assert s == [s[0]] + s[1..];
        }
      }
    }
  }

  /** No piece of a split contains the separator. */
  lemma {:induction false} SplitPiecesLackSeparator(s: string, c: char)
    ensures forall k :: 0 <= k < |Split(s, c)| ==> c !in Split(s, c)[k]
    decreases |s|
  {
    if s != [] {
      SplitPiecesLackSeparator(s[1..], c);
    }
  }

  /** A split yields one more piece than there are separators. */
  lemma {:induction false} SplitCount(s: string, c: char)
    ensures |Split(s, c)| == Count(s, c) + 1
    decreases |s|
  {
    if s != [] {
      SplitCount(s[1..], c);
    }
  }

  /** Text without the separator is a single piece. */
  lemma {:induction false} SplitWithoutSeparator(s: string, c: char)
    requires c !in s
    ensures Split(s, c) == [s]
    decreases |s|
  {
    if s != [] {
      assert s[1..] == s[|s|..] || c !in s[1..];
      SplitWithoutSeparator(s[1..], c);
      assert [s[0]] + s[1..] == s;
    }
  }

  /** Splitting at a separator splits the two sides independently. */
  lemma {:induction false} SplitAtSeparator(x: string, y: string, c: char)
    ensures Split(x + [c] + y, c) == Split(x, c) + Split(y, c)
    decreases |x|
  {
    var s := x + [c] + y;
    var ry := Split(y, c);
    if x == [] {
      assert s[0] == c && s[1..] == y by {
        assert s == [c] + y;
      }
      calc {
        Split(s, c);
        [[]] + Split(s[1..], c);
        [[]] + ry;
        Split(x, c) + ry;
      }
    } else {
      var tail := x[1..] + [c] + y;
      assert s[0] == x[0] && s[1..] == tail;
      var rx := Split(x[1..], c);
      assert Split(tail, c) == rx + ry by {
        SplitAtSeparator(x[1..], y, c);
      }
      if x[0] == c {
        calc {
          Split(s, c);
          [[]] + Split(tail, c);
          [[]] + (rx + ry);
          ([[]] + rx) + ry;
          Split(x, c) + ry;
        }
      } else {
        assert (rx + ry)[0] == rx[0];
        assert (rx + ry)[1..] == rx[1..] + ry;
        calc {
          Split(s, c);
          [[x[0]] + (rx + ry)[0]] + (rx + ry)[1..];
          [[x[0]] + rx[0]] + (rx[1..] + ry);
          ([[x[0]] + rx[0]] + rx[1..]) + ry;
          Split(x, c) + ry;
        }
      }
    }
  }

  /** Joining pieces that lack the separator and splitting again gives the pieces back. */
  lemma {:induction false} SplitJoin(parts: seq<string>, c: char)
    requires |parts| >= 1
    requires forall k :: 0 <= k < |parts| ==> c !in parts[k]
    ensures Split(Join(parts, c), c) == parts
    decreases |parts|
  {
    if |parts| == 1 {
      SplitWithoutSeparator(parts[0], c);
    } else {
      SplitJoin(parts[1..], c);
      SplitWithoutSeparator(parts[0], c);
      SplitAtSeparator(parts[0], Join(parts[1..], c), c);
      assert parts == [parts[0]] + parts[1..];
    }
  }

  /** A text with exactly one separator splits into the text before it and the text after it. */
  lemma SplitOnce(before: string, after: string, c: char)
    requires c !in before && c !in after
    ensures Split(before + [c] + after, c) == [before, after]
  {
    SplitAtSeparator(before, after, c);
    SplitWithoutSeparator(before, c);
    SplitWithoutSeparator(after, c);
  }

  /** The converse: a text that splits into exactly two pieces is those pieces around one separator. */
  lemma TwoPieces(s: string, c: char)
    requires |Split(s, c)| == 2
    ensures s == Split(s, c)[0] + [c] + Split(s, c)[1]
    ensures c !in Split(s, c)[0] && c !in Split(s, c)[1]
    ensures Count(s, c) == 1
  {
    var parts := Split(s, c);
    JoinSplit(s, c);
    assert Join(parts[1..], c) == parts[1];
    SplitPiecesLackSeparator(s, c);
    SplitCount(s, c);
  }
}
