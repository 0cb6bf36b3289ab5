/**
 * JavaScript's `String.prototype.split(" ")` and `Array.prototype.join(" ")`,
 * the only string operations the wallet session applies to recovery phrases.
 */
module Text {
  const Space: char := ' '

  /**
   * `s.split(" ")`: the pieces between consecutive spaces, empty pieces
   * included, so that `"".split(" ")` is `[""]` and `" a".split(" ")` is `["", "a"]`.
   */
  function Split(s: string): (r: seq<string>)
    ensures |r| >= 1
    ensures forall i :: 0 <= i < |r| ==> Space !in r[i]
    decreases |s|
  {
    if |s| == 0 then [""]
    else
      var rest := Split(s[1..]);
      if s[0] == Space then [""] + rest
      else [[s[0]] + rest[0]] + rest[1..]
  }

  /** The number of characters in all the pieces together. */
  function TotalLength(parts: seq<string>): nat
  {
    if |parts| == 0 then 0 else |parts[0]| + TotalLength(parts[1..])
  }

  /**
   * `parts.join(" ")`: `[].join(" ")` is `""`; otherwise the pieces in order,
   * starting with the first, with exactly one space between neighbours.
   */
  function Join(parts: seq<string>): (r: string)
    ensures |parts| == 0 ==> r == ""
    ensures |parts| > 0 ==> |r| == TotalLength(parts) + |parts| - 1 && parts[0] <= r
  {
    if |parts| == 0 then ""
    else if |parts| == 1 then parts[0]
    else parts[0] + [Space] + Join(parts[1..])
  }

  /** Splitting on spaces and joining with spaces gives back the original text, whatever it holds. */
  lemma {:induction false} JoinSplit(s: string)
    ensures Join(Split(s)) == s
    decreases |s|
  {
    if |s| > 0 {
      JoinSplit(s[1..]);
      var rest := Split(s[1..]);
      if s[0] == Space {
        assert ([""] + rest)[1..] == rest;
      } else if |rest| > 1 {
        assert Join(rest) == rest[0] + [Space] + Join(rest[1..]);
        assert ([[s[0]] + rest[0]] + rest[1..])[1..] == rest[1..];
      }
      assert s == [s[0]] + s[1..];
    }
  }

  /** A text without spaces splits into itself. */
  lemma {:induction false} SplitWord(w: string)
    requires Space !in w
    ensures Split(w) == [w]
    decreases |w|
  {
    if |w| > 0 {
      SplitWord(w[1..]);
      assert [w[0]] + w[1..] == w;
    }
  }

  /** Splitting a space-free word followed by a space splits off exactly that word. */
  lemma {:induction false} SplitCons(w: string, t: string)
    requires Space !in w
    ensures Split(w + [Space] + t) == [w] + Split(t)
    decreases |w|
  {
    var s := w + [Space] + t;
    if |w| == 0 {
      assert s[1..] == t;
    } else {
      SplitCons(w[1..], t);
      assert s[1..] == w[1..] + [Space] + t;
      assert [w[0]] + w[1..] == w;
    }
  }

  /**
   * Joining space-free words and splitting again gives back the words: the
   * converse of JoinSplit, for the one-or-more word lists `split` produces.
   */
  lemma {:induction false} SplitJoin(words: seq<string>)
    requires |words| >= 1
    requires forall i :: 0 <= i < |words| ==> Space !in words[i]
    ensures Split(Join(words)) == words
    decreases |words|
  {
    if |words| == 1 {
      SplitWord(words[0]);
    } else {
      SplitJoin(words[1..]);
      SplitCons(words[0], Join(words[1..]));
      assert [words[0]] + words[1..] == words;
    }
  }

  /**
   * A non-empty list of space-free words is determined by its joined text:
   * it is exactly the `split(" ")` of that text.
   */
  lemma JoinDeterminesWords(words: seq<string>, text: string)
    requires |words| >= 1
    requires forall i :: 0 <= i < |words| ==> Space !in words[i]
    requires Join(words) == text
    ensures words == Split(text)
  {
    SplitJoin(words);
  }
}
