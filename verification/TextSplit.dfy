/** Splitting and trimming of strings, as the parsers use them. */
module TextSplit {
  import opened Wrappers

  /** trim_end_matches(c) */
  function TrimEnd(s: string, c: char): string {
    if s != "" && s[|s| - 1] == c then TrimEnd(s[..|s| - 1], c) else s
  }

  lemma {:induction false} TrimEndKeeps(s: string, c: char)
    ensures TrimEnd(s, c) <= s
    ensures TrimEnd(s, c) == s <==> s == "" || s[|s| - 1] != c
  {
    if s != "" && s[|s| - 1] == c {
      TrimEndKeeps(s[..|s| - 1], c);
    }
  }

  /** Trimming behind a text that does not end in c leaves that text alone. */
  lemma {:induction false} TrimEndBehind(w: string, s: string, c: char)
    requires w != "" && w[|w| - 1] != c
    ensures TrimEnd(w + s, c) == w + TrimEnd(s, c)
  {
    if s == "" {
      assert w + s == w;
    } else if s[|s| - 1] == c {
      TrimEndBehind(w, s[..|s| - 1], c);
      assert (w + s)[..|w + s| - 1] == w + s[..|s| - 1];
    }
  }

  /** split(c) */
  function Split(s: string, c: char): (parts: seq<string>)
    ensures |parts| > 0
  {
    if s == "" then [""]
    else
      var rest := Split(s[1..], c);
      if s[0] == c then [""] + rest else [[s[0]] + rest[0]] + rest[1..]
  }

  /** splitn(2, c): the parts around the first c, None when there is none. */
  function SplitOnce(s: string, c: char): Option<(string, string)> {
    if s == "" then None
    else if s[0] == c then Some(("", s[1..]))
    else
      var r := SplitOnce(s[1..], c);
      if r.None? then None else Some(([s[0]] + r.value.0, r.value.1))
  }

  lemma {:induction false} SplitPiece(w: string, c: char, r: string)
    requires c !in w
    ensures Split(w + [c] + r, c) == [w] + Split(r, c)
  {
    var s := w + [c] + r;
    if w == "" {
      assert s[1..] == r;
    } else {
      SplitPiece(w[1..], c, r);
      assert s[1..] == w[1..] + [c] + r;
      assert [s[0]] + w[1..] == w;
    }
  }

  lemma {:induction false} SplitLast(w: string, c: char)
    requires c !in w
    ensures Split(w, c) == [w]
  {
    if w != "" {
      SplitLast(w[1..], c);
      assert [w[0]] + w[1..] == w;
    }
  }

  lemma {:induction false} SplitOnceAt(w: string, c: char, r: string)
    requires c !in w
    ensures SplitOnce(w + [c] + r, c) == Some((w, r))
  {
    var s := w + [c] + r;
    if w == "" {
      assert s[1..] == r;
    } else {
      SplitOnceAt(w[1..], c, r);
      assert s[1..] == w[1..] + [c] + r;
      assert [s[0]] + w[1..] == w;
    }
  }
}
