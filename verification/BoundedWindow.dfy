/** The window that the chat rooms and the platform connectors keep: append, then drop the oldest
    element when the window is over its limit. */
module BoundedWindow {

  function Last<T>(n: nat, s: seq<T>): (w: seq<T>)
    ensures |w| <= n && |w| <= |s|
  {
    if |s| > n then s[|s| - n..] else s
  }

  function PushBounded<T>(n: nat, w: seq<T>, x: T): seq<T> {
    var w' := w + [x];
    if |w'| > n then w'[1..] else w'
  }

  /** A window of the last n elements stays one. */
  lemma PushKeepsLast<T>(n: nat, history: seq<T>, x: T)
    ensures PushBounded(n, Last(n, history), x) == Last(n, history + [x])
  {
  }

  lemma LastOfLast<T>(n: nat, s: seq<T>, t: seq<T>)
    ensures Last(n, Last(n, s) + t) == Last(n, s + t)
  {
  }
}
