// Regrouping of concatenations.
module Sequences {
  lemma Assoc<T>(x: seq<T>, y: seq<T>, z: seq<T>)
    ensures x + (y + z) == (x + y) + z
  {
  }

  // Two balances with a common link make one.
  lemma Chained<T>(h: seq<T>, c: seq<T>, p: seq<T>, g: seq<T>, r: seq<T>, q: seq<T>, e: seq<T>)
    requires h + c == p + g && g + r == q + e
    ensures h + (c + r) == (p + q) + e
  {
    assert h + (c + r) == (h + c) + r == p + (g + r) == p + (q + e);
  }
}
