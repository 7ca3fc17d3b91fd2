/**
 Per-level vectors laid end to end. Positions, ranks and value indices in the concatenation
 are sums over the earlier levels plus the same quantity inside one level.
 */
module Levels {
  import opened Bits

  function Cat<T>(ls: seq<seq<T>>, a: nat, b: nat): seq<T>
    requires a <= b <= |ls|
  {
    if a == b then [] else Cat(ls, a, b - 1) + ls[b - 1]
  }

  lemma {:induction false} CatAt<T>(ls: seq<seq<T>>, a: nat, b: nat, l: nat, j: nat)
    requires a <= l < b <= |ls| && j < |ls[l]|
    ensures |Cat(ls, a, l)| + j < |Cat(ls, a, b)|
    ensures Cat(ls, a, b)[|Cat(ls, a, l)| + j] == ls[l][j]
    decreases b
  {
    if l < b - 1 { CatAt(ls, a, b - 1, l, j); }
  }

  lemma {:induction false} CatLength<T>(ls: seq<seq<T>>, a: nat, l: nat, b: nat)
    requires a <= l <= b <= |ls|
    ensures |Cat(ls, a, l)| <= |Cat(ls, a, b)|
    ensures Cat(ls, a, b)[..|Cat(ls, a, l)|] == Cat(ls, a, l)
    decreases b
  {
    if l < b { CatLength(ls, a, l, b - 1); }
  }

  /** Splitting a concatenation at a level boundary. */
  lemma {:induction false} CatSplit<T>(ls: seq<seq<T>>, a: nat, l: nat, b: nat)
    requires a <= l <= b <= |ls|
    ensures Cat(ls, a, b) == Cat(ls, a, l) + Cat(ls, l, b)
    decreases b
  {
    if l < b { CatSplit(ls, a, l, b - 1); }
  }

  lemma OnesOfAppend(x: seq<bool>, y: seq<bool>, j: nat)
    requires j <= |y|
    ensures Ones(x + y, |x| + j) == Ones(x, |x|) + Ones(y, j)
  {
    OnesWindow(x + y, 0, x, 0, |x|);
    OnesWindow(x + y, |x|, y, 0, j);
  }

  /** Rank across levels: all of the earlier levels, then the prefix inside this one. */
  lemma CatOnes(ls: seq<seq<bool>>, a: nat, b: nat, l: nat, j: nat)
    requires a <= l < b <= |ls| && j <= |ls[l]|
    ensures |Cat(ls, a, l)| + j <= |Cat(ls, a, b)|
    ensures Ones(Cat(ls, a, b), |Cat(ls, a, l)| + j) == Ones(Cat(ls, a, l), |Cat(ls, a, l)|) + Ones(ls[l], j)
  {
    var x := Cat(ls, a, l);
    CatLength(ls, a, l + 1, b);
    OnesWindow(Cat(ls, a, b), 0, x + ls[l], 0, |x| + j);
    OnesOfAppend(x, ls[l], j);
  }
}
