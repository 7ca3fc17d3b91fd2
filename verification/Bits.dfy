/**
 Plain bit strings: the number of set bits in a prefix (rank) and the position of the
 k-th set bit (select), as one-line definitions. Everything faster is proved against these.
 */
module Bits {

  function Bit(b: bool): nat { if b then 1 else 0 }

  /** The number of set bits among the first `m` bits. */
  function Ones(b: seq<bool>, m: nat): (r: nat)
    requires m <= |b|
    ensures r <= m
  {
    if m == 0 then 0 else Ones(b, m - 1) + Bit(b[m - 1])
  }

  /** `p` is the position of the `k`-th set bit; positions count from 0, ranks from 1. */
  ghost predicate IsNth(b: seq<bool>, k: nat, p: int) {
    0 <= p < |b| && b[p] && Ones(b, p + 1) == k
  }

  lemma {:induction false} OnesMono(b: seq<bool>, x: nat, y: nat)
    requires x <= y <= |b|
    ensures Ones(b, x) <= Ones(b, y) <= Ones(b, x) + (y - x)
    decreases y
  {
    if x < y { OnesMono(b, x, y - 1); }
  }

  /** Counting the same bits at two places gives the same number. */
  lemma {:induction false} OnesWindow(b: seq<bool>, lo: nat, c: seq<bool>, off: nat, len: nat)
    requires lo + len <= |b| && off + len <= |c|
    requires forall p :: lo <= p < lo + len ==> b[p] == c[p - lo + off]
    ensures Ones(b, lo + len) - Ones(b, lo) == Ones(c, off + len) - Ones(c, off)
  {
    if len > 0 {
      OnesWindow(b, lo, c, off, len - 1);
    }
  }

  lemma {:induction false} OnesZero(b: seq<bool>, lo: nat, hi: nat)
    requires lo <= hi <= |b|
    requires forall p :: lo <= p < hi ==> !b[p]
    ensures Ones(b, hi) == Ones(b, lo)
    decreases hi
  {
    if lo < hi { OnesZero(b, lo, hi - 1); }
  }

  /** A set bit separates the prefix counts on its two sides. */
  lemma OnesStrict(b: seq<bool>, x: nat, y: nat)
    requires x < y <= |b| && b[x]
    ensures Ones(b, x) < Ones(b, y)
  {
    OnesMono(b, x + 1, y);
  }

  lemma NthUnique(b: seq<bool>, k: nat, p: int, q: int)
    requires IsNth(b, k, p) && IsNth(b, k, q)
    ensures p == q
  {
    if p < q { OnesStrict(b, q, q + 1); OnesMono(b, p + 1, q); }
    if q < p { OnesStrict(b, p, p + 1); OnesMono(b, q + 1, p); }
  }

  /** A bit string marked at a strictly increasing list of positions, each with its own flag. */
  ghost predicate IncreasingIn(ps: seq<nat>, len: nat) {
    (forall j :: 0 <= j < |ps| ==> ps[j] < len) &&
    (forall i, j :: 0 <= i < j < |ps| ==> ps[i] < ps[j])
  }

  ghost predicate Marked(b: seq<bool>, ps: seq<nat>, flags: seq<bool>) {
    |flags| == |ps| && IncreasingIn(ps, |b|) &&
    (forall j :: 0 <= j < |ps| ==> b[ps[j]] == flags[j]) &&
    (forall x :: 0 <= x < |b| && b[x] ==> x in ps)
  }

  /** Rank in a sparsely marked string is rank in the dense list of flags. */
  lemma {:induction false} MarkedOnes(b: seq<bool>, ps: seq<nat>, flags: seq<bool>, j: nat, x: nat)
    requires Marked(b, ps, flags)
    requires j <= |ps| && x <= |b|
    requires j > 0 ==> ps[j - 1] < x
    requires j < |ps| ==> x <= ps[j]
    ensures Ones(b, x) == Ones(flags, j)
    decreases x
  {
    if x > 0 {
      if j > 0 && ps[j - 1] == x - 1 {
        MarkedOnes(b, ps, flags, j - 1, x - 1);
      } else {
        if b[x - 1] {
          var i :| 0 <= i < |ps| && ps[i] == x - 1;
          assert false;
        }
        MarkedOnes(b, ps, flags, j, x - 1);
      }
    }
  }

  /** The positions of the set bits among the first `m`, in order. */
  function Positions(b: seq<bool>, m: nat): (r: seq<nat>)
    requires m <= |b|
    ensures |r| == Ones(b, m)
    ensures forall j :: 0 <= j < |r| ==> r[j] < m && b[r[j]]
  {
    if m == 0 then [] else if b[m - 1] then Positions(b, m - 1) + [m - 1] else Positions(b, m - 1)
  }

  /** The set bit at `i` is listed at its rank. */
  lemma {:induction false} PositionAt(b: seq<bool>, m: nat, i: nat)
    requires i < m <= |b| && b[i]
    ensures Ones(b, i) < Ones(b, m) && Positions(b, m)[Ones(b, i)] == i
  {
    OnesStrict(b, i, m);
    if i < m - 1 { PositionAt(b, m - 1, i); }
  }

  /** Positions and ranks are inverse to each other. */
  lemma {:induction false} RankOfPosition(b: seq<bool>, m: nat, j: nat)
    requires m <= |b| && j < Ones(b, m)
    ensures Ones(b, Positions(b, m)[j]) == j
  {
    if j < Ones(b, m - 1) { RankOfPosition(b, m - 1, j); }
  }

  /** The flags `g`, kept only where `f` is set. */
  function Pick(g: seq<bool>, f: seq<bool>): (r: seq<bool>)
    requires |g| == |f|
    ensures |r| == Ones(f, |f|)
  {
    seq(Ones(f, |f|), j requires 0 <= j < Ones(f, |f|) => g[Positions(f, |f|)[j]])
  }

  lemma PickAt(g: seq<bool>, f: seq<bool>, i: nat)
    requires |g| == |f| && i < |f| && f[i]
    ensures Ones(f, i) < |Pick(g, f)| && Pick(g, f)[Ones(f, i)] == g[i]
  {
    PositionAt(f, |f|, i);
  }

  /** Counting picked flags up to a rank counts the flags up to the position of that rank. */
  lemma {:induction false} PickOnes(g: seq<bool>, f: seq<bool>, m: nat)
    requires |g| == |f| && m <= |f|
    requires forall i :: 0 <= i < |g| && g[i] ==> f[i]
    ensures Ones(f, m) <= |Pick(g, f)| && Ones(Pick(g, f), Ones(f, m)) == Ones(g, m)
    decreases m
  {
    OnesMono(f, m, |f|);
    if m > 0 {
      PickOnes(g, f, m - 1);
      if f[m - 1] { PickAt(g, f, m - 1); }
    }
  }

  lemma {:induction false} OnesAgree(b: seq<bool>, c: seq<bool>, m: nat)
    requires m <= |b| && m <= |c| && b[..m] == c[..m]
    ensures Ones(b, m) == Ones(c, m) && Positions(b, m) == Positions(c, m)
  {
    if m > 0 {
      assert b[..m - 1] == b[..m][..m - 1] && c[..m - 1] == c[..m][..m - 1];
      assert b[m - 1] == b[..m][m - 1] && c[m - 1] == c[..m][m - 1];
      OnesAgree(b, c, m - 1);
    }
  }

  /** Adding one more item to the pool adds one picked flag or none. */
  lemma PickSnoc(g: seq<bool>, f: seq<bool>, x: bool, y: bool)
    requires |g| == |f|
    ensures Ones(f + [y], |f|) == Ones(f, |f|)
    ensures Pick(g + [x], f + [y]) == if y then Pick(g, f) + [x] else Pick(g, f)
    ensures Positions(f + [y], |f| + 1) == if y then Positions(f, |f|) + [|f|] else Positions(f, |f|)
  {
    assert (f + [y])[..|f|] == f == f[..|f|];
    OnesAgree(f + [y], f, |f|);
    var p := Pick(g + [x], f + [y]);
    forall j | 0 <= j < Ones(f, |f|)
      ensures p[j] == Pick(g, f)[j]
    {
      assert Positions(f + [y], |f| + 1)[j] == Positions(f, |f|)[j];
    }
    if y {
      assert Positions(f + [y], |f| + 1)[Ones(f, |f|)] == |f|;
      assert p == Pick(g, f) + [x];
    } else {
      assert p == Pick(g, f);
    }
  }

  lemma OnesSnoc(f: seq<bool>, y: bool)
    ensures Ones(f + [y], |f| + 1) == Ones(f, |f|) + Bit(y)
    ensures Positions(f + [y], |f| + 1) == if y then Positions(f, |f|) + [|f|] else Positions(f, |f|)
  {
    assert (f + [y])[..|f|] == f == f[..|f|];
    OnesAgree(f + [y], f, |f|);
  }

  /** The entries of `xs` at the listed indices. */
  function Gather<T>(xs: seq<T>, at: seq<nat>): (r: seq<T>)
    requires forall j :: 0 <= j < |at| ==> at[j] < |xs|
    ensures |r| == |at|
  {
    seq(|at|, j requires 0 <= j < |at| => xs[at[j]])
  }

  lemma GatherSnoc<T>(xs: seq<T>, x: T, at: seq<nat>)
    requires forall j :: 0 <= j < |at| ==> at[j] < |xs|
    ensures Gather(xs + [x], at) == Gather(xs, at)
    ensures Gather(xs + [x], at + [|xs|]) == Gather(xs, at) + [x]
  {
  }
}
