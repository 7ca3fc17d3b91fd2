/**
 64-bit words as the bit vectors use them: most significant bit first, with the shift and
 mask operations of the code, and the population count and in-word select routines.
 */
module Words {
  import opened Bits

  /** Bit 0 of a word is its most significant bit (kMsbMask >> 0). */
  type Word = w: seq<bool> | |w| == 64 witness seq(64, _ => false)

  function Zero(): Word { seq(64, _ => false) }

  function Or(a: Word, b: Word): Word { seq(64, i requires 0 <= i < 64 => a[i] || b[i]) }

  /** x >> k */
  function Shr(w: Word, k: nat): Word
    requires k < 64
  {
    seq(64, i requires 0 <= i < 64 => i >= k && w[i - k])
  }

  /** x << k */
  function Shl(w: Word, k: nat): Word
    requires k < 64
  {
    seq(64, i requires 0 <= i < 64 => i + k < 64 && w[i + k])
  }

  /** x & ((1 << t) - 1): the t least significant bits, which come last. */
  function LowBits(w: Word, t: nat): Word
    requires t <= 64
  {
    seq(64, i requires 0 <= i < 64 => i >= 64 - t && w[i])
  }

  /** kMsbMask >> k */
  function BitMask(k: nat): Word
    requires k < 64
  {
    seq(64, i => i == k)
  }

  function Popcount(w: Word): (r: nat) { Ones(w, 64) }

  /** Whether the word, read as a number, is greater than zero. */
  predicate NonZero(w: Word) { exists i :: 0 <= i < 64 && w[i] }

  /** __builtin_clzll: the number of zero bits before the first set one. */
  function Clz(w: Word, from: nat := 0): (r: nat)
    requires exists i :: from <= i < 64 && w[i]
    ensures from <= r < 64 && w[r]
    ensures forall i :: from <= i < r ==> !w[i]
    decreases 64 - from
  {
    if w[from] then from else Clz(w, from + 1)
  }

  /** The bits of an array of words, in order. */
  function Flat(ws: seq<Word>): (b: seq<bool>)
    ensures |b| == 64 * |ws|
  {
    seq(64 * |ws|, p requires 0 <= p < 64 * |ws| => ws[p / 64][p % 64])
  }

  /** `ws` holds exactly `bits`, and every bit after them is zero. */
  ghost predicate Holds(ws: seq<Word>, bits: seq<bool>) {
    |bits| <= 64 * |ws| &&
    (forall p :: 0 <= p < |bits| ==> Flat(ws)[p] == bits[p]) &&
    (forall p :: |bits| <= p < 64 * |ws| ==> !Flat(ws)[p])
  }

  lemma FlatOnes(ws: seq<Word>, i: nat, m: nat)
    requires i < |ws| && m <= 64
    ensures Ones(Flat(ws), 64 * i + m) - Ones(Flat(ws), 64 * i) == Ones(ws[i], m)
  {
    OnesWindow(Flat(ws), 64 * i, ws[i], 0, m);
  }

  lemma HoldsOnes(ws: seq<Word>, bits: seq<bool>, m: nat)
    requires Holds(ws, bits) && m <= |bits|
    ensures Ones(Flat(ws), m) == Ones(bits, m)
  {
    OnesWindow(Flat(ws), 0, bits, 0, m);
  }

  /** Past the held bits nothing more is counted. */
  lemma HoldsOnesBeyond(ws: seq<Word>, bits: seq<bool>, m: nat)
    requires Holds(ws, bits) && |bits| <= m <= 64 * |ws|
    ensures Ones(Flat(ws), m) == Ones(bits, |bits|)
  {
    HoldsOnes(ws, bits, |bits|);
    OnesZero(Flat(ws), |bits|, m);
  }

  /** Shifting right until `keep` bits remain counts the first `keep` bits. */
  lemma ShrKeepsFirst(w: Word, keep: nat)
    requires 0 < keep <= 64
    ensures Popcount(Shr(w, 64 - keep)) == Ones(w, keep)
  {
    OnesZero(Shr(w, 64 - keep), 0, 64 - keep);
    OnesWindow(Shr(w, 64 - keep), 64 - keep, w, 0, keep);
  }

  lemma LastWordOnes(bits: seq<Word>, i: nat, m: nat)
    requires i < |bits| && m < 64
    ensures Ones(Flat(bits), 64 * i + m + 1) == Ones(Flat(bits), 64 * i) + Popcount(Shr(bits[i], 63 - m))
  {
    ShrKeepsFirst(bits[i], m + 1);
    FlatOnes(bits, i, m + 1);
  }

  /**
   The number of set bits among the `nbits` bits that start at word `x`: whole words first,
   then the last word shifted right until only its wanted bits remain.
   */
  method PopcountLinear(bits: seq<Word>, x: nat, nbits: nat) returns (p: nat)
    requires 64 * x + nbits <= 64 * |bits|
    ensures p == Ones(Flat(bits), 64 * x + nbits) - Ones(Flat(bits), 64 * x)
  {
    hide Ones, Flat;
    if nbits == 0 {
      return 0;
    }
    var lastword := (nbits - 1) / 64;
    p := 0;
    for i := 0 to lastword
      invariant p == Ones(Flat(bits), 64 * (x + i)) - Ones(Flat(bits), 64 * x)
    {
      FlatOnes(bits, x + i, 64);
      assert 64 * (x + i) + 64 == 64 * (x + (i + 1));
      p := p + Popcount(bits[x + i]);
    }
    var lastshifted := Shr(bits[x + lastword], 63 - (nbits - 1) % 64);
    LastWordOnes(bits, x + lastword, (nbits - 1) % 64);
    assert 64 * (x + lastword) + (nbits - 1) % 64 + 1 == 64 * x + nbits;
    p := p + Popcount(lastshifted);
  }

  /** Index, from the most significant bit, of the k-th set bit; -1 when there is none. */
  method Select64Naive(x: Word, k: int) returns (pos: int)
    ensures 1 <= k <= Popcount(x) ==> IsNth(x, k, pos)
    ensures !(1 <= k <= Popcount(x)) ==> pos == -1
  {
    var count, left := -1, k;
    var i := 63;
    while i >= 0
      invariant -1 <= i <= 63 && count == 62 - i
      invariant left == k - Ones(x, 63 - i)
      invariant 1 <= k ==> left >= 1
    {
      count := count + 1;
      if x[63 - i] {
        left := left - 1;
        if left == 0 {
          OnesMono(x, 64 - i, 64);
          return count;
        }
      }
      i := i - 1;
    }
    return -1;
  }

  /** One halving step: `x` carries `w[a..a+2t]` in its low bits and zeros above. */
  ghost predicate Carries(x: Word, w: Word, a: nat, width: nat) {
    a + width <= 64 &&
    forall i :: 0 <= i < 64 ==> x[i] == (i >= 64 - width && w[a + i - (64 - width)])
  }

  lemma CarriesHigh(x: Word, w: Word, a: nat, t: nat)
    requires 0 < t <= 32 && Carries(x, w, a, 2 * t)
    ensures Popcount(Shr(x, t)) == Ones(w, a + t) - Ones(w, a)
    ensures Carries(Shr(x, t), w, a, t)
  {
    OnesZero(Shr(x, t), 0, 64 - t);
    OnesWindow(Shr(x, t), 64 - t, w, a, t);
  }

  lemma CarriesLow(x: Word, w: Word, a: nat, t: nat)
    requires 0 < t <= 32 && Carries(x, w, a, 2 * t)
    ensures Carries(LowBits(x, t), w, a + t, t)
  {
  }

  /** Binary search for the k-th set bit in six halving steps. */
  method Select64PopcountSearch(w: Word, k0: nat) returns (pos: int)
    requires 1 <= k0 <= Popcount(w)
    ensures IsNth(w, k0, pos)
  {
    var x, k, loc, testbits := w, k0 as int, -1, 32;
    ghost var a, width := 0, 64;
    while testbits > 0
      invariant testbits in {0, 1, 2, 4, 8, 16, 32}
      invariant width == if testbits == 0 then 1 else 2 * testbits
      invariant loc == a - 1 && Carries(x, w, a, width)
      invariant k == k0 - Ones(w, a) && 1 <= k && k0 <= Ones(w, a + width)
      decreases testbits
    {
      CarriesHigh(x, w, a, testbits);
      var lcount := Popcount(Shr(x, testbits));
      if k > lcount {
        CarriesLow(x, w, a, testbits);
        x := LowBits(x, testbits);
        loc := loc + testbits;
        k := k - lcount;
        a := a + testbits;
      } else {
        x := Shr(x, testbits);
      }
      width := testbits;
      testbits := testbits / 2;
    }
    return loc + k;
  }

  /** The halving search and the naive scan agree on every rank the word has. */
  method Select64Agree(w: Word, k: nat) returns (fast: int, naive: int)
    requires 1 <= k <= Popcount(w)
    ensures fast == naive
  {
    fast := Select64PopcountSearch(w, k);
    naive := Select64Naive(w, k);
    NthUnique(w, k, fast, naive);
  }
}
