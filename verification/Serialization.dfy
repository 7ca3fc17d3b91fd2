/**
 Writing a trie to a byte buffer and reading it back (the serialize and deSerialize members of
 include/rank.hpp, select.hpp, label_vector.hpp, louds_dense.hpp, louds_sparse.hpp and fst.hpp).
 Numbers are 32 bits and words 64 bits, least significant byte first; a cursor moves over the
 buffer and is rounded up to a multiple of 8 after each structure.
 */
module Serialization {
  import opened Bits
  import opened Words
  import opened Labels
  import opened Levels
  import opened Bitvectors
  import opened Rank
  import opened Select
  import opened Strands
  import opened Encoding
  import opened DenseEncoding
  import opened Fst
  import opened Consequences
  import D = LoudsDense
  import S = LoudsSparse

  const WIDTH: nat := 0x1_0000_0000

  /** (n + 7) & ~7 */
  function SizeAlign(n: nat): (r: nat)
    ensures r % 8 == 0 && n <= r < n + 8
  {
    (n + 7) / 8 * 8
  }

  lemma AlignShift(at: nat, n: nat)
    requires at % 8 == 0
    ensures SizeAlign(at + n) == at + SizeAlign(n) && SizeAlign(0) == 0 && SizeAlign(4) == 8 && SizeAlign(16) == 16
  {
  }

  lemma Aligned(a: nat, b: nat)
    requires a % 8 == 0 && b % 8 == 0
    ensures (a + b) % 8 == 0
  {
  }

  // ---- bytes of numbers and words --------------------------------------------------------

  /** Least significant byte first. */
  function IntBytes(x: nat): (b: seq<Byte>)
    ensures |b| == 4 && (x < WIDTH ==> BytesOfInt(b, x))
  {
    [x % 0x100, x / 0x100 % 0x100, x / 0x100 / 0x100 % 0x100, x / 0x100 / 0x100 / 0x100 % 0x100]
  }

  /** The four bytes, weighted, add up to the number. */
  predicate BytesOfInt(b: seq<Byte>, x: nat)
    requires |b| == 4
  {
    var b0: nat, b1: nat, b2: nat, b3: nat := b[0], b[1], b[2], b[3];
    x == b0 + 0x100 * b1 + 0x1_0000 * b2 + 0x100_0000 * b3
  }

  function ToInt(b: seq<Byte>): (x: nat)
    requires |b| == 4
    ensures BytesOfInt(b, x)
  {
    var b0: nat, b1: nat, b2: nat, b3: nat := b[0], b[1], b[2], b[3];
    b0 + 0x100 * (b1 + 0x100 * (b2 + 0x100 * b3))
  }

  lemma IntRoundTrip(x: nat)
    requires x < WIDTH
    ensures ToInt(IntBytes(x)) == x
  {
  }

  /** Bits as a number, most significant first. */
  function Value(b: seq<bool>): nat {
    if b == [] then 0 else 2 * Value(b[..|b| - 1]) + Bit(b[|b| - 1])
  }

  function BitsOf(c: nat, n: nat): (b: seq<bool>)
    ensures |b| == n
  {
    if n == 0 then [] else BitsOf(c / 2, n - 1) + [c % 2 == 1]
  }

  lemma {:induction false} BitsRoundTrip(b: seq<bool>)
    ensures Value(b) < Pow2(|b|) && BitsOf(Value(b), |b|) == b
  {
    if b != [] {
      var front := b[..|b| - 1];
      BitsRoundTrip(front);
      assert Value(b) / 2 == Value(front);
      assert b == front + [b[|b| - 1]];
    }
  }

  function ByteOf(b: seq<bool>): Byte
    requires |b| == 8
  {
    BitsRoundTrip(b);
    assert Pow2(8) == 256 by { assert Pow2(3) == 8 && Pow2(8) == 32 * Pow2(3); }
    Value(b)
  }

  /** Bit `8 * q + r` of the word, from the top, is bit `r` from the top of the byte at address `7 - q`. */
  ghost predicate BytesOfWord(b: seq<Byte>, w: Word)
    requires |b| == 8
  {
    forall q, r :: 0 <= q < 8 && 0 <= r < 8 ==> WordBitIn(b, w, q, r)
  }

  predicate WordBitIn(b: seq<Byte>, w: Word, q: nat, r: nat)
    requires |b| == 8 && q < 8 && r < 8
  {
    BitIs(b[7 - q], r, w[8 * q + r])
  }

  /** Bit `r` of a byte, counted from the top. */
  predicate BitIs(c: Byte, r: nat, bit: bool)
    requires r < 8
  {
    (c / Pow2(7 - r)) % 2 == Bit(bit)
  }

  /** Bit `r` of a number, by division. */
  lemma {:induction false} ValueBit(b: seq<bool>, r: nat)
    requires r < |b|
    ensures (Value(b) / Pow2(|b| - 1 - r)) % 2 == Bit(b[r])
  {
    var front := b[..|b| - 1];
    if r < |b| - 1 {
      ValueBit(front, r);
      assert Value(b) / 2 == Value(front);
      DivideTwice(Value(b), Pow2(|front| - 1 - r));
    }
  }

  lemma DivideTwice(x: nat, m: nat)
    requires m > 0
    ensures x / (2 * m) == x / 2 / m
  {
    HalvesMod(x, m);
    QuotientTwice(x, m, x / 2 / m);
  }

  lemma QuotientTwice(x: nat, m: nat, q: nat)
    requires m > 0 && q == x / 2 / m
    ensures x / (2 * m) == q
  {
    var r := x / 2 % m;
    assert x / 2 == m * q + r;
    assert x == (2 * m) * q + (2 * r + x % 2) by { assert 2 * (m * q) == (2 * m) * q; }
    ModUnique(x, 2 * m, q, 2 * r + x % 2);
  }

  lemma ByteHoldsBits(b: seq<bool>, r: nat)
    requires |b| == 8 && r < 8
    ensures BitIs(ByteOf(b), r, b[r])
  {
    ValueBit(b, r);
  }

  lemma WordBytesHoldWord(w: Word)
    ensures BytesOfWord(seq(8, j requires 0 <= j < 8 => ByteOf(w[8 * (7 - j)..8 * (7 - j) + 8])), w)
  {
    hide BitIs, ByteOf;
    var b := seq(8, j requires 0 <= j < 8 => ByteOf(w[8 * (7 - j)..8 * (7 - j) + 8]));
    forall q, r | 0 <= q < 8 && 0 <= r < 8
      ensures WordBitIn(b, w, q, r)
    {
      assert b[7 - q] == ByteOf(w[8 * q..8 * q + 8]);
      ByteHoldsBits(w[8 * q..8 * q + 8], r);
    }
  }

  /** The byte at address `j` of a word holds the bits from 8 * (7 - j) on. */
  function WordBytes(w: Word): (b: seq<Byte>)
    ensures |b| == 8 && BytesOfWord(b, w)
  {
    WordBytesHoldWord(w);
    seq(8, j requires 0 <= j < 8 => ByteOf(w[8 * (7 - j)..8 * (7 - j) + 8]))
  }

  function ToWord(b: seq<Byte>): Word
    requires |b| == 8
  {
    seq(64, p requires 0 <= p < 64 => BitsOf(b[7 - p / 8], 8)[p % 8])
  }

  lemma BitInByte(w: Word, q: nat, r: nat)
    requires q < 8 && r < 8
    ensures BitsOf(WordBytes(w)[7 - q], 8)[r] == w[8 * q + r]
  {
    hide Value, BitsOf;
    var part := w[8 * q..8 * q + 8];
    assert WordBytes(w)[7 - q] == ByteOf(part);
    BitsRoundTrip(part);
    assert part[r] == w[8 * q + r];
  }

  lemma ToWordAt(b: seq<Byte>, q: nat, r: nat)
    requires |b| == 8 && q < 8 && r < 8
    ensures ToWord(b)[8 * q + r] == BitsOf(b[7 - q], 8)[r]
  {
    hide BitsOf;
    assert (8 * q + r) / 8 == q && (8 * q + r) % 8 == r;
  }

  lemma WordRoundTrip(w: Word)
    ensures ToWord(WordBytes(w)) == w
  {
    hide Value, BitsOf, WordBytes, ToWord;
    forall p | 0 <= p < 64
      ensures ToWord(WordBytes(w))[p] == w[p]
    {
      var q, r := p / 8, p % 8;
      assert p == 8 * q + r;
      BitInByte(w, q, r);
      ToWordAt(WordBytes(w), q, r);
    }
  }

  function IntsBytes(s: seq<nat>): (b: seq<Byte>)
    ensures |b| == 4 * |s|
  {
    seq(4 * |s|, i requires 0 <= i < 4 * |s| => IntBytes(s[i / 4])[i % 4])
  }

  /** A table is written number by number, in order. */
  lemma IntOfTable(s: seq<nat>, i: nat)
    requires i < |s|
    ensures IntsBytes(s)[4 * i..4 * i + 4] == IntBytes(s[i])
  {
    hide IntBytes;
  }

  function ToInts(b: seq<Byte>): seq<nat> {
    seq(|b| / 4, i requires 0 <= i < |b| / 4 => ToInt(b[4 * i..4 * i + 4]))
  }

  lemma IntsRoundTrip(s: seq<nat>)
    requires forall i :: 0 <= i < |s| ==> s[i] < WIDTH
    ensures ToInts(IntsBytes(s)) == s
  {
    hide ToInt, IntBytes;
    forall i | 0 <= i < |s|
      ensures ToInts(IntsBytes(s))[i] == s[i]
    {
      IntOfTable(s, i);
      IntRoundTrip(s[i]);
    }
  }

  function WordsBytes(s: seq<Word>): (b: seq<Byte>)
    ensures |b| == 8 * |s|
  {
    seq(8 * |s|, i requires 0 <= i < 8 * |s| => WordBytes(s[i / 8])[i % 8])
  }

  /** An array of words is written word by word, in order. */
  lemma WordOfArray(s: seq<Word>, i: nat)
    requires i < |s|
    ensures WordsBytes(s)[8 * i..8 * i + 8] == WordBytes(s[i])
  {
    hide WordBytes;
  }

  function ToWords(b: seq<Byte>): seq<Word> {
    seq(|b| / 8, i requires 0 <= i < |b| / 8 => ToWord(b[8 * i..8 * i + 8]))
  }

  lemma WordsRoundTrip(s: seq<Word>)
    ensures ToWords(WordsBytes(s)) == s
  {
    hide ToWord, WordBytes;
    forall i | 0 <= i < |s|
      ensures ToWords(WordsBytes(s))[i] == s[i]
    {
      WordOfArray(s, i);
      WordRoundTrip(s[i]);
    }
  }

  // ---- the buffer ------------------------------------------------------------------------

  ghost predicate BytesAt(b: seq<Byte>, at: nat, bytes: seq<Byte>) {
    at + |bytes| <= |b| && b[at..at + |bytes|] == bytes
  }

  /** Nothing outside from..to has changed. */
  ghost predicate Untouched(b: seq<Byte>, c: seq<Byte>, from: nat, to: nat) {
    |b| == |c| && forall i :: 0 <= i < |b| && !(from <= i < to) ==> c[i] == b[i]
  }

  lemma BytesKept(b: seq<Byte>, c: seq<Byte>, from: nat, to: nat)
    requires Untouched(b, c, from, to)
    ensures forall at: nat, bytes :: at + |bytes| <= from && BytesAt(b, at, bytes) ==> BytesAt(c, at, bytes)
  {
    forall at: nat, bytes | at + |bytes| <= from && BytesAt(b, at, bytes)
      ensures BytesAt(c, at, bytes)
    {
      assert c[at..at + |bytes|] == b[at..at + |bytes|];
    }
  }

  lemma UntouchedChain(b: seq<Byte>, c: seq<Byte>, d: seq<Byte>, from: nat, mid: nat, to: nat, end: nat)
    requires from <= mid && to <= end && Untouched(b, c, from, to) && Untouched(c, d, mid, end)
    ensures Untouched(b, d, from, end)
  {
  }

  /** memcpy */
  method Copy(dst: array<Byte>, at: nat, bytes: seq<Byte>) returns (next: nat)
    requires at + |bytes| <= dst.Length
    modifies dst
    ensures next == at + |bytes| && BytesAt(dst[..], at, bytes) && Untouched(old(dst[..]), dst[..], at, next)
    ensures forall a: nat, e :: a + |e| <= at && BytesAt(old(dst[..]), a, e) ==> BytesAt(dst[..], a, e)
  {
    forall i | 0 <= i < |bytes| {
      dst[at + i] := bytes[i];
    }
    next := at + |bytes|;
    BytesKept(old(dst[..]), dst[..], at, next);
  }

  method ReadInt(src: array<Byte>, at: nat, ghost x: nat) returns (r: nat)
    requires x < WIDTH && BytesAt(src[..], at, IntBytes(x))
    ensures r == x
  {
    hide ToInt, IntBytes;
    IntRoundTrip(x);
    r := ToInt(src[at..at + 4]);
  }

  method ReadInts(src: array<Byte>, at: nat, n: nat, ghost s: seq<nat>) returns (r: seq<nat>)
    requires n == |s| && (forall i :: 0 <= i < |s| ==> s[i] < WIDTH) && BytesAt(src[..], at, IntsBytes(s))
    ensures r == s
  {
    hide ToInts, IntsBytes;
    IntsRoundTrip(s);
    r := ToInts(src[at..at + 4 * n]);
  }

  method ReadWords(src: array<Byte>, at: nat, n: nat, ghost s: seq<Word>) returns (r: seq<Word>)
    requires n == |s| && BytesAt(src[..], at, WordsBytes(s))
    ensures r == s
  {
    hide ToWords, WordsBytes;
    WordsRoundTrip(s);
    r := ToWords(src[at..at + 8 * n]);
  }

  // ---- rank ------------------------------------------------------------------------------

  function BitsSize(numBits: nat): nat {
    8 * WordsFor(numBits)
  }

  function RankLutSize(numBits: nat, basicBlockSize: nat): nat
    requires basicBlockSize > 0
  {
    4 * NumBlocks(numBits, basicBlockSize)
  }

  /** The sizes the readers compute are those of the arrays, and every number fits its field. */
  ghost predicate RankFits(r: BitvectorRank) {
    r.bv.numBits < WIDTH && 0 < r.basicBlockSize < WIDTH &&
    8 * |r.bv.bits| == BitsSize(r.bv.numBits) && 4 * |r.rankLut| == RankLutSize(r.bv.numBits, r.basicBlockSize) &&
    forall i :: 0 <= i < |r.rankLut| ==> r.rankLut[i] < WIDTH
  }

  function RankSize(r: BitvectorRank): (n: nat)
    requires r.basicBlockSize > 0
    ensures n % 8 == 0
  {
    SizeAlign(4 + 4 + BitsSize(r.bv.numBits) + RankLutSize(r.bv.numBits, r.basicBlockSize))
  }

  ghost predicate StoredRank(b: seq<Byte>, at: nat, r: BitvectorRank) {
    BytesAt(b, at, IntBytes(r.bv.numBits)) && BytesAt(b, at + 4, IntBytes(r.basicBlockSize)) &&
    BytesAt(b, at + 8, WordsBytes(r.bv.bits)) && BytesAt(b, at + 8 + 8 * |r.bv.bits|, IntsBytes(r.rankLut))
  }

  method SerializeRank(r: BitvectorRank, dst: array<Byte>, at: nat) returns (next: nat)
    requires RankFits(r) && at % 8 == 0 && at + RankSize(r) <= dst.Length
    modifies dst
    ensures next == at + RankSize(r)
    ensures StoredRank(dst[..], at, r) && Untouched(old(dst[..]), dst[..], at, next)
  {
    hide IntBytes, WordsBytes, IntsBytes, BytesAt, BitsSize, RankLutSize, SizeAlign;
    next := Copy(dst, at, IntBytes(r.bv.numBits));
    next := Copy(dst, next, IntBytes(r.basicBlockSize));
    next := Copy(dst, next, WordsBytes(r.bv.bits));
    next := Copy(dst, next, IntsBytes(r.rankLut));
    AlignShift(at, next - at);
    next := SizeAlign(next);
  }

  method DeSerializeRank(src: array<Byte>, at: nat, ghost r: BitvectorRank) returns (back: BitvectorRank, next: nat)
    requires RankFits(r) && at % 8 == 0 && StoredRank(src[..], at, r)
    ensures back == r && next == at + RankSize(r)
  {
    hide IntBytes, WordsBytes, IntsBytes, BytesAt, BitsSize, RankLutSize, SelectLutSize, SizeAlign;
    next := at;
    var numBits := ReadInt(src, next, r.bv.numBits);
    next := next + 4;
    var basicBlockSize := ReadInt(src, next, r.basicBlockSize);
    next := next + 4;
    var bits := ReadWords(src, next, BitsSize(numBits) / 8, r.bv.bits);
    next := next + BitsSize(numBits);
    var rankLut := ReadInts(src, next, RankLutSize(numBits, basicBlockSize) / 4, r.rankLut);
    next := next + RankLutSize(numBits, basicBlockSize);
    AlignShift(at, next - at);
    next := SizeAlign(next);
    back := BitvectorRank(Bitvector(numBits, bits), basicBlockSize, rankLut);
  }

  // ---- select ----------------------------------------------------------------------------

  function SelectLutSize(numOnes: nat, sampleInterval: nat): nat
    requires sampleInterval > 0
  {
    4 * (SampleIndex(numOnes, sampleInterval) + 1)
  }

  ghost predicate SelectFits(s: BitvectorSelect) {
    s.bv.numBits < WIDTH && 0 < s.sampleInterval < WIDTH && s.numOnes < WIDTH &&
    8 * |s.bv.bits| == BitsSize(s.bv.numBits) && 4 * |s.selectLut| == SelectLutSize(s.numOnes, s.sampleInterval) &&
    forall i :: 0 <= i < |s.selectLut| ==> s.selectLut[i] < WIDTH
  }

  function SelectSize(s: BitvectorSelect): (n: nat)
    requires s.sampleInterval > 0
    ensures n % 8 == 0
  {
    SizeAlign(4 + 4 + 4 + BitsSize(s.bv.numBits) + SelectLutSize(s.numOnes, s.sampleInterval))
  }

  ghost predicate StoredSelect(b: seq<Byte>, at: nat, s: BitvectorSelect) {
    BytesAt(b, at, IntBytes(s.bv.numBits)) && BytesAt(b, at + 4, IntBytes(s.sampleInterval)) &&
    BytesAt(b, at + 8, IntBytes(s.numOnes)) &&
    BytesAt(b, at + 12, WordsBytes(s.bv.bits)) && BytesAt(b, at + 12 + 8 * |s.bv.bits|, IntsBytes(s.selectLut))
  }

  method SerializeSelect(s: BitvectorSelect, dst: array<Byte>, at: nat) returns (next: nat)
    requires SelectFits(s) && at % 8 == 0 && at + SelectSize(s) <= dst.Length
    modifies dst
    ensures next == at + SelectSize(s)
    ensures StoredSelect(dst[..], at, s) && Untouched(old(dst[..]), dst[..], at, next)
  {
    hide IntBytes, WordsBytes, IntsBytes, BytesAt, BitsSize, SelectLutSize, SizeAlign;
    next := Copy(dst, at, IntBytes(s.bv.numBits));
    next := Copy(dst, next, IntBytes(s.sampleInterval));
    next := Copy(dst, next, IntBytes(s.numOnes));
    next := Copy(dst, next, WordsBytes(s.bv.bits));
    next := Copy(dst, next, IntsBytes(s.selectLut));
    AlignShift(at, next - at);
    next := SizeAlign(next);
  }

  method DeSerializeSelect(src: array<Byte>, at: nat, ghost s: BitvectorSelect)
    returns (back: BitvectorSelect, next: nat)
    requires SelectFits(s) && at % 8 == 0 && StoredSelect(src[..], at, s)
    ensures back == s && next == at + SelectSize(s)
  {
    hide IntBytes, WordsBytes, IntsBytes, BytesAt, BitsSize, RankLutSize, SelectLutSize, SizeAlign;
    next := at;
    var numBits := ReadInt(src, next, s.bv.numBits);
    next := next + 4;
    var sampleInterval := ReadInt(src, next, s.sampleInterval);
    next := next + 4;
    var numOnes := ReadInt(src, next, s.numOnes);
    next := next + 4;
    var bits := ReadWords(src, next, BitsSize(numBits) / 8, s.bv.bits);
    next := next + BitsSize(numBits);
    var selectLut := ReadInts(src, next, SelectLutSize(numOnes, sampleInterval) / 4, s.selectLut);
    next := next + SelectLutSize(numOnes, sampleInterval);
    AlignShift(at, next - at);
    next := SizeAlign(next);
    back := BitvectorSelect(Bitvector(numBits, bits), sampleInterval, numOnes, selectLut);
  }

  // ---- labels ----------------------------------------------------------------------------

  // One byte more than there are labels is allocated, written and read; it is never set.

  function LabelsSize(v: LabelVector): (n: nat)
    ensures n % 8 == 0
  {
    SizeAlign(4 + v.NumBytes())
  }

  ghost predicate StoredLabels(b: seq<Byte>, at: nat, v: LabelVector) {
    BytesAt(b, at, IntBytes(v.NumBytes())) && BytesAt(b, at + 4, v.labels) && at + 4 + v.NumBytes() <= |b|
  }

  method SerializeLabels(v: LabelVector, spare: Byte, dst: array<Byte>, at: nat) returns (next: nat)
    requires v.NumBytes() < WIDTH && at % 8 == 0 && at + LabelsSize(v) <= dst.Length
    modifies dst
    ensures next == at + LabelsSize(v)
    ensures StoredLabels(dst[..], at, v) && Untouched(old(dst[..]), dst[..], at, next)
    ensures dst[at + 4 + |v.labels|] == spare
  {
    hide IntBytes, BytesAt;
    next := Copy(dst, at, IntBytes(v.NumBytes()));
    next := Copy(dst, next, v.labels);
    next := Copy(dst, next, [spare]);
    ByteCopied(dst[..], next - 1, spare);
    AlignShift(at, next - at);
    next := SizeAlign(next);
  }

  lemma ByteCopied(b: seq<Byte>, at: nat, c: Byte)
    requires BytesAt(b, at, [c])
    ensures at < |b| && b[at] == c
  {
    assert b[at..at + 1][0] == c;
  }

  method DeSerializeLabels(src: array<Byte>, at: nat, ghost v: LabelVector) returns (back: LabelVector, next: nat)
    requires v.NumBytes() < WIDTH && at % 8 == 0 && StoredLabels(src[..], at, v)
    ensures back == v && next == at + LabelsSize(v)
  {
    hide IntBytes;
    next := at;
    var numBytes := ReadInt(src, next, v.NumBytes());
    next := next + 4;
    back := LabelVector(src[next..next + numBytes - 1]);
    next := next + numBytes;
    AlignShift(at, next - at);
    next := SizeAlign(next);
  }

  // ---- dense levels ----------------------------------------------------------------------

  predicate DenseSized(d: D.LoudsDense) {
    d.labelBitmaps.basicBlockSize > 0 && d.childIndicatorBitmaps.basicBlockSize > 0 &&
    d.prefixkeyIndicatorBits.basicBlockSize > 0
  }

  ghost predicate DenseFits(d: D.LoudsDense)
    ensures DenseFits(d) ==> DenseSized(d)
  {
    d.height < WIDTH && RankFits(d.labelBitmaps) && RankFits(d.childIndicatorBitmaps) &&
    RankFits(d.prefixkeyIndicatorBits)
  }

  function DenseSize(d: D.LoudsDense): (n: nat)
    requires DenseSized(d)
    ensures n % 8 == 0
  {
    SizeAlign(4 + RankSize(d.labelBitmaps) + RankSize(d.childIndicatorBitmaps) + RankSize(d.prefixkeyIndicatorBits))
  }

  ghost predicate StoredDense(b: seq<Byte>, at: nat, d: D.LoudsDense)
    requires DenseFits(d)
  {
    var first := at + 8;
    var second := first + RankSize(d.labelBitmaps);
    var third := second + RankSize(d.childIndicatorBitmaps);
    BytesAt(b, at, IntBytes(d.height)) && StoredRank(b, first, d.labelBitmaps) &&
    StoredRank(b, second, d.childIndicatorBitmaps) && StoredRank(b, third, d.prefixkeyIndicatorBits)
  }

  lemma StoredRankKept(b: seq<Byte>, c: seq<Byte>, at: nat, r: BitvectorRank, from: nat, to: nat)
    requires RankFits(r) && StoredRank(b, at, r) && Untouched(b, c, from, to) && at + RankSize(r) <= from
    ensures StoredRank(c, at, r)
  {
    hide IntBytes, WordsBytes, IntsBytes, BytesAt, BitsSize, RankLutSize, SizeAlign;
    BytesKept(b, c, from, to);
  }

  /** Where the three bitmaps go; all of it is aligned, so nothing is lost between them. */
  lemma DenseOffsets(d: D.LoudsDense, at: nat)
    requires DenseSized(d) && at % 8 == 0
    ensures var a, b, c := RankSize(d.labelBitmaps), RankSize(d.childIndicatorBitmaps),
      RankSize(d.prefixkeyIndicatorBits);
      && (at + 8) % 8 == 0 && (at + 8 + a) % 8 == 0 && (at + 8 + a + b) % 8 == 0 && SizeAlign(at + 4) == at + 8
      && SizeAlign(at + 8 + a + b + c) == at + 8 + a + b + c && DenseSize(d) == 8 + a + b + c
  {
    hide RankSize, SizeAlign;
    var a, b, c := RankSize(d.labelBitmaps), RankSize(d.childIndicatorBitmaps), RankSize(d.prefixkeyIndicatorBits);
    Aligned(a, b);
    Aligned(a + b, c);
    Aligned(at, 8);
    Aligned(at + 8, a);
    Aligned(at + 8 + a, b);
    Aligned(at + 8 + a + b, c);
    AlignShift(at, 4);
    AlignShift(at + 8 + a + b + c, 0);
    AlignShift(a + b + c, 4);
  }

  method SerializeDense(d: D.LoudsDense, dst: array<Byte>, at: nat) returns (next: nat)
    requires DenseFits(d) && at % 8 == 0 && at + DenseSize(d) <= dst.Length
    modifies dst
    ensures next == at + DenseSize(d)
    ensures StoredDense(dst[..], at, d) && Untouched(old(dst[..]), dst[..], at, next)
  {
    hide IntBytes, BytesAt, RankFits, RankSize, StoredRank, SizeAlign, Untouched, DenseSize;
    ghost var b := dst[..];
    DenseOffsets(d, at);
    next := Copy(dst, at, IntBytes(d.height));
    next := SizeAlign(next);
    ghost var b0, n0 := dst[..], next;
    next := SerializeRank(d.labelBitmaps, dst, next);
    ghost var b1, n1 := dst[..], next;
    next := SerializeRank(d.childIndicatorBitmaps, dst, next);
    ghost var b2, n2 := dst[..], next;
    next := SerializeRank(d.prefixkeyIndicatorBits, dst, next);
    ghost var b3, n3 := dst[..], next;
    StoredRankKept(b1, b2, n0, d.labelBitmaps, n1, n2);
    StoredRankKept(b2, b3, n0, d.labelBitmaps, n2, n3);
    StoredRankKept(b2, b3, n1, d.childIndicatorBitmaps, n2, n3);
    UntouchedChain(b0, b1, b2, n0, n1, n1, n2);
    UntouchedChain(b0, b2, b3, n0, n2, n2, n3);
    BytesKept(b0, b3, n0, n3);
    UntouchedChain(b, b0, b3, at, n0, at + 4, n3);
    next := SizeAlign(next);
  }

  /** The dense levels as they come back: without the values and the keys, which are not written. */
  function BareDense(d: D.LoudsDense): D.LoudsDense { d.(values := [], keys := []) }

  method DeSerializeDense(src: array<Byte>, at: nat, ghost d: D.LoudsDense) returns (back: D.LoudsDense, next: nat)
    requires DenseFits(d) && at % 8 == 0 && StoredDense(src[..], at, d)
    ensures back == BareDense(d) && next == at + DenseSize(d)
  {
    hide IntBytes, BytesAt, RankFits, RankSize, StoredRank, SizeAlign, DenseSize;
    DenseOffsets(d, at);
    next := at;
    var height := ReadInt(src, next, d.height);
    next := next + 4;
    next := SizeAlign(next);
    var labelBitmaps, childBitmaps, prefixBits;
    labelBitmaps, next := DeSerializeRank(src, next, d.labelBitmaps);
    childBitmaps, next := DeSerializeRank(src, next, d.childIndicatorBitmaps);
    prefixBits, next := DeSerializeRank(src, next, d.prefixkeyIndicatorBits);
    next := SizeAlign(next);
    back := D.LoudsDense(height, labelBitmaps, childBitmaps, prefixBits, [], []);
  }

  // ---- sparse levels ---------------------------------------------------------------------

  predicate SparseSized(s: S.LoudsSparse) { s.childIndicatorBits.basicBlockSize > 0 && s.loudsBits.sampleInterval > 0 }

  ghost predicate SparseFits(s: S.LoudsSparse)
    ensures SparseFits(s) ==> SparseSized(s)
  {
    s.height < WIDTH && s.startLevel < WIDTH && s.nodeCountDense < WIDTH && s.childCountDense < WIDTH &&
    s.labels.NumBytes() < WIDTH && RankFits(s.childIndicatorBits) && SelectFits(s.loudsBits)
  }

  function SparseSize(s: S.LoudsSparse): (n: nat)
    requires SparseSized(s)
    ensures n % 8 == 0
  {
    SizeAlign(4 + 4 + 4 + 4 + LabelsSize(s.labels) + RankSize(s.childIndicatorBits) + SelectSize(s.loudsBits))
  }

  ghost predicate StoredSparse(b: seq<Byte>, at: nat, s: S.LoudsSparse)
    requires SparseFits(s)
  {
    var first := at + 16;
    var second := first + LabelsSize(s.labels);
    var third := second + RankSize(s.childIndicatorBits);
    StoredHeader(b, at, s) &&
    StoredLabels(b, first, s.labels) && StoredRank(b, second, s.childIndicatorBits) &&
    StoredSelect(b, third, s.loudsBits)
  }

  lemma StoredLabelsKept(b: seq<Byte>, c: seq<Byte>, at: nat, v: LabelVector, from: nat, to: nat)
    requires StoredLabels(b, at, v) && Untouched(b, c, from, to) && at + LabelsSize(v) <= from
    ensures StoredLabels(c, at, v)
  {
    hide IntBytes, BytesAt;
    BytesKept(b, c, from, to);
  }

  lemma SparseOffsets(s: S.LoudsSparse, at: nat)
    requires SparseSized(s) && at % 8 == 0
    ensures var a, b, c := LabelsSize(s.labels), RankSize(s.childIndicatorBits), SelectSize(s.loudsBits);
      && (at + 16) % 8 == 0 && (at + 16 + a) % 8 == 0 && (at + 16 + a + b) % 8 == 0 && SizeAlign(at + 16) == at + 16
      && SizeAlign(at + 16 + a + b + c) == at + 16 + a + b + c && SparseSize(s) == 16 + a + b + c
  {
    hide RankSize, SelectSize, LabelsSize, SizeAlign;
    var a, b, c := LabelsSize(s.labels), RankSize(s.childIndicatorBits), SelectSize(s.loudsBits);
    Aligned(a, b);
    Aligned(a + b, c);
    Aligned(at, 16);
    Aligned(at + 16, a);
    Aligned(at + 16 + a, b);
    Aligned(at + 16 + a + b, c);
    AlignShift(at + 16, 0);
    AlignShift(at + 16 + a + b + c, 0);
    AlignShift(a + b + c, 16);
  }

  method SerializeSparse(s: S.LoudsSparse, spare: Byte, dst: array<Byte>, at: nat) returns (next: nat)
    requires SparseFits(s) && at % 8 == 0 && at + SparseSize(s) <= dst.Length
    modifies dst
    ensures next == at + SparseSize(s)
    ensures StoredSparse(dst[..], at, s) && Untouched(old(dst[..]), dst[..], at, next)
  {
    hide IntBytes, BytesAt, RankFits, RankSize, StoredRank, SelectFits, SelectSize, StoredSelect, LabelsSize,
         StoredLabels, SizeAlign, Untouched, StoredHeader, SparseSize;
    ghost var b := dst[..];
    SparseOffsets(s, at);
    next := SerializeHeader(s, dst, at);
    next := SizeAlign(next);
    ghost var b0, n0 := dst[..], next;
    next := SerializeLabels(s.labels, spare, dst, next);
    ghost var b1, n1 := dst[..], next;
    next := SerializeRank(s.childIndicatorBits, dst, next);
    ghost var b2, n2 := dst[..], next;
    next := SerializeSelect(s.loudsBits, dst, next);
    ghost var b3, n3 := dst[..], next;
    StoredLabelsKept(b1, b2, n0, s.labels, n1, n2);
    StoredLabelsKept(b2, b3, n0, s.labels, n2, n3);
    StoredRankKept(b2, b3, n1, s.childIndicatorBits, n2, n3);
    UntouchedChain(b0, b1, b2, n0, n1, n1, n2);
    UntouchedChain(b0, b2, b3, n0, n2, n2, n3);
    StoredHeaderKept(b0, b3, at, s, n0, n3);
    UntouchedChain(b, b0, b3, at, n0, n0, n3);
    next := SizeAlign(next);
  }

  ghost predicate StoredHeader(b: seq<Byte>, at: nat, s: S.LoudsSparse) {
    BytesAt(b, at, IntBytes(s.height)) && BytesAt(b, at + 4, IntBytes(s.startLevel)) &&
    BytesAt(b, at + 8, IntBytes(s.nodeCountDense)) && BytesAt(b, at + 12, IntBytes(s.childCountDense))
  }

  lemma StoredHeaderKept(b: seq<Byte>, c: seq<Byte>, at: nat, s: S.LoudsSparse, from: nat, to: nat)
    requires StoredHeader(b, at, s) && Untouched(b, c, from, to) && at + 16 <= from
    ensures StoredHeader(c, at, s)
  {
    hide IntBytes, BytesAt;
    BytesKept(b, c, from, to);
  }

  method SerializeHeader(s: S.LoudsSparse, dst: array<Byte>, at: nat) returns (next: nat)
    requires at + 16 <= dst.Length
    modifies dst
    ensures next == at + 16 && StoredHeader(dst[..], at, s) && Untouched(old(dst[..]), dst[..], at, next)
  {
    hide IntBytes, BytesAt;
    next := Copy(dst, at, IntBytes(s.height));
    next := Copy(dst, next, IntBytes(s.startLevel));
    next := Copy(dst, next, IntBytes(s.nodeCountDense));
    next := Copy(dst, next, IntBytes(s.childCountDense));
  }

  function BareSparse(s: S.LoudsSparse): S.LoudsSparse { s.(values := [], keys := []) }

  method DeSerializeSparse(src: array<Byte>, at: nat, ghost s: S.LoudsSparse) returns (back: S.LoudsSparse, next: nat)
    requires SparseFits(s) && at % 8 == 0 && StoredSparse(src[..], at, s)
    ensures back == BareSparse(s) && next == at + SparseSize(s)
  {
    hide IntBytes, BytesAt, RankFits, RankSize, StoredRank, SelectFits, SelectSize, StoredSelect, LabelsSize,
         StoredLabels, SizeAlign, SparseSize;
    SparseOffsets(s, at);
    next := at;
    var height := ReadInt(src, next, s.height);
    next := next + 4;
    var startLevel := ReadInt(src, next, s.startLevel);
    next := next + 4;
    var nodeCountDense := ReadInt(src, next, s.nodeCountDense);
    next := next + 4;
    var childCountDense := ReadInt(src, next, s.childCountDense);
    next := next + 4;
    next := SizeAlign(next);
    var labels, childBits, loudsBits;
    labels, next := DeSerializeLabels(src, next, s.labels);
    childBits, next := DeSerializeRank(src, next, s.childIndicatorBits);
    loudsBits, next := DeSerializeSelect(src, next, s.loudsBits);
    next := SizeAlign(next);
    back := S.LoudsSparse(height, startLevel, nodeCountDense, childCountDense, labels, childBits, loudsBits, [], []);
  }

  // ---- the whole trie --------------------------------------------------------------------

  ghost predicate FstFits(f: Fst) { DenseFits(f.dense) && SparseFits(f.sparse) }

  ghost predicate StoredFst(b: seq<Byte>, f: Fst)
    requires FstFits(f)
  {
    StoredDense(b, 0, f.dense) && StoredSparse(b, DenseSize(f.dense), f.sparse)
  }

  function Bare(f: Fst): Fst { Fst(BareDense(f.dense), BareSparse(f.sparse)) }

  lemma StoredDenseKept(b: seq<Byte>, c: seq<Byte>, d: D.LoudsDense, from: nat, to: nat)
    requires DenseFits(d) && StoredDense(b, 0, d) && Untouched(b, c, from, to) && DenseSize(d) <= from
    ensures StoredDense(c, 0, d)
  {
    hide IntBytes, BytesAt, RankFits, RankSize, StoredRank, Untouched, SizeAlign, DenseSize;
    DenseOffsets(d, 0);
    BytesKept(b, c, from, to);
    var second := 8 + RankSize(d.labelBitmaps);
    var third := second + RankSize(d.childIndicatorBitmaps);
    StoredRankKept(b, c, 8, d.labelBitmaps, from, to);
    StoredRankKept(b, c, second, d.childIndicatorBitmaps, from, to);
    StoredRankKept(b, c, third, d.prefixkeyIndicatorBits, from, to);
  }

  // ---- what the bytes are ----------------------------------------------------------------

  /** A 32-bit number, least significant byte first. */
  ghost predicate IntAt(b: seq<Byte>, at: nat, x: nat) {
    at + 4 <= |b| && BytesOfInt(b[at..at + 4], x)
  }

  /** A 64-bit word, least significant byte first. */
  ghost predicate WordAt(b: seq<Byte>, at: nat, w: Word) {
    at + 8 <= |b| && BytesOfWord(b[at..at + 8], w)
  }

  ghost predicate TableAt(b: seq<Byte>, at: nat, s: seq<nat>) {
    forall i :: 0 <= i < |s| ==> IntAt(b, at + 4 * i, s[i])
  }

  ghost predicate ArrayAt(b: seq<Byte>, at: nat, ws: seq<Word>) {
    forall i :: 0 <= i < |ws| ==> WordAt(b, at + 8 * i, ws[i])
  }

  ghost predicate RankLayout(b: seq<Byte>, at: nat, r: BitvectorRank) {
    IntAt(b, at, r.bv.numBits) && IntAt(b, at + 4, r.basicBlockSize) &&
    ArrayAt(b, at + 8, r.bv.bits) && TableAt(b, at + 8 + 8 * |r.bv.bits|, r.rankLut)
  }

  ghost predicate SelectLayout(b: seq<Byte>, at: nat, s: BitvectorSelect) {
    IntAt(b, at, s.bv.numBits) && IntAt(b, at + 4, s.sampleInterval) && IntAt(b, at + 8, s.numOnes) &&
    ArrayAt(b, at + 12, s.bv.bits) && TableAt(b, at + 12 + 8 * |s.bv.bits|, s.selectLut)
  }

  ghost predicate LabelsLayout(b: seq<Byte>, at: nat, v: LabelVector) {
    IntAt(b, at, |v.labels| + 1) && at + 4 + |v.labels| <= |b| && b[at + 4..at + 4 + |v.labels|] == v.labels
  }

  /** How many bytes each structure takes up, padded to whole words. */
  function RankSpan(r: BitvectorRank): nat { SizeAlign(8 + 8 * |r.bv.bits| + 4 * |r.rankLut|) }

  function SelectSpan(s: BitvectorSelect): nat { SizeAlign(12 + 8 * |s.bv.bits| + 4 * |s.selectLut|) }

  function LabelsSpan(v: LabelVector): nat { SizeAlign(4 + |v.labels| + 1) }

  function DenseSpan(d: D.LoudsDense): nat {
    8 + RankSpan(d.labelBitmaps) + RankSpan(d.childIndicatorBitmaps) + RankSpan(d.prefixkeyIndicatorBits)
  }

  function SparseSpan(s: S.LoudsSparse): nat {
    16 + LabelsSpan(s.labels) + RankSpan(s.childIndicatorBits) + SelectSpan(s.loudsBits)
  }

  ghost predicate DenseLayout(b: seq<Byte>, at: nat, d: D.LoudsDense) {
    var second := at + 8 + RankSpan(d.labelBitmaps);
    IntAt(b, at, d.height) && RankLayout(b, at + 8, d.labelBitmaps) &&
    RankLayout(b, second, d.childIndicatorBitmaps) &&
    RankLayout(b, second + RankSpan(d.childIndicatorBitmaps), d.prefixkeyIndicatorBits)
  }

  ghost predicate SparseLayout(b: seq<Byte>, at: nat, s: S.LoudsSparse) {
    var second := at + 16 + LabelsSpan(s.labels);
    IntAt(b, at, s.height) && IntAt(b, at + 4, s.startLevel) &&
    IntAt(b, at + 8, s.nodeCountDense) && IntAt(b, at + 12, s.childCountDense) &&
    LabelsLayout(b, at + 16, s.labels) && RankLayout(b, second, s.childIndicatorBits) &&
    SelectLayout(b, second + RankSpan(s.childIndicatorBits), s.loudsBits)
  }

  /** The sizes computed from the numbers of bits are the spans of what is held. */
  lemma DenseSpanIs(d: D.LoudsDense)
    requires DenseFits(d)
    ensures DenseSize(d) == DenseSpan(d) && RankSize(d.labelBitmaps) == RankSpan(d.labelBitmaps)
    ensures RankSize(d.childIndicatorBitmaps) == RankSpan(d.childIndicatorBitmaps)
  {
    hide SizeAlign, BitsSize, RankLutSize;
    DenseOffsets(d, 0);
  }

  lemma SparseSpanIs(s: S.LoudsSparse)
    requires SparseFits(s)
    ensures SparseSize(s) == SparseSpan(s) && LabelsSize(s.labels) == LabelsSpan(s.labels)
    ensures RankSize(s.childIndicatorBits) == RankSpan(s.childIndicatorBits)
  {
    hide SizeAlign, BitsSize, RankLutSize, SelectLutSize;
    SparseOffsets(s, 0);
  }

  lemma IntIsLaidOut(b: seq<Byte>, at: nat, x: nat)
    requires x < WIDTH && BytesAt(b, at, IntBytes(x))
    ensures IntAt(b, at, x)
  {
  }

  lemma TableIsLaidOut(b: seq<Byte>, at: nat, s: seq<nat>)
    requires BytesAt(b, at, IntsBytes(s)) && forall i :: 0 <= i < |s| ==> s[i] < WIDTH
    ensures TableAt(b, at, s)
  {
    hide IntBytes, IntsBytes, IntAt;
    forall i | 0 <= i < |s|
      ensures IntAt(b, at + 4 * i, s[i])
    {
      IntOfTable(s, i);
      PartOf(b, at, IntsBytes(s), 4 * i, 4);
      IntIsLaidOut(b, at + 4 * i, s[i]);
    }
  }

  lemma ArrayIsLaidOut(b: seq<Byte>, at: nat, ws: seq<Word>)
    requires BytesAt(b, at, WordsBytes(ws))
    ensures ArrayAt(b, at, ws)
  {
    hide WordBytes, WordsBytes, BytesOfWord;
    forall i | 0 <= i < |ws|
      ensures WordAt(b, at + 8 * i, ws[i])
    {
      WordOfArray(ws, i);
      PartOf(b, at, WordsBytes(ws), 8 * i, 8);
    }
  }

  lemma PartOf(b: seq<Byte>, at: nat, bytes: seq<Byte>, from: nat, n: nat)
    requires BytesAt(b, at, bytes) && from + n <= |bytes|
    ensures BytesAt(b, at + from, bytes[from..from + n])
  {
    var mid, part := b[at..at + |bytes|], b[at + from..at + from + n];
    forall k | 0 <= k < n
      ensures part[k] == bytes[from..from + n][k]
    {
      assert mid[from + k] == bytes[from + k];
    }
    assert part == bytes[from..from + n];
  }

  lemma RankIsLaidOut(b: seq<Byte>, at: nat, r: BitvectorRank)
    requires RankFits(r) && StoredRank(b, at, r)
    ensures RankLayout(b, at, r)
  {
    hide IntBytes, IntsBytes, WordsBytes, BytesAt, IntAt, ArrayAt, TableAt, BitsSize, RankLutSize;
    IntIsLaidOut(b, at, r.bv.numBits);
    IntIsLaidOut(b, at + 4, r.basicBlockSize);
    ArrayIsLaidOut(b, at + 8, r.bv.bits);
    TableIsLaidOut(b, at + 8 + 8 * |r.bv.bits|, r.rankLut);
  }

  lemma SelectIsLaidOut(b: seq<Byte>, at: nat, s: BitvectorSelect)
    requires SelectFits(s) && StoredSelect(b, at, s)
    ensures SelectLayout(b, at, s)
  {
    hide IntBytes, IntsBytes, WordsBytes, BytesAt, IntAt, ArrayAt, TableAt, BitsSize, SelectLutSize;
    IntIsLaidOut(b, at, s.bv.numBits);
    IntIsLaidOut(b, at + 4, s.sampleInterval);
    IntIsLaidOut(b, at + 8, s.numOnes);
    ArrayIsLaidOut(b, at + 12, s.bv.bits);
    TableIsLaidOut(b, at + 12 + 8 * |s.bv.bits|, s.selectLut);
  }

  lemma LabelsAreLaidOut(b: seq<Byte>, at: nat, v: LabelVector)
    requires v.NumBytes() < WIDTH && StoredLabels(b, at, v)
    ensures LabelsLayout(b, at, v)
  {
    hide IntBytes, IntAt;
    IntIsLaidOut(b, at, v.NumBytes());
  }

  lemma DenseIsLaidOut(b: seq<Byte>, at: nat, d: D.LoudsDense)
    requires DenseFits(d) && StoredDense(b, at, d)
    ensures DenseLayout(b, at, d)
  {
    hide IntBytes, BytesAt, IntAt, RankFits, RankSize, StoredRank, RankLayout;
    hide RankSpan;
    DenseSpanIs(d);
    var second := at + 8 + RankSize(d.labelBitmaps);
    IntIsLaidOut(b, at, d.height);
    RankIsLaidOut(b, at + 8, d.labelBitmaps);
    RankIsLaidOut(b, second, d.childIndicatorBitmaps);
    RankIsLaidOut(b, second + RankSize(d.childIndicatorBitmaps), d.prefixkeyIndicatorBits);
  }

  lemma SparseIsLaidOut(b: seq<Byte>, at: nat, s: S.LoudsSparse)
    requires SparseFits(s) && StoredSparse(b, at, s)
    ensures SparseLayout(b, at, s)
  {
    hide IntBytes, BytesAt, IntAt, RankFits, RankSize, StoredRank, RankLayout, SelectFits, StoredSelect, SelectLayout,
         LabelsSize, StoredLabels, LabelsLayout;
    hide RankSpan, LabelsSpan;
    SparseSpanIs(s);
    var second := at + 16 + LabelsSize(s.labels);
    IntIsLaidOut(b, at, s.height);
    IntIsLaidOut(b, at + 4, s.startLevel);
    IntIsLaidOut(b, at + 8, s.nodeCountDense);
    IntIsLaidOut(b, at + 12, s.childCountDense);
    LabelsAreLaidOut(b, at + 16, s.labels);
    RankIsLaidOut(b, second, s.childIndicatorBits);
    SelectIsLaidOut(b, second + RankSize(s.childIndicatorBits), s.loudsBits);
  }

  /** `spare` stands for whatever the never written last label byte holds. */
  method Serialize(f: Fst, spare: Byte) returns (data: array<Byte>)
    requires FstFits(f)
    ensures fresh(data) && data.Length == DenseSize(f.dense) + SparseSize(f.sparse) && StoredFst(data[..], f)
    ensures data.Length == DenseSpan(f.dense) + SparseSpan(f.sparse)
    ensures DenseLayout(data[..], 0, f.dense) && SparseLayout(data[..], DenseSpan(f.dense), f.sparse)
  {
    hide DenseFits, SparseFits, StoredDense, StoredSparse, DenseSize, SparseSize, DenseLayout, SparseLayout,
         DenseSpan, SparseSpan;
    DenseSpanIs(f.dense);
    SparseSpanIs(f.sparse);
    var size := DenseSize(f.dense) + SparseSize(f.sparse);
    data := new Byte[size](_ => 0);
    var cur := SerializeDense(f.dense, data, 0);
    ghost var b, n := data[..], cur;
    cur := SerializeSparse(f.sparse, spare, data, cur);
    StoredDenseKept(b, data[..], f.dense, n, cur);
    assert cur == size;
    DenseIsLaidOut(data[..], 0, f.dense);
    SparseIsLaidOut(data[..], DenseSize(f.dense), f.sparse);
  }

  method DeSerialize(src: array<Byte>, ghost f: Fst) returns (back: Fst)
    requires FstFits(f) && StoredFst(src[..], f)
    ensures back == Bare(f)
  {
    hide DenseFits, SparseFits, StoredDense, StoredSparse, DenseSize, SparseSize, BareDense, BareSparse;
    var dense, next := DeSerializeDense(src, 0, f.dense);
    var sparse;
    sparse, next := DeSerializeSparse(src, next, f.sparse);
    back := Fst(dense, sparse);
  }

  /** What is written and read back is the same trie, except that its values and keys are gone. */
  method RoundTrip(f: Fst, spare: Byte) returns (back: Fst)
    requires FstFits(f)
    ensures back == Bare(f)
  {
    var data := Serialize(f, spare);
    back := DeSerialize(data, f);
  }

  // ---- every trie below 2^32 bits can be written -----------------------------------------

  lemma RankedFits(r: BitvectorRank, b: seq<bool>)
    requires r.Represents(b) && |b| < WIDTH && r.basicBlockSize < WIDTH
    ensures RankFits(r)
  {
    hide Holds, IsBlockSize, NumBlocks;
    forall i | 0 <= i < |r.rankLut|
      ensures r.rankLut[i] < WIDTH
    {
      OnesMono(b, 0, i * r.basicBlockSize);
    }
    assert r.basicBlockSize > 0 by { BlockSizePositive(r.basicBlockSize); }
  }

  lemma BlockSizePositive(n: nat)
    requires IsBlockSize(n)
    ensures n > 0
  {
  }

  lemma SelectedFits(s: BitvectorSelect, b: seq<bool>)
    requires s.Represents(b) && |b| < WIDTH && s.sampleInterval < WIDTH
    ensures SelectFits(s)
  {
    hide Holds, SampleIndex, Ones;
    forall i | 0 <= i < |s.selectLut|
      ensures s.selectLut[i] < WIDTH
    {
      if i > 0 { assert IsNth(b, i * s.sampleInterval, s.selectLut[i]); }
    }
  }

  /** The sizes of the whole encoding stay within the fields they are stored in. */
  ghost predicate WithinWidth(f: Fst, t: seq<Strand>)
    requires f.Encodes(t)
  {
    var d, s := f.dense, f.sparse;
    d.Shape(t);
    |d.Bitmaps(t)| < WIDTH && |s.labels.labels| + 1 < WIDTH && s.height < WIDTH && s.childCountDense < WIDTH &&
    s.nodeCountDense < WIDTH &&
    d.labelBitmaps.basicBlockSize < WIDTH && d.childIndicatorBitmaps.basicBlockSize < WIDTH &&
    d.prefixkeyIndicatorBits.basicBlockSize < WIDTH &&
    s.childIndicatorBits.basicBlockSize < WIDTH && s.loudsBits.sampleInterval < WIDTH
  }

  lemma EncodedFits(f: Fst, t: seq<Strand>)
    requires f.Encodes(t) && WithinWidth(f, t)
    ensures FstFits(f)
  {
    hide HeightTo, Cat, BitvectorRank.Represents, BitvectorSelect.Represents, RankFits, SelectFits, Minimal;
    var d, s := f.dense, f.sparse;
    d.Shape(t);
    BitmapLengths(t, d.height);
    TotalLengths(t, s.startLevel);
    RankedFits(d.labelBitmaps, Cat(BitmapLevels(t), 0, d.height));
    RankedFits(d.childIndicatorBitmaps, Cat(ChildBitmapLevels(t), 0, d.height));
    RankedFits(d.prefixkeyIndicatorBits, Cat(PrefixLevels(t), 0, d.height));
    RankedFits(s.childIndicatorBits, Cat(ChildLevels(t), s.startLevel, s.height));
    SelectedFits(s.loudsBits, Cat(LoudsLevels(t), s.startLevel, s.height));
  }

  /** A trie that was read back never holds the values of its keys. */
  lemma RestoredHasNoValues(f: Fst, t: seq<Strand>)
    requires f.Encodes(t)
    ensures !Bare(f).Encodes(t)
  {
    hide HeightTo, Cat, BitvectorRank.Represents, BitvectorSelect.Represents, Minimal;
    f.dense.Shape(t);
    ValuesConserved(t, f.SparseStartLevel());
  }

  /** It does hold everything else. */
  lemma RestoredKeepsShape(f: Fst, t: seq<Strand>)
    requires f.Encodes(t)
    ensures Bare(f).EncodesShape(t)
  {
    hide HeightTo, Cat, BitvectorRank.Represents, BitvectorSelect.Represents, Minimal;
  }

  /** So a path that is looked up in a trie read back leads to the same node number. */
  method LookupNodeNumRestored(f: Fst, spare: Byte, path: Key, ghost t: seq<Strand>, ghost j: nat)
    returns (nodeNum: nat)
    requires FstFits(f) && f.Encodes(t) && NoTerminators(t) && AtNode(t, path, |path|, j)
    ensures nodeNum == NodeNum(t, |path|, j)
  {
    hide FstFits, Fst.Encodes, Fst.EncodesShape, NoTerminators, NodeNum;
    var back := RoundTrip(f, spare);
    RestoredKeepsShape(f, t);
    nodeNum := back.LookupNodeNum(path, t, j);
  }
}
