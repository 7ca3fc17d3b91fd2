/**
 Rank with a look-up table of block counts (include/rank.hpp).
 */
module Rank {
  import opened Bits
  import opened Words
  import opened Levels
  import opened Bitvectors

  /** Bitwise AND of two unsigned numbers. */
  function BitAnd(a: nat, b: nat): nat
    decreases a
  {
    if a == 0 then 0 else (a % 2) * (b % 2) + 2 * BitAnd(a / 2, b / 2)
  }

  function Pow2(k: nat): (r: nat)
    ensures r > 0
  {
    if k == 0 then 1 else 2 * Pow2(k - 1)
  }

  lemma HalvesMod(a: nat, m: nat)
    requires m > 0
    ensures a % (2 * m) == a % 2 + 2 * ((a / 2) % m)
  {
    var q, r := (a / 2) / m, (a / 2) % m;
    assert a / 2 == q * m + r;
    assert a == (2 * m) * q + (2 * r + a % 2) by {
      assert a == 2 * (a / 2) + a % 2;
      assert 2 * (q * m) == (2 * m) * q;
    }
    ModUnique(a, 2 * m, q, 2 * r + a % 2);
  }

  lemma MulMono(m: nat, x: int, y: int)
    requires x <= y
    ensures m * x <= m * y
  {
  }

  lemma SmallMultiple(m: nat, d: int)
    requires -(m as int) < m * d < m
    ensures d == 0
  {
    if d >= 1 { MulMono(m, 1, d); }
    if d <= -1 { MulMono(m, d, -1); }
  }

  lemma ModUnique(a: nat, m: nat, q: nat, r: nat)
    requires r < m && a == m * q + r
    ensures a % m == r && a / m == q
  {
    assert a == m * (a / m) + a % m;
    assert m * (a / m - q) == m * (a / m) - m * q;
    SmallMultiple(m, a / m - q);
  }

  /** Masking with a power of two less one takes the remainder. */
  lemma {:induction false} MaskIsMod(a: nat, k: nat)
    ensures BitAnd(a, Pow2(k) - 1) == a % Pow2(k)
    decreases k, a
  {
    if k == 0 {
      AndZero(a);
    } else if a != 0 {
      var m := Pow2(k - 1);
      MaskIsMod(a / 2, k - 1);
      HalvesMod(a, m);
      assert (2 * m - 1) / 2 == m - 1 && (2 * m - 1) % 2 == 1;
    }
  }

  lemma {:induction false} AndZero(a: nat)
    ensures BitAnd(a, 0) == 0
  {
    if a != 0 { AndZero(a / 2); }
  }

  /** The block that holds bit `pos`. */
  function BlockId(pos: nat, size: nat): nat
    requires size > 0
  {
    pos / size
  }

  function NumBlocks(numBits: nat, size: nat): nat
    requires size > 0
  {
    BlockId(numBits, size) + 1
  }

  /** A block of `size` bits: a power of two, and whole words. */
  ghost predicate IsBlockSize(size: nat) {
    size > 0 && size % 64 == 0 && exists k :: size == Pow2(k)
  }

  /** A block `q` of `w` words begins at a word boundary, and masking gives the offset in it. */
  lemma BlockStart(pos: nat, size: nat, q: nat, w: nat)
    requires IsBlockSize(size) && q == BlockId(pos, size) && w == size / 64
    ensures 64 * (q * w) + BitAnd(pos, size - 1) == pos && q * size == 64 * (q * w) <= pos
  {
    hide BitAnd, Pow2;
    MaskOfBlock(pos, size);
    QuotientAndRest(pos, size);
    WholeWords(size, w);
    Regroup(q, w);
  }

  lemma WholeWords(size: nat, w: nat)
    requires IsBlockSize(size) && w == size / 64
    ensures size == 64 * w
  {
  }

  lemma MaskOfBlock(pos: nat, size: nat)
    requires IsBlockSize(size)
    ensures pos % size == BitAnd(pos, size - 1)
  {
    hide BitAnd, Pow2;
    var k :| size == Pow2(k);
    MaskIsMod(pos, k);
  }

  lemma QuotientAndRest(pos: nat, size: nat)
    requires size > 0
    ensures BlockId(pos, size) * size + pos % size == pos
  {
  }

  lemma Regroup(q: nat, w: nat)
    ensures 64 * (q * w) == q * (64 * w)
  {
  }

  lemma BlockBound(i: nat, size: nat, numBits: nat)
    requires size > 0 && size % 64 == 0 && i <= BlockId(numBits, size)
    ensures i * size <= numBits && 64 * (i * (size / 64)) == i * size
  {
    var w := size / 64;
    assert size == 64 * w;
    assert 64 * (i * w) == i * (64 * w);
    assert numBits == size * (numBits / size) + numBits % size;
    assert i * size <= (numBits / size) * size;
  }

  ghost predicate LutCounts(lut: seq<nat>, b: seq<bool>, size: nat, n: nat)
    requires size > 0
  {
    n <= |lut| && forall i :: 0 <= i < n ==> i * size <= |b| && lut[i] == Ones(b, i * size)
  }

  datatype BitvectorRank = BitvectorRank(bv: Bitvector, basicBlockSize: nat, rankLut: seq<nat>) {

    ghost predicate Represents(b: seq<bool>) {
      bv.Represents(b) && IsBlockSize(basicBlockSize) &&
      |rankLut| == NumBlocks(|b|, basicBlockSize) && LutCounts(rankLut, b, basicBlockSize, |rankLut|)
    }

    /** The block of `pos` starts at a word boundary and its table entry counts what precedes it. */
    lemma LocateBlock(pos: nat, b: seq<bool>, wordPerBasicBlock: nat, blockId: nat)
      requires Represents(b) && pos < |b|
      requires wordPerBasicBlock == basicBlockSize / 64 && blockId == BlockId(pos, basicBlockSize)
      ensures blockId < |rankLut|
      ensures 64 * (blockId * wordPerBasicBlock) + BitAnd(pos, basicBlockSize - 1) == pos
      ensures rankLut[blockId] == Ones(b, 64 * (blockId * wordPerBasicBlock))
    {
      hide Ones, BitAnd, Pow2;
      BlockStart(pos, basicBlockSize, blockId, wordPerBasicBlock);
      QuotientMono(pos, |b|, basicBlockSize);
      assert rankLut[blockId] == Ones(b, blockId * basicBlockSize);
    }

    /** The number of set bits up to and including `pos`. */
    method Rank(pos: nat, ghost b: seq<bool>) returns (r: nat)
      requires Represents(b) && pos < bv.numBits
      ensures r == Ones(b, pos + 1)
    {
      hide Ones, Flat, BitAnd, LutCounts, BlockId;
      var wordPerBasicBlock := basicBlockSize / 64;
      var blockId := BlockId(pos, basicBlockSize);
      var offset := BitAnd(pos, basicBlockSize - 1);
      LocateBlock(pos, b, wordPerBasicBlock, blockId);
      var firstWord := blockId * wordPerBasicBlock;
      HoldsOnes(bv.bits, b, pos + 1);
      HoldsOnes(bv.bits, b, 64 * firstWord);
      var inBlock := PopcountLinear(bv.bits, firstWord, offset + 1);
      r := rankLut[blockId] + inBlock;
    }
  }

  lemma QuotientMono(x: nat, y: nat, d: nat)
    requires d > 0 && x <= y
    ensures x / d <= y / d
  {
    assert x == d * (x / d) + x % d && y == d * (y / d) + y % d;
    if x / d > y / d { MulMono(d, y / d + 1, x / d); }
  }

  /** The last block begins at or before the end, and no further one does. */
  lemma BlocksCover(numBits: nat, size: nat)
    requires size > 0
    ensures NumBlocks(numBits, size) > 0
    ensures (NumBlocks(numBits, size) - 1) * size <= numBits < NumBlocks(numBits, size) * size
  {
    QuotientAndRest(numBits, size);
    Distribute(BlockId(numBits, size), size);
  }

  lemma Distribute(q: nat, size: nat)
    ensures (q + 1) * size == q * size + size
  {
  }

  method InitRankLut(bv: Bitvector, basicBlockSize: nat, ghost b: seq<bool>) returns (rankLut: seq<nat>)
    requires bv.Represents(b) && IsBlockSize(basicBlockSize)
    ensures |rankLut| == NumBlocks(|b|, basicBlockSize) && LutCounts(rankLut, b, basicBlockSize, |rankLut|)
    ensures (|rankLut| - 1) * basicBlockSize <= |b| < |rankLut| * basicBlockSize
  {
    hide Ones, Flat, Holds, LutCounts, BlockId;
    var wordPerBasicBlock := basicBlockSize / 64;
    var numBlocks := NumBlocks(bv.numBits, basicBlockSize);
    var lut := new nat[numBlocks];
    var cumuRank := 0;
    LutEmpty(lut[..0], b, basicBlockSize);
    for i := 0 to numBlocks - 1
      invariant i * basicBlockSize <= |b| && cumuRank == Ones(b, i * basicBlockSize)
      invariant LutCounts(lut[..i], b, basicBlockSize, i)
    {
      ghost var was := lut[..i];
      LutSnoc(was, b, basicBlockSize, cumuRank);
      lut[i] := cumuRank;
      assert lut[..i + 1] == was + [cumuRank];
      cumuRank := NextCount(bv, basicBlockSize, i, wordPerBasicBlock, cumuRank, b);
    }
    ghost var was := lut[..numBlocks - 1];
    LutSnoc(was, b, basicBlockSize, cumuRank);
    lut[numBlocks - 1] := cumuRank;
    rankLut := lut[..];
    assert rankLut == was + [cumuRank];
    BlocksCover(|b|, basicBlockSize);
  }

  /** The count at the next block boundary. */
  method NextCount(bv: Bitvector, basicBlockSize: nat, i: nat, wordPerBasicBlock: nat, cumuRank: nat,
                   ghost b: seq<bool>)
    returns (next: nat)
    requires bv.Represents(b) && IsBlockSize(basicBlockSize)
    requires i < BlockId(|b|, basicBlockSize) && wordPerBasicBlock == basicBlockSize / 64
    requires i * basicBlockSize <= |b| && cumuRank == Ones(b, i * basicBlockSize)
    ensures (i + 1) * basicBlockSize <= |b| && next == Ones(b, (i + 1) * basicBlockSize)
  {
    hide Ones, Flat, Holds;
    BlockBound(i, basicBlockSize, |b|);
    BlockBound(i + 1, basicBlockSize, |b|);
    ghost var from, to := i * basicBlockSize, (i + 1) * basicBlockSize;
    assert to == from + basicBlockSize;
    HoldsOnes(bv.bits, b, from);
    HoldsOnes(bv.bits, b, to);
    var inBlock := PopcountLinear(bv.bits, i * wordPerBasicBlock, basicBlockSize);
    next := cumuRank + inBlock;
  }

  lemma LutEmpty(lut: seq<nat>, b: seq<bool>, size: nat)
    requires size > 0
    ensures LutCounts(lut, b, size, 0) && 0 * size <= |b| && Ones(b, 0 * size) == 0
  {
  }

  lemma LutSnoc(lut: seq<nat>, b: seq<bool>, size: nat, count: nat)
    requires size > 0 && LutCounts(lut, b, size, |lut|)
    requires |lut| * size <= |b| && count == Ones(b, |lut| * size)
    ensures LutCounts(lut + [count], b, size, |lut| + 1)
  {
    hide Ones;
  }

  method MakeBitvectorRank(basicBlockSize: nat, levels: seq<seq<Word>>, numBitsPerLevel: seq<nat>, start: nat,
                           endLevel: nat, ghost bs: seq<seq<bool>>)
    returns (r: BitvectorRank)
    requires IsBlockSize(basicBlockSize)
    requires LevelsHold(levels, numBitsPerLevel, bs, start, if endLevel == 0 then |levels| else endLevel)
    ensures r.Represents(Cat(bs, start, if endLevel == 0 then |levels| else endLevel))
    ensures r.basicBlockSize == basicBlockSize
  {
    var bv := MakeBitvector(levels, numBitsPerLevel, start, endLevel, bs);
    ghost var b := Cat(bs, start, if endLevel == 0 then |levels| else endLevel);
    var rankLut := InitRankLut(bv, basicBlockSize, b);
    r := BitvectorRank(bv, basicBlockSize, rankLut);
  }

  /** The block size both LOUDS encodings use. */
  lemma BlockSize512()
    ensures IsBlockSize(512)
  {
    assert Pow2(9) == 512 by {
      assert Pow2(3) == 8;
      assert Pow2(6) == 8 * Pow2(3);
      assert Pow2(9) == 8 * Pow2(6);
    }
  }
}
