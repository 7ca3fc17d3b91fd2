/**
 What the encodings promise as a whole, and the inputs on which the code falls short of it.
 */
module Consequences {
  import opened Bits
  import opened Labels
  import opened Levels
  import opened Bitvectors
  import opened Strands
  import opened Keys
  import opened Encoding
  import opened DenseEncoding
  import opened Walks
  import opened Builder
  import opened Fst
  import opened Paths
  import DI = DenseIter
  import SI = SparseIter
  import opened Bounds
  import opened Strays
  import opened Seek
  import S = LoudsSparse
  import D = LoudsDense

  // ---- the stored prefixes -------------------------------------------------------------

  ghost predicate SharesPrefix(t: seq<Strand>, k: nat, j: nat, n: nat) {
    k < |t| && j < |t| && n <= |t[k].key| && n <= |t[j].key| && t[j].key[..n] == t[k].key[..n]
  }

  ghost predicate SharedByOther(t: seq<Strand>, k: nat, n: nat) {
    exists j: nat :: j != k && SharesPrefix(t, k, j, n)
  }

  /** The stored prefix of a key belongs to no other key, and no shorter prefix does that. */
  lemma StoredIsShortestUnique(t: seq<Strand>, k: nat)
    requires WellFormed(t) && Minimal(t) && k < |t|
    ensures !SharedByOther(t, k, t[k].hi)
    ensures |t| >= 2 ==> forall n: nat :: n < t[k].hi ==> SharedByOther(t, k, n)
  {
    hide SharesPrefix, WellFormed, Minimal;
    forall j: nat | j != k
      ensures !SharesPrefix(t, k, j, t[k].hi)
    {
      StoredNotShared(t, k, j);
    }
    if |t| >= 2 {
      forall n: nat | n < t[k].hi
        ensures SharedByOther(t, k, n)
      {
        NeighbourShares(t, k, n);
      }
    }
  }

  lemma StoredNotShared(t: seq<Strand>, k: nat, j: nat)
    requires WellFormed(t) && k < |t| && j != k
    ensures !SharesPrefix(t, k, j, t[k].hi)
  {
    if j < |t| {
      assert t[j].Sized() && t[k].Sized();
      var c;
      if j < k { c := PartAt(t, j, k); } else { c := PartAt(t, k, j); }
      assert t[j].key[c] != t[k].key[c];
      if SharesPrefix(t, k, j, t[k].hi) {
        SameByte(t[j].key, t[k].key, t[k].hi, c);
      }
    }
  }

  /** A shorter prefix is shared with a neighbour. */
  lemma NeighbourShares(t: seq<Strand>, k: nat, n: nat)
    requires WellFormed(t) && Minimal(t) && |t| >= 2 && k < |t| && n < t[k].hi
    ensures SharedByOther(t, k, n)
  {
    assert t[k].hi == 1 + Max(t[k].lo, NextLo(t, k));
    if k > 0 && n <= t[k].lo {
      assert Follows(t[k - 1], t[k]);
      assert t[k].key[..n] == t[k].key[..t[k].lo][..n] && t[k - 1].key[..n] == t[k - 1].key[..t[k].lo][..n];
      assert SharesPrefix(t, k, k - 1, n);
    } else {
      if k + 1 < |t| {
        var b := t[k + 1];
        assert Follows(t[k], b);
        assert b.key[..n] == b.key[..b.lo][..n] && t[k].key[..n] == t[k].key[..b.lo][..n];
        assert SharesPrefix(t, k, k + 1, n);
      }
    }
  }

  // ---- conservation --------------------------------------------------------------------

  /** Each level has as many nodes as the level above has child bits, and a value for every other item. */
  lemma Conservation(t: seq<Strand>, l: nat)
    requires WellFormed(t) && l < Height(t)
    ensures Ones(LevelLouds(t, l), |LevelLouds(t, l)|) == NodeCount(t, l)
    ensures NodeCount(t, l + 1) == Ones(LevelChildren(t, l), |LevelChildren(t, l)|)
    ensures |LevelValues(t, l)| + NodeCount(t, l + 1) == |LevelLabels(t, l)|
  {
    hide Ones;
    PickedLevel(t, l, |t|);
    ChildrenStartNodes(t, l);
    ItemsAreChildrenAndLeaves(t, l, |t|);
  }

  /** Over all levels there is exactly one value per distinct key, however the levels are split. */
  lemma ValuesConserved(t: seq<Strand>, s: nat)
    requires WellFormed(t) && s <= Height(t)
    ensures |Cat(ValueLevels(t), 0, s)| + |Cat(ValueLevels(t), s, Height(t))| == |t|
  {
    hide HeightTo;
    CatSplit(ValueLevels(t), 0, s, Height(t));
    CatLengths(t, 0, Height(t));
    LeavesUpTo(t, Height(t), |t|);
    LeafOffsetIsSum(t, Height(t));
  }

  /** Leaves on the first `h` levels among the first `m` strands. */
  ghost function LeafSum(t: seq<Strand>, h: nat, m: nat): nat
    requires m <= |t|
  {
    if h == 0 then 0 else LeafSum(t, h - 1, m) + Ones(LeafFlags(t, h - 1), m)
  }

  lemma {:induction false} LeafOffsetIsSum(t: seq<Strand>, h: nat)
    ensures LeafOffset(t, 0, h) == LeafSum(t, h, |t|)
  {
    hide Ones;
    if h > 0 { LeafOffsetIsSum(t, h - 1); }
  }

  lemma {:induction false} LeavesUpTo(t: seq<Strand>, h: nat, m: nat)
    requires WellFormed(t) && m <= |t| && forall k :: 0 <= k < m ==> t[k].hi <= h
    ensures LeafSum(t, h, m) == m
    decreases m
  {
    if m == 0 {
      NoLeaves(t, h);
    } else {
      LeavesUpTo(t, h, m - 1);
      assert t[m - 1].Sized();
      OneMoreLeaf(t, h, m - 1);
    }
  }

  lemma {:induction false} NoLeaves(t: seq<Strand>, h: nat)
    ensures LeafSum(t, h, 0) == 0
  {
    if h > 0 { NoLeaves(t, h - 1); }
  }

  lemma {:induction false} OneMoreLeaf(t: seq<Strand>, h: nat, k: nat)
    requires k < |t| && t[k].Sized()
    ensures LeafSum(t, h, k + 1) == LeafSum(t, h, k) + (if t[k].hi <= h then 1 else 0)
  {
    if h > 0 { OneMoreLeaf(t, h - 1, k); }
  }

  // ---- a seek that goes astray ---------------------------------------------------------

  /**
   When a seek misses a dense byte, its iterator carries the value of the last strand, in
   breadth-first order, that ends before that byte. When none does, the index lies outside the values.
   */
  lemma StrayIndex(it: DI.Iter, f: Fst, t: seq<Strand>, q: Key, inclusive: bool, k: nat) returns (l: nat, y: nat)
    requires f.Encodes(t) && NoTerminators(t) && MissingInDense(f, t, q)
    requires LeftAtMissing(it, f, t, q, inclusive, k) && |t| < 0x1_0000_0000
    ensures WellFormed(t) && AtNode(t, q, 0, 0) && Walk(t, q, 0, 0).NoItem? && l == Walk(t, q, 0, 0).level
    ensures Least(t, q, inclusive, k) && it.keyLen == l + 1 <= |it.valuePos|
    ensures it.valuePos[l] < |f.dense.values| <==> exists x: nat :: EndsBefore(t, l, k, x)
    ensures it.valuePos[l] < |f.dense.values| ==>
      LastBefore(t, l, k, y) && f.dense.values[it.valuePos[l]] == t[y].value
  {
    hide Least, AtNode, Walk, Cat, HeightTo, WellFormed, D.LoudsDense.EncodesShape, S.LoudsSparse.Encodes, Minimal,
         NoTerminators, Astray, LastBefore, EndsBefore, LeavesBefore, LevelValues, ValueLevels;
    f.dense.Shape(t);
    RootNode(t, q);
    l := Walk(t, q, 0, 0).level;
    AstrayIndex(it, t, q, inclusive, l, Walk(t, q, 0, 0).node, k);
    y := ValueOfIndex(t, f.dense.height, l, k);
  }

  lemma AstrayIndex(it: DI.Iter, t: seq<Strand>, q: Key, inclusive: bool, l: nat, i: nat, k: nat)
    requires Astray(it, t, q, inclusive, l, i, k)
    ensures k <= |t| && Least(t, q, inclusive, k) && l < it.trie.height && l + 1 <= |it.valuePos| == |it.key|
    ensures it.valuePos[l] == IndexBefore(LeavesBefore(t, l, k))
  {
    hide Least, Parts, LeavesBefore, IndexBefore, AtNode;
  }

  lemma ValueOfIndex(t: seq<Strand>, s: nat, l: nat, k: nat) returns (y: nat)
    requires WellFormed(t) && l < s <= Height(t) && k <= |t| < 0x1_0000_0000
    ensures var values, index := Cat(ValueLevels(t), 0, s), IndexBefore(LeavesBefore(t, l, k));
      && (index < |values| <==> exists x: nat :: EndsBefore(t, l, k, x))
      && (index < |values| ==> LastBefore(t, l, k, y) && values[index] == t[y].value)
  {
    hide LeavesBefore, LastBefore, EndsBefore, Cat, HeightTo, WellFormed, ValueLevels;
    y := 0;
    ValuesConserved(t, s);
    SomeEndBefore(t, l, k);
    if LeavesBefore(t, l, k) > 0 { y := ValueBefore(t, s, l, k); }
  }

  // ---- the cost rule -------------------------------------------------------------------

  /** One sparse level is charged ten bits an item, in whole bytes: the next number of bytes above that. */
  lemma SparseLevelCost(labels: seq<seq<Byte>>, s: nat)
    requires s < |labels|
    ensures 10 * |labels[s]| < 8 * (SparseMem(labels, s) - SparseMem(labels, s + 1)) <= 10 * |labels[s]| + 8
    ensures SparseMem(labels, |labels|) == 0
  {
  }

  /**
   One dense level is charged its two bitmaps, bit for bit, and in whole bytes a bit for every
   node of the level above it.
   */
  lemma DenseLevelCost(counts: seq<nat>, d: nat)
    requires d < |counts|
    ensures DenseMem(counts, 0) == 0
    ensures var p := DenseMem(counts, d + 1) - DenseMem(counts, d) - 2 * 256 * counts[d];
      if d == 0 then p == 0 else counts[d - 1] < 8 * p <= counts[d - 1] + 8
  {
  }

  /** The sparse levels from `s` on, as the trie has them. */
  lemma {:induction false} SparseCost(t: seq<Strand>, s: nat)
    requires AllSized(t) && s <= Height(t)
    ensures 10 * Offset(t, s, Height(t)) <= 8 * SparseMem(LabelLevels(t), s)
    ensures 8 * SparseMem(LabelLevels(t), s) <= 10 * Offset(t, s, Height(t)) + 8 * (Height(t) - s)
    ensures s < Height(t) ==> 10 * Offset(t, s, Height(t)) < 8 * SparseMem(LabelLevels(t), s)
    decreases Height(t) - s
  {
    hide HeightTo, Offset, LevelLabels, SparseMem;
    var h := Height(t);
    if s < h {
      SparseCost(t, s + 1);
      SparseLevelCost(LabelLevels(t), s);
      OffsetFrom(t, s, h);
    } else {
      NothingCosts(t, h);
    }
  }

  lemma NothingCosts(t: seq<Strand>, h: nat)
    requires AllSized(t) && h == Height(t)
    ensures Offset(t, h, h) == 0 && SparseMem(LabelLevels(t), h) == 0
  {
  }

  lemma {:induction false} OffsetFrom(t: seq<Strand>, s: nat, h: nat)
    requires s < h
    ensures Offset(t, s, h) == |Items(t, s)| + Offset(t, s + 1, h)
    decreases h
  {
    hide Items;
    if s + 1 < h { OffsetFrom(t, s, h - 1); }
  }

  /** The dense levels above `d`: their bitmaps, and whole bytes for the prefix bits of all but the last. */
  lemma {:induction false} DenseCost(t: seq<Strand>, d: nat)
    requires AllSized(t) && d <= Height(t)
    ensures var p := DenseMem(NodeCounts(t), d) - |Cat(BitmapLevels(t), 0, d)| - |Cat(ChildBitmapLevels(t), 0, d)|;
      if d == 0 then p == 0
      else
        && NodesBefore(t, d - 1) <= 8 * p <= NodesBefore(t, d - 1) + 8 * (d - 1)
        && (d > 1 ==> NodesBefore(t, d - 1) < 8 * p)
  {
    hide HeightTo, NodeCount, Cat, DenseMem, BitmapLevels, ChildBitmapLevels;
    BitmapLengths(t, d);
    if d == 0 {
      NoDenseCost(NodeCounts(t));
    } else {
      DenseCost(t, d - 1);
      BitmapLengths(t, d - 1);
      DenseLevelCost(NodeCounts(t), d - 1);
    }
  }

  lemma NoDenseCost(counts: seq<nat>)
    ensures DenseMem(counts, 0) == 0
  {
  }

  // ---- strictly sorted keys with their indices as values ------------------------------

  /** Without duplicates and with each key's index as its value, the strands carry the keys in order. */
  lemma IndexValuesOf(keys: seq<Key>, values: seq<nat>)
    requires ValidKeys(keys, values)
    requires forall i :: 0 < i < |keys| ==> keys[i - 1] != keys[i]
    requires forall i :: 0 <= i < |keys| ==> values[i] == i
    ensures IndexValues(StrandsOf(keys, values), keys)
  {
    hide Lcp;
    AllFirst(keys, |keys|);
    forall k | 0 <= k < |keys|
      ensures StrandsOf(keys, values)[k].value == k && StrandsOf(keys, values)[k].key == keys[k]
    {
      AllFirst(keys, k);
      PositionAt(FirstFlags(keys), |keys|, k);
    }
  }

  lemma {:induction false} AllFirst(keys: seq<Key>, m: nat)
    requires m <= |keys| && forall i :: 0 < i < |keys| ==> keys[i - 1] != keys[i]
    ensures Ones(FirstFlags(keys), m) == m
  {
    if m > 0 { AllFirst(keys, m - 1); }
  }

  // ---- value cursors -------------------------------------------------------------------

  /** The counter of the current sparse level is the index that ranking the position would give. */
  lemma SparseCursorIsRank(iter: SI.Iter, t: seq<Strand>, k: nat)
    requires iter.trie.Encodes(t) && iter.StandsOn(t, k)
    ensures iter.trie.startLevel <= Height(t) && iter.posInTrie[iter.keyLen - 1] < |iter.trie.ChildBits(t)|
    ensures var pos := iter.posInTrie[iter.keyLen - 1];
      iter.valuePos[iter.keyLen - 1] == pos - Ones(iter.trie.ChildBits(t), pos + 1)
  {
    hide S.LoudsSparse.Encodes, S.LoudsSparse.EncodesShape, Ones, LeafOffset, SparsePos, Cat, WellFormed, HeightTo;
    iter.trie.Shape(t);
    SI.LeafInLevel(t, k);
    SparseLeafIndex(t, iter.trie.startLevel, k);
  }

  lemma SparseLeafIndex(t: seq<Strand>, s: nat, k: nat)
    requires WellFormed(t) && k < |t| && s < t[k].hi && s <= Height(t)
    requires t[k].InLevel(t[k].hi - 1)
    ensures SparsePos(t, s, t[k].hi - 1, k) < |Cat(ChildLevels(t), s, Height(t))|
    ensures SparsePos(t, s, t[k].hi - 1, k) - Ones(Cat(ChildLevels(t), s, Height(t)),
      SparsePos(t, s, t[k].hi - 1, k) + 1) + 1
         == LeafOffset(t, s, t[k].hi - 1) + Ones(LeafFlags(t, t[k].hi - 1), k + 1)
  {
    hide Ones, Cat, HeightTo, LeafOffset;
    var l := t[k].hi - 1;
    ValueIndex(t, s, l, k);
    Entry(t, s, l, k);
    LeavesElsewhere(t, l, k);
    OwnItem(t, l, k);
  }

  lemma OwnItem(t: seq<Strand>, l: nat, k: nat)
    requires k < |t| && t[k].InLevel(l)
    ensures At(t, l, k + 1) == At(t, l, k) + 1
  {
  }

  /** On a dense level it is the label rank less the child rank, less one. */
  lemma DenseCursorIsRank(iter: DI.Iter, t: seq<Strand>, k: nat)
    requires iter.trie.Encodes(t) && NoTerminators(t) && iter.StandsOnLeaf(t, k)
    ensures AllSized(t) && iter.trie.height <= Height(t)
    ensures iter.posInTrie[iter.keyLen - 1] < |iter.trie.Bitmaps(t)| == |iter.trie.ChildBitmaps(t)|
    ensures var pos := iter.posInTrie[iter.keyLen - 1];
      iter.valuePos[iter.keyLen - 1]
        == Ones(iter.trie.Bitmaps(t), pos + 1) - Ones(iter.trie.ChildBitmaps(t), pos + 1) - 1
  {
    hide HeightTo, LeafOffset, Cat, Ones, DensePos, NoTerminators, WellFormed, D.LoudsDense.Encodes,
         D.LoudsDense.EncodesShape;
    iter.trie.Shape(t);
    SI.LeafInLevel(t, k);
    DenseLeafIndex(t, iter.trie.height, k);
  }

  lemma DenseLeafIndex(t: seq<Strand>, s: nat, k: nat)
    requires WellFormed(t) && NoTerminators(t) && k < |t| && t[k].InLevel(t[k].hi - 1) && t[k].hi <= s <= Height(t)
    requires t[k].hi <= |t[k].key|
    ensures DensePos(t, t[k].hi - 1, k) < |Cat(BitmapLevels(t), 0, s)| == |Cat(ChildBitmapLevels(t), 0, s)|
    ensures Ones(Cat(BitmapLevels(t), 0, s), DensePos(t, t[k].hi - 1, k) + 1)
          - Ones(Cat(ChildBitmapLevels(t), 0, s), DensePos(t, t[k].hi - 1, k) + 1)
          == LeafOffset(t, 0, t[k].hi - 1) + Ones(LeafFlags(t, t[k].hi - 1), k + 1)
  {
    hide HeightTo, LeafOffset, Cat, Ones, DensePos, DensePlace, NoTerminators, WellFormed;
    var l := t[k].hi - 1;
    var i := DI.CreatorSpot(t, l, k);
    DenseValue(t, s, l, i, k, t[k].key[l]);
    LeavesElsewhere(t, l, k);
  }

  // ---- resumed lookups -----------------------------------------------------------------

  /** A path of interior bytes, looked up to a node number, lets any longer query be continued from there. */
  method LookupThrough(f: Fst, path: Key, q: Key, ghost t: seq<Strand>, ghost j: nat) returns (r: S.LookupResult)
    requires f.Encodes(t) && NoTerminators(t) && AtNode(t, path, |path|, j)
    requires |path| <= |q| && q[..|path|] == path
    ensures r == f.Answer(t, q)
  {
    f.ShapeOf(t);
    var nodeNum := f.LookupNodeNum(path, t, j);
    assert path[..|path|] == path;
    r := f.LookupKeyAtNode(q, |path|, nodeNum, t, j);
  }
}
