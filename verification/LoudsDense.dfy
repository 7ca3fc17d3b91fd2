/**
 The dense encoding of the upper levels (include/louds_dense.hpp): construction from the
 builder, bitmap navigation, and the dense part of a point lookup.
 */
module LoudsDense {
  import opened Bits
  import opened Words
  import opened Labels
  import opened Levels
  import opened Bitvectors
  import opened Rank
  import opened Strands
  import opened Encoding
  import opened DenseEncoding
  import opened Walks
  import opened Growth
  import opened Builder

  /** `next` is the first set bit after `pos`, or the length when there is none. */
  ghost predicate NextSet(b: seq<bool>, pos: nat, next: nat) {
    pos < next <= |b| && (next < |b| ==> b[next]) && forall p :: pos < p < next ==> !b[p]
  }

  /** The next set bit; from the last bit on, any place further right. */
  ghost predicate NextOrBeyond(b: seq<bool>, pos: nat, next: nat) {
    if pos + 1 == |b| then pos < next else NextSet(b, pos, next)
  }

  datatype LoudsDense = LoudsDense(
    height: nat,
    labelBitmaps: BitvectorRank,
    childIndicatorBitmaps: BitvectorRank,
    prefixkeyIndicatorBits: BitvectorRank,
    values: seq<nat>,
    keys: seq<Key>)
  {
    /** The bitmaps are those of the trie's upper levels. */
    ghost predicate EncodesShape(t: seq<Strand>) {
      WellFormed(t) && 1 <= height <= Height(t) &&
      labelBitmaps.Represents(Cat(BitmapLevels(t), 0, height)) &&
      childIndicatorBitmaps.Represents(Cat(ChildBitmapLevels(t), 0, height)) &&
      prefixkeyIndicatorBits.Represents(Cat(PrefixLevels(t), 0, height))
    }

    /** And the values are there as well. */
    ghost predicate Encodes(t: seq<Strand>) {
      EncodesShape(t) && values == Cat(ValueLevels(t), 0, height)
    }

    lemma Shape(t: seq<Strand>)
      requires Encodes(t)
      ensures EncodesShape(t) && WellFormed(t) && AllSized(t) && 1 <= height <= Height(t)
    {
    }

    lemma ShapeBounds(t: seq<Strand>)
      requires EncodesShape(t)
      ensures WellFormed(t) && AllSized(t) && 1 <= height <= Height(t)
    {
    }

    lemma RanksHeld(t: seq<Strand>)
      requires Encodes(t)
      ensures height <= Height(t) && labelBitmaps.Represents(Bitmaps(t))
      ensures childIndicatorBitmaps.Represents(ChildBitmaps(t))
      ensures values == Cat(ValueLevels(t), 0, height)
    {
    }

    /** The label bitmaps fill whole words. */
    lemma LabelsHeld(t: seq<Strand>)
      requires Encodes(t)
      ensures AllSized(t) && height <= Height(t) && labelBitmaps.bv.Represents(Bitmaps(t))
      ensures labelBitmaps.bv.numBits == |Bitmaps(t)| == 64 * labelBitmaps.bv.NumWords() && |Bitmaps(t)| % 64 == 0
      ensures Bitmaps(t) == Cat(BitmapLevels(t), 0, height)
    {
      hide Ones, Cat, HeightTo, Holds;
      Shape(t);
      BitmapWords(t, height);
    }

    ghost function Bitmaps(t: seq<Strand>): seq<bool>
      requires AllSized(t) && height <= Height(t)
    {
      Cat(BitmapLevels(t), 0, height)
    }

    ghost function ChildBitmaps(t: seq<Strand>): seq<bool>
      requires AllSized(t) && height <= Height(t)
    {
      Cat(ChildBitmapLevels(t), 0, height)
    }

    /** Whether the node has the byte; a single key that begins with 255 has no label bit at all. */
    method HasLabel(pos: nat, ghost t: seq<Strand>, ghost l: nat, ghost i: nat, ghost c: Byte) returns (b: bool)
      requires Encodes(t) && l < height && i < |t| && t[i].InLevel(l) && Starts(t, i, l)
      requires NoTerminators(t) || (Minimal(t) && l == 0 && i == 0)
      requires pos == DensePlace(t, l, i, c)
      ensures b <==> NoTerminators(t) && exists x: nat :: ItemOf(t, l, i, x, c)
    {
      LabelsHeld(t);
      hide Ones, Cat, HeightTo, WellFormed, NoTerminators, ItemOf, Encodes, EncodesShape, Bitvector.Represents,
           DensePlace, Minimal;
      BitMeans(t, l, i, c);
      InBoundsOf(labelBitmaps.bv, Bitmaps(t), pos);
      b := labelBitmaps.bv.ReadBit(pos);
    }

    /** The bit of a byte at a node. */
    lemma BitMeans(t: seq<Strand>, l: nat, i: nat, c: Byte)
      requires Encodes(t) && l < height && i < |t| && t[i].InLevel(l) && Starts(t, i, l)
      requires NoTerminators(t) || (Minimal(t) && l == 0 && i == 0)
      ensures height <= Height(t) && DensePlace(t, l, i, c) < |Bitmaps(t)|
      ensures Bitmaps(t)[DensePlace(t, l, i, c)] <==> NoTerminators(t) && exists x: nat :: ItemOf(t, l, i, x, c)
    {
      Shape(t);
      hide Ones, Cat, HeightTo, WellFormed, AllSized, NoTerminators, ItemOf, NodeEnd, Encodes, EncodesShape, Minimal,
           NodeNum;
      if NoTerminators(t) {
        DenseBits(t, height, l, i, c);
      } else {
        TerminatorHidesKey(t, height, c);
      }
    }


    method HasChildBit(pos: nat, ghost t: seq<Strand>, ghost l: nat, ghost i: nat, ghost x: nat, ghost c: Byte)
      returns (b: bool)
      requires Encodes(t) && NoTerminators(t) && l < height && i < |t| && t[i].InLevel(l) && Starts(t, i, l)
      requires x < |t| && ItemOf(t, l, i, x, c) && pos == DensePlace(t, l, i, c)
      ensures b == t[x].HasChild(l)
    {
      Shape(t);
      hide Ones, Cat, HeightTo, WellFormed, AllSized, NoTerminators, ItemOf, DensePlace, LeafOffset, NodeEnd,
           LutCounts, IsBlockSize, Holds;
      DenseBits(t, height, l, i, c);
      b := childIndicatorBitmaps.bv.ReadBit(pos);
      assert b == ChildBitmaps(t)[pos];
    }

    /** A bit that is no item has no child bit either. */
    method ChildBitOfNone(pos: nat, ghost t: seq<Strand>, ghost l: nat, ghost i: nat, ghost c: Byte) returns (b: bool)
      requires Encodes(t) && NoTerminators(t) && l < height && i < |t| && t[i].InLevel(l) && Starts(t, i, l)
      requires pos == DensePlace(t, l, i, c) && forall x: nat :: !ItemOf(t, l, i, x, c)
      ensures !b && pos < labelBitmaps.bv.numBits == childIndicatorBitmaps.bv.numBits
    {
      Shape(t);
      hide Ones, Cat, HeightTo, WellFormed, AllSized, NoTerminators, ItemOf, DensePlace, LeafOffset, NodeEnd,
           LutCounts, IsBlockSize, Holds;
      DenseBits(t, height, l, i, c);
      b := childIndicatorBitmaps.bv.ReadBit(pos);
      assert b == ChildBitmaps(t)[pos];
    }

    /** The number of the child is the rank of its child bit. */
    method GetChildNodeNum(pos: nat, ghost t: seq<Strand>, ghost l: nat, ghost i: nat, ghost x: nat, ghost c: Byte)
      returns (nodeNum: nat)
      requires EncodesShape(t) && NoTerminators(t) && l < height && i < |t| && t[i].InLevel(l) && Starts(t, i, l)
      requires x < |t| && ItemOf(t, l, i, x, c) && t[x].HasChild(l) && pos == DensePlace(t, l, i, c)
      ensures nodeNum == NodeNum(t, l + 1, x) && nodeNum > 0 && t[x].InLevel(l + 1) && Starts(t, x, l + 1)
    {
      ShapeBounds(t);
      hide Ones, Cat, HeightTo, WellFormed, AllSized, NoTerminators, ItemOf, DensePlace, LeafOffset, NodeEnd,
           LutCounts, IsBlockSize, Holds;
      DenseChild(t, height, l, i, x, c);
      nodeNum := childIndicatorBitmaps.Rank(pos, ChildBitmaps(t));
    }

    /** The index of a childless item's value: a difference of ranks. */
    method ValueIndexAt(pos: nat, ghost t: seq<Strand>, ghost l: nat, ghost i: nat, ghost x: nat, ghost c: Byte)
      returns (index: nat)
      requires Encodes(t) && NoTerminators(t) && l < height && i < |t| && t[i].InLevel(l) && Starts(t, i, l)
      requires x < |t| && ItemOf(t, l, i, x, c) && !t[x].HasChild(l) && pos == DensePlace(t, l, i, c)
      ensures index == LeafOffset(t, 0, l) + Ones(LeafFlags(t, l), x) && index < |values| && values[index] == t[x].value
    {
      hide Ones, Cat, HeightTo, WellFormed, AllSized, NoTerminators, ItemOf, DensePlace, LeafOffset, NodeEnd, Encodes,
           EncodesShape, BitvectorRank.Represents, LeafFlags, Bitmaps, ChildBitmaps;
      LeafIndex(t, l, i, x, c);
      index := RankDifference(pos, Bitmaps(t), ChildBitmaps(t));
    }

    /** The difference of the two ranks at a leaf, and the value it indexes. */
    lemma LeafIndex(t: seq<Strand>, l: nat, i: nat, x: nat, c: Byte)
      requires Encodes(t) && NoTerminators(t) && l < height && i < |t| && t[i].InLevel(l) && Starts(t, i, l)
      requires x < |t| && ItemOf(t, l, i, x, c) && !t[x].HasChild(l)
      ensures AllSized(t) && height <= Height(t)
      ensures labelBitmaps.Represents(Bitmaps(t)) && childIndicatorBitmaps.Represents(ChildBitmaps(t))
      ensures DensePlace(t, l, i, c) < |Bitmaps(t)| == |ChildBitmaps(t)|
      ensures var want := LeafOffset(t, 0, l) + Ones(LeafFlags(t, l), x);
        && Ones(Bitmaps(t), DensePlace(t, l, i, c) + 1) - Ones(ChildBitmaps(t), DensePlace(t, l, i, c) + 1) - 1 == want
        && want < |values| && values[want] == t[x].value
    {
      Shape(t);
      RanksHeld(t);
      hide Ones, Cat, HeightTo, WellFormed, AllSized, NoTerminators, ItemOf, DensePlace, LeafOffset, NodeEnd, Encodes,
           EncodesShape, BitvectorRank.Represents, LeafFlags;
      DenseValue(t, height, l, i, x, c);
    }

    method RankDifference(pos: nat, ghost b: seq<bool>, ghost c: seq<bool>) returns (d: nat)
      requires labelBitmaps.Represents(b) && childIndicatorBitmaps.Represents(c) && pos < |b| == |c|
      requires Ones(b, pos + 1) > Ones(c, pos + 1)
      ensures d == Ones(b, pos + 1) - Ones(c, pos + 1) - 1
    {
      hide Ones, LutCounts, IsBlockSize, Holds;
      var labelRank := labelBitmaps.Rank(pos, b);
      var childRank := childIndicatorBitmaps.Rank(pos, c);
      d := labelRank - childRank - 1;
    }

    /**
     What the results of a dense lookup mean: not found; found here, with its value, when the
     node number is 0; otherwise the walk goes on at that node of the first sparse level.
     */
    ghost predicate Answers(t: seq<Strand>, q: Key, l: nat, i: nat, found: bool, outNodeNum: nat, value: nat)
      requires WellFormed(t) && AtNode(t, q, l, i)
    {
      var w := Walk(t, q, l, i);
      if !found then w.OutOfBytes? || (w.NoItem? && w.level < height)
      else if outNodeNum == 0 then w.AtLeaf? && w.strand < |t| && t[w.strand].value == value
      else exists j: nat :: AtNode(t, q, height, j) && outNodeNum == NodeNum(t, height, j)
    }

    /** The dense part of a lookup, from a node on a dense level. */
    method LookupKeyAtNode(key: Key, level0: nat, inNodeNum: nat, ghost t: seq<Strand>, ghost i0: nat)
      returns (found: bool, outNodeNum: nat, value: nat)
      requires Encodes(t) && level0 < height
      requires NoTerminators(t) || (Minimal(t) && level0 == 0 && i0 == 0)
      requires AtNode(t, key, level0, i0) && inNodeNum == NodeNum(t, level0, i0)
      ensures WellFormed(t)
      ensures NoTerminators(t) ==> Answers(t, key, level0, i0, found, outNodeNum, value)
      ensures !NoTerminators(t) ==> !found
    {
      hide Ones, Cat, HeightTo, WellFormed, NoTerminators, ItemOf, DensePlace, Encodes, EncodesShape, Walk, NodeNum,
           NodeEnd;
      Shape(t);
      var nodeNum := inNodeNum;
      outNodeNum, value := 0, 0;
      ghost var i := i0;
      for level := level0 to height
        invariant AtNode(t, key, level, i) && nodeNum == NodeNum(t, level, i)
        invariant Walk(t, key, level0, i0) == Walk(t, key, level, i)
        invariant level > level0 ==> nodeNum > 0 && NoTerminators(t)
        invariant level == level0 ==> i == i0
        invariant outNodeNum == 0
      {
        var pos := nodeNum * 256;
        if level >= |key| {
          WalkRunsOut(t, key, level, i);
          found := false;
          return;
        }
        pos := pos + key[level];
        PlaceIs(t, level, i, key[level], pos);
        var present := HasLabel(pos, t, level, i, key[level]);
        if !present {
          if NoTerminators(t) { WalkStops(t, key, level, i); }
          found := false;
          return;
        }
        ghost var x := TheItem(t, level, i, key[level]);
        WalkStep(t, key, level, i, x);
        var continues := HasChildBit(pos, t, level, i, x, key[level]);
        if !continues {
          var valueIndex := ValueIndexAt(pos, t, level, i, x, key[level]);
          found, value := true, values[valueIndex];
          return;
        }
        nodeNum := GetChildNodeNum(pos, t, level, i, x, key[level]);
        i := x;
      }
      found, outNodeNum := true, nodeNum;
    }

    /** From the root. */
    method LookupKey(key: Key, ghost t: seq<Strand>) returns (found: bool, outNodeNum: nat, value: nat)
      requires Encodes(t) && Minimal(t) && |t| > 0
      ensures WellFormed(t) && AtNode(t, key, 0, 0)
      ensures NoTerminators(t) ==> Answers(t, key, 0, 0, found, outNodeNum, value)
      ensures !NoTerminators(t) ==> !found
    {
      RootNode(t, key);
      RootIsOneNode(t);
      found, outNodeNum, value := LookupKeyAtNode(key, 0, 0, t, 0);
    }

    /** The node a path leads to, or leads through when it goes on into the sparse levels. */
    method LookupNodeNumber(path: Key, ghost t: seq<Strand>, ghost j: nat) returns (goesOn: bool, nodeNum: nat)
      requires EncodesShape(t) && NoTerminators(t) && |t| > 0 && AtNode(t, path, |path|, j)
      ensures goesOn <==> |path| >= height
      ensures !goesOn ==> nodeNum == NodeNum(t, |path|, j)
      ensures goesOn ==> exists i: nat :: AtNode(t, path, height, i) && nodeNum == NodeNum(t, height, i)
    {
      hide Ones, Cat, HeightTo, WellFormed, NoTerminators, ItemOf, DensePlace, EncodesShape, NodeNum, NodeEnd;
      ShapeBounds(t);
      ghost var i: nat := 0;
      nodeNum := 0;
      RootNode(t, path);
      RootIsOneNode(t);
      for level := 0 to height
        invariant AtNode(t, path, level, i) && nodeNum == NodeNum(t, level, i)
      {
        var pos := nodeNum * 256;
        if level >= |path| {
          AtNodeUnique(t, path, level, i, j);
          return false, nodeNum;
        }
        pos := pos + path[level];
        PlaceIs(t, level, i, path[level], pos);
        ghost var x := ItemTowards(t, path, level, i, |path|, j);
        ItemBound(t, level, i, x, path[level]);
        WalkStep(t, path, level, i, x);
        nodeNum := GetChildNodeNum(pos, t, level, i, x, path[level]);
        i := x;
      }
      goesOn := true;
    }

    /** The next set label bit after `pos`, or the end of the bitmaps; at their last bit it looks past them. */
    method GetNextPos(pos: nat, ghost t: seq<Strand>) returns (next: nat)
      requires Encodes(t) && pos < |Cat(BitmapLevels(t), 0, height)|
      ensures NextOrBeyond(Cat(BitmapLevels(t), 0, height), pos, next)
    {
      hide Ones, Cat, HeightTo, WellFormed, Encodes, EncodesShape, IsGap, NoneAfter, RunOffDistance, NextOrBeyond,
           NextSet, WordsFor, Bitvector.Represents, Bitvector.ReadsBeyond, Bitvector.NumWords, Bitmaps;
      LabelsHeld(t);
      BeyondIsLast(labelBitmaps.bv, Bitmaps(t), pos);
      var distance := labelBitmaps.bv.DistanceToNextSetBit(pos, Bitmaps(t));
      next := pos + distance;
      GapIsNext(Bitmaps(t), pos, distance);
    }
  }

  lemma BitmapWords(t: seq<Strand>, s: nat)
    requires WellFormed(t) && s <= Height(t)
    ensures |Cat(BitmapLevels(t), 0, s)| % 64 == 0
    ensures 64 * WordsFor(|Cat(BitmapLevels(t), 0, s)|) == |Cat(BitmapLevels(t), 0, s)|
  {
    hide Cat, HeightTo;
    BitmapLengths(t, s);
    WholeNodes(NodesBefore(t, s));
  }

  lemma WholeNodes(n: nat)
    ensures (256 * n) % 64 == 0 && 64 * WordsFor(256 * n) == 256 * n
  {
    ModUnique(256 * n, 64, 4 * n, 0);
  }

  lemma InBoundsOf(bv: Bitvector, b: seq<bool>, pos: nat)
    requires bv.Represents(b) && pos < |b|
    ensures bv.InBounds(pos) && bv.ReadBit(pos) == b[pos]
  {
  }

  /** The bitmaps fill whole words, so running off the end stops exactly there. */
  lemma GapIsNext(b: seq<bool>, pos: nat, distance: nat)
    requires pos < |b| && |b| % 64 == 0
    requires pos + 1 < |b| ==> IsGap(b, pos, distance) || (NoneAfter(b, pos) && distance == RunOffDistance(|b|, pos))
    requires pos + 1 == |b| ==> distance >= 1
    ensures NextOrBeyond(b, pos, pos + distance)
  {
  }

  lemma BeyondIsLast(bv: Bitvector, b: seq<bool>, pos: nat)
    requires |b| == 64 * bv.NumWords()
    ensures bv.ReadsBeyond(pos) <==> pos + 1 == |b|
  {
  }

  lemma ItemBound(t: seq<Strand>, l: nat, i: nat, x: nat, c: Byte)
    requires i < |t| && ItemOf(t, l, i, x, c)
    ensures x < |t|
  {
  }

  lemma TheItem(t: seq<Strand>, l: nat, i: nat, c: Byte) returns (x: nat)
    requires i < |t| && exists y: nat :: ItemOf(t, l, i, y, c)
    ensures x < |t| && ItemOf(t, l, i, x, c)
  {
    x :| ItemOf(t, l, i, x, c);
  }

  lemma PlaceIs(t: seq<Strand>, l: nat, i: nat, c: Byte, pos: nat)
    requires i <= |t| && pos == NodeNum(t, l, i) * 256 + c
    ensures pos == DensePlace(t, l, i, c)
  {
  }

  lemma WalkRunsOut(t: seq<Strand>, q: Key, l: nat, i: nat)
    requires WellFormed(t) && AtNode(t, q, l, i) && l >= |q|
    ensures Walk(t, q, l, i) == OutOfBytes
  {
  }

  /** The builder's dense vectors hold the bitmaps of the encoding, level by level. */
  lemma BitmapsAreHeld(b: FstBuilder, t: seq<Strand>)
    requires b.Built(t)
    ensures AllSized(t) && b.sparseStartLevel <= |b.nodeCounts| && b.sparseStartLevel <= Height(t)
    ensures forall l :: 0 <= l < b.sparseStartLevel ==>
      && Holds(b.bitmapLabels[l], BitmapLevels(t)[l]) && 64 * |b.bitmapLabels[l]| == |BitmapLevels(t)[l]|
      && Holds(b.bitmapChildIndicatorBits[l], ChildBitmapLevels(t)[l]) &&
      |ChildBitmapLevels(t)[l]| == |BitmapLevels(t)[l]|
      && Holds(b.prefixkeyIndicatorBits[l], PrefixLevels(t)[l])
      && l < |b.nodeCounts| && b.nodeCounts[l] == |PrefixLevels(t)[l]|
  {
    hide HeightTo, Holds, Mark;
    forall l | 0 <= l < b.sparseStartLevel
      ensures Holds(b.bitmapLabels[l], BitmapLevels(t)[l]) && 64 * |b.bitmapLabels[l]| == |BitmapLevels(t)[l]|
      ensures Holds(b.bitmapChildIndicatorBits[l], ChildBitmapLevels(t)[l])
      ensures |ChildBitmapLevels(t)[l]| == |BitmapLevels(t)[l]|
      ensures Holds(b.prefixkeyIndicatorBits[l], PrefixLevels(t)[l])
      ensures l < |b.nodeCounts| && b.nodeCounts[l] == |PrefixLevels(t)[l]|
    {
      LevelIsHeld(b, t, l);
    }
  }

  lemma LevelIsHeld(b: FstBuilder, t: seq<Strand>, l: nat)
    requires b.Built(t) && l < b.sparseStartLevel
    ensures Holds(b.bitmapLabels[l], LevelBitmap(t, l)) && 64 * |b.bitmapLabels[l]| == |LevelBitmap(t, l)|
    ensures Holds(b.bitmapChildIndicatorBits[l], LevelChildBitmap(t, l))
    ensures Holds(b.prefixkeyIndicatorBits[l], LevelPrefixBits(t, l))
    ensures l < |b.nodeCounts| && b.nodeCounts[l] == NodeCount(t, l)
  {
    hide HeightTo, Holds, Mark, Slots, NodesOfItems, LabelFlags, TerminatorFlags, LevelChildren, NodeCount;
    assert b.DenseSoFar(t, l, |Items(t, l)|);
    b.LevelCounted(t, l);
  }

  method MakeLoudsDense(builder: FstBuilder, keys: seq<Key>, ghost t: seq<Strand>) returns (r: LoudsDense)
    requires builder.Built(t)
    ensures r.Encodes(t) && r.height == builder.sparseStartLevel && r.keys == keys
    ensures r.labelBitmaps.basicBlockSize == r.childIndicatorBitmaps.basicBlockSize == 512
    ensures r.prefixkeyIndicatorBits.basicBlockSize == 512
  {
    hide HeightTo, LevelBitmap, LevelChildBitmap, LevelPrefixBits, Holds, Cat, WellFormed, IsBlockSize,
         FstBuilder.DenseSoFar, FstBuilder.Encodes, BitvectorRank.Represents;
    BitmapsAreHeld(builder, t);
    BlockSize512();
    var height := builder.sparseStartLevel;
    var numBitsPerLevel := BitsPerLevel(builder.bitmapLabels, height);
    var labelBitmaps := MakeBitvectorRank(512, builder.bitmapLabels, numBitsPerLevel, 0, height, BitmapLevels(t));
    var childBitmaps :=
      MakeBitvectorRank(512, builder.bitmapChildIndicatorBits, numBitsPerLevel, 0, height, ChildBitmapLevels(t));
    var prefixBits := MakeBitvectorRank(512, builder.prefixkeyIndicatorBits, builder.nodeCounts, 0, height,
      PrefixLevels(t));
    r := LoudsDense(height, labelBitmaps, childBitmaps, prefixBits, builder.valuesDense, keys);
  }

  method BitsPerLevel(bitmaps: seq<seq<Word>>, height: nat) returns (n: seq<nat>)
    requires height <= |bitmaps|
    ensures |n| == height && forall l :: 0 <= l < height ==> n[l] == |bitmaps[l]| * 64
  {
    n := [];
    for level := 0 to height
      invariant |n| == level && forall l :: 0 <= l < level ==> n[l] == |bitmaps[l]| * 64
    {
      n := n + [|bitmaps[level]| * 64];
    }
  }
}
