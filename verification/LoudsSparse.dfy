/**
 The sparse encoding of the lower levels (include/louds_sparse.hpp): construction from the
 builder, navigation by rank and select, and point lookups.
 */
module LoudsSparse {
  import opened Bits
  import opened Words
  import opened Labels
  import opened Levels
  import opened Bitvectors
  import opened Rank
  import opened Select
  import opened Strands
  import opened Encoding
  import opened Walks
  import opened Growth
  import opened Builder

  /** PastEnd: the code reads labels nobody wrote, and the answer depends on them. */
  datatype LookupResult = Hit(value: nat) | Miss | PastEnd

  /** The node is the last one, and the size the code computes for it is too large. */
  ghost predicate Oversized(t: seq<Strand>, s: nat, l: nat, i: nat)
    requires s <= l && i < |t|
  {
    s <= Height(t) &&
    var n := Offset(t, s, Height(t));
    Place(t, s, l, NodeEnd(t, l, i)) == n && RunOffDistance(n, Place(t, s, l, i)) > n - Place(t, s, l, i)
  }

  /** What a lookup that has reached the sparse levels answers. */
  ghost function Outcome(t: seq<Strand>, s: nat, r: WalkEnd): LookupResult {
    match r
    case AtLeaf(x) => if x < |t| then Hit(t[x].value) else Miss
    case OutOfBytes => Miss
    case NoItem(l, i) => if s <= l && i < |t| && Oversized(t, s, l, i) then PastEnd else Miss
  }

  lemma ItemIsInLevel(t: seq<Strand>, l: nat, i: nat, x: nat, c: Byte)
    requires i < |t| && ItemOf(t, l, i, x, c)
    ensures x < |t| && t[x].InLevel(l)
  {
  }

  /** Every sparse node leaves room after its first label, so its size can be computed. */
  lemma RoomAfterStart(t: seq<Strand>, s: nat, l: nat, i: nat)
    requires WellFormed(t) && Minimal(t) && |t| >= 2 && s <= l && i < |t| && t[i].InLevel(l) && Starts(t, i, l)
    ensures l < Height(t) && Place(t, s, l, i) + 1 < Offset(t, s, Height(t))
  {
    hide Ones, Cat, Positions, Pick, HeightTo, Minimal;
    Entry(t, s, l, i);
    TotalLengths(t, s);
    if t[i].HasChild(l) {
      Entry(t, s, l + 1, i);
      LaterLevel(t, s, l, i);
    } else {
      LeafHasSibling(t, i);
      Entry(t, s, l, i + 1);
      AtOrder(t, l, i, i + 1);
    }
  }

  lemma LaterLevel(t: seq<Strand>, s: nat, l: nat, i: nat)
    requires AllSized(t) && s <= l && i < |t| && t[i].InLevel(l) && t[i].InLevel(l + 1)
    ensures Place(t, s, l, i) < Place(t, s, l + 1, i)
  {
    LevelEntry(t, l, i);
  }

  datatype LoudsSparse = LoudsSparse(
    height: nat,
    startLevel: nat,
    nodeCountDense: nat,
    childCountDense: nat,
    labels: LabelVector,
    childIndicatorBits: BitvectorRank,
    loudsBits: BitvectorSelect,
    values: seq<nat>,
    keys: seq<Key>)
  {
    /** The vectors and counts are those of the trie's lower levels. */
    ghost predicate EncodesShape(t: seq<Strand>) {
      WellFormed(t) && height == Height(t) && startLevel <= height &&
      nodeCountDense == NodesBefore(t, startLevel) &&
      childCountDense == (if startLevel < height then NodesBefore(t, startLevel + 1) - 1 else 0) &&
      labels.labels == Cat(LabelLevels(t), startLevel, height) &&
      childIndicatorBits.Represents(Cat(ChildLevels(t), startLevel, height)) &&
      loudsBits.Represents(Cat(LoudsLevels(t), startLevel, height))
    }

    /** And the values are there as well. */
    ghost predicate Encodes(t: seq<Strand>) {
      EncodesShape(t) && values == Cat(ValueLevels(t), startLevel, height)
    }

    lemma Shape(t: seq<Strand>)
      requires Encodes(t)
      ensures EncodesShape(t) && WellFormed(t) && height == Height(t) && startLevel <= height
    {
    }

    lemma ShapeBounds(t: seq<Strand>)
      requires EncodesShape(t)
      ensures WellFormed(t) && height == Height(t) && startLevel <= height
    {
    }

    ghost function ChildBits(t: seq<Strand>): seq<bool>
      requires startLevel <= Height(t)
    {
      Cat(ChildLevels(t), startLevel, Height(t))
    }

    ghost function Louds(t: seq<Strand>): seq<bool>
      requires startLevel <= Height(t)
    {
      Cat(LoudsLevels(t), startLevel, Height(t))
    }

    /** The breadth-first number of the child of the item at `pos`. */
    method GetChildNodeNum(pos: nat, ghost t: seq<Strand>, ghost l: nat, ghost x: nat) returns (nodeNum: nat)
      requires EncodesShape(t) && startLevel <= l && x < |t| && t[x].InLevel(l) && t[x].HasChild(l)
      requires pos == Place(t, startLevel, l, x)
      ensures nodeNum == NodeNum(t, l + 1, x) && t[x].InLevel(l + 1) && Starts(t, x, l + 1)
    {
      hide Ones, Cat, HeightTo, WellFormed;
      ChildNumber(t, startLevel, l, x);
      Entry(t, startLevel, l, x);
      var rank := childIndicatorBits.Rank(pos, ChildBits(t));
      nodeNum := rank + childCountDense;
    }

    /** Where the labels of a node begin. */
    method GetFirstLabelPos(nodeNum: nat, ghost t: seq<Strand>, ghost l: nat, ghost i: nat) returns (pos: nat)
      requires EncodesShape(t) && startLevel <= l && i < |t| && t[i].InLevel(l) && Starts(t, i, l)
      requires nodeNum == NodeNum(t, l, i)
      ensures pos == Place(t, startLevel, l, i)
    {
      hide Ones, Cat, HeightTo, WellFormed;
      NodeStartsAt(t, startLevel, l, i);
      OnesMono(Louds(t), Place(t, startLevel, l, i) + 1, |Louds(t)|);
      pos := loudsBits.Select(nodeNum + 1 - nodeCountDense, Louds(t));
      NthUnique(Louds(t), nodeNum + 1 - nodeCountDense, pos, Place(t, startLevel, l, i));
    }

    /** The size the code computes for a node: right unless it runs off the end. */
    method NodeSize(pos: nat, ghost t: seq<Strand>, ghost l: nat, ghost i: nat) returns (size: nat)
      requires EncodesShape(t) && Minimal(t) && |t| >= 2
      requires startLevel <= l && i < |t| && t[i].InLevel(l) && Starts(t, i, l)
      requires pos == Place(t, startLevel, l, i)
      ensures size == if Oversized(t, startLevel, l, i) then RunOffDistance(|labels.labels|, pos)
                      else Place(t, startLevel, l, NodeEnd(t, l, i)) - pos
    {
      hide Ones, Cat, HeightTo, WellFormed, Minimal, RunOffDistance;
      RoomAfterStart(t, startLevel, l, i);
      NodeExtent(t, startLevel, l, i);
      TotalLengths(t, startLevel);
      size := loudsBits.bv.DistanceToNextSetBit(pos, Louds(t));
      SizeMeans(t, startLevel, l, i, Louds(t), size);
    }

    /** Looks the byte up among the labels of a node. */
    method SearchNode(c: Byte, pos: nat, ghost t: seq<Strand>, ghost l: nat, ghost i: nat) returns (r: SearchResult)
      requires EncodesShape(t) && Minimal(t) && |t| >= 2
      requires startLevel <= l && i < |t| && t[i].InLevel(l) && Starts(t, i, l)
      requires pos == Place(t, startLevel, l, i)
      ensures r.Found? ==> exists x: nat :: x < |t| && ItemOf(t, l, i, x, c) && r.pos == Place(t, startLevel, l, x)
      ensures !r.Found? ==> forall x: nat :: !ItemOf(t, l, i, x, c)
      ensures !r.Found? ==> (r.Overrun? <==> Oversized(t, startLevel, l, i))
    {
      hide Ones, Cat, HeightTo, WellFormed, Minimal, RunOffDistance, Oversized, FirstMatch;
      var size := NodeSize(pos, t, l, i);
      Searchable(t, l, i, pos, size);
      r := labels.Search(c, pos, size);
      SearchMeans(t, startLevel, l, i, c, labels.labels, size, r);
    }

    /** The value of a childless item: its place less the children counted up to there. */
    method ValueAt(pos: nat, ghost t: seq<Strand>, ghost l: nat, ghost x: nat) returns (value: nat)
      requires Encodes(t) && startLevel <= l && x < |t| && t[x].InLevel(l) && !t[x].HasChild(l)
      requires pos == Place(t, startLevel, l, x)
      ensures value == t[x].value
    {
      hide Ones, Cat, HeightTo, WellFormed;
      ValueIndex(t, startLevel, l, x);
      Entry(t, startLevel, l, x);
      var rank := childIndicatorBits.Rank(pos, ChildBits(t));
      var valuePos := pos - rank;
      value := values[valuePos];
    }

    /** Reads the child bit of an item. */
    method HasChildBit(pos: nat, ghost t: seq<Strand>, ghost l: nat, ghost x: nat) returns (b: bool)
      requires Encodes(t) && startLevel <= l && x < |t| && t[x].InLevel(l)
      requires pos == Place(t, startLevel, l, x)
      ensures b == t[x].HasChild(l)
    {
      hide Ones, Cat, HeightTo, WellFormed;
      Entry(t, startLevel, l, x);
      b := childIndicatorBits.bv.ReadBit(pos);
      assert b == ChildBits(t)[pos];
    }

    /** Whether the place after an item starts another node or is past the end. */
    method IsEndOfNode(pos: nat, ghost t: seq<Strand>) returns (b: bool)
      requires Encodes(t) && pos < |Louds(t)|
      ensures b <==> pos + 1 == |Louds(t)| || Louds(t)[pos + 1]
    {
      hide Ones, Cat, HeightTo, WellFormed;
      b := pos == loudsBits.bv.numBits - 1 || loudsBits.bv.ReadBit(pos + 1);
      assert pos + 1 < |Louds(t)| ==> loudsBits.bv.ReadBit(pos + 1) == Louds(t)[pos + 1];
    }

    /** A lookup resumed at a node: exactly the walk from there. */
    method LookupKeyAtNode(key: Key, inNodeNum: nat, level0: nat, ghost t: seq<Strand>, ghost i0: nat)
      returns (r: LookupResult)
      requires Encodes(t) && Minimal(t) && |t| >= 2 && startLevel <= level0
      requires AtNode(t, key, level0, i0) && inNodeNum == NodeNum(t, level0, i0)
      ensures r == Outcome(t, startLevel, Walk(t, key, level0, i0))
    {
      hide Ones, Cat, HeightTo, WellFormed, Minimal, Encodes, EncodesShape, ItemOf, Walk, NodeEnd, NodeNum, Oversized;
      Shape(t);
      var nodeNum := inNodeNum;
      ghost var i := i0;
      var pos := GetFirstLabelPos(nodeNum, t, level0, i0);
      var level := level0;
      while level < |key|
        invariant level0 <= level && AtNode(t, key, level, i) && pos == Place(t, startLevel, level, i)
        invariant Walk(t, key, level0, i0) == Walk(t, key, level, i)
        decreases |key| - level
      {
        var found := SearchNode(key[level], pos, t, level, i);
        if !found.Found? {
          WalkStops(t, key, level, i);
          return if found.Overrun? then PastEnd else Miss;
        }
        pos := found.pos;
        ghost var x: nat :| x < |t| && ItemOf(t, level, i, x, key[level]) && pos == Place(t, startLevel, level, x);
        WalkStep(t, key, level, i, x);
        ItemIsInLevel(t, level, i, x, key[level]);
        var continues := HasChildBit(pos, t, level, x);
        if !continues {
          var value := ValueAt(pos, t, level, x);
          return Hit(value);
        }
        nodeNum := GetChildNodeNum(pos, t, level, x);
        pos := GetFirstLabelPos(nodeNum, t, level + 1, x);
        level := level + 1;
        i := x;
      }
      WalkExhausted(t, key, level, i);
      return Miss;
    }

    /** A lookup handed over by the dense levels. */
    method LookupKey(key: Key, inNodeNum: nat, ghost t: seq<Strand>, ghost i0: nat) returns (r: LookupResult)
      requires Encodes(t) && Minimal(t) && |t| >= 2
      requires AtNode(t, key, startLevel, i0) && inNodeNum == NodeNum(t, startLevel, i0)
      ensures r == Outcome(t, startLevel, Walk(t, key, startLevel, i0))
    {
      r := LookupKeyAtNode(key, inNodeNum, startLevel, t, i0);
    }

    /** The number of the node a path leads to. */
    method LookupNodeNumber(path: Key, inNodeNum: nat, ghost t: seq<Strand>, ghost i0: nat, ghost j: nat)
      returns (nodeNum: nat)
      requires EncodesShape(t) && Minimal(t) && |t| >= 2 && startLevel <= |path|
      requires AtNode(t, path, startLevel, i0) && inNodeNum == NodeNum(t, startLevel, i0) && AtNode(t, path, |path|, j)
      ensures nodeNum == NodeNum(t, |path|, j)
    {
      hide Ones, Cat, HeightTo, WellFormed, Minimal, EncodesShape, ItemOf, NodeEnd, NodeNum, Oversized;
      ShapeBounds(t);
      nodeNum := inNodeNum;
      ghost var i := i0;
      var pos := GetFirstLabelPos(nodeNum, t, startLevel, i0);
      for level := startLevel to |path|
        invariant AtNode(t, path, level, i) && pos == Place(t, startLevel, level, i) && nodeNum == NodeNum(t, level, i)
      {
        ghost var y := ItemTowards(t, path, level, i, |path|, j);
        var found := SearchNode(path[level], pos, t, level, i);
        pos := found.pos;
        ghost var x: nat :| x < |t| && ItemOf(t, level, i, x, path[level]) && pos == Place(t, startLevel, level, x);
        ItemUnique(t, level, i, x, y, path[level]);
        WalkStep(t, path, level, i, x);
        ItemIsInLevel(t, level, i, x, path[level]);
        nodeNum := GetChildNodeNum(pos, t, level, x);
        pos := GetFirstLabelPos(nodeNum, t, level + 1, x);
        i := x;
      }
      AtNodeUnique(t, path, |path|, i, j);
    }

    lemma Searchable(t: seq<Strand>, l: nat, i: nat, pos: nat, size: nat)
      requires EncodesShape(t) && Minimal(t) && |t| >= 2
      requires startLevel <= l && i < |t| && t[i].InLevel(l) && Starts(t, i, l)
      requires pos == Place(t, startLevel, l, i)
      requires size == if Oversized(t, startLevel, l, i) then RunOffDistance(|labels.labels|, pos)
                       else Place(t, startLevel, l, NodeEnd(t, l, i)) - pos
      ensures labels.SearchableNode(pos, size)
    {
      hide Ones, Cat, HeightTo, WellFormed, Minimal;
      RoomAfterStart(t, startLevel, l, i);
      NodeLabels(t, startLevel, l, i);
      NodeExtent(t, startLevel, l, i);
      TotalLengths(t, startLevel);
    }
  }

  /** The gap that was measured is the node's size, or the run-off answer on an oversized last node. */
  lemma SizeMeans(t: seq<Strand>, s: nat, l: nat, i: nat, louds: seq<bool>, size: nat)
    requires WellFormed(t) && s <= l < Height(t) && i < |t| && t[i].InLevel(l) && Starts(t, i, l)
    requires louds == Cat(LoudsLevels(t), s, Height(t))
    requires IsGap(louds, Place(t, s, l, i), size) ||
             (NoneAfter(louds, Place(t, s, l, i)) && size == RunOffDistance(|louds|, Place(t, s, l, i)))
    ensures size == if Oversized(t, s, l, i) then RunOffDistance(|louds|, Place(t, s, l, i))
                    else Place(t, s, l, NodeEnd(t, l, i)) - Place(t, s, l, i)
  {
    hide Ones, Cat, HeightTo, WellFormed;
    NodeExtent(t, s, l, i);
    TotalLengths(t, s);
    var pos, end := Place(t, s, l, i), Place(t, s, l, NodeEnd(t, l, i));
    assert end < |louds| ==> louds[end];
  }

  lemma SearchMeans(t: seq<Strand>, s: nat, l: nat, i: nat, c: Byte, labels: seq<Byte>, size: nat, r: SearchResult)
    requires WellFormed(t) && s <= l < Height(t) && i < |t| && t[i].InLevel(l) && Starts(t, i, l)
    requires labels == Cat(LabelLevels(t), s, Height(t))
    requires size == if Oversized(t, s, l, i) then RunOffDistance(|labels|, Place(t, s, l, i))
                     else Place(t, s, l, NodeEnd(t, l, i)) - Place(t, s, l, i)
    requires r == FirstMatch(labels, c, Place(t, s, l, i), size)
    ensures r.Found? ==> exists x: nat :: x < |t| && ItemOf(t, l, i, x, c) && r.pos == Place(t, s, l, x)
    ensures !r.Found? ==> forall x: nat :: !ItemOf(t, l, i, x, c)
    ensures !r.Found? ==> (r.Overrun? <==> Oversized(t, s, l, i))
  {
    hide Ones, Cat, HeightTo, RunOffDistance;
    NodeExtent(t, s, l, i);
    TotalLengths(t, s);
    var pos, end := Place(t, s, l, i), Place(t, s, l, NodeEnd(t, l, i));
    FirstMatchMeans(labels, c, pos, size);
    if r.Found? {
      var x := PlaceInNode(t, s, l, i, r.pos);
      Entry(t, s, l, x);
    } else {
      forall x: nat
        ensures !ItemOf(t, l, i, x, c)
      {
        if ItemOf(t, l, i, x, c) {
          ItemInExtent(t, s, l, i, x);
          Entry(t, s, l, x);
        }
      }
    }
  }

  /** The builder's per-level vectors hold the bits of the encoding, level by level. */
  lemma LevelsAreHeld(b: FstBuilder, t: seq<Strand>)
    requires b.Encodes(t)
    ensures |b.labels| == |b.childIndicatorBits| == |b.loudsBits| == |b.nodeCounts| == Height(t)
    ensures b.labels == LabelLevels(t)
    ensures forall l :: 0 <= l < Height(t) ==>
      Holds(b.childIndicatorBits[l], ChildLevels(t)[l]) && Holds(b.loudsBits[l], LoudsLevels(t)[l])
    ensures forall l :: 0 <= l < Height(t) ==>
      |b.labels[l]| == |ChildLevels(t)[l]| == |LoudsLevels(t)[l]| && b.nodeCounts[l] == NodeCount(t, l)
  {
    hide HeightTo, LevelLabels, LevelChildren, LevelLouds, NodeCount, Holds;
    forall l | 0 <= l < Height(t)
      ensures b.labels[l] == LabelLevels(t)[l] && b.nodeCounts[l] == NodeCount(t, l)
      ensures Holds(b.childIndicatorBits[l], ChildLevels(t)[l]) && Holds(b.loudsBits[l], LoudsLevels(t)[l])
      ensures |b.labels[l]| == |ChildLevels(t)[l]| == |LoudsLevels(t)[l]|
    {
      assert LevelEncodes(b.labels[l], b.childIndicatorBits[l], b.loudsBits[l], b.nodeCounts[l],
        b.isLastItemTerminator[l], t, l);
    }
  }

  lemma FirstSparseBit(t: seq<Strand>, s: nat)
    requires WellFormed(t) && s <= Height(t)
    ensures var b := Cat(LoudsLevels(t), s, Height(t)); |b| > 0 ==> b[0]
  {
    hide HeightTo, LevelLouds;
    if s < Height(t) {
      FirstStarts(t, s);
      CatAt(LoudsLevels(t), s, Height(t), s, 0);
    }
  }

  /** The constructor: counts of the dense part, then the concatenated sparse levels. */
  method MakeLoudsSparse(builder: FstBuilder, keys: seq<Key>, ghost t: seq<Strand>) returns (r: LoudsSparse)
    requires builder.Built(t)
    ensures r.Encodes(t) && r.startLevel == builder.sparseStartLevel && r.keys == keys
    ensures r.childIndicatorBits.basicBlockSize == 512 && r.loudsBits.sampleInterval == 64
  {
    hide HeightTo, LevelLabels, LevelChildren, LevelLouds, LevelValues, NodeCount, NodesBefore, Holds, Cat,
         FstBuilder.DenseSoFar, FstBuilder.Encodes, IsBlockSize, WellFormed, BitvectorRank.Represents,
         BitvectorSelect.Represents;
    LevelsAreHeld(builder, t);
    FirstSparseBit(t, builder.sparseStartLevel);
    BlockSize512();
    var height := |builder.labels|;
    var startLevel := builder.sparseStartLevel;
    var nodeCountDense, childCountDense := CountDense(builder.nodeCounts, startLevel, t);
    var numItemsPerLevel := ItemsPerLevel(builder.labels, height);
    var labels := MakeLabelVector(builder.labels, startLevel, height);
    var child := MakeBitvectorRank(512, builder.childIndicatorBits, numItemsPerLevel, startLevel, height,
      ChildLevels(t));
    var louds := MakeBitvectorSelect(64, builder.loudsBits, numItemsPerLevel, startLevel, height, LoudsLevels(t));
    r := LoudsSparse(height, startLevel, nodeCountDense, childCountDense, labels, child, louds, builder.valuesSparse,
      keys);
  }

  /** Nodes and children of the dense levels. */
  method CountDense(nodeCounts: seq<nat>, startLevel: nat, ghost t: seq<Strand>) returns (nodes: nat, children: nat)
    requires WellFormed(t) && startLevel <= Height(t) == |nodeCounts|
    requires forall l :: 0 <= l < |nodeCounts| ==> nodeCounts[l] == NodeCount(t, l)
    ensures nodes == NodesBefore(t, startLevel)
    ensures children == if 0 < startLevel < Height(t) then NodesBefore(t, startLevel + 1) - 1 else 0
  {
    hide HeightTo, NodeCount, WellFormed;
    nodes := 0;
    for level := 0 to startLevel
      invariant nodes == NodesBefore(t, level)
    {
      nodes := nodes + nodeCounts[level];
    }
    if startLevel == 0 || startLevel >= |nodeCounts| {
      children := 0;
    } else {
      SomeNodes(t, startLevel);
      children := nodes + nodeCounts[startLevel] - 1;
    }
  }

  method ItemsPerLevel(labels: seq<seq<Byte>>, height: nat) returns (n: seq<nat>)
    requires height <= |labels|
    ensures |n| == height && forall l :: 0 <= l < height ==> n[l] == |labels[l]|
  {
    n := [];
    for level := 0 to height
      invariant |n| == level && forall l :: 0 <= l < level ==> n[l] == |labels[l]|
    {
      n := n + [|labels[level]|];
    }
  }
}
