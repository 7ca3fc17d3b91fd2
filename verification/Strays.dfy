/**
 The bit of a byte that a dense node does not have. Ranks there count what comes before it, so the
 value index that the code computes from them belongs to the last key that ends before the bit in
 breadth-first order.
 */
module Strays {
  import opened Bits
  import opened Labels
  import opened Levels
  import opened Strands
  import opened Encoding
  import opened DenseEncoding

  /** The node's strands before `m` have a smaller byte than `c`, and those from `m` on a greater one. */
  ghost predicate Parts(t: seq<Strand>, l: nat, i: nat, c: Byte, m: nat)
    requires i < |t|
  {
    i <= m <= NodeEnd(t, l, i) &&
    (forall k :: i <= k < m ==> l < |t[k].key| && t[k].key[l] < c) &&
    (forall k :: m <= k < NodeEnd(t, l, i) ==> l < |t[k].key| && c < t[k].key[l])
  }

  /** A byte that a node does not have parts the node's strands. */
  lemma PartingStrand(t: seq<Strand>, l: nat, i: nat, c: Byte) returns (m: nat)
    requires WellFormed(t) && i < |t| && t[i].InLevel(l)
    requires forall x: nat :: !ItemOf(t, l, i, x, c)
    ensures Parts(t, l, i, c, m)
  {
    m := PartingUpTo(t, l, i, c, NodeEnd(t, l, i));
  }

  lemma {:induction false} PartingUpTo(t: seq<Strand>, l: nat, i: nat, c: Byte, e: nat) returns (m: nat)
    requires WellFormed(t) && i < |t| && t[i].InLevel(l) && i <= e <= NodeEnd(t, l, i)
    requires forall x: nat :: !ItemOf(t, l, i, x, c)
    ensures i <= m <= e
    ensures forall k :: i <= k < m ==> l < |t[k].key| && t[k].key[l] < c
    ensures forall k :: m <= k < e ==> l < |t[k].key| && c < t[k].key[l]
    decreases e
  {
    hide WellFormed, ItemOf;
    if i == e {
      m := e;
    } else {
      m := PartingUpTo(t, l, i, c, e - 1);
      OtherByte(t, l, i, c, e - 1);
      if t[e - 1].key[l] < c {
        forall k | i <= k < e
          ensures l < |t[k].key| && t[k].key[l] < c
        {
          OtherByte(t, l, i, c, k);
          LabelsRise(t, l, k, e - 1);
        }
        m := e;
      }
    }
  }

  /** No strand of the node has the byte. */
  lemma OtherByte(t: seq<Strand>, l: nat, i: nat, c: Byte, k: nat)
    requires WellFormed(t) && i < |t| && t[i].InLevel(l) && i <= k < NodeEnd(t, l, i)
    requires forall x: nat :: !ItemOf(t, l, i, x, c)
    ensures l < t[k].hi && l < |t[k].key| && t[k].key[l] != c
  {
    hide WellFormed, Ones;
    LabelsRise(t, l, i, k);
    var x := Ancestor(t, l, i, k);
    assert !ItemOf(t, l, i, x, c);
  }

  /** The slot of the last item before strand `m` lies before the bit. */
  lemma SlotBefore(t: seq<Strand>, l: nat, i: nat, c: Byte, m: nat)
    requires WellFormed(t) && l < Height(t) && i < |t| && t[i].InLevel(l) && Starts(t, i, l) && Parts(t, l, i, c, m)
    requires 0 < At(t, l, m)
    ensures At(t, l, m) <= |Items(t, l)|
    ensures Slot(t, l, At(t, l, m) - 1) < 256 * Ones(StartFlags(t, l), i) + c
  {
    hide Ones, Positions, Pick, HeightTo, LevelLouds, LevelLabels, StartFlags;
    PickedLevel(t, l, m);
    var j := At(t, l, m) - 1;
    var x := ItemAt(t, l, j);
    if m <= x { AtOrder(t, l, m, x); }
    if i <= x {
      SlotOfItem(t, l, i, x, t[x].key[l]);
    } else {
      LevelEntry(t, l, x);
      PickedLevel(t, l, x + 1);
      StartsSoFar(t, l, j);
      OnesMono(StartFlags(t, l), x + 1, i);
    }
  }

  /** The slot of the first item from strand `m` on lies behind it. */
  lemma SlotBehind(t: seq<Strand>, l: nat, i: nat, c: Byte, m: nat)
    requires WellFormed(t) && l < Height(t) && i < |t| && t[i].InLevel(l) && Starts(t, i, l) && Parts(t, l, i, c, m)
    requires At(t, l, m) < |Items(t, l)|
    ensures 256 * Ones(StartFlags(t, l), i) + c < Slot(t, l, At(t, l, m))
  {
    hide Ones, Positions, Pick, HeightTo, LevelLouds, LevelLabels, StartFlags;
    var j := At(t, l, m);
    var x := ItemAt(t, l, j);
    if x < m { AtOrder(t, l, x, m); }
    if x < NodeEnd(t, l, i) {
      SlotOfItem(t, l, i, x, t[x].key[l]);
    } else {
      LevelEntry(t, l, x);
      PickedLevel(t, l, x + 1);
      StartsSoFar(t, l, j);
      StartsInNode(t, l, i, i);
      OnesMono(StartFlags(t, l), i + 1, x + 1);
      if Ones(StartFlags(t, l), x + 1) == Ones(StartFlags(t, l), i) + 1 { InNode(t, l, i, x); }
    }
  }

  /** Ranks at the bit, in its own level's bitmaps: the items and the children of the strands before `m`. */
  lemma LevelRanksBefore(t: seq<Strand>, l: nat, i: nat, c: Byte, m: nat)
    requires WellFormed(t) && NoTerminators(t) && l < Height(t)
    requires i < |t| && t[i].InLevel(l) && Starts(t, i, l) && Parts(t, l, i, c, m)
    ensures 256 * Ones(StartFlags(t, l), i) + c < 256 * NodeCount(t, l)
    ensures Ones(LevelBitmap(t, l), 256 * Ones(StartFlags(t, l), i) + c + 1) == At(t, l, m)
    ensures Ones(LevelChildBitmap(t, l), 256 * Ones(StartFlags(t, l), i) + c + 1) == Ones(ChildFlags(t, l), m)
  {
    hide Ones, Positions, Pick, HeightTo, Slot, StartFlags, TerminatorAt, Mark, ChildFlags, ItemFlags, At;
    NodeBlock(t, l, i);
    PickedLevel(t, l, m);
    SlotsIncrease(t, l);
    var len, at, j := 256 * NodeCount(t, l), 256 * Ones(StartFlags(t, l), i) + c, At(t, l, m);
    if 0 < j { SlotBefore(t, l, i, c, m); }
    if j < |Items(t, l)| { SlotBehind(t, l, i, c, m); }
    MarkIsMarked(len, Slots(t, l), LabelFlags(t, l));
    MarkIsMarked(len, Slots(t, l), LevelChildren(t, l));
    MarkedOnes(LevelBitmap(t, l), Slots(t, l), LabelFlags(t, l), j, at + 1);
    MarkedOnes(LevelChildBitmap(t, l), Slots(t, l), LevelChildren(t, l), j, at + 1);
    OnesOfAll(LabelFlags(t, l), j);
  }

  /** Ranks at the bit, over all the dense levels. */
  lemma RanksBefore(t: seq<Strand>, s: nat, l: nat, i: nat, c: Byte, m: nat)
    requires WellFormed(t) && NoTerminators(t) && l < s <= Height(t)
    requires i < |t| && t[i].InLevel(l) && Starts(t, i, l) && Parts(t, l, i, c, m)
    ensures DensePlace(t, l, i, c) < |Cat(BitmapLevels(t), 0, s)| == |Cat(ChildBitmapLevels(t), 0, s)|
    ensures Ones(Cat(BitmapLevels(t), 0, s), DensePlace(t, l, i, c) + 1) == Place(t, 0, l, m)
    ensures Ones(Cat(ChildBitmapLevels(t), 0, s), DensePlace(t, l, i, c) + 1) + 1
      == NodesBefore(t, l + 1) + Ones(ChildFlags(t, l), m)
  {
    hide Ones, HeightTo, Cat, LevelBitmap, LevelChildBitmap, StartFlags, NoTerminators, Parts, WellFormed,
         LevelLabels, Items;
    SizedTrie(t);
    NodeBlock(t, l, i);
    LevelRanksBefore(t, l, i, c, m);
    var at := 256 * Ones(StartFlags(t, l), i) + c;
    BitmapLengths(t, l);
    BitmapLengths(t, s);
    BitmapTotals(t, l);
    RootIsOneNode(t);
    CatOnes(BitmapLevels(t), 0, s, l, at + 1);
    CatOnes(ChildBitmapLevels(t), 0, s, l, at + 1);
  }

  /** The leaves above level `l`, and those on it before strand `m`. */
  ghost function LeavesBefore(t: seq<Strand>, l: nat, m: nat): nat
    requires m <= |t|
  {
    LeafOffset(t, 0, l) + Ones(LeafFlags(t, l), m)
  }

  /** The difference of the ranks at the bit is the number of leaves before it. */
  lemma RankDifference(t: seq<Strand>, s: nat, l: nat, i: nat, c: Byte, m: nat)
    requires WellFormed(t) && NoTerminators(t) && l < s <= Height(t)
    requires i < |t| && t[i].InLevel(l) && Starts(t, i, l) && Parts(t, l, i, c, m)
    ensures DensePlace(t, l, i, c) < |Cat(BitmapLevels(t), 0, s)| == |Cat(ChildBitmapLevels(t), 0, s)|
    ensures Ones(Cat(BitmapLevels(t), 0, s), DensePlace(t, l, i, c) + 1)
          - Ones(Cat(ChildBitmapLevels(t), 0, s), DensePlace(t, l, i, c) + 1) == LeavesBefore(t, l, m)
  {
    hide Ones, HeightTo, Cat, LeafOffset, DensePlace, NoTerminators, WellFormed;
    RanksBefore(t, s, l, i, c, m);
    OffsetSplits(t, 0, l);
    RootIsOneNode(t);
    ItemsAreChildrenAndLeaves(t, l, m);
  }

  /** Strand `y` ends above level `l`, or on it and before strand `m`. */
  ghost predicate EndsBefore(t: seq<Strand>, l: nat, m: nat, y: nat) {
    y < |t| && (t[y].hi <= l || (t[y].hi == l + 1 && y < m))
  }

  /** And it is the last such strand in breadth-first order: deepest, and then furthest right. */
  ghost predicate LastBefore(t: seq<Strand>, l: nat, m: nat, y: nat) {
    EndsBefore(t, l, m, y) &&
    forall z: nat :: EndsBefore(t, l, m, z) ==> t[z].hi < t[y].hi || (t[z].hi == t[y].hi && z <= y)
  }

  lemma {:induction false} LastSet(f: seq<bool>, m: nat) returns (y: nat)
    requires m <= |f| && Ones(f, m) > 0
    ensures y < m && f[y] && Ones(f, y) + 1 == Ones(f, m) && forall z :: y < z < m ==> !f[z]
  {
    if f[m - 1] { y := m - 1; } else { y := LastSet(f, m - 1); }
  }

  /** Without a leaf on the level, what ends before a place on it ends before the end of the level above. */
  lemma NoLeafHere(t: seq<Strand>, l: nat, m: nat)
    requires WellFormed(t) && m <= |t| && Ones(LeafFlags(t, l), m) == 0
    ensures l == 0 ==> LeavesBefore(t, l, m) == 0 && forall y: nat :: !EndsBefore(t, l, m, y)
    ensures l > 0 ==> LeavesBefore(t, l, m) == LeavesBefore(t, l - 1, |t|)
    ensures l > 0 ==> forall y: nat :: EndsBefore(t, l, m, y) <==> EndsBefore(t, l - 1, |t|, y)
  {
    forall y: nat | y < |t|
      ensures !(t[y].hi == l + 1 && y < m) && t[y].hi > 0
    {
      assert t[y].Sized();
      if t[y].hi == l + 1 && y < m {
        assert LeafFlags(t, l)[y];
        OnesStrict(LeafFlags(t, l), y, m);
      }
    }
  }

  /** No strand ends before the place exactly when no leaf is counted before it. */
  lemma {:induction false} SomeEndBefore(t: seq<Strand>, l: nat, m: nat)
    requires WellFormed(t) && m <= |t|
    ensures LeavesBefore(t, l, m) == 0 <==> forall y: nat :: !EndsBefore(t, l, m, y)
    decreases l
  {
    hide Ones, LeafOffset;
    if Ones(LeafFlags(t, l), m) > 0 {
      var y := LastSet(LeafFlags(t, l), m);
      assert EndsBefore(t, l, m, y);
    } else {
      NoLeafHere(t, l, m);
      if l > 0 {
        var above, all := l - 1, |t|;
        SomeEndBefore(t, above, all);
        if y: nat :| EndsBefore(t, above, all, y) { assert EndsBefore(t, l, m, y); }
      }
    }
  }

  /** The value at one less than that number is the value of the last strand that ends before the place. */
  lemma {:induction false} ValueBefore(t: seq<Strand>, s: nat, l: nat, m: nat) returns (y: nat)
    requires WellFormed(t) && l < s <= Height(t) && m <= |t| && LeavesBefore(t, l, m) > 0
    ensures LastBefore(t, l, m, y)
    ensures LeavesBefore(t, l, m) <= |Cat(ValueLevels(t), 0, s)|
    ensures Cat(ValueLevels(t), 0, s)[LeavesBefore(t, l, m) - 1] == t[y].value
    decreases l
  {
    hide Ones, LeafOffset, Cat, HeightTo;
    if Ones(LeafFlags(t, l), m) > 0 {
      y := LastSet(LeafFlags(t, l), m);
      LeafEntry(t, 0, s, l, y);
      forall z: nat | EndsBefore(t, l, m, z)
        ensures t[z].hi < t[y].hi || (t[z].hi == t[y].hi && z <= y)
      {
        assert t[z].Sized();
        if y < z < m { assert !LeafFlags(t, l)[z]; }
      }
    } else {
      NoLeafHere(t, l, m);
      y := ValueBefore(t, s, l - 1, |t|);
    }
  }
}
