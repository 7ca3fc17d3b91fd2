/**
 The dense re-encoding of the top levels: 256 bits per node, one per possible byte. A rank in
 a bitmap equals the number of items up to that slot, so the dense levels navigate by the same
 counts as the sparse ones.
 */
module DenseEncoding {
  import opened Bits
  import opened Labels
  import opened Levels
  import opened Strands
  import opened Encoding

  /** The bits that the first `n` marks leave set. */
  ghost function Mark(len: nat, ps: seq<nat>, flags: seq<bool>, n: nat): (b: seq<bool>)
    requires n <= |ps| && n <= |flags|
    ensures |b| == len
  {
    seq(len, x requires 0 <= x < len => exists j :: 0 <= j < n && ps[j] == x && flags[j])
  }

  lemma MarkIsMarked(len: nat, ps: seq<nat>, flags: seq<bool>)
    requires |flags| == |ps| && IncreasingIn(ps, len)
    ensures Marked(Mark(len, ps, flags, |ps|), ps, flags)
  {
  }

  lemma MarkStep(len: nat, ps: seq<nat>, flags: seq<bool>, n: nat)
    requires n < |ps| && n < |flags| && ps[n] < len
    ensures Mark(len, ps, flags, n + 1) == if flags[n] then Mark(len, ps, flags, n)[ps[n] := true]
      else Mark(len, ps, flags, n)
  {
    var was, now := Mark(len, ps, flags, n), Mark(len, ps, flags, n + 1);
    forall x | 0 <= x < len
      ensures now[x] == ((x == ps[n] && flags[n]) || was[x])
    {
      if was[x] {
        var j :| 0 <= j < n && ps[j] == x && flags[j];
        assert 0 <= j < n + 1 && ps[j] == x && flags[j];
      }
    }
    assert flags[n] ==> now == was[ps[n] := true];
    assert !flags[n] ==> now == was;
  }

  /** Nodes are numbered from 0, starts are counted from 1. */
  function LessOne(n: nat): nat { if n == 0 then 0 else n - 1 }

  /** Which node of its level the j-th item belongs to. */
  ghost function NodeOfItem(t: seq<Strand>, l: nat, j: nat): nat
    requires j < |Items(t, l)|
  {
    LessOne(Ones(LevelLouds(t, l), j + 1))
  }

  /** The bit that stands for the j-th item. */
  ghost function Slot(t: seq<Strand>, l: nat, j: nat): nat
    requires AllSized(t) && j < |Items(t, l)|
  {
    256 * NodeOfItem(t, l, j) + LevelLabels(t, l)[j]
  }

  ghost function Slots(t: seq<Strand>, l: nat): (r: seq<nat>)
    requires AllSized(t)
    ensures |r| == |Items(t, l)|
  {
    seq(|Items(t, l)|, j requires 0 <= j < |Items(t, l)| => Slot(t, l, j))
  }

  ghost function NodesOfItems(t: seq<Strand>, l: nat): (r: seq<nat>)
    ensures |r| == |Items(t, l)|
  {
    seq(|Items(t, l)|, j requires 0 <= j < |Items(t, l)| => NodeOfItem(t, l, j))
  }

  /** The j-th item is what the builder takes for a prefix key: a childless 255 that starts its node. */
  ghost predicate TerminatorAt(t: seq<Strand>, l: nat, j: nat)
    requires AllSized(t) && j < |Items(t, l)|
  {
    LevelLouds(t, l)[j] && LevelLabels(t, l)[j] == TERMINATOR && !LevelChildren(t, l)[j]
  }

  ghost function TerminatorFlags(t: seq<Strand>, l: nat): (r: seq<bool>)
    requires AllSized(t)
    ensures |r| == |Items(t, l)|
  {
    seq(|Items(t, l)|, j requires 0 <= j < |Items(t, l)| => TerminatorAt(t, l, j))
  }

  ghost function LabelFlags(t: seq<Strand>, l: nat): (r: seq<bool>)
    requires AllSized(t)
    ensures |r| == |Items(t, l)|
  {
    seq(|Items(t, l)|, j requires 0 <= j < |Items(t, l)| => !TerminatorAt(t, l, j))
  }

  ghost function LevelBitmap(t: seq<Strand>, l: nat): (b: seq<bool>)
    requires AllSized(t)
    ensures |b| == 256 * NodeCount(t, l)
  {
    Mark(256 * NodeCount(t, l), Slots(t, l), LabelFlags(t, l), |Items(t, l)|)
  }

  ghost function LevelChildBitmap(t: seq<Strand>, l: nat): (b: seq<bool>)
    requires AllSized(t)
    ensures |b| == 256 * NodeCount(t, l)
  {
    Mark(256 * NodeCount(t, l), Slots(t, l), LevelChildren(t, l), |Items(t, l)|)
  }

  ghost function LevelPrefixBits(t: seq<Strand>, l: nat): (b: seq<bool>)
    requires AllSized(t)
    ensures |b| == NodeCount(t, l)
  {
    Mark(NodeCount(t, l), NodesOfItems(t, l), TerminatorFlags(t, l), |Items(t, l)|)
  }

  ghost function BitmapLevels(t: seq<Strand>): seq<seq<bool>>
    requires AllSized(t)
  {
    seq(Height(t), l requires l >= 0 => LevelBitmap(t, l))
  }
  ghost function ChildBitmapLevels(t: seq<Strand>): seq<seq<bool>>
    requires AllSized(t)
  {
    seq(Height(t), l requires l >= 0 => LevelChildBitmap(t, l))
  }
  ghost function PrefixLevels(t: seq<Strand>): seq<seq<bool>>
    requires AllSized(t)
  {
    seq(Height(t), l requires l >= 0 => LevelPrefixBits(t, l))
  }

  /** The builder never takes an item for a prefix key. */
  ghost predicate NoTerminators(t: seq<Strand>)
    requires AllSized(t)
  {
    forall l, j | 0 <= l < Height(t) && 0 <= j < |Items(t, l)| :: !TerminatorAt(t, l, j)
  }

  /** An item is taken for a prefix key exactly when it is a childless 255 at the head of its node. */
  lemma TerminatorMeans(t: seq<Strand>, l: nat, j: nat) returns (x: nat)
    requires AllSized(t) && j < |Items(t, l)|
    ensures x < |t| && t[x].InLevel(l)
    ensures TerminatorAt(t, l, j) <==> Starts(t, x, l) && t[x].key[l] == TERMINATOR && !t[x].HasChild(l)
  {
    hide Ones, Positions, Pick, HeightTo;
    x := ItemAt(t, l, j);
    LevelEntry(t, l, x);
  }

  /** With two keys or more that never happens, whatever bytes they hold. */
  lemma TwoKeysNoTerminators(t: seq<Strand>)
    requires WellFormed(t) && Minimal(t) && |t| >= 2
    ensures NoTerminators(t)
  {
    hide Ones, Positions, Pick, HeightTo, TerminatorAt, Items;
    forall l, j | 0 <= l < Height(t) && 0 <= j < |Items(t, l)|
      ensures !TerminatorAt(t, l, j)
    {
      var x := TerminatorMeans(t, l, j);
      if !t[x].HasChild(l) { SiblingIsGreater(t, l, x); }
    }
  }

  /** A childless item at the head of its node is followed by a greater label. */
  lemma SiblingIsGreater(t: seq<Strand>, l: nat, x: nat)
    requires WellFormed(t) && Minimal(t) && |t| >= 2 && x < |t| && t[x].InLevel(l) && !t[x].HasChild(l)
    ensures Starts(t, x, l) ==> t[x].key[l] < TERMINATOR
  {
    LeafHasSibling(t, x);
    if Starts(t, x, l) {
      assert Follows(t[x], t[x + 1]);
    }
  }

  /** With one key it happens exactly when that key begins with 255. */
  lemma OneKeyTerminator(t: seq<Strand>)
    requires WellFormed(t) && Minimal(t) && |t| == 1
    ensures NoTerminators(t) <==> t[0].key[0] != TERMINATOR
  {
    hide Ones, Positions, Pick, HeightTo, TerminatorAt, Items;
    assert t[0].hi == 1 + Max(t[0].lo, NextLo(t, 0));
    forall l, j | 0 <= l < Height(t) && 0 <= j < |Items(t, l)|
      ensures TerminatorAt(t, l, j) <==> t[0].key[0] == TERMINATOR
    {
      var x := TerminatorMeans(t, l, j);
    }
    LevelEntry(t, 0, 0);
    assert TerminatorAt(t, 0, At(t, 0, 0)) <==> t[0].key[0] == TERMINATOR;
  }

  /** Slots increase with the items, and each level's slots stay inside its nodes. */
  lemma SlotsIncrease(t: seq<Strand>, l: nat)
    requires WellFormed(t) && l < Height(t)
    ensures IncreasingIn(Slots(t, l), 256 * NodeCount(t, l))
  {
    hide Ones, Positions, Pick, HeightTo;
    forall j | 0 <= j < |Items(t, l)|
      ensures Slot(t, l, j) < 256 * NodeCount(t, l)
    {
      StartsSoFar(t, l, j);
    }
    forall i, j | 0 <= i < j < |Items(t, l)|
      ensures Slot(t, l, i) < Slot(t, l, j)
    {
      SlotOrder(t, l, i, j);
    }
  }

  lemma StartsSoFar(t: seq<Strand>, l: nat, j: nat)
    requires WellFormed(t) && l < Height(t) && j < |Items(t, l)|
    ensures 1 <= Ones(LevelLouds(t, l), j + 1) <= NodeCount(t, l)
  {
    FirstStarts(t, l);
    OnesStrict(LevelLouds(t, l), 0, j + 1);
    OnesMono(LevelLouds(t, l), j + 1, |Items(t, l)|);
    PickedLevel(t, l, |t|);
  }

  lemma {:induction false} SlotOrder(t: seq<Strand>, l: nat, i: nat, j: nat)
    requires WellFormed(t) && l < Height(t) && i < j < |Items(t, l)|
    ensures Slot(t, l, i) < Slot(t, l, j)
    decreases j
  {
    hide Positions, Pick, HeightTo, Ones, LevelLouds, LevelLabels, Items, WellFormed;
    SizedTrie(t);
    StartsSoFar(t, l, i);
    StartsSoFar(t, l, j - 1);
    OneMoreStart(t, l, j);
    if i < j - 1 { SlotOrder(t, l, i, j - 1); }
    var x := ItemAt(t, l, j - 1);
    var y := ItemAt(t, l, j);
    LevelEntry(t, l, x);
    LevelEntry(t, l, y);
    if !LevelLouds(t, l)[j] {
      NeighbourItems(t, l, x, y);
    }
  }

  lemma OneMoreStart(t: seq<Strand>, l: nat, j: nat)
    requires j < |Items(t, l)|
    ensures Ones(LevelLouds(t, l), j + 1) == Ones(LevelLouds(t, l), j) + Bit(LevelLouds(t, l)[j])
  {
  }

  /** Two neighbouring items of one node. */
  lemma NeighbourItems(t: seq<Strand>, l: nat, x: nat, y: nat)
    requires WellFormed(t) && x < |t| && y < |t| && t[x].InLevel(l) && t[y].InLevel(l)
    requires At(t, l, y) == At(t, l, x) + 1 && !Starts(t, y, l)
    ensures x < y && t[x].key[l] < t[y].key[l]
  {
    if y <= x { AtOrder(t, l, y, x); }
    forall z | x < z < y
      ensures !t[z].InLevel(l)
    {
      AtOrder(t, l, x, z);
      AtOrder(t, l, z, y);
    }
    var e := NodeEnd(t, l, x);
    if e <= y { NextItemStarts(t, l, e, y); }
    LabelsRise(t, l, x, y);
  }

  /** In one level's bitmap, rank at an item's slot counts the items up to it. */
  lemma BitmapRank(t: seq<Strand>, l: nat, j: nat, flags: seq<bool>)
    requires WellFormed(t) && l < Height(t) && j < |Items(t, l)| && |flags| == |Items(t, l)|
    ensures Slot(t, l, j) < 256 * NodeCount(t, l)
    ensures Ones(Mark(256 * NodeCount(t, l), Slots(t, l), flags, |Items(t, l)|), Slot(t, l, j) + 1)
      == Ones(flags, j + 1)
  {
    hide Ones, Positions, Pick, HeightTo, Slot;
    SlotsIncrease(t, l);
    assert Slots(t, l)[j] == Slot(t, l, j);
    MarkIsMarked(256 * NodeCount(t, l), Slots(t, l), flags);
    if j + 1 < |Items(t, l)| { assert Slots(t, l)[j] < Slots(t, l)[j + 1]; }
    MarkedOnes(Mark(256 * NodeCount(t, l), Slots(t, l), flags, |Items(t, l)|), Slots(t, l), flags, j + 1,
      Slot(t, l, j) + 1);
  }

  lemma BitmapTotal(t: seq<Strand>, l: nat, flags: seq<bool>)
    requires WellFormed(t) && l < Height(t) && |flags| == |Items(t, l)|
    ensures Ones(Mark(256 * NodeCount(t, l), Slots(t, l), flags, |Items(t, l)|), 256 * NodeCount(t, l))
      == Ones(flags, |flags|)
  {
    hide Ones, Positions, Pick, HeightTo, Slot;
    SlotsIncrease(t, l);
    MarkIsMarked(256 * NodeCount(t, l), Slots(t, l), flags);
    MarkedOnes(Mark(256 * NodeCount(t, l), Slots(t, l), flags, |Items(t, l)|), Slots(t, l), flags, |flags|,
      256 * NodeCount(t, l));
  }

  lemma {:induction false} OnesOfAll(flags: seq<bool>, m: nat)
    requires m <= |flags| && forall j :: 0 <= j < |flags| ==> flags[j]
    ensures Ones(flags, m) == m
  {
    if m > 0 { OnesOfAll(flags, m - 1); }
  }

  lemma {:induction false} BitmapLengths(t: seq<Strand>, l: nat)
    requires AllSized(t) && l <= Height(t)
    ensures |Cat(BitmapLevels(t), 0, l)| == |Cat(ChildBitmapLevels(t), 0, l)| == 256 * NodesBefore(t, l)
    ensures |Cat(PrefixLevels(t), 0, l)| == NodesBefore(t, l)
  {
    hide Ones, Positions, Pick, HeightTo, LevelBitmap, LevelChildBitmap, LevelPrefixBits;
    if l > 0 { BitmapLengths(t, l - 1); }
  }

  lemma LevelTotals(t: seq<Strand>, l: nat)
    requires WellFormed(t) && NoTerminators(t) && l < Height(t)
    ensures Ones(LevelBitmap(t, l), 256 * NodeCount(t, l)) == |Items(t, l)|
    ensures Ones(LevelChildBitmap(t, l), 256 * NodeCount(t, l)) == NodeCount(t, l + 1)
  {
    hide Ones, Positions, Pick, HeightTo, Mark, Slots, ItemFlags, TerminatorAt;
    BitmapTotal(t, l, LabelFlags(t, l));
    BitmapTotal(t, l, LevelChildren(t, l));
    OnesOfAll(LabelFlags(t, l), |Items(t, l)|);
    PickedLevel(t, l, |t|);
    ChildrenStartNodes(t, l);
  }

  lemma {:induction false} BitmapTotals(t: seq<Strand>, l: nat)
    requires WellFormed(t) && NoTerminators(t) && l <= Height(t)
    ensures Ones(Cat(BitmapLevels(t), 0, l), |Cat(BitmapLevels(t), 0, l)|) == Offset(t, 0, l)
    ensures Ones(Cat(ChildBitmapLevels(t), 0, l), |Cat(ChildBitmapLevels(t), 0, l)|) + NodesBefore(t, 1)
      == NodesBefore(t, l + 1)
  {
    hide HeightTo, LevelBitmap, LevelChildBitmap, NodeCount, Items, NoTerminators;
    if l > 0 {
      BitmapTotals(t, l - 1);
      OnesOfAppend(Cat(BitmapLevels(t), 0, l - 1), LevelBitmap(t, l - 1), 256 * NodeCount(t, l - 1));
      OnesOfAppend(Cat(ChildBitmapLevels(t), 0, l - 1), LevelChildBitmap(t, l - 1), 256 * NodeCount(t, l - 1));
      LevelTotals(t, l - 1);
    }
  }

  lemma RootIsOneNode(t: seq<Strand>)
    requires WellFormed(t) && |t| > 0
    ensures NodesBefore(t, 1) == 1 && NodeNum(t, 0, 0) == 0
    ensures t[0].InLevel(0) && Starts(t, 0, 0)
  {
    OnesZero(StartFlags(t, 0), 1, |t|);
    assert Ones(StartFlags(t, 0), 1) == 1;
    assert NodesBefore(t, 1) == NodesBefore(t, 0) + NodeCount(t, 0);
  }

  /** The bit of byte `c` in the node that strand `i` starts at level `l`. */
  ghost function DensePlace(t: seq<Strand>, l: nat, i: nat, c: Byte): nat
    requires i <= |t|
  {
    256 * NodeNum(t, l, i) + c
  }

  /** Within a node only its first strand starts a node of that level. */
  lemma StartsInNode(t: seq<Strand>, l: nat, i: nat, x: nat)
    requires WellFormed(t) && i < |t| && t[i].InLevel(l) && Starts(t, i, l) && i <= x < NodeEnd(t, l, i)
    ensures Ones(StartFlags(t, l), x + 1) == Ones(StartFlags(t, l), i) + 1
  {
    assert Ones(StartFlags(t, l), i + 1) == Ones(StartFlags(t, l), i) + 1;
    OnesZero(StartFlags(t, l), i + 1, x + 1);
  }

  /** An item's slot, seen from its node. */
  lemma SlotOfItem(t: seq<Strand>, l: nat, i: nat, x: nat, c: Byte)
    requires WellFormed(t) && i < |t| && t[i].InLevel(l) && Starts(t, i, l) && ItemOf(t, l, i, x, c)
    ensures l < Height(t) && At(t, l, x) < |Items(t, l)|
    ensures Slot(t, l, At(t, l, x)) == 256 * Ones(StartFlags(t, l), i) + c
  {
    hide Ones, Positions, Pick, HeightTo, StartFlags, LevelLouds, LevelLabels;
    LevelEntry(t, l, x);
    StartsInNode(t, l, i, x);
    PickedLevel(t, l, x + 1);
  }

  /** A slot that lands in a node's block comes from one of the node's items. */
  lemma ItemOfSlot(t: seq<Strand>, l: nat, i: nat, c: Byte, j: nat)
    requires WellFormed(t) && i < |t| && t[i].InLevel(l) && Starts(t, i, l) && j < |Items(t, l)| && l < Height(t)
    requires Slot(t, l, j) == 256 * Ones(StartFlags(t, l), i) + c
    ensures ItemOf(t, l, i, Items(t, l)[j], c)
  {
    hide Ones, Positions, Pick, HeightTo, StartFlags, LevelLouds, LevelLabels;
    var x := ItemAt(t, l, j);
    LevelEntry(t, l, x);
    PickedLevel(t, l, x + 1);
    StartsSoFar(t, l, j);
    InNode(t, l, i, x);
  }

  /** An item that comes after exactly the starts up to its node's start lies in the node. */
  lemma InNode(t: seq<Strand>, l: nat, i: nat, x: nat)
    requires WellFormed(t) && i < |t| && t[i].InLevel(l) && Starts(t, i, l) && x < |t| && t[x].InLevel(l)
    requires Ones(StartFlags(t, l), x + 1) == Ones(StartFlags(t, l), i) + 1
    ensures i <= x < NodeEnd(t, l, i)
  {
    hide Ones;
    var f := StartFlags(t, l);
    if x < i { OnesMono(f, x + 1, i); }
    var e := NodeEnd(t, l, i);
    if e <= x {
      var y := FirstItemFrom(t, l, e, x);
      NextItemStarts(t, l, e, y);
      StartsInNode(t, l, i, e - 1);
      OnesStrict(f, y, x + 1);
      OnesMono(f, e, y);
    }
  }

  lemma {:induction false} FirstItemFrom(t: seq<Strand>, l: nat, e: nat, x: nat) returns (y: nat)
    requires e <= x < |t| && t[x].InLevel(l)
    ensures e <= y <= x && t[y].InLevel(l) && forall z :: e <= z < y ==> !t[z].InLevel(l)
    decreases x - e
  {
    if t[e].InLevel(l) { y := e; } else { y := FirstItemFrom(t, l, e + 1, x); }
  }

  /** Reading the two bitmaps at a node's byte: the label bit is set exactly for the node's items. */
  lemma DenseBits(t: seq<Strand>, s: nat, l: nat, i: nat, c: Byte)
    requires WellFormed(t) && NoTerminators(t) && l < s <= Height(t)
    requires i < |t| && t[i].InLevel(l) && Starts(t, i, l)
    ensures DensePlace(t, l, i, c) < |Cat(BitmapLevels(t), 0, s)| == |Cat(ChildBitmapLevels(t), 0, s)|
    ensures Cat(BitmapLevels(t), 0, s)[DensePlace(t, l, i, c)] <==> exists x: nat :: ItemOf(t, l, i, x, c)
    ensures Cat(ChildBitmapLevels(t), 0, s)[DensePlace(t, l, i, c)] ==> exists x: nat :: ItemOf(t, l, i, x, c)
    ensures forall x: nat :: ItemOf(t, l, i, x, c) ==>
      (Cat(ChildBitmapLevels(t), 0, s)[DensePlace(t, l, i, c)] <==> t[x].HasChild(l))
  {
    hide Ones, Positions, Pick, HeightTo, Cat, Slot, Mark, StartFlags, TerminatorAt;
    NodeBlock(t, l, i);
    var at := 256 * Ones(StartFlags(t, l), i) + c;
    BitmapLengths(t, l);
    BitmapLengths(t, s);
    CatAt(BitmapLevels(t), 0, s, l, at);
    CatAt(ChildBitmapLevels(t), 0, s, l, at);
    LevelBits(t, l, i, c);
  }

  lemma NodeBlock(t: seq<Strand>, l: nat, i: nat)
    requires i < |t| && t[i].InLevel(l) && Starts(t, i, l)
    ensures Ones(StartFlags(t, l), i) < NodeCount(t, l)
  {
    OnesStrict(StartFlags(t, l), i, |t|);
  }

  lemma LevelBits(t: seq<Strand>, l: nat, i: nat, c: Byte)
    requires WellFormed(t) && NoTerminators(t) && l < Height(t)
    requires i < |t| && t[i].InLevel(l) && Starts(t, i, l)
    ensures 256 * Ones(StartFlags(t, l), i) + c < 256 * NodeCount(t, l)
    ensures LevelBitmap(t, l)[256 * Ones(StartFlags(t, l), i) + c] <==> exists x: nat :: ItemOf(t, l, i, x, c)
    ensures LevelChildBitmap(t, l)[256 * Ones(StartFlags(t, l), i) + c] ==> exists x: nat :: ItemOf(t, l, i, x, c)
    ensures forall x: nat :: ItemOf(t, l, i, x, c) ==>
      (LevelChildBitmap(t, l)[256 * Ones(StartFlags(t, l), i) + c] <==> t[x].HasChild(l))
  {
    hide Ones, Positions, Pick, HeightTo, Slot, StartFlags, TerminatorAt, Items;
    NodeBlock(t, l, i);
    var at := 256 * Ones(StartFlags(t, l), i) + c;
    SlotsIncrease(t, l);
    MarkIsMarked(256 * NodeCount(t, l), Slots(t, l), LabelFlags(t, l));
    MarkIsMarked(256 * NodeCount(t, l), Slots(t, l), LevelChildren(t, l));
    if LevelChildBitmap(t, l)[at] {
      var j :| 0 <= j < |Slots(t, l)| && Slots(t, l)[j] == at;
      ItemOfSlot(t, l, i, c, j);
    }
    if LevelBitmap(t, l)[at] {
      var j :| 0 <= j < |Slots(t, l)| && Slots(t, l)[j] == at;
      ItemOfSlot(t, l, i, c, j);
    }
    forall x: nat | ItemOf(t, l, i, x, c)
      ensures LevelBitmap(t, l)[at] && (LevelChildBitmap(t, l)[at] <==> t[x].HasChild(l))
    {
      SlotOfItem(t, l, i, x, c);
      LevelEntry(t, l, x);
      assert Slots(t, l)[At(t, l, x)] == at;
    }
  }

  /** Ranks at an item's bit, over all the dense levels. */
  lemma DenseRanks(t: seq<Strand>, s: nat, l: nat, i: nat, x: nat, c: Byte)
    requires WellFormed(t) && NoTerminators(t) && l < s <= Height(t)
    requires i < |t| && t[i].InLevel(l) && Starts(t, i, l) && ItemOf(t, l, i, x, c)
    ensures DensePlace(t, l, i, c) < |Cat(BitmapLevels(t), 0, s)| == |Cat(ChildBitmapLevels(t), 0, s)|
    ensures Ones(Cat(BitmapLevels(t), 0, s), DensePlace(t, l, i, c) + 1) == Place(t, 0, l, x) + 1
    ensures Ones(Cat(ChildBitmapLevels(t), 0, s), DensePlace(t, l, i, c) + 1) + 1
      == NodesBefore(t, l + 1) + Ones(ChildFlags(t, l), x + 1)
  {
    hide Ones, HeightTo, Cat, LevelBitmap, LevelChildBitmap, StartFlags, NoTerminators, ItemOf, WellFormed,
         LevelLabels, Items;
    SizedTrie(t);
    NodeBlock(t, l, i);
    LevelRanks(t, l, i, x, c);
    var at := 256 * Ones(StartFlags(t, l), i) + c;
    BitmapLengths(t, l);
    BitmapLengths(t, s);
    BitmapTotals(t, l);
    RootIsOneNode(t);
    CatOnes(BitmapLevels(t), 0, s, l, at + 1);
    CatOnes(ChildBitmapLevels(t), 0, s, l, at + 1);
  }

  lemma SizedTrie(t: seq<Strand>)
    requires WellFormed(t)
    ensures AllSized(t)
  {
  }

  /** In its own level's bitmaps. */
  lemma LevelRanks(t: seq<Strand>, l: nat, i: nat, x: nat, c: Byte)
    requires WellFormed(t) && NoTerminators(t) && l < Height(t)
    requires i < |t| && t[i].InLevel(l) && Starts(t, i, l) && ItemOf(t, l, i, x, c)
    ensures x < |t| && 256 * Ones(StartFlags(t, l), i) + c < 256 * NodeCount(t, l)
    ensures Ones(LevelBitmap(t, l), 256 * Ones(StartFlags(t, l), i) + c + 1) == At(t, l, x) + 1
    ensures Ones(LevelChildBitmap(t, l), 256 * Ones(StartFlags(t, l), i) + c + 1) == Ones(ChildFlags(t, l), x + 1)
  {
    hide Ones, Positions, Pick, HeightTo, Slot, Mark, StartFlags, TerminatorAt;
    NodeBlock(t, l, i);
    SlotOfItem(t, l, i, x, c);
    LevelEntry(t, l, x);
    var j := At(t, l, x);
    BitmapRank(t, l, j, LabelFlags(t, l));
    BitmapRank(t, l, j, LevelChildren(t, l));
    OnesOfAll(LabelFlags(t, l), j + 1);
    PickedLevel(t, l, x + 1);
  }

  /** A dense child's number is a plain rank; it is never 0, so 0 can stand for "finished". */
  lemma DenseChild(t: seq<Strand>, s: nat, l: nat, i: nat, x: nat, c: Byte)
    requires WellFormed(t) && NoTerminators(t) && l < s <= Height(t)
    requires i < |t| && t[i].InLevel(l) && Starts(t, i, l) && ItemOf(t, l, i, x, c) && t[x].HasChild(l)
    ensures DensePlace(t, l, i, c) < |Cat(ChildBitmapLevels(t), 0, s)|
    ensures NodeNum(t, l + 1, x) == Ones(Cat(ChildBitmapLevels(t), 0, s), DensePlace(t, l, i, c) + 1)
    ensures NodeNum(t, l + 1, x) > 0 && t[x].InLevel(l + 1) && Starts(t, x, l + 1)
  {
    hide Positions, Pick, HeightTo, Cat, Slot, Mark, TerminatorAt;
    DenseRanks(t, s, l, i, x, c);
    ChildrenStartNodes(t, l);
    RootIsOneNode(t);
    NodesBeforeMono(t, 1, l + 1);
    assert Ones(ChildFlags(t, l), x + 1) == Ones(ChildFlags(t, l), x) + 1;
  }

  /** The difference of the two ranks, less one, is the leaf's place in the dense values. */
  lemma DenseValue(t: seq<Strand>, s: nat, l: nat, i: nat, x: nat, c: Byte)
    requires WellFormed(t) && NoTerminators(t) && l < s <= Height(t)
    requires i < |t| && t[i].InLevel(l) && Starts(t, i, l) && ItemOf(t, l, i, x, c) && !t[x].HasChild(l)
    ensures DensePlace(t, l, i, c) < |Cat(BitmapLevels(t), 0, s)| == |Cat(ChildBitmapLevels(t), 0, s)|
    ensures LeafOffset(t, 0, l) + Ones(LeafFlags(t, l), x) < |Cat(ValueLevels(t), 0, s)|
    ensures Cat(ValueLevels(t), 0, s)[LeafOffset(t, 0, l) + Ones(LeafFlags(t, l), x)] == t[x].value
    ensures Ones(Cat(BitmapLevels(t), 0, s), DensePlace(t, l, i, c) + 1)
          - Ones(Cat(ChildBitmapLevels(t), 0, s), DensePlace(t, l, i, c) + 1) - 1
          == LeafOffset(t, 0, l) + Ones(LeafFlags(t, l), x)
  {
    hide Pick, HeightTo, Cat, Slot, Mark, TerminatorAt, LeafOffset, DensePlace;
    DenseRanks(t, s, l, i, x, c);
    OffsetSplits(t, 0, l);
    RootIsOneNode(t);
    ItemsAreChildrenAndLeaves(t, l, x);
    assert Ones(ChildFlags(t, l), x + 1) == Ones(ChildFlags(t, l), x);
    LeafEntry(t, 0, s, l, x);
  }

  /** With a terminator the root's bitmap is empty: the only key has no label bit. */
  lemma TerminatorHidesKey(t: seq<Strand>, s: nat, c: Byte)
    requires WellFormed(t) && Minimal(t) && |t| > 0 && !NoTerminators(t) && 1 <= s <= Height(t)
    ensures |t| == 1 && NodeNum(t, 0, 0) == 0 && c < |Cat(BitmapLevels(t), 0, s)|
    ensures !Cat(BitmapLevels(t), 0, s)[c]
  {
    hide Ones, Positions, Pick, Cat, TerminatorAt, Items, NodeCount, Slots, Minimal, NoTerminators;
    if |t| >= 2 { TwoKeysNoTerminators(t); }
    OneKeyTerminator(t);
    RootIsOneNode(t);
    BitmapLengths(t, 1);
    BitmapLengths(t, s);
    BitmapLengths(t, 0);
    CatLength(BitmapLevels(t), 0, 1, s);
    CatAt(BitmapLevels(t), 0, s, 0, c);
    forall j | 0 <= j < |Items(t, 0)|
      ensures !LabelFlags(t, 0)[j]
    {
      var x := TerminatorMeans(t, 0, j);
      OneKeyHeight(t);
    }
  }

  /** Instead its one node has the prefix-key bit. */
  lemma TerminatorHasBit(t: seq<Strand>)
    requires WellFormed(t) && Minimal(t) && |t| == 1
    ensures Height(t) == 1 && |Cat(PrefixLevels(t), 0, 1)| == 1
    ensures Cat(PrefixLevels(t), 0, 1)[0] <==> t[0].key[0] == TERMINATOR
  {
    hide Ones, Positions, Pick, Cat, TerminatorAt, Items, Minimal, HeightTo;
    OneKeyHeight(t);
    RootIsOneNode(t);
    LevelEntry(t, 0, 0);
    PickedLevel(t, 0, 1);
    BitmapLengths(t, 1);
    BitmapLengths(t, 0);
    CatAt(PrefixLevels(t), 0, 1, 0, 0);
    forall j | 0 <= j < |Items(t, 0)|
      ensures NodesOfItems(t, 0)[j] == 0 && (TerminatorFlags(t, 0)[j] <==> t[0].key[0] == TERMINATOR)
    {
      StartsSoFar(t, 0, j);
      var x := TerminatorMeans(t, 0, j);
    }
    assert NodesOfItems(t, 0)[At(t, 0, 0)] == 0;
  }

  lemma OneKeyHeight(t: seq<Strand>)
    requires WellFormed(t) && Minimal(t) && |t| == 1
    ensures t[0].hi == 1 && Height(t) == 1
  {
    assert t[0].hi == 1 + Max(t[0].lo, NextLo(t, 0));
  }
}
