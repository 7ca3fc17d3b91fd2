/**
 The iterator over the dense levels (LoudsDense::Iter). It keeps the bits of the current key's
 items level by level, and per level a value cursor that is ranked once and then only counted up.
 */
module DenseIter {
  import opened Bits
  import opened Labels
  import opened Levels
  import opened Strands
  import opened Encoding
  import opened DenseEncoding
  import opened Paths
  import opened Bitvectors
  import opened LoudsDense

  class Iter {
    const trie: LoudsDense
    var isValid: bool
    var isSearchComplete: bool
    var isMoveLeftComplete: bool
    var isMoveRightComplete: bool
    var sendOutNodeNum: nat
    var keyLen: nat
    var key: seq<Byte>
    var posInTrie: seq<nat>
    var valuePos: seq<nat>
    var valuePosInitialized: seq<bool>
    var isAtPrefixKey: bool

    constructor (trie: LoudsDense)
      ensures this.trie == trie && Sized() && keyLen == 0 && !isValid && !isAtPrefixKey
      ensures forall t: seq<Strand> :: Cursor(t, 0)
      ensures forall j :: 0 <= j < |valuePosInitialized| ==> !valuePosInitialized[j]
    {
      this.trie := trie;
      isValid, isSearchComplete, isMoveLeftComplete, isMoveRightComplete := false, false, false, false;
      sendOutNodeNum, keyLen, isAtPrefixKey := 0, 0, false;
      key := seq(trie.height, _ => 0);
      posInTrie := seq(trie.height, _ => 0);
      valuePos := seq(trie.height, _ => 0);
      valuePosInitialized := seq(trie.height, _ => false);
    }

    ghost predicate Sized()
      reads this
    {
      |key| == |posInTrie| == |valuePos| == |valuePosInitialized| == trie.height && keyLen <= trie.height
    }

    /** The first `len` levels stand on strand `k`. */
    ghost predicate PathTo(t: seq<Strand>, k: nat, len: nat)
      reads this
    {
      Sized() && keyLen == len && k < |t| && len <= |t[k].key| &&
      forall l :: 0 <= l < len ==> key[l] == t[k].key[l] && posInTrie[l] == DensePos(t, l, k)
    }

    /** Every cursor that is in use counts the leaves of its level among the first `m` strands. */
    ghost predicate Cursor(t: seq<Strand>, m: nat)
      reads `valuePos, `valuePosInitialized
    {
      m <= |t| && |valuePos| == |valuePosInitialized| &&
      forall l :: 0 <= l < |valuePos| && valuePosInitialized[l] ==>
        valuePos[l] + 1 == LeafOffset(t, 0, l) + Ones(LeafFlags(t, l), m)
    }

    /** All three parts of the move are done: the iterator stands on a key that ends here. */
    predicate IsComplete()
      reads this
    {
      isSearchComplete && isMoveLeftComplete && isMoveRightComplete
    }

    method SetFlags(valid: bool, searchComplete: bool, moveLeftComplete: bool, moveRightComplete: bool)
      modifies `isValid, `isSearchComplete, `isMoveLeftComplete, `isMoveRightComplete
      ensures isValid == valid && isSearchComplete == searchComplete
      ensures isMoveLeftComplete == moveLeftComplete && isMoveRightComplete == moveRightComplete
    {
      isValid, isSearchComplete := valid, searchComplete;
      isMoveLeftComplete, isMoveRightComplete := moveLeftComplete, moveRightComplete;
    }

    method Append(pos: nat)
      requires Sized() && keyLen < trie.height
      modifies `key, `posInTrie, `keyLen
      ensures Sized() && keyLen == old(keyLen) + 1
      ensures key == old(key)[old(keyLen) := pos % 256] && posInTrie == old(posInTrie)[old(keyLen) := pos]
    {
      key := key[keyLen := pos % 256];
      posInTrie := posInTrie[keyLen := pos];
      keyLen := keyLen + 1;
    }

    method Set(level: nat, pos: nat)
      requires Sized() && level < trie.height
      modifies `key, `posInTrie
      ensures Sized() && key == old(key)[level := pos % 256] && posInTrie == old(posInTrie)[level := pos]
    {
      key := key[level := pos % 256];
      posInTrie := posInTrie[level := pos];
    }

    /** Counts the level's value cursor up, or ranks it when the level is entered for the first time. */
    method RankValuePosition(pos: nat, ghost t: seq<Strand>, ghost k: nat, ghost i: nat)
      requires trie.Encodes(t) && NoTerminators(t) && keyLen > 0 && PathTo(t, k, keyLen)
      requires Cursor(t, k) && keyLen == t[k].hi && t[k].InLevel(keyLen - 1) && i <= k
      requires t[i].InLevel(keyLen - 1) && Starts(t, i, keyLen - 1) && ItemOf(t, keyLen - 1, i, k, t[k].key[keyLen - 1])
      requires pos == DensePlace(t, keyLen - 1, i, t[k].key[keyLen - 1])
      modifies `valuePos, `valuePosInitialized
      ensures PathTo(t, k, keyLen) && Cursor(t, k + 1)
      ensures valuePosInitialized[keyLen - 1]
    {
      hide Ones, HeightTo, WellFormed, NoTerminators, LoudsDense.Encodes, LoudsDense.EncodesShape, ItemOf, LeafOffset,
           NodeEnd, DensePlace;
      ghost var l := keyLen - 1;
      CountLeaf(t, k, l);
      if valuePosInitialized[keyLen - 1] {
        valuePos := valuePos[keyLen - 1 := valuePos[keyLen - 1] + 1];
      } else {
        valuePosInitialized := valuePosInitialized[keyLen - 1 := true];
        var valueIndex := trie.ValueIndexAt(pos, t, l, i, k, t[k].key[l]);
        valuePos := valuePos[keyLen - 1 := valueIndex];
      }
    }

    /** The bytes of the path so far. */
    method GetKey(ghost t: seq<Strand>, ghost k: nat) returns (bytes: Key)
      requires PathTo(t, k, keyLen)
      ensures bytes == t[k].key[..keyLen]
    {
      hide DensePos;
      bytes := key[..keyLen];
    }

    /** Whether the bit `nodeNum` is a prefix key; it never is. */
    method ReadPrefixKey(nodeNum: nat, ghost t: seq<Strand>, ghost l: nat, ghost k: nat) returns (b: bool)
      requires trie.Encodes(t) && NoTerminators(t) && l < trie.height && k < |t| && t[k].InLevel(l) && Starts(t, k, l)
      requires nodeNum == NodeNum(t, l, k)
      ensures !b
    {
      trie.Shape(t);
      hide Ones, HeightTo, WellFormed, NoTerminators, Cat;
      NodeInPrefixBits(t, trie.height, l, k);
      PrefixBitsZero(t, trie.height, nodeNum);
      b := trie.prefixkeyIndicatorBits.bv.ReadBit(nodeNum);
      assert b == Cat(PrefixLevels(t), 0, trie.height)[nodeNum];
    }

    /** What a leftmost move leaves behind: a key that ends here, or a node for the sparse levels. */
    ghost predicate StandsOn(t: seq<Strand>, k: nat)
      reads this
    {
      k < |t| && Sized() && isValid && isSearchComplete && isMoveRightComplete && !isAtPrefixKey &&
      (if t[k].hi <= trie.height
       then isMoveLeftComplete && StandsOnLeaf(t, k)
       else !isMoveLeftComplete && PathTo(t, k, trie.height) && Cursor(t, k + 1) &&
            t[k].InLevel(trie.height) && Starts(t, k, trie.height) && sendOutNodeNum == NodeNum(t, trie.height, k))
    }

    /** Whether strand `k` goes on below level `l`. */
    method ChildBit(pos: nat, ghost t: seq<Strand>, ghost l: nat, ghost k: nat) returns (b: bool)
      requires trie.Encodes(t) && NoTerminators(t) && l < trie.height && k < |t| && t[k].InLevel(l) && l < |t[k].key|
      requires pos == DensePos(t, l, k)
      ensures b == t[k].HasChild(l)
    {
      hide Ones, HeightTo, WellFormed, NoTerminators, LoudsDense.Encodes, LoudsDense.EncodesShape, NodeEnd,
           DensePlace, DensePos, ItemOf;
      trie.Shape(t);
      ghost var i := CreatorSpot(t, l, k);
      b := trie.HasChildBit(pos, t, l, i, k, t[k].key[l]);
    }

    /** The node below strand `k`'s item. */
    method ChildNode(pos: nat, ghost t: seq<Strand>, ghost l: nat, ghost k: nat) returns (nodeNum: nat)
      requires trie.Encodes(t) && NoTerminators(t) && l < trie.height && k < |t| && t[k].InLevel(l) && l < |t[k].key|
      requires pos == DensePos(t, l, k) && t[k].HasChild(l)
      ensures nodeNum == NodeNum(t, l + 1, k) && nodeNum > 0 && t[k].InLevel(l + 1) && Starts(t, k, l + 1)
    {
      hide Ones, HeightTo, WellFormed, NoTerminators, LoudsDense.Encodes, LoudsDense.EncodesShape, NodeEnd,
           DensePlace, DensePos, ItemOf;
      trie.Shape(t);
      ghost var i := CreatorSpot(t, l, k);
      nodeNum := trie.GetChildNodeNum(pos, t, l, i, k, t[k].key[l]);
    }

    /** One level down, to the first label of the child. */
    method StepDown(pos: nat, level: nat, ghost t: seq<Strand>, ghost k: nat) returns (next: nat)
      requires trie.Encodes(t) && NoTerminators(t) && level + 1 < trie.height && PathTo(t, k, level + 1)
      requires t[k].InLevel(level) && t[k].HasChild(level) && pos == posInTrie[level]
      modifies `key, `posInTrie, `keyLen
      ensures PathTo(t, k, level + 2) && t[k].InLevel(level + 1) && next == posInTrie[level + 1]
    {
      hide Ones, HeightTo, WellFormed, NoTerminators, LoudsDense.Encodes, LoudsDense.EncodesShape, DensePos, NodeNum,
           Cat;
      trie.Shape(t);
      var nodeNum := ChildNode(pos, t, level, k);
      var isPrefixKey := ReadPrefixKey(nodeNum, t, level + 1, k);
      if isPrefixKey {
        assert false;
      }
      NodeBeforeEnd(t, trie.height, level + 1, k);
      next := trie.GetNextPos(nodeNum * 256 - 1, t);
      FirstSlot(t, trie.height, level + 1, k, next);
      Append(next);
    }

    /** The strand ends on this level: its value cursor moves and the key is complete. */
    method FinishOnLeaf(pos: nat, ghost t: seq<Strand>, ghost k: nat)
      requires trie.Encodes(t) && NoTerminators(t) && keyLen > 0 && PathTo(t, k, keyLen) && t[k].InLevel(keyLen - 1)
      requires !t[k].HasChild(keyLen - 1) && pos == posInTrie[keyLen - 1] && Cursor(t, k) && !isAtPrefixKey
      modifies this
      ensures StandsOn(t, k)
    {
      hide Ones, HeightTo, WellFormed, NoTerminators, LoudsDense.Encodes, LoudsDense.EncodesShape, LeafOffset,
           NodeEnd, DensePlace, DensePos, ItemOf;
      trie.Shape(t);
      ghost var i := CreatorSpot(t, keyLen - 1, k);
      RankValuePosition(pos, t, k, i);
      SetFlags(true, true, true, true);
    }

    /** From an item down to the leftmost key below it, which is the strand that created the item. */
    method MoveToLeftMostKey(ghost t: seq<Strand>, ghost k: nat)
      requires trie.Encodes(t) && NoTerminators(t) && keyLen > 0 && PathTo(t, k, keyLen) && t[k].InLevel(keyLen - 1)
      requires Cursor(t, k) && !isAtPrefixKey
      modifies this
      ensures StandsOn(t, k)
    {
      hide Ones, HeightTo, WellFormed, NoTerminators, LoudsDense.Encodes, LoudsDense.EncodesShape, LeafOffset,
           DensePos, NodeNum;
      var level := keyLen - 1;
      var pos := posInTrie[level];
      var continues := ChildBit(pos, t, level, k);
      if !continues {
        FinishOnLeaf(pos, t, k);
        return;
      }
      while level < trie.height - 1
        invariant level < trie.height && PathTo(t, k, level + 1)
        invariant t[k].InLevel(level) && t[k].HasChild(level) && pos == posInTrie[level]
        invariant Cursor(t, k) && !isAtPrefixKey
        decreases trie.height - level
      {
        pos := StepDown(pos, level, t, k);
        continues := ChildBit(pos, t, level + 1, k);
        if !continues {
          FinishOnLeaf(pos, t, k);
          return;
        }
        level := level + 1;
      }
      sendOutNodeNum := ChildNode(pos, t, level, k);
      PassingKeepsCursor(t, k);
      SetFlags(true, true, false, true);
    }

    /** A strand that goes on into the sparse levels leaves every dense cursor as it is. */
    lemma PassingKeepsCursor(t: seq<Strand>, k: nat)
      requires Sized() && Cursor(t, k) && k < |t| && (t[k].hi > trie.height || t[k].lo >= trie.height)
      ensures Cursor(t, k + 1)
    {
      hide LeafOffset, Ones;
      forall l | 0 <= l < trie.height
        ensures Ones(LeafFlags(t, l), k + 1) == Ones(LeafFlags(t, l), k)
      {
        LeavesElsewhere(t, l, k);
      }
    }

    /** The smallest label of the root. */
    method SetToFirstLabelInRoot(ghost t: seq<Strand>)
      requires trie.Encodes(t) && NoTerminators(t) && |t| > 0 && Sized() && keyLen == 0
      modifies `key, `posInTrie, `keyLen
      ensures PathTo(t, 0, 1) && t[0].InLevel(0)
    {
      hide HeightTo, NoTerminators, Cat, Ones, LoudsDense.Encodes, LoudsDense.EncodesShape, Bitvector.Represents,
           NextSet;
      trie.Shape(t);
      RootIsOneNode(t);
      NodeBeforeEnd(t, trie.height, 0, 0);
      RootSlot(t, trie.height);
      trie.LabelsHeld(t);
      InBoundsOf(trie.labelBitmaps.bv, trie.Bitmaps(t), 0);
      var first := trie.labelBitmaps.bv.ReadBit(0);
      if first {
        posInTrie := posInTrie[0 := 0];
        key := key[0 := 0];
      } else {
        var pos := trie.GetNextPos(0, t);
        FirstInRoot(t, trie.height, pos);
        posInTrie := posInTrie[0 := pos];
        key := key[0 := pos % 256];
      }
      keyLen := keyLen + 1;
    }

    /**
     To the next key, when the current one ends here or the sparse levels have run out below it:
     up until some node has a further label, over to it, and down to the left. `beyond` says
     whether the word past the bitmaps was read; what it holds makes no difference.
     */
    method Next(ghost t: seq<Strand>, ghost k: nat) returns (ghost beyond: bool)
      requires trie.Encodes(t) && NoTerminators(t) && keyLen > 0 && PathTo(t, k, keyLen)
      requires keyLen <= t[k].hi && Cursor(t, k + 1) && !isAtPrefixKey
      requires k + 1 < |t| ==> t[k + 1].lo < keyLen
      modifies this
      ensures k + 1 < |t| ==> StandsOn(t, k + 1)
      ensures k + 1 == |t| ==> !isValid
      ensures beyond <==> old(keyLen) == trie.height && OnLastBit(t, trie.height, k)
    {
      hide Ones, HeightTo, WellFormed, NoTerminators, LoudsDense.Encodes, LoudsDense.EncodesShape, LeafOffset,
           DensePos, NodeNum, Cat, NextSet, NextOrBeyond, OnLastBit;
      trie.Shape(t);
      var pos := posInTrie[keyLen - 1];
      InsideBitmaps(t, trie.height, keyLen - 1, k);
      beyond := pos + 1 == |Cat(BitmapLevels(t), 0, trie.height)|;
      var nextPos := trie.GetNextPos(pos, t);
      NextLabel(t, trie.height, keyLen - 1, k, nextPos);
      while nextPos / 256 > pos / 256
        invariant 0 < keyLen <= t[k].hi && PathTo(t, k, keyLen) && Cursor(t, k + 1) && !isAtPrefixKey
        invariant pos == posInTrie[keyLen - 1] && keyLen <= old(keyLen)
        invariant beyond <==> old(keyLen) == trie.height && OnLastBit(t, trie.height, k)
        invariant k + 1 < |t| ==> t[k + 1].lo < keyLen
        invariant k + 1 < |t| && t[k + 1].lo == keyLen - 1 ==>
          nextPos == DensePos(t, keyLen - 1, k + 1) && nextPos / 256 == pos / 256
        invariant !(k + 1 < |t| && t[k + 1].lo == keyLen - 1) ==> nextPos / 256 > pos / 256
        decreases keyLen
      {
        keyLen := keyLen - 1;
        if keyLen == 0 {
          isValid := false;
          return;
        }
        pos := posInTrie[keyLen - 1];
        InsideBitmaps(t, trie.height, keyLen - 1, k);
        beyond := beyond || pos + 1 == |Cat(BitmapLevels(t), 0, trie.height)|;
        nextPos := trie.GetNextPos(pos, t);
        NextLabel(t, trie.height, keyLen - 1, k, nextPos);
      }
      StepSideways(nextPos, t, k);
      MoveToLeftMostKey(t, k + 1);
    }

    /** Over to the next label of the same node. */
    method StepSideways(nextPos: nat, ghost t: seq<Strand>, ghost k: nat)
      requires WellFormed(t) && keyLen > 0 && PathTo(t, k, keyLen) && k + 1 < |t| && t[k + 1].lo == keyLen - 1
      requires nextPos == DensePos(t, keyLen - 1, k + 1)
      modifies `key, `posInTrie
      ensures PathTo(t, k + 1, keyLen) && t[k + 1].InLevel(keyLen - 1)
    {
      hide Ones, HeightTo, DensePos;
      StepOnLevel(t, k);
      DensePosByte(t, keyLen - 1, k + 1);
      forall l | 0 <= l < keyLen - 1
        ensures l < |t[k + 1].key| && t[k].key[l] == t[k + 1].key[l] && DensePos(t, l, k + 1) == DensePos(t, l, k)
      {
        StepKeepsAbove(t, l, k);
      }
      Set(keyLen - 1, nextPos);
    }

    /** The value under the cursor of the last level. */
    method GetValue(ghost t: seq<Strand>, ghost k: nat) returns (value: nat)
      requires trie.Encodes(t) && NoTerminators(t) && StandsOnLeaf(t, k)
      ensures value == t[k].value
    {
      hide Ones, HeightTo, WellFormed, NoTerminators, LoudsDense.Encodes, LoudsDense.EncodesShape, ItemOf, LeafOffset,
           NodeEnd;
      trie.Shape(t);
      ghost var l := keyLen - 1;
      LeafSpot(t, k, l);
      ghost var i, x := ItemOn(t, l, k);
      trie.LeafIndex(t, l, i, k, t[k].key[l]);
      LeavesElsewhere(t, l, k);
      value := trie.values[valuePos[keyLen - 1]];
    }

    /** On a complete key: the whole stored prefix is in the dense levels and its cursor is in use. */
    ghost predicate StandsOnLeaf(t: seq<Strand>, k: nat)
      reads this
    {
      PathTo(t, k, keyLen) && keyLen == t[k].hi && keyLen > 0 && Cursor(t, k + 1) && valuePosInitialized[keyLen - 1]
    }
  }

  /** The node of an item that strand `k` itself created. */
  lemma CreatorSpot(t: seq<Strand>, l: nat, k: nat) returns (i: nat)
    requires WellFormed(t) && k < |t| && t[k].InLevel(l)
    ensures i <= k < |t| && t[i].InLevel(l) && Starts(t, i, l) && l < |t[k].key|
    ensures ItemOf(t, l, i, k, t[k].key[l]) && DensePos(t, l, k) == DensePlace(t, l, i, t[k].key[l])
    ensures Starts(t, k, l) ==> i == k
  {
    var x;
    i, x := ItemOn(t, l, k);
  }

  lemma NodeInPrefixBits(t: seq<Strand>, s: nat, l: nat, k: nat)
    requires WellFormed(t) && l < s <= Height(t) && k < |t| && t[k].InLevel(l) && Starts(t, k, l)
    ensures NodeNum(t, l, k) < |Cat(PrefixLevels(t), 0, s)|
  {
    hide HeightTo, Cat;
    BitmapLengths(t, s);
    NodeBlock(t, l, k);
    NodesBeforeMono(t, l + 1, s);
  }

  lemma NodeBeforeEnd(t: seq<Strand>, s: nat, l: nat, k: nat)
    requires WellFormed(t) && l < s <= Height(t) && k < |t| && t[k].InLevel(l) && Starts(t, k, l)
    ensures 256 * NodeNum(t, l, k) + 256 <= |Cat(BitmapLevels(t), 0, s)|
  {
    hide HeightTo, Cat;
    BitmapLengths(t, s);
    NodeBlock(t, l, k);
    NodesBeforeMono(t, l + 1, s);
  }

  /** The first set bit of a node's block is its smallest label. */
  lemma FirstSlot(t: seq<Strand>, s: nat, l: nat, k: nat, next: nat)
    requires WellFormed(t) && NoTerminators(t) && l < s <= Height(t) && k < |t| && t[k].InLevel(l) && Starts(t, k, l)
    requires NodeNum(t, l, k) > 0 && NextSet(Cat(BitmapLevels(t), 0, s), 256 * NodeNum(t, l, k) - 1, next)
    ensures l < |t[k].key| && next == DensePos(t, l, k) && next % 256 == t[k].key[l]
  {
    hide HeightTo, Cat, NoTerminators, Ones;
    var i := CreatorSpot(t, l, k);
    var b := Cat(BitmapLevels(t), 0, s);
    DenseBits(t, s, l, k, t[k].key[l]);
    assert b[DensePlace(t, l, k, t[k].key[l])];
    NodeBeforeEnd(t, s, l, k);
    SmallestLabel(t, s, l, k, next);
  }

  lemma SmallestLabel(t: seq<Strand>, s: nat, l: nat, k: nat, next: nat)
    requires WellFormed(t) && NoTerminators(t) && l < s <= Height(t) && k < |t| && t[k].InLevel(l) && Starts(t, k, l)
    requires next < |Cat(BitmapLevels(t), 0, s)| && Cat(BitmapLevels(t), 0, s)[next]
    requires 256 * NodeNum(t, l, k) <= next < 256 * NodeNum(t, l, k) + 256
    ensures l < |t[k].key| && next >= 256 * NodeNum(t, l, k) + t[k].key[l]
  {
    hide HeightTo, Cat, NoTerminators, Ones;
    var c: Byte := next - 256 * NodeNum(t, l, k);
    DenseBits(t, s, l, k, c);
    var y: nat :| ItemOf(t, l, k, y, c);
    NothingBelowFirst(t, l, k, y, c);
  }

  lemma DensePosByte(t: seq<Strand>, l: nat, k: nat)
    requires k < |t| && l < |t[k].key|
    ensures DensePos(t, l, k) % 256 == t[k].key[l]
  {
  }

  /** The root's first set bit. */
  lemma RootSlot(t: seq<Strand>, s: nat)
    requires WellFormed(t) && NoTerminators(t) && |t| > 0 && 1 <= s <= Height(t)
    ensures 0 < |t[0].key| && DensePos(t, 0, 0) == t[0].key[0] < |Cat(BitmapLevels(t), 0, s)|
    ensures Cat(BitmapLevels(t), 0, s)[t[0].key[0]]
    ensures forall p :: 0 <= p < t[0].key[0] ==> !Cat(BitmapLevels(t), 0, s)[p]
  {
    hide HeightTo, Cat, NoTerminators, Ones;
    RootIsOneNode(t);
    var i := CreatorSpot(t, 0, 0);
    NodeBeforeEnd(t, s, 0, 0);
    DenseBits(t, s, 0, 0, t[0].key[0]);
    forall p | 0 <= p < t[0].key[0]
      ensures !Cat(BitmapLevels(t), 0, s)[p]
    {
      if Cat(BitmapLevels(t), 0, s)[p] { SmallestLabel(t, s, 0, 0, p); }
    }
  }

  lemma FirstInRoot(t: seq<Strand>, s: nat, next: nat)
    requires WellFormed(t) && NoTerminators(t) && |t| > 0 && 1 <= s <= Height(t)
    requires 0 < |Cat(BitmapLevels(t), 0, s)| && !Cat(BitmapLevels(t), 0, s)[0]
    requires NextSet(Cat(BitmapLevels(t), 0, s), 0, next)
    ensures 0 < |t[0].key| && next == t[0].key[0] == DensePos(t, 0, 0)
  {
    hide HeightTo, Cat, NoTerminators, Ones, DensePos;
    RootSlot(t, s);
  }

  /** Strand `k` runs through the last bit of the bitmaps, label 255 of the last dense node. */
  ghost predicate OnLastBit(t: seq<Strand>, s: nat, k: nat)
    requires AllSized(t) && s <= Height(t) && k < |t|
  {
    0 < s <= t[k].hi && DensePos(t, s - 1, k) + 1 == |Cat(BitmapLevels(t), 0, s)|
  }

  /** Every dense position is inside the bitmaps, and only the last level's can be their last bit. */
  lemma InsideBitmaps(t: seq<Strand>, s: nat, l: nat, k: nat)
    requires WellFormed(t) && l < s <= Height(t) && k < |t| && l < t[k].hi
    ensures l < |t[k].key| && DensePos(t, l, k) < |Cat(BitmapLevels(t), 0, s)|
    ensures DensePos(t, l, k) + 1 == |Cat(BitmapLevels(t), 0, s)| <==> l + 1 == s && OnLastBit(t, s, k)
  {
    hide HeightTo, Cat, Ones, NodeCount;
    var i, x := ItemOn(t, l, k);
    NodeBeforeEnd(t, s, l, i);
    if l + 1 < s {
      NodeBeforeEnd(t, l + 1, l, i);
      BitmapLengths(t, l + 1);
      BitmapLengths(t, s);
      SomeNodes(t, l + 1);
      NodesBeforeMono(t, l + 2, s);
    }
  }

  /** In terms of the strands: the byte is 255, and no later strand has an item on the last dense level. */
  lemma OnLastBitMeans(t: seq<Strand>, s: nat, k: nat)
    requires WellFormed(t) && 0 < s <= Height(t) && k < |t|
    ensures OnLastBit(t, s, k) <==>
      s <= t[k].hi <= |t[k].key| && t[k].key[s - 1] == TERMINATOR && forall m :: k < m < |t| ==> !t[m].InLevel(s - 1)
  {
    hide HeightTo, Cat, Ones, DensePlace, ItemOf, NodeEnd;
    assert t[k].Sized();
    if s <= t[k].hi {
      var l := s - 1;
      var i, x := ItemOn(t, l, k);
      StartsInNode(t, l, i, k);
      BitmapLengths(t, s);
      OnesMono(StartFlags(t, l), k + 1, |t|);
      LastPosition(NodesBefore(t, l), Ones(StartFlags(t, l), k + 1), NodeCount(t, l), t[k].key[l]);
      if t[k].key[l] == TERMINATOR { LastNodeHasLastItem(t, l, i, k); }
    }
  }

  lemma LastPosition(before: nat, count: nat, total: nat, c: Byte)
    requires 1 <= count <= total
    ensures 256 * (before + LessOne(count)) + c + 1 == 256 * (before + total) <==> count == total && c == TERMINATOR
  {
  }

  /** After a label 255, a later item on the level belongs to a later node. */
  lemma LastNodeHasLastItem(t: seq<Strand>, l: nat, i: nat, k: nat)
    requires WellFormed(t) && i <= k < |t| && l < t[k].hi && l < |t[k].key| && t[k].key[l] == TERMINATOR
    requires t[i].InLevel(l) && Starts(t, i, l) && k < NodeEnd(t, l, i)
    ensures Ones(StartFlags(t, l), k + 1) == Ones(StartFlags(t, l), |t|) <==>
      forall m :: k < m < |t| ==> !t[m].InLevel(l)
  {
    hide Ones, WellFormed, NodeEnd, StartFlags;
    if m :| k < m < |t| && t[m].InLevel(l) {
      LaterItemStarts(t, l, i, k, m);
    } else {
      NoLaterStarts(t, l, k);
    }
  }

  lemma NoLaterStarts(t: seq<Strand>, l: nat, k: nat)
    requires k < |t| && forall m :: k < m < |t| ==> !t[m].InLevel(l)
    ensures Ones(StartFlags(t, l), k + 1) == Ones(StartFlags(t, l), |t|)
  {
    OnesZero(StartFlags(t, l), k + 1, |t|);
  }

  lemma LaterItemStarts(t: seq<Strand>, l: nat, i: nat, k: nat, m: nat)
    requires WellFormed(t) && i <= k < m < |t| && l < t[k].hi && l < |t[k].key| && t[k].key[l] == TERMINATOR
    requires t[i].InLevel(l) && Starts(t, i, l) && k < NodeEnd(t, l, i) && t[m].InLevel(l)
    ensures Ones(StartFlags(t, l), k + 1) < Ones(StartFlags(t, l), |t|)
  {
    hide Ones, StartFlags, WellFormed, NodeEnd;
    var f, e := StartFlags(t, l), NodeEnd(t, l, i);
    LaterOutside(t, l, i, k, m);
    var y := FirstItemFrom(t, l, e, m);
    NextItemStarts(t, l, e, y);
    StartFlagSet(t, l, y);
    OnesStrict(f, y, y + 1);
    OnesMono(f, k + 1, y);
    OnesMono(f, y + 1, |t|);
  }

  lemma StartFlagSet(t: seq<Strand>, l: nat, y: nat)
    requires y < |t| && t[y].InLevel(l) && Starts(t, y, l)
    ensures StartFlags(t, l)[y]
  {
  }

  /** No label follows 255 in a node. */
  lemma LaterOutside(t: seq<Strand>, l: nat, i: nat, k: nat, m: nat)
    requires WellFormed(t) && i <= k < m < |t| && l < t[k].hi && l < |t[k].key| && t[k].key[l] == TERMINATOR
    requires t[i].InLevel(l) && k < NodeEnd(t, l, i) && t[m].InLevel(l)
    ensures NodeEnd(t, l, i) <= m && NodeEnd(t, l, i) < |t|
  {
    if m < NodeEnd(t, l, i) { LabelsRise(t, l, k, m); }
  }

  /** The next set bit belongs to the same node exactly when the next strand comes in on this level. */
  lemma NextLabel(t: seq<Strand>, s: nat, l: nat, k: nat, next: nat)
    requires WellFormed(t) && NoTerminators(t) && l < s <= Height(t) && k < |t| && l < t[k].hi && l < |t[k].key|
    requires DensePos(t, l, k) < |Cat(BitmapLevels(t), 0, s)|
    requires NextOrBeyond(Cat(BitmapLevels(t), 0, s), DensePos(t, l, k), next)
    requires k + 1 < |t| ==> t[k + 1].lo <= l
    ensures k + 1 < |t| && t[k + 1].lo == l ==>
      l < |t[k + 1].key| && next == DensePos(t, l, k + 1) && next / 256 == DensePos(t, l, k) / 256
    ensures !(k + 1 < |t| && t[k + 1].lo == l) ==> next / 256 > DensePos(t, l, k) / 256
  {
    hide HeightTo, Cat, NoTerminators, Ones;
    var b := Cat(BitmapLevels(t), 0, s);
    var i, x := ItemOn(t, l, k);
    NodeBeforeEnd(t, s, l, i);
    var first := 256 * NodeNum(t, l, i);
    if DensePos(t, l, k) + 1 == |b| {
      NothingAfterLast(t, l, k, first);
    } else if k + 1 < |t| && t[k + 1].lo == l {
      NextInNode(t, s, l, i, k, next);
    } else if next < first + 256 {
      var c: Byte := next - first;
      DenseBits(t, s, l, i, c);
      var y: nat :| ItemOf(t, l, i, y, c);
      NothingBetween(t, l, i, k, y, c);
    }
  }

  /** After a label 255 the next strand does not come in on this level, and every later bit is in a later node. */
  lemma NothingAfterLast(t: seq<Strand>, l: nat, k: nat, first: nat)
    requires WellFormed(t) && k < |t| && l < |t[k].key| && l < t[k].hi
    requires first % 256 == 0 && DensePos(t, l, k) == first + t[k].key[l] && DensePos(t, l, k) % 256 == TERMINATOR
    ensures !(k + 1 < |t| && t[k + 1].lo == l)
    ensures forall next :: next > DensePos(t, l, k) ==> next / 256 > DensePos(t, l, k) / 256
  {
    hide DensePos;
    if k + 1 < |t| { NextIsGreater(t, k); }
  }

  lemma NextInNode(t: seq<Strand>, s: nat, l: nat, i: nat, k: nat, next: nat)
    requires WellFormed(t) && NoTerminators(t) && l < s <= Height(t) && k + 1 < |t| && l < t[k].hi && l < |t[k].key|
    requires i <= k < NodeEnd(t, l, i) && t[i].InLevel(l) && Starts(t, i, l) && t[k + 1].lo == l
    requires DensePos(t, l, k) == DensePlace(t, l, i, t[k].key[l])
    requires NextSet(Cat(BitmapLevels(t), 0, s), DensePos(t, l, k), next)
    ensures l < |t[k + 1].key| && next == DensePos(t, l, k + 1) && next / 256 == DensePos(t, l, k) / 256
  {
    hide HeightTo, Cat, NoTerminators, NextSet, DensePos, DensePlace, NodeEnd;
    StepOnLevel(t, k);
    SiblingBit(t, s, l, i, k);
    var target := DensePlace(t, l, i, t[k + 1].key[l]);
    SameBlock(t, l, i, t[k].key[l], t[k + 1].key[l]);
    forall p | DensePos(t, l, k) < p < target
      ensures p < |Cat(BitmapLevels(t), 0, s)| && !Cat(BitmapLevels(t), 0, s)[p]
    {
      NoBitBetween(t, s, l, i, k, p);
    }
    NextSetIs(Cat(BitmapLevels(t), 0, s), DensePos(t, l, k), next, target);
  }

  lemma SameBlock(t: seq<Strand>, l: nat, i: nat, c: Byte, d: Byte)
    requires i <= |t|
    ensures DensePlace(t, l, i, c) / 256 == DensePlace(t, l, i, d) / 256
    ensures DensePlace(t, l, i, c) - c == DensePlace(t, l, i, d) - d
  {
  }

  lemma NextSetIs(b: seq<bool>, pos: nat, next: nat, target: nat)
    requires NextSet(b, pos, next) && pos < target < |b| && b[target] && forall p :: pos < p < target ==> !b[p]
    ensures next == target
  {
  }

  /** The next strand's item, in the same node, has its bit set. */
  lemma SiblingBit(t: seq<Strand>, s: nat, l: nat, i: nat, k: nat)
    requires WellFormed(t) && NoTerminators(t) && l < s <= Height(t) && k + 1 < |t| && l < |t[k + 1].key|
    requires i <= k < NodeEnd(t, l, i) && t[i].InLevel(l) && Starts(t, i, l) && t[k + 1].lo == l
    ensures DensePlace(t, l, i, t[k + 1].key[l]) < |Cat(BitmapLevels(t), 0, s)|
    ensures Cat(BitmapLevels(t), 0, s)[DensePlace(t, l, i, t[k + 1].key[l])]
  {
    hide HeightTo, Cat, NoTerminators, Ones, DensePlace;
    assert k + 1 < NodeEnd(t, l, i);
    assert ItemOf(t, l, i, k + 1, t[k + 1].key[l]);
    DenseBits(t, s, l, i, t[k + 1].key[l]);
  }

  lemma NoBitBetween(t: seq<Strand>, s: nat, l: nat, i: nat, k: nat, p: nat)
    requires WellFormed(t) && NoTerminators(t) && l < s <= Height(t) && k + 1 < |t| && l < t[k].hi
    requires l < |t[k].key| && l < |t[k + 1].key| && t[k + 1].lo == l
    requires i <= k < NodeEnd(t, l, i) && t[i].InLevel(l) && Starts(t, i, l)
    requires DensePlace(t, l, i, t[k].key[l]) < p < DensePlace(t, l, i, t[k + 1].key[l])
    ensures p < |Cat(BitmapLevels(t), 0, s)| && !Cat(BitmapLevels(t), 0, s)[p]
  {
    hide HeightTo, Cat, NoTerminators, Ones, NodeNum;
    var c: Byte := p - 256 * NodeNum(t, l, i);
    DenseBits(t, s, l, i, c);
    if y: nat :| ItemOf(t, l, i, y, c) {
      NothingBetween(t, l, i, k, y, c);
    }
  }

  lemma LeafSpot(t: seq<Strand>, k: nat, l: nat)
    requires WellFormed(t) && k < |t| && l + 1 == t[k].hi
    ensures t[k].InLevel(l) && !t[k].HasChild(l)
  {
  }

  /** Strand `k` adds one leaf, on its last level. */
  lemma CountLeaf(t: seq<Strand>, k: nat, l: nat)
    requires k < |t| && t[k].InLevel(l) && l + 1 == t[k].hi
    ensures forall j: nat :: Ones(LeafFlags(t, j), k + 1) == Ones(LeafFlags(t, j), k) + (if j == l then 1 else 0)
  {
    forall j: nat
      ensures Ones(LeafFlags(t, j), k + 1) == Ones(LeafFlags(t, j), k) + (if j == l then 1 else 0)
    {
      LeavesElsewhere(t, j, k);
    }
  }
}
