/**
 The iterator over the sparse levels (LoudsSparse::Iter), started at a node that the dense
 iterator hands over.
 */
module SparseIter {
  import opened Bits
  import opened Labels
  import opened Levels
  import opened Strands
  import opened Encoding
  import opened Paths
  import opened LoudsSparse
  import opened DenseIter

  class Iter {
    const trie: LoudsSparse
    var isValid: bool
    var startNodeNum: nat
    var keyLen: nat
    var key: seq<Byte>
    var posInTrie: seq<nat>
    var valuePos: seq<nat>
    var valuePosInitialized: seq<bool>
    var isAtTerminator: bool

    constructor (trie: LoudsSparse)
      requires trie.startLevel <= trie.height
      ensures this.trie == trie && Sized() && keyLen == 0 && !isValid && !isAtTerminator
      ensures forall t: seq<Strand> :: Cursor(t, 0)
      ensures forall j :: 0 <= j < |valuePosInitialized| ==> !valuePosInitialized[j]
    {
      this.trie := trie;
      isValid, isAtTerminator, startNodeNum, keyLen := false, false, 0, 0;
      key := seq(trie.height - trie.startLevel, _ => 0);
      posInTrie := seq(trie.height - trie.startLevel, _ => 0);
      valuePos := seq(trie.height - trie.startLevel, _ => 0);
      valuePosInitialized := seq(trie.height - trie.startLevel, _ => false);
    }

    ghost predicate Sized()
      reads this
    {
      trie.startLevel <= trie.height &&
      |key| == |posInTrie| == |valuePos| == |valuePosInitialized| == trie.height - trie.startLevel && keyLen <= |key|
    }

    /** The first `len` sparse levels stand on strand `k`. */
    ghost predicate PathTo(t: seq<Strand>, k: nat, len: nat)
      reads this
    {
      Sized() && keyLen == len && k < |t| && trie.startLevel + len <= |t[k].key| &&
      forall l :: trie.startLevel <= l < trie.startLevel + len ==>
        key[l - trie.startLevel] == t[k].key[l] && posInTrie[l - trie.startLevel] == SparsePos(t, trie.startLevel, l, k)
    }

    /** Every cursor that is in use counts the leaves of its level among the first `m` strands. */
    ghost predicate Cursor(t: seq<Strand>, m: nat)
      reads `valuePos, `valuePosInitialized
    {
      m <= |t| && |valuePos| == |valuePosInitialized| &&
      forall l :: trie.startLevel <= l < trie.startLevel + |valuePos| && valuePosInitialized[l - trie.startLevel] ==>
        valuePos[l - trie.startLevel] + 1 == LeafOffset(t, trie.startLevel, l) + Ones(LeafFlags(t, l), m)
    }

    /** On a key that ends in the sparse levels. */
    ghost predicate StandsOn(t: seq<Strand>, k: nat)
      reads this
    {
      isValid && !isAtTerminator && k < |t| && keyLen > 0 && trie.startLevel + keyLen == t[k].hi &&
      PathTo(t, k, keyLen) && Cursor(t, k + 1) && valuePosInitialized[keyLen - 1]
    }

    /** Run off its subtree, or not started yet. */
    ghost predicate Idle(t: seq<Strand>, m: nat)
      reads this
    {
      Sized() && !isValid && !isAtTerminator && keyLen == 0 && Cursor(t, m)
    }

    method SetStartNodeNum(nodeNum: nat)
      modifies `startNodeNum
      ensures startNodeNum == nodeNum
    {
      startNodeNum := nodeNum;
    }

    method Append(label': Byte, pos: nat)
      requires Sized() && keyLen < |key|
      modifies `key, `posInTrie, `keyLen
      ensures Sized() && keyLen == old(keyLen) + 1
      ensures key == old(key)[old(keyLen) := label'] && posInTrie == old(posInTrie)[old(keyLen) := pos]
    {
      key := key[keyLen := label'];
      posInTrie := posInTrie[keyLen := pos];
      keyLen := keyLen + 1;
    }

    method Set(level: nat, pos: nat)
      requires Sized() && level < |key| && pos < |trie.labels.labels|
      modifies `key, `posInTrie
      ensures Sized() && key == old(key)[level := trie.labels.labels[pos]] && posInTrie == old(posInTrie)[level := pos]
    {
      key := key[level := trie.labels.labels[pos]];
      posInTrie := posInTrie[level := pos];
    }

    /** Counts the level's value cursor up, or ranks it when the level is entered for the first time. */
    method RankValuePosition(pos: nat, ghost t: seq<Strand>, ghost k: nat)
      requires trie.Encodes(t) && keyLen > 0 && PathTo(t, k, keyLen) && Cursor(t, k)
      requires trie.startLevel + keyLen == t[k].hi && t[k].InLevel(t[k].hi - 1)
      requires pos == Place(t, trie.startLevel, t[k].hi - 1, k)
      modifies `valuePos, `valuePosInitialized
      ensures PathTo(t, k, keyLen) && Cursor(t, k + 1) && valuePosInitialized[keyLen - 1]
    {
      hide Ones, HeightTo, WellFormed, LeafOffset, SparsePos, Cat;
      trie.Shape(t);
      CountLeaf(t, k, t[k].hi - 1);
      if valuePosInitialized[keyLen - 1] {
        valuePos := valuePos[keyLen - 1 := valuePos[keyLen - 1] + 1];
      } else {
        valuePosInitialized := valuePosInitialized[keyLen - 1 := true];
        var valueIndex := ValueIndexAt(pos, t, t[k].hi - 1, k);
        valuePos := valuePos[keyLen - 1 := valueIndex];
      }
    }

    /** The bytes of the path below the dense levels. */
    method GetKey(ghost t: seq<Strand>, ghost k: nat) returns (bytes: Key)
      requires PathTo(t, k, keyLen)
      ensures trie.startLevel + keyLen <= |t[k].key| && bytes == t[k].key[trie.startLevel..trie.startLevel + keyLen]
    {
      hide SparsePos;
      bytes := key[..keyLen];
      ghost var s := trie.startLevel;
      forall j | 0 <= j < keyLen
        ensures bytes[j] == t[k].key[s..s + keyLen][j]
      {
        assert key[(s + j) - s] == t[k].key[s + j];
      }
    }

    method ValueIndexAt(pos: nat, ghost t: seq<Strand>, ghost l: nat, ghost x: nat) returns (index: nat)
      requires trie.Encodes(t) && trie.startLevel <= l && x < |t| && t[x].InLevel(l) && !t[x].HasChild(l)
      requires pos == Place(t, trie.startLevel, l, x)
      ensures index == LeafOffset(t, trie.startLevel, l) + Ones(LeafFlags(t, l), x)
    {
      hide Ones, Cat, HeightTo, WellFormed, LeafOffset;
      ValueIndex(t, trie.startLevel, l, x);
      Entry(t, trie.startLevel, l, x);
      var rank := trie.childIndicatorBits.Rank(pos, trie.ChildBits(t));
      index := pos - rank;
    }

    method GetValue(ghost t: seq<Strand>, ghost k: nat) returns (value: nat)
      requires trie.Encodes(t) && StandsOn(t, k)
      ensures value == t[k].value
    {
      hide Ones, HeightTo, WellFormed, LeafOffset, SparsePos, Cat;
      trie.Shape(t);
      ghost var l := t[k].hi - 1;
      LeafInLevel(t, k);
      ValueIndex(t, trie.startLevel, l, k);
      LeavesElsewhere(t, l, k);
      value := trie.values[valuePos[keyLen - 1]];
    }

    /** The strand ends on this level: its value cursor moves and the iterator is valid. */
    method FinishOnLeaf(pos: nat, c: Byte, ghost t: seq<Strand>, ghost k: nat)
      requires trie.Encodes(t) && keyLen > 0 && PathTo(t, k, keyLen) && Cursor(t, k) && !isAtTerminator
      requires var l := trie.startLevel + keyLen - 1;
        t[k].InLevel(l) && !t[k].HasChild(l) && pos == Place(t, trie.startLevel, l, k) && c == t[k].key[l]
      modifies this
      ensures StandsOn(t, k)
    {
      hide Ones, HeightTo, WellFormed, LeafOffset, SparsePos, Cat, LoudsSparse.Encodes, LoudsSparse.EncodesShape;
      var terminator := IsTerminator(pos, c, t, trie.startLevel + keyLen - 1, k);
      isAtTerminator := isAtTerminator || terminator;
      RankValuePosition(pos, t, k);
      isValid := true;
    }

    /** A childless item is never taken for a terminator, whatever its label: 255 is the last of its node. */
    method IsTerminator(pos: nat, c: Byte, ghost t: seq<Strand>, ghost l: nat, ghost k: nat) returns (b: bool)
      requires trie.Encodes(t) && trie.startLevel <= l && k < |t| && t[k].InLevel(l) && !t[k].HasChild(l)
      requires pos == Place(t, trie.startLevel, l, k) && l < |t[k].key| && c == t[k].key[l]
      ensures !b
    {
      hide Ones, HeightTo, WellFormed, SparsePos, Cat, LoudsSparse.Encodes, LoudsSparse.EncodesShape, Place;
      trie.Shape(t);
      Entry(t, trie.startLevel, l, k);
      var endOfNode := trie.IsEndOfNode(pos, t);
      b := c == TERMINATOR && !endOfNode;
      if b { LastLabelEndsNode(t, trie.startLevel, l, k); }
    }

    /** The first item below the start node. */
    method AppendFirst(ghost t: seq<Strand>, ghost k: nat)
      requires trie.Encodes(t) && Sized() && keyLen == 0 && k < |t|
      requires t[k].InLevel(trie.startLevel) && Starts(t, k, trie.startLevel)
      requires startNodeNum == NodeNum(t, trie.startLevel, k)
      modifies `key, `posInTrie, `keyLen
      ensures keyLen == 1 && PathTo(t, k, 1)
    {
      hide Ones, HeightTo, WellFormed, LeafOffset, Cat, LoudsSparse.Encodes, LoudsSparse.EncodesShape, NodeNum,
           SparsePos, Place;
      trie.Shape(t);
      var first := trie.GetFirstLabelPos(startNodeNum, t, trie.startLevel, k);
      LabelOf(trie, t, trie.startLevel, k);
      Append(trie.labels.labels[first], first);
    }

    /** From an item, or from the start node, down to the leftmost key below it. */
    method MoveToLeftMostKey(ghost t: seq<Strand>, ghost k: nat)
      requires trie.Encodes(t) && Sized() && Cursor(t, k) && !isAtTerminator && k < |t|
      requires keyLen == 0 ==>
        t[k].InLevel(trie.startLevel) && Starts(t, k, trie.startLevel) && startNodeNum == NodeNum(t, trie.startLevel, k)
      requires keyLen > 0 ==> PathTo(t, k, keyLen) && t[k].InLevel(trie.startLevel + keyLen - 1)
      modifies this
      ensures StandsOn(t, k)
    {
      hide Ones, HeightTo, WellFormed, LeafOffset, Cat, LoudsSparse.Encodes, LoudsSparse.EncodesShape, NodeNum,
           SparsePos, Place;
      trie.Shape(t);
      ghost var s := trie.startLevel;
      if keyLen == 0 {
        AppendFirst(t, k);
      }
      var level := keyLen - 1;
      var pos := posInTrie[level];
      LabelOf(trie, t, s + level, k);
      var c := trie.labels.labels[pos];
      var continues := trie.HasChildBit(pos, t, s + level, k);
      if !continues {
        FinishOnLeaf(pos, c, t, k);
        return;
      }
      while level < trie.height
        invariant keyLen == level + 1 && PathTo(t, k, level + 1) && Cursor(t, k) && !isAtTerminator
        invariant t[k].InLevel(s + level) && t[k].HasChild(s + level) && s + level < trie.height
        invariant pos == Place(t, s, s + level, k)
        decreases trie.height - level
      {
        pos := StepDown(pos, t, k);
        c := trie.labels.labels[pos];
        continues := trie.HasChildBit(pos, t, s + level + 1, k);
        if !continues {
          FinishOnLeaf(pos, c, t, k);
          return;
        }
        LabelOf(trie, t, s + level + 1, k);
        level := level + 1;
      }
      assert false;
    }

    /** One level down, to the first label of the child. */
    method StepDown(pos: nat, ghost t: seq<Strand>, ghost k: nat) returns (next: nat)
      requires trie.Encodes(t) && keyLen > 0 && PathTo(t, k, keyLen)
      requires var l := trie.startLevel + keyLen - 1;
        t[k].InLevel(l) && t[k].HasChild(l) && pos == Place(t, trie.startLevel, l, k)
      modifies `key, `posInTrie, `keyLen
      ensures keyLen == old(keyLen) + 1 && PathTo(t, k, keyLen) && t[k].InLevel(trie.startLevel + keyLen - 1)
      ensures next == Place(t, trie.startLevel, trie.startLevel + keyLen - 1, k) && next < |trie.labels.labels|
      ensures trie.labels.labels[next] == t[k].key[trie.startLevel + keyLen - 1]
    {
      hide Ones, HeightTo, WellFormed, Cat, LoudsSparse.Encodes, LoudsSparse.EncodesShape, NodeNum, SparsePos, Place;
      trie.Shape(t);
      ghost var l := trie.startLevel + keyLen - 1;
      var nodeNum := trie.GetChildNodeNum(pos, t, l, k);
      next := trie.GetFirstLabelPos(nodeNum, t, l + 1, k);
      LabelOf(trie, t, l + 1, k);
      Append(trie.labels.labels[next], next);
    }

    /** To the next key of the subtree; idle when there is none left in it. */
    method Next(ghost t: seq<Strand>, ghost k: nat)
      requires trie.Encodes(t) && keyLen > 0 && PathTo(t, k, keyLen) && Cursor(t, k + 1)
      requires trie.startLevel + keyLen <= t[k].hi
      requires k + 1 < |t| ==> t[k + 1].lo < trie.startLevel + keyLen
      modifies this
      ensures k + 1 < |t| && t[k + 1].lo >= trie.startLevel ==> StandsOn(t, k + 1)
      ensures !(k + 1 < |t| && t[k + 1].lo >= trie.startLevel) ==> Idle(t, k + 1)
    {
      hide Ones, HeightTo, WellFormed, LeafOffset, Cat, LoudsSparse.Encodes, LoudsSparse.EncodesShape, NodeNum,
           SparsePos, Place;
      trie.Shape(t);
      ghost var s := trie.startLevel;
      isAtTerminator := false;
      var pos := posInTrie[keyLen - 1];
      pos := pos + 1;
      var ended := NodeEndsAt(pos, t, k);
      while ended
        invariant 0 < keyLen && PathTo(t, k, keyLen) && Cursor(t, k + 1) && !isAtTerminator && s + keyLen <= t[k].hi
        invariant pos == posInTrie[keyLen - 1] + 1
        invariant k + 1 < |t| ==> t[k + 1].lo < s + keyLen
        invariant ended <==> !(k + 1 < |t| && t[k + 1].lo == s + keyLen - 1)
        decreases keyLen
      {
        keyLen := keyLen - 1;
        if keyLen == 0 {
          isValid := false;
          return;
        }
        pos := posInTrie[keyLen - 1];
        pos := pos + 1;
        ended := NodeEndsAt(pos, t, k);
      }
      StepSideways(pos, t, k);
      MoveToLeftMostKey(t, k + 1);
    }

    /** Whether the place after an item is past the end or starts another node. */
    method NodeEndsAt(pos: nat, ghost t: seq<Strand>, ghost k: nat) returns (ended: bool)
      requires trie.Encodes(t) && keyLen > 0 && PathTo(t, k, keyLen) && pos == posInTrie[keyLen - 1] + 1
      requires trie.startLevel + keyLen <= t[k].hi
      requires k + 1 < |t| ==> t[k + 1].lo < trie.startLevel + keyLen
      ensures ended <==> !(k + 1 < |t| && t[k + 1].lo == trie.startLevel + keyLen - 1)
    {
      hide Ones, HeightTo, Cat;
      trie.Shape(t);
      ghost var l := trie.startLevel + keyLen - 1;
      AfterItem(t, trie.startLevel, l, k);
      ended := pos >= trie.loudsBits.bv.numBits || trie.loudsBits.bv.ReadBit(pos);
      assert pos < trie.loudsBits.bv.numBits ==> trie.loudsBits.bv.ReadBit(pos) == trie.Louds(t)[pos];
    }

    method StepSideways(pos: nat, ghost t: seq<Strand>, ghost k: nat)
      requires trie.Encodes(t) && keyLen > 0 && PathTo(t, k, keyLen) && k + 1 < |t| && pos == posInTrie[keyLen - 1] + 1
      requires t[k + 1].lo == trie.startLevel + keyLen - 1
      modifies `key, `posInTrie
      ensures PathTo(t, k + 1, keyLen) && t[k + 1].InLevel(trie.startLevel + keyLen - 1)
    {
      hide Ones, HeightTo, SparsePos, Cat, LoudsSparse.Encodes, LoudsSparse.EncodesShape;
      trie.Shape(t);
      ghost var s := trie.startLevel;
      StepOnLevel(t, k);
      LabelOf(trie, t, s + keyLen - 1, k + 1);
      NextStands(t, k, k + 1);
      Set(keyLen - 1, pos);
    }

    /** Above the level of the step nothing differs, so only the last entries have to change. */
    lemma NextStands(t: seq<Strand>, k: nat, m: nat)
      requires WellFormed(t) && keyLen > 0 && PathTo(t, k, keyLen) && m == k + 1 < |t|
      requires t[m].lo == trie.startLevel + keyLen - 1
      ensures trie.startLevel + keyLen <= |t[m].key|
      ensures forall l :: trie.startLevel <= l < trie.startLevel + keyLen - 1 ==>
        key[l - trie.startLevel] == t[m].key[l] && posInTrie[l - trie.startLevel] == SparsePos(t, trie.startLevel, l, m)
    {
      hide Ones, HeightTo, SparsePos;
      forall l | trie.startLevel <= l < trie.startLevel + keyLen - 1
        ensures l < |t[m].key| && t[k].key[l] == t[m].key[l]
        ensures SparsePos(t, trie.startLevel, l, m) == SparsePos(t, trie.startLevel, l, k)
      {
        StepKeepsAbove(t, l, k);
      }
    }

    /** A strand that ends above the sparse levels leaves every sparse cursor as it is. */
    lemma PassingKeepsCursor(t: seq<Strand>, k: nat)
      requires Sized() && Cursor(t, k) && k < |t| && t[k].hi <= trie.startLevel
      ensures Cursor(t, k + 1)
    {
      hide LeafOffset, Ones;
      forall l | trie.startLevel <= l < trie.startLevel + |valuePos|
        ensures Ones(LeafFlags(t, l), k + 1) == Ones(LeafFlags(t, l), k)
      {
        LeavesElsewhere(t, l, k);
      }
    }
  }

  lemma LeafInLevel(t: seq<Strand>, k: nat)
    requires WellFormed(t) && k < |t|
    ensures t[k].hi > 0 && t[k].InLevel(t[k].hi - 1) && !t[k].HasChild(t[k].hi - 1)
  {
    assert t[k].Sized();
  }

  /** The label array at the item a strand created. */
  lemma LabelOf(trie: LoudsSparse, t: seq<Strand>, l: nat, k: nat)
    requires trie.Encodes(t) && trie.startLevel <= l && k < |t| && t[k].InLevel(l)
    ensures l < |t[k].key| && l < trie.height
    ensures SparsePos(t, trie.startLevel, l, k) == Place(t, trie.startLevel, l, k) < |trie.labels.labels|
    ensures trie.labels.labels[Place(t, trie.startLevel, l, k)] == t[k].key[l]
  {
    hide Cat, HeightTo;
    Entry(t, trie.startLevel, l, k);
    assert At(t, l, k + 1) == At(t, l, k) + 1;
  }

  /** The place after strand `k`'s item: the next strand's item if it comes in here, else a node start or the end. */
  lemma AfterItem(t: seq<Strand>, s: nat, l: nat, k: nat)
    requires WellFormed(t) && s <= l && k < |t| && l < t[k].hi && (k + 1 < |t| ==> t[k + 1].lo <= l)
    ensures l < Height(t) && SparsePos(t, s, l, k) + 1 <= |Cat(LoudsLevels(t), s, Height(t))|
    ensures var pos := SparsePos(t, s, l, k) + 1;
      if k + 1 < |t| && t[k + 1].lo == l
      then pos < |Cat(LoudsLevels(t), s, Height(t))| && !Cat(LoudsLevels(t), s, Height(t))[pos]
      else pos < |Cat(LoudsLevels(t), s, Height(t))| ==> Cat(LoudsLevels(t), s, Height(t))[pos]
  {
    hide Cat, HeightTo, Ones, SparsePos;
    PlaceAfter(t, s, l, k);
    if k + 1 < |t| && t[k + 1].lo == l {
      StepOnLevel(t, k);
      Entry(t, s, l, k + 1);
    } else {
      BoundaryIsStart(t, s, l, k + 1);
    }
  }

  /** A childless item with the greatest label is the last of its node. */
  lemma LastLabelEndsNode(t: seq<Strand>, s: nat, l: nat, k: nat)
    requires WellFormed(t) && s <= l && k < |t| && t[k].InLevel(l) && !t[k].HasChild(l)
    requires l < |t[k].key| && t[k].key[l] == TERMINATOR
    ensures l < Height(t)
    ensures var pos, louds := Place(t, s, l, k), Cat(LoudsLevels(t), s, Height(t));
      pos + 1 == |louds| || (pos + 1 < |louds| && louds[pos + 1])
  {
    hide Cat, HeightTo, Ones, SparsePos;
    if k + 1 < |t| { NextIsGreater(t, k); }
    Entry(t, s, l, k);
    OwnPlace(t, s, l, k);
    AfterItem(t, s, l, k);
  }

  lemma OwnPlace(t: seq<Strand>, s: nat, l: nat, k: nat)
    requires s <= l && k < |t| && t[k].InLevel(l)
    ensures SparsePos(t, s, l, k) == Place(t, s, l, k)
  {
  }

  lemma PlaceAfter(t: seq<Strand>, s: nat, l: nat, k: nat)
    requires WellFormed(t) && s <= l && k < |t| && l < t[k].hi
    ensures l < Height(t) && SparsePos(t, s, l, k) + 1 == Place(t, s, l, k + 1)
  {
    hide Cat, HeightTo, Ones;
    var i, x := ItemOn(t, l, k);
    LevelEntry(t, l, x);
    AtOrder(t, l, x, k + 1);
  }
}
