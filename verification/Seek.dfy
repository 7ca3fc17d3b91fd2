/**
 The lower-bound seek (moveToKeyGreaterThan of LoudsDense, LoudsSparse and FST). The trie stores
 shortened keys, so at a leaf the seek compares with the full key, found through the value.
 */
module Seek {
  import opened Bits
  import opened Labels
  import opened Levels
  import opened Strands
  import opened Encoding
  import opened DenseEncoding
  import opened Walks
  import opened Paths
  import opened Bounds
  import opened Strays
  import opened Fst
  import opened FstIter
  import opened Bitvectors
  import opened Rank
  import D = LoudsDense
  import S = LoudsSparse
  import DI = DenseIter
  import SI = SparseIter

  /** The keys are distinct and each is stored with its own index as value. */
  ghost predicate IndexValues(t: seq<Strand>, keys: seq<Key>) {
    |keys| == |t| && forall k :: 0 <= k < |t| ==> t[k].value == k && t[k].key == keys[k]
  }

  /** A dense iterator on which no value cursor is in use yet. */
  ghost predicate UnusedDense(it: DI.Iter)
    reads it`valuePosInitialized, it`valuePos
  {
    |it.valuePosInitialized| == |it.valuePos| && forall l :: 0 <= l < |it.valuePosInitialized| ==>
      !it.valuePosInitialized[l]
  }

  lemma UnusedDenseCursor(it: DI.Iter, t: seq<Strand>, m: nat)
    requires UnusedDense(it) && m <= |t|
    ensures it.Cursor(t, m)
  {
  }

  lemma ShiftDense(it: DI.Iter, t: seq<Strand>, l: nat, i: nat, x: nat)
    requires WellFormed(t) && it.PathTo(t, i, l) && i <= x < |t| && t[i].InLevel(l) && x < NodeEnd(t, l, i)
    requires l <= |t[x].key|
    ensures it.PathTo(t, x, l)
  {
    hide DensePos;
    forall d | 0 <= d < l
      ensures t[x].key[d] == t[i].key[d] && DensePos(t, d, x) == DensePos(t, d, i)
    {
      SameAbove(t, l, i, x, d);
    }
  }

  /** Appends the bit of an item the query's byte leads to. */
  method AppendItem(it: DI.Iter, pos: nat, level: nat, ghost t: seq<Strand>, ghost i: nat, ghost x: nat, ghost c: Byte)
    requires it.trie.Encodes(t) && it.PathTo(t, i, level) && level < it.trie.height && t[i].InLevel(level)
    requires Starts(t, i, level)
    requires x < |t| && ItemOf(t, level, i, x, c) && pos == DensePlace(t, level, i, c)
    modifies it`key, it`posInTrie, it`keyLen
    ensures it.PathTo(t, x, level + 1) && t[x].InLevel(level)
  {
    hide Ones, DensePos, D.LoudsDense.Encodes, D.LoudsDense.EncodesShape, HeightTo;
    it.trie.Shape(t);
    ItemPlace(t, level, i, x, c);
    ShiftDense(it, t, level, i, x);
    it.Append(pos);
  }

  lemma ItemPlace(t: seq<Strand>, l: nat, i: nat, x: nat, c: Byte)
    requires WellFormed(t) && i < |t| && t[i].InLevel(l) && Starts(t, i, l) && x < |t| && ItemOf(t, l, i, x, c)
    ensures l < |t[x].key| && t[x].key[l] == c && t[x].InLevel(l) && DensePos(t, l, x) == DensePlace(t, l, i, c)
    ensures DensePlace(t, l, i, c) % 256 == c && i <= x < NodeEnd(t, l, i)
  {
    hide Ones, NodeEnd, WellFormed, StartFlags, NodesBefore;
    StartsInNode(t, l, i, x);
    CountFromOne(Ones(StartFlags(t, l), i));
  }

  lemma CountFromOne(n: nat)
    ensures LessOne(n + 1) == n
  {
  }

  /** The query ends at a dense node: its leftmost key. */
  method DenseRunsOut(it: DI.Iter, nodeNum: nat, level: nat, ghost t: seq<Strand>, ghost i: nat)
    requires it.trie.Encodes(t) && NoTerminators(t) && it.PathTo(t, i, level) && level < it.trie.height
    requires t[i].InLevel(level) && Starts(t, i, level) && nodeNum == NodeNum(t, level, i) && nodeNum > 0
    requires UnusedDense(it) && !it.isAtPrefixKey
    modifies it
    ensures it.StandsOn(t, i)
  {
    hide Ones, DensePos, DensePlace, D.LoudsDense.Encodes, D.LoudsDense.EncodesShape, HeightTo, NoTerminators,
         NodeNum, Cat;
    it.trie.Shape(t);
    DI.NodeBeforeEnd(t, it.trie.height, level, i);
    var pos := it.trie.GetNextPos(nodeNum * 256 - 1, t);
    DI.FirstSlot(t, it.trie.height, level, i, pos);
    it.Append(pos);
    UnusedDenseCursor(it, t, i);
    it.MoveToLeftMostKey(t, i);
  }

  /** The query runs through a dense leaf: compare with the full key, and step on if it is too small. */
  method DenseLeaf(it: DI.Iter, pos: nat, q: Key, inclusive: bool, ghost t: seq<Strand>, ghost i: nat, ghost x: nat)
    returns (ghost k: nat, ghost beyond: bool)
    requires it.trie.Encodes(t) && NoTerminators(t) && IndexValues(t, it.trie.keys)
    requires it.keyLen > 0 && it.PathTo(t, x, it.keyLen) && UnusedDense(it) && !it.isAtPrefixKey
    requires var l := it.keyLen - 1;
      && i < |t| && t[i].InLevel(l) && Starts(t, i, l) && i <= x && ItemOf(t, l, i, x, t[x].key[l])
      && t[x].InLevel(l) && !t[x].HasChild(l) && pos == DensePlace(t, l, i, t[x].key[l])
    requires Matches(t[x], q)
    modifies it
    ensures Least(t, q, inclusive, k)
    ensures k < |t| ==> it.StandsOn(t, k)
    ensures k == |t| ==> !it.isValid
    ensures WellFormed(t) && it.trie.height <= Height(t) && (beyond <==> SteppedOff(t, it.trie.height, q, k))
  {
    hide Ones, DensePos, DensePlace, D.LoudsDense.Encodes, D.LoudsDense.EncodesShape, HeightTo, NoTerminators,
         NodeNum, Cat, WellFormed, Less, ItemOf, LeafOffset, SteppedOff, DI.OnLastBit;
    it.trie.Shape(t);
    UnusedDenseCursor(it, t, x);
    it.RankValuePosition(pos, t, x, i);
    var index := it.GetValue(t, x);
    var foundKey := it.trie.keys[index];
    LessTotal(q, foundKey);
    LeastAtLeaf(t, q, inclusive, x);
    LeavesNode(t, x);
    beyond := false;
    LeafSteps(t, it.trie.height, q, x);
    if Less(q, foundKey) {
      it.SetFlags(true, true, true, true);
      k := x;
    } else if Less(foundKey, q) {
      beyond := it.Next(t, x);
      k := x + 1;
    } else if !inclusive {
      beyond := it.Next(t, x);
      k := x + 1;
    } else {
      it.SetFlags(true, true, true, true);
      k := x;
    }
  }

  /** The seek steps on from strand `k-1` in the dense levels, off their last bit. */
  ghost predicate SteppedOff(t: seq<Strand>, s: nat, q: Key, k: nat)
    requires AllSized(t) && s <= Height(t)
  {
    0 < k <= |t| && LeavesLastBit(t, s, k - 1) && s <= |q| && s <= |t[k - 1].key| && q[..s] == t[k - 1].key[..s]
  }

  /** From a dense leaf the query runs through: exactly when the leaf is on the last bit and too small. */
  lemma LeafSteps(t: seq<Strand>, s: nat, q: Key, x: nat)
    requires WellFormed(t) && s <= Height(t) && x < |t| && t[x].hi <= s && Matches(t[x], q)
    ensures SteppedOff(t, s, q, x + 1) <==> t[x].hi == s && DI.OnLastBit(t, s, x)
    ensures !SteppedOff(t, s, q, x)
  {
    hide HeightTo, DensePos, Cat;
    assert t[x].Sized();
    LeavesNode(t, x);
    if SteppedOff(t, s, q, x) {
      var c := PartAt(t, x - 1, x);
      assert t[x - 1].key[c] == t[x - 1].key[..s][c] == q[..s][c] == q[c];
      MatchesByte(t[x], q, c);
    }
  }

  lemma NotThePrefix(a: Key, q: Key, s: nat, c: nat)
    requires c < s <= |q| && c < |a| && a[c] != q[c]
    ensures !(s <= |a| && q[..s] == a[..s])
  {
    if s <= |a| { assert q[..s][c] != a[..s][c]; }
  }

  /** From below the first sparse level: exactly when the strands of the node are used up on the last bit. */
  lemma SubtreeSteps(t: seq<Strand>, s: nat, q: Key, j: nat, k: nat)
    requires WellFormed(t) && 0 < s <= Height(t) && AtNode(t, q, s, j) && j <= k <= NodeEnd(t, s, j)
    ensures SteppedOff(t, s, q, k) <==> k == NodeEnd(t, s, j) && DI.OnLastBit(t, s, k - 1)
  {
    hide HeightTo, DensePos, Cat;
    if k == j {
      if j > 0 {
        var c := PartAt(t, j - 1, j);
        assert q[c] == q[..s][c] == t[j].key[..s][c];
        NotThePrefix(t[j - 1].key, q, s, c);
      }
    } else {
      SamePath(t, s, j, k - 1);
    }
  }

  lemma LeavesNode(t: seq<Strand>, x: nat)
    requires WellFormed(t) && x < |t|
    ensures x + 1 < |t| ==> t[x + 1].lo < t[x].hi
  {
    if x + 1 < |t| { assert Follows(t[x], t[x + 1]); }
  }

  /** The path down to the node that strand `i` starts at level `l`, and then the place of byte `c` in it. */
  ghost predicate OffPath(it: DI.Iter, t: seq<Strand>, l: nat, i: nat, c: Byte)
    requires i < |t|
    reads it
  {
    it.Sized() && it.keyLen == l + 1 && l < |t[i].key| && it.key[l] == c && it.posInTrie[l] == DensePlace(t, l, i, c) &&
    forall d :: 0 <= d < l ==> it.key[d] == t[i].key[d] && it.posInTrie[d] == DensePos(t, d, i)
  }

  /** The value index of a place before which `n` leaves are counted, in 32 bits. */
  function IndexBefore(n: nat): nat { (n as int - 1) % 0x1_0000_0000 }

  /**
   The byte is missing in a dense node: the iterator is left on the unset bit, shows the query's
   bytes up to there, reports itself complete, and takes for its value that of the last leaf before.
   */
  method DenseStray(it: DI.Iter, pos: nat, ghost t: seq<Strand>, ghost l: nat, ghost i: nat, ghost c: Byte)
    returns (ghost m: nat)
    requires it.trie.Encodes(t) && NoTerminators(t) && l < it.trie.height && UnusedDense(it)
    requires i < |t| && t[i].InLevel(l) && Starts(t, i, l) && pos == DensePlace(t, l, i, c)
    requires OffPath(it, t, l, i, c)
    requires forall x: nat :: !ItemOf(t, l, i, x, c)
    modifies it
    ensures it.isValid && it.IsComplete() && OffPath(it, t, l, i, c) && it.key == old(it.key)
    ensures Parts(t, l, i, c, m) && it.valuePosInitialized[l] && it.valuePos[l] == IndexBefore(LeavesBefore(t, l, m))
  {
    hide Ones, DensePos, DensePlace, HeightTo, NoTerminators, NodeNum, Cat, WellFormed, Parts, IndexBefore;
    it.trie.Shape(t);
    m := PartingStrand(t, l, i, c);
    assert m <= |t| by { PartsInRange(t, l, i, c, m); }
    var continues := it.trie.ChildBitOfNone(pos, t, l, i, c);
    if !continues {
      RankStray(it, pos, t, l, i, c, m);
      it.SetFlags(true, true, true, true);
    }
  }

  lemma PartsInRange(t: seq<Strand>, l: nat, i: nat, c: Byte, m: nat)
    requires i < |t| && Parts(t, l, i, c, m)
    ensures i <= m <= NodeEnd(t, l, i) <= |t|
  {
  }

  /** Counts the level's value index up, or ranks it: ranks subtracted in 32 bits, one less than the leaves before. */
  method RankStray(it: DI.Iter, pos: nat, ghost t: seq<Strand>, ghost l: nat, ghost i: nat, ghost c: Byte, ghost m: nat)
    requires it.trie.Encodes(t) && NoTerminators(t) && it.Sized() && it.keyLen == l + 1
    requires l < it.trie.height && i < |t| && t[i].InLevel(l) && Starts(t, i, l) && pos == DensePlace(t, l, i, c)
    requires Parts(t, l, i, c, m) && m <= |t|
    modifies it`valuePos, it`valuePosInitialized
    ensures it.Sized() && it.valuePosInitialized == old(it.valuePosInitialized)[l := true]
    ensures it.valuePos == old(it.valuePos)[l :=
      if old(it.valuePosInitialized[l]) then old(it.valuePos[l]) + 1 else IndexBefore(LeavesBefore(t, l, m))]
  {
    hide Ones, Cat, HeightTo, WellFormed, Parts, LeavesBefore, NoTerminators, DensePlace, D.LoudsDense.Encodes,
         D.LoudsDense.EncodesShape;
    it.trie.Shape(t);
    it.trie.RanksHeld(t);
    RankDifference(t, it.trie.height, l, i, c, m);
    if it.valuePosInitialized[it.keyLen - 1] {
      it.valuePos := it.valuePos[it.keyLen - 1 := it.valuePos[it.keyLen - 1] + 1];
    } else {
      it.valuePosInitialized := it.valuePosInitialized[it.keyLen - 1 := true];
      var labelRank := it.trie.labelBitmaps.Rank(pos, it.trie.Bitmaps(t));
      var childRank := it.trie.childIndicatorBitmaps.Rank(pos, it.trie.ChildBitmaps(t));
      it.valuePos := it.valuePos[it.keyLen - 1 := ((labelRank as int) - childRank - 1) % 0x1_0000_0000];
    }
  }

  /** How a dense seek can end. */
  datatype DenseEnd = Done | Stray(level: nat, node: nat) | GoesOn

  /** On the least qualifying key, or past the end, as far as the dense levels go. */
  ghost predicate Settled(it: DI.Iter, t: seq<Strand>, q: Key, inclusive: bool, k: nat)
    reads it
  {
    Least(t, q, inclusive, k) && (k < |t| ==> it.StandsOn(t, k)) && (k == |t| ==> !it.isValid)
  }

  /** The search goes on in the sparse levels, at the node of strand `j`. */
  ghost predicate HandedOver(it: DI.Iter, t: seq<Strand>, q: Key, j: nat)
    reads it
  {
    AtNode(t, q, it.trie.height, j) && it.PathTo(t, j, it.trie.height) && UnusedDense(it) && !it.isAtPrefixKey &&
    it.isValid && !it.isSearchComplete && it.isMoveLeftComplete && it.isMoveRightComplete &&
    it.sendOutNodeNum == NodeNum(t, it.trie.height, j)
  }

  /**
   Off the trie, at the node that strand `i` starts at level `l`: the iterator shows the query's own
   bytes up to the missing one, holds the places on the path and that of the missing byte, and its
   value index is that of the last leaf before; `k` is the least qualifying key it does not show.
   */
  ghost predicate Astray(it: DI.Iter, t: seq<Strand>, q: Key, inclusive: bool, l: nat, i: nat, k: nat)
    reads it
  {
    AtNode(t, q, l, i) && l < |q| && l < it.trie.height && it.isValid && it.IsComplete() && Least(t, q, inclusive, k) &&
    Parts(t, l, i, q[l], k) && k <= |t| && OffPath(it, t, l, i, q[l]) && it.key[..l + 1] == q[..l + 1] &&
    it.valuePosInitialized[l] && it.valuePos[l] == IndexBefore(LeavesBefore(t, l, k))
  }

  lemma StrayIs(it: DI.Iter, t: seq<Strand>, q: Key, inclusive: bool, l: nat, i: nat, k: nat)
    requires WellFormed(t) && AtNode(t, q, l, i) && l < |q| && l < it.trie.height && it.isValid && it.IsComplete()
    requires Parts(t, l, i, q[l], k) && k <= |t| && OffPath(it, t, l, i, q[l])
    requires it.valuePosInitialized[l] && it.valuePos[l] == IndexBefore(LeavesBefore(t, l, k))
    ensures Astray(it, t, q, inclusive, l, i, k)
  {
    hide WellFormed, LeavesBefore, DensePos, DensePlace, Least, IndexBefore;
    LeastInNode(t, q, inclusive, l, i, k);
    forall d | 0 <= d < l + 1
      ensures it.key[d] == q[d]
    {
      if d < l { assert q[d] == q[..l][d] == t[i].key[..l][d]; }
    }
  }

  method MoveDense(it: DI.Iter, q: Key, inclusive: bool, ghost t: seq<Strand>)
    returns (ghost end: DenseEnd, ghost k: nat, ghost beyond: bool)
    requires it.trie.Encodes(t) && NoTerminators(t) && IndexValues(t, it.trie.keys)
    requires |t| > 0 && |q| > 0 && it.Sized() && it.keyLen == 0 && UnusedDense(it) && !it.isAtPrefixKey
    modifies it
    ensures WellFormed(t) && AtNode(t, q, 0, 0)
    ensures end.Stray? <==> Walk(t, q, 0, 0).NoItem? && Walk(t, q, 0, 0).level < it.trie.height
    ensures end.Stray? ==> Walk(t, q, 0, 0) == NoItem(end.level, end.node)
    ensures end.Stray? ==> Astray(it, t, q, inclusive, end.level, end.node, k)
    ensures end.Done? ==> Settled(it, t, q, inclusive, k)
    ensures end.GoesOn? ==> HandedOver(it, t, q, k)
    ensures end.Done? ==> !Walk(t, q, 0, 0).NoItem?
    ensures it.trie.height <= Height(t) && (beyond <==> end.Done? && SteppedOff(t, it.trie.height, q, k))
  {
    hide Ones, DensePos, DensePlace, D.LoudsDense.Encodes, D.LoudsDense.EncodesShape, HeightTo, NoTerminators,
         NodeNum, Cat, WellFormed, Less, ItemOf, IndexValues, Least, LeafOffset, Walk, DI.Iter.StandsOn,
         LeavesLastBit;
    it.trie.Shape(t);
    beyond := false;
    RootNode(t, q);
    RootIsOneNode(t);
    var nodeNum := 0;
    ghost var i: nat := 0;
    for level := 0 to it.trie.height
      invariant AtNode(t, q, level, i) && nodeNum == NodeNum(t, level, i) && (level > 0 ==> nodeNum > 0)
      invariant Walk(t, q, 0, 0) == Walk(t, q, level, i)
      invariant it.PathTo(t, i, level) && UnusedDense(it) && !it.isAtPrefixKey && !beyond
    {
      var pos := nodeNum * 256;
      if level >= |q| {
        DenseRunsOut(it, nodeNum, level, t, i);
        LeastAtNode(t, q, inclusive, i);
        WalkExhausted(t, q, level, i);
        end, k := Done, i;
        return;
      }
      pos := pos + q[level];
      D.PlaceIs(t, level, i, q[level], pos);
      var present := it.trie.HasLabel(pos, t, level, i, q[level]);
      if !present {
        AppendStray(it, pos, level, q, t, i);
        k := DenseStray(it, pos, t, level, i, q[level]);
        WalkStops(t, q, level, i);
        end := Stray(level, i);
        StrayIs(it, t, q, inclusive, level, i, k);
        return;
      }
      ghost var x := D.TheItem(t, level, i, q[level]);
      AppendItem(it, pos, level, t, i, x, q[level]);
      WalkStep(t, q, level, i, x);
      ItemPlace(t, level, i, x, q[level]);
      var continues := it.trie.HasChildBit(pos, t, level, i, x, q[level]);
      if !continues {
        LeafItemMatches(t, q, level, i, x);
        k, beyond := DenseLeaf(it, pos, q, inclusive, t, i, x);
        end := Done;
        return;
      }
      nodeNum := it.trie.GetChildNodeNum(pos, t, level, i, x, q[level]);
      i := x;
    }
    it.sendOutNodeNum := nodeNum;
    it.SetFlags(true, false, true, true);
    WalkBelow(t, q, it.trie.height, i);
    end, k := GoesOn, i;
  }

  /** The bit of a byte that the node does not have. */
  method AppendStray(it: DI.Iter, pos: nat, level: nat, q: Key, ghost t: seq<Strand>, ghost i: nat)
    requires AtNode(t, q, level, i) && level < |q| && it.PathTo(t, i, level) && level < it.trie.height
    requires level < |t[i].key| && pos == DensePlace(t, level, i, q[level])
    modifies it`key, it`posInTrie, it`keyLen
    ensures OffPath(it, t, level, i, q[level])
  {
    hide DensePos;
    assert pos % 256 == q[level];
    it.Append(pos);
  }

  /** A walk never stops above the node it starts from. */
  lemma {:induction false} WalkBelow(t: seq<Strand>, q: Key, l: nat, i: nat)
    requires WellFormed(t) && AtNode(t, q, l, i)
    ensures Walk(t, q, l, i).NoItem? ==> Walk(t, q, l, i).level >= l
    decreases |q| - l
  {
    if l < |q| {
      if x: nat :| ItemOf(t, l, i, x, q[l]) {
        WalkStep(t, q, l, i, x);
        if t[x].HasChild(l) { WalkBelow(t, q, l + 1, x); }
      }
    }
  }

  /** A sparse iterator on which no value cursor is in use yet. */
  ghost predicate UnusedSparse(it: SI.Iter)
    reads it`valuePosInitialized, it`valuePos
  {
    |it.valuePosInitialized| == |it.valuePos| && forall j :: 0 <= j < |it.valuePosInitialized| ==>
      !it.valuePosInitialized[j]
  }

  lemma UnusedSparseCursor(it: SI.Iter, t: seq<Strand>, m: nat)
    requires UnusedSparse(it) && m <= |t|
    ensures it.Cursor(t, m)
  {
  }

  lemma ShiftSparse(it: SI.Iter, t: seq<Strand>, l: nat, i: nat, x: nat)
    requires WellFormed(t) && it.trie.startLevel <= l && it.PathTo(t, i, l - it.trie.startLevel) && i <= x < |t|
    requires t[i].InLevel(l) && x < NodeEnd(t, l, i) && l <= |t[x].key|
    ensures it.PathTo(t, x, l - it.trie.startLevel)
  {
    hide SparsePos;
    forall d | it.trie.startLevel <= d < l
      ensures t[x].key[d] == t[i].key[d]
      ensures SparsePos(t, it.trie.startLevel, d, x) == SparsePos(t, it.trie.startLevel, d, i)
    {
      SameAbove(t, l, i, x, d);
    }
  }

  /** Appends an item of the current node. */
  method AppendPlace(it: SI.Iter, c: Byte, pos: nat, ghost t: seq<Strand>, ghost level: nat, ghost i: nat, ghost x: nat)
    requires it.trie.Encodes(t) && it.trie.startLevel <= level && it.PathTo(t, i, level - it.trie.startLevel)
    requires t[i].InLevel(level) && i <= x < |t| && x < NodeEnd(t, level, i) && t[x].InLevel(level)
    requires level < |t[x].key|
    requires c == t[x].key[level] && pos == Place(t, it.trie.startLevel, level, x)
    modifies it`key, it`posInTrie, it`keyLen
    ensures it.PathTo(t, x, level + 1 - it.trie.startLevel) && it.keyLen == level + 1 - it.trie.startLevel
  {
    hide Ones, SparsePos, S.LoudsSparse.Encodes, S.LoudsSparse.EncodesShape, HeightTo, Place;
    it.trie.Shape(t);
    SI.LabelOf(it.trie, t, level, x);
    ShiftSparse(it, t, level, i, x);
    it.Append(c, pos);
  }

  /** The least greater label splits the strands of a node. */
  lemma SplitFound(t: seq<Strand>, s: nat, l: nat, i: nat, e: nat, c: Byte, p: nat, labels: seq<Byte>) returns (x: nat)
    requires WellFormed(t) && s <= l < Height(t) && i < |t| && t[i].InLevel(l) && Starts(t, i, l)
    requires e == NodeEnd(t, l, i)
    requires forall y: nat :: !ItemOf(t, l, i, y, c)
    requires labels == Cat(LabelLevels(t), s, Height(t))
    requires Place(t, s, l, i) <= p < Place(t, s, l, e) <= |labels| && labels[p] > c
    requires forall j :: Place(t, s, l, i) <= j < p ==> labels[j] <= c
    ensures i <= x < e && t[x].InLevel(l) && Place(t, s, l, x) == p && l < |t[x].key| && labels[p] == t[x].key[l]
    ensures forall k :: i <= k < x ==> l < |t[k].key| && t[k].key[l] < c
    ensures forall k :: x <= k < e ==> l < |t[k].key| && c < t[k].key[l]
  {
    hide Ones, Cat, HeightTo;
    x := PlaceInNode(t, s, l, i, p);
    Entry(t, s, l, x);
    forall k | i <= k < x
      ensures l < |t[k].key| && t[k].key[l] < c
    {
      AtMostLabel(t, s, l, i, c, p, k, x);
    }
    forall k | x <= k < e
      ensures l < |t[k].key| && c < t[k].key[l]
    {
      LabelsRise(t, l, x, k);
    }
  }

  /** A strand before place `p` hangs under a label that is at most, and then below, the byte. */
  lemma AtMostLabel(t: seq<Strand>, s: nat, l: nat, i: nat, c: Byte, p: nat, k: nat, x: nat)
    requires WellFormed(t) && s <= l && i < |t| && t[i].InLevel(l) && Starts(t, i, l) && i <= k < x <= NodeEnd(t, l, i)
    requires forall y: nat :: !ItemOf(t, l, i, y, c)
    requires p == Place(t, s, l, x) <= |Cat(LabelLevels(t), s, Height(t))|
    requires forall j :: Place(t, s, l, i) <= j < p ==> Cat(LabelLevels(t), s, Height(t))[j] <= c
    ensures l < |t[k].key| && t[k].key[l] < c
  {
    hide Ones, Cat, HeightTo;
    LabelsRise(t, l, i, k);
    var y := Ancestor(t, l, i, k);
    AtOrder(t, l, i, y);
    AtOrder(t, l, y, x);
    Entry(t, s, l, y);
    assert ItemOf(t, l, i, y, t[y].key[l]);
  }

  /** The node has no greater label: on from its last strand. */
  method NextSubtrieAfter(it: SI.Iter, pos: nat, nodeSize: nat, ghost t: seq<Strand>, ghost level: nat, ghost i: nat)
    requires it.trie.Encodes(t) && it.trie.startLevel <= level
    requires it.PathTo(t, i, level - it.trie.startLevel) && t[i].InLevel(level) && Starts(t, i, level)
    requires UnusedSparse(it) && !it.isAtTerminator
    requires pos == Place(t, it.trie.startLevel, level, i)
    requires pos + nodeSize == Place(t, it.trie.startLevel, level, NodeEnd(t, level, i))
    modifies it
    ensures var e := NodeEnd(t, level, i);
      if e < |t| && t[e].lo >= it.trie.startLevel then it.StandsOn(t, e) else it.Idle(t, e)
  {
    hide Ones, S.LoudsSparse.Encodes, S.LoudsSparse.EncodesShape, HeightTo, WellFormed, LeafOffset, Cat;
    it.trie.Shape(t);
    ghost var e := NodeEnd(t, level, i);
    LastOfNode(t, it.trie.startLevel, level, i);
    var last := pos + nodeSize - 1;
    ghost var x := PlaceInNode(t, it.trie.startLevel, level, i, last);
    SI.LabelOf(it.trie, t, level, x);
    AppendPlace(it, it.trie.labels.labels[last], last, t, level, i, x);
    LastPath(it, t, level, i, x);
    UnusedSparseCursor(it, t, e);
    it.Next(t, e - 1);
  }

  lemma LastOfNode(t: seq<Strand>, s: nat, l: nat, i: nat)
    requires WellFormed(t) && s <= l && i < |t| && t[i].InLevel(l) && Starts(t, i, l)
    ensures Place(t, s, l, i) < Place(t, s, l, NodeEnd(t, l, i))
  {
    NodeExtent(t, s, l, i);
  }

  /** Under a node's last item, the path of its creator is also the path of the node's last strand. */
  lemma LastPath(it: SI.Iter, t: seq<Strand>, l: nat, i: nat, x: nat)
    requires WellFormed(t) && it.trie.startLevel <= l && i < |t| && t[i].InLevel(l) && Starts(t, i, l)
    requires i <= x < NodeEnd(t, l, i) && t[x].InLevel(l) && it.PathTo(t, x, l + 1 - it.trie.startLevel)
    requires Place(t, it.trie.startLevel, l, x) + 1 == Place(t, it.trie.startLevel, l, NodeEnd(t, l, i))
    ensures it.PathTo(t, NodeEnd(t, l, i) - 1, l + 1 - it.trie.startLevel) && l < t[NodeEnd(t, l, i) - 1].hi
  {
    hide SparsePos, Ones;
    var z := NodeEnd(t, l, i) - 1;
    InsidePathLength(t, l, i, z);
    forall y | x < y <= z
      ensures t[y].lo >= l + 1
    {
      if t[y].lo == l {
        AtOrder(t, l, x, y);
        AtOrder(t, l, y, z + 1);
      }
    }
    forall d | it.trie.startLevel <= d < l + 1
      ensures t[z].key[d] == t[x].key[d]
      ensures SparsePos(t, it.trie.startLevel, d, z) == SparsePos(t, it.trie.startLevel, d, x)
    {
      SameAbove(t, l + 1, x, z, d);
    }
    assert it.PathTo(t, z, l + 1 - it.trie.startLevel);
  }

  lemma InsidePathLength(t: seq<Strand>, l: nat, i: nat, k: nat)
    requires WellFormed(t) && i < |t| && t[i].InLevel(l) && i <= k < NodeEnd(t, l, i)
    ensures l < t[k].hi <= |t[k].key|
  {
    LabelsRise(t, l, i, k);
  }

  /** The least greater label of the node: its leftmost key. */
  method NextSubtrieAt(it: SI.Iter, pos: nat, ghost t: seq<Strand>, ghost level: nat, ghost i: nat, ghost x: nat)
    requires it.trie.Encodes(t) && it.trie.startLevel <= level
    requires it.PathTo(t, i, level - it.trie.startLevel) && t[i].InLevel(level) && Starts(t, i, level)
    requires UnusedSparse(it) && !it.isAtTerminator
    requires i <= x < NodeEnd(t, level, i) && t[x].InLevel(level) && pos == Place(t, it.trie.startLevel, level, x)
    modifies it
    ensures it.StandsOn(t, x)
  {
    hide Ones, S.LoudsSparse.Encodes, S.LoudsSparse.EncodesShape, HeightTo, WellFormed, LeafOffset, Cat, Place;
    it.trie.Shape(t);
    SI.LabelOf(it.trie, t, level, x);
    AppendPlace(it, it.trie.labels.labels[pos], pos, t, level, i, x);
    UnusedSparseCursor(it, t, x);
    it.MoveToLeftMostKey(t, x);
  }

  /** Where a sparse seek leaves the iterator: on strand `k`, or idle when `k` lies outside the subtree. */
  ghost predicate LandsOn(it: SI.Iter, t: seq<Strand>, j: nat, k: nat)
    requires j < |t|
    reads it
  {
    var e := NodeEnd(t, it.trie.startLevel, j);
    j <= k <= e && (if k < e then it.StandsOn(t, k) else it.Idle(t, k))
  }

  /** A strand and its successor are in the same subtree unless the successor comes in above it. */
  lemma SubtreeStep(t: seq<Strand>, s: nat, j: nat, x: nat)
    requires j < |t| && j <= x < NodeEnd(t, s, j)
    ensures x + 1 < NodeEnd(t, s, j) <==> x + 1 < |t| && t[x + 1].lo >= s
  {
  }

  /** The query runs through a sparse leaf: compare with the full key, and step on if it is too small. */
  method SparseLeaf(it: SI.Iter, pos: nat, q: Key, inclusive: bool, ghost t: seq<Strand>, ghost x: nat, ghost j: nat)
    returns (ghost k: nat)
    requires it.trie.Encodes(t) && IndexValues(t, it.trie.keys)
    requires it.keyLen > 0 && it.PathTo(t, x, it.keyLen) && UnusedSparse(it) && !it.isAtTerminator
    requires var l := it.trie.startLevel + it.keyLen - 1;
      t[x].InLevel(l) && !t[x].HasChild(l) && pos == Place(t, it.trie.startLevel, l, x)
    requires Matches(t[x], q) && j < |t| && j <= x < NodeEnd(t, it.trie.startLevel, j)
    modifies it
    ensures Least(t, q, inclusive, k) && LandsOn(it, t, j, k)
  {
    hide Ones, SparsePos, S.LoudsSparse.Encodes, S.LoudsSparse.EncodesShape, HeightTo, Cat, WellFormed, Less,
         LeafOffset, Place, NodeEnd, LandsOn;
    it.trie.Shape(t);
    ghost var l := it.trie.startLevel + it.keyLen - 1;
    UnusedSparseCursor(it, t, x);
    it.RankValuePosition(pos, t, x);
    it.isValid := true;
    var index := it.GetValue(t, x);
    it.isValid := false;
    var foundKey := it.trie.keys[index];
    LessTotal(q, foundKey);
    LeastAtLeaf(t, q, inclusive, x);
    LeavesNode(t, x);
    SubtreeStep(t, it.trie.startLevel, j, x);
    if Less(q, foundKey) {
      it.isValid := true;
      k := x;
      LandsInside(it, t, j, x);
    } else if Less(foundKey, q) {
      it.Next(t, x);
      k := x + 1;
      LandsAfter(it, t, j, x);
    } else if !inclusive {
      it.Next(t, x);
      k := x + 1;
      LandsAfter(it, t, j, x);
    } else {
      it.isValid := true;
      k := x;
      LandsInside(it, t, j, x);
    }
  }

  /** One strand further, or idle at the end of the subtree. */
  lemma LandsAfter(it: SI.Iter, t: seq<Strand>, j: nat, x: nat)
    requires j < |t| && j <= x < NodeEnd(t, it.trie.startLevel, j)
    requires x + 1 < NodeEnd(t, it.trie.startLevel, j) ==> it.StandsOn(t, x + 1)
    requires x + 1 == NodeEnd(t, it.trie.startLevel, j) ==> it.Idle(t, x + 1)
    ensures LandsOn(it, t, j, x + 1)
  {
  }

  /** The byte is missing at a sparse node: the next greater label, or whatever follows the node. */
  method MoveToLeftInNextSubtrie(it: SI.Iter, pos: nat, nodeSize: nat, c: Byte, q: Key, inclusive: bool,
                                 ghost t: seq<Strand>, ghost level: nat, ghost i: nat, ghost j: nat)
    returns (ghost k: nat)
    requires it.trie.Encodes(t) && it.trie.startLevel <= level < |q| && c == q[level]
    requires AtNode(t, q, level, i) && it.PathTo(t, i, level - it.trie.startLevel)
    requires UnusedSparse(it) && !it.isAtTerminator
    requires pos == Place(t, it.trie.startLevel, level, i)
    requires pos + nodeSize == Place(t, it.trie.startLevel, level, NodeEnd(t, level, i))
    requires forall y: nat :: !ItemOf(t, level, i, y, c)
    requires j < |t| && t[j].InLevel(it.trie.startLevel) && Starts(t, j, it.trie.startLevel)
    requires j <= i < NodeEnd(t, it.trie.startLevel, j)
    modifies it
    ensures Least(t, q, inclusive, k) && LandsOn(it, t, j, k)
  {
    hide Ones, SparsePos, S.LoudsSparse.Encodes, S.LoudsSparse.EncodesShape, HeightTo, Cat, WellFormed, Less,
         LeafOffset, Place, Least;
    it.trie.Shape(t);
    ghost var s, e := it.trie.startLevel, NodeEnd(t, level, i);
    NodeInSubtree(t, s, level, j, i);
    LabelsOfNode(it.trie, t, level, i);
    var r := it.trie.labels.SearchGreaterThan(c, pos, nodeSize);
    if r.NotFound? {
      AllBelow(t, s, level, i, e, c, it.trie.labels.labels);
      LeastInNode(t, q, inclusive, level, i, e);
      NextSubtrieAfter(it, pos, nodeSize, t, level, i);
      k := e;
      if e < |t| { SubtreeStep(t, s, j, e - 1); }
    } else {
      ghost var x := SplitFound(t, s, level, i, e, c, r.pos, it.trie.labels.labels);
      LeastInNode(t, q, inclusive, level, i, x);
      NextSubtrieAt(it, r.pos, t, level, i, x);
      k := x;
    }
  }

  lemma LabelsOfNode(trie: S.LoudsSparse, t: seq<Strand>, l: nat, i: nat)
    requires trie.Encodes(t) && trie.startLevel <= l && i < |t| && t[i].InLevel(l) && Starts(t, i, l)
    ensures l < Height(t) && trie.labels.labels == Cat(LabelLevels(t), trie.startLevel, Height(t))
    ensures Increasing(trie.labels.labels, Place(t, trie.startLevel, l, i),
      Place(t, trie.startLevel, l, NodeEnd(t, l, i)))
    ensures Place(t, trie.startLevel, l, NodeEnd(t, l, i)) <= |trie.labels.labels|
  {
    hide Cat, HeightTo, Ones, WellFormed;
    Entry(t, trie.startLevel, l, i);
    NodeLabels(t, trie.startLevel, l, i);
  }

  /** No greater label: every strand of the node is smaller. */
  lemma AllBelow(t: seq<Strand>, s: nat, l: nat, i: nat, e: nat, c: Byte, labels: seq<Byte>)
    requires WellFormed(t) && s <= l < Height(t) && i < |t| && t[i].InLevel(l) && Starts(t, i, l)
    requires e == NodeEnd(t, l, i)
    requires forall y: nat :: !ItemOf(t, l, i, y, c)
    requires labels == Cat(LabelLevels(t), s, Height(t)) && Place(t, s, l, e) <= |labels|
    requires forall j :: Place(t, s, l, i) <= j < Place(t, s, l, e) ==> labels[j] <= c
    ensures forall k :: i <= k < e ==> l < |t[k].key| && t[k].key[l] < c
  {
    hide Ones, Cat, HeightTo;
    forall k | i <= k < e
      ensures l < |t[k].key| && t[k].key[l] < c
    {
      AtMostLabel(t, s, l, i, c, Place(t, s, l, e), k, e);
    }
  }

  /** The strands of a node below a node are strands of that node. */
  lemma NodeInSubtree(t: seq<Strand>, s: nat, l: nat, j: nat, i: nat)
    requires WellFormed(t) && s <= l && j < |t| && j <= i < NodeEnd(t, s, j) && i < |t|
    ensures NodeEnd(t, l, i) <= NodeEnd(t, s, j)
  {
  }

  /** The sparse part of the seek, from the node that strand `j` starts on the first sparse level. */
  method MoveSparse(it: SI.Iter, q: Key, inclusive: bool, ghost t: seq<Strand>, ghost j: nat)
    returns (overrun: bool, ghost k: nat)
    requires it.trie.Encodes(t) && Minimal(t) && |t| >= 2 && IndexValues(t, it.trie.keys)
    requires AtNode(t, q, it.trie.startLevel, j) && it.startNodeNum == NodeNum(t, it.trie.startLevel, j)
    requires it.Sized() && it.keyLen == 0 && UnusedSparse(it) && !it.isAtTerminator && !it.isValid
    modifies it
    ensures WellFormed(t)
    ensures overrun <==> S.Outcome(t, it.trie.startLevel, Walk(t, q, it.trie.startLevel, j)).PastEnd?
    ensures !overrun ==> Least(t, q, inclusive, k) && LandsOn(it, t, j, k)
  {
    hide Ones, SparsePos, S.LoudsSparse.Encodes, S.LoudsSparse.EncodesShape, HeightTo, Cat, WellFormed, Less,
         LeafOffset, Place, Least, Minimal, ItemOf, NodeNum, Walk, IndexValues, S.Oversized, NodeEnd, LandsOn,
         SI.Iter.PathTo, UnusedSparse;
    it.trie.Shape(t);
    var s := it.trie.startLevel;
    StartsWithin(t, s, j);
    EmptyPath(it, t, j);
    var pos := it.trie.GetFirstLabelPos(it.startNodeNum, t, s, j);
    var level: nat := s;
    ghost var i: nat := j;
    while level < |q|
      invariant s <= level && AtNode(t, q, level, i) && pos == Place(t, s, level, i)
      invariant j <= i < NodeEnd(t, s, j)
      invariant Walk(t, q, s, j) == Walk(t, q, level, i)
      invariant it.PathTo(t, i, level - s) && UnusedSparse(it) && !it.isAtTerminator && !it.isValid
      invariant it.startNodeNum == NodeNum(t, s, j)
      invariant if level == s then i == j else t[i].InLevel(level - 1)
      decreases |q| - level
    {
      var nodeSize := it.trie.NodeSize(pos, t, level, i);
      var found := SearchSized(it.trie, q[level], pos, nodeSize, t, level, i);
      if !found.Found? {
        WalkStops(t, q, level, i);
        overrun := found.Overrun?;
        if overrun {
          k := i;
          return;
        }
        k := MoveToLeftInNextSubtrie(it, pos, nodeSize, q[level], q, inclusive, t, level, i, j);
        return;
      }
      ghost var x: nat :| x < |t| && ItemOf(t, level, i, x, q[level]) && found.pos == Place(t, s, level, x);
      pos := found.pos;
      AppendFound(it, q[level], pos, t, level, i, x);
      NodeInSubtree(t, s, level, j, i);
      WalkStep(t, q, level, i, x);
      LeafItemMatches(t, q, level, i, x);
      var continues := it.trie.HasChildBit(pos, t, level, x);
      if !continues {
        k := SparseLeaf(it, pos, q, inclusive, t, x, j);
        overrun := false;
        return;
      }
      var nodeNum := it.trie.GetChildNodeNum(pos, t, level, x);
      pos := it.trie.GetFirstLabelPos(nodeNum, t, level + 1, x);
      level := level + 1;
      i := x;
    }
    WalkExhausted(t, q, level, i);
    SparseRunsOut(it, pos, level, q, inclusive, t, i, j);
    overrun, k := false, i;
  }

  /** Appends the item that the query's byte leads to. */
  method AppendFound(it: SI.Iter, c: Byte, pos: nat, ghost t: seq<Strand>, ghost level: nat, ghost i: nat, ghost x: nat)
    requires it.trie.Encodes(t) && it.trie.startLevel <= level && it.PathTo(t, i, level - it.trie.startLevel)
    requires i < |t| && t[i].InLevel(level) && Starts(t, i, level) && x < |t| && ItemOf(t, level, i, x, c)
    requires pos == Place(t, it.trie.startLevel, level, x)
    modifies it`key, it`posInTrie, it`keyLen
    ensures it.PathTo(t, x, level + 1 - it.trie.startLevel) && it.keyLen == level + 1 - it.trie.startLevel
    ensures i <= x < NodeEnd(t, level, i) && t[x].InLevel(level)
  {
    hide Ones, SparsePos, S.LoudsSparse.Encodes, S.LoudsSparse.EncodesShape, HeightTo, Place, WellFormed, NodeEnd,
         SI.Iter.PathTo, ItemOf, DensePos, DensePlace;
    it.trie.Shape(t);
    ItemPlace(t, level, i, x, c);
    AppendPlace(it, c, pos, t, level, i, x);
  }

  lemma EmptyPath(it: SI.Iter, t: seq<Strand>, j: nat)
    requires WellFormed(t) && it.Sized() && it.keyLen == 0 && j < |t| && t[j].InLevel(it.trie.startLevel)
    ensures it.PathTo(t, j, 0)
  {
    assert t[j].Sized();
  }

  /** The query is used up at a sparse node: its leftmost key. */
  method SparseRunsOut(it: SI.Iter, pos: nat, level: nat, q: Key, inclusive: bool,
                       ghost t: seq<Strand>, ghost i: nat, ghost j: nat)
    requires it.trie.Encodes(t) && it.trie.startLevel <= level && level == |q| && AtNode(t, q, level, i)
    requires j < |t| && j <= i < NodeEnd(t, it.trie.startLevel, j) && pos == Place(t, it.trie.startLevel, level, i)
    requires it.PathTo(t, i, level - it.trie.startLevel) && UnusedSparse(it) && !it.isAtTerminator
    requires if level == it.trie.startLevel then it.startNodeNum == NodeNum(t, level, i) else t[i].InLevel(level - 1)
    modifies it
    ensures Least(t, q, inclusive, i) && LandsOn(it, t, j, i)
  {
    hide Ones, SparsePos, S.LoudsSparse.Encodes, S.LoudsSparse.EncodesShape, HeightTo, WellFormed, Place, Least,
         NodeNum, NodeEnd, LandsOn;
    it.trie.Shape(t);
    var atTerminator := FirstIsTerminator(it.trie, pos, t, level, i);
    if atTerminator {
      assert false;
    }
    LeastAtNode(t, q, inclusive, i);
    UnusedSparseCursor(it, t, i);
    it.MoveToLeftMostKey(t, i);
    LandsInside(it, t, j, i);
  }

  /** The query is used up at a node: its first item is never taken for a terminator, whatever its label. */
  method FirstIsTerminator(trie: S.LoudsSparse, pos: nat, ghost t: seq<Strand>, ghost l: nat, ghost i: nat)
    returns (b: bool)
    requires trie.Encodes(t) && trie.startLevel <= l && i < |t| && t[i].InLevel(l)
    requires pos == Place(t, trie.startLevel, l, i)
    ensures !b
  {
    hide Ones, Cat, HeightTo, WellFormed, S.LoudsSparse.Encodes, S.LoudsSparse.EncodesShape;
    trie.Shape(t);
    Entry(t, trie.startLevel, l, i);
    SI.LabelOf(trie, t, l, i);
    var continues := trie.HasChildBit(pos, t, l, i);
    var endOfNode := trie.IsEndOfNode(pos, t);
    b := trie.labels.labels[pos] == TERMINATOR && !continues && !endOfNode;
    if b { SI.LastLabelEndsNode(t, trie.startLevel, l, i); }
  }

  lemma LandsInside(it: SI.Iter, t: seq<Strand>, j: nat, k: nat)
    requires j < |t| && j <= k < NodeEnd(t, it.trie.startLevel, j) && it.StandsOn(t, k)
    ensures LandsOn(it, t, j, k)
  {
  }

  lemma StartsWithin(t: seq<Strand>, s: nat, j: nat)
    requires j < |t|
    ensures j < NodeEnd(t, s, j)
  {
  }

  /** Searches a node whose size was computed before. */
  method SearchSized(trie: S.LoudsSparse, c: Byte, pos: nat, size: nat, ghost t: seq<Strand>, ghost l: nat,
                     ghost i: nat)
    returns (r: SearchResult)
    requires trie.Encodes(t) && Minimal(t) && |t| >= 2
    requires trie.startLevel <= l && i < |t| && t[i].InLevel(l) && Starts(t, i, l)
    requires pos == Place(t, trie.startLevel, l, i)
    requires size == if S.Oversized(t, trie.startLevel, l, i) then RunOffDistance(|trie.labels.labels|, pos)
                     else Place(t, trie.startLevel, l, NodeEnd(t, l, i)) - pos
    ensures r.Found? ==> exists x: nat :: x < |t| && ItemOf(t, l, i, x, c) && r.pos == Place(t, trie.startLevel, l, x)
    ensures !r.Found? ==> forall x: nat :: !ItemOf(t, l, i, x, c)
    ensures !r.Found? ==> (r.Overrun? <==> S.Oversized(t, trie.startLevel, l, i))
  {
    hide Ones, Cat, HeightTo, WellFormed, Minimal, S.Oversized, FirstMatch;
    trie.Searchable(t, l, i, pos, size);
    LabelsOfNode(trie, t, l, i);
    r := trie.labels.Search(c, pos, size);
    S.SearchMeans(t, trie.startLevel, l, i, c, trie.labels.labels, size, r);
  }

  /** The result a seek is for: on the least qualifying key, or invalid when there is none. */
  ghost predicate AtLowerBound(iter: Iter, t: seq<Strand>, q: Key, inclusive: bool, k: nat)
    reads iter.denseIter, iter.sparseIter
  {
    Least(t, q, inclusive, k) && (if k < |t| then iter.StandsOn(t, k) && iter.IsValid() else !iter.IsValid())
  }

  /** The query's byte is missing at a node of the dense levels. */
  ghost predicate MissingInDense(f: Fst, t: seq<Strand>, q: Key)
    requires f.Encodes(t)
  {
    RootNode(t, q);
    var w := Walk(t, q, 0, 0);
    w.NoItem? && w.level < f.SparseStartLevel()
  }

  /** The query's bytes up to and including the missing one. */
  ghost function BytesToMissing(f: Fst, t: seq<Strand>, q: Key): (r: Key)
    requires f.Encodes(t) && MissingInDense(f, t, q)
    ensures |r| <= |q| && q[..|r|] == r
  {
    MissingLevel(f, t, q);
    q[..Walk(t, q, 0, 0).level + 1]
  }

  lemma MissingLevel(f: Fst, t: seq<Strand>, q: Key)
    requires f.Encodes(t) && MissingInDense(f, t, q)
    ensures WellFormed(t) && AtNode(t, q, 0, 0) && Walk(t, q, 0, 0).NoItem? && Walk(t, q, 0, 0).level < |q|
  {
    hide Walk, D.LoudsDense.Encodes, D.LoudsDense.EncodesShape, S.LoudsSparse.Encodes, S.LoudsSparse.EncodesShape,
         Minimal;
    f.dense.Shape(t);
    RootNode(t, q);
    NoItemLevel(t, q, 0, 0);
  }

  /**
   The seek. It lands on the lower bound unless the query's byte is missing at a dense node; then
   the iterator shows the query's own bytes up to there. `overrun` marks the one case where the
   code reads a label nobody wrote, `beyond` that the word after the bitmaps was read, which makes
   no difference.
   */
  method MoveToKeyGreaterThan(f: Fst, q: Key, inclusive: bool, ghost t: seq<Strand>)
    returns (iter: Iter, overrun: bool, ghost k: nat, ghost beyond: bool)
    requires f.Encodes(t) && NoTerminators(t) && |q| > 0
    requires IndexValues(t, f.dense.keys) && f.sparse.keys == f.dense.keys
    ensures iter.Over(f) && fresh(iter) && fresh(iter.denseIter) && fresh(iter.sparseIter)
    ensures overrun <==> f.Answer(t, q).PastEnd?
    ensures !overrun && !MissingInDense(f, t, q) ==> AtLowerBound(iter, t, q, inclusive, k)
    ensures MissingInDense(f, t, q) ==> iter.IsValid() && LeftAtMissing(iter.denseIter, f, t, q, inclusive, k)
    ensures MissingInDense(f, t, q) ==> iter.denseIter.key[..iter.denseIter.keyLen] == BytesToMissing(f, t, q)
    ensures f.SparseStartLevel() <= Height(t)
    ensures beyond <==> !overrun && !MissingInDense(f, t, q) && SteppedOff(t, f.SparseStartLevel(), q, k)
  {
    hide Ones, D.LoudsDense.Encodes, D.LoudsDense.EncodesShape, S.LoudsSparse.Encodes, S.LoudsSparse.EncodesShape,
         HeightTo, NoTerminators, WellFormed, Less, IndexValues, Least, Walk, Minimal, S.Oversized, NodeNum, NodeEnd,
         DI.Iter.PathTo, SI.Iter.PathTo, DI.Iter.Cursor, SI.Iter.Cursor, Settled, HandedOver, FstIter.Iter.StandsOn,
         SteppedOff;
    f.dense.Shape(t);
    f.sparse.Shape(t);
    iter := new Iter(f);
    assert iter.sparseIter.Idle(t, 0);
    ghost var end;
    end, k, beyond := MoveDense(iter.denseIter, q, inclusive, t);
    if end.Stray? { StrayShows(iter.denseIter, f, t, q, inclusive, end, k); }
    overrun, k, beyond := FinishSeek(iter, f, q, inclusive, t, end, k, beyond);
  }

  /** Astray where the walk of the query stops. */
  ghost predicate LeftAtMissing(it: DI.Iter, f: Fst, t: seq<Strand>, q: Key, inclusive: bool, k: nat)
    requires f.Encodes(t) && MissingInDense(f, t, q)
    reads it
  {
    RootNode(t, q);
    var w := Walk(t, q, 0, 0);
    it.trie == f.dense && it.keyLen == w.level + 1 && Astray(it, t, q, inclusive, w.level, w.node, k)
  }

  lemma StrayShows(it: DI.Iter, f: Fst, t: seq<Strand>, q: Key, inclusive: bool, end: DenseEnd, k: nat)
    requires f.Encodes(t) && end.Stray? && WellFormed(t) && AtNode(t, q, 0, 0)
    requires Walk(t, q, 0, 0) == NoItem(end.level, end.node)
    requires it.trie == f.dense && Astray(it, t, q, inclusive, end.level, end.node, k)
    ensures MissingInDense(f, t, q) && LeftAtMissing(it, f, t, q, inclusive, k)
    ensures |it.key| >= it.keyLen && it.key[..it.keyLen] == BytesToMissing(f, t, q)
  {
    hide Least, Parts, LeavesBefore, DensePos, DensePlace, IndexBefore, AtNode, Walk, D.LoudsDense.Encodes,
         D.LoudsDense.EncodesShape, S.LoudsSparse.Encodes, S.LoudsSparse.EncodesShape, Minimal;
  }

  /** What the dense part of a seek hands to the rest. */
  ghost predicate DenseDone(iter: Iter, f: Fst, t: seq<Strand>, q: Key, inclusive: bool, end: DenseEnd, k: nat)
    reads iter.denseIter
  {
    WellFormed(t) && AtNode(t, q, 0, 0) && iter.Over(f) &&
    (end.Stray? <==> Walk(t, q, 0, 0).NoItem? && Walk(t, q, 0, 0).level < f.dense.height) &&
    (end.Stray? ==> iter.denseIter.isValid && iter.denseIter.IsComplete()) &&
    (end.Done? ==> !Walk(t, q, 0, 0).NoItem? && Settled(iter.denseIter, t, q, inclusive, k)) &&
    (end.GoesOn? ==> HandedOver(iter.denseIter, t, q, k))
  }

  /** Stops where the dense levels settled the seek, or completes it in the sparse ones. */
  method FinishSeek(iter: Iter, f: Fst, q: Key, inclusive: bool, ghost t: seq<Strand>, ghost end: DenseEnd,
                    ghost k0: nat, ghost beyond0: bool)
    returns (overrun: bool, ghost k: nat, ghost beyond: bool)
    requires f.Encodes(t) && NoTerminators(t)
    requires IndexValues(t, f.dense.keys) && f.sparse.keys == f.dense.keys
    requires DenseDone(iter, f, t, q, inclusive, end, k0) && iter.sparseIter.Idle(t, 0) && UnusedSparse(iter.sparseIter)
    requires f.SparseStartLevel() <= Height(t)
    requires beyond0 <==> end.Done? && SteppedOff(t, f.SparseStartLevel(), q, k0)
    modifies iter.denseIter, iter.sparseIter
    ensures beyond <==> !overrun && !end.Stray? && SteppedOff(t, f.SparseStartLevel(), q, k)
    ensures overrun <==> f.Answer(t, q).PastEnd?
    ensures end.Stray? <==> MissingInDense(f, t, q)
    ensures end.Stray? ==> unchanged(iter.denseIter) && iter.IsValid() && k == k0
    ensures !overrun && !end.Stray? ==> AtLowerBound(iter, t, q, inclusive, k)
  {
    hide Ones, D.LoudsDense.Encodes, D.LoudsDense.EncodesShape, S.LoudsSparse.Encodes, S.LoudsSparse.EncodesShape,
         HeightTo, NoTerminators, WellFormed, Less, IndexValues, Least, Walk, Minimal, S.Oversized, NodeNum, NodeEnd,
         DI.Iter.PathTo, SI.Iter.PathTo, DI.Iter.Cursor, SI.Iter.Cursor, Settled, HandedOver, FstIter.Iter.StandsOn,
         Fst.Answer, MissingInDense, AtNode, SteppedOff;
    overrun, k, beyond := false, k0, beyond0;
    if !end.GoesOn? { DenseAnswers(f, t, q, end); } else { HandedOverFlags(iter.denseIter, t, q, k); }
    if !iter.denseIter.isValid {
      SettledInvalid(iter, t, q, inclusive, k, end);
      return;
    }
    if end.Done? { SettledFlags(iter.denseIter, t, q, inclusive, k); }
    if iter.denseIter.IsComplete() {
      if end.Done? { SettledComplete(iter, f, t, q, inclusive, k); }
      return;
    }
    if !iter.denseIter.isSearchComplete {
      overrun, k, beyond := SearchOn(iter, f, q, inclusive, t, k);
      return;
    }
    UnusedSparseCursor(iter.sparseIter, t, k);
    iter.CompleteMove(f, t, k);
    StandsValid(iter, t, k);
  }

  lemma SettledFlags(it: DI.Iter, t: seq<Strand>, q: Key, inclusive: bool, k: nat)
    requires Settled(it, t, q, inclusive, k) && it.isValid
    ensures k < |t| && it.isSearchComplete && it.StandsOn(t, k) && Least(t, q, inclusive, k)
  {
  }

  lemma HandedOverFlags(it: DI.Iter, t: seq<Strand>, q: Key, j: nat)
    requires HandedOver(it, t, q, j)
    ensures it.isValid && !it.isSearchComplete
  {
  }

  lemma SettledInvalid(iter: Iter, t: seq<Strand>, q: Key, inclusive: bool, k: nat, end: DenseEnd)
    requires !iter.denseIter.isValid && !end.Stray?
    requires end.Done? ==> Settled(iter.denseIter, t, q, inclusive, k)
    requires end.GoesOn? ==> HandedOver(iter.denseIter, t, q, k)
    ensures end.Done? && AtLowerBound(iter, t, q, inclusive, k)
  {
  }

  lemma SettledComplete(iter: Iter, f: Fst, t: seq<Strand>, q: Key, inclusive: bool, k: nat)
    requires iter.Over(f) && Settled(iter.denseIter, t, q, inclusive, k) && iter.denseIter.isValid
    requires iter.denseIter.IsComplete()
    requires iter.sparseIter.Idle(t, 0) && UnusedSparse(iter.sparseIter)
    ensures AtLowerBound(iter, t, q, inclusive, k)
  {
    SettledFlags(iter.denseIter, t, q, inclusive, k);
    UnusedSparseCursor(iter.sparseIter, t, k + 1);
  }

  /** When the dense levels settle a seek, a lookup of the query never reaches the sparse ones wrongly sized. */
  lemma DenseAnswers(f: Fst, t: seq<Strand>, q: Key, end: DenseEnd)
    requires f.Encodes(t) && NoTerminators(t) && AtNode(t, q, 0, 0) && WellFormed(t)
    requires end.Stray? <==> Walk(t, q, 0, 0).NoItem? && Walk(t, q, 0, 0).level < f.dense.height
    requires end.Done? ==> !Walk(t, q, 0, 0).NoItem?
    requires !end.GoesOn?
    ensures !f.Answer(t, q).PastEnd? && (MissingInDense(f, t, q) <==> end.Stray?)
  {
    hide Walk, D.LoudsDense.Encodes, D.LoudsDense.EncodesShape, S.LoudsSparse.Encodes, S.LoudsSparse.EncodesShape,
         Minimal, NoTerminators;
  }

  /** The search goes on in the sparse levels. */
  method SearchOn(iter: Iter, f: Fst, q: Key, inclusive: bool, ghost t: seq<Strand>, ghost j: nat)
    returns (overrun: bool, ghost k: nat, ghost beyond: bool)
    requires f.Encodes(t) && NoTerminators(t) && iter.Over(f)
    requires IndexValues(t, f.dense.keys) && f.sparse.keys == f.dense.keys
    requires HandedOver(iter.denseIter, t, q, j) && iter.sparseIter.Idle(t, 0) && UnusedSparse(iter.sparseIter)
    modifies iter.denseIter, iter.sparseIter
    ensures overrun <==> f.Answer(t, q).PastEnd?
    ensures !overrun ==> AtLowerBound(iter, t, q, inclusive, k)
    ensures !MissingInDense(f, t, q)
    ensures f.SparseStartLevel() <= Height(t) && (beyond <==> !overrun && SteppedOff(t, f.SparseStartLevel(), q, k))
  {
    hide Ones, D.LoudsDense.Encodes, D.LoudsDense.EncodesShape, S.LoudsSparse.Encodes, S.LoudsSparse.EncodesShape,
         HeightTo, NoTerminators, WellFormed, Less, IndexValues, Least, Walk, Minimal, S.Oversized, NodeNum, NodeEnd,
         DI.Iter.PathTo, SI.Iter.PathTo, DI.Iter.Cursor, SI.Iter.Cursor, AtLowerBound, SteppedOff;
    f.dense.Shape(t);
    RootNode(t, q);
    HandOverNeedsTwoKeys(t, q, f.dense.height, j);
    WalkResumes(t, q, 0, 0, f.dense.height, j);
    WalkBelow(t, q, f.dense.height, j);
    iter.PassToSparse();
    overrun, k := MoveSparse(iter.sparseIter, q, inclusive, t, j);
    beyond := false;
    if !overrun {
      beyond := JoinSparse(iter, f, t, q, inclusive, j, k);
    }
  }

  /** After the sparse seek: valid there, or on to the next dense entry. */
  method JoinSparse(iter: Iter, ghost f: Fst, ghost t: seq<Strand>, ghost q: Key, ghost inclusive: bool, ghost j: nat,
                    ghost k: nat)
    returns (ghost beyond: bool)
    requires f.Encodes(t) && NoTerminators(t) && iter.Over(f)
    requires HandedOver(iter.denseIter, t, q, j) && LandsOn(iter.sparseIter, t, j, k) && Least(t, q, inclusive, k)
    modifies iter.denseIter, iter.sparseIter
    ensures AtLowerBound(iter, t, q, inclusive, k)
    ensures f.SparseStartLevel() <= Height(t) && (beyond <==> SteppedOff(t, f.SparseStartLevel(), q, k))
  {
    hide Ones, D.LoudsDense.Encodes, D.LoudsDense.EncodesShape, S.LoudsSparse.Encodes, S.LoudsSparse.EncodesShape,
         HeightTo, NoTerminators, WellFormed, Less, Least, Minimal, NodeNum, DI.Iter.PathTo, SI.Iter.PathTo,
         DI.Iter.Cursor, SI.Iter.Cursor, SteppedOff, DI.OnLastBit;
    f.dense.Shape(t);
    ghost var s := f.dense.height;
    SubtreeSteps(t, s, q, j, k);
    beyond := false;
    if !iter.sparseIter.isValid {
      InsidePathLength(t, s, j, k - 1);
      ShiftDense(iter.denseIter, t, s, j, k - 1);
      UnusedDenseCursor(iter.denseIter, t, k);
      KeyLenIs(iter.denseIter, t, k - 1, s);
      var ok;
      ok, beyond := iter.IncrementDenseIter(f, t, k - 1);
    } else {
      InsidePathLength(t, s, j, k);
      ShiftDense(iter.denseIter, t, s, j, k);
      UnusedDenseCursor(iter.denseIter, t, k + 1);
    }
  }

  lemma KeyLenIs(it: DI.Iter, t: seq<Strand>, k: nat, len: nat)
    requires it.PathTo(t, k, len)
    ensures it.keyLen == len
  {
  }

  /** What a seek with a missing dense byte shows is no key of the trie: such a seek is never right. */
  lemma MissingIsWrong(f: Fst, t: seq<Strand>, q: Key)
    requires f.Encodes(t) && MissingInDense(f, t, q)
    ensures forall k :: 0 <= k < |t| ==> t[k].hi <= |t[k].key| && t[k].Stored() != BytesToMissing(f, t, q)
  {
    hide Walk, D.LoudsDense.Encodes, D.LoudsDense.EncodesShape, S.LoudsSparse.Encodes, S.LoudsSparse.EncodesShape,
         Minimal, BytesToMissing;
    f.dense.Shape(t);
    RootNode(t, q);
    WalkFindsMatch(t, q, 0, 0);
    var shown := BytesToMissing(f, t, q);
    forall k | 0 <= k < |t|
      ensures t[k].hi <= |t[k].key| && t[k].Stored() != shown
    {
      assert t[k].Sized();
      if t[k].Stored() == shown {
        StoredMatches(t[k], q, |shown|);
      }
    }
  }

  lemma StoredMatches(s: Strand, q: Key, n: nat)
    requires s.Sized() && n <= |q| && s.Stored() == q[..n]
    ensures Matches(s, q)
  {
    assert |s.Stored()| == n;
  }

  lemma {:induction false} NoItemLevel(t: seq<Strand>, q: Key, l: nat, i: nat)
    requires WellFormed(t) && AtNode(t, q, l, i)
    ensures Walk(t, q, l, i).NoItem? ==> Walk(t, q, l, i).level < |q|
    decreases |q| - l
  {
    if l < |q| {
      if x: nat :| ItemOf(t, l, i, x, q[l]) {
        WalkStep(t, q, l, i, x);
        if t[x].HasChild(l) { NoItemLevel(t, q, l + 1, x); }
      }
    }
  }
}
