/**
 The builder (include/fst_builder.hpp). One scan over the sorted keys fills the per-level
 vectors; the trie itself is never stored, and where the previous key went is read back from
 the last label of each level.
 */
module Builder {
  import opened Bits
  import opened Words
  import opened Labels
  import opened Strands
  import opened Encoding
  import opened Growth
  import opened Keys
  import opened Levels
  import opened DenseEncoding
  import opened Bitvectors

  /** The per-level vectors hold the breadth-first encoding of the strands `u` on `h` levels. */
  ghost predicate LevelsEncode(labels: seq<seq<Byte>>, child: seq<seq<Word>>, louds: seq<seq<Word>>,
                               counts: seq<nat>, last: seq<bool>, u: seq<Strand>, h: nat) {
    AllSized(u) && Height(u) <= h &&
    |labels| == |child| == |louds| == |counts| == |last| == h &&
    forall l :: 0 <= l < h ==> LevelEncodes(labels[l], child[l], louds[l], counts[l], last[l], u, l)
  }

  ghost predicate LevelEncodes(labels: seq<Byte>, child: seq<Word>, louds: seq<Word>, count: nat, last: bool,
                               u: seq<Strand>, l: nat)
    requires AllSized(u)
  {
    labels == LevelLabels(u, l) && Fits(child, LevelChildren(u, l)) && Fits(louds, LevelLouds(u, l)) &&
    count == NodeCount(u, l) && !last
  }

  ghost predicate ValuesEncode(values: seq<seq<nat>>, u: seq<Strand>) {
    forall l :: 0 <= l < |values| ==> values[l] == LevelValues(u, l)
  }

  /** The strand `s` after its bytes up to and including level hi-1 have been placed. */
  ghost function Grown(s: Strand, hi: nat): Strand { s.(hi := hi) }

  /** The strands in place when the byte of level `level` is about to be inserted. */
  ghost function Before(p: seq<Strand>, s: Strand, level: nat): seq<Strand> {
    if level == s.lo then p else p + [Grown(s, level)]
  }

  ghost predicate Inserting(p: seq<Strand>, s: Strand, level: nat) {
    s.lo <= level < |s.key| && WellFormed(p + [Grown(s, level + 1)])
  }

  lemma InsertingPrefix(p: seq<Strand>, s: Strand, level: nat)
    requires Inserting(p, s, level)
    ensures WellFormed(p) && WellFormed(Before(p, s, level)) && level <= Height(Before(p, s, level))
    ensures if |p| > 0 then s.lo < p[|p| - 1].hi else s.lo == 0
  {
    var t := p + [Grown(s, level + 1)];
    assert forall i :: 0 <= i < |p| ==> p[i] == t[i];
    if |p| > 0 { assert Follows(t[|p| - 1], t[|p|]); }
    var u := Before(p, s, level);
    if level > s.lo {
      assert forall i :: 0 <= i < |p| ==> u[i] == t[i];
      assert |p| > 0 ==> Follows(u[|p| - 1], u[|p|]);
      SnocHeight(p, Grown(s, level));
    }
  }

  /** Levels a byte insertion leaves alone. */
  lemma InsertElsewhere(p: seq<Strand>, s: Strand, level: nat, l: nat)
    requires Inserting(p, s, level) && AllSized(p) && AllSized(Before(p, s, level)) && l != level
    ensures var u, u' := Before(p, s, level), p + [Grown(s, level + 1)];
      && LevelLabels(u', l) == LevelLabels(u, l) && LevelLouds(u', l) == LevelLouds(u, l)
      && NodeCount(u', l) == NodeCount(u, l)
      && (l + 1 != level ==> LevelChildren(u', l) == LevelChildren(u, l))
  {
    hide HeightTo, LevelLabels, LevelChildren, LevelLouds, NodeCount, LevelValues;
    SnocLevel(p, Grown(s, level + 1), l);
    SnocCounts(p, Grown(s, level + 1), l);
    if level > s.lo {
      SnocLevel(p, Grown(s, level), l);
      SnocCounts(p, Grown(s, level), l);
    }
  }

  /** One level up, the last item becomes a parent. */
  lemma InsertMarksParent(p: seq<Strand>, s: Strand, level: nat)
    requires Inserting(p, s, level) && level > 0 && AllSized(Before(p, s, level))
    ensures var u, u' := Before(p, s, level), p + [Grown(s, level + 1)];
      var n := |LevelChildren(u, level - 1)|;
      n > 0 && |LevelLabels(u, level - 1)| == n &&
      LevelChildren(u', level - 1) == LevelChildren(u, level - 1)[n - 1 := true]
  {
    hide HeightTo, LevelLabels, LevelChildren, LevelLouds, NodeCount, LevelValues, WellFormed;
    InsertingPrefix(p, s, level);
    SizedPrefix(p);
    if level > s.lo {
      MarksOwnItem(p, s, level);
    } else {
      MarksNeighboursItem(p, s, level);
    }
  }

  lemma SizedPrefix(p: seq<Strand>)
    requires WellFormed(p)
    ensures AllSized(p)
  {
  }

  /** The parent is the item that the strand itself created one level up. */
  lemma MarksOwnItem(p: seq<Strand>, s: Strand, level: nat)
    requires AllSized(p) && s.lo < level < |s.key|
    ensures var u, u' := p + [Grown(s, level)], p + [Grown(s, level + 1)];
      var n := |LevelChildren(u, level - 1)|;
      AllSized(u) && n > 0 && |LevelLabels(u, level - 1)| == n &&
      LevelChildren(u', level - 1) == LevelChildren(u, level - 1)[n - 1 := true]
  {
    hide HeightTo, LevelLabels, LevelChildren, LevelLouds, NodeCount, LevelValues;
    var before := LevelChildren(p, level - 1);
    SnocIn(p, Grown(s, level + 1), level - 1);
    SnocIn(p, Grown(s, level), level - 1);
    assert (before + [false])[|before| := true] == before + [true];
  }

  /** The parent is the last item that the strands before it left one level up; it is one already. */
  lemma MarksNeighboursItem(p: seq<Strand>, s: Strand, level: nat)
    requires WellFormed(p) && |p| > 0 && s.lo == level < |s.key| && 0 < level < p[|p| - 1].hi
    ensures var n := |LevelChildren(p, level - 1)|;
      n > 0 && |LevelLabels(p, level - 1)| == n &&
      LevelChildren(p + [Grown(s, level + 1)], level - 1) == LevelChildren(p, level - 1)[n - 1 := true]
  {
    hide HeightTo, LevelLabels, LevelChildren, LevelLouds, NodeCount, LevelValues;
    var before := LevelChildren(p, level - 1);
    SnocOut(p, Grown(s, level + 1), level - 1);
    LastItem(p, level - 1);
    assert before[|before| - 1 := true] == before;
  }

  /** On its own level a new item appears: childless so far, and a node start if nothing shares its node. */
  lemma InsertAppends(p: seq<Strand>, s: Strand, level: nat)
    requires Inserting(p, s, level) && AllSized(Before(p, s, level))
    ensures var u, u' := Before(p, s, level), p + [Grown(s, level + 1)];
      var start := |p| == 0 || s.lo < level;
      && LevelLabels(u', level) == LevelLabels(u, level) + [s.key[level]]
      && LevelChildren(u', level) == LevelChildren(u, level) + [false]
      && LevelLouds(u', level) == LevelLouds(u, level) + [start]
      && NodeCount(u', level) == NodeCount(u, level) + Bit(start)
  {
    hide HeightTo, LevelLabels, LevelChildren, LevelLouds, NodeCount, LevelValues;
    InsertingPrefix(p, s, level);
    SnocLevel(p, Grown(s, level + 1), level);
    SnocCounts(p, Grown(s, level + 1), level);
    if level > s.lo {
      SnocLevel(p, Grown(s, level), level);
      SnocCounts(p, Grown(s, level), level);
    }
  }

  /** The vectors after one byte insertion, and why they encode the grown strand. */
  lemma InsertStep(labels: seq<seq<Byte>>, child: seq<seq<Word>>, louds: seq<seq<Word>>, counts: seq<nat>,
                   last: seq<bool>, p: seq<Strand>, s: Strand, level: nat, h: nat, start: bool,
                   child': seq<seq<Word>>, louds': seq<seq<Word>>, counts': seq<nat>)
    requires Inserting(p, s, level) && level < h
    requires LevelsEncode(labels, child, louds, counts, last, Before(p, s, level), h)
    requires start == (|p| == 0 || s.lo < level)
    requires |child'| == |louds'| == |counts'| == h
    requires forall l :: 0 <= l < h && l != level ==> louds'[l] == louds[l] && counts'[l] == counts[l]
    requires forall l :: 0 <= l < h && l != level && l + 1 != level ==> child'[l] == child[l]
    requires level > 0 ==> 0 < |labels[level - 1]| <= 64 * |child[level - 1]|
    requires level > 0 ==> child'[level - 1] == SetBit(child[level - 1], |labels[level - 1]| - 1)
    requires |labels[level]| < 64 * |child[level]| && child'[level] == AppendSlot(child[level], |labels[level]|, false)
    requires |labels[level]| < 64 * |louds[level]| && louds'[level] == AppendSlot(louds[level], |labels[level]|, start)
    requires counts'[level] == counts[level] + Bit(start)
    ensures LevelsEncode(labels[level := labels[level] + [s.key[level]]], child', louds', counts', last,
      p + [Grown(s, level + 1)], h)
  {
    hide HeightTo, LevelLabels, LevelChildren, LevelLouds, NodeCount, LevelValues, Fits, SetBit, AppendSlot, Before,
         WellFormed, Grown;
    var u, u' := Before(p, s, level), p + [Grown(s, level + 1)];
    var labels' := labels[level := labels[level] + [s.key[level]]];
    InsertingPrefix(p, s, level);
    SizedPrefix(p);
    SizedPrefix(u);
    SizedPrefix(u');
    NewHeight(p, s, level);
    forall l | 0 <= l < h
      ensures LevelEncodes(labels'[l], child'[l], louds'[l], counts'[l], last[l], u', l)
    {
      assert LevelEncodes(labels[l], child[l], louds[l], counts[l], last[l], u, l);
      if l == level {
        InsertAppends(p, s, level);
        AppendFits(child[l], LevelChildren(u, l), false);
        AppendFits(louds[l], LevelLouds(u, l), start);
      } else {
        InsertElsewhere(p, s, level, l);
        if l + 1 == level {
          InsertMarksParent(p, s, level);
          SetBitFits(child[l], LevelChildren(u, l), |labels[l]| - 1);
        }
      }
    }
  }

  lemma BeforeHeight(p: seq<Strand>, s: Strand, level: nat)
    ensures Height(p) <= Height(Before(p, s, level))
  {
    SnocHeight(p, Grown(s, level));
  }

  class FstBuilder {
    var sparseDenseRatio: nat
    var sparseStartLevel: nat

    var values: seq<seq<nat>>
    var labels: seq<seq<Byte>>
    var childIndicatorBits: seq<seq<Word>>
    var loudsBits: seq<seq<Word>>
    var valuesSparse: seq<nat>

    var bitmapLabels: seq<seq<Word>>
    var bitmapChildIndicatorBits: seq<seq<Word>>
    var prefixkeyIndicatorBits: seq<seq<Word>>
    var valuesDense: seq<nat>

    var nodeCounts: seq<nat>
    var isLastItemTerminator: seq<bool>

    constructor (ratio: nat)
      ensures sparseDenseRatio == ratio && sparseStartLevel == 0
      ensures labels == [] && values == [] && Encodes([]) && ValuesReady([])
      ensures valuesSparse == [] && valuesDense == []
      ensures bitmapLabels == [] && bitmapChildIndicatorBits == [] && prefixkeyIndicatorBits == []
    {
      sparseDenseRatio, sparseStartLevel := ratio, 0;
      values, labels, childIndicatorBits, loudsBits, valuesSparse := [], [], [], [], [];
      bitmapLabels, bitmapChildIndicatorBits, prefixkeyIndicatorBits, valuesDense := [], [], [], [];
      nodeCounts, isLastItemTerminator := [], [];
    }

    /** The sparse vectors are the encoding of `u`, on exactly as many levels as `u` reaches. */
    ghost predicate Encodes(u: seq<Strand>)
      reads this
    {
      EncodesOn(u, Height(u))
    }

    ghost predicate EncodesOn(u: seq<Strand>, h: nat)
      reads this
    {
      LevelsEncode(labels, childIndicatorBits, loudsBits, nodeCounts, isLastItemTerminator, u, h)
    }

    /** The values of each level's childless items, in order. */
    ghost predicate ValuesReady(u: seq<Strand>)
      reads `values, `labels
    {
      |values| == |labels| && ValuesEncode(values, u)
    }

    function TreeHeight(): nat
      reads this
    {
      |labels|
    }

    function NumItems(level: nat): nat
      requires level < |labels|
      reads this
    {
      |labels[level]|
    }

    predicate IsCharCommonPrefix(c: Byte, level: nat)
      requires |isLastItemTerminator| == |labels|
      requires level < |labels| ==> |labels[level]| > 0
      reads this
    {
      level < TreeHeight() && !isLastItemTerminator[level] && c == labels[level][|labels[level]| - 1]
    }

    predicate IsLevelEmpty(level: nat)
      reads this
    {
      level >= TreeHeight() || labels[level] == []
    }

    method AddLevel(ghost u: seq<Strand>, ghost p: seq<Strand>)
      requires EncodesOn(u, TreeHeight()) && AllSized(p) && Height(p) <= TreeHeight() && ValuesReady(p)
      modifies this
      ensures EncodesOn(u, TreeHeight()) && ValuesReady(p) && TreeHeight() == old(TreeHeight()) + 1
      ensures unchanged(`sparseDenseRatio) && unchanged(`sparseStartLevel)
      ensures unchanged(`valuesSparse) && unchanged(`valuesDense)
      ensures unchanged(`bitmapLabels) && unchanged(`bitmapChildIndicatorBits) && unchanged(`prefixkeyIndicatorBits)
    {
      hide HeightTo, LevelLabels, LevelChildren, LevelLouds, LevelValues, NodeCount, Flat;
      NoItemsAbove(u, TreeHeight());
      NoItemsAbove(p, TreeHeight());
      EmptyFits();
      labels := labels + [[]];
      values := values + [[]];
      childIndicatorBits := childIndicatorBits + [[Zero()]];
      loudsBits := loudsBits + [[Zero()]];
      nodeCounts := nodeCounts + [0];
      isLastItemTerminator := isLastItemTerminator + [false];
    }

    /** A full last word is followed by a fresh one. */
    method MoveToNextItemSlot(level: nat)
      requires level < |labels| && level < |childIndicatorBits| && level < |loudsBits|
      modifies `childIndicatorBits, `loudsBits
      ensures childIndicatorBits == old(childIndicatorBits)[level :=
        if NumItems(level) % 64 == 0 then old(childIndicatorBits)[level] + [Zero()] else old(childIndicatorBits)[level]]
      ensures loudsBits == old(loudsBits)[level :=
        if NumItems(level) % 64 == 0 then old(loudsBits)[level] + [Zero()] else old(loudsBits)[level]]
    {
      if NumItems(level) % 64 == 0 {
        childIndicatorBits := childIndicatorBits[level := childIndicatorBits[level] + [Zero()]];
        loudsBits := loudsBits[level := loudsBits[level] + [Zero()]];
      }
    }

    /** Places the byte of the strand `s` at `level`; the strands `p` are already complete. */
    method InsertKeyByte(c: Byte, level: nat, isStartOfNode: bool, isTerm: bool, ghost p: seq<Strand>, ghost s: Strand)
      requires Inserting(p, s, level) && c == s.key[level] && !isTerm
      requires isStartOfNode == (|p| == 0 || s.lo < level)
      requires Encodes(Before(p, s, level)) && ValuesReady(p)
      modifies this
      ensures Encodes(p + [Grown(s, level + 1)]) && ValuesReady(p)
      ensures unchanged(`sparseDenseRatio) && unchanged(`sparseStartLevel)
      ensures unchanged(`valuesSparse) && unchanged(`valuesDense)
      ensures unchanged(`bitmapLabels) && unchanged(`bitmapChildIndicatorBits) && unchanged(`prefixkeyIndicatorBits)
    {
      hide HeightTo, LevelLabels, LevelChildren, LevelLouds, NodeCount, LevelValues, SetBit, AppendSlot, WellFormed,
           Before, Grown, LevelEncodes;
      ghost var u := Before(p, s, level);
      InsertingPrefix(p, s, level);
      BeforeHeight(p, s, level);
      if level >= TreeHeight() {
        AddLevel(u, p);
      }
      ghost var h := TreeHeight();
      NewHeight(p, s, level);
      ghost var labels0, child0, louds0 := labels, childIndicatorBits, loudsBits;
      ghost var counts0, last0 := nodeCounts, isLastItemTerminator;
      SlotsReady(p, s, level, h);

      PlaceByte(c, level, isStartOfNode, isTerm);
      InsertStep(labels0, child0, louds0, counts0, last0, p, s, level, h, isStartOfNode,
                 childIndicatorBits, loudsBits, nodeCounts);
    }

    /** The writes of one byte insertion, on a level that exists. */
    method PlaceByte(c: Byte, level: nat, isStartOfNode: bool, isTerm: bool)
      requires level < |labels| == |childIndicatorBits| == |loudsBits| == |nodeCounts| == |isLastItemTerminator|
      requires |labels[level]| < 64 * |childIndicatorBits[level]| && |labels[level]| < 64 * |loudsBits[level]|
      requires level > 0 ==> 0 < |labels[level - 1]| <= 64 * |childIndicatorBits[level - 1]|
      modifies `labels, `childIndicatorBits, `loudsBits, `nodeCounts, `isLastItemTerminator
      ensures labels == old(labels)[level := old(labels)[level] + [c]]
      ensures isLastItemTerminator == old(isLastItemTerminator)[level := isTerm]
      ensures nodeCounts == old(nodeCounts)[level := old(nodeCounts)[level] + Bit(isStartOfNode)]
      ensures loudsBits == old(loudsBits)[level :=
        AppendSlot(old(loudsBits)[level], |old(labels)[level]|, isStartOfNode)]
      ensures |childIndicatorBits| == |old(childIndicatorBits)|
      ensures childIndicatorBits[level] == AppendSlot(old(childIndicatorBits)[level], |old(labels)[level]|, false)
      ensures level > 0 ==>
        childIndicatorBits[level - 1] == SetBit(old(childIndicatorBits)[level - 1], |old(labels)[level - 1]| - 1)
      ensures forall l :: 0 <= l < |childIndicatorBits| && l != level && l + 1 != level ==>
        childIndicatorBits[l] == old(childIndicatorBits)[l]
    {
      hide SetBit;
      // the parent item now has a child
      if level > 0 {
        childIndicatorBits :=
          childIndicatorBits[level - 1 := SetBit(childIndicatorBits[level - 1], NumItems(level - 1) - 1)];
      }
      labels := labels[level := labels[level] + [c]];
      if isStartOfNode {
        loudsBits := loudsBits[level := SetBit(loudsBits[level], NumItems(level) - 1)];
        nodeCounts := nodeCounts[level := nodeCounts[level] + 1];
      }
      isLastItemTerminator := isLastItemTerminator[level := isTerm];
      MoveToNextItemSlot(level);
    }

    /** What the last label of a level says about the previous key. */
    lemma PeekLast(t: seq<Strand>, m: nat, level: nat)
      requires WellFormed(t) && m < |t| && level <= t[m].lo && Encodes(t[..m])
      ensures m == 0 ==> TreeHeight() == 0
      ensures m > 0 ==> level < TreeHeight() && |labels[level]| > 0 && !isLastItemTerminator[level]
      ensures m > 0 ==> (labels[level][|labels[level]| - 1] == t[m].key[level] <==> level < t[m].lo)
      ensures m > 0 && level < t[m].lo ==>
        |labels[level]| == |LevelChildren(t[..m], level)| && LevelChildren(t[..m], level)[|labels[level]| - 1]
    {
      hide HeightTo, LevelLabels, LevelChildren, LevelLouds, NodeCount, LevelValues, Fits;
      if m > 0 {
        var p := t[..m];
        assert forall i :: 0 <= i < m ==> p[i] == t[i];
        assert Follows(t[m - 1], t[m]);
        LastItem(p, level);
        assert LevelEncodes(labels[level], childIndicatorBits[level], loudsBits[level], nodeCounts[level],
                            isLastItemTerminator[level], p, level);
        if level < t[m].lo { SameByte(t[m - 1].key, t[m].key, t[m].lo, level); }
      } else {
        assert t[..m] == [];
        NoHeight();
      }
    }

    /** Walks down while the key follows the previous one; that is exactly the shared length. */
    method SkipCommonPrefix(key: Key, ghost t: seq<Strand>, ghost m: nat) returns (level: nat)
      requires WellFormed(t) && m < |t| && key == t[m].key && Encodes(t[..m])
      modifies `childIndicatorBits
      ensures Encodes(t[..m]) && level == t[m].lo
    {
      hide HeightTo, LevelsEncode;
      level := 0;
      PeekLast(t, m, level);
      EncodesLengths(t[..m]);
      while level < |key| && IsCharCommonPrefix(key[level], level)
        invariant level <= t[m].lo && Encodes(t[..m])
        invariant |isLastItemTerminator| == |labels| == |childIndicatorBits|
        invariant m == 0 ==> TreeHeight() == 0
        invariant m > 0 ==> level < TreeHeight() && |labels[level]| > 0 && !isLastItemTerminator[level]
        invariant m > 0 ==> (labels[level][|labels[level]| - 1] == t[m].key[level] <==> level < t[m].lo)
        invariant m > 0 && level < t[m].lo ==>
          |labels[level]| == |LevelChildren(t[..m], level)| && LevelChildren(t[..m], level)[|labels[level]| - 1]
      {
        MarkAgain(t[..m], level);
        childIndicatorBits := childIndicatorBits[level := SetBit(childIndicatorBits[level], NumItems(level) - 1)];
        level := level + 1;
        PeekLast(t, m, level);
      }
    }

    lemma EncodesLengths(u: seq<Strand>)
      requires Encodes(u)
      ensures |isLastItemTerminator| == |labels| == |childIndicatorBits| == |loudsBits| == |nodeCounts|
    {
    }

    /** Setting a child bit that is already set changes nothing that is encoded. */
    lemma MarkAgain(u: seq<Strand>, level: nat)
      requires Encodes(u) && level < TreeHeight() && |labels[level]| == |LevelChildren(u, level)| > 0
      requires LevelChildren(u, level)[|labels[level]| - 1]
      ensures |labels[level]| <= 64 * |childIndicatorBits[level]|
      ensures LevelsEncode(labels, childIndicatorBits[level := SetBit(childIndicatorBits[level], |labels[level]| - 1)],
                           loudsBits, nodeCounts, isLastItemTerminator, u, Height(u))
    {
      hide HeightTo, LevelLabels, LevelChildren, LevelLouds, NodeCount, SetBit, Holds;
      assert LevelEncodes(labels[level], childIndicatorBits[level], loudsBits[level], nodeCounts[level],
                          isLastItemTerminator[level], u, level);
      var bits := LevelChildren(u, level);
      SetBitFits(childIndicatorBits[level], bits, |labels[level]| - 1);
      assert bits[|labels[level]| - 1 := true] == bits;
    }

    /** Inserts bytes of the key until its stored prefix differs from the next key. */
    method InsertKeyBytesToTrieUntilUnique(key: Key, value: nat, nextKey: Key, startLevel: nat, ghost t: seq<Strand>,
                                           ghost m: nat)
      returns (level: nat)
      requires WellFormed(t) && Minimal(t) && m < |t| && key == t[m].key && value == t[m].value
      requires nextKey == (if m + 1 < |t| then t[m + 1].key else []) && startLevel == t[m].lo
      requires Encodes(t[..m]) && ValuesReady(t[..m])
      modifies this
      ensures Encodes(t[..m + 1]) && ValuesReady(t[..m + 1]) && level == t[m].hi
      ensures unchanged(`sparseDenseRatio) && unchanged(`sparseStartLevel)
      ensures unchanged(`valuesSparse) && unchanged(`valuesDense)
      ensures unchanged(`bitmapLabels) && unchanged(`bitmapChildIndicatorBits) && unchanged(`prefixkeyIndicatorBits)
    {
      hide HeightTo, LevelsEncode, ValuesReady, WellFormed, Minimal, Inserting, Grown;
      ghost var p, s := t[..m], t[m];
      StageReady(t, m);
      StopCondition(t, m, nextKey);
      level := startLevel;
      StartIsEmpty(t, m);
      var isStartOfNode := IsLevelEmpty(level);
      InsertKeyByte(key[level], level, isStartOfNode, false, p, s);
      level := level + 1;
      if !(level > |nextKey| || key[..level] != nextKey[..level]) {
        isStartOfNode := true;
        GoesOn(t, m, nextKey, level);
        while level < |key| && level < |nextKey| && key[level - 1] == nextKey[level - 1]
          invariant s.lo < level <= s.hi
          invariant level < |key| && level < |nextKey| && key[level - 1] == nextKey[level - 1] <==> level < s.hi
          invariant Encodes(p + [Grown(s, level)]) && ValuesReady(p)
          invariant unchanged(`sparseDenseRatio) && unchanged(`sparseStartLevel)
          invariant unchanged(`valuesSparse) && unchanged(`valuesDense)
          invariant unchanged(`bitmapLabels) && unchanged(`bitmapChildIndicatorBits)
          invariant unchanged(`prefixkeyIndicatorBits)
        {
          InsertKeyByte(key[level], level, isStartOfNode, false, p, s);
          level := level + 1;
          GoesOn(t, m, nextKey, level);
        }
      }
      PushValue(p, s, level, value);
      assert t[..m + 1] == p + [s];
    }

    /** values_[level - 1].emplace_back(value) */
    method PushValue(ghost p: seq<Strand>, ghost s: Strand, level: nat, value: nat)
      requires s.Sized() && level == s.hi && value == s.value && AllSized(p)
      requires Encodes(p + [Grown(s, level)]) && ValuesReady(p)
      modifies `values
      ensures Encodes(p + [s]) && ValuesReady(p + [s])
    {
      hide LevelValues, LevelEncodes;
      assert Grown(s, level) == s;
      SnocHeight(p, s);
      forall l: nat
        ensures LevelValues(p + [s], l)
          == LevelValues(p, l) + (if s.InLevel(l) && !s.HasChild(l) then [s.value] else [])
      {
        SnocCounts(p, s, l);
      }
      values := values[level - 1 := values[level - 1] + [value]];
    }

    /** At its first level a key opens a node exactly when it is the first key. */
    lemma StartIsEmpty(t: seq<Strand>, m: nat)
      requires WellFormed(t) && m < |t| && Encodes(t[..m])
      ensures IsLevelEmpty(t[m].lo) <==> m == 0
    {
      hide HeightTo, LevelLabels, LevelChildren, LevelLouds, NodeCount, LevelValues, Fits;
      PeekLast(t, m, t[m].lo);
    }

    /** The scan over the keys: one strand per run of equal keys. */
    method BuildSparse(keys: seq<Key>, vals: seq<nat>)
      requires ValidKeys(keys, vals) && Encodes([]) && ValuesReady([])
      modifies this
      ensures Encodes(StrandsOf(keys, vals)) && ValuesReady(StrandsOf(keys, vals))
      ensures unchanged(`sparseDenseRatio) && unchanged(`sparseStartLevel)
      ensures unchanged(`valuesSparse) && unchanged(`valuesDense)
      ensures unchanged(`bitmapLabels) && unchanged(`bitmapChildIndicatorBits) && unchanged(`prefixkeyIndicatorBits)
    {
      hide HeightTo, LevelsEncode, ValuesReady, WellFormed, Minimal, StrandOf, Positions, Ones, StrandsOf, LessByByte;
      ghost var t := StrandsOf(keys, vals);
      StrandsAreTrie(keys, vals);
      ghost var m: nat := 0;
      var i := 0;
      assert t[..0] == [];
      ScanStart(keys);
      while i < |keys|
        invariant ScanAt(keys, i, m) && m <= |t|
        invariant Encodes(t[..m]) && ValuesReady(t[..m])
        invariant unchanged(`sparseDenseRatio) && unchanged(`sparseStartLevel)
        invariant unchanged(`valuesSparse) && unchanged(`valuesDense)
        invariant unchanged(`bitmapLabels) && unchanged(`bitmapChildIndicatorBits) && unchanged(`prefixkeyIndicatorBits)
      {
        ScanStrand(keys, vals, i, m);
        var level := SkipCommonPrefix(keys[i], t, m);
        var curpos := i;
        while i + 1 < |keys| && keys[curpos] == keys[i + 1]
          invariant curpos <= i < |keys| && forall x :: curpos <= x <= i ==> keys[x] == keys[curpos]
        {
          i := i + 1;
        }
        ScanRun(keys, vals, curpos, i, m);
        if i < |keys| - 1 {
          level := InsertKeyBytesToTrieUntilUnique(keys[curpos], vals[curpos], keys[i + 1], level, t, m);
        } else {
          level := InsertKeyBytesToTrieUntilUnique(keys[curpos], vals[curpos], [], level, t, m);
        }
        i := i + 1;
        m := m + 1;
      }
      assert t[..m] == t by { ScanEnd(keys, vals, m); }
    }

    method ComputeDenseMem(downtoLevel: nat) returns (mem: nat)
      requires downtoLevel <= |nodeCounts|
      ensures mem == DenseMem(nodeCounts, downtoLevel)
    {
      mem := 0;
      for level := 0 to downtoLevel
        invariant mem == DenseMem(nodeCounts, level)
      {
        mem := mem + 2 * 256 * nodeCounts[level];
        if level > 0 {
          mem := mem + (nodeCounts[level - 1] / 8 + 1);
        }
      }
    }

    method ComputeSparseMem(startLevel: nat) returns (mem: nat)
      requires startLevel <= |labels|
      ensures mem == SparseMem(labels, startLevel)
    {
      mem := 0;
      SparseMemSplit(labels, startLevel, startLevel);
      for level := startLevel to |labels|
        invariant mem + SparseMem(labels, level) == SparseMem(labels, startLevel)
      {
        var numItems := |labels[level]|;
        mem := mem + (numItems + 2 * numItems / 8 + 1);
      }
    }

    /** Goes down as long as the dense encoding of the levels above is cheap enough. */
    method FindCutoff() returns (cutoffLevel: nat)
      requires |nodeCounts| == |labels| > 0
      ensures 1 <= cutoffLevel <= |labels|
      ensures forall k :: 0 <= k < |labels| ==>
        (k < cutoffLevel <==> DenseMem(nodeCounts, k) * sparseDenseRatio < SparseMem(labels, k))
    {
      hide DenseMem, SparseMem;
      cutoffLevel := 0;
      var denseMem := ComputeDenseMem(cutoffLevel);
      var sparseMem := ComputeSparseMem(cutoffLevel);
      while cutoffLevel < TreeHeight() && denseMem * sparseDenseRatio < sparseMem
        invariant cutoffLevel <= TreeHeight()
        invariant denseMem == DenseMem(nodeCounts, cutoffLevel) && sparseMem == SparseMem(labels, cutoffLevel)
        invariant forall k :: 0 <= k < cutoffLevel ==> WorthDense(nodeCounts, labels, sparseDenseRatio, k)
      {
        cutoffLevel := cutoffLevel + 1;
        denseMem := ComputeDenseMem(cutoffLevel);
        sparseMem := ComputeSparseMem(cutoffLevel);
      }
      FirstLevelIsCheap(nodeCounts, labels, sparseDenseRatio);
      forall k | cutoffLevel <= k < TreeHeight()
        ensures !WorthDense(nodeCounts, labels, sparseDenseRatio, k)
      {
        CostsMonotone(nodeCounts, labels, sparseDenseRatio, cutoffLevel, k);
      }
      forall k | 0 <= k < TreeHeight()
        ensures k < cutoffLevel <==> DenseMem(nodeCounts, k) * sparseDenseRatio < SparseMem(labels, k)
      {
        assert k < cutoffLevel <==> WorthDense(nodeCounts, labels, sparseDenseRatio, k);
      }
    }

    method DetermineCutoffLevel(ghost t: seq<Strand>)
      requires Encodes(t) && ValuesReady(t) && |t| > 0 && valuesDense == [] && valuesSparse == []
      modifies `sparseStartLevel, `valuesDense, `valuesSparse, `values
      ensures 1 <= sparseStartLevel <= TreeHeight() == Height(t)
      ensures forall k :: 0 <= k < TreeHeight() ==>
        (k < sparseStartLevel <==> DenseMem(nodeCounts, k) * sparseDenseRatio < SparseMem(labels, k))
      ensures valuesDense == Cat(ValueLevels(t), 0, sparseStartLevel)
      ensures valuesSparse == Cat(ValueLevels(t), sparseStartLevel, Height(t))
      ensures values == []
    {
      hide LevelEncodes, LevelValues, DenseMem, SparseMem, HeightTo;
      HeightPositive(t);
      sparseStartLevel := FindCutoff();
      SplitValues(t);
    }

    /** The values of the dense levels, then those of the sparse levels. */
    method SplitValues(ghost t: seq<Strand>)
      requires |labels| == Height(t) && ValuesReady(t) && sparseStartLevel <= Height(t)
      requires valuesDense == [] && valuesSparse == []
      modifies `valuesDense, `valuesSparse, `values
      ensures valuesDense == Cat(ValueLevels(t), 0, sparseStartLevel)
      ensures valuesSparse == Cat(ValueLevels(t), sparseStartLevel, Height(t))
      ensures values == []
    {
      hide HeightTo, LevelValues;
      for level := 0 to sparseStartLevel
        invariant values == old(values) && valuesSparse == []
        invariant valuesDense == Cat(ValueLevels(t), 0, level)
      {
        valuesDense := valuesDense + values[level];
      }
      for level := sparseStartLevel to |values|
        invariant values == old(values) && valuesDense == Cat(ValueLevels(t), 0, sparseStartLevel)
        invariant valuesSparse == Cat(ValueLevels(t), sparseStartLevel, level)
      {
        valuesSparse := valuesSparse + values[level];
      }
      values := [];
    }

    predicate IsStartOfNode(level: nat, pos: nat)
      requires level < |loudsBits| && pos / 64 < |loudsBits[level]|
      reads this
    {
      loudsBits[level][pos / 64][pos % 64]
    }

    predicate IsTerminator(level: nat, pos: nat)
      requires level < |labels| && pos < |labels[level]|
      requires level < |childIndicatorBits| && pos / 64 < |childIndicatorBits[level]|
      reads this
    {
      labels[level][pos] == TERMINATOR && !childIndicatorBits[level][pos / 64][pos % 64]
    }

    /** What the accessors read on an encoded level. */
    lemma ReadLevel(t: seq<Strand>, level: nat, pos: nat)
      requires Encodes(t) && level < Height(t) && pos < |Items(t, level)|
      ensures level < |labels| == |loudsBits| == |childIndicatorBits| == |nodeCounts|
      ensures |labels[level]| == |Items(t, level)| && labels[level][pos] == LevelLabels(t, level)[pos]
      ensures pos / 64 < |loudsBits[level]| && IsStartOfNode(level, pos) == LevelLouds(t, level)[pos]
      ensures pos / 64 < |childIndicatorBits[level]|
      ensures childIndicatorBits[level][pos / 64][pos % 64] == LevelChildren(t, level)[pos]
      ensures IsStartOfNode(level, pos) && IsTerminator(level, pos) <==> TerminatorAt(t, level, pos)
    {
      hide HeightTo, LevelLabels, LevelChildren, LevelLouds, NodeCount, LevelValues;
      assert LevelEncodes(labels[level], childIndicatorBits[level], loudsBits[level], nodeCounts[level],
                          isLastItemTerminator[level], t, level);
      assert Flat(loudsBits[level])[pos] == LevelLouds(t, level)[pos];
      assert Flat(childIndicatorBits[level])[pos] == LevelChildren(t, level)[pos];
    }

    /** Zeroed bitmaps for every node of a level. */
    method InitDenseVectors(level: nat)
      requires level < |nodeCounts|
      modifies `bitmapLabels, `bitmapChildIndicatorBits, `prefixkeyIndicatorBits
      ensures bitmapLabels == old(bitmapLabels) + [Zeros(4 * nodeCounts[level])]
      ensures bitmapChildIndicatorBits == old(bitmapChildIndicatorBits) + [Zeros(4 * nodeCounts[level])]
      ensures prefixkeyIndicatorBits == old(prefixkeyIndicatorBits) + [Zeros(WordsFor(nodeCounts[level]))]
    {
      var bitmap, children, prefix: seq<Word> := [], [], [];
      for nc := 0 to nodeCounts[level]
        invariant bitmap == Zeros(4 * nc) && children == Zeros(4 * nc) && prefix == Zeros(WordsFor(nc))
      {
        bitmap := bitmap + [Zero(), Zero(), Zero(), Zero()];
        children := children + [Zero(), Zero(), Zero(), Zero()];
        if nc % 64 == 0 {
          prefix := prefix + [Zero()];
        }
      }
      bitmapLabels := bitmapLabels + [bitmap];
      bitmapChildIndicatorBits := bitmapChildIndicatorBits + [children];
      prefixkeyIndicatorBits := prefixkeyIndicatorBits + [prefix];
    }

    method SetLabelAndChildIndicatorBitmap(level: nat, nodeNum: nat, pos: nat)
      requires level < |labels| && pos < |labels[level]| && level < |childIndicatorBits|
      requires pos / 64 < |childIndicatorBits[level]|
      requires level < |bitmapLabels| && level < |bitmapChildIndicatorBits|
      requires nodeNum * 256 + labels[level][pos] < 64 * |bitmapLabels[level]|
      requires nodeNum * 256 + labels[level][pos] < 64 * |bitmapChildIndicatorBits[level]|
      modifies `bitmapLabels, `bitmapChildIndicatorBits
      ensures bitmapLabels
        == old(bitmapLabels)[level := SetBit(old(bitmapLabels)[level], nodeNum * 256 + labels[level][pos])]
      ensures bitmapChildIndicatorBits == old(bitmapChildIndicatorBits)[level :=
        if childIndicatorBits[level][pos / 64][pos % 64]
        then SetBit(old(bitmapChildIndicatorBits)[level], nodeNum * 256 + labels[level][pos])
        else old(bitmapChildIndicatorBits)[level]]
    {
      var c := labels[level][pos];
      bitmapLabels := bitmapLabels[level := SetBit(bitmapLabels[level], nodeNum * 256 + c)];
      if childIndicatorBits[level][pos / 64][pos % 64] {
        bitmapChildIndicatorBits :=
          bitmapChildIndicatorBits[level := SetBit(bitmapChildIndicatorBits[level], nodeNum * 256 + c)];
      }
    }

    /** The dense vectors of a level after its first `n` items. */
    ghost predicate DenseSoFar(t: seq<Strand>, level: nat, n: nat)
      requires AllSized(t) && n <= |Items(t, level)|
      reads this
    {
      level < |bitmapLabels| == |bitmapChildIndicatorBits| == |prefixkeyIndicatorBits| &&
      |bitmapLabels[level]| == |bitmapChildIndicatorBits[level]| == 4 * NodeCount(t, level) &&
      Holds(bitmapLabels[level], Mark(256 * NodeCount(t, level), Slots(t, level), LabelFlags(t, level), n)) &&
      Holds(bitmapChildIndicatorBits[level],
        Mark(256 * NodeCount(t, level), Slots(t, level), LevelChildren(t, level), n)) &&
      Holds(prefixkeyIndicatorBits[level],
        Mark(NodeCount(t, level), NodesOfItems(t, level), TerminatorFlags(t, level), n))
    }

    /** Levels other than the one being filled keep their vectors. */
    twostate predicate OtherLevelsKept(level: nat)
      reads this
    {
      |bitmapLabels| == |old(bitmapLabels)| && |bitmapChildIndicatorBits| == |old(bitmapChildIndicatorBits)| &&
      |prefixkeyIndicatorBits| == |old(prefixkeyIndicatorBits)| &&
      (forall l :: 0 <= l < |bitmapLabels| && l != level ==> bitmapLabels[l] == old(bitmapLabels)[l]) &&
      (forall l :: 0 <= l < |bitmapChildIndicatorBits| && l != level ==>
        bitmapChildIndicatorBits[l] == old(bitmapChildIndicatorBits)[l]) &&
      (forall l :: 0 <= l < |prefixkeyIndicatorBits| && l != level ==>
        prefixkeyIndicatorBits[l] == old(prefixkeyIndicatorBits)[l])
    }

    /** Item `pos` of a level goes into the bitmaps, or into the prefix-key bits. */
    method PlaceItem(level: nat, nodeNum: nat, pos: nat, ghost t: seq<Strand>)
      requires WellFormed(t) && Encodes(t) && level < Height(t) && pos < |Items(t, level)|
      requires nodeNum == NodeOfItem(t, level, pos) && DenseSoFar(t, level, pos)
      modifies `bitmapLabels, `bitmapChildIndicatorBits, `prefixkeyIndicatorBits
      ensures DenseSoFar(t, level, pos + 1) && OtherLevelsKept(level)
    {
      hide HeightTo, LevelLabels, LevelChildren, LevelLouds, NodeCount, Holds, Mark, TerminatorAt, LevelsEncode,
           SetBit, Items, NodeOfItem;
      ReadLevel(t, level, pos);
      SlotInBounds(t, level, pos);
      MarkItem(t, level, pos, bitmapLabels[level], bitmapChildIndicatorBits[level], prefixkeyIndicatorBits[level]);
      if IsStartOfNode(level, pos) && IsTerminator(level, pos) {
        prefixkeyIndicatorBits := prefixkeyIndicatorBits[level := SetBit(prefixkeyIndicatorBits[level], nodeNum)];
      } else {
        SetLabelAndChildIndicatorBitmap(level, nodeNum, pos);
      }
    }

    method BuildDenseLevel(level: nat, ghost t: seq<Strand>)
      requires WellFormed(t) && Encodes(t) && level < Height(t)
      requires DenseSoFar(t, level, 0)
      modifies `bitmapLabels, `bitmapChildIndicatorBits, `prefixkeyIndicatorBits
      ensures DenseSoFar(t, level, |Items(t, level)|) && OtherLevelsKept(level)
    {
      hide HeightTo, LevelLabels, LevelChildren, LevelLouds, Holds, Mark, TerminatorAt, LevelsEncode, DenseSoFar,
           Items, NodeOfItem;
      LevelCounted(t, level);
      if NumItems(level) == 0 {
        return;
      }
      var nodeNum := 0;
      FirstNode(t, level);
      PlaceItem(level, nodeNum, 0, t);
      for pos := 1 to NumItems(level)
        invariant Encodes(t) && nodeNum == NodeOfItem(t, level, pos - 1)
        invariant DenseSoFar(t, level, pos) && OtherLevelsKept(level)
      {
        ReadLevel(t, level, pos);
        NextNode(t, level, pos);
        if IsStartOfNode(level, pos) {
          nodeNum := nodeNum + 1;
        }
        PlaceItem(level, nodeNum, pos, t);
      }
    }

    lemma LevelCounted(t: seq<Strand>, level: nat)
      requires Encodes(t) && level < Height(t)
      ensures level < |labels| == |loudsBits| == |childIndicatorBits| == |nodeCounts|
      ensures |labels[level]| == |Items(t, level)| && nodeCounts[level] == NodeCount(t, level)
    {
      assert LevelEncodes(labels[level], childIndicatorBits[level], loudsBits[level], nodeCounts[level],
                          isLastItemTerminator[level], t, level);
    }

    /** Re-encodes the levels above the cutoff, whatever cutoff was chosen. */
    method BuildDense(ghost t: seq<Strand>)
      requires WellFormed(t) && Encodes(t) && sparseStartLevel <= Height(t)
      requires bitmapLabels == [] && bitmapChildIndicatorBits == [] && prefixkeyIndicatorBits == []
      modifies `bitmapLabels, `bitmapChildIndicatorBits, `prefixkeyIndicatorBits
      ensures |bitmapLabels| == |bitmapChildIndicatorBits| == |prefixkeyIndicatorBits| == sparseStartLevel
      ensures forall l :: 0 <= l < sparseStartLevel ==> DenseSoFar(t, l, |Items(t, l)|)
    {
      hide HeightTo, LevelLabels, LevelChildren, LevelLouds, Holds, Mark, TerminatorAt, LevelsEncode, Items, NodeOfItem;
      for level := 0 to sparseStartLevel
        invariant Encodes(t)
        invariant |bitmapLabels| == |bitmapChildIndicatorBits| == |prefixkeyIndicatorBits| == level
        invariant forall l :: 0 <= l < level ==> DenseSoFar(t, l, |Items(t, l)|)
      {
        LevelCounted(t, level);
        InitDenseVectors(level);
        DenseStart(t, level);
        BuildDenseLevel(level, t);
      }
    }

    lemma DenseStart(t: seq<Strand>, level: nat)
      requires AllSized(t) && level < |bitmapLabels| == |bitmapChildIndicatorBits| == |prefixkeyIndicatorBits|
      requires bitmapLabels[level] == bitmapChildIndicatorBits[level] == Zeros(4 * NodeCount(t, level))
      requires prefixkeyIndicatorBits[level] == Zeros(WordsFor(NodeCount(t, level)))
      ensures DenseSoFar(t, level, 0)
    {
      ZerosHold(4 * NodeCount(t, level), Mark(256 * NodeCount(t, level), Slots(t, level), LabelFlags(t, level), 0));
      ZerosHold(4 * NodeCount(t, level), Mark(256 * NodeCount(t, level), Slots(t, level), LevelChildren(t, level), 0));
      ZerosHold(WordsFor(NodeCount(t, level)),
        Mark(NodeCount(t, level), NodesOfItems(t, level), TerminatorFlags(t, level), 0));
    }

    /** Builds the vectors of both encodings. */
    method Build(keys: seq<Key>, vals: seq<nat>)
      requires ValidKeys(keys, vals) && Encodes([]) && ValuesReady([])
      requires valuesDense == [] && valuesSparse == []
      requires bitmapLabels == [] && bitmapChildIndicatorBits == [] && prefixkeyIndicatorBits == []
      modifies this
      ensures Built(StrandsOf(keys, vals)) && unchanged(`sparseDenseRatio)
      ensures forall k :: 0 <= k < TreeHeight() ==>
        (k < sparseStartLevel <==> DenseMem(nodeCounts, k) * sparseDenseRatio < SparseMem(labels, k))
      ensures values == []
    {
      hide HeightTo, LevelsEncode, StrandsOf, LevelLabels, LevelValues, DenseSoFar, DenseMem, SparseMem, Minimal,
           LessByByte;
      ghost var t := StrandsOf(keys, vals);
      StrandsAreTrie(keys, vals);
      BuildSparse(keys, vals);
      DetermineCutoffLevel(t);
      BuildDense(t);
    }

    /** Everything the dense and sparse structures are made from, for the cutoff that was chosen. */
    ghost predicate Built(t: seq<Strand>)
      reads this
    {
      WellFormed(t) && Encodes(t) && 1 <= sparseStartLevel <= Height(t) &&
      |bitmapLabels| == |bitmapChildIndicatorBits| == |prefixkeyIndicatorBits| == sparseStartLevel &&
      (forall l :: 0 <= l < sparseStartLevel ==> DenseSoFar(t, l, |Items(t, l)|)) &&
      valuesDense == Cat(ValueLevels(t), 0, sparseStartLevel) &&
      valuesSparse == Cat(ValueLevels(t), sparseStartLevel, Height(t))
    }

    /** There is room for the next bit on this level, and the parent level has an item. */
    lemma SlotsReady(p: seq<Strand>, s: Strand, level: nat, h: nat)
      requires Inserting(p, s, level) && level < h && EncodesOn(Before(p, s, level), h)
      ensures |labels[level]| < 64 * |childIndicatorBits[level]| && |labels[level]| < 64 * |loudsBits[level]|
      ensures level > 0 ==> 0 < |labels[level - 1]| <= 64 * |childIndicatorBits[level - 1]|
      ensures !isLastItemTerminator[level]
    {
      hide HeightTo, LevelLabels, LevelChildren, LevelLouds, NodeCount, LevelValues, Holds, Before;
      var u := Before(p, s, level);
      assert LevelEncodes(labels[level], childIndicatorBits[level], loudsBits[level], nodeCounts[level],
                          isLastItemTerminator[level], u, level);
      if level > 0 {
        InsertMarksParent(p, s, level);
        assert LevelEncodes(labels[level - 1], childIndicatorBits[level - 1], loudsBits[level - 1],
                            nodeCounts[level - 1], isLastItemTerminator[level - 1], u, level - 1);
      }
    }
  }

  /** Each byte of the stored prefix can be placed in turn. */
  lemma StageReady(t: seq<Strand>, m: nat)
    requires WellFormed(t) && m < |t|
    ensures t[m].Sized() && AllSized(t[..m])
    ensures forall level :: t[m].lo <= level < t[m].hi ==> Inserting(t[..m], t[m], level)
  {
    var p, s := t[..m], t[m];
    assert forall i :: 0 <= i < m ==> p[i] == t[i];
    forall level | s.lo <= level < s.hi
      ensures Inserting(p, s, level)
    {
      var u := p + [Grown(s, level + 1)];
      assert forall i :: 0 <= i < m ==> u[i] == t[i];
      if m > 0 { assert Follows(t[m - 1], t[m]); }
    }
  }

  /** Comparing the bytes placed so far with the next key tells whether the prefix is unique yet. */
  lemma StopCondition(t: seq<Strand>, m: nat, nextKey: Key)
    requires WellFormed(t) && Minimal(t) && m < |t| && nextKey == (if m + 1 < |t| then t[m + 1].key else [])
    ensures var first := t[m].lo + 1;
      first <= |t[m].key| && (first > |nextKey| || t[m].key[..first] != nextKey[..first] <==> first == t[m].hi)
  {
    var s := t[m];
    assert s.hi == 1 + Max(s.lo, NextLo(t, m));
    if m + 1 < |t| {
      var n := t[m + 1];
      assert Follows(s, n);
      assert s.key[n.lo] != nextKey[n.lo];
      var first := s.lo + 1;
      if n.lo < first <= |nextKey| {
        assert s.key[..first][n.lo] != nextKey[..first][n.lo];
      } else if first <= n.lo {
        assert s.key[..first] == s.key[..n.lo][..first] && nextKey[..first] == nextKey[..n.lo][..first];
      }
    }
  }

  lemma GoesOn(t: seq<Strand>, m: nat, nextKey: Key, level: nat)
    requires WellFormed(t) && Minimal(t) && m < |t| && nextKey == (if m + 1 < |t| then t[m + 1].key else [])
    requires t[m].lo + 1 < t[m].hi && t[m].lo < level <= t[m].hi
    ensures level < |t[m].key| && level < |nextKey| && t[m].key[level - 1] == nextKey[level - 1] <==> level < t[m].hi
  {
    var s := t[m];
    assert s.hi == 1 + Max(s.lo, NextLo(t, m));
    if m + 1 < |t| {
      var n := t[m + 1];
      assert Follows(s, n);
      assert s.key[n.lo] != nextKey[n.lo];
      if level <= n.lo { SameByte(s.key, nextKey, n.lo, level - 1); }
    }
  }

  function Zeros(n: nat): (ws: seq<Word>)
    ensures |ws| == n
  {
    seq(n, _ => Zero())
  }

  lemma ZerosHold(n: nat, bits: seq<bool>)
    requires |bits| <= 64 * n && forall p :: 0 <= p < |bits| ==> !bits[p]
    ensures Holds(Zeros(n), bits)
  {
    forall p | 0 <= p < 64 * n
      ensures !Flat(Zeros(n))[p]
    {
      assert Flat(Zeros(n))[p] == Zeros(n)[p / 64][p % 64];
    }
  }

  lemma SetBitHolds(ws: seq<Word>, bits: seq<bool>, pos: nat)
    requires Holds(ws, bits) && pos < |bits|
    ensures Holds(SetBit(ws, pos), bits[pos := true])
  {
    hide SetBit;
    SetBitFlat(ws, pos);
  }

  lemma SlotInBounds(t: seq<Strand>, level: nat, pos: nat)
    requires WellFormed(t) && level < Height(t) && pos < |Items(t, level)|
    ensures NodeOfItem(t, level, pos) < NodeCount(t, level)
    ensures 256 * NodeOfItem(t, level, pos) + LevelLabels(t, level)[pos] < 256 * NodeCount(t, level)
    ensures Slots(t, level)[pos] == 256 * NodeOfItem(t, level, pos) + LevelLabels(t, level)[pos]
    ensures NodesOfItems(t, level)[pos] == NodeOfItem(t, level, pos)
  {
    hide Ones, HeightTo, LevelLabels, LevelChildren, LevelLouds;
    StartsSoFar(t, level, pos);
  }

  /** What one item adds to the three dense vectors of its level. */
  lemma MarkItem(t: seq<Strand>, level: nat, pos: nat, bitmap: seq<Word>, children: seq<Word>, prefix: seq<Word>)
    requires WellFormed(t) && level < Height(t) && pos < |Items(t, level)|
    requires Holds(bitmap, Mark(256 * NodeCount(t, level), Slots(t, level), LabelFlags(t, level), pos))
    requires Holds(children, Mark(256 * NodeCount(t, level), Slots(t, level), LevelChildren(t, level), pos))
    requires Holds(prefix, Mark(NodeCount(t, level), NodesOfItems(t, level), TerminatorFlags(t, level), pos))
    ensures Slots(t, level)[pos] < 64 * |bitmap| && Slots(t, level)[pos] < 64 * |children|
    ensures NodesOfItems(t, level)[pos] < 64 * |prefix|
    ensures Holds(if TerminatorAt(t, level, pos) then bitmap else SetBit(bitmap, Slots(t, level)[pos]),
                  Mark(256 * NodeCount(t, level), Slots(t, level), LabelFlags(t, level), pos + 1))
    ensures Holds(if LevelChildren(t, level)[pos] then SetBit(children, Slots(t, level)[pos]) else children,
                  Mark(256 * NodeCount(t, level), Slots(t, level), LevelChildren(t, level), pos + 1))
    ensures Holds(if TerminatorAt(t, level, pos) then SetBit(prefix, NodesOfItems(t, level)[pos]) else prefix,
                  Mark(NodeCount(t, level), NodesOfItems(t, level), TerminatorFlags(t, level), pos + 1))
    ensures TerminatorAt(t, level, pos) ==> !LevelChildren(t, level)[pos]
  {
    hide HeightTo, LevelLabels, LevelChildren, LevelLouds, NodeCount, Mark, SetBit, Items, NodeOfItem, Holds;
    SlotInBounds(t, level, pos);
    HoldsLength(bitmap, Mark(256 * NodeCount(t, level), Slots(t, level), LabelFlags(t, level), pos));
    HoldsLength(children, Mark(256 * NodeCount(t, level), Slots(t, level), LevelChildren(t, level), pos));
    HoldsLength(prefix, Mark(NodeCount(t, level), NodesOfItems(t, level), TerminatorFlags(t, level), pos));
    MarkStep(256 * NodeCount(t, level), Slots(t, level), LabelFlags(t, level), pos);
    MarkStep(256 * NodeCount(t, level), Slots(t, level), LevelChildren(t, level), pos);
    MarkStep(NodeCount(t, level), NodesOfItems(t, level), TerminatorFlags(t, level), pos);
    SetBitHolds(bitmap, Mark(256 * NodeCount(t, level), Slots(t, level), LabelFlags(t, level), pos),
      Slots(t, level)[pos]);
    SetBitHolds(children, Mark(256 * NodeCount(t, level), Slots(t, level), LevelChildren(t, level), pos),
      Slots(t, level)[pos]);
    SetBitHolds(prefix, Mark(NodeCount(t, level), NodesOfItems(t, level), TerminatorFlags(t, level), pos),
      NodesOfItems(t, level)[pos]);
  }

  lemma HoldsLength(ws: seq<Word>, bits: seq<bool>)
    requires Holds(ws, bits)
    ensures |bits| <= 64 * |ws|
  {
  }

  lemma FirstNode(t: seq<Strand>, level: nat)
    requires WellFormed(t) && level < Height(t) && 0 < |Items(t, level)|
    ensures NodeOfItem(t, level, 0) == 0
  {
    FirstStarts(t, level);
    assert Ones(LevelLouds(t, level), 0) == 0;
  }

  lemma NextNode(t: seq<Strand>, level: nat, pos: nat)
    requires WellFormed(t) && level < Height(t) && 0 < pos < |Items(t, level)|
    ensures NodeOfItem(t, level, pos) == NodeOfItem(t, level, pos - 1) + Bit(LevelLouds(t, level)[pos])
  {
    StartsSoFar(t, level, pos - 1);
  }

  /** The scan stands at the first key of the run of strand `m`, or at the end. */
  ghost predicate ScanAt(keys: seq<Key>, i: nat, m: nat) {
    i <= |keys| && m == Ones(FirstFlags(keys), i) && (i < |keys| ==> FirstFlags(keys)[i])
  }

  lemma ScanStart(keys: seq<Key>)
    ensures ScanAt(keys, 0, 0)
  {
  }

  lemma ScanStrand(keys: seq<Key>, vals: seq<nat>, i: nat, m: nat)
    requires |vals| == |keys| && ScanAt(keys, i, m) && i < |keys|
    ensures m < |StrandsOf(keys, vals)|
    ensures StrandsOf(keys, vals)[m].key == keys[i] && StrandsOf(keys, vals)[m].value == vals[i]
  {
    hide Ones, Positions;
    PositionAt(FirstFlags(keys), |keys|, i);
  }

  lemma ScanRun(keys: seq<Key>, vals: seq<nat>, curpos: nat, i: nat, m: nat)
    requires |vals| == |keys| && ScanAt(keys, curpos, m) && curpos <= i < |keys|
    requires forall x :: curpos <= x <= i ==> keys[x] == keys[curpos]
    requires i + 1 < |keys| ==> keys[i + 1] != keys[curpos]
    ensures ScanAt(keys, i + 1, m + 1) && m < |StrandsOf(keys, vals)|
    ensures i + 1 < |keys| ==> m + 1 < |StrandsOf(keys, vals)| && StrandsOf(keys, vals)[m + 1].key == keys[i + 1]
    ensures i + 1 == |keys| ==> m + 1 == |StrandsOf(keys, vals)|
  {
    var f := FirstFlags(keys);
    assert Ones(f, curpos + 1) == m + 1;
    OnesZero(f, curpos + 1, i + 1);
    ScanStrand(keys, vals, curpos, m);
    if i + 1 < |keys| {
      ScanStrand(keys, vals, i + 1, m + 1);
    }
  }

  lemma ScanEnd(keys: seq<Key>, vals: seq<nat>, m: nat)
    requires |vals| == |keys| && ScanAt(keys, |keys|, m)
    ensures m == |StrandsOf(keys, vals)|
  {
  }

  /** Cost estimates of the two encodings, in bytes scaled as the builder scales them. */
  function DenseMem(counts: seq<nat>, d: nat): nat
    requires d <= |counts|
  {
    if d == 0 then 0
    else DenseMem(counts, d - 1) + 2 * 256 * counts[d - 1] + (if d - 1 > 0 then counts[d - 2] / 8 + 1 else 0)
  }

  function SparseMem(labels: seq<seq<Byte>>, s: nat): nat
    requires s <= |labels|
    decreases |labels| - s
  {
    if s == |labels| then 0 else |labels[s]| + 2 * |labels[s]| / 8 + 1 + SparseMem(labels, s + 1)
  }

  lemma {:induction false} DenseMemMono(counts: seq<nat>, a: nat, b: nat)
    requires a <= b <= |counts|
    ensures DenseMem(counts, a) <= DenseMem(counts, b)
    decreases b
  {
    if a < b { DenseMemMono(counts, a, b - 1); }
  }

  lemma {:induction false} SparseMemSplit(labels: seq<seq<Byte>>, a: nat, b: nat)
    requires a <= b <= |labels|
    ensures SparseMem(labels, b) <= SparseMem(labels, a)
    decreases b - a
  {
    if a < b { SparseMemSplit(labels, a + 1, b); }
  }

  /** The test of the cutoff loop: the levels above `k` are cheap enough as bitmaps. */
  predicate WorthDense(counts: seq<nat>, labels: seq<seq<Byte>>, ratio: nat, k: nat)
    requires k <= |counts| && k <= |labels|
  {
    DenseMem(counts, k) * ratio < SparseMem(labels, k)
  }

  lemma FirstLevelIsCheap(counts: seq<nat>, labels: seq<seq<Byte>>, ratio: nat)
    requires |labels| > 0
    ensures WorthDense(counts, labels, ratio, 0)
  {
  }

  /** Once the dense levels cost too much, going deeper only makes it worse. */
  lemma CostsMonotone(counts: seq<nat>, labels: seq<seq<Byte>>, ratio: nat, a: nat, b: nat)
    requires a <= b <= |counts| && b <= |labels|
    requires !WorthDense(counts, labels, ratio, a)
    ensures !WorthDense(counts, labels, ratio, b)
  {
    DenseMemMono(counts, a, b);
    SparseMemSplit(labels, a, b);
    TimesMono(DenseMem(counts, a), DenseMem(counts, b), ratio);
  }

  lemma TimesMono(x: nat, y: nat, r: nat)
    requires x <= y
    ensures x * r <= y * r
  {
  }

  lemma HeightPositive(t: seq<Strand>)
    requires |t| > 0 && AllSized(t)
    ensures Height(t) > 0
  {
    assert t[0].Sized();
  }

  lemma NoHeight()
    ensures Height([]) == 0
  {
  }

  lemma NewHeight(p: seq<Strand>, s: Strand, level: nat)
    requires Inserting(p, s, level)
    ensures Height(p + [Grown(s, level + 1)]) == Max(Height(Before(p, s, level)), level + 1)
  {
    SnocHeight(p, Grown(s, level + 1));
    SnocHeight(p, Grown(s, level));
  }
}
