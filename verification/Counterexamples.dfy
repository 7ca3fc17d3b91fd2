/**
 Concrete tries on which the code does not do what a caller would expect. Each goes with the
 exact condition proved elsewhere.
 */
module Counterexamples {
  import opened Bits
  import opened Labels
  import opened Strands
  import opened Encoding
  import opened DenseEncoding
  import opened Walks
  import opened Fst
  import opened Consequences
  import opened Overruns
  import opened Seek
  import opened Bounds
  import opened Strays
  import opened Keys
  import opened KeySpec
  import opened Builder
  import S = LoudsSparse
  import D = LoudsDense
  import DI = DenseIter

  /** A single key that begins with the reserved byte. */
  const LONE_255: seq<Strand> := [Strand([255, 1], 0, 1, 7)]

  /** The key is in the trie, and looking it up misses; see Overruns.LookupsMeetSpec. */
  lemma LoneReservedKeyIsLost(f: Fst)
    requires f.Encodes(LONE_255)
    ensures Matches(LONE_255[0], [255, 1]) && f.Answer(LONE_255, [255, 1]) == S.Miss
  {
    f.dense.Shape(LONE_255);
    OneKeyTerminator(LONE_255);
    TerminatorMisses(f, LONE_255, [255, 1]);
    assert [255, 1][..1] == [255];
  }

  /** The strand comes from a list of one key, whatever the cost ratio. */
  method LookUpLoneKey(sparseDenseRatio: nat) returns (r: S.LookupResult)
    ensures ValidKeys([[255, 1]], [7]) && r == S.Miss
  {
    hide Fst.Encodes, Fst.Answer, Matches, RightCutoff;
    LoneIsBuilt();
    var f := Create([[255, 1]], [7], sparseDenseRatio);
    r := f.LookupKey([255, 1], LONE_255);
    LoneReservedKeyIsLost(f);
  }

  lemma LoneIsBuilt()
    ensures ValidKeys([[255, 1]], [7]) && StrandsOf([[255, 1]], [7]) == LONE_255
  {
    var keys: seq<Key> := [[255, 1]];
    AllFirst(keys, 1);
    PositionAt(FirstFlags(keys), 1, 0);
    assert StrandsOf(keys, [7])[0] == StrandOf(keys, [7], 0);
  }

  /** The keys [0, 0] to [0, n - 1]: one node of `n` labels on the second level. */
  function Fan(n: nat): (t: seq<Strand>)
    requires n <= 256
    ensures |t| == n
  {
    seq(n, k requires 0 <= k < n => Strand([0, k], if k == 0 then 0 else 1, 2, k))
  }

  lemma FanIsTrie(n: nat)
    requires 2 <= n <= 256
    ensures WellFormed(Fan(n)) && Minimal(Fan(n)) && Height(Fan(n)) == 2
  {
    var t := Fan(n);
    forall k | 0 < k < n
      ensures Follows(t[k - 1], t[k])
    {
      assert t[k - 1].key[..1] == [0] == t[k].key[..1];
    }
    forall k | 0 <= k < n
      ensures t[k].hi == 1 + Max(t[k].lo, NextLo(t, k))
    {
      assert NextLo(t, k) <= 1;
    }
    assert t[0].hi == 2;
  }

  /** The fan's second level is one node of `n` items. */
  lemma FanLevel(n: nat)
    requires 2 <= n <= 256
    ensures LastNode(Fan(n), 0) && NodeEnd(Fan(n), 1, 0) == n
    ensures Offset(Fan(n), 1, 2) == n && Place(Fan(n), 1, 1, 0) == 0
  {
    hide Positions, HeightTo, Ones, Fan, WellFormed, Minimal;
    var t := Fan(n);
    FanIsTrie(n);
    FanItems(n);
    AtNone(t, 1);
    assert Offset(t, 1, 2) == Offset(t, 1, 1) + |Items(t, 1)|;
  }

  lemma FanItems(n: nat)
    requires 2 <= n <= 256
    ensures forall k :: 0 <= k < n ==> Fan(n)[k].InLevel(1) && (k > 0 ==> Fan(n)[k].lo == 1)
    ensures At(Fan(n), 1, n) == n && |Items(Fan(n), 1)| == n
  {
    hide Positions;
    OnesOfAll(ItemFlags(Fan(n), 1), n);
  }

  lemma AtNone(t: seq<Strand>, l: nat)
    ensures At(t, l, 0) == 0
  {
  }

  /**
   Such a node of 65 to 255 labels, not a multiple of 64, is the last one and crosses into a part
   word. Looking up an absent key under it reads past the labels; see Overruns.PastEndExactly.
   */
  lemma AbsentKeyReadsPastEnd(f: Fst, n: nat)
    requires 64 < n < 256 && n % 64 != 0
    requires f.Encodes(Fan(n)) && f.SparseStartLevel() == 1
    ensures f.Answer(Fan(n), [0, 255]) == S.PastEnd
  {
    hide Ones, Positions, HeightTo, Fst.Answer, Fst.Encodes, Fan, Offset, Place, LastNode;
    var t, q := Fan(n), [0, 255];
    FanIsTrie(n);
    FanLevel(n);
    TwoKeysNoTerminators(t);
    FanQuery(n, q);
    PastEndWhen(f, t, q, 0);
  }

  function FanKeys(n: nat): (keys: seq<Key>)
    requires n <= 256
    ensures |keys| == n
  {
    seq(n, k requires 0 <= k < n => [0, k])
  }

  /** The fan is the trie of its own keys. */
  lemma FanIsBuilt(n: nat)
    requires 2 <= n <= 256
    ensures ValidKeys(FanKeys(n), seq(n, k => k)) && StrandsOf(FanKeys(n), seq(n, k => k)) == Fan(n)
  {
    hide Lcp;
    var keys, values := FanKeys(n), seq(n, k => k);
    forall i | 0 < i < n
      ensures keys[i - 1] != keys[i] && Lcp(keys[i - 1], keys[i]) == 1 && LessByByte(keys[i - 1], keys[i])
    {
      assert keys[i - 1][..1] == [0] == keys[i][..1];
      LcpUnique(keys[i - 1], keys[i], 1);
    }
    AllFirst(keys, n);
    forall k | 0 <= k < n
      ensures Distinct(keys)[k] == k
    {
      AllFirst(keys, k);
      PositionAt(FirstFlags(keys), n, k);
    }
    forall k | 0 <= k < n
      ensures StrandsOf(keys, values)[k] == Fan(n)[k]
    {
      assert StrandsOf(keys, values)[k] == StrandOf(keys, values, k);
    }
  }

  /** Whatever the cost ratio, unless it is zero, only the root is worth a bitmap. */
  lemma FanCutoff(n: nat, ratio: nat, s: nat)
    requires 2 <= n <= 256 && ratio > 0 && 1 <= s <= Height(Fan(n))
    requires AllSized(Fan(n)) && RightCutoff(Fan(n), ratio, s)
    ensures s == 1
  {
    hide Positions, HeightTo, Ones, Fan, LevelLabels;
    var t := Fan(n);
    FanIsTrie(n);
    FanItems(n);
    RootIsOneNode(t);
    var counts, labels := NodeCounts(t), LabelLevels(t);
    assert NodesBefore(t, 1) == NodesBefore(t, 0) + NodeCount(t, 0);
    assert counts[0] == 1 && |labels[1]| == n;
    assert DenseMem(counts, 1) == 512 by { assert DenseMem(counts, 0) == 0; }
    assert SparseMem(labels, 1) <= n + 2 * n / 8 + 1;
    TimesMono(1, ratio, 512);
    assert !WorthDense(counts, labels, ratio, 1);
  }

  /** The whole run: build the fan and look up a key that is not in it. */
  method LookUpAbsentKey(n: nat, sparseDenseRatio: nat) returns (r: S.LookupResult)
    requires 64 < n < 256 && n % 64 != 0 && sparseDenseRatio > 0
    ensures r == S.PastEnd
  {
    hide Fst.Answer, RightCutoff, D.LoudsDense.Encodes, D.LoudsDense.EncodesShape, S.LoudsSparse.Encodes,
         S.LoudsSparse.EncodesShape, Minimal, ValidKeys, Fan, StrandsOf, FanKeys;
    FanIsBuilt(n);
    var f := Create(FanKeys(n), seq(n, k => k), sparseDenseRatio);
    f.dense.Shape(Fan(n));
    FanCutoff(n, sparseDenseRatio, f.SparseStartLevel());
    r := f.LookupKey([0, 255], Fan(n));
    AbsentKeyReadsPastEnd(f, n);
  }

  lemma FanQuery(n: nat, q: Key)
    requires 2 <= n < 256 && q == [0, 255]
    ensures AtNode(Fan(n), q, 1, 0) && Lacks(Fan(n), 1, 0, q[1])
  {
    var t := Fan(n);
    assert q[..1] == [0] == t[0].key[..1];
    assert forall k :: 0 <= k < n ==> t[k].key[1] == k;
  }

  /** Two one-byte keys, a and c. */
  const A_AND_C: seq<Strand> := [Strand([97], 0, 1, 0), Strand([99], 0, 1, 1)]

  /**
   Seeking b, whose byte the root does not have: the answer would be c, but the iterator is left
   showing b; see Seek.MoveToKeyGreaterThan and Seek.MissingIsWrong.
   */
  lemma MissingDenseByte(f: Fst, inclusive: bool)
    requires f.Encodes(A_AND_C)
    ensures Least(A_AND_C, [98], inclusive, 1) && MissingInDense(f, A_AND_C, [98])
  {
    var t, q := A_AND_C, [98];
    f.dense.Shape(t);
    RootNode(t, q);
    assert forall x: nat :: !ItemOf(t, 0, 0, x, 98);
    WalkStops(t, q, 0, 0);
    LessAt(t[0].key, q, 0);
    LessAt(q, t[1].key, 0);
  }

  lemma TwoAreBuilt()
    ensures ValidKeys([[97], [99]], [0, 1]) && StrandsOf([[97], [99]], [0, 1]) == A_AND_C
  {
    var keys: seq<Key> := [[97], [99]];
    assert Lcp(keys[0], keys[1]) == 0;
    AllFirst(keys, 1);
    AllFirst(keys, 2);
    PositionAt(FirstFlags(keys), 2, 0);
    PositionAt(FirstFlags(keys), 2, 1);
    assert StrandsOf(keys, [0, 1])[0] == StrandOf(keys, [0, 1], 0);
    assert StrandsOf(keys, [0, 1])[1] == StrandOf(keys, [0, 1], 1);
  }

  /** The whole run: the first key not below b is c, and the iterator claims to stand on b, with the value of a. */
  method SeekMissingByte(sparseDenseRatio: nat, inclusive: bool) returns (valid: bool, shown: Key, value: nat)
    ensures FirstNotBelow([[97], [99]], [98], inclusive, 1) && valid && shown == [98] && value == 0
  {
    hide Fst.Encodes, RightCutoff, MissingInDense, Least, ValidKeys, StrandsOf, NoTerminators, IndexValues,
         FirstNotBelow, AtLowerBound;
    var keys: seq<Key> := [[97], [99]];
    var values: seq<nat> := [0, 1];
    var q: Key := [98];
    TwoAreBuilt();
    var f := Create(keys, values, sparseDenseRatio);
    assert values == seq(2, i => i);
    SeekOnKeys(keys, values, q, inclusive, 1);
    MissingDenseByte(f, inclusive);
    var iter, overrun, k, beyond := MoveToKeyGreaterThan(f, q, inclusive, A_AND_C);
    valid := iter.IsValid();
    shown := iter.denseIter.key[..iter.denseIter.keyLen];
    ShownIs(f, q);
    IndexIs(iter.denseIter, f, inclusive, k);
    value := f.dense.values[iter.denseIter.valuePos[iter.denseIter.keyLen - 1]];
  }

  /** The last strand to end before b is that of a. */
  lemma IndexIs(it: DI.Iter, f: Fst, inclusive: bool, k: nat)
    requires f.Encodes(A_AND_C) && NoTerminators(A_AND_C) && MissingInDense(f, A_AND_C, [98])
    requires Least(A_AND_C, [98], inclusive, 1) && LeftAtMissing(it, f, A_AND_C, [98], inclusive, k)
    ensures 0 < it.keyLen <= |it.valuePos| && it.valuePos[it.keyLen - 1] < |f.dense.values|
    ensures f.dense.values[it.valuePos[it.keyLen - 1]] == 0
  {
    hide Walk, Fst.Encodes, NoTerminators, LeftAtMissing, Qualifies;
    var l, y := StrayIndex(it, f, A_AND_C, [98], inclusive, k);
    NoItemLevel(A_AND_C, [98], 0, 0);
    assert Qualifies(A_AND_C[1].key, [98], inclusive) && !Qualifies(A_AND_C[0].key, [98], inclusive);
    assert EndsBefore(A_AND_C, 0, 1, 0);
  }

  /** Only the first byte is missing. */
  lemma ShownIs(f: Fst, q: Key)
    requires f.Encodes(A_AND_C) && q == [98] && MissingInDense(f, A_AND_C, q)
    ensures BytesToMissing(f, A_AND_C, q) == q
  {
    hide Walk;
    f.dense.Shape(A_AND_C);
    RootNode(A_AND_C, q);
    NoItemLevel(A_AND_C, q, 0, 0);
  }
}
