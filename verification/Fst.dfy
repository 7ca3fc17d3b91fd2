/**
 The whole trie (include/fst.hpp): construction, point lookups and lookups resumed at a node.
 */
module Fst {
  import opened Bits
  import opened Labels
  import opened Levels
  import opened Strands
  import opened Keys
  import opened Encoding
  import opened DenseEncoding
  import opened Walks
  import Growth
  import opened Builder
  import D = LoudsDense
  import S = LoudsSparse

  datatype Fst = Fst(dense: D.LoudsDense, sparse: S.LoudsSparse) {

    /** Both encodings hold the trie `t`, split at some level from 1 to its height. */
    ghost predicate Encodes(t: seq<Strand>) {
      |t| > 0 && Minimal(t) && dense.Encodes(t) && sparse.Encodes(t) && dense.height == sparse.startLevel
    }

    /** The same, but for the values. */
    ghost predicate EncodesShape(t: seq<Strand>) {
      |t| > 0 && Minimal(t) && dense.EncodesShape(t) && sparse.EncodesShape(t) && dense.height == sparse.startLevel
    }

    lemma ShapeOf(t: seq<Strand>)
      requires Encodes(t)
      ensures EncodesShape(t)
    {
    }

    function SparseStartLevel(): nat { sparse.startLevel }

    /** What a lookup answers: the outcome of the walk from the root. */
    ghost function Answer(t: seq<Strand>, q: Key): S.LookupResult
      requires Encodes(t)
    {
      RootNode(t, q);
      if NoTerminators(t) then S.Outcome(t, SparseStartLevel(), Walk(t, q, 0, 0)) else S.Miss
    }

    method LookupKey(key: Key, ghost t: seq<Strand>) returns (r: S.LookupResult)
      requires Encodes(t)
      ensures r == Answer(t, key)
    {
      hide Walk, WellFormed, Minimal, NoTerminators, D.LoudsDense.Encodes, D.LoudsDense.EncodesShape,
           S.LoudsSparse.Encodes, S.LoudsSparse.EncodesShape, NodeNum, S.Oversized;
      dense.Shape(t);
      var found, connectNodeNum, value := dense.LookupKey(key, t);
      if !found {
        return S.Miss;
      } else if connectNodeNum != 0 {
        ghost var j: nat :| AtNode(t, key, dense.height, j) && connectNodeNum == NodeNum(t, dense.height, j);
        WalkResumes(t, key, 0, 0, dense.height, j);
        HandOverNeedsTwoKeys(t, key, dense.height, j);
        r := sparse.LookupKey(key, connectNodeNum, t, j);
        return;
      }
      return S.Hit(value);
    }

    /** The number of the node that a path of interior bytes leads to. */
    method LookupNodeNum(path: Key, ghost t: seq<Strand>, ghost j: nat) returns (nodeNum: nat)
      requires EncodesShape(t) && NoTerminators(t) && AtNode(t, path, |path|, j)
      ensures nodeNum == NodeNum(t, |path|, j)
    {
      hide Walk, WellFormed, Minimal, NoTerminators, D.LoudsDense.EncodesShape, S.LoudsSparse.EncodesShape, NodeNum;
      dense.ShapeBounds(t);
      var goesOn: bool;
      goesOn, nodeNum := dense.LookupNodeNumber(path, t, j);
      if goesOn {
        if |path| >= sparse.startLevel {
          ghost var i: nat :| AtNode(t, path, dense.height, i) && nodeNum == NodeNum(t, dense.height, i);
          HandOverNeedsTwoKeys(t, path, dense.height, i);
          nodeNum := sparse.LookupNodeNumber(path, nodeNum, t, i, j);
        }
      }
    }

    /** A lookup resumed at a node on any level answers as the lookup from the root. */
    method LookupKeyAtNode(key: Key, level: nat, nodeNumber: nat, ghost t: seq<Strand>, ghost i: nat)
      returns (r: S.LookupResult)
      requires Encodes(t) && NoTerminators(t)
      requires AtNode(t, key, level, i) && nodeNumber == NodeNum(t, level, i)
      ensures r == Answer(t, key)
    {
      hide Walk, WellFormed, Minimal, NoTerminators, D.LoudsDense.Encodes, D.LoudsDense.EncodesShape,
           S.LoudsSparse.Encodes, S.LoudsSparse.EncodesShape, NodeNum, S.Oversized;
      dense.Shape(t);
      RootNode(t, key);
      WalkResumes(t, key, 0, 0, level, i);
      if level < SparseStartLevel() {
        var found, outNodeNum, value := dense.LookupKeyAtNode(key, level, nodeNumber, t, i);
        if !found {
          return S.Miss;
        } else if outNodeNum != 0 {
          ghost var j: nat :| AtNode(t, key, dense.height, j) && outNodeNum == NodeNum(t, dense.height, j);
          WalkResumes(t, key, level, i, dense.height, j);
          HandOverNeedsTwoKeys(t, key, dense.height, j);
          r := sparse.LookupKeyAtNode(key, outNodeNum, SparseStartLevel(), t, j);
          return;
        }
        return S.Hit(value);
      }
      HandOverNeedsTwoKeys(t, key, level, i);
      r := sparse.LookupKeyAtNode(key, nodeNumber, level, t, i);
    }
  }

  /** Below the root there are nodes only when there is more than one key. */
  lemma HandOverNeedsTwoKeys(t: seq<Strand>, q: Key, l: nat, i: nat)
    requires WellFormed(t) && Minimal(t) && l > 0 && AtNode(t, q, l, i)
    ensures |t| >= 2
  {
    if |t| == 1 { OneKeyHeight(t); }
  }

  ghost function NodeCounts(t: seq<Strand>): (r: seq<nat>)
    ensures |r| == Height(t)
  {
    seq(Height(t), l requires l >= 0 => NodeCount(t, l))
  }

  /** The levels that are worth a dense encoding are exactly the ones that get it. */
  ghost predicate RightCutoff(t: seq<Strand>, ratio: nat, s: nat)
    requires AllSized(t)
  {
    forall k :: 0 <= k < Height(t) ==> (k < s <==> DenseMem(NodeCounts(t), k) * ratio < SparseMem(LabelLevels(t), k))
  }

  lemma CountsAreHeld(b: FstBuilder, t: seq<Strand>)
    requires b.Encodes(t)
    ensures AllSized(t) && b.nodeCounts == NodeCounts(t) && b.labels == LabelLevels(t) && |b.labels| == Height(t)
  {
    hide HeightTo, LevelLabels, NodeCount, LevelChildren, LevelLouds, Growth.Fits;
    var h := Height(t);
    assert forall l :: 0 <= l < h ==>
      LevelEncodes(b.labels[l], b.childIndicatorBits[l], b.loudsBits[l], b.nodeCounts[l], b.isLastItemTerminator[l],
        t, l);
  }

  /** Builds the trie of a valid key list. */
  method Create(keys: seq<Key>, values: seq<nat>, sparseDenseRatio: nat) returns (f: Fst)
    requires ValidKeys(keys, values)
    ensures f.Encodes(StrandsOf(keys, values)) && AllSized(StrandsOf(keys, values))
    ensures f.dense.keys == keys && f.sparse.keys == keys
    ensures RightCutoff(StrandsOf(keys, values), sparseDenseRatio, f.SparseStartLevel())
  {
    hide StrandsOf, LessByByte, D.LoudsDense.Encodes, D.LoudsDense.EncodesShape, S.LoudsSparse.Encodes,
         S.LoudsSparse.EncodesShape, DenseMem, SparseMem, FstBuilder.DenseSoFar, FstBuilder.Encodes, HeightTo,
         NodeCounts, LabelLevels;
    ghost var t := StrandsOf(keys, values);
    StrandsAreTrie(keys, values);
    var builder := new FstBuilder(sparseDenseRatio);
    builder.Build(keys, values);
    CountsAreHeld(builder, t);
    forall k | 0 <= k < Height(t)
      ensures k < builder.sparseStartLevel <==> 
        DenseMem(NodeCounts(t), k) * sparseDenseRatio < SparseMem(LabelLevels(t), k)
    {
      assert k < builder.TreeHeight() && builder.sparseDenseRatio == sparseDenseRatio;
      assert builder.nodeCounts == NodeCounts(t);
      assert builder.labels == LabelLevels(t);
    }
    assert RightCutoff(t, sparseDenseRatio, builder.sparseStartLevel);
    var dense := D.MakeLoudsDense(builder, keys, t);
    var sparse := S.MakeLoudsSparse(builder, keys, t);
    f := Fst(dense, sparse);
  }

  /** The same trie with the cutoff fixed by hand: every level from 1 to the height is possible. */
  method CreateSplitAt(keys: seq<Key>, values: seq<nat>, s: nat) returns (f: Fst)
    requires ValidKeys(keys, values) && 1 <= s <= Height(StrandsOf(keys, values))
    ensures f.Encodes(StrandsOf(keys, values)) && f.SparseStartLevel() == s
  {
    hide StrandsOf, LessByByte, D.LoudsDense.Encodes, D.LoudsDense.EncodesShape, S.LoudsSparse.Encodes,
         S.LoudsSparse.EncodesShape, FstBuilder.DenseSoFar, HeightTo, LevelEncodes;
    ghost var t := StrandsOf(keys, values);
    StrandsAreTrie(keys, values);
    var builder := new FstBuilder(0);
    builder.BuildSparse(keys, values);
    builder.sparseStartLevel := s;
    builder.SplitValues(t);
    builder.BuildDense(t);
    var dense := D.MakeLoudsDense(builder, keys, t);
    var sparse := S.MakeLoudsSparse(builder, keys, t);
    f := Fst(dense, sparse);
  }

  /** A lookup hits exactly when some stored prefix is a prefix of the query, and returns that key's value. */
  lemma HitMeans(f: Fst, t: seq<Strand>, q: Key)
    requires f.Encodes(t) && NoTerminators(t)
    ensures f.Answer(t, q).Hit? <==> exists k :: 0 <= k < |t| && Matches(t[k], q)
    ensures forall k :: 0 <= k < |t| && Matches(t[k], q) ==> f.Answer(t, q) == S.Hit(t[k].value)
  {
    hide Walk, D.LoudsDense.Encodes, D.LoudsDense.EncodesShape, S.LoudsSparse.Encodes, S.LoudsSparse.EncodesShape,
         Minimal, NoTerminators;
    f.dense.Shape(t);
    RootNode(t, q);
    WalkFindsMatch(t, q, 0, 0);
    var w := Walk(t, q, 0, 0);
    if w.AtLeaf? {
      forall k | 0 <= k < |t| && Matches(t[k], q)
        ensures k == w.strand
      {
        MatchUnique(t, q, k, w.strand);
      }
    }
  }

  /** Every inserted key is found, with the value of the first key of its run. */
  lemma InsertedKeyFound(f: Fst, keys: seq<Key>, values: seq<nat>, x: nat)
    requires ValidKeys(keys, values) && x < |keys|
    requires f.Encodes(StrandsOf(keys, values)) && NoTerminators(StrandsOf(keys, values))
    ensures exists y: nat :: FirstOfRun(keys, x, y) && f.Answer(StrandsOf(keys, values), keys[x]) == S.Hit(values[y])
  {
    hide StrandsOf, LessByByte, Fst.Answer, Fst.Encodes, NoTerminators, Matches;
    var j, y := KeyIsStored(keys, values, x);
    HitMeans(f, StrandsOf(keys, values), keys[x]);
    assert FirstOfRun(keys, x, y);
  }

  /** Where the trie is split makes no difference to what is found. */
  lemma SplitIndependence(f: Fst, g: Fst, t: seq<Strand>, q: Key)
    requires f.Encodes(t) && g.Encodes(t)
    ensures f.Answer(t, q).Hit? <==> g.Answer(t, q).Hit?
    ensures f.Answer(t, q) == g.Answer(t, q) || f.Answer(t, q).PastEnd? || g.Answer(t, q).PastEnd?
    ensures f.Answer(t, q).Hit? ==> f.Answer(t, q) == g.Answer(t, q)
  {
    hide Walk, S.Oversized, D.LoudsDense.Encodes, D.LoudsDense.EncodesShape, S.LoudsSparse.Encodes,
         S.LoudsSparse.EncodesShape, NoTerminators, Minimal;
  }

  /** A single key filed as a prefix key is never found. */
  lemma TerminatorMisses(f: Fst, t: seq<Strand>, q: Key)
    requires f.Encodes(t) && !NoTerminators(t)
    ensures f.Answer(t, q) == S.Miss
  {
  }
}
