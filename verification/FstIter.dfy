/**
 The iterator over the whole trie (FST::Iter): a dense and a sparse cursor glued into one
 in-order traversal.
 */
module FstIter {
  import opened Bits
  import opened Labels
  import opened Levels
  import opened Strands
  import opened Encoding
  import opened DenseEncoding
  import opened Paths
  import opened Fst
  import D = LoudsDense
  import S = LoudsSparse
  import DI = DenseIter
  import SI = SparseIter

  class Iter {
    const denseIter: DI.Iter
    const sparseIter: SI.Iter

    constructor (f: Fst)
      requires f.sparse.startLevel <= f.sparse.height
      ensures fresh(denseIter) && fresh(sparseIter) && Over(f)
      ensures denseIter.Sized() && denseIter.keyLen == 0 && !denseIter.isValid && !denseIter.isAtPrefixKey
      ensures forall t: seq<Strand> :: denseIter.Cursor(t, 0) && sparseIter.Idle(t, 0)
      ensures forall l :: 0 <= l < |denseIter.valuePosInitialized| ==> !denseIter.valuePosInitialized[l]
      ensures forall l :: 0 <= l < |sparseIter.valuePosInitialized| ==> !sparseIter.valuePosInitialized[l]
    {
      denseIter := new DI.Iter(f.dense);
      sparseIter := new SI.Iter(f.sparse);
    }

    ghost predicate Over(f: Fst) {
      denseIter.trie == f.dense && sparseIter.trie == f.sparse
    }

    /** Positioned on strand `k`, in the dense levels alone or in both. */
    ghost predicate StandsOn(t: seq<Strand>, k: nat)
      reads denseIter, sparseIter
    {
      k < |t| && denseIter.isValid && !denseIter.isAtPrefixKey &&
      (if t[k].hi <= denseIter.trie.height
       then denseIter.IsComplete() && denseIter.StandsOnLeaf(t, k) && sparseIter.Idle(t, k + 1)
       else !denseIter.IsComplete() && denseIter.PathTo(t, k, denseIter.trie.height) && denseIter.Cursor(t, k + 1) &&
            sparseIter.StandsOn(t, k))
    }

    predicate IsValid()
      reads denseIter, sparseIter
    {
      denseIter.isValid && (denseIter.IsComplete() || sparseIter.isValid)
    }

    method GetValue(f: Fst, ghost t: seq<Strand>, ghost k: nat) returns (value: nat)
      requires f.Encodes(t) && NoTerminators(t) && Over(f) && StandsOn(t, k)
      ensures value == t[k].value
    {
      if denseIter.IsComplete() {
        value := denseIter.GetValue(t, k);
      } else {
        value := sparseIter.GetValue(t, k);
      }
    }

    /** The current key; of an iterator that is not valid, the empty string. */
    method GetKey(ghost f: Fst, ghost t: seq<Strand>, ghost k: nat) returns (key: Key)
      requires f.Encodes(t) && Over(f) && (IsValid() ==> StandsOn(t, k))
      ensures IsValid() ==> t[k].hi <= |t[k].key| && key == t[k].Stored()
      ensures !IsValid() ==> key == []
    {
      hide DI.Iter.PathTo, SI.Iter.PathTo, DI.Iter.Cursor, SI.Iter.Cursor, D.LoudsDense.Encodes,
           D.LoudsDense.EncodesShape, S.LoudsSparse.Encodes, S.LoudsSparse.EncodesShape, Minimal;
      if !IsValid() {
        return [];
      }
      BranchesBelow(f, t, k);
      assert t[k].Sized();
      key := denseIter.GetKey(t, k);
      if !denseIter.IsComplete() {
        var rest := sparseIter.GetKey(t, k);
        key := key + rest;
      }
    }

    method PassToSparse()
      modifies sparseIter`startNodeNum
      ensures sparseIter.startNodeNum == denseIter.sendOutNodeNum
    {
      sparseIter.SetStartNodeNum(denseIter.sendOutNodeNum);
    }

    /** After the dense cursor has reached strand `k`, finish the move in the sparse levels if it must. */
    method CompleteMove(ghost f: Fst, ghost t: seq<Strand>, ghost k: nat)
      requires f.Encodes(t) && NoTerminators(t) && Over(f)
      requires denseIter.StandsOn(t, k) && sparseIter.Idle(t, k)
      modifies sparseIter
      ensures StandsOn(t, k)
    {
      hide NoTerminators, D.LoudsDense.Encodes, D.LoudsDense.EncodesShape, S.LoudsSparse.Encodes,
           S.LoudsSparse.EncodesShape, SI.Iter.PathTo, DI.Iter.PathTo, Minimal, DI.Iter.StandsOnLeaf;
      if denseIter.isMoveLeftComplete {
        sparseIter.PassingKeepsCursor(t, k);
        return;
      }
      PassToSparse();
      sparseIter.MoveToLeftMostKey(t, k);
    }

    method IncrementDenseIter(ghost f: Fst, ghost t: seq<Strand>, ghost k: nat) returns (ok: bool, ghost beyond: bool)
      requires f.Encodes(t) && NoTerminators(t) && Over(f) && k < |t|
      requires denseIter.isValid && denseIter.keyLen > 0 && denseIter.PathTo(t, k, denseIter.keyLen)
      requires denseIter.Cursor(t, k + 1)
      requires denseIter.keyLen <= t[k].hi && !denseIter.isAtPrefixKey
      requires k + 1 < |t| ==> t[k + 1].lo < denseIter.keyLen
      requires sparseIter.Idle(t, k + 1)
      modifies denseIter, sparseIter
      ensures ok <==> k + 1 < |t|
      ensures ok ==> StandsOn(t, k + 1)
      ensures !ok ==> !IsValid()
      ensures beyond <==> old(denseIter.keyLen) == denseIter.trie.height && DI.OnLastBit(t, denseIter.trie.height, k)
    {
      hide NoTerminators, D.LoudsDense.Encodes, D.LoudsDense.EncodesShape, S.LoudsSparse.Encodes,
           S.LoudsSparse.EncodesShape, SI.Iter.PathTo, DI.Iter.PathTo, Minimal, DI.Iter.StandsOnLeaf, SI.Iter.Cursor,
           DI.Iter.Cursor;
      if !denseIter.isValid {
        assert false;
        return false, false;
      }
      beyond := denseIter.Next(t, k);
      if !denseIter.isValid {
        return false, beyond;
      }
      CompleteMove(f, t, k + 1);
      ok := true;
    }

    /** A key that branches off inside the sparse levels has the same dense path. */
    lemma DensePathKept(t: seq<Strand>, k: nat)
      requires WellFormed(t) && denseIter.PathTo(t, k, denseIter.trie.height) && denseIter.Cursor(t, k + 1)
      requires k + 1 < |t| && t[k + 1].lo >= denseIter.trie.height
      ensures denseIter.PathTo(t, k + 1, denseIter.trie.height) && denseIter.Cursor(t, k + 2)
      ensures t[k + 1].hi > denseIter.trie.height
    {
      hide DensePos, Ones;
      assert Follows(t[k], t[k + 1]);
      denseIter.PassingKeepsCursor(t, k + 1);
      forall l | 0 <= l < denseIter.trie.height
        ensures t[k].key[l] == t[k + 1].key[l] && DensePos(t, l, k + 1) == DensePos(t, l, k)
      {
        StepKeepsAbove(t, l, k);
      }
    }

    /** From one key to the next in order, or past the last one; from there nothing moves. */
    method Increment(ghost f: Fst, ghost t: seq<Strand>, ghost k: nat) returns (ok: bool, ghost beyond: bool)
      requires f.Encodes(t) && NoTerminators(t) && Over(f) && (IsValid() ==> StandsOn(t, k))
      modifies denseIter, sparseIter
      ensures ok <==> old(IsValid()) && k + 1 < |t|
      ensures ok ==> StandsOn(t, k + 1)
      ensures ok <==> IsValid()
      ensures !old(IsValid()) ==> unchanged(denseIter) && unchanged(sparseIter) && !beyond
      ensures old(IsValid()) ==> (beyond <==> LeavesLastBit(t, f.SparseStartLevel(), k))
    {
      hide NoTerminators, D.LoudsDense.Encodes, D.LoudsDense.EncodesShape, S.LoudsSparse.Encodes,
           S.LoudsSparse.EncodesShape, SI.Iter.PathTo, DI.Iter.PathTo, Minimal, DI.Iter.StandsOnLeaf, SI.Iter.Cursor,
           DI.Iter.Cursor, WellFormed;
      if !IsValid() {
        return false, false;
      }
      BranchesBelow(f, t, k);
      if sparseIter.isValid {
        // incrementSparseIter
        sparseIter.Next(t, k);
        if sparseIter.isValid {
          DensePathKept(t, k);
          return true, false;
        }
      } else {
        LeafPath(t, k);
      }
      ok, beyond := IncrementDenseIter(f, t, k);
    }

    lemma LeafPath(t: seq<Strand>, k: nat)
      requires denseIter.StandsOnLeaf(t, k)
      ensures k < |t| && denseIter.PathTo(t, k, denseIter.keyLen) && denseIter.keyLen == t[k].hi > 0
      ensures denseIter.Cursor(t, k + 1)
    {
    }

    /** The next key leaves the current one within its stored prefix. */
    lemma BranchesBelow(f: Fst, t: seq<Strand>, k: nat)
      requires f.Encodes(t) && k < |t| && Over(f) && StandsOn(t, k)
      ensures WellFormed(t) && 1 <= denseIter.trie.height && denseIter.trie.height == sparseIter.trie.startLevel
      ensures k + 1 < |t| ==> t[k + 1].lo < t[k].hi
      ensures t[k].hi > denseIter.trie.height ==> denseIter.keyLen == denseIter.trie.height && sparseIter.keyLen > 0
      ensures t[k].hi > denseIter.trie.height ==>
        sparseIter.PathTo(t, k, sparseIter.keyLen) && sparseIter.trie.startLevel + sparseIter.keyLen == t[k].hi &&
        sparseIter.Cursor(t, k + 1)
    {
      if k + 1 < |t| { assert Follows(t[k], t[k + 1]); }
    }
  }

  /** The step from strand `k` leaves the last bit of the dense levels, and so looks for a bit after it. */
  ghost predicate LeavesLastBit(t: seq<Strand>, s: nat, k: nat)
    requires AllSized(t) && s <= Height(t) && k < |t|
  {
    DI.OnLastBit(t, s, k) && !(k + 1 < |t| && t[k + 1].lo >= s)
  }

  /** A strand on the last bit: the last such strand leaves it. */
  lemma {:induction false} SomeStrandLeaves(t: seq<Strand>, s: nat, k: nat)
    requires WellFormed(t) && s <= Height(t) && k < |t| && DI.OnLastBit(t, s, k)
    ensures exists m: nat :: m < |t| && LeavesLastBit(t, s, m)
    decreases |t| - k
  {
    hide HeightTo, DensePos, Cat;
    if k + 1 < |t| && t[k + 1].lo >= s {
      StepKeepsAbove(t, s - 1, k);
      assert t[k + 1].Sized();
      SomeStrandLeaves(t, s, k + 1);
    } else {
      assert LeavesLastBit(t, s, k);
    }
  }

  /** The smallest key. */
  method MoveToFirst(f: Fst, ghost t: seq<Strand>) returns (iter: Iter)
    requires f.Encodes(t) && NoTerminators(t)
    ensures fresh(iter) && fresh(iter.denseIter) && fresh(iter.sparseIter)
    ensures iter.Over(f) && iter.StandsOn(t, 0) && iter.IsValid()
  {
    hide NoTerminators, D.LoudsDense.Encodes, D.LoudsDense.EncodesShape, S.LoudsSparse.Encodes,
         S.LoudsSparse.EncodesShape, Minimal, WellFormed, SI.Iter.Cursor, DI.Iter.Cursor;
    f.dense.Shape(t);
    f.sparse.Shape(t);
    iter := new Iter(f);
    iter.denseIter.SetToFirstLabelInRoot(t);
    assert iter.denseIter.Cursor(t, 0);
    iter.denseIter.MoveToLeftMostKey(t, 0);
    iter.CompleteMove(f, t, 0);
  }

  lemma StandsValid(iter: Iter, t: seq<Strand>, k: nat)
    requires iter.StandsOn(t, k)
    ensures iter.IsValid()
  {
  }

  /** The stored prefixes and values, in order. */
  ghost function Entries(t: seq<Strand>, n: nat): (r: seq<(Key, nat)>)
    requires n <= |t| && AllSized(t)
    ensures |r| == n
  {
    seq(n, k requires 0 <= k < n => (t[k].Stored(), t[k].value))
  }

  /** Some strand's path takes the last bit of the dense levels. */
  ghost predicate UsesLastBit(t: seq<Strand>, s: nat)
    requires AllSized(t) && s <= Height(t)
  {
    exists k: nat :: k < |t| && DI.OnLastBit(t, s, k)
  }

  /** Some of the first `m` steps leaves it. */
  ghost predicate LeftLastBit(t: seq<Strand>, s: nat, m: nat)
    requires AllSized(t) && s <= Height(t) && m <= |t|
  {
    exists k: nat :: k < m && LeavesLastBit(t, s, k)
  }

  lemma LeavingMeansUsing(t: seq<Strand>, s: nat)
    requires WellFormed(t) && s <= Height(t)
    ensures LeftLastBit(t, s, |t|) <==> UsesLastBit(t, s)
  {
    hide DI.OnLastBit;
    if k: nat :| k < |t| && DI.OnLastBit(t, s, k) {
      SomeStrandLeaves(t, s, k);
    }
  }

  /**
   A whole run from the first key visits every key once, in order, and then the iterator is
   invalid. The word past the bitmaps is read exactly when some key takes their last bit.
   */
  method Traverse(f: Fst, ghost t: seq<Strand>) returns (visited: seq<(Key, nat)>, ghost beyond: bool)
    requires f.Encodes(t) && NoTerminators(t)
    ensures AllSized(t) && visited == Entries(t, |t|)
    ensures f.SparseStartLevel() <= Height(t) && (beyond <==> UsesLastBit(t, f.SparseStartLevel()))
  {
    hide NoTerminators, D.LoudsDense.Encodes, D.LoudsDense.EncodesShape, S.LoudsSparse.Encodes,
         S.LoudsSparse.EncodesShape, Minimal, Iter.StandsOn, UsesLastBit, LeavesLastBit, HeightTo;
    f.dense.Shape(t);
    f.sparse.Shape(t);
    var iter := MoveToFirst(f, t);
    ghost var k: nat := 0;
    visited, beyond := [], false;
    var more := true;
    while more
      invariant fresh(iter.denseIter) && fresh(iter.sparseIter) && iter.Over(f)
      invariant k <= |t| && (more <==> k < |t|) && (more ==> iter.StandsOn(t, k))
      invariant visited == Entries(t, k)
      invariant beyond <==> LeftLastBit(t, f.SparseStartLevel(), k)
      decreases |t| - k
    {
      StandsValid(iter, t, k);
      var key := iter.GetKey(f, t, k);
      var value := iter.GetValue(f, t, k);
      visited := visited + [(key, value)];
      ghost var b;
      more, b := iter.Increment(f, t, k);
      beyond := beyond || b;
      k := k + 1;
    }
    LeavingMeansUsing(t, f.SparseStartLevel());
  }
}
