/**
 Whole runs, from a key list to an answer: build the trie with whatever cutoff the cost rule
 picks, use it, and say what came out in terms of the key list alone.
 */
module EndToEnd {
  import opened Bits
  import opened Labels
  import opened Strands
  import opened Keys
  import opened Encoding
  import opened DenseEncoding
  import opened Walks
  import opened Paths
  import opened Bounds
  import opened Strays
  import opened Fst
  import opened FstIter
  import opened Consequences
  import opened KeySpec
  import opened Seek
  import opened Overruns
  import opened KeyShape
  import S = LoudsSparse
  import D = LoudsDense
  import DI = DenseIter
  import SI = SparseIter

  /** Build, then look up. The cutoff `s` is the one that the cost rule picks. */
  method BuildAndLookup(keys: seq<Key>, values: seq<nat>, sparseDenseRatio: nat, q: Key)
    returns (r: S.LookupResult, s: nat)
    requires ValidKeys(keys, values)
    ensures AllSized(StrandsOf(keys, values)) && RightCutoff(StrandsOf(keys, values), sparseDenseRatio, s)
    ensures |keys| > 0 && |keys[0]| > 0 && RightAnswer(keys, values, s, q, r)
  {
    hide ValidKeys, StrandsOf, Fst.Encodes, Fst.Answer, RightCutoff, RightAnswer;
    Lengths(keys, values);
    var f := Create(keys, values, sparseDenseRatio);
    s := f.SparseStartLevel();
    r := f.LookupKey(q, StrandsOf(keys, values));
    LookupOnKeys(f, keys, values, q);
  }

  /** The lookup in two steps: to the node of a path that keys still share, and on from its number. */
  method BuildAndResume(keys: seq<Key>, values: seq<nat>, sparseDenseRatio: nat, q: Key, n: nat, ghost x: nat,
                        ghost y: nat)
    returns (r: S.LookupResult, s: nat)
    requires ValidKeys(keys, values) && Branches(keys, q, n, x, y)
    ensures AllSized(StrandsOf(keys, values)) && RightCutoff(StrandsOf(keys, values), sparseDenseRatio, s)
    ensures |keys| > 0 && |keys[0]| > 0 && RightAnswer(keys, values, s, q, r)
  {
    hide ValidKeys, StrandsOf, Fst.Encodes, Fst.Answer, NoTerminators, RightCutoff, AtNode, RightAnswer;
    ghost var j := BranchIsNode(keys, values, q, n, x, y);
    var f := Create(keys, values, sparseDenseRatio);
    s := f.SparseStartLevel();
    Lengths(keys, values);
    ReservedKeys(keys, values);
    r := LookupThrough(f, q[..n], q, StrandsOf(keys, values), j);
    LookupOnKeys(f, keys, values, q);
  }

  /** A path that two keys share leads to a node, and then no key stands alone. */
  lemma BranchIsNode(keys: seq<Key>, values: seq<nat>, q: Key, n: nat, x: nat, y: nat) returns (j: nat)
    requires ValidKeys(keys, values) && Branches(keys, q, n, x, y)
    ensures AtNode(StrandsOf(keys, values), q[..n], |q[..n]|, j) && !SoleReservedKey(keys)
  {
    hide StrandsOf, NoTerminators, LessByByte, ValidKeys, Minimal;
    Lengths(keys, values);
    var t, p := StrandsOf(keys, values), q[..n];
    StrandsAreTrie(keys, values);
    var a := KeyOnStrand(keys, values, x);
    var b := KeyOnStrand(keys, values, y);
    TwoKeysNoTerminators(t);
    ReservedKeys(keys, values);
    SizedStrand(t, a);
    SizedStrand(t, b);
    SharesUpTo(t, a, b, p, if n < t[a].hi then n else t[a].hi);
    StoredNotShared(t, a, b);
    j := NodeOnPath(t, p, a);
  }

  lemma SharesUpTo(t: seq<Strand>, a: nat, b: nat, p: Key, m: nat)
    requires a < |t| && b < |t| && HasPrefix(t[a].key, p) && HasPrefix(t[b].key, p) && m <= |p|
    ensures SharesPrefix(t, a, b, m)
  {
    assert t[a].key[..m] == p[..m] == t[b].key[..m];
  }

  lemma NodeOnPath(t: seq<Strand>, p: Key, a: nat) returns (j: nat)
    requires WellFormed(t) && a < |t| && |p| < t[a].hi && HasPrefix(t[a].key, p)
    ensures AtNode(t, p, |p|, j)
  {
    j := NodeOf(t, |p|, a);
    assert t[j].Sized();
    SamePath(t, |p|, j, a);
    assert p[..|p|] == p;
  }

  /** Every distinct key once, in strictly rising order, as a prefix that singles it out, with its first value. */
  ghost predicate ListsAll(keys: seq<Key>, values: seq<nat>, visited: seq<(Key, nat)>)
    requires |values| == |keys|
  {
    |visited| == |Distinct(keys)| &&
    (forall j :: 0 <= j < |visited| ==>
      Identifies(keys, visited[j].0, |visited[j].0|, Distinct(keys)[j]) && visited[j].1 == values[Distinct(keys)[j]]) &&
    forall i, j :: 0 <= i < j < |visited| ==> LessByByte(visited[i].0, visited[j].0)
  }

  method BuildAndTraverse(keys: seq<Key>, values: seq<nat>, sparseDenseRatio: nat) returns (visited: seq<(Key, nat)>)
    requires ValidKeys(keys, values) && !SoleReservedKey(keys)
    ensures ListsAll(keys, values, visited)
  {
    hide ValidKeys, StrandsOf, Fst.Encodes, NoTerminators, RightCutoff, Identifies, Entries, LessByByte, UsesLastBit;
    Lengths(keys, values);
    var f := Create(keys, values, sparseDenseRatio);
    ReservedKeys(keys, values);
    ghost var beyond;
    visited, beyond := Traverse(f, StrandsOf(keys, values));
    TraversalOnKeys(keys, values);
  }

  /** The seek's byte is missing above the cutoff. */
  predicate MissingAbove(keys: seq<Key>, q: Key, s: nat) { ByteMissing(keys, q) && Depth(keys, q) < s }

  /**
   Build, then seek, on strictly sorted keys that carry their indices. The result is the first key
   not below the query, or none, unless a byte is missing above the cutoff or the search runs past the
   labels. When a byte is missing, the iterator shows the query's own bytes, and its value is that of
   the last key to stop before the byte; when there is no such key, its index is `outside` the values.
   */
  method BuildAndSeek(keys: seq<Key>, sparseDenseRatio: nat, q: Key, inclusive: bool)
    returns (valid: bool, shown: Key, value: nat, outside: bool, overrun: bool, s: nat, ghost k: nat)
    requires ValidKeys(keys, seq(|keys|, i => i)) && !SoleReservedKey(keys) && |q| > 0
    requires forall i :: 0 < i < |keys| ==> keys[i - 1] != keys[i]
    ensures AllSized(StrandsOf(keys, seq(|keys|, i => i)))
    ensures RightCutoff(StrandsOf(keys, seq(|keys|, i => i)), sparseDenseRatio, s)
    ensures overrun <==> QueryRunsPast(keys, s, q)
    ensures MissingAbove(keys, q, s) ==> !overrun && valid && shown == q[..Depth(keys, q) + 1]
    ensures !overrun ==> FirstNotBelow(keys, q, inclusive, k)
    ensures MissingAbove(keys, q, s) && |keys| < 0x1_0000_0000 ==>
      if outside then forall y: nat :: !StopsBefore(keys, Depth(keys, q), k, y)
      else LastToStop(keys, Depth(keys, q), k, value)
    ensures !overrun && !MissingAbove(keys, q, s) ==> !outside && if valid then value == k < |keys| else k == |keys|
    ensures !overrun && !MissingAbove(keys, q, s) && valid ==> Identifies(keys, shown, |shown|, value)
  {
    hide ValidKeys, StrandsOf, Fst.Encodes, Fst.Answer, NoTerminators, RightCutoff, Least, MissingInDense,
         QueryRunsPast, FstIter.Iter.StandsOn, FirstNotBelow, SoleReservedKey, SteppedOff, ByteMissing, Depth,
         Identifies, RunsPast, LeftAtMissing, AtLowerBound, StopsBefore, LastToStop, IndexValues, FstIter.Iter.IsValid;
    var values := seq(|keys|, i => i);
    ghost var t := StrandsOf(keys, values);
    var f := Create(keys, values, sparseDenseRatio);
    s := f.SparseStartLevel();
    SeekOnKeys(keys, values, q, inclusive, 0);
    SeekEnds(f, keys, values, q);
    var iter;
    ghost var beyond;
    iter, overrun, k, beyond := MoveToKeyGreaterThan(f, q, inclusive, t);
    valid, shown, value, outside := iter.IsValid(), [], 0, false;
    if !overrun {
      SeekOnKeys(keys, values, q, inclusive, k);
      if MissingAbove(keys, q, s) {
        shown, value, outside := ReadAstray(iter, f, keys, q, inclusive, k);
      } else {
        shown, value := ReadLanded(iter, f, keys, q, inclusive, k);
      }
    }
  }

  /** What the iterator shows on the key it has landed on, or nothing when it is past the last. */
  method ReadLanded(iter: Iter, f: Fst, keys: seq<Key>, ghost q: Key, ghost inclusive: bool, ghost k: nat)
    returns (shown: Key, value: nat)
    requires ValidKeys(keys, seq(|keys|, i => i)) && iter.Over(f)
    requires var t := StrandsOf(keys, seq(|keys|, i => i));
      && f.Encodes(t) && NoTerminators(t) && IndexValues(t, keys) && AtLowerBound(iter, t, q, inclusive, k)
    ensures Least(StrandsOf(keys, seq(|keys|, i => i)), q, inclusive, k)
    ensures if iter.IsValid() then value == k < |keys| && Identifies(keys, shown, |shown|, value) else k == |keys|
  {
    hide ValidKeys, StrandsOf, Fst.Encodes, NoTerminators, Least, FstIter.Iter.StandsOn, Identifies,
         FstIter.Iter.IsValid;
    var values := seq(|keys|, i => i);
    ghost var t := StrandsOf(keys, values);
    LeastInRange(t, q, inclusive, k);
    shown := iter.GetKey(f, t, k);
    value := 0;
    if iter.IsValid() {
      value := iter.GetValue(f, t, k);
      ShownIdentifies(keys, values, k);
    }
  }

  /** What it shows when it has gone astray: the query's bytes and the value at its index, if there is one. */
  method ReadAstray(iter: Iter, f: Fst, keys: seq<Key>, ghost q: Key, ghost inclusive: bool, ghost k: nat)
    returns (shown: Key, value: nat, outside: bool)
    requires ValidKeys(keys, seq(|keys|, i => i))
    requires var t := StrandsOf(keys, seq(|keys|, i => i));
      && f.Encodes(t) && NoTerminators(t) && IndexValues(t, keys) && MissingInDense(f, t, q)
      && LeftAtMissing(iter.denseIter, f, t, q, inclusive, k)
    ensures Least(StrandsOf(keys, seq(|keys|, i => i)), q, inclusive, k)
    ensures iter.denseIter.keyLen <= |iter.denseIter.key| && shown == iter.denseIter.key[..iter.denseIter.keyLen]
    ensures |keys| < 0x1_0000_0000 ==>
      if outside then forall y: nat :: !StopsBefore(keys, Depth(keys, q), k, y)
      else LastToStop(keys, Depth(keys, q), k, value)
  {
    hide ValidKeys, StrandsOf, Fst.Encodes, NoTerminators, Least, MissingInDense, Depth, LeftAtMissing, StopsBefore,
         LastToStop, IndexValues;
    LeftWithIndex(iter.denseIter, f, keys, q, inclusive, k);
    var index := iter.denseIter.valuePos[iter.denseIter.keyLen - 1];
    shown, value, outside := iter.denseIter.key[..iter.denseIter.keyLen], 0, index >= |f.dense.values|;
    if !outside { value := f.dense.values[index]; }
  }

  /** The value that a seek with a missing byte leaves behind, in terms of the list. */
  lemma LeftWithIndex(it: DI.Iter, f: Fst, keys: seq<Key>, q: Key, inclusive: bool, k: nat)
    requires ValidKeys(keys, seq(|keys|, i => i))
    requires var t := StrandsOf(keys, seq(|keys|, i => i));
      && f.Encodes(t) && NoTerminators(t) && IndexValues(t, keys) && MissingInDense(f, t, q)
      && LeftAtMissing(it, f, t, q, inclusive, k)
    ensures 0 < it.keyLen <= |it.valuePos| == |it.key| && Least(StrandsOf(keys, seq(|keys|, i => i)), q, inclusive, k)
    ensures |keys| < 0x1_0000_0000 ==> var index := it.valuePos[it.keyLen - 1];
      if index < |f.dense.values| then LastToStop(keys, Depth(keys, q), k, f.dense.values[index])
      else forall y: nat :: !StopsBefore(keys, Depth(keys, q), k, y)
  {
    hide StrandsOf, Walk, Fst.Encodes, NoTerminators, ByteMissing, Depth, LessByByte, StopsBefore, LastToStop,
         Least, AtNode, WellFormed, ValidKeys;
    var values := seq(|keys|, i => i);
    var t := StrandsOf(keys, values);
    MissingOnKeys(keys, values, q);
    LeftWithin(it, f, t, q, inclusive, k);
    if |keys| < 0x1_0000_0000 {
      var l, y := StrayIndex(it, f, t, q, inclusive, k);
      StopsOnKeys(keys, values, l, k);
    }
  }

  lemma LeftWithin(it: DI.Iter, f: Fst, t: seq<Strand>, q: Key, inclusive: bool, k: nat)
    requires f.Encodes(t) && MissingInDense(f, t, q) && LeftAtMissing(it, f, t, q, inclusive, k)
    ensures 0 < it.keyLen <= |it.valuePos| == |it.key| && Least(t, q, inclusive, k)
  {
    hide Walk, D.LoudsDense.EncodesShape, S.LoudsSparse.Encodes, Minimal, Least, AtNode;
    f.dense.Shape(t);
    RootNode(t, q);
    AstrayIndex(it, t, q, inclusive, Walk(t, q, 0, 0).level, Walk(t, q, 0, 0).node, k);
  }

  /** When the seek misses a dense byte or runs past, and what it shows when it misses one. */
  lemma SeekEnds(f: Fst, keys: seq<Key>, values: seq<nat>, q: Key)
    requires ValidKeys(keys, values) && f.Encodes(StrandsOf(keys, values)) && NoTerminators(StrandsOf(keys, values))
    ensures MissingInDense(f, StrandsOf(keys, values), q) <==> MissingAbove(keys, q, f.SparseStartLevel())
    ensures MissingInDense(f, StrandsOf(keys, values), q) ==> !f.Answer(StrandsOf(keys, values), q).PastEnd?
    ensures MissingInDense(f, StrandsOf(keys, values), q) ==>
      Depth(keys, q) < |q| && BytesToMissing(f, StrandsOf(keys, values), q) == q[..Depth(keys, q) + 1]
    ensures f.Answer(StrandsOf(keys, values), q).PastEnd? <==> QueryRunsPast(keys, f.SparseStartLevel(), q)
  {
    hide StrandsOf, Walk, D.LoudsDense.Encodes, D.LoudsDense.EncodesShape, S.LoudsSparse.Encodes,
         S.LoudsSparse.EncodesShape, Minimal, NoTerminators, ByteMissing, Depth, QueryRunsPast, RunsPast, LessByByte;
    var t := StrandsOf(keys, values);
    f.sparse.Shape(t);
    MissingOnKeys(keys, values, q);
    NoItemLevel(t, q, 0, 0);
    PastEndExactly(f, t, q);
    RunsPastOnKeys(keys, values, f.SparseStartLevel(), q);
  }

  lemma ShownIdentifies(keys: seq<Key>, values: seq<nat>, k: nat)
    requires ValidKeys(keys, values) && k < |StrandsOf(keys, values)| && IndexValues(StrandsOf(keys, values), keys)
    ensures StrandsOf(keys, values)[k].hi <= |StrandsOf(keys, values)[k].key|
    ensures Identifies(keys, StrandsOf(keys, values)[k].Stored(), |StrandsOf(keys, values)[k].Stored()|, k)
  {
    hide StrandsOf, LessByByte, Minimal;
    StrandsAreTrie(keys, values);
    var s := StrandsOf(keys, values)[k];
    SizedStrand(StrandsOf(keys, values), k);
    assert s.Stored()[..s.hi] == s.Stored();
    StoredIdentifies(keys, values, s.Stored(), k, k);
  }

  lemma LeastInRange(t: seq<Strand>, q: Key, inclusive: bool, k: nat)
    requires Least(t, q, inclusive, k)
    ensures k <= |t|
  {
  }
}
