/**
 Lookups stated on the key list alone, with no trie: a query is found exactly when one of its
 prefixes singles out a key.
 */
module KeySpec {
  import opened Bits
  import opened Labels
  import opened Strands
  import opened Keys
  import opened Encoding
  import opened DenseEncoding
  import opened Fst
  import opened FstIter
  import opened Bounds
  import opened Strays
  import opened Seek
  import opened Consequences
  import opened Walks
  import opened Overruns
  import opened KeyShape
  import S = LoudsSparse
  import D = LoudsDense

  predicate HasPrefix(key: Key, p: Key) { |p| <= |key| && key[..|p|] == p }

  /** The first `n` bytes of the query begin key `x`, and no other key. */
  ghost predicate Identifies(keys: seq<Key>, q: Key, n: nat, x: nat) {
    0 < n <= |q| && x < |keys| && HasPrefix(keys[x], q[..n]) &&
    forall y :: 0 <= y < |keys| && HasPrefix(keys[y], q[..n]) ==> keys[y] == keys[x]
  }

  ghost predicate Identified(keys: seq<Key>, q: Key) {
    exists n: nat, x: nat :: Identifies(keys, q, n, x)
  }

  /** Each strand is one of the keys, and each key is on a strand. */
  lemma StrandIsKey(keys: seq<Key>, values: seq<nat>, k: nat) returns (x: nat)
    requires ValidKeys(keys, values) && k < |StrandsOf(keys, values)|
    ensures x < |keys| && StrandsOf(keys, values)[k].key == keys[x]
  {
    x := Distinct(keys)[k];
    assert StrandsOf(keys, values)[k] == StrandOf(keys, values, k);
  }

  lemma KeyOnStrand(keys: seq<Key>, values: seq<nat>, x: nat) returns (k: nat)
    requires ValidKeys(keys, values) && x < |keys|
    ensures k < |StrandsOf(keys, values)| && StrandsOf(keys, values)[k].key == keys[x]
    ensures k + 1 == Ones(FirstFlags(keys), x + 1)
    ensures x == 0 || keys[x - 1] != keys[x] ==> StrandsOf(keys, values)[k].value == values[x]
  {
    hide LessByByte, Positions;
    RunOf(keys, x);
    k := Ones(FirstFlags(keys), x + 1) - 1;
    assert StrandsOf(keys, values)[k] == StrandOf(keys, values, k);
    if x == 0 || keys[x - 1] != keys[x] {
      assert FirstFlags(keys)[x];
      PositionAt(FirstFlags(keys), |keys|, x);
    }
  }

  /** A stored prefix singles out its key. */
  lemma StoredIdentifies(keys: seq<Key>, values: seq<nat>, q: Key, k: nat, x: nat)
    requires ValidKeys(keys, values) && k < |StrandsOf(keys, values)| && x < |keys|
    requires StrandsOf(keys, values)[k].key == keys[x] && Matches(StrandsOf(keys, values)[k], q)
    ensures Identifies(keys, q, StrandsOf(keys, values)[k].hi, x)
  {
    hide StrandsOf, WellFormed, Minimal;
    StrandsAreTrie(keys, values);
    var t := StrandsOf(keys, values);
    SizedStrand(t, k);
    forall y | 0 <= y < |keys| && HasPrefix(keys[y], q[..t[k].hi])
      ensures keys[y] == keys[x]
    {
      var j := KeyOnStrand(keys, values, y);
      if j != k { StoredNotShared(t, k, j); }
    }
  }

  lemma SizedStrand(t: seq<Strand>, k: nat)
    requires WellFormed(t) && k < |t|
    ensures t[k].Sized()
  {
  }

  /** A prefix that singles out a key is at least as long as the stored one. */
  lemma IdentifiedMatches(keys: seq<Key>, values: seq<nat>, q: Key, n: nat, x: nat, k: nat)
    requires ValidKeys(keys, values) && Identifies(keys, q, n, x)
    requires k < |StrandsOf(keys, values)| && StrandsOf(keys, values)[k].key == keys[x]
    ensures Matches(StrandsOf(keys, values)[k], q)
  {
    hide StrandsOf, WellFormed;
    StrandsAreTrie(keys, values);
    var t := StrandsOf(keys, values);
    SizedStrand(t, k);
    var s := t[k];
    if n < s.hi {
      ShortPrefixNeedsTwo(t, k, n);
      StoredIsShortestUnique(t, k);
      assert SharedByOther(t, k, n);
      var j: nat :| j != k && SharesPrefix(t, k, j, n);
      var y := StrandIsKey(keys, values, j);
      assert HasPrefix(keys[y], q[..n]);
      SizedStrand(t, j);
      StoredNotShared(t, k, j);
    } else {
      assert s.key[..s.hi] == s.key[..n][..s.hi] && q[..s.hi] == q[..n][..s.hi];
    }
  }

  lemma ShortPrefixNeedsTwo(t: seq<Strand>, k: nat, n: nat)
    requires WellFormed(t) && Minimal(t) && k < |t| && 0 < n < t[k].hi
    ensures |t| >= 2
  {
    if |t| == 1 { OneKeyHeight(t); }
  }

  /** All the keys are one, and it begins with the reserved byte. */
  predicate SoleReservedKey(keys: seq<Key>)
    requires |keys| > 0 && |keys[0]| > 0
  {
    keys[0] == keys[|keys| - 1] && keys[0][0] == TERMINATOR
  }

  lemma StrandCount(keys: seq<Key>, values: seq<nat>)
    requires ValidKeys(keys, values)
    ensures |StrandsOf(keys, values)| == Ones(FirstFlags(keys), |keys|) && Ones(FirstFlags(keys), 1) == 1
  {
    assert Ones(FirstFlags(keys), 0) == 0;
  }

  /** Only then is anything filed as a prefix key. */
  lemma ReservedKeys(keys: seq<Key>, values: seq<nat>)
    requires ValidKeys(keys, values)
    ensures AllSized(StrandsOf(keys, values))
    ensures NoTerminators(StrandsOf(keys, values)) <==> !SoleReservedKey(keys)
  {
    hide StrandsOf, Minimal, NoTerminators;
    StrandsAreTrie(keys, values);
    var t := StrandsOf(keys, values);
    var a := KeyOnStrand(keys, values, 0);
    var b := KeyOnStrand(keys, values, |keys| - 1);
    StrandCount(keys, values);
    if |t| == 1 {
      OneKeyTerminator(t);
    } else {
      TwoKeysNoTerminators(t);
      SizedStrand(t, a);
      StoredNotShared(t, a, b);
    }
  }

  /** A hit exactly when a prefix of the query singles out a key, with the value of its first copy. */
  lemma HitsOnKeys(f: Fst, keys: seq<Key>, values: seq<nat>, q: Key)
    requires ValidKeys(keys, values) && f.Encodes(StrandsOf(keys, values)) && NoTerminators(StrandsOf(keys, values))
    ensures f.Answer(StrandsOf(keys, values), q).Hit? <==> Identified(keys, q)
    ensures forall n: nat, x: nat :: Identifies(keys, q, n, x) && (x == 0 || keys[x - 1] != keys[x]) ==>
      f.Answer(StrandsOf(keys, values), q) == S.Hit(values[x])
  {
    hide StrandsOf, Fst.Answer, Fst.Encodes, NoTerminators, Matches, Identifies;
    var t := StrandsOf(keys, values);
    HitMeans(f, t, q);
    if f.Answer(t, q).Hit? {
      var k: nat :| k < |t| && Matches(t[k], q);
      var x := StrandIsKey(keys, values, k);
      StoredIdentifies(keys, values, q, k, x);
    }
    forall n: nat, x: nat | Identifies(keys, q, n, x)
      ensures f.Answer(t, q).Hit?
      ensures x < |keys| && (x == 0 || keys[x - 1] != keys[x] ==> f.Answer(t, q) == S.Hit(values[x]))
    {
      IdentifiesBound(keys, q, n, x);
      var k := KeyOnStrand(keys, values, x);
      IdentifiedMatches(keys, values, q, n, x, k);
    }
  }

  /**
   What looking `q` up in the trie of the list answers when the sparse levels start at `s`. A
   lone key that begins with 255 is always missed. Otherwise it is a hit exactly when a prefix of
   the query singles out a key, with the value of that key's first copy; undetermined exactly when
   the query runs past the labels; and else a miss.
   */
  ghost predicate RightAnswer(keys: seq<Key>, values: seq<nat>, s: nat, q: Key, r: S.LookupResult)
    requires |values| == |keys| > 0 && |keys[0]| > 0
  {
    if SoleReservedKey(keys) then r == S.Miss
    else
      && (r.Hit? <==> Identified(keys, q))
      && (r.PastEnd? <==> QueryRunsPast(keys, s, q))
      && forall n: nat, x: nat :: Identifies(keys, q, n, x) && (x == 0 || keys[x - 1] != keys[x]) ==>
        r == S.Hit(values[x])
  }

  lemma LookupOnKeys(f: Fst, keys: seq<Key>, values: seq<nat>, q: Key)
    requires ValidKeys(keys, values) && f.Encodes(StrandsOf(keys, values))
    ensures |values| == |keys| > 0 && |keys[0]| > 0
    ensures RightAnswer(keys, values, f.SparseStartLevel(), q, f.Answer(StrandsOf(keys, values), q))
  {
    hide StrandsOf, Fst.Answer, NoTerminators, Identifies, Identified, QueryRunsPast, RunsPast, D.LoudsDense.Encodes,
         D.LoudsDense.EncodesShape, S.LoudsSparse.Encodes, S.LoudsSparse.EncodesShape, Minimal, LessByByte;
    ReservedKeys(keys, values);
    var t := StrandsOf(keys, values);
    if SoleReservedKey(keys) {
      TerminatorMisses(f, t, q);
    } else {
      f.sparse.Shape(t);
      HitsOnKeys(f, keys, values, q);
      PastEndExactly(f, t, q);
      RunsPastOnKeys(keys, values, f.SparseStartLevel(), q);
    }
  }

  /** The answer is definite, and a hit exactly when it should be. */
  ghost predicate DefiniteAnswer(keys: seq<Key>, q: Key, r: S.LookupResult) {
    !r.PastEnd? && (r.Hit? <==> Identified(keys, q))
  }

  /**
   Lookups are right for all queries if and only if the list is not a lone key beginning with 255
   and no query runs past the labels, which the list and the cutoff tell.
   */
  lemma LookupsRightOnKeys(f: Fst, keys: seq<Key>, values: seq<nat>)
    requires ValidKeys(keys, values) && f.Encodes(StrandsOf(keys, values))
    ensures |keys| > 0 && |keys[0]| > 0
    ensures (forall q :: DefiniteAnswer(keys, q, f.Answer(StrandsOf(keys, values), q)))
       <==> !SoleReservedKey(keys) && !ListRunsPast(keys, f.SparseStartLevel())
  {
    hide StrandsOf, Fst.Answer, D.LoudsDense.Encodes, D.LoudsDense.EncodesShape, S.LoudsSparse.Encodes,
         S.LoudsSparse.EncodesShape, Minimal, Identifies, Identified, QueryRunsPast, ListRunsPast, LessByByte,
         CanRunPast, SoleReservedKey;
    var t, s := StrandsOf(keys, values), f.SparseStartLevel();
    Lengths(keys, values);
    f.sparse.Shape(t);
    CanRunPastOnKeys(keys, values, s);
    forall q
      ensures RightAnswer(keys, values, s, q, f.Answer(t, q))
    {
      LookupOnKeys(f, keys, values, q);
    }
    if SoleReservedKey(keys) {
      FirstKeyIdentified(keys, values);
      assert !DefiniteAnswer(keys, keys[0], f.Answer(t, keys[0]));
    } else if ListRunsPast(keys, s) {
      var q :| QueryRunsPast(keys, s, q);
      assert !DefiniteAnswer(keys, q, f.Answer(t, q));
    }
  }

  /** A whole key singles itself out. */
  lemma FirstKeyIdentified(keys: seq<Key>, values: seq<nat>)
    requires ValidKeys(keys, values)
    ensures Identified(keys, keys[0])
  {
    hide StrandsOf, LessByByte;
    StrandsAreTrie(keys, values);
    var k := KeyOnStrand(keys, values, 0);
    SizedStrand(StrandsOf(keys, values), k);
    StoredIdentifies(keys, values, keys[0], k, 0);
  }

  // ---- missing bytes ---------------------------------------------------------------------

  /** The length of the longest prefix of the query that begins one of the first `m` keys. */
  function DepthTo(keys: seq<Key>, q: Key, m: nat): (n: nat)
    requires m <= |keys|
    ensures n <= |q|
  {
    if m == 0 then 0 else Max(DepthTo(keys, q, m - 1), Lcp(keys[m - 1], q))
  }

  function Depth(keys: seq<Key>, q: Key): (n: nat)
    ensures n <= |q|
  {
    DepthTo(keys, q, |keys|)
  }

  /** Some key begins with exactly that much of the query, and none with more. */
  lemma {:induction false} DepthMeans(keys: seq<Key>, q: Key, m: nat)
    requires m <= |keys|
    ensures forall x :: 0 <= x < m ==> Lcp(keys[x], q) <= DepthTo(keys, q, m)
    ensures m > 0 ==> exists x :: 0 <= x < m && Lcp(keys[x], q) == DepthTo(keys, q, m)
    decreases m
  {
    hide Lcp;
    if m > 0 { DepthMeans(keys, q, m - 1); }
  }

  lemma DiffersAt(key: Key, q: Key, n: nat, c: nat)
    requires c < n <= |q| && c < |key| && key[c] != q[c]
    ensures !HasPrefix(key, q[..n])
  {
    if n <= |key| { assert key[..n][c] != q[..n][c]; }
  }

  lemma PrefixIsCommon(key: Key, q: Key, n: nat)
    requires n <= |q|
    ensures HasPrefix(key, q[..n]) <==> n <= Lcp(key, q)
  {
    var c := Lcp(key, q);
    if n <= c {
      assert key[..n] == key[..c][..n] == q[..c][..n] == q[..n];
    } else if c < |key| {
      DiffersAt(key, q, n, c);
    }
  }

  lemma DepthIs(keys: seq<Key>, q: Key, n: nat, x: nat)
    requires n <= |q| && x < |keys| && HasPrefix(keys[x], q[..n])
    requires n < |q| ==> forall y :: 0 <= y < |keys| ==> !HasPrefix(keys[y], q[..n + 1])
    ensures Depth(keys, q) == n
  {
    hide HasPrefix, Lcp, DepthTo;
    DepthMeans(keys, q, |keys|);
    PrefixIsCommon(keys[x], q, n);
    var y :| 0 <= y < |keys| && Lcp(keys[y], q) == Depth(keys, q);
    if n < |q| { PrefixIsCommon(keys[y], q, n + 1); }
  }

  lemma DepthReached(keys: seq<Key>, q: Key, n: nat, x: nat)
    requires n <= |q| && x < |keys| && HasPrefix(keys[x], q[..n])
    ensures n <= Depth(keys, q)
  {
    hide HasPrefix, Lcp, DepthTo;
    DepthMeans(keys, q, |keys|);
    PrefixIsCommon(keys[x], q, n);
  }

  /** Two different keys go on after the first `n` bytes of the query. */
  predicate Branches(keys: seq<Key>, q: Key, n: nat, x: nat, y: nat) {
    n <= |q| && x < |keys| && y < |keys| && keys[x] != keys[y] && HasPrefix(keys[x], q[..n]) &&
    HasPrefix(keys[y], q[..n])
  }

  /** On its way down the query comes to a place where the keys still differ, and none has its next byte. */
  predicate ByteMissing(keys: seq<Key>, q: Key) {
    var n := Depth(keys, q);
    n < |q| && (n == 0 || exists x, y | 0 <= x < |keys| && 0 <= y < |keys| :: Branches(keys, q, n, x, y))
  }

  /** At every node on the path to a key that the query begins, the query's byte is there. */
  lemma PrefixHasItem(t: seq<Strand>, q: Key, l: nat, i: nat, k: nat)
    requires WellFormed(t) && AtNode(t, q, l, i) && l < |q| && k < |t| && HasPrefix(t[k].key, q[..l + 1])
    ensures exists x: nat :: ItemOf(t, l, i, x, q[l])
  {
    assert forall c :: 0 <= c <= l ==> q[c] == q[..l + 1][c] == t[k].key[..l + 1][c] == t[k].key[c];
    if i <= k < NodeEnd(t, l, i) {
      StaysBelow(t, l, i, k);
      var x := Ancestor(t, l, i, k);
      assert ItemOf(t, l, i, x, q[l]);
    } else {
      var c := OutsideDiffers(t, q, l, i, k);
    }
  }

  /** Keys outside a node part from its path above it. */
  lemma OutsideDiffers(t: seq<Strand>, q: Key, l: nat, i: nat, k: nat) returns (c: nat)
    requires WellFormed(t) && AtNode(t, q, l, i) && k < |t| && !(i <= k < NodeEnd(t, l, i))
    ensures c < l && c < |t[k].key| && q[c] != t[k].key[c]
  {
    assert t[k].Sized();
    if k < i {
      c := PartAt(t, k, i);
      assert c <= t[i].lo;
    } else {
      c := PartAt(t, i, k);
      assert c <= t[NodeEnd(t, l, i)].lo;
    }
    assert q[c] == q[..l][c] == t[i].key[c];
  }

  /** Where the walk of a query stops for want of a byte, as the key list tells it. */
  lemma MissingOnKeys(keys: seq<Key>, values: seq<nat>, q: Key)
    requires ValidKeys(keys, values)
    ensures WellFormed(StrandsOf(keys, values)) && AtNode(StrandsOf(keys, values), q, 0, 0)
    ensures var w := Walk(StrandsOf(keys, values), q, 0, 0);
      (w.NoItem? <==> ByteMissing(keys, q)) && (w.NoItem? ==> w.level == Depth(keys, q))
  {
    hide StrandsOf, Walk, LessByByte, WellFormed, Minimal, ByteMissing;
    StrandsAreTrie(keys, values);
    var t := StrandsOf(keys, values);
    RootNode(t, q);
    WalkStopsAt(t, q, 0, 0);
    WalkFindsMatch(t, q, 0, 0);
    WalkRunsThrough(t, q, 0, 0);
    var w := Walk(t, q, 0, 0);
    match w
    case NoItem(l, i) => StopIsMissing(keys, values, q, l, i);
    case AtLeaf(x) => MatchedNotMissing(keys, values, q, x);
    case OutOfBytes =>
      var i: nat :| AtNode(t, q, |q|, i);
      EndedNotMissing(keys, values, q, i);
  }

  lemma {:induction false} WalkRunsThrough(t: seq<Strand>, q: Key, l: nat, i: nat)
    requires WellFormed(t) && AtNode(t, q, l, i)
    ensures Walk(t, q, l, i).OutOfBytes? ==> exists j: nat :: AtNode(t, q, |q|, j)
    decreases |q| - l
  {
    if l < |q| {
      if x: nat :| ItemOf(t, l, i, x, q[l]) {
        WalkStep(t, q, l, i, x);
        if t[x].HasChild(l) { WalkRunsThrough(t, q, l + 1, x); }
      }
    }
  }

  lemma StopIsMissing(keys: seq<Key>, values: seq<nat>, q: Key, l: nat, i: nat)
    requires ValidKeys(keys, values) && l < |q|
    requires AtNode(StrandsOf(keys, values), q, l, i)
    requires forall x: nat :: !ItemOf(StrandsOf(keys, values), l, i, x, q[l])
    ensures Depth(keys, q) == l && ByteMissing(keys, q)
  {
    hide StrandsOf, LessByByte, WellFormed, Depth, ItemOf;
    StrandsAreTrie(keys, values);
    var t := StrandsOf(keys, values);
    var a := StrandIsKey(keys, values, i);
    forall y | 0 <= y < |keys|
      ensures !HasPrefix(keys[y], q[..l + 1])
    {
      var k := KeyOnStrand(keys, values, y);
      if HasPrefix(keys[y], q[..l + 1]) { PrefixHasItem(t, q, l, i, k); }
    }
    DepthIs(keys, q, l, a);
    if l > 0 {
      ShortPrefixNeedsTwo(t, i, l);
      StoredIsShortestUnique(t, i);
      assert SharedByOther(t, i, l);
      var j: nat :| j != i && SharesPrefix(t, i, j, l);
      SizedStrand(t, i);
      StoredNotShared(t, i, j);
      var b := StrandIsKey(keys, values, j);
      assert Branches(keys, q, l, a, b);
    }
  }

  lemma MatchedNotMissing(keys: seq<Key>, values: seq<nat>, q: Key, k: nat)
    requires ValidKeys(keys, values) && k < |StrandsOf(keys, values)| && Matches(StrandsOf(keys, values)[k], q)
    ensures !ByteMissing(keys, q)
  {
    hide StrandsOf, LessByByte, WellFormed, Depth, Minimal;
    StrandsAreTrie(keys, values);
    var t := StrandsOf(keys, values);
    SizedStrand(t, k);
    var x := StrandIsKey(keys, values, k);
    StoredIdentifies(keys, values, q, k, x);
    DepthReached(keys, q, t[k].hi, x);
    var n := Depth(keys, q);
    forall y, z | 0 <= y < |keys| && 0 <= z < |keys|
      ensures !Branches(keys, q, n, y, z)
    {
      ShorterPrefix(keys[y], q, t[k].hi, n);
      ShorterPrefix(keys[z], q, t[k].hi, n);
    }
  }

  lemma ShorterPrefix(key: Key, q: Key, m: nat, n: nat)
    requires m <= n <= |q|
    ensures HasPrefix(key, q[..n]) ==> HasPrefix(key, q[..m])
  {
    if HasPrefix(key, q[..n]) { assert key[..m] == key[..n][..m] == q[..n][..m] == q[..m]; }
  }

  lemma EndedNotMissing(keys: seq<Key>, values: seq<nat>, q: Key, i: nat)
    requires ValidKeys(keys, values) && AtNode(StrandsOf(keys, values), q, |q|, i)
    ensures !ByteMissing(keys, q)
  {
    hide StrandsOf, LessByByte, Depth;
    var x := StrandIsKey(keys, values, i);
    assert q[..|q|] == q;
    DepthReached(keys, q, |q|, x);
  }

  /**
   A whole traversal shows, in strictly rising order, one entry per distinct key: a prefix that
   singles the key out, with the value given with its first copy.
   */
  lemma TraversalOnKeys(keys: seq<Key>, values: seq<nat>)
    requires ValidKeys(keys, values)
    ensures AllSized(StrandsOf(keys, values))
    ensures var e := Entries(StrandsOf(keys, values), |StrandsOf(keys, values)|);
      |e| == |Distinct(keys)| &&
      (forall j :: 0 <= j < |e| ==>
        Identifies(keys, e[j].0, |e[j].0|, Distinct(keys)[j]) && e[j].1 == values[Distinct(keys)[j]]) &&
      forall i, j :: 0 <= i < j < |e| ==> LessByByte(e[i].0, e[j].0)
  {
    hide LessByByte, Identifies, Distinct, Minimal;
    StrandsAreTrie(keys, values);
    var t := StrandsOf(keys, values);
    var e := Entries(t, |t|);
    forall j | 0 <= j < |e|
      ensures Identifies(keys, e[j].0, |e[j].0|, Distinct(keys)[j]) && e[j].1 == values[Distinct(keys)[j]]
    {
      SizedStrand(t, j);
      assert t[j] == StrandOf(keys, values, j);
      StoredIdentifies(keys, values, e[j].0, j, Distinct(keys)[j]);
      assert e[j].0[..t[j].hi] == e[j].0;
    }
    forall i, j | 0 <= i < j < |e|
      ensures LessByByte(e[i].0, e[j].0)
    {
      StoredRise(t, i, j);
    }
  }

  lemma StoredRise(t: seq<Strand>, i: nat, j: nat)
    requires WellFormed(t) && i < j < |t|
    ensures t[i].Sized() && t[j].Sized() && LessByByte(t[i].Stored(), t[j].Stored())
  {
    hide Lcp;
    SizedStrand(t, i);
    SizedStrand(t, j);
    var c := PartAt(t, i, j);
    LcpUnique(t[i].Stored(), t[j].Stored(), c);
  }

  /** Key `k` is the first in the list at or after the query, or `k` is the length of the list. */
  ghost predicate FirstNotBelow(keys: seq<Key>, q: Key, inclusive: bool, k: nat) {
    k <= |keys| && (forall j :: 0 <= j < k ==> !Qualifies(keys[j], q, inclusive)) &&
    (k < |keys| ==> Qualifies(keys[k], q, inclusive))
  }

  /** The y-th distinct key's stored prefix has at most `n` bytes, or it has one more and comes before the k-th key. */
  predicate StopsBefore(keys: seq<Key>, n: nat, k: nat, y: nat) {
    y < |Distinct(keys)| && (StoredLength(keys, y) <= n || (StoredLength(keys, y) == n + 1 && y < k))
  }

  /** And none of those is longer, nor as long and further back in the list. */
  ghost predicate LastToStop(keys: seq<Key>, n: nat, k: nat, y: nat) {
    StopsBefore(keys, n, k, y) && forall z: nat :: StopsBefore(keys, n, k, z) ==>
      StoredLength(keys, z) < StoredLength(keys, y) || (StoredLength(keys, z) == StoredLength(keys, y) && z <= y)
  }

  /** The strands that end before a place on level `n` are the keys that stop before it. */
  lemma StopsOnKeys(keys: seq<Key>, values: seq<nat>, n: nat, k: nat)
    requires |values| == |keys|
    ensures forall y: nat :: EndsBefore(StrandsOf(keys, values), n, k, y) <==> StopsBefore(keys, n, k, y)
    ensures forall y: nat :: LastBefore(StrandsOf(keys, values), n, k, y) <==> LastToStop(keys, n, k, y)
  {
    hide StrandsOf, StoredLength, Distinct;
    StrandFields(keys, values);
    var t := StrandsOf(keys, values);
    assert forall y: nat :: EndsBefore(t, n, k, y) <==> StopsBefore(keys, n, k, y);
  }

  /** What a seek needs of its trie follows from the key list, and what it finds is the lower bound in the list. */
  lemma SeekOnKeys(keys: seq<Key>, values: seq<nat>, q: Key, inclusive: bool, k: nat)
    requires ValidKeys(keys, values) && !SoleReservedKey(keys)
    requires forall i :: 0 < i < |keys| ==> keys[i - 1] != keys[i]
    requires forall i :: 0 <= i < |keys| ==> values[i] == i
    ensures AllSized(StrandsOf(keys, values)) && NoTerminators(StrandsOf(keys, values))
    ensures IndexValues(StrandsOf(keys, values), keys)
    ensures Least(StrandsOf(keys, values), q, inclusive, k) <==> FirstNotBelow(keys, q, inclusive, k)
  {
    hide StrandsOf, NoTerminators, Qualifies, LessByByte;
    var t := StrandsOf(keys, values);
    ReservedKeys(keys, values);
    IndexValuesOf(keys, values);
    if FirstNotBelow(keys, q, inclusive, k) {
      StrandsAreTrie(keys, values);
      forall j | k <= j < |t|
        ensures Qualifies(t[j].key, q, inclusive)
      {
        QualifiesUpward(t, q, inclusive, k, j);
      }
    }
  }

  /** Later keys qualify too. */
  lemma QualifiesUpward(t: seq<Strand>, q: Key, inclusive: bool, k: nat, j: nat)
    requires WellFormed(t) && k <= j < |t| && Qualifies(t[k].key, q, inclusive)
    ensures Qualifies(t[j].key, q, inclusive)
  {
    if k < j {
      SizedStrand(t, k);
      SizedStrand(t, j);
      var c := PartAt(t, k, j);
      LessAtTwo(q, t[k].key, t[j].key, c);
    }
  }

  lemma LessAtTwo(q: Key, a: Key, b: Key, c: nat)
    requires c < |a| && c < |b| && a[..c] == b[..c] && a[c] < b[c] && (Less(q, a) || q == a)
    ensures Less(q, b)
  {
    if q == a {
      LessAt(a, b, c);
    } else {
      hide Lcp;
      var d := Lcp(q, a);
      if d < c {
        SameByte(a, b, c, d);
        assert b[..d] == b[..c][..d] == a[..c][..d] == a[..d];
        if d < |q| { LessAt(q, b, d); } else { LessPrefix(q, b); }
      } else {
        assert q[..c] == q[..d][..c] == a[..d][..c] == a[..c];
        if c < |q| {
          if c < d { SameByte(q, a, d, c); }
          LessAt(q, b, c);
        } else {
          LessPrefix(q, b);
        }
      }
    }
  }

  lemma IdentifiesBound(keys: seq<Key>, q: Key, n: nat, x: nat)
    requires Identifies(keys, q, n, x)
    ensures x < |keys|
  {
  }
}
