/**
 The shape of the trie read off the key list: how long the stored prefixes are, how many items
 the sparse levels hold, and which keys hang under the last node.
 */
module KeyShape {
  import opened Bits
  import opened Labels
  import opened Strands
  import opened Keys
  import opened Encoding
  import opened Walks
  import opened Overruns

  /** The length of the j-th distinct key's stored prefix: one byte past what it shares with a neighbour. */
  function StoredLength(keys: seq<Key>, j: nat): nat {
    1 + Max(SharedLength(keys, j), SharedLength(keys, j + 1))
  }

  /** The longest stored prefix of the first `m` distinct keys. */
  function LongestStored(keys: seq<Key>, m: nat): (h: nat)
    ensures forall j :: 0 <= j < m ==> StoredLength(keys, j) <= h
  {
    if m == 0 then 0 else Max(LongestStored(keys, m - 1), StoredLength(keys, m - 1))
  }

  /** The number of levels. */
  function LevelCount(keys: seq<Key>): nat { LongestStored(keys, |Distinct(keys)|) }

  /** How many whole numbers of lo..hi are at least `s`. */
  function From(lo: nat, hi: nat, s: nat): nat { if Max(lo, s) < hi then hi - Max(lo, s) else 0 }

  /** Items on level `s` and below: the bytes that each key adds to what it shares with the one before it. */
  function ItemsBelow(keys: seq<Key>, s: nat, m: nat): nat {
    if m == 0 then 0 else ItemsBelow(keys, s, m - 1) + From(SharedLength(keys, m - 1), StoredLength(keys, m - 1), s)
  }

  /** The distinct keys i..k are the ones under the last node of the deepest level. */
  predicate LastRun(keys: seq<Key>, i: nat, k: nat) {
    var h := LevelCount(keys);
    i <= k < |Distinct(keys)| && StoredLength(keys, k) == h &&
    (forall j :: k < j < |Distinct(keys)| ==> StoredLength(keys, j) < h) &&
    (forall j :: i < j <= k ==> SharedLength(keys, j) + 1 >= h) && (i == 0 || SharedLength(keys, i) + 1 < h)
  }

  /** With the sparse levels starting at `s`, the labels of the last node cross into a partly filled word. */
  predicate RunCrosses(keys: seq<Key>, s: nat, i: nat, k: nat) {
    var n := ItemsBelow(keys, s, |Distinct(keys)|);
    s < LevelCount(keys) && i <= k && k + 1 - i <= n && CrossesIntoPartWord(n, n - (k + 1 - i))
  }

  /** The query begins as the keys i..k do, down to the deepest level, and has another byte there. */
  predicate MissesLast(keys: seq<Key>, q: Key, i: nat, k: nat) {
    var d, h := Distinct(keys), LevelCount(keys);
    0 < h <= |q| && i <= k < |d| && h <= |keys[d[i]]| && q[..h - 1] == keys[d[i]][..h - 1] &&
    forall j :: i <= j <= k ==> h <= |keys[d[j]]| && keys[d[j]][h - 1] != q[h - 1]
  }

  /** The query is looked up past the labels. */
  ghost predicate QueryRunsPast(keys: seq<Key>, s: nat, q: Key) {
    exists i: nat, k: nat :: LastRun(keys, i, k) && RunCrosses(keys, s, i, k) && MissesLast(keys, q, i, k)
  }

  /** Some query is. */
  ghost predicate ListRunsPast(keys: seq<Key>, s: nat) {
    exists i: nat, k: nat :: RunLeavesGap(keys, s, i, k)
  }

  /** The last node crosses and does not have all 256 labels. */
  predicate RunLeavesGap(keys: seq<Key>, s: nat, i: nat, k: nat) {
    LastRun(keys, i, k) && RunCrosses(keys, s, i, k) && k + 1 - i < 256
  }

  // ---- the same on the strands -----------------------------------------------------------

  /** A strand's fields, from the key list. */
  lemma StrandFields(keys: seq<Key>, values: seq<nat>)
    requires |values| == |keys|
    ensures var t, d := StrandsOf(keys, values), Distinct(keys);
      |t| == |d| && forall j :: 0 <= j < |t| ==>
        t[j].key == keys[d[j]] && t[j].lo == SharedLength(keys, j) && t[j].hi == StoredLength(keys, j)
  {
    var t := StrandsOf(keys, values);
    assert forall j :: 0 <= j < |t| ==> t[j] == StrandOf(keys, values, j);
  }

  lemma {:induction false} LevelsAreHeight(keys: seq<Key>, t: seq<Strand>, m: nat)
    requires m <= |t| && forall j :: 0 <= j < |t| ==> t[j].hi == StoredLength(keys, j)
    ensures HeightTo(t, m) == LongestStored(keys, m)
  {
    hide StoredLength;
    if m > 0 { LevelsAreHeight(keys, t, m - 1); }
  }

  /** Items that the first `m` strands create on the levels s..l. */
  ghost function ItemSum(t: seq<Strand>, s: nat, l: nat, m: nat): nat
    requires s <= l && m <= |t|
    decreases l
  {
    if s == l then 0 else ItemSum(t, s, l - 1, m) + At(t, l - 1, m)
  }

  lemma {:induction false} OffsetIsItemSum(t: seq<Strand>, s: nat, l: nat)
    requires s <= l
    ensures Offset(t, s, l) == ItemSum(t, s, l, |t|)
    decreases l
  {
    hide Ones, Positions;
    if s < l {
      OffsetIsItemSum(t, s, l - 1);
      PickedLevel(t, l - 1, |t|);
    }
  }

  lemma {:induction false} NoItems(t: seq<Strand>, s: nat, l: nat)
    requires s <= l
    ensures ItemSum(t, s, l, 0) == 0
    decreases l
  {
    if s < l { NoItems(t, s, l - 1); }
  }

  /** One strand adds its own items, cut off at level `l`. */
  lemma {:induction false} OneMoreStrand(t: seq<Strand>, s: nat, l: nat, k: nat)
    requires s <= l && k < |t|
    ensures ItemSum(t, s, l, k + 1) == ItemSum(t, s, l, k) + From(t[k].lo, if t[k].hi < l then t[k].hi else l, s)
    decreases l
  {
    if s < l {
      OneMoreStrand(t, s, l - 1, k);
      OneMoreItem(t, l - 1, k);
    }
  }

  lemma OneMoreItem(t: seq<Strand>, l: nat, k: nat)
    requires k < |t|
    ensures At(t, l, k + 1) == At(t, l, k) + Bit(t[k].InLevel(l))
  {
  }

  lemma {:induction false} ItemsAreBelow(keys: seq<Key>, t: seq<Strand>, s: nat, h: nat, m: nat)
    requires s <= h && m <= |t|
    requires forall j :: 0 <= j < |t| ==> t[j].lo == SharedLength(keys, j) && t[j].hi == StoredLength(keys, j) <= h
    ensures ItemSum(t, s, h, m) == ItemsBelow(keys, s, m)
    decreases m
  {
    hide StoredLength, SharedLength, ItemSum;
    if m == 0 {
      NoItems(t, s, h);
    } else {
      ItemsAreBelow(keys, t, s, h, m - 1);
      OneMoreStrand(t, s, h, m - 1);
    }
  }

  /** The sparse items, counted from the key list. */
  lemma SparseItems(keys: seq<Key>, values: seq<nat>, s: nat)
    requires |values| == |keys| && s <= Height(StrandsOf(keys, values))
    ensures Height(StrandsOf(keys, values)) == LevelCount(keys)
    ensures Offset(StrandsOf(keys, values), s, LevelCount(keys)) == ItemsBelow(keys, s, |Distinct(keys)|)
  {
    hide StrandsOf, StoredLength, SharedLength, Distinct, HeightTo, Offset, ItemSum;
    StrandFields(keys, values);
    var t := StrandsOf(keys, values);
    LevelsAreHeight(keys, t, |t|);
    OffsetIsItemSum(t, s, LevelCount(keys));
    ItemsAreBelow(keys, t, s, LevelCount(keys), |t|);
  }

  /** A node's end is where the strands first drop below its level. */
  lemma NodeEndIs(t: seq<Strand>, l: nat, i: nat, e: nat)
    requires i < e <= |t| && (e < |t| ==> t[e].lo < l) && forall m :: i < m < e ==> t[m].lo >= l
    ensures NodeEnd(t, l, i) == e
  {
  }

  /** A strand has an item on the deepest level exactly when its stored prefix is as long as any. */
  lemma DeepestItems(t: seq<Strand>)
    requires WellFormed(t) && |t| > 0
    ensures Height(t) > 0 && forall j :: 0 <= j < |t| ==> t[j].lo < t[j].hi <= |t[j].key| && t[j].hi <= Height(t)
    ensures forall j :: 0 <= j < |t| ==> (t[j].InLevel(Height(t) - 1) <==> t[j].hi == Height(t))
  {
    assert forall j :: 0 <= j < |t| ==> t[j].Sized();
    assert t[0].Sized();
  }

  /** The last run of strands, in the sense of `LastRun`. */
  ghost predicate LastStrands(t: seq<Strand>, i: nat, k: nat) {
    var h := Height(t);
    i <= k < |t| && t[k].hi == h && (forall j :: k < j < |t| ==> t[j].hi < h) &&
    (forall j :: i < j <= k ==> t[j].lo + 1 >= h) && (i == 0 || t[i].lo + 1 < h)
  }

  lemma LastStrandsAreNode(t: seq<Strand>, i: nat, k: nat)
    requires WellFormed(t) && LastStrands(t, i, k)
    ensures LastNode(t, i) && NodeEnd(t, Height(t) - 1, i) == k + 1
    ensures forall x :: i <= x <= k ==> t[x].hi == Height(t)
  {
    hide HeightTo, At, Items, NodeEnd;
    var h := Height(t);
    DeepestItems(t);
    RunReaches(t, i, k);
    NoneAfterRun(t, h - 1, k + 1);
    hide WellFormed;
    NodeEndIs(t, h - 1, i, k + 1);
  }

  /** Its strands are as long as any, and the next one leaves the node. */
  lemma RunReaches(t: seq<Strand>, i: nat, k: nat)
    requires WellFormed(t) && LastStrands(t, i, k)
    ensures Height(t) > 0 && forall x :: i <= x <= k ==> t[x].hi == Height(t)
    ensures k + 1 < |t| ==> t[k + 1].lo < Height(t) - 1
    ensures forall x :: i < x <= k ==> t[x].lo >= Height(t) - 1
  {
    hide HeightTo;
    DeepestItems(t);
    if i < k { assert Follows(t[i], t[i + 1]); }
  }

  /** When no strand from `m` on has an item on the level, all its items come before. */
  lemma NoneAfterRun(t: seq<Strand>, l: nat, m: nat)
    requires m <= |t| && forall j :: m <= j < |t| ==> !t[j].InLevel(l)
    ensures At(t, l, m) == |Items(t, l)|
  {
    PickedLevel(t, l, |t|);
    OnesZero(ItemFlags(t, l), m, |t|);
  }

  lemma NodeIsLastStrands(t: seq<Strand>, i: nat)
    requires WellFormed(t) && LastNode(t, i)
    ensures LastStrands(t, i, NodeEnd(t, Height(t) - 1, i) - 1)
  {
    hide HeightTo, Ones, Positions;
    var h := Height(t);
    var e := NodeEnd(t, h - 1, i);
    DeepestItems(t);
    PickedLevel(t, h - 1, |t|);
    forall j | e <= j < |t|
      ensures t[j].hi < h
    {
      AtOrder(t, h - 1, e, j);
      if t[j].InLevel(h - 1) { AtOrder(t, h - 1, j, |t|); }
    }
  }

  /** The place of the last node: everything but its own items comes before it. */
  lemma LastPlace(t: seq<Strand>, s: nat, i: nat, k: nat)
    requires WellFormed(t) && LastStrands(t, i, k) && s < Height(t)
    ensures Place(t, s, Height(t) - 1, i) + (k + 1 - i) == Offset(t, s, Height(t))
  {
    hide HeightTo, Ones, Positions, LastNode;
    var h := Height(t);
    LastStrandsAreNode(t, i, k);
    DeepestItems(t);
    NoneAfterRun(t, h - 1, k + 1);
    RunCounts(t, h - 1, i, k + 1);
  }

  lemma {:induction false} RunCounts(t: seq<Strand>, l: nat, i: nat, e: nat)
    requires i <= e <= |t| && forall x :: i <= x < e ==> t[x].InLevel(l)
    ensures At(t, l, e) == At(t, l, i) + (e - i)
    decreases e
  {
    if i < e { RunCounts(t, l, i, e - 1); }
  }

  lemma LastRunIs(keys: seq<Key>, values: seq<nat>, i: nat, k: nat)
    requires |values| == |keys|
    ensures LastRun(keys, i, k) <==> LastStrands(StrandsOf(keys, values), i, k)
  {
    hide StrandsOf, StoredLength, SharedLength, Distinct, HeightTo;
    StrandFields(keys, values);
    LevelsAreHeight(keys, StrandsOf(keys, values), |StrandsOf(keys, values)|);
  }

  lemma CrossingIs(keys: seq<Key>, values: seq<nat>, s: nat, i: nat, k: nat)
    requires ValidKeys(keys, values) && s <= Height(StrandsOf(keys, values)) && LastRun(keys, i, k)
    ensures RunCrosses(keys, s, i, k) <==> LastNodeCrosses(StrandsOf(keys, values), s, i)
  {
    hide StrandsOf, StoredLength, SharedLength, Distinct, HeightTo, LastRun, Place, Offset, WellFormed, Minimal,
         LessByByte, ItemsBelow, LevelCount, CrossesIntoPartWord, ValidKeys;
    Lengths(keys, values);
    StrandsAreTrie(keys, values);
    StrandFields(keys, values);
    SparseItems(keys, values, s);
    LastRunIs(keys, values, i, k);
    if s < LevelCount(keys) { LastPlace(StrandsOf(keys, values), s, i, k); }
  }

  lemma MissingIs(keys: seq<Key>, values: seq<nat>, q: Key, i: nat, k: nat)
    requires ValidKeys(keys, values) && LastRun(keys, i, k)
    ensures var t := StrandsOf(keys, values);
      MissesLast(keys, q, i, k) <==> ReachesLastNode(t, q, i) && Lacks(t, Height(t) - 1, i, q[Height(t) - 1])
  {
    hide StrandsOf, StoredLength, SharedLength, Distinct, HeightTo, LastRun, At, NodeEnd, WellFormed, Minimal,
         LessByByte, LevelCount, LastStrands, LastNode, Lacks, ReachesLastNode, ValidKeys;
    Lengths(keys, values);
    StrandsAreTrie(keys, values);
    StrandFields(keys, values);
    SparseItems(keys, values, 0);
    LastRunIs(keys, values, i, k);
    LastStrandsAreNode(StrandsOf(keys, values), i, k);
    DeepestItems(StrandsOf(keys, values));
    StrandsMiss(StrandsOf(keys, values), q, i, k);
  }

  lemma StrandsMiss(t: seq<Strand>, q: Key, i: nat, k: nat)
    requires WellFormed(t) && LastNode(t, i) && NodeEnd(t, Height(t) - 1, i) == k + 1
    requires forall x :: i <= x <= k ==> t[x].hi == Height(t) <= |t[x].key|
    ensures ReachesLastNode(t, q, i) && Lacks(t, Height(t) - 1, i, q[Height(t) - 1]) <==>
      && Height(t) <= |q| && q[..Height(t) - 1] == t[i].key[..Height(t) - 1]
      && forall j :: i <= j <= k ==> t[j].key[Height(t) - 1] != q[Height(t) - 1]
  {
    hide HeightTo, At;
    var l := Height(t) - 1;
    DeepestItems(t);
    if Height(t) <= |q| {
      forall j | i <= j <= k
        ensures ItemOf(t, l, i, j, q[l]) <==> t[j].key[l] == q[l]
      {
      }
    }
  }

  /** Running past the labels, in terms of the strands and of the keys. */
  lemma RunsPastOnKeys(keys: seq<Key>, values: seq<nat>, s: nat, q: Key)
    requires ValidKeys(keys, values) && s <= Height(StrandsOf(keys, values))
    ensures RunsPast(StrandsOf(keys, values), s, q) <==> QueryRunsPast(keys, s, q)
  {
    hide StrandsOf, HeightTo, LastRun, RunCrosses, MissesLast, RunsPastAt, LessByByte, ValidKeys, WellFormed, Minimal;
    Lengths(keys, values);
    var t := StrandsOf(keys, values);
    if i: nat :| RunsPastAt(t, s, q, i) {
      var k := RunOfNode(keys, values, s, q, i);
    }
    if i: nat, k: nat :| LastRun(keys, i, k) && RunCrosses(keys, s, i, k) && MissesLast(keys, q, i, k) {
      NodeOfRun(keys, values, s, q, i, k);
    }
  }

  lemma RunOfNode(keys: seq<Key>, values: seq<nat>, s: nat, q: Key, i: nat) returns (k: nat)
    requires ValidKeys(keys, values) && s <= Height(StrandsOf(keys, values))
    requires RunsPastAt(StrandsOf(keys, values), s, q, i)
    ensures LastRun(keys, i, k) && RunCrosses(keys, s, i, k) && MissesLast(keys, q, i, k)
  {
    hide StrandsOf, HeightTo, LastRun, RunCrosses, MissesLast, LastNodeCrosses, ReachesLastNode, LastStrands, Lacks,
         LessByByte, LastNode, WellFormed, Minimal, ValidKeys, NodeEnd;
    Lengths(keys, values);
    StrandsAreTrie(keys, values);
    var t := StrandsOf(keys, values);
    ReachedIsLast(t, q, i);
    NodeIsLastStrands(t, i);
    k := NodeEnd(t, Height(t) - 1, i) - 1;
    LastRunIs(keys, values, i, k);
    CrossingIs(keys, values, s, i, k);
    MissingIs(keys, values, q, i, k);
  }

  lemma NodeOfRun(keys: seq<Key>, values: seq<nat>, s: nat, q: Key, i: nat, k: nat)
    requires ValidKeys(keys, values) && s <= Height(StrandsOf(keys, values))
    requires LastRun(keys, i, k) && RunCrosses(keys, s, i, k) && MissesLast(keys, q, i, k)
    ensures RunsPastAt(StrandsOf(keys, values), s, q, i)
  {
    hide StrandsOf, HeightTo, LastRun, RunCrosses, MissesLast, LastNodeCrosses, ReachesLastNode, LastStrands, Lacks,
         LessByByte, WellFormed, Minimal, ValidKeys, NodeEnd;
    Lengths(keys, values);
    StrandsAreTrie(keys, values);
    LastRunIs(keys, values, i, k);
    CrossingIs(keys, values, s, i, k);
    MissingIs(keys, values, q, i, k);
  }

  lemma ReachedIsLast(t: seq<Strand>, q: Key, i: nat)
    requires ReachesLastNode(t, q, i)
    ensures LastNode(t, i)
  {
  }

  /** The last node of the strands and the last run of the keys. */
  lemma GapOfNode(keys: seq<Key>, values: seq<nat>, s: nat, i: nat) returns (k: nat)
    requires ValidKeys(keys, values) && s <= Height(StrandsOf(keys, values))
    requires CanRunPastAt(StrandsOf(keys, values), s, i)
    ensures RunLeavesGap(keys, s, i, k)
  {
    hide StrandsOf, HeightTo, At, LastRun, RunCrosses, LastNodeCrosses, LessByByte, NodeEnd, LastStrands, WellFormed,
         Minimal, ValidKeys, Distinct, Items;
    Lengths(keys, values);
    StrandsAreTrie(keys, values);
    var t := StrandsOf(keys, values);
    NodeIsLastStrands(t, i);
    k := NodeEnd(t, Height(t) - 1, i) - 1;
    LastRunIs(keys, values, i, k);
    CrossingIs(keys, values, s, i, k);
  }

  lemma NodeOfGap(keys: seq<Key>, values: seq<nat>, s: nat, i: nat, k: nat)
    requires ValidKeys(keys, values) && s <= Height(StrandsOf(keys, values)) && RunLeavesGap(keys, s, i, k)
    ensures CanRunPastAt(StrandsOf(keys, values), s, i)
  {
    hide StrandsOf, HeightTo, At, LastRun, RunCrosses, LastNodeCrosses, LessByByte, NodeEnd, LastNode;
    StrandsAreTrie(keys, values);
    LastRunIs(keys, values, i, k);
    LastStrandsAreNode(StrandsOf(keys, values), i, k);
    CrossingIs(keys, values, s, i, k);
  }

  /** That some query runs past can be told from the key list and the cutoff. */
  lemma CanRunPastOnKeys(keys: seq<Key>, values: seq<nat>, s: nat)
    requires ValidKeys(keys, values) && s <= Height(StrandsOf(keys, values))
    ensures CanRunPast(StrandsOf(keys, values), s) <==> ListRunsPast(keys, s)
    ensures ListRunsPast(keys, s) <==> exists q :: QueryRunsPast(keys, s, q)
  {
    hide StrandsOf, HeightTo, RunLeavesGap, CanRunPastAt, LessByByte, RunsPast, QueryRunsPast;
    StrandsAreTrie(keys, values);
    var t := StrandsOf(keys, values);
    if i: nat :| CanRunPastAt(t, s, i) {
      var k := GapOfNode(keys, values, s, i);
    }
    if i: nat, k: nat :| RunLeavesGap(keys, s, i, k) {
      NodeOfGap(keys, values, s, i, k);
    }
    SomeQueryRunsPast(t, s);
    forall q
      ensures RunsPast(t, s, q) <==> QueryRunsPast(keys, s, q)
    {
      RunsPastOnKeys(keys, values, s, q);
    }
  }
}
