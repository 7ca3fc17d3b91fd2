/**
 The positions an iterator keeps for the key it stands on: on each level, the item that the
 key hangs under, in the bitmaps of the dense levels and in the vectors of the sparse ones.
 */
module Paths {
  import opened Bits
  import opened Labels
  import opened Levels
  import opened Strands
  import opened Encoding
  import opened DenseEncoding

  /** The bit of strand `k`'s item on a dense level. */
  ghost function DensePos(t: seq<Strand>, l: nat, k: nat): nat
    requires k < |t| && l < |t[k].key|
  {
    256 * (NodesBefore(t, l) + LessOne(Ones(StartFlags(t, l), k + 1))) + t[k].key[l]
  }

  /** The place of strand `k`'s item on a sparse level. */
  ghost function SparsePos(t: seq<Strand>, s: nat, l: nat, k: nat): nat
    requires s <= l && k < |t|
  {
    Offset(t, s, l) + LessOne(At(t, l, k + 1))
  }

  /** The node on level `l` that strand `k` runs through. */
  lemma {:induction false} NodeOf(t: seq<Strand>, l: nat, k: nat) returns (i: nat)
    requires WellFormed(t) && k < |t| && l < t[k].hi
    ensures i <= k < NodeEnd(t, l, i) && t[i].InLevel(l) && Starts(t, i, l)
    decreases k
  {
    if t[k].InLevel(l) && Starts(t, k, l) {
      i := k;
    } else {
      assert Follows(t[k - 1], t[k]);
      i := NodeOf(t, l, k - 1);
    }
  }

  /** The node and the item of strand `k` on level `l`. */
  lemma ItemOn(t: seq<Strand>, l: nat, k: nat) returns (i: nat, x: nat)
    requires WellFormed(t) && k < |t| && l < t[k].hi
    ensures i <= x <= k < NodeEnd(t, l, i) && t[i].InLevel(l) && Starts(t, i, l)
    ensures l < |t[k].key| && ItemOf(t, l, i, x, t[k].key[l]) && (t[k].lo <= l ==> x == k)
    ensures forall y :: x < y <= k ==> t[y].lo > l
    ensures DensePos(t, l, k) == DensePlace(t, l, i, t[k].key[l])
    ensures forall s: nat :: s <= l ==> SparsePos(t, s, l, k) == Place(t, s, l, x)
  {
    i := NodeOf(t, l, k);
    x := Ancestor(t, l, i, k);
    StartsInNode(t, l, i, k);
    assert t[k].Sized();
  }

  /** A strand that comes in below level `l` leaves the level's positions where they were. */
  lemma StepKeepsAbove(t: seq<Strand>, l: nat, k: nat)
    requires WellFormed(t) && k + 1 < |t| && l < t[k + 1].lo
    ensures l < |t[k].key| && l < |t[k + 1].key| && t[k].key[l] == t[k + 1].key[l]
    ensures DensePos(t, l, k + 1) == DensePos(t, l, k)
    ensures forall s: nat :: s <= l ==> SparsePos(t, s, l, k + 1) == SparsePos(t, s, l, k)
  {
    assert Follows(t[k], t[k + 1]);
    var a, b := t[k], t[k + 1];
    assert a.key[l] == a.key[..b.lo][l] && b.key[l] == b.key[..b.lo][l];
  }

  /** Where strand `k+1` comes in, its item is the next one on that level, in the same node. */
  lemma StepOnLevel(t: seq<Strand>, k: nat)
    requires WellFormed(t) && k + 1 < |t|
    ensures var l := t[k + 1].lo;
      l < t[k].hi && l < |t[k].key| && l < |t[k + 1].key| && t[k].key[l] < t[k + 1].key[l]
    ensures var l := t[k + 1].lo;
      DensePos(t, l, k + 1) - t[k + 1].key[l] == DensePos(t, l, k) - t[k].key[l]
    ensures var l := t[k + 1].lo; forall s: nat :: s <= l ==> SparsePos(t, s, l, k + 1) == SparsePos(t, s, l, k) + 1
    ensures !Starts(t, k + 1, t[k + 1].lo) && t[k + 1].InLevel(t[k + 1].lo)
  {
    var l := t[k + 1].lo;
    assert Follows(t[k], t[k + 1]);
    StepCounts(t, k);
  }

  /** Neighbouring strands part at a byte that is greater in the later one, within both stored prefixes. */
  lemma NextIsGreater(t: seq<Strand>, k: nat)
    requires WellFormed(t) && k + 1 < |t|
    ensures t[k + 1].lo < |t[k].key| && t[k + 1].lo < |t[k + 1].key|
    ensures t[k].key[t[k + 1].lo] < t[k + 1].key[t[k + 1].lo]
  {
    assert Follows(t[k], t[k + 1]);
  }

  lemma StepCounts(t: seq<Strand>, k: nat)
    requires WellFormed(t) && k + 1 < |t|
    ensures var l := t[k + 1].lo;
      0 < At(t, l, k + 1) && At(t, l, k + 2) == At(t, l, k + 1) + 1 &&
      Ones(StartFlags(t, l), k + 2) == Ones(StartFlags(t, l), k + 1)
  {
    var l := t[k + 1].lo;
    assert Follows(t[k], t[k + 1]);
    var i, x := ItemOn(t, l, k);
    hide WellFormed, DensePos, SparsePos, ItemOf, NodeEnd;
    AtOrder(t, l, x, k + 1);
    CountsAtEntry(t, l, k + 1);
  }

  lemma CountsAtEntry(t: seq<Strand>, l: nat, k: nat)
    requires 0 < k < |t| && t[k].lo == l < t[k].hi
    ensures At(t, l, k + 1) == At(t, l, k) + 1 && Ones(StartFlags(t, l), k + 1) == Ones(StartFlags(t, l), k)
  {
  }

  /** Inside a node, every strand has the same items above the node's level. */
  lemma {:induction false} SameAbove(t: seq<Strand>, l: nat, i: nat, x: nat, d: nat)
    requires WellFormed(t) && i <= x < |t| && d < l <= |t[i].key|
    requires forall y :: i < y <= x ==> t[y].lo >= l
    ensures d < |t[x].key| && t[x].key[d] == t[i].key[d] && DensePos(t, d, x) == DensePos(t, d, i)
    ensures forall s: nat :: s <= d ==> SparsePos(t, s, d, x) == SparsePos(t, s, d, i)
    decreases x
  {
    hide DensePos, SparsePos;
    if i < x {
      SameAbove(t, l, i, x - 1, d);
      StepKeepsAbove(t, d, x - 1);
    }
  }

  /** Within the node of strand `k`, no label lies strictly between its own and the next strand's, or after it. */
  lemma NothingBetween(t: seq<Strand>, l: nat, i: nat, k: nat, y: nat, c: Byte)
    requires WellFormed(t) && k < |t| && l < t[k].hi && i <= k < NodeEnd(t, l, i) && t[i].InLevel(l)
    requires l < |t[k].key| && t[k].key[l] < c && ItemOf(t, l, i, y, c)
    ensures k < y
    ensures k + 1 < |t| && l < |t[k + 1].key| && c < t[k + 1].key[l] ==> t[k + 1].lo > l
    ensures k + 1 < |t| && t[k + 1].lo >= l
  {
    if y <= k { LabelsRise(t, l, y, k); }
    if k + 1 < |t| && t[k + 1].lo == l { LabelsRise(t, l, k + 1, y); }
  }

  /** The first label of a node is the smallest. */
  lemma NothingBelowFirst(t: seq<Strand>, l: nat, i: nat, y: nat, c: Byte)
    requires WellFormed(t) && i < |t| && t[i].InLevel(l) && ItemOf(t, l, i, y, c)
    ensures l < |t[i].key| && t[i].key[l] <= c
  {
    LabelsRise(t, l, i, y);
  }

  /** All prefix-key bits are zero. */
  lemma PrefixBitsZero(t: seq<Strand>, s: nat, p: nat)
    requires WellFormed(t) && NoTerminators(t) && s <= Height(t) && p < |Cat(PrefixLevels(t), 0, s)|
    ensures !Cat(PrefixLevels(t), 0, s)[p]
    decreases s
  {
    hide HeightTo, TerminatorAt, NodesOfItems, NodeCount;
    if p < |Cat(PrefixLevels(t), 0, s - 1)| {
      PrefixBitsZero(t, s - 1, p);
    } else {
      assert PrefixLevels(t)[s - 1] == LevelPrefixBits(t, s - 1);
    }
  }

  /** How many leaves of a level come before a strand does not change at strands that end elsewhere. */
  lemma LeavesElsewhere(t: seq<Strand>, l: nat, k: nat)
    requires k < |t|
    ensures Ones(LeafFlags(t, l), k + 1) == Ones(LeafFlags(t, l), k) + Bit(t[k].lo <= l && l + 1 == t[k].hi)
  {
  }
}
