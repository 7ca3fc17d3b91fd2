/**
 The breadth-first encoding of the trie: per level a label, a child bit and a louds bit for
 every item, and the values of the childless items. Navigation by rank and select on the
 concatenated levels is proved to follow the strands.
 */
module Encoding {
  import opened Bits
  import opened Labels
  import opened Levels
  import opened Strands

  ghost predicate AllSized(t: seq<Strand>) { forall i :: 0 <= i < |t| ==> t[i].Sized() }

  ghost function Items(t: seq<Strand>, l: nat): (r: seq<nat>)
    ensures forall j :: 0 <= j < |r| ==> r[j] < |t| && t[r[j]].InLevel(l)
  {
    Positions(ItemFlags(t, l), |t|)
  }

  ghost function LevelLabels(t: seq<Strand>, l: nat): (r: seq<Byte>)
    requires AllSized(t)
    ensures |r| == |Items(t, l)|
  {
    seq(|Items(t, l)|, j requires 0 <= j < |Items(t, l)| => t[Items(t, l)[j]].key[l])
  }

  ghost function LevelChildren(t: seq<Strand>, l: nat): (r: seq<bool>)
    ensures |r| == |Items(t, l)|
  {
    Pick(ChildFlags(t, l), ItemFlags(t, l))
  }

  ghost function LevelLouds(t: seq<Strand>, l: nat): (r: seq<bool>)
    ensures |r| == |Items(t, l)|
  {
    Pick(StartFlags(t, l), ItemFlags(t, l))
  }

  ghost function LevelValues(t: seq<Strand>, l: nat): (r: seq<nat>)
    ensures |r| == Ones(LeafFlags(t, l), |t|)
  {
    Gather(seq(|t|, i requires 0 <= i < |t| => t[i].value), Positions(LeafFlags(t, l), |t|))
  }

  ghost function LabelLevels(t: seq<Strand>): (r: seq<seq<Byte>>)
    requires AllSized(t)
  {
    seq(Height(t), l requires l >= 0 => LevelLabels(t, l))
  }

  ghost function ChildLevels(t: seq<Strand>): seq<seq<bool>> {
    seq(Height(t), l requires l >= 0 => LevelChildren(t, l))
  }

  ghost function LoudsLevels(t: seq<Strand>): seq<seq<bool>> {
    seq(Height(t), l requires l >= 0 => LevelLouds(t, l))
  }

  ghost function ValueLevels(t: seq<Strand>): seq<seq<nat>> {
    seq(Height(t), l requires l >= 0 => LevelValues(t, l))
  }

  /** Nodes on one level, and on all levels above one. */
  ghost function NodeCount(t: seq<Strand>, l: nat): nat { Ones(StartFlags(t, l), |t|) }

  ghost function NodesBefore(t: seq<Strand>, l: nat): nat {
    if l == 0 then 0 else NodesBefore(t, l - 1) + NodeCount(t, l - 1)
  }

  /** Items on the levels s..l. */
  ghost function Offset(t: seq<Strand>, s: nat, l: nat): nat
    requires s <= l
    decreases l
  {
    if s == l then 0 else Offset(t, s, l - 1) + |Items(t, l - 1)|
  }

  /** Childless items on the levels s..l. */
  ghost function LeafOffset(t: seq<Strand>, s: nat, l: nat): nat
    requires s <= l
    decreases l
  {
    if s == l then 0 else LeafOffset(t, s, l - 1) + Ones(LeafFlags(t, l - 1), |t|)
  }

  /** How many items of level `l` the first `m` strands create. */
  ghost function At(t: seq<Strand>, l: nat, m: nat): nat
    requires m <= |t|
  {
    Ones(ItemFlags(t, l), m)
  }

  /** The breadth-first number of the node that strand `i` starts at level `l`. */
  ghost function NodeNum(t: seq<Strand>, l: nat, i: nat): nat
    requires i <= |t|
  {
    NodesBefore(t, l) + Ones(StartFlags(t, l), i)
  }

  /** The place of strand `i`'s level-`l` item in the levels from `s` on. */
  ghost function Place(t: seq<Strand>, s: nat, l: nat, i: nat): nat
    requires s <= l && i <= |t|
  {
    Offset(t, s, l) + At(t, l, i)
  }

  lemma {:induction false} CatLengths(t: seq<Strand>, s: nat, l: nat)
    requires AllSized(t) && s <= l <= Height(t)
    ensures |Cat(LabelLevels(t), s, l)| == |Cat(ChildLevels(t), s, l)| == |Cat(LoudsLevels(t), s, l)| == Offset(t, s, l)
    ensures |Cat(ValueLevels(t), s, l)| == LeafOffset(t, s, l)
    decreases l
  {
    hide Ones, Positions, Pick, HeightTo;
    if s < l {
      CatLengths(t, s, l - 1);
      assert LabelLevels(t)[l - 1] == LevelLabels(t, l - 1);
      assert ValueLevels(t)[l - 1] == LevelValues(t, l - 1);
    }
  }

  /** Inside one level, counting bits is counting strands. */
  lemma PickedLevel(t: seq<Strand>, l: nat, m: nat)
    requires m <= |t|
    ensures At(t, l, m) <= |Items(t, l)|
    ensures Ones(LevelLouds(t, l), At(t, l, m)) == Ones(StartFlags(t, l), m)
    ensures Ones(LevelChildren(t, l), At(t, l, m)) == Ones(ChildFlags(t, l), m)
    ensures m == |t| ==> At(t, l, m) == |Items(t, l)|
  {
    PickOnes(StartFlags(t, l), ItemFlags(t, l), m);
    PickOnes(ChildFlags(t, l), ItemFlags(t, l), m);
  }

  /** All vectors of the levels from `s` on have one entry per item. */
  lemma TotalLengths(t: seq<Strand>, s: nat)
    requires WellFormed(t) && s <= Height(t)
    ensures |Cat(LabelLevels(t), s, Height(t))| == |Cat(ChildLevels(t), s, Height(t))| == Offset(t, s, Height(t))
    ensures |Cat(LoudsLevels(t), s, Height(t))| == Offset(t, s, Height(t))
    ensures |Cat(ValueLevels(t), s, Height(t))| == LeafOffset(t, s, Height(t))
  {
    CatLengths(t, s, Height(t));
  }

  lemma {:induction false} LoudsTotal(t: seq<Strand>, s: nat, l: nat)
    requires AllSized(t) && s <= l <= Height(t)
    ensures Ones(Cat(LoudsLevels(t), s, l), |Cat(LoudsLevels(t), s, l)|) == NodesBefore(t, l) - NodesBefore(t, s)
    decreases l
  {
    hide Positions, Pick, HeightTo, StartFlags, ItemFlags;
    if s < l {
      LoudsTotal(t, s, l - 1);
      OnesOfAppend(Cat(LoudsLevels(t), s, l - 1), LevelLouds(t, l - 1), |LevelLouds(t, l - 1)|);
      PickedLevel(t, l - 1, |t|);
    }
  }

  lemma {:induction false} ChildTotal(t: seq<Strand>, s: nat, l: nat)
    requires WellFormed(t) && s <= l <= Height(t)
    ensures Ones(Cat(ChildLevels(t), s, l), |Cat(ChildLevels(t), s, l)|)
      == NodesBefore(t, l + 1) - NodesBefore(t, s + 1)
    decreases l
  {
    hide Positions, Pick, HeightTo, ChildFlags, StartFlags, ItemFlags;
    if s < l {
      ChildTotal(t, s, l - 1);
      OnesOfAppend(Cat(ChildLevels(t), s, l - 1), LevelChildren(t, l - 1), |LevelChildren(t, l - 1)|);
      PickedLevel(t, l - 1, |t|);
      ChildrenStartNodes(t, l - 1);
    }
  }

  /** Every level's items are its children and its leaves. */
  lemma {:induction false} OffsetSplits(t: seq<Strand>, s: nat, l: nat)
    requires WellFormed(t) && s <= l
    ensures Offset(t, s, l) + NodesBefore(t, s + 1) == LeafOffset(t, s, l) + NodesBefore(t, l + 1)
    decreases l
  {
    hide Ones;
    if s < l {
      OffsetSplits(t, s, l - 1);
      ItemsAreChildrenAndLeaves(t, l - 1, |t|);
      ChildrenStartNodes(t, l - 1);
      PickedLevel(t, l - 1, |t|);
    }
  }

  /** The entries of strand `i`'s item in its own level. */
  lemma LevelEntry(t: seq<Strand>, l: nat, i: nat)
    requires AllSized(t) && i < |t| && t[i].InLevel(l)
    ensures l < Height(t) && At(t, l, i) < |Items(t, l)| && Items(t, l)[At(t, l, i)] == i
    ensures At(t, l, i + 1) == At(t, l, i) + 1
    ensures LevelLabels(t, l)[At(t, l, i)] == t[i].key[l]
    ensures LevelChildren(t, l)[At(t, l, i)] == t[i].HasChild(l)
    ensures LevelLouds(t, l)[At(t, l, i)] == Starts(t, i, l)
  {
    PositionAt(ItemFlags(t, l), |t|, i);
    PickAt(ChildFlags(t, l), ItemFlags(t, l), i);
    PickAt(StartFlags(t, l), ItemFlags(t, l), i);
  }

  /** The entries of strand `i`'s item in the concatenated levels. */
  lemma Entry(t: seq<Strand>, s: nat, l: nat, i: nat)
    requires WellFormed(t) && s <= l && i < |t| && t[i].InLevel(l)
    ensures l < Height(t) && Place(t, s, l, i) < |Cat(LabelLevels(t), s, Height(t))|
    ensures |Cat(LabelLevels(t), s, Height(t))| == |Cat(ChildLevels(t), s, Height(t))|
      == |Cat(LoudsLevels(t), s, Height(t))|
    ensures Cat(LabelLevels(t), s, Height(t))[Place(t, s, l, i)] == t[i].key[l]
    ensures Cat(ChildLevels(t), s, Height(t))[Place(t, s, l, i)] == t[i].HasChild(l)
    ensures Cat(LoudsLevels(t), s, Height(t))[Place(t, s, l, i)] == Starts(t, i, l)
  {
    hide Ones, Cat, Positions, Pick;
    LevelEntry(t, l, i);
    var h := Height(t);
    CatLengths(t, s, l);
    CatLengths(t, s, h);
    CatAt(LabelLevels(t), s, h, l, At(t, l, i));
    CatAt(ChildLevels(t), s, h, l, At(t, l, i));
    CatAt(LoudsLevels(t), s, h, l, At(t, l, i));
  }

  /** Rank of the child bits: the children of all items up to this one, whole levels first. */
  lemma ChildRank(t: seq<Strand>, s: nat, l: nat, i: nat)
    requires WellFormed(t) && s <= l && i < |t| && t[i].InLevel(l)
    ensures l < Height(t) && Place(t, s, l, i) < |Cat(ChildLevels(t), s, Height(t))|
    ensures Ones(Cat(ChildLevels(t), s, Height(t)), Place(t, s, l, i) + 1) + NodesBefore(t, s + 1)
         == NodesBefore(t, l + 1) + Ones(ChildFlags(t, l), i + 1)
  {
    hide Ones, Cat, Positions, Pick;
    Entry(t, s, l, i);
    LevelEntry(t, l, i);
    CatLengths(t, s, l);
    CatOnes(ChildLevels(t), s, Height(t), l, At(t, l, i + 1));
    ChildTotal(t, s, l);
    PickedLevel(t, l, i + 1);
  }

  lemma LoudsRank(t: seq<Strand>, s: nat, l: nat, i: nat)
    requires WellFormed(t) && s <= l && i < |t| && t[i].InLevel(l)
    ensures l < Height(t) && Place(t, s, l, i) < |Cat(LoudsLevels(t), s, Height(t))|
    ensures Ones(Cat(LoudsLevels(t), s, Height(t)), Place(t, s, l, i) + 1) + NodesBefore(t, s)
         == NodesBefore(t, l) + Ones(StartFlags(t, l), i + 1)
  {
    hide Ones, Cat, Positions, Pick;
    Entry(t, s, l, i);
    LevelEntry(t, l, i);
    CatLengths(t, s, l);
    CatOnes(LoudsLevels(t), s, Height(t), l, At(t, l, i + 1));
    LoudsTotal(t, s, l);
    PickedLevel(t, l, i + 1);
  }

  /** A child's breadth-first number is the rank of its parent's child bit plus a constant. */
  lemma ChildNumber(t: seq<Strand>, s: nat, l: nat, i: nat)
    requires WellFormed(t) && s <= l && i < |t| && t[i].InLevel(l) && t[i].HasChild(l)
    ensures t[i].InLevel(l + 1) && Starts(t, i, l + 1) && Place(t, s, l, i) < |Cat(ChildLevels(t), s, Height(t))|
    ensures NodeNum(t, l + 1, i) + 1
      == Ones(Cat(ChildLevels(t), s, Height(t)), Place(t, s, l, i) + 1) + NodesBefore(t, s + 1)
  {
    hide Cat, Positions, Pick;
    ChildRank(t, s, l, i);
    ChildrenStartNodes(t, l);
    assert Ones(ChildFlags(t, l), i + 1) == Ones(ChildFlags(t, l), i) + 1;
  }

  /** Select on a node's number, less the nodes above, is the place of its first item. */
  lemma NodeStartsAt(t: seq<Strand>, s: nat, l: nat, i: nat)
    requires WellFormed(t) && s <= l && i < |t| && t[i].InLevel(l) && Starts(t, i, l)
    ensures NodesBefore(t, s) <= NodeNum(t, l, i)
    ensures IsNth(Cat(LoudsLevels(t), s, Height(t)), NodeNum(t, l, i) + 1 - NodesBefore(t, s), Place(t, s, l, i))
  {
    hide Cat, Positions, Pick;
    NodesBeforeMono(t, s, l);
    Entry(t, s, l, i);
    LoudsRank(t, s, l, i);
    assert Ones(StartFlags(t, l), i + 1) == Ones(StartFlags(t, l), i) + 1;
  }

  lemma {:induction false} NodesBeforeMono(t: seq<Strand>, s: nat, l: nat)
    requires s <= l
    ensures NodesBefore(t, s) <= NodesBefore(t, l)
    decreases l
  {
    if s < l { NodesBeforeMono(t, s, l - 1); }
  }

  /** A childless item's value sits at its place less the children counted up to there. */
  lemma ValueIndex(t: seq<Strand>, s: nat, l: nat, i: nat)
    requires WellFormed(t) && s <= l && i < |t| && t[i].InLevel(l) && !t[i].HasChild(l)
    ensures l < Height(t) && Place(t, s, l, i) < |Cat(ChildLevels(t), s, Height(t))|
    ensures Place(t, s, l, i) - Ones(Cat(ChildLevels(t), s, Height(t)), Place(t, s, l, i) + 1)
         == LeafOffset(t, s, l) + Ones(LeafFlags(t, l), i)
    ensures LeafOffset(t, s, l) + Ones(LeafFlags(t, l), i) < |Cat(ValueLevels(t), s, Height(t))|
    ensures Cat(ValueLevels(t), s, Height(t))[LeafOffset(t, s, l) + Ones(LeafFlags(t, l), i)] == t[i].value
  {
    hide Cat, Pick, HeightTo, Ones, LeafOffset, Offset, NodesBefore;
    ChildRank(t, s, l, i);
    OffsetSplits(t, s, l);
    ItemsAreChildrenAndLeaves(t, l, i);
    NotAChild(t, l, i);
    LeafEntry(t, s, Height(t), l, i);
  }

  lemma NotAChild(t: seq<Strand>, l: nat, i: nat)
    requires i < |t| && !t[i].HasChild(l)
    ensures Ones(ChildFlags(t, l), i + 1) == Ones(ChildFlags(t, l), i)
  {
  }

  /** A leaf's value in the concatenated values of the levels a..b. */
  lemma LeafEntry(t: seq<Strand>, a: nat, b: nat, l: nat, x: nat)
    requires WellFormed(t) && a <= l < b <= Height(t) && x < |t| && t[x].InLevel(l) && !t[x].HasChild(l)
    ensures LeafOffset(t, a, l) + Ones(LeafFlags(t, l), x) < |Cat(ValueLevels(t), a, b)|
    ensures Cat(ValueLevels(t), a, b)[LeafOffset(t, a, l) + Ones(LeafFlags(t, l), x)] == t[x].value
  {
    hide Ones, HeightTo, Cat, LeafOffset;
    PositionAt(LeafFlags(t, l), |t|, x);
    CatLengths(t, a, l);
    CatAt(ValueLevels(t), a, b, l, Ones(LeafFlags(t, l), x));
  }

  /** The strand behind the j-th item of a level. */
  lemma ItemAt(t: seq<Strand>, l: nat, j: nat) returns (x: nat)
    requires j < |Items(t, l)|
    ensures x < |t| && x == Items(t, l)[j] && t[x].InLevel(l) && At(t, l, x) == j
  {
    x := Items(t, l)[j];
    RankOfPosition(ItemFlags(t, l), |t|, j);
  }

  lemma AtOrder(t: seq<Strand>, l: nat, a: nat, b: nat)
    requires a <= b <= |t|
    ensures At(t, l, a) <= At(t, l, b)
    ensures a < b && t[a].InLevel(l) ==> At(t, l, a) < At(t, l, b)
  {
    OnesMono(ItemFlags(t, l), a, b);
    if a < b && t[a].InLevel(l) { OnesStrict(ItemFlags(t, l), a, b); }
  }

  /** Every strand that reaches past level `l` hangs under an item of level `l`. */
  lemma {:induction false} LevelReached(t: seq<Strand>, l: nat, k: nat) returns (x: nat)
    requires WellFormed(t) && k < |t| && l < t[k].hi
    ensures x <= k && t[x].InLevel(l)
    decreases k
  {
    if t[k].lo <= l {
      x := k;
    } else {
      assert Follows(t[k - 1], t[k]);
      x := LevelReached(t, l, k - 1);
    }
  }

  /** The first item of every level starts a node. */
  lemma FirstStarts(t: seq<Strand>, l: nat)
    requires WellFormed(t) && l < Height(t)
    ensures |LevelLouds(t, l)| > 0 && LevelLouds(t, l)[0]
  {
    var k :| 0 <= k < |t| && t[k].hi == Height(t);
    var any := LevelReached(t, l, k);
    LevelEntry(t, l, any);
    var x := ItemAt(t, l, 0);
    if x > 0 && t[x].lo == l {
      assert Follows(t[x - 1], t[x]);
      var y := LevelReached(t, l, x - 1);
      AtOrder(t, l, y, x);
    }
    LevelEntry(t, l, x);
  }

  /** Below the height every level has nodes. */
  lemma SomeNodes(t: seq<Strand>, s: nat)
    requires WellFormed(t) && s < Height(t)
    ensures NodeCount(t, s) > 0 && NodesBefore(t, s + 1) == NodesBefore(t, s) + NodeCount(t, s)
  {
    hide HeightTo;
    FirstStarts(t, s);
    StartsSoFarIsPositive(t, s);
  }

  lemma StartsSoFarIsPositive(t: seq<Strand>, s: nat)
    requires |LevelLouds(t, s)| > 0 && LevelLouds(t, s)[0]
    ensures NodeCount(t, s) > 0
  {
    PickedLevel(t, s, |t|);
    OnesStrict(LevelLouds(t, s), 0, |LevelLouds(t, s)|);
  }

  /** Where a node ends, the concatenated louds bits end or carry a set bit. */
  lemma BoundaryIsStart(t: seq<Strand>, s: nat, l: nat, e: nat)
    requires WellFormed(t) && s <= l < Height(t) && 0 < e <= |t| && (e < |t| ==> t[e].lo < l)
    ensures Place(t, s, l, e) <= |Cat(LoudsLevels(t), s, Height(t))|
    ensures Place(t, s, l, e) < |Cat(LoudsLevels(t), s, Height(t))| ==>
      Cat(LoudsLevels(t), s, Height(t))[Place(t, s, l, e)]
  {
    hide Ones, Cat, Positions, Pick, HeightTo;
    var h := Height(t);
    CatLengths(t, s, l + 1);
    CatLengths(t, s, h);
    CatLength(LoudsLevels(t), s, l + 1, h);
    AtOrder(t, l, e, |t|);
    PickedLevel(t, l, |t|);
    if At(t, l, e) < |Items(t, l)| {
      var x := ItemAt(t, l, At(t, l, e));
      if x < e { AtOrder(t, l, x, e); }
      forall y | e <= y < x
        ensures !t[y].InLevel(l)
      {
        AtOrder(t, l, e, y);
        AtOrder(t, l, y, x);
      }
      NextItemStarts(t, l, e, x);
      Entry(t, s, l, x);
    } else if l + 1 < h {
      FirstStarts(t, l + 1);
      CatAt(LoudsLevels(t), s, h, l + 1, 0);
    }
  }

  /** The louds bits mark exactly the extent of a node. */
  lemma NodeExtent(t: seq<Strand>, s: nat, l: nat, i: nat)
    requires WellFormed(t) && s <= l && i < |t| && t[i].InLevel(l) && Starts(t, i, l)
    ensures l < Height(t) && Place(t, s, l, i) < Place(t, s, l, NodeEnd(t, l, i)) <= |Cat(LoudsLevels(t), s, Height(t))|
    ensures forall p :: Place(t, s, l, i) < p < Place(t, s, l, NodeEnd(t, l, i)) ==>
      !Cat(LoudsLevels(t), s, Height(t))[p]
    ensures Place(t, s, l, NodeEnd(t, l, i)) < |Cat(LoudsLevels(t), s, Height(t))| ==>
              Cat(LoudsLevels(t), s, Height(t))[Place(t, s, l, NodeEnd(t, l, i))]
  {
    hide Ones, Cat, Positions, Pick, HeightTo;
    var e := NodeEnd(t, l, i);
    LevelEntry(t, l, i);
    AtOrder(t, l, i, e);
    BoundaryIsStart(t, s, l, e);
    forall p | Place(t, s, l, i) < p < Place(t, s, l, e)
      ensures !Cat(LoudsLevels(t), s, Height(t))[p]
    {
      var x := PlaceInNode(t, s, l, i, p);
      Entry(t, s, l, x);
    }
  }

  /** Every place inside a node's extent belongs to one of the node's items. */
  lemma PlaceInNode(t: seq<Strand>, s: nat, l: nat, i: nat, p: nat) returns (x: nat)
    requires WellFormed(t) && s <= l && i < |t| && t[i].InLevel(l)
    requires Place(t, s, l, i) <= p < Place(t, s, l, NodeEnd(t, l, i))
    ensures i <= x < NodeEnd(t, l, i) && t[x].InLevel(l) && Place(t, s, l, x) == p
  {
    hide Ones, Positions;
    var e := NodeEnd(t, l, i);
    AtOrder(t, l, e, |t|);
    PickedLevel(t, l, |t|);
    x := ItemAt(t, l, p - Offset(t, s, l));
    if x < i { AtOrder(t, l, x, i); }
    if e <= x { AtOrder(t, l, e, x); }
  }

  /** The items of a node occupy its extent, and their labels increase. */
  lemma NodeLabels(t: seq<Strand>, s: nat, l: nat, i: nat)
    requires WellFormed(t) && s <= l && i < |t| && t[i].InLevel(l) && Starts(t, i, l)
    ensures Increasing(Cat(LabelLevels(t), s, Height(t)), Place(t, s, l, i), Place(t, s, l, NodeEnd(t, l, i)))
  {
    hide Ones, Cat, Positions, Pick, HeightTo;
    var e := NodeEnd(t, l, i);
    var labels := Cat(LabelLevels(t), s, Height(t));
    NodeExtent(t, s, l, i);
    Entry(t, s, l, i);
    forall p, q | Place(t, s, l, i) <= p < q < Place(t, s, l, e)
      ensures labels[p] < labels[q]
    {
      var x := PlaceInNode(t, s, l, i, p);
      var y := PlaceInNode(t, s, l, i, q);
      if y <= x { AtOrder(t, l, y, x); }
      Entry(t, s, l, x);
      Entry(t, s, l, y);
      LabelsRise(t, l, x, y);
    }
  }

  lemma ItemInExtent(t: seq<Strand>, s: nat, l: nat, i: nat, x: nat)
    requires WellFormed(t) && s <= l && i < |t| && t[i].InLevel(l) && i <= x < NodeEnd(t, l, i) && t[x].InLevel(l)
    ensures Place(t, s, l, i) <= Place(t, s, l, x) < Place(t, s, l, NodeEnd(t, l, i))
  {
    AtOrder(t, l, i, x);
    AtOrder(t, l, x, NodeEnd(t, l, i));
  }
}
