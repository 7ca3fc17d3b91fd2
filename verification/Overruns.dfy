/**
 Lookups that read past the labels: on which tries it can happen, and for which queries. The size
 of the last node is then computed too large, a search that finds nothing in the node goes on
 behind the labels, and its answer depends on bytes nobody wrote.
 */
module Overruns {
  import opened Bits
  import opened Labels
  import opened Levels
  import opened Bitvectors
  import opened Strands
  import opened Encoding
  import opened DenseEncoding
  import opened Walks
  import opened Fst
  import DI = DenseIter
  import S = LoudsSparse
  import D = LoudsDense

  /** The last node of the trie: on the deepest level, with no item after it. */
  ghost predicate LastNode(t: seq<Strand>, i: nat) {
    i < |t| && Height(t) > 0 && t[i].InLevel(Height(t) - 1) && Starts(t, i, Height(t) - 1) &&
    At(t, Height(t) - 1, NodeEnd(t, Height(t) - 1, i)) == |Items(t, Height(t) - 1)|
  }

  /** The bits after position `pos` run over into a later word that they do not fill. */
  predicate CrossesIntoPartWord(n: nat, pos: nat) {
    n % 64 != 0 && (pos + 1) / 64 < n / 64
  }

  lemma RunOffIsTooLong(n: nat, pos: nat)
    requires pos + 1 < n
    ensures RunOffDistance(n, pos) > n - pos <==> CrossesIntoPartWord(n, pos)
  {
  }

  /** The query follows the path of the last node and has a byte left for it. */
  ghost predicate ReachesLastNode(t: seq<Strand>, q: Key, i: nat) {
    LastNode(t, i) && |q| >= Height(t) && AtNode(t, q, Height(t) - 1, i)
  }

  /** The last node's bits run over into a later, partly filled word. */
  ghost predicate LastNodeCrosses(t: seq<Strand>, s: nat, i: nat) {
    s < Height(t) && i < |t| && CrossesIntoPartWord(Offset(t, s, Height(t)), Place(t, s, Height(t) - 1, i))
  }

  /** No item of the node carries the byte. */
  ghost predicate Lacks(t: seq<Strand>, l: nat, i: nat, c: Byte)
    requires i < |t|
  {
    forall x: nat :: !ItemOf(t, l, i, x, c)
  }

  /** The query follows the path of the last node, which lacks its next byte and crosses into a part word. */
  ghost predicate RunsPastAt(t: seq<Strand>, s: nat, q: Key, i: nat) {
    ReachesLastNode(t, q, i) && LastNodeCrosses(t, s, i) && Lacks(t, Height(t) - 1, i, q[Height(t) - 1])
  }

  ghost predicate RunsPast(t: seq<Strand>, s: nat, q: Key) {
    exists i: nat :: RunsPastAt(t, s, q, i)
  }

  /** Exactly when a lookup reads past the labels. */
  lemma PastEndExactly(f: Fst, t: seq<Strand>, q: Key)
    requires f.Encodes(t) && NoTerminators(t)
    ensures f.Answer(t, q).PastEnd? <==> RunsPast(t, f.SparseStartLevel(), q)
  {
    hide Fst.Encodes, Fst.Answer, RunsPastAt, NoTerminators;
    if f.Answer(t, q).PastEnd? {
      var i := PastEndOnly(f, t, q);
    }
    if i: nat :| RunsPastAt(t, f.SparseStartLevel(), q, i) {
      PastEndWhen(f, t, q, i);
    }
  }

  lemma PastEndOnly(f: Fst, t: seq<Strand>, q: Key) returns (i: nat)
    requires f.Encodes(t) && NoTerminators(t) && f.Answer(t, q).PastEnd?
    ensures RunsPastAt(t, f.SparseStartLevel(), q, i)
  {
    hide Walk, HeightTo, Ones, D.LoudsDense.Encodes, D.LoudsDense.EncodesShape, S.LoudsSparse.Encodes,
         S.LoudsSparse.EncodesShape, NoTerminators, Minimal;
    f.dense.Shape(t);
    RootNode(t, q);
    WalkStopsAt(t, q, 0, 0);
    var s, l := f.SparseStartLevel(), Walk(t, q, 0, 0).level;
    i := Walk(t, q, 0, 0).node;
    OversizedIsLast(t, s, l, i);
    HandOverNeedsTwoKeys(t, q, l, i);
    S.RoomAfterStart(t, s, l, i);
    RunOffIsTooLong(Offset(t, s, Height(t)), Place(t, s, l, i));
  }

  lemma PastEndWhen(f: Fst, t: seq<Strand>, q: Key, i: nat)
    requires f.Encodes(t) && NoTerminators(t) && RunsPastAt(t, f.SparseStartLevel(), q, i)
    ensures f.Answer(t, q).PastEnd?
  {
    hide Walk, HeightTo, Ones, D.LoudsDense.Encodes, D.LoudsDense.EncodesShape, S.LoudsSparse.Encodes,
         S.LoudsSparse.EncodesShape, NoTerminators, Minimal;
    f.dense.Shape(t);
    RootNode(t, q);
    var s, l := f.SparseStartLevel(), Height(t) - 1;
    hide Place, Offset, WellFormed, RunOffDistance, At, NodeEnd, S.Oversized;
    WalkResumes(t, q, 0, 0, l, i);
    DeepestWalk(t, q, i);
    HandOverNeedsTwoKeys(t, q, l, i);
    LastIsOversized(t, s, i);
  }

  lemma LastIsOversized(t: seq<Strand>, s: nat, i: nat)
    requires WellFormed(t) && Minimal(t) && |t| >= 2 && LastNode(t, i) && LastNodeCrosses(t, s, i)
    ensures S.Oversized(t, s, Height(t) - 1, i)
  {
    hide HeightTo, Minimal, WellFormed, RunOffDistance, At, NodeEnd, Ones;
    var l := Height(t) - 1;
    S.RoomAfterStart(t, s, l, i);
    RunOffIsTooLong(Offset(t, s, Height(t)), Place(t, s, l, i));
    LastEndsAtOffset(t, s, i);
  }

  lemma LastEndsAtOffset(t: seq<Strand>, s: nat, i: nat)
    requires s < Height(t) && LastNode(t, i)
    ensures Place(t, s, Height(t) - 1, NodeEnd(t, Height(t) - 1, i)) == Offset(t, s, Height(t))
  {
    hide HeightTo;
  }

  /** An oversized node is the last node. */
  lemma OversizedIsLast(t: seq<Strand>, s: nat, l: nat, i: nat)
    requires WellFormed(t) && s <= l && i < |t| && t[i].InLevel(l) && Starts(t, i, l) && S.Oversized(t, s, l, i)
    ensures s < Height(t) && l == Height(t) - 1 && At(t, l, NodeEnd(t, l, i)) == |Items(t, l)|
  {
    hide HeightTo, Ones;
    var h := Height(t);
    LevelEntry(t, l, i);
    PickedLevel(t, l, |t|);
    AtOrder(t, l, NodeEnd(t, l, i), |t|);
    OffsetGrows(t, s, l + 1, h);
    if l + 1 < h {
      FirstStarts(t, l + 1);
      OffsetGrows(t, s, l + 2, h);
    }
  }

  lemma {:induction false} OffsetGrows(t: seq<Strand>, s: nat, l: nat, h: nat)
    requires s <= l <= h
    ensures Offset(t, s, l) <= Offset(t, s, h)
    decreases h
  {
    if l < h { OffsetGrows(t, s, l, h - 1); }
  }

  /** On the deepest level a walk that lacks its byte stops at once. */
  lemma DeepestWalk(t: seq<Strand>, q: Key, i: nat)
    requires WellFormed(t) && Height(t) > 0 && |q| >= Height(t) && AtNode(t, q, Height(t) - 1, i)
    requires Lacks(t, Height(t) - 1, i, q[Height(t) - 1])
    ensures Walk(t, q, Height(t) - 1, i) == NoItem(Height(t) - 1, i)
  {
    hide HeightTo, Walk;
    WalkStops(t, q, Height(t) - 1, i);
  }

  // ---- the lookup as a whole -----------------------------------------------------------

  /** What a lookup ought to answer. */
  ghost function Expected(t: seq<Strand>, q: Key): S.LookupResult {
    if k: nat :| k < |t| && Matches(t[k], q) then S.Hit(t[k].value) else S.Miss
  }

  lemma ExpectedIs(t: seq<Strand>, q: Key, k: nat)
    requires WellFormed(t) && k < |t| && Matches(t[k], q)
    ensures Expected(t, q) == S.Hit(t[k].value)
  {
    forall j: nat | j < |t| && Matches(t[j], q)
      ensures j == k
    {
      MatchUnique(t, q, j, k);
    }
  }

  /** A single key that begins with the reserved byte. */
  ghost predicate LoneReserved(t: seq<Strand>) {
    |t| == 1 && |t[0].key| > 0 && t[0].key[0] == TERMINATOR
  }

  lemma LoneReservedMeans(t: seq<Strand>)
    requires WellFormed(t) && Minimal(t) && |t| > 0
    ensures AllSized(t) && (NoTerminators(t) <==> !LoneReserved(t))
  {
    hide NoTerminators;
    assert t[0].Sized();
    if |t| == 1 { OneKeyTerminator(t); } else { TwoKeysNoTerminators(t); }
  }

  /** Its root has no label bit for an iterator to start from; every other trie's root has one. */
  lemma RootHasLabel(f: Fst, t: seq<Strand>)
    requires f.Encodes(t)
    ensures WellFormed(t) && f.dense.height <= Height(t)
    ensures (exists c: Byte :: c < |f.dense.Bitmaps(t)| && f.dense.Bitmaps(t)[c]) <==> !LoneReserved(t)
  {
    hide HeightTo, Cat, NoTerminators, D.LoudsDense.Encodes, D.LoudsDense.EncodesShape, S.LoudsSparse.Encodes,
         S.LoudsSparse.EncodesShape, Minimal;
    f.dense.Shape(t);
    LoneReservedMeans(t);
    if LoneReserved(t) {
      forall c: Byte
        ensures c < |f.dense.Bitmaps(t)| && !f.dense.Bitmaps(t)[c]
      {
        TerminatorHidesKey(t, f.dense.height, c);
      }
    } else {
      DI.RootSlot(t, f.dense.height);
      assert f.dense.Bitmaps(t)[t[0].key[0]];
    }
  }

  /**
   What a lookup answers, for every trie and query: a miss if the only key is filed as a prefix
   key, an undetermined answer if it runs past the labels, and what it ought to answer otherwise.
   */
  lemma AnswerIs(f: Fst, t: seq<Strand>, q: Key)
    requires f.Encodes(t)
    ensures f.Answer(t, q) ==
      if LoneReserved(t) then S.Miss
      else if RunsPast(t, f.SparseStartLevel(), q) then S.PastEnd
      else Expected(t, q)
  {
    hide Fst.Answer, RunsPast, Expected, NoTerminators, Matches;
    f.dense.Shape(t);
    LoneReservedMeans(t);
    if LoneReserved(t) {
      TerminatorMisses(f, t, q);
    } else {
      HitMeans(f, t, q);
      PastEndExactly(f, t, q);
      if k: nat :| k < |t| && Matches(t[k], q) {
        ExpectedIs(t, q, k);
      } else {
        NothingExpected(t, q);
      }
    }
  }

  lemma NothingExpected(t: seq<Strand>, q: Key)
    requires forall k: nat :: k < |t| ==> !Matches(t[k], q)
    ensures Expected(t, q) == S.Miss
  {
  }

  /** A last node that crosses into a part word and does not have all 256 labels. */
  ghost predicate CanRunPastAt(t: seq<Strand>, s: nat, i: nat) {
    LastNode(t, i) && LastNodeCrosses(t, s, i) && NodeEnd(t, Height(t) - 1, i) - i < 256
  }

  ghost predicate CanRunPast(t: seq<Strand>, s: nat) {
    exists i: nat :: CanRunPastAt(t, s, i)
  }

  /** Some query runs past the labels exactly when the last node crosses and lacks a label. */
  lemma SomeQueryRunsPast(t: seq<Strand>, s: nat)
    requires WellFormed(t)
    ensures (exists q :: RunsPast(t, s, q)) <==> CanRunPast(t, s)
  {
    hide LastNodeCrosses, HeightTo, At, NodeEnd, Lacks;
    if q, i: nat :| RunsPastAt(t, s, q, i) {
      LastLabelsRise(t, i);
      LacksMeans(t, i, q[Height(t) - 1]);
      if |LastLabels(t, i)| >= 256 { FullHasAll(LastLabels(t, i), q[Height(t) - 1]); }
      assert CanRunPastAt(t, s, i);
    }
    if i: nat :| CanRunPastAt(t, s, i) {
      LastLabelsRise(t, i);
      var c := FirstMissing(LastLabels(t, i), 255);
      LacksMeans(t, i, c);
      LastNodeQuery(t, i, c);
      var q := t[i].key[..Height(t) - 1] + [c];
      assert RunsPastAt(t, s, q, i);
      assert RunsPast(t, s, q);
    }
  }

  lemma LastNodeQuery(t: seq<Strand>, i: nat, c: Byte)
    requires WellFormed(t) && LastNode(t, i)
    ensures Height(t) - 1 <= |t[i].key| && ReachesLastNode(t, t[i].key[..Height(t) - 1] + [c], i)
  {
    hide HeightTo, NodeEnd, At;
    assert t[i].Sized();
    var h := Height(t);
    var q := t[i].key[..h - 1] + [c];
    assert q[..h - 1] == t[i].key[..h - 1];
  }

  /** The labels of the last node, in order; every one of its strands has an item there. */
  ghost function LastLabels(t: seq<Strand>, i: nat): (b: seq<Byte>)
    requires WellFormed(t) && LastNode(t, i)
    ensures |b| == NodeEnd(t, Height(t) - 1, i) - i
  {
    LastNodeItems(t, i);
    seq(NodeEnd(t, Height(t) - 1, i) - i, x requires 0 <= x < NodeEnd(t, Height(t) - 1, i) - i =>
      t[i + x].key[Height(t) - 1])
  }

  lemma LastNodeItems(t: seq<Strand>, i: nat)
    requires WellFormed(t) && LastNode(t, i)
    ensures forall x :: i <= x < NodeEnd(t, Height(t) - 1, i) ==>
      t[x].InLevel(Height(t) - 1) && Height(t) - 1 < |t[x].key|
  {
    hide HeightTo, At;
    assert forall x :: 0 <= x < |t| ==> t[x].Sized();
  }

  lemma LastLabelsRise(t: seq<Strand>, i: nat)
    requires WellFormed(t) && LastNode(t, i)
    ensures Increasing(LastLabels(t, i), 0, |LastLabels(t, i)|)
  {
    hide HeightTo, NodeEnd;
    LastNodeItems(t, i);
    var l, b := Height(t) - 1, LastLabels(t, i);
    hide LastNode, WellFormed;
    forall x, y | 0 <= x < y < |b|
      ensures b[x] < b[y]
    {
      LabelsRise(t, l, i + x, i + y);
    }
  }

  lemma LacksMeans(t: seq<Strand>, i: nat, c: Byte)
    requires WellFormed(t) && LastNode(t, i)
    ensures Lacks(t, Height(t) - 1, i, c) <==> c !in LastLabels(t, i)
  {
    hide HeightTo, LastNode, NodeEnd;
    var l, b := Height(t) - 1, LastLabels(t, i);
    LastNodeItems(t, i);
    if x: nat :| ItemOf(t, l, i, x, c) {
      assert b[x - i] == c;
    }
    if x :| 0 <= x < |b| && b[x] == c {
      assert ItemOf(t, l, i, i + x, c);
    }
  }

  /** The `x`-th of rising labels is at least `x`. */
  lemma {:induction false} LabelAtLeast(b: seq<Byte>, x: nat)
    requires Increasing(b, 0, |b|) && x < |b|
    ensures b[x] >= x
  {
    if x > 0 { LabelAtLeast(b, x - 1); }
  }

  /** And leaves room for those after it. */
  lemma {:induction false} LabelAtMost(b: seq<Byte>, x: nat)
    requires Increasing(b, 0, |b|) && x < |b|
    ensures b[x] + |b| - x <= 256
    decreases |b| - x
  {
    if x + 1 < |b| { LabelAtMost(b, x + 1); }
  }

  /** 256 rising labels are all of them. */
  lemma FullHasAll(b: seq<Byte>, c: Byte)
    requires Increasing(b, 0, |b|) && |b| >= 256
    ensures c in b
  {
    LabelAtLeast(b, c);
    LabelAtMost(b, c);
    assert b[c] == c;
  }

  /** Fewer rising labels leave one out. */
  lemma {:induction false} FirstMissing(b: seq<Byte>, c: Byte) returns (d: Byte)
    requires Increasing(b, 0, |b|) && |b| <= c
    ensures d <= c && d !in b
    decreases c
  {
    d := c;
    if y :| 0 <= y < |b| && b[y] == c {
      d := FirstMissing(b[..y], c - 1);
      assert forall x :: 0 <= x < |b| && b[x] == d ==> x < y && b[..y][x] == d;
    }
  }

  /**
   Lookups meet their meaning for every query if and only if the trie is not a single key that
   begins with 255 and its last node does not cross into a part word while lacking a label.
   */
  lemma LookupsMeetSpec(f: Fst, t: seq<Strand>)
    requires f.Encodes(t)
    ensures (forall q :: f.Answer(t, q) == Expected(t, q)) <==> !LoneReserved(t) && !CanRunPast(t, f.SparseStartLevel())
  {
    hide Fst.Answer, RunsPast, Expected, CanRunPast, Matches;
    f.dense.Shape(t);
    var s := f.SparseStartLevel();
    SomeQueryRunsPast(t, s);
    forall q
      ensures f.Answer(t, q) == if LoneReserved(t) then S.Miss else if RunsPast(t, s, q) then S.PastEnd
        else Expected(t, q)
      ensures Expected(t, q) != S.PastEnd
    {
      AnswerIs(f, t, q);
      ExpectedIsDefinite(t, q);
    }
    if LoneReserved(t) {
      OwnKeyMatches(t);
      ExpectedIs(t, t[0].key, 0);
      assert f.Answer(t, t[0].key) != Expected(t, t[0].key);
    } else if CanRunPast(t, s) {
      var q :| RunsPast(t, s, q);
      assert f.Answer(t, q) != Expected(t, q);
    }
  }

  lemma ExpectedIsDefinite(t: seq<Strand>, q: Key)
    ensures Expected(t, q) != S.PastEnd
  {
  }

  lemma OwnKeyMatches(t: seq<Strand>)
    requires WellFormed(t) && |t| > 0
    ensures Matches(t[0], t[0].key)
  {
    assert t[0].Sized();
  }
}
