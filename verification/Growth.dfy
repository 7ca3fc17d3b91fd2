/**
 How the encoding grows while keys are inserted one byte at a time: a strand being inserted
 stands for the bytes of its key placed so far.
 */
module Growth {
  import opened Bits
  import opened Words
  import opened Labels
  import opened Strands
  import opened Encoding

  /** A builder bit vector: the bits, zero padding, and always room for one more bit. */
  ghost predicate Fits(ws: seq<Word>, bits: seq<bool>) {
    Holds(ws, bits) && |ws| == |bits| / 64 + 1
  }

  /** bits[pos / 64] |= kMsbMask >> (pos % 64) */
  function SetBit(ws: seq<Word>, pos: nat): (r: seq<Word>)
    requires pos < 64 * |ws|
    ensures |r| == |ws|
  {
    ws[pos / 64 := Or(ws[pos / 64], BitMask(pos % 64))]
  }

  lemma SetBitFlat(ws: seq<Word>, pos: nat)
    requires pos < 64 * |ws|
    ensures forall p :: 0 <= p < 64 * |ws| ==> Flat(SetBit(ws, pos))[p] == (p == pos || Flat(ws)[p])
  {
    var r := SetBit(ws, pos);
    forall p | 0 <= p < 64 * |ws|
      ensures Flat(r)[p] == (p == pos || Flat(ws)[p])
    {
      assert Flat(r)[p] == r[p / 64][p % 64];
      assert Flat(ws)[p] == ws[p / 64][p % 64];
      if p / 64 == pos / 64 {
        assert r[p / 64][p % 64] == (ws[p / 64][p % 64] || p % 64 == pos % 64);
      }
    }
  }

  lemma SetBitFits(ws: seq<Word>, bits: seq<bool>, pos: nat)
    requires Fits(ws, bits) && pos < |bits|
    ensures Fits(SetBit(ws, pos), bits[pos := true])
  {
    hide SetBit;
    SetBitFlat(ws, pos);
  }

  /** What inserting bit number `n` does to a vector: set it if wanted, then make room for the next. */
  function AppendSlot(ws: seq<Word>, n: nat, b: bool): seq<Word>
    requires n < 64 * |ws|
  {
    if (n + 1) % 64 == 0 then (if b then SetBit(ws, n) else ws) + [Zero()]
    else if b then SetBit(ws, n) else ws
  }

  /** Appending one bit: set it in the spare room, then make room again. */
  lemma AppendFits(ws: seq<Word>, bits: seq<bool>, b: bool)
    requires Fits(ws, bits)
    ensures |bits| < 64 * |ws|
    ensures Fits(AppendSlot(ws, |bits|, b), bits + [b])
  {
    hide SetBit;
    var set1 := if b then SetBit(ws, |bits|) else ws;
    SetBitFlat(ws, |bits|);
    assert Holds(set1, bits + [b]);
    if (|bits| + 1) % 64 == 0 {
      var ws' := set1 + [Zero()];
      forall p | 0 <= p < 64 * |ws'|
        ensures Flat(ws')[p] == (p < 64 * |set1| && Flat(set1)[p])
      {
        if p >= 64 * |set1| { assert p / 64 == |set1|; }
      }
    }
  }

  lemma EmptyFits()
    ensures Fits([Zero()], [])
  {
    assert forall p :: 0 <= p < 64 ==> !Flat([Zero()])[p] by {
      forall p | 0 <= p < 64
        ensures !Flat([Zero()])[p]
      {
        assert Flat([Zero()])[p] == Zero()[p];
      }
    }
  }

  /** Adding one strand adds at most one item to each level. */
  lemma SnocLevel(p: seq<Strand>, x: Strand, l: nat)
    requires AllSized(p) && x.Sized()
    ensures AllSized(p + [x])
    ensures LevelLabels(p + [x], l) == LevelLabels(p, l) + (if x.InLevel(l) then [x.key[l]] else [])
    ensures LevelChildren(p + [x], l) == LevelChildren(p, l) + (if x.InLevel(l) then [x.HasChild(l)] else [])
    ensures LevelLouds(p + [x], l) == LevelLouds(p, l) + (if x.InLevel(l) then [|p| == 0 || x.lo < l] else [])
  {
    var t := p + [x];
    var in1 := x.InLevel(l);
    assert ItemFlags(t, l) == ItemFlags(p, l) + [in1];
    assert ChildFlags(t, l) == ChildFlags(p, l) + [in1 && x.HasChild(l)];
    assert StartFlags(t, l) == StartFlags(p, l) + [in1 && (|p| == 0 || x.lo < l)];
    PickSnoc(ChildFlags(p, l), ItemFlags(p, l), in1 && x.HasChild(l), in1);
    PickSnoc(StartFlags(p, l), ItemFlags(p, l), in1 && (|p| == 0 || x.lo < l), in1);
    SnocItems(p, x, l);
  }

  lemma SnocItems(p: seq<Strand>, x: Strand, l: nat)
    requires AllSized(p) && x.Sized()
    ensures AllSized(p + [x])
    ensures Items(p + [x], l) == Items(p, l) + (if x.InLevel(l) then [|p|] else [])
    ensures LevelLabels(p + [x], l) == LevelLabels(p, l) + (if x.InLevel(l) then [x.key[l]] else [])
  {
    hide Positions, Ones;
    var t := p + [x];
    assert ItemFlags(t, l) == ItemFlags(p, l) + [x.InLevel(l)];
    PickSnoc(ItemFlags(p, l), ItemFlags(p, l), true, x.InLevel(l));
    forall j | 0 <= j < |Items(p, l)|
      ensures LevelLabels(t, l)[j] == LevelLabels(p, l)[j]
    {
      assert Items(t, l)[j] == Items(p, l)[j];
      assert t[Items(p, l)[j]] == p[Items(p, l)[j]];
    }
    if x.InLevel(l) {
      assert Items(t, l)[|Items(p, l)|] == |p|;
      assert LevelLabels(t, l) == LevelLabels(p, l) + [x.key[l]];
    } else {
      assert LevelLabels(t, l) == LevelLabels(p, l);
    }
  }

  /** A strand that has an item on the level adds one entry at its end. */
  lemma SnocIn(p: seq<Strand>, x: Strand, l: nat)
    requires AllSized(p) && x.Sized() && x.InLevel(l)
    ensures AllSized(p + [x]) && Items(p + [x], l) == Items(p, l) + [|p|]
    ensures LevelLabels(p + [x], l) == LevelLabels(p, l) + [x.key[l]]
    ensures LevelChildren(p + [x], l) == LevelChildren(p, l) + [x.HasChild(l)]
  {
    hide Items, LevelLabels, LevelChildren, LevelLouds;
    SnocLevel(p, x, l);
    SnocItems(p, x, l);
  }

  /** Any other strand leaves the level as it is. */
  lemma SnocOut(p: seq<Strand>, x: Strand, l: nat)
    requires AllSized(p) && x.Sized() && !x.InLevel(l)
    ensures AllSized(p + [x]) && Items(p + [x], l) == Items(p, l)
    ensures LevelLabels(p + [x], l) == LevelLabels(p, l) && LevelChildren(p + [x], l) == LevelChildren(p, l)
  {
    hide Items, LevelLabels, LevelChildren, LevelLouds;
    SnocLevel(p, x, l);
    SnocItems(p, x, l);
  }

  lemma SnocCounts(p: seq<Strand>, x: Strand, l: nat)
    ensures NodeCount(p + [x], l) == NodeCount(p, l) + Bit(x.InLevel(l) && (|p| == 0 || x.lo < l))
    ensures LevelValues(p + [x], l) == LevelValues(p, l) + (if x.InLevel(l) && !x.HasChild(l) then [x.value] else [])
  {
    hide Ones, Positions;
    var t := p + [x];
    assert StartFlags(t, l) == StartFlags(p, l) + [x.InLevel(l) && (|p| == 0 || x.lo < l)];
    OnesSnoc(StartFlags(p, l), x.InLevel(l) && (|p| == 0 || x.lo < l));
    SnocValues(p, x, l);
  }

  lemma SnocValues(p: seq<Strand>, x: Strand, l: nat)
    ensures LevelValues(p + [x], l) == LevelValues(p, l) + (if x.InLevel(l) && !x.HasChild(l) then [x.value] else [])
  {
    hide Ones, Positions, Gather;
    var t := p + [x];
    var leaf := x.InLevel(l) && !x.HasChild(l);
    assert LeafFlags(t, l) == LeafFlags(p, l) + [leaf];
    OnesSnoc(LeafFlags(p, l), leaf);
    var values := seq(|p|, i requires 0 <= i < |p| => p[i].value);
    assert seq(|t|, i requires 0 <= i < |t| => t[i].value) == values + [x.value];
    GatherSnoc(values, x.value, Positions(LeafFlags(p, l), |p|));
  }

  lemma SnocHeight(p: seq<Strand>, x: Strand)
    ensures Height(p + [x]) == Max(Height(p), x.hi)
  {
    PrefixHeight(p + [x], p, |p|);
  }

  lemma {:induction false} PrefixHeight(t: seq<Strand>, p: seq<Strand>, m: nat)
    requires m <= |t| && m <= |p| && forall i :: 0 <= i < m ==> t[i] == p[i]
    ensures HeightTo(t, m) == HeightTo(p, m)
  {
    if m > 0 { PrefixHeight(t, p, m - 1); }
  }

  /** No level at or above the height has items. */
  lemma NoItemsAbove(p: seq<Strand>, l: nat)
    requires AllSized(p) && l >= Height(p)
    ensures LevelLabels(p, l) == [] && LevelChildren(p, l) == [] && LevelLouds(p, l) == []
    ensures NodeCount(p, l) == 0 && LevelValues(p, l) == []
  {
    OnesZero(ItemFlags(p, l), 0, |p|);
    OnesZero(StartFlags(p, l), 0, |p|);
    OnesZero(LeafFlags(p, l), 0, |p|);
  }

  /** The last item of each level the newest strand runs through carries that strand's byte. */
  lemma {:induction false} LastItem(p: seq<Strand>, l: nat)
    requires WellFormed(p) && |p| > 0 && l < p[|p| - 1].hi
    ensures l < Height(p) && |Items(p, l)| > 0
    ensures LevelLabels(p, l)[|Items(p, l)| - 1] == p[|p| - 1].key[l]
    ensures l + 1 < p[|p| - 1].hi ==> LevelChildren(p, l)[|Items(p, l)| - 1]
    decreases |p|
  {
    var q, x := p[..|p| - 1], p[|p| - 1];
    assert p == q + [x];
    hide LevelLabels, LevelChildren, LevelLouds, Items, HeightTo, Positions;
    SnocHeight(q, x);
    if x.lo <= l {
      SnocIn(q, x, l);
    } else {
      SnocOut(q, x, l);
      var y := p[|p| - 2];
      assert Follows(y, x);
      assert WellFormed(q);
      LastItem(q, l);
      assert x.key[l] == x.key[..x.lo][l] && y.key[l] == y.key[..x.lo][l];
    }
  }
}
