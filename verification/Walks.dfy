/**
 Looking a query up by following the strands directly: the reference that the rank and select
 navigation is proved to refine.
 */
module Walks {
  import opened Bits
  import opened Labels
  import opened Strands

  /** How a walk ends: at a childless item, out of query bytes, or at a node without the next byte. */
  datatype WalkEnd = AtLeaf(strand: nat) | OutOfBytes | NoItem(level: nat, node: nat)

  ghost function Walk(t: seq<Strand>, q: Key, l: nat, i: nat): (r: WalkEnd)
    requires WellFormed(t) && AtNode(t, q, l, i)
    decreases |q| - l
  {
    if l == |q| then OutOfBytes
    else if x: nat :| ItemOf(t, l, i, x, q[l]) then
      LeafItemMatches(t, q, l, i, x);
      if t[x].HasChild(l) then Walk(t, q, l + 1, x) else AtLeaf(x)
    else NoItem(l, i)
  }

  lemma ItemUnique(t: seq<Strand>, l: nat, i: nat, x: nat, y: nat, c: Byte)
    requires WellFormed(t) && i < |t| && t[i].InLevel(l) && ItemOf(t, l, i, x, c) && ItemOf(t, l, i, y, c)
    ensures x == y
  {
    if x < y { LabelsRise(t, l, x, y); }
    if y < x { LabelsRise(t, l, y, x); }
  }

  /** One step of a walk at a byte the node has. */
  lemma WalkStep(t: seq<Strand>, q: Key, l: nat, i: nat, x: nat)
    requires WellFormed(t) && AtNode(t, q, l, i) && l < |q| && ItemOf(t, l, i, x, q[l])
    ensures t[x].HasChild(l) ==> AtNode(t, q, l + 1, x) && Walk(t, q, l, i) == Walk(t, q, l + 1, x)
    ensures !t[x].HasChild(l) ==> Walk(t, q, l, i) == AtLeaf(x)
  {
    LeafItemMatches(t, q, l, i, x);
    forall y: nat | ItemOf(t, l, i, y, q[l])
      ensures y == x
    {
      ItemUnique(t, l, i, x, y, q[l]);
    }
  }

  lemma WalkExhausted(t: seq<Strand>, q: Key, l: nat, i: nat)
    requires WellFormed(t) && AtNode(t, q, l, i) && l == |q|
    ensures Walk(t, q, l, i) == OutOfBytes
  {
  }

  lemma WalkStops(t: seq<Strand>, q: Key, l: nat, i: nat)
    requires WellFormed(t) && AtNode(t, q, l, i) && l < |q| && forall x: nat :: !ItemOf(t, l, i, x, q[l])
    ensures Walk(t, q, l, i) == NoItem(l, i)
  {
  }

  /** A walk ends at a leaf exactly when that leaf's stored prefix is a prefix of the query. */
  lemma {:induction false} WalkFindsMatch(t: seq<Strand>, q: Key, l: nat, i: nat)
    requires WellFormed(t) && AtNode(t, q, l, i)
    ensures var r := Walk(t, q, l, i); r.AtLeaf? ==> r.strand < |t| && Matches(t[r.strand], q)
    ensures var r := Walk(t, q, l, i); !r.AtLeaf? ==> forall k :: 0 <= k < |t| ==> !Matches(t[k], q)
    decreases |q| - l
  {
    if l == |q| {
      NoItemMisses(t, q, l, i);
    } else if x: nat :| ItemOf(t, l, i, x, q[l]) {
      WalkStep(t, q, l, i, x);
      LeafItemMatches(t, q, l, i, x);
      if t[x].HasChild(l) { WalkFindsMatch(t, q, l + 1, x); }
    } else {
      NoItemMisses(t, q, l, i);
    }
  }

  lemma RootNode(t: seq<Strand>, q: Key)
    requires WellFormed(t) && |t| > 0
    ensures AtNode(t, q, 0, 0)
  {
    assert t[0].Sized();
  }

  /** Along a query there is at most one node on each level. */
  lemma AtNodeUnique(t: seq<Strand>, q: Key, l: nat, i: nat, j: nat)
    requires WellFormed(t) && AtNode(t, q, l, i) && AtNode(t, q, l, j)
    ensures i == j
  {
    if i != j {
      var a, b := if i < j then i else j, if i < j then j else i;
      var c := PartAt(t, a, b);
      assert c <= t[b].lo < l;
      SharedByte(t, q, l, a, l, b, c);
    }
  }

  /** Every node above a node on the same query has the item that leads towards it. */
  lemma ItemTowards(t: seq<Strand>, q: Key, l: nat, i: nat, d: nat, j: nat) returns (x: nat)
    requires WellFormed(t) && AtNode(t, q, l, i) && AtNode(t, q, d, j) && l < d
    ensures ItemOf(t, l, i, x, q[l]) && t[x].HasChild(l)
  {
    NodeContains(t, q, l, i, d, j);
    x := Ancestor(t, l, i, j);
    assert t[j].key[l] == q[..d][l];
    if x < j { assert Follows(t[x], t[x + 1]); }
  }

  lemma NodeContains(t: seq<Strand>, q: Key, l: nat, i: nat, d: nat, j: nat)
    requires WellFormed(t) && AtNode(t, q, l, i) && AtNode(t, q, d, j) && l < d
    ensures i <= j < NodeEnd(t, l, i)
  {
    var e := NodeEnd(t, l, i);
    var c: nat;
    if j < i {
      c := PartAt(t, j, i);
      assert c <= t[i].lo < l;
      SharedByte(t, q, l, i, d, j, c);
    } else if e <= j {
      c := PartAt(t, i, j);
      assert c <= t[e].lo < l;
      SharedByte(t, q, l, i, d, j, c);
    }
  }

  lemma SharedByte(t: seq<Strand>, q: Key, l: nat, i: nat, d: nat, j: nat, c: nat)
    requires AtNode(t, q, l, i) && AtNode(t, q, d, j) && c < l <= d
    ensures t[i].key[c] == t[j].key[c]
  {
    assert t[i].key[c] == q[..l][c] && t[j].key[c] == q[..d][c];
  }

  /** A walk from any node on the way is the walk from further up, continued. */
  lemma {:induction false} WalkResumes(t: seq<Strand>, q: Key, l: nat, i: nat, d: nat, j: nat)
    requires WellFormed(t) && AtNode(t, q, l, i) && AtNode(t, q, d, j) && l <= d
    ensures Walk(t, q, l, i) == Walk(t, q, d, j)
    decreases d - l
  {
    if l == d {
      AtNodeUnique(t, q, l, i, j);
    } else {
      var x := ItemTowards(t, q, l, i, d, j);
      WalkStep(t, q, l, i, x);
      WalkResumes(t, q, l + 1, x, d, j);
    }
  }

  /** Where a walk stops short, the query has a byte that its node lacks. */
  lemma {:induction false} WalkStopsAt(t: seq<Strand>, q: Key, l: nat, i: nat)
    requires WellFormed(t) && AtNode(t, q, l, i)
    ensures var w := Walk(t, q, l, i); w.NoItem? ==> l <= w.level < |q| && AtNode(t, q, w.level, w.node)
    ensures var w := Walk(t, q, l, i); w.NoItem? ==> forall x: nat :: !ItemOf(t, w.level, w.node, x, q[w.level])
    decreases |q| - l
  {
    hide Walk;
    if l < |q| {
      if x: nat :| ItemOf(t, l, i, x, q[l]) {
        WalkStep(t, q, l, i, x);
        if t[x].HasChild(l) { WalkStopsAt(t, q, l + 1, x); }
      } else {
        WalkStops(t, q, l, i);
      }
    } else {
      WalkExhausted(t, q, l, i);
    }
  }
}
