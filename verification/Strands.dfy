/**
 The reference model of the trie. Each distinct key is a strand: it creates one item on each
 of the levels lo..hi-1, where `lo` is the length it shares with the key before it and `hi`
 is the length of its stored prefix. Nothing here mentions bits, ranks or words.
 */
module Strands {
  import opened Bits
  import opened Labels

  type Key = seq<Byte>

  datatype Strand = Strand(key: Key, lo: nat, hi: nat, value: nat) {
    function Stored(): Key
      requires hi <= |key|
    {
      key[..hi]
    }
    predicate InLevel(l: nat) { lo <= l < hi }
    predicate HasChild(l: nat) { l + 1 < hi }
    predicate Sized() { lo < hi <= |key| }
  }

  /** The strand `b` leaves its predecessor `a` at depth b.lo, with a greater byte. */
  ghost predicate Follows(a: Strand, b: Strand) {
    a.Sized() && b.Sized() && b.lo < a.hi &&
    a.key[..b.lo] == b.key[..b.lo] && a.key[b.lo] < b.key[b.lo]
  }

  ghost predicate WellFormed(t: seq<Strand>) {
    (|t| > 0 ==> t[0].lo == 0) &&
    (forall i :: 0 <= i < |t| ==> t[i].Sized()) &&
    (forall i :: 0 < i < |t| ==> Follows(t[i - 1], t[i]))
  }

  function NextLo(t: seq<Strand>, i: nat): nat { if i + 1 < |t| then t[i + 1].lo else 0 }

  function Max(a: nat, b: nat): nat { if a < b then b else a }

  /** Stored prefixes are as short as they can be: one byte past the longer shared prefix. */
  ghost predicate Minimal(t: seq<Strand>) {
    forall i :: 0 <= i < |t| ==> t[i].hi == 1 + Max(t[i].lo, NextLo(t, i))
  }

  /** Whether the item that strand `i` creates at level `l` is the first of its node. */
  predicate Starts(t: seq<Strand>, i: nat, l: nat)
    requires i < |t|
  {
    i == 0 || t[i].lo < l
  }

  /** Per level, which strands create an item, start a node, have a child, end there. */
  function ItemFlags(t: seq<Strand>, l: nat): (r: seq<bool>)
    ensures |r| == |t|
  {
    seq(|t|, i requires 0 <= i < |t| => t[i].InLevel(l))
  }

  function StartFlags(t: seq<Strand>, l: nat): (r: seq<bool>)
    ensures |r| == |t|
  {
    seq(|t|, i requires 0 <= i < |t| => t[i].InLevel(l) && Starts(t, i, l))
  }

  function ChildFlags(t: seq<Strand>, l: nat): (r: seq<bool>)
    ensures |r| == |t|
  {
    seq(|t|, i requires 0 <= i < |t| => t[i].InLevel(l) && t[i].HasChild(l))
  }

  function LeafFlags(t: seq<Strand>, l: nat): (r: seq<bool>)
    ensures |r| == |t|
  {
    seq(|t|, i requires 0 <= i < |t| => t[i].InLevel(l) && !t[i].HasChild(l))
  }

  /** An item has a child exactly when its own strand starts a node one level down. */
  lemma ChildrenStartNodes(t: seq<Strand>, l: nat)
    requires WellFormed(t)
    ensures ChildFlags(t, l) == StartFlags(t, l + 1)
  {
  }

  lemma ItemsAreChildrenAndLeaves(t: seq<Strand>, l: nat, m: nat)
    requires m <= |t|
    ensures Ones(ItemFlags(t, l), m) == Ones(ChildFlags(t, l), m) + Ones(LeafFlags(t, l), m)
  {
    if m > 0 { ItemsAreChildrenAndLeaves(t, l, m - 1); }
  }

  /** The number of levels the first `m` strands reach. */
  function HeightTo(t: seq<Strand>, m: nat): (h: nat)
    requires m <= |t|
    ensures forall i :: 0 <= i < m ==> t[i].hi <= h
    ensures m > 0 ==> exists i :: 0 <= i < m && t[i].hi == h
  {
    if m == 0 then 0
    else if t[m - 1].hi < HeightTo(t, m - 1) then HeightTo(t, m - 1)
    else t[m - 1].hi
  }

  function Height(t: seq<Strand>): (h: nat) { HeightTo(t, |t|) }

  /** The first strand after `i` that lies outside the node strand `i` starts at level `l`. */
  ghost function NodeEnd(t: seq<Strand>, l: nat, i: nat): (e: nat)
    requires i < |t|
    ensures i < e <= |t| && (e < |t| ==> t[e].lo < l)
    ensures forall m :: i < m < e ==> t[m].lo >= l
    decreases |t| - i
  {
    if i + 1 == |t| || t[i + 1].lo < l then i + 1 else NodeEnd(t, l, i + 1)
  }

  /** Strands that never drop below depth `l` share their first `l` bytes. */
  lemma {:induction false} SamePath(t: seq<Strand>, l: nat, i: nat, m: nat)
    requires WellFormed(t) && i <= m < |t| && l <= |t[i].key|
    requires forall x :: i < x <= m ==> t[x].lo >= l
    ensures l <= |t[m].key| && t[m].key[..l] == t[i].key[..l]
    decreases m
  {
    if i < m {
      SamePath(t, l, i, m - 1);
      assert Follows(t[m - 1], t[m]);
      assert t[m].key[..l] == t[m].key[..t[m].lo][..l];
      assert t[m - 1].key[..l] == t[m - 1].key[..t[m].lo][..l];
    }
  }

  /** Inside a node the byte at its level never decreases, and grows at each new item. */
  lemma {:induction false} LabelsRise(t: seq<Strand>, l: nat, a: nat, b: nat)
    requires WellFormed(t) && a <= b < |t| && l < t[a].hi
    requires forall x :: a < x <= b ==> t[x].lo >= l
    ensures l < |t[a].key| && l < t[b].hi <= |t[b].key| && t[a].key[l] <= t[b].key[l]
    ensures a < b && t[b].lo == l ==> t[a].key[l] < t[b].key[l]
    decreases b
  {
    if a < b {
      LabelsRise(t, l, a, b - 1);
      assert Follows(t[b - 1], t[b]);
      if t[b].lo > l {
        assert t[b].key[l] == t[b].key[..t[b].lo][l];
        assert t[b - 1].key[l] == t[b - 1].key[..t[b].lo][l];
      }
    }
  }

  /** Two different strands part company within both stored prefixes. */
  lemma {:induction false} PartAt(t: seq<Strand>, i: nat, k: nat) returns (c: nat)
    requires WellFormed(t) && i < k < |t|
    ensures c < t[i].hi && c < t[k].hi && (forall x :: i < x <= k ==> c <= t[x].lo)
    ensures exists x :: i < x <= k && c == t[x].lo
    ensures t[i].key[..c] == t[k].key[..c] && t[i].key[c] < t[k].key[c]
    decreases k
  {
    assert Follows(t[k - 1], t[k]);
    if i + 1 == k {
      c := t[k].lo;
    } else {
      var d := PartAt(t, i, k - 1);
      if d < t[k].lo {
        c := d;
        assert t[k].key[d] == t[k].key[..t[k].lo][d] && t[k - 1].key[d] == t[k - 1].key[..t[k].lo][d];
        assert t[k].key[..d] == t[k].key[..t[k].lo][..d] && t[k - 1].key[..d] == t[k - 1].key[..t[k].lo][..d];
      } else {
        c := t[k].lo;
        assert t[i].key[..c] == t[i].key[..d][..c] && t[k - 1].key[..c] == t[k - 1].key[..d][..c];
        if c < d {
          assert t[i].key[c] == t[i].key[..d][c] && t[k - 1].key[c] == t[k - 1].key[..d][c];
        }
      }
    }
  }

  /** The stored prefix is a prefix of the query. */
  ghost predicate Matches(s: Strand, q: Key) {
    s.hi <= |s.key| && s.hi <= |q| && q[..s.hi] == s.key[..s.hi]
  }

  lemma MatchesByte(s: Strand, q: Key, c: nat)
    requires Matches(s, q) && c < s.hi
    ensures q[c] == s.key[c]
  {
    assert q[c] == q[..s.hi][c];
  }

  /** At most one stored prefix matches a query. */
  lemma MatchUnique(t: seq<Strand>, q: Key, i: nat, k: nat)
    requires WellFormed(t) && i < |t| && k < |t| && Matches(t[i], q) && Matches(t[k], q)
    ensures i == k
  {
    if i != k {
      var a, b := if i < k then i else k, if i < k then k else i;
      var c := PartAt(t, a, b);
      MatchesByte(t[a], q, c);
      MatchesByte(t[b], q, c);
    }
  }

  /** The walk has reached the node that strand `i` starts at level `l`, along the bytes of `q`. */
  ghost predicate AtNode(t: seq<Strand>, q: Key, l: nat, i: nat) {
    i < |t| && l <= |q| && t[i].InLevel(l) && Starts(t, i, l) && l <= |t[i].key| && q[..l] == t[i].key[..l]
  }

  /** The item of strand `x` belongs to the node of strand `i` at level `l` and carries byte `c`. */
  ghost predicate ItemOf(t: seq<Strand>, l: nat, i: nat, x: nat, c: Byte)
    requires i < |t|
  {
    i <= x < NodeEnd(t, l, i) && t[x].InLevel(l) && l < |t[x].key| && t[x].key[l] == c
  }

  /** Strands outside the node a walk has reached cannot match. */
  lemma OutsideMisses(t: seq<Strand>, q: Key, l: nat, i: nat, k: nat)
    requires WellFormed(t) && AtNode(t, q, l, i) && k < |t| && !(i <= k < NodeEnd(t, l, i))
    ensures !Matches(t[k], q)
  {
    var e := NodeEnd(t, l, i);
    var c;
    if k < i {
      c := PartAt(t, k, i);
      assert c <= t[i].lo < l;
    } else {
      c := PartAt(t, i, k);
      assert c <= t[e].lo < l;
    }
    assert q[c] == q[..l][c] == t[i].key[c];
    if Matches(t[k], q) { MatchesByte(t[k], q, c); }
  }

  /** The item under which strand `k` hangs at level `l`. */
  lemma {:induction false} Ancestor(t: seq<Strand>, l: nat, i: nat, k: nat) returns (x: nat)
    requires WellFormed(t) && i < |t| && i <= k < NodeEnd(t, l, i) && t[i].InLevel(l) && l < t[k].hi
    ensures i <= x <= k && t[x].InLevel(l) && (forall y :: x < y <= k ==> t[y].lo > l)
    ensures l < |t[x].key| && t[x].key[l] == t[k].key[l]
    ensures Ones(ItemFlags(t, l), k + 1) == Ones(ItemFlags(t, l), x) + 1
    decreases k
  {
    if t[k].lo <= l {
      x := k;
    } else {
      assert Follows(t[k - 1], t[k]);
      x := Ancestor(t, l, i, k - 1);
      assert t[k].key[l] == t[k].key[..t[k].lo][l];
      assert t[k - 1].key[l] == t[k - 1].key[..t[k].lo][l];
    }
  }

  /** No item for the next byte, or no next byte: nothing matches. */
  lemma NoItemMisses(t: seq<Strand>, q: Key, l: nat, i: nat)
    requires WellFormed(t) && AtNode(t, q, l, i)
    requires l < |q| ==> forall x: nat :: !ItemOf(t, l, i, x, q[l])
    ensures forall k :: 0 <= k < |t| ==> !Matches(t[k], q)
  {
    forall k | 0 <= k < |t|
      ensures !Matches(t[k], q)
    {
      if !(i <= k < NodeEnd(t, l, i)) {
        OutsideMisses(t, q, l, i, k);
      } else if Matches(t[k], q) {
        assert l < t[k].hi by { StaysBelow(t, l, i, k); }
        var x := Ancestor(t, l, i, k);
        assert q[l] == q[..t[k].hi][l];
        assert ItemOf(t, l, i, x, q[l]);
      }
    }
  }

  lemma StaysBelow(t: seq<Strand>, l: nat, i: nat, k: nat)
    requires WellFormed(t) && i < |t| && i <= k < NodeEnd(t, l, i) && t[i].InLevel(l)
    ensures l < t[k].hi
  {
  }

  /** A childless item for the next byte ends a stored prefix of the query. */
  lemma LeafItemMatches(t: seq<Strand>, q: Key, l: nat, i: nat, x: nat)
    requires WellFormed(t) && AtNode(t, q, l, i) && l < |q| && ItemOf(t, l, i, x, q[l])
    ensures l <= |t[x].key| && q[..l] == t[x].key[..l]
    ensures !t[x].HasChild(l) ==> Matches(t[x], q)
    ensures t[x].HasChild(l) ==> AtNode(t, q, l + 1, x)
  {
    SamePath(t, l, i, x);
    assert q[..l + 1] == q[..l] + [q[l]];
    assert t[x].key[..l + 1] == t[x].key[..l] + [t[x].key[l]];
  }

  /** Past the end of a node, the next item of its level starts another node. */
  lemma {:induction false} NextItemStarts(t: seq<Strand>, l: nat, e: nat, j: nat)
    requires WellFormed(t) && 0 < e <= j < |t| && t[e].lo < l && t[j].InLevel(l)
    requires forall x :: e <= x < j ==> !t[x].InLevel(l)
    ensures Starts(t, j, l)
    decreases j
  {
    if e < j {
      DropsBelow(t, l, e, j - 1);
      assert Follows(t[j - 1], t[j]);
    }
  }

  lemma {:induction false} DropsBelow(t: seq<Strand>, l: nat, e: nat, j: nat)
    requires WellFormed(t) && 0 < e <= j < |t| && t[e].lo < l
    requires forall x :: e <= x <= j ==> !t[x].InLevel(l)
    ensures t[j].hi <= l
    decreases j
  {
    if e < j {
      DropsBelow(t, l, e, j - 1);
      assert Follows(t[j - 1], t[j]);
    }
  }

  /** With two strands or more, every childless item has a sibling right before or right after it. */
  lemma LeafHasSibling(t: seq<Strand>, i: nat)
    requires WellFormed(t) && Minimal(t) && |t| >= 2 && i < |t|
    ensures var l := t[i].hi - 1;
      (0 < i && !Starts(t, i, l)) || (i + 1 < |t| && t[i + 1].InLevel(l) && !Starts(t, i + 1, l))
  {
    assert t[i].hi == 1 + Max(t[i].lo, NextLo(t, i));
    assert t[i].Sized();
    if i + 1 < |t| { assert t[i + 1].Sized(); }
  }
}
