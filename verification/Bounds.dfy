/**
 Lower bounds: which key a seek has to find, and how the walk along the query splits the keys
 into smaller and greater ones.
 */
module Bounds {
  import opened Bits
  import opened Labels
  import opened Strands
  import opened Encoding
  import opened Walks
  import opened Keys

  /** The order of strings: bytes as unsigned numbers, a proper prefix comes first. */
  predicate Less(a: Key, b: Key) {
    var c := Lcp(a, b);
    (c == |a| && c < |b|) || (c < |a| && c < |b| && a[c] < b[c])
  }

  lemma LessAt(a: Key, b: Key, c: nat)
    requires c < |a| && c < |b| && a[..c] == b[..c] && a[c] < b[c]
    ensures Less(a, b) && !Less(b, a) && a != b
  {
    LcpUnique(a, b, c);
    LcpUnique(b, a, c);
  }

  lemma LessPrefix(a: Key, b: Key)
    requires |a| < |b| && b[..|a|] == a
    ensures Less(a, b) && !Less(b, a)
  {
    forall i | 0 <= i < |a|
      ensures a[i] == b[i]
    {
      assert b[i] == b[..|a|][i];
    }
  }

  /** The order is total. */
  lemma LessTotal(a: Key, b: Key)
    ensures Less(a, b) || Less(b, a) || a == b
    ensures !(Less(a, b) && Less(b, a)) && (a == b ==> !Less(a, b))
  {
    var c, d := Lcp(a, b), Lcp(b, a);
    if c < d && c < |a| && c < |b| { SameByte(b, a, d, c); }
    if d < c && d < |a| && d < |b| { SameByte(a, b, c, d); }
    if c == |a| && c == |b| {
      assert a == a[..c] == b[..c] == b;
    }
  }

  /** Whether a key is at or after the query, in the sense the seek was asked for. */
  predicate Qualifies(key: Key, q: Key, inclusive: bool) {
    Less(q, key) || (inclusive && key == q)
  }

  /** `k` is the least strand whose key qualifies, or the number of strands when none does. */
  ghost predicate Least(t: seq<Strand>, q: Key, inclusive: bool, k: nat) {
    k <= |t| &&
    (forall j :: 0 <= j < k ==> !Qualifies(t[j].key, q, inclusive)) &&
    (forall j :: k <= j < |t| ==> Qualifies(t[j].key, q, inclusive))
  }

  lemma OutsideOrder(t: seq<Strand>, q: Key, l: nat, i: nat, k: nat)
    requires WellFormed(t) && AtNode(t, q, l, i) && k < |t| && !(i <= k < NodeEnd(t, l, i))
    ensures k < i ==> Less(t[k].key, q) && !Less(q, t[k].key) && t[k].key != q
    ensures k >= i ==> Less(q, t[k].key)
  {
    hide Lcp, Less;
    if k < i {
      var c := PartAt(t, k, i);
      assert c <= t[i].lo < l;
      PrefixAt(q, t[i].key, l, c);
      LessAt(t[k].key, q, c);
    } else {
      var c := PartAt(t, i, k);
      assert c <= t[NodeEnd(t, l, i)].lo < l;
      PrefixAt(q, t[i].key, l, c);
      LessAt(q, t[k].key, c);
    }
  }

  /** Strings that share `l` bytes share any shorter prefix and the byte after it. */
  lemma PrefixAt(a: Key, b: Key, l: nat, c: nat)
    requires c < l <= |a| && l <= |b| && a[..l] == b[..l]
    ensures a[..c] == b[..c] && a[c] == b[c]
  {
    assert a[..c] == a[..l][..c] && b[..c] == b[..l][..c];
    assert a[c] == a[..l][c] && b[c] == b[..l][c];
  }

  lemma InsidePath(t: seq<Strand>, q: Key, l: nat, i: nat, k: nat)
    requires WellFormed(t) && AtNode(t, q, l, i) && i <= k < NodeEnd(t, l, i)
    ensures l < t[k].hi <= |t[k].key| && t[k].key[..l] == q[..l]
  {
    SamePath(t, l, i, k);
    LabelsRise(t, l, i, k);
  }

  /** The query ends at a node: the node's first key is the answer. */
  lemma LeastAtNode(t: seq<Strand>, q: Key, inclusive: bool, i: nat)
    requires WellFormed(t) && AtNode(t, q, |q|, i)
    ensures Least(t, q, inclusive, i)
  {
    hide Less;
    forall k | 0 <= k < |t|
      ensures Qualifies(t[k].key, q, inclusive) <==> k >= i
    {
      if i <= k < NodeEnd(t, |q|, i) {
        InsidePath(t, q, |q|, i, k);
        LessPrefix(q, t[k].key);
      } else {
        OutsideOrder(t, q, |q|, i, k);
      }
    }
  }

  /** The query runs through a leaf: only that key needs comparing. */
  lemma LeastAtLeaf(t: seq<Strand>, q: Key, inclusive: bool, x: nat)
    requires WellFormed(t) && x < |t| && Matches(t[x], q)
    ensures Least(t, q, inclusive, if Qualifies(t[x].key, q, inclusive) then x else x + 1)
  {
    hide Less, Lcp;
    forall k | 0 <= k < |t| && k != x
      ensures Qualifies(t[k].key, q, inclusive) <==> k > x
    {
      if k < x {
        var c := PartAt(t, k, x);
        PrefixAt(q, t[x].key, t[x].hi, c);
        LessAt(t[k].key, q, c);
      } else {
        var c := PartAt(t, x, k);
        PrefixAt(q, t[x].key, t[x].hi, c);
        LessAt(q, t[k].key, c);
      }
    }
  }

  /** The query leaves a node between two labels, or after the last: strands up to `m` are smaller. */
  lemma LeastInNode(t: seq<Strand>, q: Key, inclusive: bool, l: nat, i: nat, m: nat)
    requires WellFormed(t) && AtNode(t, q, l, i) && l < |q| && i <= m <= NodeEnd(t, l, i)
    requires forall k :: i <= k < m ==> l < |t[k].key| && t[k].key[l] < q[l]
    requires forall k :: m <= k < NodeEnd(t, l, i) ==> l < |t[k].key| && q[l] < t[k].key[l]
    ensures Least(t, q, inclusive, m)
  {
    hide Less, Lcp;
    forall k | 0 <= k < |t|
      ensures Qualifies(t[k].key, q, inclusive) <==> k >= m
    {
      if i <= k < NodeEnd(t, l, i) {
        InsidePath(t, q, l, i, k);
        if k < m { LessAt(t[k].key, q, l); } else { LessAt(q, t[k].key, l); }
      } else {
        OutsideOrder(t, q, l, i, k);
      }
    }
  }
}
