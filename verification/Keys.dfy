/**
 The input of the builder, a sorted list of keys with values, and the strands it stands for:
 one per run of equal keys, carrying the first value of the run.
 */
module Keys {
  import opened Bits
  import opened Labels
  import opened Strands

  /** Length of the longest common prefix. */
  function Lcp(a: Key, b: Key): (c: nat)
    ensures c <= |a| && c <= |b| && a[..c] == b[..c]
    ensures c < |a| && c < |b| ==> a[c] != b[c]
  {
    if a == [] || b == [] || a[0] != b[0] then 0
    else
      var c := 1 + Lcp(a[1..], b[1..]);
      assert a[..c] == [a[0]] + a[1..][..c - 1] && b[..c] == [b[0]] + b[1..][..c - 1];
      c
  }

  lemma SameByte(a: Key, b: Key, c: nat, i: nat)
    requires i < c <= |a| && c <= |b| && a[..c] == b[..c]
    ensures a[i] == b[i]
  {
    assert a[i] == a[..c][i];
  }

  lemma LcpUnique(a: Key, b: Key, c: nat)
    requires c < |a| && c < |b| && a[..c] == b[..c] && a[c] != b[c]
    ensures Lcp(a, b) == c
  {
    var d := Lcp(a, b);
    if d < c { SameByte(a, b, c, d); }
    if c < d { SameByte(a, b, d, c); }
  }

  /** The order of the keys, decided at the first differing byte; neither is a prefix of the other. */
  predicate LessByByte(a: Key, b: Key) {
    var c := Lcp(a, b);
    c < |a| && c < |b| && a[c] < b[c]
  }

  /** Non-empty keys, sorted, prefix-free up to duplicates. */
  ghost predicate ValidKeys(keys: seq<Key>, values: seq<nat>) {
    |keys| > 0 && |values| == |keys| &&
    (forall i :: 0 <= i < |keys| ==> |keys[i]| > 0) &&
    (forall i :: 0 < i < |keys| ==> keys[i - 1] == keys[i] || LessByByte(keys[i - 1], keys[i]))
  }

  /** Which keys are the first of their run of duplicates. */
  function FirstFlags(keys: seq<Key>): seq<bool> {
    seq(|keys|, i requires 0 <= i < |keys| => i == 0 || keys[i] != keys[i - 1])
  }

  function Distinct(keys: seq<Key>): (d: seq<nat>)
    ensures forall j :: 0 <= j < |d| ==> d[j] < |keys|
  {
    Positions(FirstFlags(keys), |keys|)
  }

  /** The length the j-th distinct key shares with the one before it. */
  function SharedLength(keys: seq<Key>, j: nat): nat {
    var d := Distinct(keys);
    if 0 < j < |d| then Lcp(keys[d[j - 1]], keys[d[j]]) else 0
  }

  function StrandOf(keys: seq<Key>, values: seq<nat>, j: nat): Strand
    requires |values| == |keys| && j < |Distinct(keys)|
  {
    var i := Distinct(keys)[j];
    Strand(keys[i], SharedLength(keys, j), 1 + Max(SharedLength(keys, j), SharedLength(keys, j + 1)), values[i])
  }

  function StrandsOf(keys: seq<Key>, values: seq<nat>): (t: seq<Strand>)
    requires |values| == |keys|
    ensures |t| == |Distinct(keys)|
  {
    seq(|Distinct(keys)|, j requires 0 <= j < |Distinct(keys)| => StrandOf(keys, values, j))
  }

  /** Every key equals the first key of its run. */
  lemma {:induction false} RunOf(keys: seq<Key>, x: nat)
    requires x < |keys|
    ensures var f := FirstFlags(keys); 0 < Ones(f, x + 1) <= |Distinct(keys)|
    ensures var f := FirstFlags(keys); keys[x] == keys[Distinct(keys)[Ones(f, x + 1) - 1]]
    ensures var f := FirstFlags(keys); Distinct(keys)[Ones(f, x + 1) - 1] <= x
    decreases x
  {
    var f := FirstFlags(keys);
    OnesMono(f, x + 1, |keys|);
    if f[x] {
      PositionAt(f, |keys|, x);
    } else {
      RunOf(keys, x - 1);
    }
  }

  /** Neighbouring distinct keys are neighbours in the list, up to repetitions. */
  lemma NeighboursDiffer(keys: seq<Key>, values: seq<nat>, j: nat)
    requires ValidKeys(keys, values) && 0 < j < |Distinct(keys)|
    ensures LessByByte(keys[Distinct(keys)[j - 1]], keys[Distinct(keys)[j]])
  {
    hide LessByByte;
    var x := FirstAfter(keys, j);
    assert keys[x - 1] == keys[x] || LessByByte(keys[x - 1], keys[x]);
  }

  /** The key before the first of a run ends the run before it. */
  lemma FirstAfter(keys: seq<Key>, j: nat) returns (x: nat)
    requires 0 < j < |Distinct(keys)|
    ensures 0 < x < |keys| && x == Distinct(keys)[j]
    ensures keys[x - 1] == keys[Distinct(keys)[j - 1]] && keys[x] != keys[x - 1]
  {
    var f := FirstFlags(keys);
    x := Distinct(keys)[j];
    RankOfPosition(f, |keys|, j);
    assert f[x] && Ones(f, 0) == 0;
    RunOf(keys, x - 1);
  }

  lemma SomeDistinct(keys: seq<Key>)
    requires |keys| > 0
    ensures |Distinct(keys)| > 0
  {
    RunOf(keys, 0);
  }

  /** The strands of a valid key list form a trie with minimal stored prefixes. */
  lemma StrandsAreTrie(keys: seq<Key>, values: seq<nat>)
    requires ValidKeys(keys, values)
    ensures WellFormed(StrandsOf(keys, values)) && Minimal(StrandsOf(keys, values))
    ensures |StrandsOf(keys, values)| > 0
  {
    hide Lcp, Positions, Ones;
    var t := StrandsOf(keys, values);
    var d := Distinct(keys);
    SomeDistinct(keys);
    forall j | 0 <= j < |t|
      ensures t[j].Sized() && (0 < j ==> Follows(t[j - 1], t[j]))
      ensures t[j].hi == 1 + Max(t[j].lo, NextLo(t, j))
    {
      if 0 < j { NeighboursDiffer(keys, values, j); }
      if j + 1 < |t| { NeighboursDiffer(keys, values, j + 1); }
      if 1 < j { NeighboursDiffer(keys, values, j - 1); }
    }
  }

  lemma Lengths(keys: seq<Key>, values: seq<nat>)
    requires ValidKeys(keys, values)
    ensures |values| == |keys| > 0 && |keys[0]| > 0
  {
  }

  /** `y` is the first key of the run that contains key `x`. */
  ghost predicate FirstOfRun(keys: seq<Key>, x: nat, y: nat) {
    y <= x < |keys| && keys[y] == keys[x] && (y > 0 ==> keys[y - 1] != keys[y])
  }

  /** The stored prefix of every inserted key matches that key, and carries the first value of its run. */
  lemma KeyIsStored(keys: seq<Key>, values: seq<nat>, x: nat) returns (j: nat, f: nat)
    requires ValidKeys(keys, values) && x < |keys|
    ensures j < |StrandsOf(keys, values)| && Matches(StrandsOf(keys, values)[j], keys[x])
    ensures FirstOfRun(keys, x, f) && StrandsOf(keys, values)[j].value == values[f]
  {
    hide Lcp;
    StrandsAreTrie(keys, values);
    RunOf(keys, x);
    j := Ones(FirstFlags(keys), x + 1) - 1;
    f := Distinct(keys)[j];
    assert FirstFlags(keys)[f];
    assert StrandsOf(keys, values)[j] == StrandOf(keys, values, j);
    assert StrandsOf(keys, values)[j].Sized();
  }
}
