/**
 Label arrays and the searches over one node's labels (include/label_vector.hpp).

 A node size handed to a search can run past the labels that exist (see
 Bitvectors.RunOffDistance). A scan that finds nothing among them then reads on: first the one
 byte that is allocated and never written, then memory behind the array. What it answers depends
 on what is there; the searches report that as Overrun.
 */
module Labels {
  import opened Levels

  type Byte = x: int | 0 <= x < 256

  const TERMINATOR: Byte := 255

  datatype SearchResult = Found(pos: nat) | NotFound | Overrun

  ghost predicate Increasing(labels: seq<Byte>, lo: nat, hi: nat) {
    hi <= |labels| && forall i, j :: lo <= i < j < hi ==> labels[i] < labels[j]
  }

  /** The first place at or after `pos`, within `len` labels, that holds the target. */
  ghost function FirstMatch(labels: seq<Byte>, target: Byte, pos: nat, len: nat): SearchResult
    decreases len
  {
    if len == 0 then NotFound
    else if pos >= |labels| then Overrun
    else if labels[pos] == target then Found(pos)
    else FirstMatch(labels, target, pos + 1, len - 1)
  }

  lemma {:induction false} FirstMatchSkip(labels: seq<Byte>, target: Byte, pos: nat, len: nat, k: nat)
    requires k <= len && pos + k <= |labels|
    requires forall j :: pos <= j < pos + k ==> labels[j] != target
    ensures FirstMatch(labels, target, pos, len) == FirstMatch(labels, target, pos + k, len - k)
    decreases k
  {
    if k > 0 { FirstMatchSkip(labels, target, pos + 1, len - 1, k - 1); }
  }

  /** What the searches mean on a node: found exactly when present, overrun exactly when absent and oversized. */
  lemma {:induction false} FirstMatchMeans(labels: seq<Byte>, target: Byte, pos: nat, len: nat)
    ensures FirstMatch(labels, target, pos, len).Found? <==>
      exists j :: pos <= j < pos + len && j < |labels| && labels[j] == target
    ensures var r := FirstMatch(labels, target, pos, len);
      r.Found? ==>
        pos <= r.pos < pos + len && r.pos < |labels| && labels[r.pos] == target && target !in labels[pos..r.pos]
    ensures FirstMatch(labels, target, pos, len).Overrun? ==> pos + len > |labels|
    ensures !FirstMatch(labels, target, pos, len).Found? && pos <= |labels| < pos + len ==>
      FirstMatch(labels, target, pos, len).Overrun?
    decreases len
  {
    if len > 0 && pos < |labels| && labels[pos] != target {
      FirstMatchMeans(labels, target, pos + 1, len - 1);
      var r := FirstMatch(labels, target, pos, len);
      if r.Found? { assert labels[pos..r.pos] == [labels[pos]] + labels[pos + 1..r.pos]; }
    }
  }

  /** In a strictly increasing slice a label occurs once. */
  lemma OnlyMatch(labels: seq<Byte>, target: Byte, pos: nat, len: nat, m: nat)
    requires Increasing(labels, pos, pos + len) && pos <= m < pos + len && labels[m] == target
    ensures FirstMatch(labels, target, pos, len) == Found(m)
  {
    FirstMatchSkip(labels, target, pos, len, m - pos);
  }

  lemma NoMatch(labels: seq<Byte>, target: Byte, pos: nat, len: nat)
    requires pos + len <= |labels|
    requires forall j :: pos <= j < pos + len ==> labels[j] != target
    ensures FirstMatch(labels, target, pos, len) == NotFound
  {
    FirstMatchSkip(labels, target, pos, len, len);
  }

  datatype LabelVector = LabelVector(labels: seq<Byte>) {

    /** One byte more than the labels is allocated; it is never written. */
    function NumBytes(): nat { |labels| + 1 }

    method LinearSearch(target: Byte, pos: nat, searchLen: nat) returns (r: SearchResult)
      requires pos + searchLen <= |labels|
      ensures r == FirstMatch(labels, target, pos, searchLen)
    {
      for i := 0 to searchLen
        invariant FirstMatch(labels, target, pos, searchLen) == FirstMatch(labels, target, pos + i, searchLen - i)
      {
        if target == labels[pos + i] {
          return Found(pos + i);
        }
      }
      return NotFound;
    }

    method BinarySearch(target: Byte, pos: nat, searchLen: nat) returns (r: SearchResult)
      requires Increasing(labels, pos, pos + searchLen)
      ensures r == FirstMatch(labels, target, pos, searchLen)
    {
      var lo, hi := pos, pos + searchLen;
      while lo < hi
        invariant pos <= lo <= hi <= pos + searchLen
        invariant forall j :: pos <= j < lo ==> labels[j] < target
        invariant forall j :: hi <= j < pos + searchLen ==> target < labels[j]
      {
        var m := (lo + hi) / 2;
        if target < labels[m] {
          hi := m;
        } else if target == labels[m] {
          OnlyMatch(labels, target, pos, searchLen, m);
          return Found(m);
        } else {
          lo := m + 1;
        }
      }
      NoMatch(labels, target, pos, searchLen);
      return NotFound;
    }

    /** The first match among 16 labels read at once; a match on the unwritten spare byte decides nothing. */
    method MatchChunk(target: Byte, at: nat) returns (hit: bool, offset: nat)
      requires at + 15 < NumBytes()
      ensures hit ==> offset < 16 && at + offset < |labels| && labels[at + offset] == target
      ensures hit ==> forall j :: at <= j < at + offset ==> labels[j] != target
      ensures !hit ==> forall j :: at <= j < at + 16 && j < |labels| ==> labels[j] != target
    {
      offset := 0;
      while offset < 16 && at + offset < |labels|
        invariant offset <= 16 && at + offset <= |labels|
        invariant forall j :: at <= j < at + offset ==> labels[j] != target
      {
        if labels[at + offset] == target {
          return true, offset;
        }
        offset := offset + 1;
      }
      hit := false;
    }

    /** Sixteen labels at a time while that is safe, then one by one. */
    method SimdSearch(target: Byte, pos: nat, searchLen: nat) returns (r: SearchResult)
      requires pos <= |labels|
      ensures r == FirstMatch(labels, target, pos, searchLen)
    {
      var searched, left := 0, searchLen;
      while left / 16 > 0 && pos + searched + 15 < NumBytes()
        invariant searched + left == searchLen && pos + searched <= |labels|
        invariant FirstMatch(labels, target, pos, searchLen) == FirstMatch(labels, target, pos + searched, left)
        decreases left
      {
        var hit, offset := MatchChunk(target, pos + searched);
        if hit {
          FirstMatchSkip(labels, target, pos + searched, left, offset);
          return Found(pos + searched + offset);
        }
        if pos + searched + 16 > |labels| {
          // the chunk took in the spare byte, so what is left lies in bytes nobody wrote
          FirstMatchSkip(labels, target, pos + searched, left, |labels| - (pos + searched));
          return Overrun;
        }
        FirstMatchSkip(labels, target, pos + searched, left, 16);
        searched := searched + 16;
        left := left - 16;
      }
      while left > 0
        invariant searched + left == searchLen && pos + searched <= |labels|
        invariant FirstMatch(labels, target, pos, searchLen) == FirstMatch(labels, target, pos + searched, left)
        decreases left
      {
        if pos + searched >= |labels| {
          return Overrun;
        }
        if labels[pos + searched] == target {
          return Found(pos + searched);
        }
        searched := searched + 1;
        left := left - 1;
      }
      return NotFound;
    }

    /**
     A node's labels, or an oversized view of the last node. An oversized view is never
     shorter than a word, so only the 16-at-a-time search can overrun.
     */
    ghost predicate SearchableNode(pos: nat, searchLen: nat) {
      if pos + searchLen <= |labels| then Increasing(labels, pos, pos + searchLen)
      else searchLen >= 64 && pos + 1 < |labels| && Increasing(labels, pos, |labels|)
    }

    /** The dispatcher over the three searches. */
    method Search(target: Byte, pos0: nat, searchLen0: nat) returns (r: SearchResult)
      requires SearchableNode(pos0, searchLen0)
      ensures r == FirstMatch(labels, target, pos0, searchLen0)
    {
      var pos, searchLen := pos0, searchLen0;
      assert searchLen > 1 ==> labels[pos] < labels[pos + 1];
      if searchLen > 1 && labels[pos] == TERMINATOR {
        pos := pos + 1;
        searchLen := searchLen - 1;
      }
      if searchLen < 3 {
        r := LinearSearch(target, pos, searchLen);
      } else if searchLen < 12 {
        r := BinarySearch(target, pos, searchLen);
      } else {
        r := SimdSearch(target, pos, searchLen);
      }
    }

    /** `r` is the place of the least label above the target, if the slice has one. */
    ghost predicate LeastAbove(target: Byte, pos: nat, len: nat, r: SearchResult)
      requires pos + len <= |labels|
    {
      match r
      case Found(p) => pos <= p < pos + len && labels[p] > target && forall j :: pos <= j < p ==> labels[j] <= target
      case NotFound => forall j :: pos <= j < pos + len ==> labels[j] <= target
      case Overrun => false
    }

    method LinearSearchGreaterThan(target: Byte, pos: nat, searchLen: nat) returns (r: SearchResult)
      requires Increasing(labels, pos, pos + searchLen)
      ensures LeastAbove(target, pos, searchLen, r)
    {
      for i := 0 to searchLen
        invariant forall j :: pos <= j < pos + i ==> labels[j] <= target
      {
        if labels[pos + i] > target {
          return Found(pos + i);
        }
      }
      return NotFound;
    }

    method BinarySearchGreaterThan(target: Byte, pos: nat, searchLen: nat) returns (r: SearchResult)
      requires Increasing(labels, pos, pos + searchLen)
      ensures LeastAbove(target, pos, searchLen, r)
    {
      var lo, hi := pos, pos + searchLen;
      while lo < hi
        invariant pos <= lo <= hi <= pos + searchLen
        invariant forall j :: pos <= j < lo ==> labels[j] < target
        invariant forall j :: hi <= j < pos + searchLen ==> target < labels[j]
      {
        var m := (lo + hi) / 2;
        if target < labels[m] {
          hi := m;
        } else if target == labels[m] {
          if m < pos + searchLen - 1 {
            return Found(m + 1);
          }
          return NotFound;
        } else {
          lo := m + 1;
        }
      }
      if lo < pos + searchLen {
        return Found(lo);
      }
      return NotFound;
    }

    method SearchGreaterThan(target: Byte, pos0: nat, searchLen0: nat) returns (r: SearchResult)
      requires Increasing(labels, pos0, pos0 + searchLen0)
      ensures LeastAbove(target, pos0, searchLen0, r)
    {
      var pos, searchLen := pos0, searchLen0;
      assert searchLen > 1 ==> labels[pos] < labels[pos + 1];
      if searchLen > 1 && labels[pos] == TERMINATOR {
        pos := pos + 1;
        searchLen := searchLen - 1;
      }
      if searchLen < 3 {
        r := LinearSearchGreaterThan(target, pos, searchLen);
      } else {
        r := BinarySearchGreaterThan(target, pos, searchLen);
      }
    }
  }

  /** The constructor copies the labels level by level, one byte at a time. */
  method MakeLabelVector(labelsPerLevel: seq<seq<Byte>>, start: nat, endLevel: nat) returns (r: LabelVector)
    requires start <= (if endLevel == 0 then |labelsPerLevel| else endLevel) <= |labelsPerLevel|
    ensures r.labels == Cat(labelsPerLevel, start, if endLevel == 0 then |labelsPerLevel| else endLevel)
  {
    var end := if endLevel == 0 then |labelsPerLevel| else endLevel;
    var numLabels := 0;
    for level := start to end
      invariant numLabels == |Cat(labelsPerLevel, start, level)|
    {
      numLabels := numLabels + |labelsPerLevel[level]|;
    }
    var labels := new Byte[numLabels];
    var pos := 0;
    for level := start to end
      invariant pos == |Cat(labelsPerLevel, start, level)| <= labels.Length
      invariant labels[..pos] == Cat(labelsPerLevel, start, level)
    {
      ghost var done := labels[..pos];
      CatLength(labelsPerLevel, start, level + 1, end);
      for idx := 0 to |labelsPerLevel[level]|
        invariant pos == |done| + idx
        invariant labels[..pos] == done + labelsPerLevel[level][..idx]
      {
        labels[pos] := labelsPerLevel[level][idx];
        pos := pos + 1;
      }
    }
    r := LabelVector(labels[..]);
  }
}
