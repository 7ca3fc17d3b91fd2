/**
 Bit vectors over 64-bit words (include/bitvector.hpp): laying the per-level vectors of the
 builder end to end with shifts, reading a bit, and the distance to the next set bit.
 */
module Bitvectors {
  import opened Bits
  import opened Words
  import opened Levels

  function WordsFor(numBits: nat): (w: nat)
    ensures numBits <= 64 * w < numBits + 64
  {
    if numBits % 64 == 0 then numBits / 64 else numBits / 64 + 1
  }

  /** `d` is the gap from `pos` to the next set bit of `b`. */
  ghost predicate IsGap(b: seq<bool>, pos: nat, d: nat) {
    1 <= d && pos + d < |b| && b[pos + d] && forall p :: pos < p < pos + d ==> !b[p]
  }

  ghost predicate NoneAfter(b: seq<bool>, pos: nat) {
    forall p :: pos < p < |b| ==> !b[p]
  }

  /** No set bit follows: up to the end in the last word, and from an earlier word up to the end of the last one. */
  predicate RunsOff(numBits: nat, pos: nat, distance: int)
    requires numBits > 0
  {
    if (pos + 1) / 64 == (numBits - 1) / 64 then pos + distance == numBits
    else (pos + distance) % 64 == 0 && numBits <= pos + distance < numBits + 64
  }

  /**
   What the code answers when no set bit follows: exact within the last word, and rounded up
   to the end of the last word when the scan has to cross into it.
   */
  function RunOffDistance(numBits: nat, pos: nat): (d: int)
    ensures pos < numBits && pos + 1 < 64 * WordsFor(numBits) ==> RunsOff(numBits, pos, d)
  {
    if (pos + 1) / 64 == WordsFor(numBits) - 1 then numBits - pos else 64 * WordsFor(numBits) - pos
  }

  datatype Bitvector = Bitvector(numBits: nat, bits: seq<Word>) {

    function NumWords(): nat { WordsFor(numBits) }

    /** The vector stores exactly the bits `b`, zero padded to whole words. */
    ghost predicate Represents(b: seq<bool>) {
      numBits == |b| && |bits| == NumWords() && Holds(bits, b)
    }

    predicate InBounds(pos: nat) { pos < numBits && pos / 64 < |bits| }

    function ReadBit(pos: nat): (r: bool)
      requires InBounds(pos)
      ensures forall b :: Represents(b) ==> r == b[pos]
    {
      assert forall b :: Represents(b) ==> Flat(bits)[pos] == b[pos];
      bits[pos / 64][pos % 64]
    }

    /** The bit before the end of a full last word: the code looks for the next one in the word after the array. */
    predicate ReadsBeyond(pos: nat) { pos + 1 == 64 * NumWords() }

    /** Nothing is known of a word past the array, so the first word read there may hold anything. */
    method DistanceToNextSetBit(pos: nat, ghost b: seq<bool>) returns (distance: nat)
      requires Represents(b) && pos < numBits
      ensures !ReadsBeyond(pos) ==>
        IsGap(b, pos, distance) || (NoneAfter(b, pos) && distance == RunOffDistance(numBits, pos))
      ensures ReadsBeyond(pos) ==> 1 <= distance <= 65
      ensures NoneAfter(b, pos) && !ReadsBeyond(pos) ==> RunsOff(numBits, pos, distance)
    {
      var wordId := (pos + 1) / 64;
      var offset := (pos + 1) % 64;
      var word: Word := *;
      if !ReadsBeyond(pos) {
        word := bits[wordId];
      }
      var testBits := Shl(word, offset);
      if NonZero(testBits) {
        distance := 1 + Clz(testBits);
        if !ReadsBeyond(pos) { GapInWord(b, pos, wordId, offset, pos + 1, Clz(testBits)); }
        return;
      }
      if !ReadsBeyond(pos) { NoneInWord(b, wordId, offset); }
      if wordId == NumWords() - 1 {
        return numBits - pos;
      }
      distance := 1 + (64 - offset);
      while wordId < NumWords() - 1
        invariant if ReadsBeyond(pos) then wordId == NumWords() && distance == 65 else wordId < NumWords()
        invariant !ReadsBeyond(pos) ==> distance == 64 * (wordId + 1) - pos
        invariant !ReadsBeyond(pos) ==> forall p :: pos < p < 64 * (wordId + 1) && p < |b| ==> !b[p]
      {
        wordId := wordId + 1;
        testBits := bits[wordId];
        if NonZero(testBits) {
          GapInWord(b, pos, wordId, 0, 64 * wordId, Clz(testBits));
          return distance + Clz(testBits);
        }
        NoneInWord(b, wordId, 0);
        distance := distance + 64;
      }
    }

    lemma NoneInWord(b: seq<bool>, wordId: nat, offset: nat)
      requires Represents(b) && wordId < |bits| && offset < 64
      requires !NonZero(Shl(bits[wordId], offset))
      ensures forall p :: 64 * wordId + offset <= p < 64 * wordId + 64 && p < |b| ==> !b[p]
    {
      forall p | 64 * wordId + offset <= p < 64 * wordId + 64 && p < |b|
        ensures !b[p]
      {
        assert Flat(bits)[p] == b[p];
        assert !Shl(bits[wordId], offset)[p - 64 * wordId - offset];
      }
    }

    lemma GapInWord(b: seq<bool>, pos: nat, wordId: nat, offset: nat, from: nat, clz: nat)
      requires Represents(b) && wordId < |bits| && offset < 64 && pos < from == 64 * wordId + offset
      requires clz < 64 && Shl(bits[wordId], offset)[clz]
      requires forall i :: 0 <= i < clz ==> !Shl(bits[wordId], offset)[i]
      requires forall p :: pos < p < from && p < |b| ==> !b[p]
      ensures IsGap(b, pos, from - pos + clz)
    {
      assert Flat(bits)[from + clz];
      forall p | pos < p < from + clz && p < |b|
        ensures !b[p]
      {
        if from <= p {
          assert Flat(bits)[p] == b[p];
          assert !Shl(bits[wordId], offset)[p - from];
        }
      }
    }
  }

  /** Each level's words hold that level's bits and the recorded lengths are right. */
  ghost predicate LevelsHold(levels: seq<seq<Word>>, numBitsPerLevel: seq<nat>, bs: seq<seq<bool>>, start: nat,
                             end: nat) {
    start <= end <= |bs| && end <= |levels| && end <= |numBitsPerLevel| &&
    forall l :: start <= l < end ==> numBitsPerLevel[l] == |bs[l]| && Holds(levels[l], bs[l])
  }

  /** The recorded lengths add up to the length of the concatenation. */
  method TotalNumBits(numBitsPerLevel: seq<nat>, start: nat, end: nat, ghost levels: seq<seq<Word>>,
                      ghost bs: seq<seq<bool>>)
    returns (numBits: nat)
    requires LevelsHold(levels, numBitsPerLevel, bs, start, end)
    ensures numBits == |Cat(bs, start, end)|
  {
    hide Holds;
    numBits := 0;
    for level := start to end
      invariant numBits == |Cat(bs, start, level)|
    {
      numBits := numBits + numBitsPerLevel[level];
    }
  }

  /** A word whose leading bits are `chunk` and whose remaining bits are zero. */
  ghost predicate WordIs(w: Word, chunk: seq<bool>) {
    |chunk| <= 64 && forall t :: 0 <= t < 64 ==> w[t] == (t < |chunk| && chunk[t])
  }

  /** The high part of a shifted word lands in the current output word. */
  function OrHigh(ws: seq<Word>, id: nat, shift: nat, w: Word): seq<Word>
    requires id < |ws| && shift < 64
  {
    ws[id := Or(ws[id], Shr(w, shift))]
  }

  /** The low part of a shifted word lands in the next output word. */
  function OrLow(ws: seq<Word>, id: nat, shift: nat, w: Word): seq<Word>
    requires id < |ws| && 0 < shift < 64
  {
    ws[id := Or(ws[id], Shl(w, 64 - shift))]
  }

  lemma OrHighHolds(ws: seq<Word>, done: seq<bool>, id: nat, shift: nat, w: Word, chunk: seq<bool>)
    requires Holds(ws, done) && |done| == 64 * id + shift && shift < 64 && id < |ws|
    requires WordIs(w, chunk)
    ensures forall p :: 0 <= p < 64 * |ws| ==> (Flat(OrHigh(ws, id, shift, w))[p] ==
      if p < |done| then done[p] else p < 64 * (id + 1) && p - |done| < |chunk| && chunk[p - |done|])
  {
    var ws' := OrHigh(ws, id, shift, w);
    forall p | 0 <= p < 64 * |ws|
      ensures Flat(ws')[p] ==
        if p < |done| then done[p] else p < 64 * (id + 1) && p - |done| < |chunk| && chunk[p - |done|]
    {
      assert Flat(ws')[p] == ws'[p / 64][p % 64];
      assert Flat(ws)[p] == ws[p / 64][p % 64];
      if p / 64 == id { assert p % 64 == p - 64 * id; }
    }
  }

  lemma OrFits(ws: seq<Word>, done: seq<bool>, id: nat, shift: nat, w: Word, chunk: seq<bool>)
    requires Holds(ws, done) && |done| == 64 * id + shift && shift < 64 && id < |ws|
    requires WordIs(w, chunk) && shift + |chunk| <= 64
    ensures Holds(OrHigh(ws, id, shift, w), done + chunk)
  {
    OrHighHolds(ws, done, id, shift, w, chunk);
  }

  lemma OrSpills(ws: seq<Word>, done: seq<bool>, id: nat, shift: nat, w: Word, chunk: seq<bool>)
    requires Holds(ws, done) && |done| == 64 * id + shift && 0 < shift < 64 && id + 1 < |ws|
    requires WordIs(w, chunk) && shift + |chunk| > 64
    ensures Holds(OrLow(OrHigh(ws, id, shift, w), id + 1, shift, w), done + chunk)
  {
    OrHighHolds(ws, done, id, shift, w, chunk);
    var mid := OrHigh(ws, id, shift, w);
    var ws' := OrLow(mid, id + 1, shift, w);
    forall p | 0 <= p < 64 * |ws|
      ensures Flat(ws')[p] == if p < |done| then done[p] else p - |done| < |chunk| && chunk[p - |done|]
    {
      assert Flat(ws')[p] == ws'[p / 64][p % 64];
      assert Flat(mid)[p] == mid[p / 64][p % 64];
      if p / 64 == id + 1 { assert p % 64 == p - 64 * (id + 1); }
    }
  }

  /** The 64 bits of word `word` of a level, as they stand in that level's bit string. */
  lemma LevelWord(ws: seq<Word>, b: seq<bool>, word: nat)
    requires Holds(ws, b) && 64 * word < |b|
    ensures word < |ws| && WordIs(ws[word], b[64 * word..if 64 * word + 64 <= |b| then 64 * word + 64 else |b|])
  {
    var hi := if 64 * word + 64 <= |b| then 64 * word + 64 else |b|;
    forall t | 0 <= t < 64
      ensures ws[word][t] == (t < hi - 64 * word && b[64 * word..hi][t])
    {
      assert Flat(ws)[64 * word + t] == ws[word][t];
    }
  }

  /** One complete word, split over two output words unless the shift is zero. */
  method ConcatenateWord(bits: array<Word>, level: seq<Word>, word: nat, wordId0: nat, bitShift: nat,
                         ghost b: seq<bool>, ghost done: seq<bool>)
    returns (wordId: nat)
    requires Holds(level, b) && 64 * word + 64 <= |b|
    requires |done| == 64 * wordId0 + bitShift && bitShift < 64
    requires |done| + 64 <= 64 * bits.Length && Holds(bits[..], done)
    modifies bits
    ensures wordId == wordId0 + 1
    ensures Holds(bits[..], done + b[64 * word..64 * word + 64])
  {
    hide Ones, Flat, Or, Shr, Shl, Holds, WordIs;
    LevelWord(level, b, word);
    wordId := wordId0;
    ghost var was := bits[..];
    ghost var chunk := b[64 * word..64 * word + 64];
    bits[wordId] := Or(bits[wordId], Shr(level[word], bitShift));
    assert bits[..] == OrHigh(was, wordId0, bitShift, level[word]);
    wordId := wordId + 1;
    if bitShift > 0 {
      bits[wordId] := Or(bits[wordId], Shl(level[word], 64 - bitShift));
      assert bits[..] == OrLow(OrHigh(was, wordId0, bitShift, level[word]), wordId0 + 1, bitShift, level[word]);
      OrSpills(was, done, wordId0, bitShift, level[word], chunk);
    } else {
      OrFits(was, done, wordId0, bitShift, level[word], chunk);
    }
  }

  /** The bits of a level beyond its last complete word. */
  method ConcatenateRest(bits: array<Word>, lastWord: Word, bitsRemain: nat, wordId0: nat, bitShift0: nat,
                         ghost chunk: seq<bool>, ghost done: seq<bool>)
    returns (wordId: nat, bitShift: nat)
    requires 0 < bitsRemain == |chunk| < 64 && WordIs(lastWord, chunk)
    requires |done| == 64 * wordId0 + bitShift0 && bitShift0 < 64
    requires |done| + |chunk| <= 64 * bits.Length && Holds(bits[..], done)
    modifies bits
    ensures |done| + |chunk| == 64 * wordId + bitShift && bitShift < 64
    ensures Holds(bits[..], done + chunk)
  {
    hide Ones, Flat, Or, Shr, Shl, Holds, WordIs;
    wordId, bitShift := wordId0, bitShift0;
    ghost var was := bits[..];
    bits[wordId] := Or(bits[wordId], Shr(lastWord, bitShift));
    assert bits[..] == OrHigh(was, wordId0, bitShift0, lastWord);
    if bitShift + bitsRemain < 64 {
      bitShift := bitShift + bitsRemain;
      OrFits(was, done, wordId0, bitShift0, lastWord, chunk);
    } else if bitShift + bitsRemain == 64 {
      wordId := wordId + 1;
      bitShift := 0;
      OrFits(was, done, wordId0, bitShift0, lastWord, chunk);
    } else {
      wordId := wordId + 1;
      bits[wordId] := Or(bits[wordId], Shl(lastWord, 64 - bitShift));
      assert bits[..] == OrLow(OrHigh(was, wordId0, bitShift0, lastWord), wordId0 + 1, bitShift0, lastWord);
      OrSpills(was, done, wordId0, bitShift0, lastWord, chunk);
      bitShift := bitShift + bitsRemain - 64;
    }
  }

  /** One level: its complete words one by one, then what is left over. */
  method ConcatenateLevel(bits: array<Word>, level: seq<Word>, numBits: nat, wordId0: nat, bitShift0: nat,
                          ghost b: seq<bool>, ghost done: seq<bool>)
    returns (wordId: nat, bitShift: nat)
    requires numBits == |b| && Holds(level, b)
    requires |done| == 64 * wordId0 + bitShift0 && bitShift0 < 64
    requires |done| + |b| <= 64 * bits.Length && Holds(bits[..], done)
    modifies bits
    ensures |done| + |b| == 64 * wordId + bitShift && bitShift < 64
    ensures Holds(bits[..], done + b)
  {
    hide Ones, Flat, Or, Shr, Shl, Holds, WordIs;
    wordId, bitShift := wordId0, bitShift0;
    var numCompleteWords := numBits / 64;
    assert done + b[..0] == done;
    for word := 0 to numCompleteWords
      invariant wordId == wordId0 + word && bitShift == bitShift0
      invariant Holds(bits[..], done + b[..64 * word])
    {
      wordId := ConcatenateWord(bits, level, word, wordId, bitShift, b, done + b[..64 * word]);
      assert done + b[..64 * word] + b[64 * word..64 * word + 64] == done + b[..64 * (word + 1)];
    }
    var bitsRemain := numBits - numCompleteWords * 64;
    ghost var sofar, chunk := done + b[..64 * numCompleteWords], b[64 * numCompleteWords..];
    assert sofar + chunk == done + b;
    if bitsRemain > 0 {
      LevelWord(level, b, numCompleteWords);
      assert chunk == b[64 * numCompleteWords..|b|];
      wordId, bitShift := ConcatenateRest(bits, level[numCompleteWords], bitsRemain, wordId, bitShift, chunk, sofar);
    } else {
      assert sofar == done + b;
    }
  }

  /** Every level in turn; empty levels are skipped. */
  method ConcatenateBitvectors(bits: array<Word>, levels: seq<seq<Word>>, numBitsPerLevel: seq<nat>,
                               start: nat, end: nat, ghost bs: seq<seq<bool>>)
    requires LevelsHold(levels, numBitsPerLevel, bs, start, end)
    requires bits.Length == WordsFor(|Cat(bs, start, end)|)
    requires forall i :: 0 <= i < bits.Length ==> bits[i] == Zero()
    modifies bits
    ensures Holds(bits[..], Cat(bs, start, end))
  {
    var bitShift, wordId := 0, 0;
    assert Holds(bits[..], []);
    hide Ones, Flat, Holds;
    for level := start to end
      invariant |Cat(bs, start, level)| == 64 * wordId + bitShift && bitShift < 64
      invariant Holds(bits[..], Cat(bs, start, level))
    {
      CatLength(bs, start, level + 1, end);
      if numBitsPerLevel[level] == 0 {
        assert Cat(bs, start, level + 1) == Cat(bs, start, level);
        continue;
      }
      wordId, bitShift := ConcatenateLevel(bits, levels[level], numBitsPerLevel[level], wordId, bitShift,
                                           bs[level], Cat(bs, start, level));
    }
  }

  /** The constructor; an end level of zero stands for all levels. */
  method MakeBitvector(levels: seq<seq<Word>>, numBitsPerLevel: seq<nat>, start: nat, endLevel: nat,
                       ghost bs: seq<seq<bool>>)
    returns (bv: Bitvector)
    requires LevelsHold(levels, numBitsPerLevel, bs, start, if endLevel == 0 then |levels| else endLevel)
    ensures bv.Represents(Cat(bs, start, if endLevel == 0 then |levels| else endLevel))
  {
    var end := if endLevel == 0 then |levels| else endLevel;
    var numBits := TotalNumBits(numBitsPerLevel, start, end, levels, bs);
    var bits := new Word[WordsFor(numBits)](_ => Zero());
    ConcatenateBitvectors(bits, levels, numBitsPerLevel, start, end, bs);
    bv := Bitvector(numBits, bits[..]);
  }
}
