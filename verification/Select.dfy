/**
 Select with a table of sampled answers (include/select.hpp).
 */
module Select {
  import opened Bits
  import opened Words
  import opened Levels
  import opened Bitvectors
  import opened Rank

  /** Entry i > 0 of the table is the position of the (i * interval)-th set bit. */
  ghost predicate Samples(lut: seq<nat>, b: seq<bool>, interval: nat) {
    0 < |lut| && lut[0] == 0 && forall i :: 1 <= i < |lut| ==> IsNth(b, i * interval, lut[i])
  }

  /** Where a rank falls relative to the sampled ranks. */
  function SampleIndex(rank: nat, interval: nat): nat
    requires interval > 0
  {
    rank / interval
  }

  lemma SampleIndexBounds(rank: nat, interval: nat)
    requires interval > 0
    ensures SampleIndex(rank, interval) * interval + rank % interval == rank
    ensures SampleIndex(rank, interval) * interval <= rank < (SampleIndex(rank, interval) + 1) * interval
  {
    assert rank == interval * (rank / interval) + rank % interval;
  }

  lemma SampleIndexUnique(rank: nat, interval: nat, i: nat)
    requires interval > 0 && i * interval <= rank < (i + 1) * interval
    ensures i == SampleIndex(rank, interval)
  {
    assert rank - i * interval < interval;
    ModUnique(rank, interval, i, rank - i * interval);
  }

  /** word << offset >> offset keeps the bits from `offset` on. */
  function TailWord(w: Word, offset: nat): Word
    requires offset < 64
  {
    Shr(Shl(w, offset), offset)
  }

  lemma TailWordOnes(ws: seq<Word>, id: nat, offset: nat, m: nat)
    requires id < |ws| && offset < 64 && offset <= m <= 64
    ensures Ones(TailWord(ws[id], offset), m) == Ones(Flat(ws), 64 * id + m) - Ones(Flat(ws), 64 * id + offset)
  {
    hide TailWord, Ones, Flat;
    TailWordStarts(ws[id], offset);
    forall p | 0 <= p < 64
      ensures Flat(ws)[64 * id + p] == ws[id][p]
    {
      FlatAt(ws, id, p);
    }
    TailOnes(TailWord(ws[id], offset), Flat(ws), 64 * id, offset, m);
  }

  /** A word that is zero before `offset` and a copy of `b` from `base` on after it. */
  lemma TailOnes(w: Word, b: seq<bool>, base: nat, offset: nat, m: nat)
    requires offset <= m <= 64 && base + 64 <= |b|
    requires forall p :: 0 <= p < offset ==> !w[p]
    requires forall p :: offset <= p < m ==> w[p] == b[base + p]
    ensures Ones(w, m) == Ones(b, base + m) - Ones(b, base + offset)
  {
    hide Ones;
    assert Ones(w, 0) == 0 by { NoOnes(w); }
    OnesZero(w, 0, offset);
    OnesWindow(w, offset, b, base + offset, m - offset);
  }

  lemma NoOnes(b: seq<bool>)
    ensures Ones(b, 0) == 0
  {
  }

  lemma FlatAt(ws: seq<Word>, id: nat, i: nat)
    requires id < |ws| && i < 64
    ensures Flat(ws)[64 * id + i] == ws[id][i]
  {
  }

  lemma TailWordStarts(w: Word, offset: nat)
    requires offset < 64
    ensures forall i :: 0 <= i < 64 ==> TailWord(w, offset)[i] == (i >= offset && w[i])
  {
  }

  lemma TailWordNth(ws: seq<Word>, id: nat, offset: nat, k: nat, p: nat)
    requires id < |ws| && offset < 64 && k > 0 && IsNth(TailWord(ws[id], offset), k, p)
    ensures IsNth(Flat(ws), Ones(Flat(ws), 64 * id + offset) + k, 64 * id + p)
  {
    hide TailWord, Flat;
    TailWordStarts(ws[id], offset);
    FlatAt(ws, id, p);
    TailWordOnes(ws, id, offset, p + 1);
    assert TailWord(ws[id], offset)[p] == Flat(ws)[64 * id + p];
  }

  lemma HoldsNth(ws: seq<Word>, b: seq<bool>, k: nat, p: nat)
    requires Holds(ws, b) && IsNth(Flat(ws), k, p)
    ensures IsNth(b, k, p)
  {
    HoldsOnes(ws, b, p + 1);
  }

  datatype BitvectorSelect = BitvectorSelect(bv: Bitvector, sampleInterval: nat, numOnes: nat, selectLut: seq<nat>) {

    ghost predicate Represents(b: seq<bool>) {
      bv.Represents(b) && sampleInterval > 0 && (|b| > 0 ==> b[0]) &&
      numOnes == Ones(b, |b|) &&
      |selectLut| == SampleIndex(numOnes, sampleInterval) + 1 && Samples(selectLut, b, sampleInterval)
    }

    /** The sample to start from, and how many more set bits are needed after it. */
    lemma LocateSample(rank: nat, b: seq<bool>, lutIdx: nat, rankLeft: nat)
      requires Represents(b) && 1 <= rank <= numOnes
      requires lutIdx == SampleIndex(rank, sampleInterval)
      requires rankLeft + (if lutIdx == 0 then 1 else 0) == rank % sampleInterval
      ensures lutIdx < |selectLut| && IsNth(b, rank - rankLeft, selectLut[lutIdx])
    {
      hide Ones;
      SampleIndexBounds(rank, sampleInterval);
      QuotientMono(rank, numOnes, sampleInterval);
      if lutIdx == 0 { FirstIsNth(b); }
    }

    /** The position of the `rank`-th set bit. */
    method Select(rank: nat, ghost b: seq<bool>) returns (r: nat)
      requires Represents(b) && 1 <= rank <= numOnes
      ensures IsNth(b, rank, r)
    {
      hide Ones, Flat, Samples, SampleIndex, Holds;
      var lutIdx := SampleIndex(rank, sampleInterval);
      var rankLeft := rank % sampleInterval;
      SampleIndexBounds(rank, sampleInterval);
      if lutIdx == 0 {
        rankLeft := rankLeft - 1;
      }
      LocateSample(rank, b, lutIdx, rankLeft);
      var pos := selectLut[lutIdx];
      if rankLeft == 0 {
        return pos;
      }
      r := ScanFrom(pos, rankLeft, rank, b);
    }

    /** From a known set bit, scan word by word for the `rankLeft`-th one after it. */
    method ScanFrom(pos: nat, rankLeft0: nat, ghost rank: nat, ghost b: seq<bool>) returns (r: nat)
      requires bv.Represents(b) && 1 <= rankLeft0 < rank <= Ones(b, |b|) && IsNth(b, rank - rankLeft0, pos)
      ensures IsNth(b, rank, r)
    {
      hide Ones, Flat, Holds, TailWord;
      ghost var flat := Flat(bv.bits);
      MoreAhead(pos, rank, b);
      var rankLeft := rankLeft0;
      var wordId := pos / 64;
      var offset := pos % 64;
      if offset == 63 {
        wordId := wordId + 1;
        offset := 0;
      } else {
        offset := offset + 1;
      }
      assert 64 * wordId + offset == pos + 1;
      var word := TailWord(bv.bits[wordId], offset);
      var onesCountInWord := Popcount(word);
      ghost var skip: nat := offset;
      TailWordOnes(bv.bits, wordId, offset, 64);
      while onesCountInWord < rankLeft
        invariant wordId < |bv.bits| && skip < 64 && word == TailWord(bv.bits[wordId], skip)
        invariant onesCountInWord == Popcount(word) == Ones(flat, 64 * wordId + 64) - Ones(flat, 64 * wordId + skip)
        invariant 1 <= rankLeft && Ones(flat, 64 * wordId + skip) + rankLeft == rank <= Ones(flat, 64 * |bv.bits|)
        decreases |bv.bits| - wordId
      {
        wordId := wordId + 1;
        assert 64 * wordId == 64 * (wordId - 1) + 64;
        word := bv.bits[wordId];
        rankLeft := rankLeft - onesCountInWord;
        onesCountInWord := Popcount(word);
        skip := 0;
        WholeWord(bv.bits, wordId);
      }
      var inWord := Select64PopcountSearch(word, rankLeft);
      TailWordNth(bv.bits, wordId, skip, rankLeft, inWord);
      HoldsNth(bv.bits, b, rank, 64 * wordId + inWord);
      r := 64 * wordId + inWord;
    }

    lemma MoreAhead(pos: nat, rank: nat, b: seq<bool>)
      requires bv.Represents(b) && pos < |b| && Ones(b, pos + 1) < rank <= Ones(b, |b|)
      ensures pos + 1 < |b| && (pos + 1) / 64 < |bv.bits|
      ensures Ones(Flat(bv.bits), pos + 1) == Ones(b, pos + 1)
      ensures rank <= Ones(Flat(bv.bits), 64 * |bv.bits|)
    {
      HoldsOnes(bv.bits, b, pos + 1);
      HoldsOnesBeyond(bv.bits, b, 64 * |bv.bits|);
    }
  }

  lemma FirstIsNth(b: seq<bool>)
    requires |b| > 0 && b[0]
    ensures IsNth(b, 1, 0)
  {
    assert Ones(b, 0) == 0;
  }

  lemma WholeWord(ws: seq<Word>, id: nat)
    requires id < |ws|
    ensures TailWord(ws[id], 0) == ws[id]
    ensures Popcount(ws[id]) == Ones(Flat(ws), 64 * id + 64) - Ones(Flat(ws), 64 * id + 0)
  {
    hide Ones, Flat, TailWord;
    TailWordStarts(ws[id], 0);
    assert TailWord(ws[id], 0) == ws[id];
    FlatOnes(ws, id, 64);
  }

  /** One more sample: the next multiple of the interval lies in word `id`. */
  method NextSample(bv: Bitvector, id: nat, diff: nat, interval: nat, lut: seq<nat>, ghost b: seq<bool>)
    returns (next: seq<nat>)
    requires bv.Represents(b) && id < |bv.bits| && interval > 0 && Samples(lut, b, interval)
    requires 1 <= diff <= Popcount(bv.bits[id]) && Ones(Flat(bv.bits), 64 * id) + diff == |lut| * interval
    ensures |next| == |lut| + 1 && Samples(next, b, interval)
  {
    hide Ones, Flat, Holds, TailWord;
    var inWord := Select64PopcountSearch(bv.bits[id], diff);
    WholeWord(bv.bits, id);
    TailWordNth(bv.bits, id, 0, diff, inWord);
    HoldsNth(bv.bits, b, |lut| * interval, 64 * id + inWord);
    next := lut + [64 * id + inWord];
  }

  /** Every sample that falls into word `id`. */
  method SampleWord(bv: Bitvector, id: nat, interval: nat, lut: seq<nat>, samplingOnes: nat, cumu: nat,
                    ghost b: seq<bool>)
    returns (next: seq<nat>, nextSampling: nat)
    requires bv.Represents(b) && id < |bv.bits| && interval > 0 && Samples(lut, b, interval)
    requires samplingOnes == |lut| * interval && cumu == Ones(Flat(bv.bits), 64 * id)
    requires samplingOnes - interval <= cumu < samplingOnes
    ensures Samples(next, b, interval) && nextSampling == |next| * interval
    ensures nextSampling - interval <= cumu + Popcount(bv.bits[id]) < nextSampling
  {
    hide Ones, Flat, Holds, Samples;
    next, nextSampling := lut, samplingOnes;
    var numOnesInWord := Popcount(bv.bits[id]);
    while nextSampling <= cumu + numOnesInWord
      invariant Samples(next, b, interval) && nextSampling == |next| * interval
      invariant nextSampling - interval <= cumu + numOnesInWord && cumu < nextSampling
      decreases cumu + numOnesInWord - nextSampling
    {
      ghost var n := |next|;
      next := NextSample(bv, id, nextSampling - cumu, interval, next, b);
      assert (n + 1) * interval == n * interval + interval;
      nextSampling := nextSampling + interval;
    }
  }

  method InitSelectLut(bv: Bitvector, interval: nat, ghost b: seq<bool>) returns (selectLut: seq<nat>, numOnes: nat)
    requires bv.Represents(b) && interval > 0 && (|b| > 0 ==> b[0])
    ensures numOnes == Ones(b, |b|)
    ensures |selectLut| == SampleIndex(numOnes, interval) + 1 && Samples(selectLut, b, interval)
    ensures (|selectLut| - 1) * interval <= numOnes < |selectLut| * interval
  {
    var numWords := bv.NumWords();
    selectLut := [0];
    var samplingOnes, cumuOnesUptoWord := interval, 0;
    hide Ones, Flat, Holds, Samples, SampleIndex;
    assert Samples(selectLut, b, interval) &&
      Ones(Flat(bv.bits), 0) == 0 by { SamplesStart(b, interval, Flat(bv.bits)); }
    for i := 0 to numWords
      invariant Samples(selectLut, b, interval) && samplingOnes == |selectLut| * interval
      invariant cumuOnesUptoWord == Ones(Flat(bv.bits), 64 * i)
      invariant samplingOnes - interval <= cumuOnesUptoWord < samplingOnes
    {
      selectLut, samplingOnes := SampleWord(bv, i, interval, selectLut, samplingOnes, cumuOnesUptoWord, b);
      WholeWord(bv.bits, i);
      assert 64 * (i + 1) == 64 * i + 64;
      cumuOnesUptoWord := cumuOnesUptoWord + Popcount(bv.bits[i]);
    }
    numOnes := cumuOnesUptoWord;
    HoldsOnesBeyond(bv.bits, b, 64 * numWords);
    assert (|selectLut| - 1) * interval == samplingOnes - interval;
    SampleIndexUnique(numOnes, interval, |selectLut| - 1);
  }

  lemma SamplesStart(b: seq<bool>, interval: nat, flat: seq<bool>)
    ensures Samples([0], b, interval) && Ones(flat, 0) == 0
  {
  }

  method MakeBitvectorSelect(interval: nat, levels: seq<seq<Word>>, numBitsPerLevel: seq<nat>, start: nat,
                             endLevel: nat, ghost bs: seq<seq<bool>>)
    returns (r: BitvectorSelect)
    requires interval > 0
    requires LevelsHold(levels, numBitsPerLevel, bs, start, if endLevel == 0 then |levels| else endLevel)
    requires var b := Cat(bs, start, if endLevel == 0 then |levels| else endLevel); |b| > 0 ==> b[0]
    ensures r.Represents(Cat(bs, start, if endLevel == 0 then |levels| else endLevel))
    ensures r.sampleInterval == interval
  {
    var bv := MakeBitvector(levels, numBitsPerLevel, start, endLevel, bs);
    ghost var b := Cat(bs, start, if endLevel == 0 then |levels| else endLevel);
    var lut, ones := InitSelectLut(bv, interval, b);
    r := BitvectorSelect(bv, interval, ones, lut);
  }

  /** Rank undoes select, and the answer is the only position of that rank. */
  method RankOfSelect(s: BitvectorSelect, r: BitvectorRank, rank: nat, ghost b: seq<bool>) returns (back: nat)
    requires s.Represents(b) && r.Represents(b) && 1 <= rank <= s.numOnes
    ensures back == rank
  {
    var pos := s.Select(rank, b);
    back := r.Rank(pos, b);
  }
}
