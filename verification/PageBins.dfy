// Size classes of page queues (page-queue.c, mi_bin) and their block sizes (init.c), on a 64-bit
// machine with 16-byte minimal alignment.
module PageBins {
  import opened Base
  import opened SliceBins

  const WORD: nat := 8
  const BIN_HUGE: nat := 73
  const BIN_FULL: nat := 74
  const SMALL_WSIZE_MAX: nat := 128
  const MEDIUM_OBJ_WSIZE_MAX: nat := 16384

  // Block sizes of the page queues, in words, eight to a row after the first.
  function BlockWords(bin: nat): nat
    requires bin <= BIN_FULL
  {
    if bin <= 8 then [1, 1, 2, 3, 4, 5, 6, 7, 8][bin]
    else if bin <= 16 then [10, 12, 14, 16, 20, 24, 28, 32][bin - 9]
    else if bin <= 24 then [40, 48, 56, 64, 80, 96, 112, 128][bin - 17]
    else if bin <= 32 then [160, 192, 224, 256, 320, 384, 448, 512][bin - 25]
    else if bin <= 40 then [640, 768, 896, 1024, 1280, 1536, 1792, 2048][bin - 33]
    else if bin <= 48 then [2560, 3072, 3584, 4096, 5120, 6144, 7168, 8192][bin - 41]
    else if bin <= 56 then [10240, 12288, 14336, 16384, 20480, 24576, 28672, 32768][bin - 49]
    else if bin <= 64 then [40960, 49152, 57344, 65536, 81920, 98304, 114688, 131072][bin - 57]
    else if bin <= 72 then [163840, 196608, 229376, 262144, 327680, 393216, 458752, 524288][bin - 65]
    else if bin == BIN_HUGE then MEDIUM_OBJ_WSIZE_MAX + 1 else MEDIUM_OBJ_WSIZE_MAX + 2
  }

  function WordsOf(size: nat): nat { (size + WORD - 1) / WORD }

  function BinOfWords(w: nat): nat {
    if w <= 1 then 1
    else if w <= 8 then (w + 1) / 2 * 2
    else if w > MEDIUM_OBJ_WSIZE_MAX then BIN_HUGE
    else
      var x := w - 1;
      var b := Bsr(x);
      if b < 2 then 0 else (b * 4 + (x / Pow2(b - 2)) % 4) - 3
  }

  // mi_bin
  function BinOf(size: nat): nat { BinOfWords(WordsOf(size)) }

  // ---- the block size of a bin fits its words, and that of the bin before does not

  lemma Doubles(bin: nat)
    requires 9 <= bin <= 68
    ensures BlockWords(bin + 4) == 2 * BlockWords(bin)
  {
    if
    case bin <= 16 => case 16 < bin <= 24 => case 24 < bin <= 32 => case 32 < bin <= 40 =>
    case 40 < bin <= 48 => case 48 < bin <= 56 => case 56 < bin <= 64 => case 64 < bin =>
  }

  // Four bins for each power of two.
  lemma {:induction false} FourBins(s: nat, r: nat)
    requires 3 <= s <= 18 && r < 4
    ensures BlockWords(4 * s - 3 + r) == (5 + r) * Pow2(s - 2)
    decreases s
  {
    hide BlockWords, Pow2;
    if s == 3 {
      FirstFour(r);
      PowStep(0);
    } else {
      FourBins(s - 1, r);
      Doubles(4 * (s - 1) - 3 + r);
      PowStep(s - 3);
    }
  }

  lemma FirstFour(r: nat)
    requires r < 4
    ensures BlockWords(9 + r) == (5 + r) * 2
  {}

  lemma PowStep(n: nat)
    ensures Pow2(n + 1) == 2 * Pow2(n) && Pow2(0) == 1
  {}

  lemma LogBound(c: nat) returns (s: nat)
    requires 8 <= c < MEDIUM_OBJ_WSIZE_MAX
    ensures 3 <= s <= 13 && Pow2(s) <= c < Pow2(s + 1) && Bsr(c) == s
  {
    s := Bsr(c);
    assert Pow2(3) == 8 && Pow2(7) == 128;
    assert Pow2(8) == 256 && Pow2(12) == 4096;
    assert Pow2(14) == 4 * Pow2(12);
    if s < 3 { Pow2Mono(s + 1, 3); }
    if s > 13 { Pow2Mono(14, s); }
  }

  lemma LargeBin(w: nat) returns (s: nat, r: nat)
    requires 8 < w <= MEDIUM_OBJ_WSIZE_MAX
    ensures 3 <= s <= 13 && r < 4 && BinOfWords(w) == 4 * s - 3 + r
    ensures (4 + r) * Pow2(s - 2) < w <= (5 + r) * Pow2(s - 2)
  {
    hide BinOfWords, Bsr, Pow2;
    var c := w - 1;
    s := LogBound(c);
    r := Quotient(c, s);
    LargeBinValue(w, s, r);
  }

  lemma LargeBinValue(w: nat, s: nat, r: nat)
    requires 8 < w <= MEDIUM_OBJ_WSIZE_MAX && Bsr(w - 1) == s >= 3 && r < 4 && (w - 1) / Pow2(s - 2) == 4 + r
    ensures BinOfWords(w) == 4 * s - 3 + r
  {
    hide Pow2, Bsr;
  }

  // Above eight words a bin holds the sizes after the previous bin's, up to its own.
  lemma LargeRange(w: nat)
    requires 8 < w <= MEDIUM_OBJ_WSIZE_MAX
    ensures 9 <= BinOfWords(w) <= 52
    ensures BlockWords(BinOfWords(w) - 1) < w <= BlockWords(BinOfWords(w))
  {
    hide BinOfWords, BlockWords, Pow2;
    var s, r := LargeBin(w);
    FourBins(s, r);
    if r > 0 {
      FourBins(s, r - 1);
    } else if s > 3 {
      FourBins(s - 1, 3);
      PowStep(s - 3);
    } else {
      EightWords();
    }
  }

  lemma EightWords()
    ensures BlockWords(8) == 8 && BlockWords(9) == 10
  {}

  lemma BlocksGrow(i: nat, j: nat)
    requires 0 < i <= j <= 72
    ensures BlockWords(i) <= BlockWords(j) && (i < j ==> BlockWords(i) < BlockWords(j))
    decreases j - i
  {
    if i < j {
      hide BlockWords;
      BlocksGrow(i, j - 1);
      NextBlock(j - 1);
    }
  }

  lemma NextBlock(bin: nat)
    requires 0 < bin < 72
    ensures BlockWords(bin) < BlockWords(bin + 1)
  {
    if bin > 8 {
      var r, s := (bin - 9) % 4, (bin + 3) / 4;
      LargeNext(s, r);
    }
  }

  lemma LargeNext(s: nat, r: nat)
    requires 3 <= s <= 18 && r < 4 && 4 * s - 3 + r < 72
    ensures BlockWords(4 * s - 3 + r) < BlockWords(4 * s - 3 + r + 1)
  {
    hide BlockWords;
    FourBins(s, r);
    if r < 3 { FourBins(s, r + 1); } else { FourBins(s + 1, 0); PowStep(s - 2); }
    hide Pow2;
  }

  // The bins pages really use; 3, 5 and 7 stay empty because sizes up to eight words are rounded to even.
  predicate UsedBin(bin: nat) { bin in {1, 2, 4, 6, 8} || 9 <= bin <= 52 }

  // The bin before it that is used, or 0.
  function PrevUsed(bin: nat): nat { if bin <= 1 then 0 else if bin in {4, 6, 8} then bin - 2 else bin - 1 }

  // The sizes of a used bin are an interval.
  lemma BinInterval(bin: nat, w: nat)
    requires UsedBin(bin) && 0 < w <= MEDIUM_OBJ_WSIZE_MAX
    ensures BinOfWords(w) == bin <==> (bin == 1 || BlockWords(PrevUsed(bin)) < w) && w <= BlockWords(bin)
  {
    if w <= 8 {
      SmallInterval(bin, w);
    } else {
      hide BinOfWords, BlockWords;
      LargeRange(w);
      EightWords();
      var b := BinOfWords(w);
      if bin < b {
        if bin < b - 1 { BlocksGrow(bin, b - 1); }
      } else if b < bin {
        BlocksGrow(b, PrevUsed(bin));
      }
      if bin <= 8 && bin > 0 { BlocksGrow(bin, 8); }
    }
  }

  lemma SmallInterval(bin: nat, w: nat)
    requires UsedBin(bin) && 0 < w <= 8
    ensures BinOfWords(w) == bin <==> (bin == 1 || BlockWords(PrevUsed(bin)) < w) && w <= BlockWords(bin)
  {
    if bin > 8 {
      EightWords();
      hide BlockWords;
      BlocksGrow(8, PrevUsed(bin));
    }
  }

  lemma BinUsed(w: nat)
    requires w <= MEDIUM_OBJ_WSIZE_MAX
    ensures UsedBin(BinOfWords(w))
  {
    if w > 8 { hide BinOfWords; LargeRange(w); }
  }

  // A used bin holds blocks of exactly its own size: the size is enough, and it is its own good size.
  lemma GoodSize(size: nat)
    requires 0 < size <= MEDIUM_OBJ_WSIZE_MAX * WORD
    ensures UsedBin(BinOf(size))
    ensures var good := BlockWords(BinOf(size)) * WORD; size <= good && BinOf(good) == BinOf(size)
    ensures forall smaller: nat | size <= smaller && BinOf(smaller) == BinOf(size)
      && smaller <= MEDIUM_OBJ_WSIZE_MAX * WORD ::
      smaller <= BlockWords(BinOf(size)) * WORD
  {
    var w := WordsOf(size);
    BinUsed(w);
    var bin := BinOfWords(w);
    BinInterval(bin, w);
    var good := BlockWords(bin);
    BlockMedium(bin);
    BinInterval(bin, good);
    assert WordsOf(good * WORD) == good;
    hide BinOfWords, BlockWords;
    if bin != 1 { PrevBelow(bin); }
    forall smaller: nat | size <= smaller && BinOf(smaller) == BinOf(size) && smaller <= MEDIUM_OBJ_WSIZE_MAX * WORD
      ensures smaller <= BlockWords(bin) * WORD
    {
      BinInterval(bin, WordsOf(smaller));
    }
  }

  lemma BlockMedium(bin: nat)
    requires UsedBin(bin)
    ensures 0 < BlockWords(bin) <= MEDIUM_OBJ_WSIZE_MAX
  {
    if bin >= 9 {
      FourBins(13, 3);
      hide BlockWords;
      BlocksGrow(bin, 52);
      EightWords();
      BlocksGrow(8, bin);
      assert Pow2(3) == 8 && Pow2(7) == 16 * Pow2(3) && Pow2(11) == 16 * Pow2(7);
    }
  }

  lemma PrevBelow(bin: nat)
    requires UsedBin(bin) && bin != 1
    ensures UsedBin(PrevUsed(bin)) && BlockWords(PrevUsed(bin)) < BlockWords(bin)
  {
    hide BlockWords;
    BlocksGrow(PrevUsed(bin), bin);
  }
}
