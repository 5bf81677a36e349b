// Span queue bins (segment.c, mi_slice_bin8) and the queue sizes of init.c.
module SliceBins {
  import opened Base

  const SLICES_PER_SEGMENT: nat := 1024
  const BIN_MAX: nat := 35

  // The slice_count of each span queue.
  const BIN_SIZE: seq<nat> := [
    1, 1, 2, 3, 4, 5, 6, 7, 10,
    12, 14, 16, 20, 24, 28, 32, 40,
    48, 56, 64, 80, 96, 112, 128, 160,
    192, 224, 256, 320, 384, 448, 512, 640,
    768, 896, 1024]

  function QueueSize(bin: nat): nat
    requires bin <= BIN_MAX
  {
    BIN_SIZE[bin]
  }

  // Index of the highest set bit.
  function Bsr(x: nat): (s: nat)
    requires x > 0
    ensures Pow2(s) <= x < Pow2(s + 1)
  {
    if x == 1 then 0 else Bsr(x / 2) + 1
  }

  function SliceBin(count: nat): nat {
    if count <= 1 then count else
      var c := count - 1;
      var s := Bsr(c);
      if s <= 2 then c + 1 else (s * 4 + (c / Pow2(s - 2)) % 4) - 4
  }

  lemma {:induction false} Pow2Mono(a: nat, b: nat)
    requires a <= b
    ensures Pow2(a) <= Pow2(b)
  {
    if a < b { Pow2Mono(a, b - 1); }
  }

  lemma BsrUnique(x: nat, s: nat)
    requires x > 0 && Pow2(s) <= x < Pow2(s + 1)
    ensures Bsr(x) == s
  {
    if Bsr(x) < s { Pow2Mono(Bsr(x) + 1, s); }
    if Bsr(x) > s { Pow2Mono(s + 1, Bsr(x)); }
  }

  lemma SmallPowers()
    ensures Pow2(1) == 2 && Pow2(2) == 4 && Pow2(3) == 8 && Pow2(4) == 16
    ensures Pow2(5) == 32 && Pow2(6) == 64 && Pow2(7) == 128
  {
    assert Pow2(0) == 1;
  }

  // Four bins for each power of two from 8 up.
  lemma BinSize(s: nat, r: nat)
    requires 3 <= s <= 9 && r < 4
    ensures QueueSize(4 * s - 4 + r) == (5 + r) * Pow2(s - 2)
    ensures 4 * s - 5 + r > 7 ==> QueueSize(4 * s - 5 + r) == (4 + r) * Pow2(s - 2)
  {
    hide QueueSize;
    SmallPowers();
    hide Pow2;
    var p := Pow2(s - 2);
    if s <= 5 { LowSizes(s, r, p); } else { HighSizes(s, r, p); }
  }

  lemma LowSizes(s: nat, r: nat, p: nat)
    requires 3 <= s <= 5 && r < 4 && p == if s == 3 then 2 else if s == 4 then 4 else 8
    ensures QueueSize(4 * s - 4 + r) == (5 + r) * p
    ensures 4 * s - 5 + r > 7 ==> QueueSize(4 * s - 5 + r) == (4 + r) * p
  {}

  lemma HighSizes(s: nat, r: nat, p: nat)
    requires 6 <= s <= 9 && r < 4 && p == if s == 6 then 16 else if s == 7 then 32 else if s == 8 then 64 else 128
    ensures QueueSize(4 * s - 4 + r) == (5 + r) * p
    ensures QueueSize(4 * s - 5 + r) == (4 + r) * p
  {}

  lemma Log2(c: nat) returns (s: nat)
    requires 8 <= c < SLICES_PER_SEGMENT
    ensures 3 <= s <= 9 && Pow2(s) <= c < Pow2(s + 1) && Bsr(c) == s
  {
    s := Bsr(c);
    assert Pow2(3) == 8 && Pow2(10) == 1024;
    if s < 3 { Pow2Mono(s + 1, 3); }
    if s > 9 { Pow2Mono(10, s); }
  }

  lemma MulOrder(p: nat, a: nat, b: nat)
    requires a <= b
    ensures p * a <= p * b
  {}

  lemma Quotient(c: nat, s: nat) returns (r: nat)
    requires s >= 2 && Pow2(s) <= c < Pow2(s + 1)
    ensures r < 4 && c / Pow2(s - 2) == 4 + r && (4 + r) * Pow2(s - 2) <= c < (5 + r) * Pow2(s - 2)
  {
    var p := Pow2(s - 2);
    assert Pow2(s - 1) == 2 * p && Pow2(s) == 4 * p && Pow2(s + 1) == 8 * p;
    hide Pow2;
    assert c == p * (c / p) + c % p;
    var k := c / p;
    if k < 4 { MulOrder(p, k, 3); }
    if k > 7 { MulOrder(p, 8, k); }
    r := k - 4;
  }

  // A bin holds exactly the counts above the previous bin's size, up to its own.
  lemma BinRange(count: nat)
    requires 0 < count <= SLICES_PER_SEGMENT
    ensures 0 < SliceBin(count) <= BIN_MAX
    ensures count <= QueueSize(SliceBin(count))
    ensures SliceBin(count) > 1 ==> QueueSize(SliceBin(count) - 1) < count
  {
    if count <= 8 {
      SmallBin(count);
      SmallSize(count);
    } else {
      hide QueueSize, SliceBin, Pow2;
      var s, r := BigBin(count);
      BinSize(s, r);
      SmallSize(8);
    }
  }

  lemma BigBin(count: nat) returns (s: nat, r: nat)
    requires 8 < count <= SLICES_PER_SEGMENT
    ensures 3 <= s <= 9 && r < 4 && SliceBin(count) == 4 * s - 4 + r
    ensures (4 + r) * Pow2(s - 2) < count <= (5 + r) * Pow2(s - 2)
  {
    var c := count - 1;
    s := Log2(c);
    hide SliceBin;
    r := Quotient(c, s);
    hide Pow2;
    BigBinValue(count, s, r);
  }

  lemma BigBinValue(count: nat, s: nat, r: nat)
    requires count > 8 && Bsr(count - 1) == s >= 3 && r < 4 && (count - 1) / Pow2(s - 2) == 4 + r
    ensures SliceBin(count) == 4 * s - 4 + r
  {
    hide Pow2, Bsr;
  }

  lemma SmallSize(bin: nat)
    requires 0 < bin <= 8
    ensures bin <= QueueSize(bin) && (bin > 1 ==> QueueSize(bin - 1) < bin)
    ensures QueueSize(7) == 7
  {}

  lemma SmallBin(count: nat)
    requires 0 < count <= 8
    ensures SliceBin(count) == count
  {
    if count > 1 {
      assert Pow2(0) == 1 && Pow2(1) == 2 && Pow2(2) == 4 && Pow2(3) == 8;
      BsrUnique(count - 1, if count < 3 then 0 else if count < 5 then 1 else 2);
    }
  }

  lemma NextSize(bin: nat)
    requires bin < BIN_MAX
    ensures QueueSize(bin) <= QueueSize(bin + 1)
  {}

  lemma BinSizesGrow(i: nat, j: nat)
    requires 0 < i <= j <= BIN_MAX
    ensures QueueSize(i) <= QueueSize(j)
    decreases j - i
  {
    if i < j {
      hide QueueSize;
      BinSizesGrow(i, j - 1);
      NextSize(j - 1);
    }
  }

  // A larger count never goes to a lower bin.
  lemma BinMonotone(a: nat, b: nat)
    requires a <= b <= SLICES_PER_SEGMENT
    ensures SliceBin(a) <= SliceBin(b) <= BIN_MAX
  {
    if b > 0 { BinRange(b); }
    if a > 0 {
      BinRange(a);
      hide SliceBin, QueueSize;
      if SliceBin(b) < SliceBin(a) { BinSizesGrow(SliceBin(b), SliceBin(a) - 1); }
    }
  }
}
