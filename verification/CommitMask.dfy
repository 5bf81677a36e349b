// Commit masks: one bit per slice over FIELDS words (mimalloc-internal.h and segment.c).
module CommitMask {
  import opened Base
  import opened Words

  const FIELDS: nat := 16
  const MASK_BITS: nat := 1024

  // ---- a mask as a set of slices

  ghost function Bits(m: seq<Word>): (r: set<nat>)
    requires |m| == FIELDS
    ensures forall i: nat :: i in r <==> i < MASK_BITS && Bit(m, i)
  {
    set i: nat | i < MASK_BITS && Bit(m, i)
  }

  // ---- whole-mask operations

  // Exactly the bits of [lo, hi) are set.
  ghost predicate RangeMask(m: seq<Word>, lo: nat, hi: nat)
    requires |m| == FIELDS
  {
    forall i: nat | i < MASK_BITS :: Bit(m, i) <==> lo <= i < hi
  }

  function Clamp(i: int): (r: nat)
    ensures r <= FIELD_BITS
  {
    if i < 0 then 0 else if i > FIELD_BITS then FIELD_BITS else i
  }

  // The words of such a mask as numbers: ((1 << count) - 1) << ofs, for the part of the range in each.
  lemma RangeValue(m: seq<Word>, lo: nat, hi: nat, f: nat)
    requires |m| == FIELDS && RangeMask(m, lo, hi) && lo <= hi && f < FIELDS
    ensures var a, b := Clamp(lo - f * FIELD_BITS), Clamp(hi - f * FIELD_BITS);
      a <= b && Value(m[f]) == (Pow2(b - a) - 1) * Pow2(a)
  {
    var a, b := Clamp(lo - f * FIELD_BITS), Clamp(hi - f * FIELD_BITS);
    forall k | 0 <= k < FIELD_BITS ensures m[f][k] <==> a <= k < b { BitAt(m, f, k); }
    assert m[f] == Block(a, b - a);
    BlockValue(a, b - a);
  }

  method CreateEmpty(cm: array<Word>)
    requires cm.Length == FIELDS
    modifies cm
    ensures Bits(cm[..]) == {} && forall k | 0 <= k < FIELDS :: cm[k] == Zero()
  {
    for i := 0 to FIELDS
      invariant forall k | 0 <= k < i :: cm[k] == Zero()
    {
      cm[i] := Zero();
    }
    NoBits(cm[..]);
  }

  lemma NoBits(m: seq<Word>)
    requires |m| == FIELDS && forall k | 0 <= k < FIELDS :: m[k] == Zero()
    ensures Bits(m) == {}
  {
    forall i: nat | i < MASK_BITS ensures !Bit(m, i) { BitSplit(FIELDS, i); }
  }

  lemma AllBits(m: seq<Word>)
    requires |m| == FIELDS && forall k | 0 <= k < FIELDS :: m[k] == Ones()
    ensures RangeMask(m, 0, MASK_BITS)
  {
    forall i: nat | i < MASK_BITS ensures Bit(m, i) { BitSplit(FIELDS, i); }
  }

  method CreateFull(cm: array<Word>)
    requires cm.Length == FIELDS
    modifies cm
    ensures RangeMask(cm[..], 0, MASK_BITS)
  {
    for i := 0 to FIELDS
      invariant forall k | 0 <= k < i :: cm[k] == Ones()
    {
      cm[i] := Ones();
    }
    AllBits(cm[..]);
  }

  method IsEmpty(cm: array<Word>) returns (r: bool)
    requires cm.Length == FIELDS
    ensures r <==> Bits(cm[..]) == {}
  {
    for i := 0 to FIELDS
      invariant forall k | 0 <= k < i :: cm[k] == Zero()
    {
      if cm[i] != Zero() {
        ghost var k :| 0 <= k < FIELD_BITS && cm[i][k];
        BitAt(cm[..], i, k);
        return false;
      }
    }
    NoBits(cm[..]);
    return true;
  }

  method IsFull(cm: array<Word>) returns (r: bool)
    requires cm.Length == FIELDS
    ensures r <==> RangeMask(cm[..], 0, MASK_BITS)
  {
    hide Bit, RangeMask;
    for i := 0 to FIELDS
      invariant forall k | 0 <= k < i :: cm[k] == Ones()
    {
      if cm[i] != Ones() {
        MissingBit(cm[..], i);
        return false;
      }
    }
    AllBits(cm[..]);
    return true;
  }

  lemma MissingBit(m: seq<Word>, i: nat)
    requires |m| == FIELDS && i < FIELDS && m[i] != Ones()
    ensures !RangeMask(m, 0, MASK_BITS)
  {
    var k :| 0 <= k < FIELD_BITS && !m[i][k];
    BitAt(m, i, k);
  }

  method AllSet(commit: array<Word>, cm: array<Word>) returns (r: bool)
    requires commit.Length == cm.Length == FIELDS
    ensures r <==> Bits(cm[..]) <= Bits(commit[..])
  {
    for i := 0 to FIELDS
      invariant forall k | 0 <= k < i :: And(commit[k], cm[k]) == cm[k]
    {
      if And(commit[i], cm[i]) != cm[i] {
        ghost var k :| 0 <= k < FIELD_BITS && And(commit[i], cm[i])[k] != cm[i][k];
        BitAt(cm[..], i, k);
        BitAt(commit[..], i, k);
        return false;
      }
    }
    forall i: nat | i < MASK_BITS && Bit(cm[..], i) ensures Bit(commit[..], i) {
      BitSplit(FIELDS, i);
      assert And(commit[i / FIELD_BITS], cm[i / FIELD_BITS])[i % FIELD_BITS] == cm[i / FIELD_BITS][i % FIELD_BITS];
    }
    return true;
  }

  method AnySet(commit: array<Word>, cm: array<Word>) returns (r: bool)
    requires commit.Length == cm.Length == FIELDS
    ensures r <==> Bits(cm[..]) * Bits(commit[..]) != {}
  {
    for i := 0 to FIELDS
      invariant forall k | 0 <= k < i :: And(commit[k], cm[k]) == Zero()
    {
      if And(commit[i], cm[i]) != Zero() {
        ghost var k :| 0 <= k < FIELD_BITS && And(commit[i], cm[i])[k];
        BitAt(cm[..], i, k);
        BitAt(commit[..], i, k);
        assert i * FIELD_BITS + k in Bits(cm[..]) * Bits(commit[..]);
        return true;
      }
    }
    forall i: nat | i < MASK_BITS ensures !(Bit(cm[..], i) && Bit(commit[..], i)) {
      BitSplit(FIELDS, i);
      assert And(commit[i / FIELD_BITS], cm[i / FIELD_BITS])[i % FIELD_BITS] == false;
    }
    return false;
  }

  method CreateIntersect(commit: array<Word>, cm: array<Word>, res: array<Word>)
    requires commit.Length == cm.Length == res.Length == FIELDS && res != commit && res != cm
    modifies res
    ensures Bits(res[..]) == Bits(commit[..]) * Bits(cm[..])
  {
    for i := 0 to FIELDS
      invariant forall k | 0 <= k < i :: res[k] == And(commit[k], cm[k])
    {
      res[i] := And(commit[i], cm[i]);
    }
    forall i: nat | i < MASK_BITS
      ensures Bit(res[..], i) <==> Bit(commit[..], i) && Bit(cm[..], i)
    {
      BitSplit(FIELDS, i);
    }
  }

  method Clear(res: array<Word>, cm: array<Word>)
    requires res.Length == cm.Length == FIELDS && res != cm
    modifies res
    ensures Bits(res[..]) == old(Bits(res[..])) - Bits(cm[..])
  {
    ghost var m := res[..];
    for i := 0 to FIELDS
      invariant forall k | 0 <= k < FIELDS :: res[k] == if k < i then AndNot(m[k], cm[k]) else m[k]
    {
      res[i] := AndNot(res[i], cm[i]);
    }
    forall i: nat | i < MASK_BITS ensures Bit(res[..], i) <==> Bit(m, i) && !Bit(cm[..], i) { BitSplit(FIELDS, i); }
  }

  method Set(res: array<Word>, cm: array<Word>)
    requires res.Length == cm.Length == FIELDS && res != cm
    modifies res
    ensures Bits(res[..]) == old(Bits(res[..])) + Bits(cm[..])
  {
    ghost var m := res[..];
    for i := 0 to FIELDS
      invariant forall k | 0 <= k < FIELDS :: res[k] == if k < i then Or(m[k], cm[k]) else m[k]
    {
      res[i] := Or(res[i], cm[i]);
    }
    forall i: nat | i < MASK_BITS ensures Bit(res[..], i) <==> Bit(m, i) || Bit(cm[..], i) { BitSplit(FIELDS, i); }
  }

  lemma EmptyRange(m: seq<Word>, lo: nat)
    requires |m| == FIELDS && Bits(m) == {}
    ensures RangeMask(m, lo, lo)
  {
    forall i: nat | i < MASK_BITS ensures !Bit(m, i) { assert i !in Bits(m); }
  }

  // The mask of `bitcount` bits from `bitidx`, across fields.
  method Create(bitidx: nat, bitcount: nat, cm: array<Word>)
    requires cm.Length == FIELDS && bitidx < MASK_BITS && bitidx + bitcount <= MASK_BITS
    modifies cm
    ensures RangeMask(cm[..], bitidx, bitidx + bitcount)
  {
    hide Bit, RangeMask, Block;
    if bitcount == MASK_BITS {
      CreateFull(cm);
    } else if bitcount == 0 {
      CreateEmpty(cm);
      EmptyRange(cm[..], bitidx);
    } else {
      CreateEmpty(cm);
      EmptyRange(cm[..], bitidx);
      var i: nat, ofs: nat, left: nat := bitidx / FIELD_BITS, bitidx % FIELD_BITS, bitcount;
      ghost var at: nat := bitidx;
      while left > 0
        invariant bitidx <= at && at + left == bitidx + bitcount
        invariant ofs < FIELD_BITS && (left > 0 ==> at == i * FIELD_BITS + ofs) && at <= i * FIELD_BITS + ofs
        invariant RangeMask(cm[..], bitidx, at)
        invariant forall k | i <= k < FIELDS :: cm[k] == Zero()
      {
        var avail := FIELD_BITS - ofs;
        var count := if left > avail then avail else left;
        ghost var m := cm[..];
        cm[i] := if count >= FIELD_BITS then Ones() else Block(ofs, count);
        BlockBits(m, cm[..], bitidx, i, ofs, count);
        left := left - count;
        at := at + count;
        ofs := 0;
        i := i + 1;
      }
    }
  }

  lemma BlockBits(m: seq<Word>, m': seq<Word>, lo: nat, f: nat, ofs: nat, count: nat)
    requires |m| == |m'| == FIELDS && f < FIELDS && m[f] == Zero() && 0 < count && ofs + count <= FIELD_BITS
    requires m' == m[f := if count >= FIELD_BITS then Ones() else Block(ofs, count)]
    requires RangeMask(m, lo, f * FIELD_BITS + ofs) && lo <= f * FIELD_BITS + ofs
    ensures RangeMask(m', lo, f * FIELD_BITS + ofs + count)
  {
    forall i: nat | i < MASK_BITS ensures Bit(m', i) <==> lo <= i < f * FIELD_BITS + ofs + count {
      BitSplit(FIELDS, i);
      assert Bit(m, i) <==> lo <= i < f * FIELD_BITS + ofs;
    }
  }

  // ---- runs of set bits

  // The next maximal run at or after `from`.
  ghost predicate NextRunIs(m: seq<Word>, from: nat, start: nat, count: nat)
    requires |m| == FIELDS
  {
    && from <= start && count > 0 && start + count <= MASK_BITS
    && (forall k: nat | from <= k < start :: !Bit(m, k))
    && (forall k: nat | start <= k < start + count :: Bit(m, k))
    && (start + count == MASK_BITS || !Bit(m, start + count))
  }

  ghost predicate NoneFrom(m: seq<Word>, from: nat)
    requires |m| == FIELDS
  {
    forall k: nat | from <= k < MASK_BITS :: !Bit(m, k)
  }

  ghost predicate Shifted(w: Word, mask: Word, ofs: nat) {
    forall k | 0 <= k < FIELD_BITS :: mask[k] == (k + ofs < FIELD_BITS && w[k + ofs])
  }

  // Bits [from, to) are clear when each field part of it is.
  ghost predicate Clear0(m: seq<Word>, from: nat, to: nat)
    requires |m| == FIELDS && to <= MASK_BITS
  {
    forall k: nat | from <= k < to :: !Bit(m, k)
  }

  lemma ClearOne(m: seq<Word>, from: nat, f: nat, ofs: nat)
    requires |m| == FIELDS && f < FIELDS && ofs < FIELD_BITS && Clear0(m, from, f * FIELD_BITS + ofs) && !m[f][ofs]
    ensures Clear0(m, from, f * FIELD_BITS + ofs + 1)
  {
    BitAt(m, f, ofs);
  }

  lemma ClearRest(m: seq<Word>, from: nat, f: nat, ofs: nat)
    requires |m| == FIELDS && f < FIELDS && ofs < FIELD_BITS && Clear0(m, from, f * FIELD_BITS + ofs)
      && Shr(m[f], ofs) == Zero()
    ensures Clear0(m, from, (f + 1) * FIELD_BITS)
  {
    forall k: nat | f * FIELD_BITS + ofs <= k < (f + 1) * FIELD_BITS ensures !Bit(m, k) {
      BitAt(m, f, k - f * FIELD_BITS);
      assert !Shr(m[f], ofs)[k - f * FIELD_BITS - ofs];
    }
  }

  // The first loop: the first set bit at or after idx.
  method FindOne(cm: array<Word>, idx: nat) returns (i: nat, ofs: nat, mask: Word)
    requires cm.Length == FIELDS && idx <= MASK_BITS
    ensures i <= FIELDS && ofs < FIELD_BITS
    ensures i == FIELDS ==> NoneFrom(cm[..], idx)
    ensures i < FIELDS ==> idx <= i * FIELD_BITS + ofs && Clear0(cm[..], idx, i * FIELD_BITS + ofs)
    ensures i < FIELDS ==> Shifted(cm[i], mask, ofs) && mask[0]
  {
    hide Bit;
    i, ofs, mask := idx / FIELD_BITS, idx % FIELD_BITS, Zero();
    while i < FIELDS
      invariant i <= FIELDS && ofs < FIELD_BITS && idx <= i * FIELD_BITS + ofs && (i == FIELDS ==> ofs == 0)
      invariant Clear0(cm[..], idx, i * FIELD_BITS + ofs)
    {
      mask := Shr(cm[i], ofs);
      if mask != Zero() {
        ghost var one :| 0 <= one < FIELD_BITS && mask[one];
        ghost var at := one + ofs;
        while !mask[0]
          invariant ofs <= at < FIELD_BITS && cm[i][at] && Shifted(cm[i], mask, ofs)
          invariant idx <= i * FIELD_BITS + ofs && Clear0(cm[..], idx, i * FIELD_BITS + ofs)
          decreases at - ofs
        {
          assert mask[at - ofs] && !cm[i][ofs];
          ClearOne(cm[..], idx, i, ofs);
          mask := Shr(mask, 1);
          ofs := ofs + 1;
        }
        return;
      }
      ClearRest(cm[..], idx, i, ofs);
      i := i + 1;
      ofs := 0;
    }
  }

  ghost predicate Set0(m: seq<Word>, from: nat, to: nat)
    requires |m| == FIELDS && to <= MASK_BITS
  {
    forall k: nat | from <= k < to :: Bit(m, k)
  }

  // One pass of the inner counting loop: the ones of field i from bit p on.
  method CountField(cm: array<Word>, i: nat, p: nat, mask0: Word, ghost start: nat) returns (n: nat, mask: Word)
    requires cm.Length == FIELDS && i < FIELDS && p < FIELD_BITS && Shifted(cm[i], mask0, p) && mask0[0]
    requires start <= i * FIELD_BITS + p && Set0(cm[..], start, i * FIELD_BITS + p)
    ensures n > 0 && p + n <= FIELD_BITS && !mask[0] && Set0(cm[..], start, i * FIELD_BITS + p + n)
    ensures p + n < FIELD_BITS ==> !cm[i][p + n]
  {
    hide Bit;
    mask := mask0;
    BitAt(cm[..], i, p);
    n := 1;
    mask := Shr(mask, 1);
    while mask[0]
      invariant 0 < n && p + n <= FIELD_BITS && Shifted(cm[i], mask, p + n)
      invariant Set0(cm[..], start, i * FIELD_BITS + p + n)
      decreases FIELD_BITS - n
    {
      BitAt(cm[..], i, p + n);
      n := n + 1;
      mask := Shr(mask, 1);
    }
  }

  method NextRun(cm: array<Word>, idx: nat) returns (start: nat, count: nat)
    requires cm.Length == FIELDS && idx <= MASK_BITS
    ensures count == 0 ==> start == MASK_BITS && NoneFrom(cm[..], idx)
    ensures count > 0 ==> NextRunIs(cm[..], idx, start, count)
  {
    hide Bit;
    var i: nat, ofs: nat, mask: Word := FindOne(cm, idx);
    if i >= FIELDS {
      return MASK_BITS, 0;
    }
    count := 0;
    start := i * FIELD_BITS + ofs;
    while true
      invariant i < FIELDS && ofs < FIELD_BITS && start + count == i * FIELD_BITS + ofs && mask[0]
        && Shifted(cm[i], mask, ofs)
      invariant Clear0(cm[..], idx, start) && idx <= start && Set0(cm[..], start, start + count)
      decreases MASK_BITS - count
    {
      var n: nat;
      n, mask := CountField(cm, i, ofs, mask, start);
      count := count + n;
      ofs := ofs + n;
      if (start + count) % FIELD_BITS == 0 {
        assert ofs == FIELD_BITS;
        i := i + 1;
        if i >= FIELDS { break; }
        mask := cm[i];
        ofs := 0;
      }
      if !mask[0] {
        BitAt(cm[..], i, ofs);
        break;
      }
    }
  }

  // ---- counting

  // The number of bits set below n.
  ghost function Count(m: seq<Word>, n: nat): nat
    requires |m| == FIELDS && n <= MASK_BITS
  {
    if n == 0 then 0 else Count(m, n - 1) + if Bit(m, n - 1) then 1 else 0
  }

  ghost function BitsBelow(m: seq<Word>, n: nat): set<nat>
    requires |m| == FIELDS && n <= MASK_BITS
  {
    set i: nat | i < n && Bit(m, i)
  }

  lemma {:induction false} CountBelow(m: seq<Word>, n: nat)
    requires |m| == FIELDS && n <= MASK_BITS
    ensures Count(m, n) == |BitsBelow(m, n)|
  {
    hide Bit;
    if n > 0 {
      CountBelow(m, n - 1);
      assert BitsBelow(m, n) == BitsBelow(m, n - 1) + if Bit(m, n - 1) then {n - 1} else {};
    }
  }

  lemma {:induction false} CountClear(m: seq<Word>, lo: nat, hi: nat)
    requires |m| == FIELDS && lo <= hi <= MASK_BITS && forall k: nat | lo <= k < hi :: !Bit(m, k)
    ensures Count(m, hi) == Count(m, lo)
    decreases hi
  {
    hide Bit;
    if lo < hi { CountClear(m, lo, hi - 1); }
  }

  lemma {:induction false} CountSet(m: seq<Word>, lo: nat, hi: nat)
    requires |m| == FIELDS && lo <= hi <= MASK_BITS && forall k: nat | lo <= k < hi :: Bit(m, k)
    ensures Count(m, hi) == Count(m, lo) + (hi - lo)
    decreases hi
  {
    hide Bit;
    if lo < hi { CountSet(m, lo, hi - 1); }
  }

  // The rest of a field is clear once its shifted word is zero.
  lemma RestClear(m: seq<Word>, f: nat, j: nat)
    requires |m| == FIELDS && f < FIELDS && j <= FIELD_BITS && Shr(m[f], j) == Zero()
    ensures forall k: nat | f * FIELD_BITS + j <= k < (f + 1) * FIELD_BITS :: !Bit(m, k)
  {
    forall k: nat | f * FIELD_BITS + j <= k < (f + 1) * FIELD_BITS ensures !Bit(m, k) {
      BitAt(m, f, k - f * FIELD_BITS);
      assert !Shr(m[f], j)[k - f * FIELD_BITS - j];
    }
  }

  lemma FullField(m: seq<Word>, f: nat)
    requires |m| == FIELDS && f < FIELDS && m[f] == Ones()
    ensures forall k: nat | f * FIELD_BITS <= k < (f + 1) * FIELD_BITS :: Bit(m, k)
  {
    forall k: nat | f * FIELD_BITS <= k < (f + 1) * FIELD_BITS ensures Bit(m, k) { BitAt(m, f, k - f * FIELD_BITS); }
  }

  method CommittedSize(cm: array<Word>, total: nat) returns (size: nat)
    requires cm.Length == FIELDS && total % MASK_BITS == 0
    ensures size == total / MASK_BITS * |Bits(cm[..])|
  {
    hide Bit, Shr;
    var count := 0;
    for i := 0 to FIELDS
      invariant count == Count(cm[..], i * FIELD_BITS)
    {
      var mask := cm[i];
      if mask == Ones() {
        FullField(cm[..], i);
        CountSet(cm[..], i * FIELD_BITS, (i + 1) * FIELD_BITS);
        count := count + FIELD_BITS;
      } else {
        var j: nat := 0;
        ShrZero(mask);
        while mask != Zero()
          invariant j <= FIELD_BITS && mask == Shr(cm[i], j) && count == Count(cm[..], i * FIELD_BITS + j)
          decreases FIELD_BITS - j
        {
          ShrStep(cm[i], j);
          BitAt(cm[..], i, j);
          if mask[0] { count := count + 1; }
          mask, j := Shr(mask, 1), j + 1;
        }
        RestClear(cm[..], i, j);
        CountClear(cm[..], i * FIELD_BITS + j, (i + 1) * FIELD_BITS);
      }
    }
    CountBelow(cm[..], MASK_BITS);
    assert BitsBelow(cm[..], MASK_BITS) == Bits(cm[..]);
    size := total / MASK_BITS * count;
  }

  lemma ShrZero(w: Word)
    ensures Shr(w, 0) == w
  {}

  lemma ShrStep(w: Word, j: nat)
    requires Shr(w, j) != Zero()
    ensures j < FIELD_BITS && Shr(Shr(w, j), 1) == Shr(w, j + 1) && Shr(w, j)[0] == w[j]
  {
    assert j >= FIELD_BITS ==> Shr(w, j) == Zero();
  }

  // ---- mi_commit_mask_foreach

  type Runs = seq<(nat, nat)>

  // The union of the runs.
  ghost function RunBits(runs: Runs): set<nat> {
    if runs == [] then {} else
      var last := runs[|runs| - 1];
      RunBits(runs[..|runs| - 1]) + Between(last.0, last.0 + last.1)
  }

  ghost function Between(lo: nat, hi: nat): (r: set<nat>)
    ensures forall i: nat :: i in r <==> lo <= i < hi
    decreases hi
  {
    if lo < hi then Between(lo, hi - 1) + {hi - 1} else {}
  }

  ghost function TotalLength(runs: Runs): nat {
    if runs == [] then 0 else TotalLength(runs[..|runs| - 1]) + runs[|runs| - 1].1
  }

  // A maximal run of set bits.
  ghost predicate MaximalRun(m: seq<Word>, start: nat, count: nat)
    requires |m| == FIELDS
  {
    && count > 0 && start + count <= MASK_BITS && (forall k: nat | start <= k < start + count :: Bit(m, k))
    && (start == 0 || !Bit(m, start - 1)) && (start + count == MASK_BITS || !Bit(m, start + count))
  }

  ghost predicate Ordered(runs: Runs) { forall j, k | 0 <= j < k < |runs| :: runs[j].0 + runs[j].1 < runs[k].0 }

  lemma AddOrder(runs: Runs, start: nat, count: nat)
    requires Ordered(runs) && (runs != [] ==> runs[|runs| - 1].0 + runs[|runs| - 1].1 < start)
    ensures Ordered(runs + [(start, count)])
  {
    var runs' := runs + [(start, count)];
    forall j, k | 0 <= j < k < |runs'| ensures runs'[j].0 + runs'[j].1 < runs'[k].0 {
      if k == |runs| && j < |runs| - 1 { assert runs[j].0 + runs[j].1 < runs[|runs| - 1].0; }
    }
  }

  ghost predicate AllMaximal(m: seq<Word>, runs: Runs)
    requires |m| == FIELDS
  {
    forall k | 0 <= k < |runs| :: MaximalRun(m, runs[k].0, runs[k].1)
  }

  lemma AddMaximal(m: seq<Word>, runs: Runs, start: nat, count: nat)
    requires |m| == FIELDS && AllMaximal(m, runs) && MaximalRun(m, start, count)
    ensures AllMaximal(m, runs + [(start, count)])
  {
    hide MaximalRun;
  }

  ghost predicate RunsUpTo(m: seq<Word>, runs: Runs, idx: nat)
    requires |m| == FIELDS && idx <= MASK_BITS
  {
    && AllMaximal(m, runs) && Ordered(runs)
    && idx == (if runs == [] then 0 else runs[|runs| - 1].0 + runs[|runs| - 1].1)
    && RunBits(runs) == BitsBelow(m, idx) && TotalLength(runs) == Count(m, idx)
    && (idx == 0 || idx == MASK_BITS || !Bit(m, idx))
  }

  lemma AddRun(m: seq<Word>, runs: Runs, idx: nat, start: nat, count: nat)
    requires |m| == FIELDS && idx <= MASK_BITS && RunsUpTo(m, runs, idx) && NextRunIs(m, idx, start, count)
    ensures RunsUpTo(m, runs + [(start, count)], start + count)
  {
    hide Bit;
    AppendRun(runs, start, count);
    hide RunBits, TotalLength;
    RunMaximal(m, idx, start, count);
    RunDone(m, idx, start, count);
    hide MaximalRun, NextRunIs, BitsBelow, Count;
    AddMaximal(m, runs, start, count);
    AddOrder(runs, start, count);
    hide AllMaximal, Ordered;
  }

  lemma AppendRun(runs: Runs, start: nat, count: nat)
    ensures RunBits(runs + [(start, count)]) == RunBits(runs) + Between(start, start + count)
    ensures TotalLength(runs + [(start, count)]) == TotalLength(runs) + count
  {
    var runs' := runs + [(start, count)];
    assert runs'[..|runs'| - 1] == runs;
  }

  lemma RunMaximal(m: seq<Word>, idx: nat, start: nat, count: nat)
    requires |m| == FIELDS && NextRunIs(m, idx, start, count) && (idx == 0 || idx == MASK_BITS || !Bit(m, idx))
      && idx <= MASK_BITS
    ensures MaximalRun(m, start, count) && Count(m, start + count) == Count(m, idx) + count && (idx == 0 || idx < start)
    ensures start + count == MASK_BITS || !Bit(m, start + count)
  {
    hide Bit;
    CountClear(m, idx, start);
    CountSet(m, start, start + count);
    hide Count;
  }

  // Walking a mask run by run: every set bit is visited once, in maximal runs from low to high.
  method ForEach(cm: array<Word>) returns (runs: Runs)
    requires cm.Length == FIELDS
    ensures forall k | 0 <= k < |runs| :: MaximalRun(cm[..], runs[k].0, runs[k].1)
    ensures forall j, k | 0 <= j < k < |runs| :: runs[j].0 + runs[j].1 < runs[k].0
    ensures RunBits(runs) == Bits(cm[..]) && TotalLength(runs) == |Bits(cm[..])|
  {
    hide Bit;
    runs := [];
    var idx: nat, count: nat := NextRun(cm, 0);
    ghost var at: nat := 0;
    while count > 0
      invariant at <= MASK_BITS && RunsUpTo(cm[..], runs, at)
      invariant if count > 0 then NextRunIs(cm[..], at, idx, count) else NoneFrom(cm[..], at)
      decreases MASK_BITS - at, count
    {
      AddRun(cm[..], runs, at, idx, count);
      runs := runs + [(idx, count)];
      idx := idx + count;
      at := idx;
      idx, count := NextRun(cm, idx);
    }
    CountClear(cm[..], at, MASK_BITS);
    CountBelow(cm[..], MASK_BITS);
    assert BitsBelow(cm[..], MASK_BITS) == BitsBelow(cm[..], at) == Bits(cm[..]);
  }

  // mi_segment_delayed_decommit: the waiting slices leave the commit mask, all of them and no others.
  method DelayedDecommit(commit: array<Word>, decommit: array<Word>)
    requires commit.Length == decommit.Length == FIELDS && commit != decommit
    modifies commit, decommit
    ensures Bits(commit[..]) == old(Bits(commit[..])) - old(Bits(decommit[..]))
    ensures Bits(decommit[..]) == {}
  {
    hide Bit;
    var mask := new Word[FIELDS](i requires 0 <= i < decommit.Length reads decommit => decommit[i]);
    assert mask[..] == decommit[..];
    ghost var m, commit0 := mask[..], Bits(commit[..]);
    CreateEmpty(decommit);
    var idx: nat, count: nat := NextRun(mask, 0);
    ghost var at: nat := 0;
    while count > 0
      invariant at <= MASK_BITS && mask[..] == m
      invariant Bits(commit[..]) == commit0 - BitsBelow(m, at) && Bits(decommit[..]) == {}
      invariant if count > 0 then NextRunIs(m, at, idx, count) else NoneFrom(m, at)
      decreases MASK_BITS - at, count
    {
      Decommit(commit, decommit, idx, count);
      RunDone(m, at, idx, count);
      idx := idx + count;
      at := idx;
      idx, count := NextRun(mask, idx);
    }
    assert BitsBelow(m, at) == Bits(m);
  }

  // The decommit branch of mi_segment_commitx for whole slices.
  method Decommit(commit: array<Word>, decommit: array<Word>, idx: nat, count: nat)
    requires commit.Length == decommit.Length == FIELDS && commit != decommit && 0 < count && idx + count <= MASK_BITS
    modifies commit, decommit
    ensures Bits(commit[..]) == old(Bits(commit[..])) - Between(idx, idx + count)
    ensures Bits(decommit[..]) == old(Bits(decommit[..])) - Between(idx, idx + count)
  {
    hide Bit;
    var mask := new Word[FIELDS];
    Create(idx, count, mask);
    assert Bits(mask[..]) == Between(idx, idx + count);
    var any := AnySet(commit, mask);
    if any { Clear(commit, mask); }
    Clear(decommit, mask);
  }

  lemma RunDone(m: seq<Word>, at: nat, start: nat, count: nat)
    requires |m| == FIELDS && at <= MASK_BITS && NextRunIs(m, at, start, count)
    ensures BitsBelow(m, start + count) == BitsBelow(m, at) + Between(start, start + count)
  {
    hide Bit;
  }
}
