// Claiming and unclaiming ranges of bits, run without interference (bitmap.c). Module BitmapShared
// has the same claims as steps of many threads.
module Bitmap {
  import opened Base
  import opened Words

  // ---- bit scans and masks

  function Not(w: Word): Word { seq(FIELD_BITS, k requires 0 <= k < FIELD_BITS => !w[k]) }

  // Zeros below the lowest set bit.
  function Ctz(w: seq<bool>): (r: nat)
    ensures r <= |w| && (r < |w| ==> w[r]) && forall k | 0 <= k < r :: !w[k]
  {
    if w == [] || w[0] then 0 else 1 + Ctz(w[1..])
  }

  // Zeros above the highest set bit.
  function Clz(w: seq<bool>): (r: nat)
    ensures r <= |w| && (r < |w| ==> w[|w| - 1 - r]) && forall k | |w| - r <= k < |w| :: !w[k]
  {
    if w == [] || w[|w| - 1] then 0 else 1 + Clz(w[..|w| - 1])
  }

  function Bsr(w: seq<bool>): (r: nat)
    requires exists k :: 0 <= k < |w| && w[k]
    ensures r < |w| && w[r] && forall k | r < k < |w| :: !w[k]
  {
    |w| - 1 - Clz(w)
  }

  // mi_bitmap_mask_
  function Mask(count: nat, bitidx: nat): (r: Word)
    requires count + bitidx <= FIELD_BITS
    ensures forall k | 0 <= k < FIELD_BITS :: r[k] <==> bitidx <= k < bitidx + count
  {
    if count >= FIELD_BITS then Ones() else if count == 0 then Zero() else Block(bitidx, count)
  }

  // As a number it is ((1 << count) - 1) << bitidx, whichever case it is.
  lemma MaskValue(count: nat, bitidx: nat)
    requires count + bitidx <= FIELD_BITS
    ensures Value(Mask(count, bitidx)) == (Pow2(count) - 1) * Pow2(bitidx)
  {
    assert Mask(count, bitidx) == Block(bitidx, count);
    BlockValue(bitidx, count);
  }

  // bitmap.h: a bit index is a field and a bit in it.
  function IndexCreate(idx: nat, bitidx: nat): nat { idx * FIELD_BITS + bitidx }
  function IndexField(i: nat): nat { i / FIELD_BITS }
  function IndexBit(i: nat): nat { i % FIELD_BITS }

  lemma IndexRoundTrip(idx: nat, bitidx: nat)
    requires bitidx < FIELD_BITS
    ensures IndexField(IndexCreate(idx, bitidx)) == idx && IndexBit(IndexCreate(idx, bitidx)) == bitidx
    ensures forall i: nat :: IndexCreate(IndexField(i), IndexBit(i)) == i
  {}

  // ---- ranges of bits

  // The part of the range [p, p + count) that lies in field f.
  ghost function Part(p: nat, count: nat, f: nat): Word {
    seq(FIELD_BITS, k requires 0 <= k < FIELD_BITS => p <= f * FIELD_BITS + k < p + count)
  }

  ghost predicate Clear(m: seq<Word>, p: nat, count: nat) {
    p + count <= |m| * FIELD_BITS && forall f: nat | f < |m| :: And(m[f], Part(p, count, f)) == Zero()
  }

  ghost predicate Full(m: seq<Word>, p: nat, count: nat) {
    p + count <= |m| * FIELD_BITS && forall f: nat | f < |m| :: And(m[f], Part(p, count, f)) == Part(p, count, f)
  }

  ghost function SetRange(m: seq<Word>, p: nat, count: nat): seq<Word> {
    seq(|m|, f requires 0 <= f < |m| => Or(m[f], Part(p, count, f)))
  }

  ghost function ClearRange(m: seq<Word>, p: nat, count: nat): seq<Word> {
    seq(|m|, f requires 0 <= f < |m| => AndNot(m[f], Part(p, count, f)))
  }

  // What these mean bit by bit.
  lemma ClearBits(m: seq<Word>, p: nat, count: nat)
    requires p + count <= |m| * FIELD_BITS
    ensures Clear(m, p, count) <==> forall i: nat | p <= i < p + count :: !Bit(m, i)
  {
    if Clear(m, p, count) {
      forall i: nat | p <= i < p + count ensures !Bit(m, i) {
        BitSplit(|m|, i);
        assert !And(m[i / FIELD_BITS], Part(p, count, i / FIELD_BITS))[i % FIELD_BITS];
      }
    }
    if forall i: nat | p <= i < p + count :: !Bit(m, i) {
      forall f: nat | f < |m| ensures And(m[f], Part(p, count, f)) == Zero() {
        forall k: nat | k < FIELD_BITS ensures !And(m[f], Part(p, count, f))[k] { BitAt(m, f, k); }
      }
    }
  }

  lemma SetBits(m: seq<Word>, p: nat, count: nat, i: nat)
    requires i < |m| * FIELD_BITS
    ensures Bit(SetRange(m, p, count), i) <==> Bit(m, i) || p <= i < p + count
    ensures Bit(ClearRange(m, p, count), i) <==> Bit(m, i) && !(p <= i < p + count)
  {
    BitSplit(|m|, i);
  }

  // Unclaiming what was claimed restores the bitmap.
  lemma ClearAfterSet(m: seq<Word>, p: nat, count: nat)
    requires Clear(m, p, count)
    ensures Full(SetRange(m, p, count), p, count) && ClearRange(SetRange(m, p, count), p, count) == m
  {
    var s := SetRange(m, p, count);
    forall f: nat | f < |m|
      ensures And(s[f], Part(p, count, f)) == Part(p, count, f) && AndNot(s[f], Part(p, count, f)) == m[f]
    {
      ClearedWord(m[f], Part(p, count, f));
    }
  }

  lemma ClearedWord(w: Word, part: Word)
    requires And(w, part) == Zero()
    ensures And(Or(w, part), part) == part && AndNot(Or(w, part), part) == w
  {
    forall k | 0 <= k < FIELD_BITS ensures !(w[k] && part[k]) { assert !And(w, part)[k]; }
  }

  // ---- inside one field

  ghost predicate Free(w: Word, b: nat, count: nat) {
    b + count <= FIELD_BITS && forall k | b <= k < b + count :: !w[k]
  }

  // A free range of field idx, as a range of the bitmap.
  lemma FieldRange(m: seq<Word>, idx: nat, b: nat, count: nat)
    requires idx < |m| && b + count <= FIELD_BITS && count > 0
    ensures Free(m[idx], b, count) <==> Clear(m, IndexCreate(idx, b), count)
    ensures SetRange(m, IndexCreate(idx, b), count) == m[idx := Or(m[idx], Mask(count, b))]
    ensures Part(IndexCreate(idx, b), count, idx) == Mask(count, b)
  {
    var p := IndexCreate(idx, b);
    forall f: nat | f < |m|
      ensures Part(p, count, f) == if f == idx then Mask(count, b) else Zero()
    {
      FieldPart(idx, b, count, f);
    }
    forall f: nat | f < |m| && f != idx
      ensures And(m[f], Part(p, count, f)) == Zero() && Or(m[f], Part(p, count, f)) == m[f]
    {
      NoPart(m[f]);
    }
    if Free(m[idx], b, count) {
      assert And(m[idx], Mask(count, b)) == Zero();
    }
    if Clear(m, p, count) {
      forall k | b <= k < b + count ensures !m[idx][k] { assert !And(m[idx], Mask(count, b))[k]; }
    }
  }

  lemma FieldPart(idx: nat, b: nat, count: nat, f: nat)
    requires b + count <= FIELD_BITS
    ensures Part(IndexCreate(idx, b), count, f) == if f == idx then Mask(count, b) else Zero()
  {}

  lemma NoPart(w: Word)
    ensures And(w, Zero()) == Zero() && Or(w, Zero()) == w && AndNot(w, Zero()) == w
  {}

  lemma ShlShl(w: Word, a: nat, b: nat)
    ensures Shl(Shl(w, a), b) == Shl(w, a + b) && Shl(w, 0) == w
  {}

  lemma ShlMask(count: nat, b: nat)
    requires b + count <= FIELD_BITS
    ensures Shl(Mask(count, 0), b) == Mask(count, b)
  {}

  lemma MaskedZero(word: Word, count: nat, b: nat)
    requires b + count <= FIELD_BITS
    ensures And(word, Mask(count, b)) == Zero() <==> Free(word, b, count)
    ensures And(word, Mask(count, b)) != Zero() ==> exists k :: 0 <= k < FIELD_BITS && And(word, Mask(count, b))[k]
  {
    var w := And(word, Mask(count, b));
    if w == Zero() {
      forall k | b <= k < b + count ensures !word[k] { assert !w[k]; }
    } else {
      var k :| 0 <= k < FIELD_BITS && w[k] != Zero()[k];
    }
  }

  // The scan skips to just after the highest set bit it saw: no free range starts in between.
  lemma SkipAhead(word: Word, count: nat, b: nat, top: nat)
    requires b + count <= FIELD_BITS && b <= top < b + count && word[top]
    ensures forall s | b <= s <= top :: !Free(word, s, count)
  {}

  ghost predicate LowestFit(w: Word, count: nat, b: nat) {
    Free(w, b, count) && forall s: nat | s < b :: !Free(w, s, count)
  }

  // Claim `count` zero bits inside field idx, at the lowest place where they fit.
  method TryFindClaimField(bitmap: array<Word>, idx: nat, count: nat) returns (ok: bool, bit: nat)
    requires idx < bitmap.Length && 0 < count <= FIELD_BITS
    modifies bitmap
    ensures ok ==> IndexField(bit) == idx && LowestFit(old(bitmap[idx]), count, IndexBit(bit))
    ensures ok ==> Clear(old(bitmap[..]), bit, count) && bitmap[..] == SetRange(old(bitmap[..]), bit, count)
    ensures !ok ==> bitmap[..] == old(bitmap[..]) && forall s: nat :: !Free(bitmap[idx], s, count)
  {
    hide Mask, And;
    var word := bitmap[idx];
    ok, bit := false, 0;
    if word == Ones() {
      FirstZero(word, count);
      return;
    }
    FirstZero(word, count);
    var mask := Mask(count, 0);
    var bitidxMax := FIELD_BITS - count;
    var bitidx: nat := Ctz(Not(word));
    var m := Shl(mask, bitidx);
    while bitidx <= bitidxMax
      invariant m == Shl(mask, bitidx) && bitmap[..] == old(bitmap[..])
      invariant forall s: nat | s < bitidx :: !Free(word, s, count)
      decreases FIELD_BITS - bitidx
    {
      ShlMask(count, bitidx);
      MaskedZero(word, count, bitidx);
      var taken := And(word, m);
      if taken == Zero() {
        FieldRange(bitmap[..], idx, bitidx, count);
        bitmap[idx] := Or(word, m);
        ok, bit := true, IndexCreate(idx, bitidx);
        IndexRoundTrip(idx, bitidx);
        return;
      } else {
        TopBit(word, count, bitidx);
        var shift := if count == 1 then 1 else Bsr(taken) - bitidx + 1;
        SkipAhead(word, count, bitidx, Bsr(taken));
        ShlShl(mask, bitidx, shift);
        bitidx := bitidx + shift;
        m := Shl(m, shift);
      }
    }
  }

  // Below the first zero bit nothing fits.
  lemma FirstZero(word: Word, count: nat)
    requires count > 0
    ensures forall s: nat | s < Ctz(Not(word)) :: !Free(word, s, count)
    ensures word == Ones() ==> forall s: nat :: !Free(word, s, count)
  {
    forall s: nat | s < Ctz(Not(word)) ensures !Free(word, s, count) { assert !Not(word)[s]; }
  }

  lemma TopBit(word: Word, count: nat, b: nat)
    requires b + count <= FIELD_BITS && exists k :: 0 <= k < FIELD_BITS && And(word, Mask(count, b))[k]
    ensures b <= Bsr(And(word, Mask(count, b))) < b + count && word[Bsr(And(word, Mask(count, b)))]
    ensures count == 1 ==> Bsr(And(word, Mask(count, b))) == b
  {}

  // Search the fields from `start`, wrapping around, without crossing fields.
  method TryFindFromClaim(bitmap: array<Word>, start: nat, count: nat) returns (ok: bool, bit: nat)
    requires 0 < count <= FIELD_BITS
    modifies bitmap
    ensures ok ==> Clear(old(bitmap[..]), bit, count) && bitmap[..] == SetRange(old(bitmap[..]), bit, count)
    ensures ok ==> IndexField(bit) < bitmap.Length && IndexBit(bit) + count <= FIELD_BITS
    // the lowest place in the first field, going round, that has one
    ensures ok ==> LowestFit(old(bitmap[IndexField(bit)]), count, IndexBit(bit))
    ensures ok ==> forall f: nat, s: nat | f < bitmap.Length && Earlier(bitmap.Length, start, f, IndexField(bit)) ::
      !Free(old(bitmap[f]), s, count)
    ensures !ok ==>
      bitmap[..] == old(bitmap[..]) && forall f: nat, s: nat | f < bitmap.Length :: !Free(bitmap[f], s, count)
  {
    var idx: nat := start;
    ok, bit := false, 0;
    ghost var from: nat := if start < bitmap.Length then start else 0;
    for visited := 0 to bitmap.Length
      invariant bitmap[..] == old(bitmap[..]) && Position(bitmap.Length, from, visited, idx, start)
      invariant forall f: nat, s: nat | f < bitmap.Length && Visited(bitmap.Length, from, visited, f) ::
        !Free(bitmap[f], s, count)
    {
      if idx >= bitmap.Length { idx := 0; }
      ok, bit := TryFindClaimField(bitmap, idx, count);
      if ok {
        VisitedEarlier(bitmap.Length, start, from, visited, idx);
        return;
      }
      idx := idx + 1;
    }
    AllVisited(bitmap.Length, from);
  }

  // The field looked at in a round, and the fields looked at before it.
  ghost predicate Position(n: nat, from: nat, visited: nat, idx: nat, start: nat) {
    if visited == 0 then idx == start && from == (if start < n then start else 0)
    else idx == (if from + visited <= n then from + visited else from + visited - n)
  }

  ghost predicate Visited(n: nat, from: nat, visited: nat, f: nat) {
    from <= f < from + visited || f + n < from + visited
  }

  // Going round the fields from `start`, f comes before i.
  ghost predicate Earlier(n: nat, start: nat, f: nat, i: nat) {
    var from := if start < n then start else 0;
    (if f >= from then f else f + n) < (if i >= from then i else i + n)
  }

  lemma VisitedEarlier(n: nat, start: nat, from: nat, visited: nat, idx: nat)
    requires visited < n && from == (if start < n then start else 0) && idx < n
    requires idx == if from + visited < n then from + visited else from + visited - n
    ensures forall f: nat | f < n :: Earlier(n, start, f, idx) <==> Visited(n, from, visited, f)
  {}

  lemma AllVisited(n: nat, from: nat)
    requires from < n || n == 0
    ensures forall f: nat | f < n :: Visited(n, from, n, f)
  {}

  // ---- across fields

  // A free range that starts in field idx and leaves it.
  ghost predicate Crossing(m: seq<Word>, idx: nat, s: nat, count: nat) {
    idx < |m| && s < FIELD_BITS && s + count > FIELD_BITS && Clear(m, IndexCreate(idx, s), count)
  }

  // Bits of a later field that the range needs.
  lemma PartAfter(idx: nat, b: nat, count: nat, f: nat, found: nat)
    requires b < FIELD_BITS && f > idx && found == (f - idx) * FIELD_BITS - b && found < count
    ensures Part(IndexCreate(idx, b), count, f) ==
      Mask(if found + FIELD_BITS <= count then FIELD_BITS else count - found, 0)
  {}

  lemma PartFirst(idx: nat, b: nat, count: nat)
    requires b < FIELD_BITS && b + count >= FIELD_BITS
    ensures Part(IndexCreate(idx, b), count, idx) == Mask(FIELD_BITS - b, b)
  {}

  lemma PartOutside(idx: nat, b: nat, count: nat, f: nat)
    requires b < FIELD_BITS && (f < idx || (f > idx && (f - idx) * FIELD_BITS - b >= count))
    ensures Part(IndexCreate(idx, b), count, f) == Zero()
  {}

  // A crossing range needs the zeros at the end of field idx, so it starts no earlier than they do; and if it
  // is free, so is the range of the same length that starts with them.
  lemma EarliestCrossing(m: seq<Word>, idx: nat, s: nat, count: nat, initial: nat)
    requires Crossing(m, idx, s, count) && initial == Clz(m[idx])
    ensures FIELD_BITS - s <= initial
    ensures initial < count ==> Clear(m, IndexCreate(idx, FIELD_BITS - initial), count)
  {
    var p := IndexCreate(idx, s);
    assert And(m[idx], Part(p, count, idx)) == Zero();
    PartFirst(idx, s, count);
    forall k: nat | s <= k < FIELD_BITS ensures !m[idx][k] { assert !And(m[idx], Part(p, count, idx))[k]; }
    if initial < count {
      var q := IndexCreate(idx, FIELD_BITS - initial);
      forall f: nat | f < |m| ensures And(m[f], Part(q, count, f)) == Zero() {
        assert And(m[f], Part(p, count, f)) == Zero();
        forall k: nat | k < FIELD_BITS ensures !And(m[f], Part(q, count, f))[k] {
          assert !And(m[f], Part(p, count, f))[k];
        }
      }
    }
  }

  // The range that starts with the zeros at the end of field idx is free once all its parts are.
  lemma CrossingClear(m: seq<Word>, idx: nat, b: nat, count: nat, last: nat)
    requires idx < last < |m| && b < FIELD_BITS && FIELD_BITS - b == Clz(m[idx])
      && b + count <= (last - idx + 1) * FIELD_BITS
    requires FIELD_BITS - b < count
    requires forall f: nat | idx < f <= last :: And(m[f], Part(IndexCreate(idx, b), count, f)) == Zero()
    ensures Clear(m, IndexCreate(idx, b), count)
  {
    var p := IndexCreate(idx, b);
    PartFirst(idx, b, count);
    forall f: nat | f < |m| ensures And(m[f], Part(p, count, f)) == Zero() {
      if f < idx || f > last {
        PartOutside(idx, b, count, f);
      } else if f == idx {
        forall k: nat | k < FIELD_BITS ensures !And(m[f], Part(p, count, f))[k] {}
      }
    }
  }

  function DivideUp(size: nat, divider: nat): nat
    requires divider > 0
  {
    (size + divider - 1) / divider
  }

  // Claim `count` zero bits from the end of field idx into the next fields. Between the scan and the
  // claim nobody else acts, so the claim does not fail.
  method TryFindClaimFieldAcross(bitmap: array<Word>, idx: nat, count: nat) returns (ok: bool, bit: nat)
    requires idx < bitmap.Length && 0 < count
    modifies bitmap
    ensures ok ==> Clear(old(bitmap[..]), bit, count) && bitmap[..] == SetRange(old(bitmap[..]), bit, count)
    // it begins with the zeros at the end of the field, or lies inside it where these are enough
    ensures ok ==> IndexField(bit) == idx
    ensures ok && Clz(old(bitmap[idx])) < count ==> IndexBit(bit) == FIELD_BITS - Clz(old(bitmap[idx]))
    ensures ok && Clz(old(bitmap[idx])) >= count ==> LowestFit(old(bitmap[idx]), count, IndexBit(bit))
    ensures !ok ==> bitmap[..] == old(bitmap[..]) && forall s: nat :: !Crossing(bitmap[..], idx, s, count)
  {
    hide Clear, Free, And, Or, Part, Mask, SetRange, LowestFit;
    ghost var m := bitmap[..];
    ok, bit := false, 0;
    var initial := Clz(bitmap[idx]);
    ghost var p := IndexCreate(idx, FIELD_BITS - initial);
    CrossingNeeds(m, idx, count, initial);
    if initial == 0 { return; }
    if initial >= count {
      TailFree(bitmap[idx], initial, count);
      ok, bit := TryFindClaimField(bitmap, idx, count);
      return;
    }
    if DivideUp(count - initial, FIELD_BITS) >= bitmap.Length - idx {
      NoRoom(m, p, count, idx, initial);
      return;
    }
    // scan ahead
    var found: nat, field: nat, mask := initial, idx, Zero();
    while found < count
      invariant idx <= field < bitmap.Length && bitmap[..] == m
      invariant found == if (field - idx) * FIELD_BITS + initial < count then (field - idx) * FIELD_BITS + initial
        else count
      invariant field > idx ==> (field - 1 - idx) * FIELD_BITS + initial < count
      invariant forall f: nat | idx < f <= field :: And(m[f], Part(p, count, f)) == Zero()
      invariant field > idx ==> mask == Part(p, count, field)
      decreases count - found
    {
      FieldLeft(bitmap.Length, idx, field, count, initial);
      field := field + 1;
      var maskBits := if found + FIELD_BITS <= count then FIELD_BITS else count - found;
      mask := Mask(maskBits, 0);
      PartAfter(idx, FIELD_BITS - initial, count, field, found);
      if And(bitmap[field], mask) != Zero() {
        NotClear(m, p, count, field);
        return;
      }
      found := found + maskBits;
    }
    CrossingClear(m, idx, FIELD_BITS - initial, count, field);
    // claim the initial, the intermediate and the final field
    bitmap[idx] := Or(bitmap[idx], Mask(initial, FIELD_BITS - initial));
    for f := idx + 1 to field
      invariant forall k: nat | k < bitmap.Length ::
        bitmap[k] == if k == idx then Or(m[k], Mask(initial, FIELD_BITS - initial))
          else if idx < k < f then Ones() else m[k]
    {
      bitmap[f] := Ones();
    }
    bitmap[field] := Or(bitmap[field], mask);
    ok, bit := true, IndexCreate(idx, FIELD_BITS - initial);
    IndexRoundTrip(idx, FIELD_BITS - initial);
    ClaimedParts(m, bitmap[..], idx, FIELD_BITS - initial, count, field);
  }

  lemma CrossingNeeds(m: seq<Word>, idx: nat, count: nat, initial: nat)
    requires idx < |m| && initial == Clz(m[idx]) && count > 0
    ensures forall s: nat | Crossing(m, idx, s, count) ::
      initial > 0 && (initial < count ==> Clear(m, IndexCreate(idx, FIELD_BITS - initial), count))
  {
    forall s: nat | Crossing(m, idx, s, count)
      ensures initial > 0 && (initial < count ==> Clear(m, IndexCreate(idx, FIELD_BITS - initial), count))
    {
      EarliestCrossing(m, idx, s, count, initial);
    }
  }

  lemma TailFree(w: Word, initial: nat, count: nat)
    requires initial == Clz(w) && 0 < count <= initial
    ensures count <= FIELD_BITS && Free(w, FIELD_BITS - count, count)
  {}

  lemma NoRoom(m: seq<Word>, p: nat, count: nat, idx: nat, initial: nat)
    requires idx < |m| && initial < count && initial <= FIELD_BITS && p == IndexCreate(idx, FIELD_BITS - initial)
    requires DivideUp(count - initial, FIELD_BITS) >= |m| - idx
    ensures !Clear(m, p, count)
  {
    DivideUpBound(count - initial);
  }

  lemma DivideUpBound(n: nat)
    requires n > 0
    ensures (DivideUp(n, FIELD_BITS) - 1) * FIELD_BITS < n <= DivideUp(n, FIELD_BITS) * FIELD_BITS
  {}

  lemma FieldLeft(n: nat, idx: nat, field: nat, count: nat, initial: nat)
    requires idx <= field < n && initial < count && (field - idx) * FIELD_BITS + initial < count
    requires DivideUp(count - initial, FIELD_BITS) < n - idx
    ensures field + 1 < n
  {
    DivideUpBound(count - initial);
  }

  lemma NotClear(m: seq<Word>, p: nat, count: nat, f: nat)
    requires f < |m| && And(m[f], Part(p, count, f)) != Zero()
    ensures !Clear(m, p, count)
  {}

  lemma ClaimedParts(m: seq<Word>, m': seq<Word>, idx: nat, b: nat, count: nat, last: nat)
    requires |m| == |m'| && idx < last < |m| && b < FIELD_BITS && FIELD_BITS - b < count
      && Clear(m, IndexCreate(idx, b), count)
    requires (last - 1 - idx) * FIELD_BITS + FIELD_BITS - b < count <= (last - idx) * FIELD_BITS + FIELD_BITS - b
    requires forall k: nat | k < |m| ::
      m'[k] == if k == idx then Or(m[k], Mask(FIELD_BITS - b, b))
        else if k == last then Or(m[k], Part(IndexCreate(idx, b), count, last))
               else if idx < k < last then Ones() else m[k]
    ensures m' == SetRange(m, IndexCreate(idx, b), count)
  {
    hide Clear, And, Mask;
    var p := IndexCreate(idx, b);
    forall k: nat | k < |m| ensures m'[k] == Or(m[k], Part(p, count, k)) {
      if k == idx {
        PartFirst(idx, b, count);
      } else if k < idx || k > last {
        PartOutside(idx, b, count, k);
        NoPart(m[k]);
      } else if k < last {
        PartAfter(idx, b, count, k, (k - idx) * FIELD_BITS - b);
        ClearPart(m, p, count, k);
        FullWord(m[k]);
      }
    }
  }

  lemma ClearPart(m: seq<Word>, p: nat, count: nat, f: nat)
    requires Clear(m, p, count) && f < |m|
    ensures And(m[f], Part(p, count, f)) == Zero()
  {}

  lemma FullWord(w: Word)
    requires And(w, Mask(FIELD_BITS, 0)) == Zero()
    ensures Or(w, Mask(FIELD_BITS, 0)) == Ones()
  {}

  // ---- the search over all fields

  // Without interference the search succeeds exactly when the bitmap holds a run of `count` zero bits, and
  // then sets exactly the bits of such a run.
  method TryFindFromClaimAcross(bitmap: array<Word>, start: nat, count: nat) returns (ok: bool, bit: nat)
    requires 0 < count
    modifies bitmap
    ensures ok <==> exists p: nat :: Clear(old(bitmap[..]), p, count)
    ensures ok ==> Clear(old(bitmap[..]), bit, count) && bitmap[..] == SetRange(old(bitmap[..]), bit, count)
    ensures !ok ==> bitmap[..] == old(bitmap[..])
    // the first field, going round, from which the run can begin
    ensures ok && count > 1 ==> IndexField(bit) < bitmap.Length
    ensures ok && count > 1 ==>
      forall f: nat | f < bitmap.Length && Earlier(bitmap.Length, start, f, IndexField(bit)) ::
        NoneFrom(old(bitmap[..]), f, count)
  {
    hide Clear, Free, SetRange, Crossing, LowestFit;
    ghost var m := bitmap[..];
    if count == 1 {
      ok, bit := TryFindFromClaim(bitmap, start, count);
      if !ok { NoneAnywhere(m, count); }
      return;
    }
    var idx: nat := start;
    ok, bit := false, 0;
    ghost var from: nat := if start < bitmap.Length then start else 0;
    for visited := 0 to bitmap.Length
      invariant bitmap[..] == m && Position(bitmap.Length, from, visited, idx, start)
      invariant forall f: nat | f < |m| && Visited(|m|, from, visited, f) :: NoneFrom(m, f, count)
    {
      if idx >= bitmap.Length { idx := 0; }
      if count <= FIELD_BITS {
        ok, bit := TryFindClaimField(bitmap, idx, count);
        if ok {
          VisitedEarlier(|m|, start, from, visited, idx);
          return;
        }
      } else {
        TooLong(count);
      }
      ok, bit := TryFindClaimFieldAcross(bitmap, idx, count);
      if ok {
        VisitedEarlier(|m|, start, from, visited, idx);
        return;
      }
      idx := idx + 1;
    }
    AllVisited(bitmap.Length, from);
    NoneAnywhere(m, count);
  }

  lemma TooLong(count: nat)
    requires count > FIELD_BITS
    ensures forall w: Word, s: nat :: !Free(w, s, count)
  {}

  // No free range starts in field f.
  ghost predicate NoneFrom(m: seq<Word>, f: nat, count: nat)
    requires f < |m|
  {
    forall s: nat :: !Free(m[f], s, count) && !Crossing(m, f, s, count)
  }

  lemma NoneAnywhere(m: seq<Word>, count: nat)
    requires count > 0 && forall f: nat | f < |m| ::
      (forall s: nat :: !Free(m[f], s, count)) && (count == 1 || NoneFrom(m, f, count))
    ensures forall p: nat :: !Clear(m, p, count)
  {
    forall p: nat ensures !Clear(m, p, count) {
      if p + count <= |m| * FIELD_BITS {
        var f, s := IndexField(p), IndexBit(p);
        BitSplit(|m|, p);
        assert p == IndexCreate(f, s) && f < |m|;
        if s + count <= FIELD_BITS {
          FieldRange(m, f, s, count);
        } else {
          assert NoneFrom(m, f, count);
          assert !Crossing(m, f, s, count);
        }
      }
    }
  }

  // ---- a known range, across fields

  // Field by field the three masks are exactly the bits of the range.
  ghost predicate MasksCover(bit: nat, count: nat, midCount: nat, pre: Word, mid: Word, post: Word) {
    var idx := IndexField(bit);
    && pre == Part(bit, count, idx)
    && (forall f: nat | idx < f <= idx + midCount :: mid == Part(bit, count, f))
    && post == Part(bit, count, idx + midCount + 1)
    && Untouched(bit, count, 0, idx)
    && forall f: nat | f > idx + midCount + 1 :: Part(bit, count, f) == Zero()
  }

  lemma CoverEnds(bit: nat, count: nat, midCount: nat, pre: Word, mid: Word, post: Word, hi: nat)
    requires MasksCover(bit, count, midCount, pre, mid, post)
    ensures pre == Part(bit, count, IndexField(bit)) && post == Part(bit, count, IndexField(bit) + midCount + 1)
    ensures Untouched(bit, count, 0, IndexField(bit)) && Untouched(bit, count, IndexField(bit) + midCount + 2, hi)
  {}

  lemma CoverMid(bit: nat, count: nat, midCount: nat, pre: Word, mid: Word, post: Word, f: nat)
    requires MasksCover(bit, count, midCount, pre, mid, post) && IndexField(bit) < f <= IndexField(bit) + midCount
    ensures mid == Part(bit, count, f)
  {}

  // The masks of the range [bit, bit + count): its first field, the whole fields after it, and the rest.
  method MaskAcross(n: nat, bit: nat, count: nat) returns (midCount: nat, pre: Word, mid: Word, post: Word)
    requires 0 < count && bit + count <= n * FIELD_BITS
    ensures IndexField(bit) + midCount < n && (post != Zero() ==> IndexField(bit) + midCount + 1 < n)
    ensures MasksCover(bit, count, midCount, pre, mid, post)
  {
    hide Part, Mask;
    var bitidx := IndexBit(bit);
    ghost var idx := IndexField(bit);
    assert bit == IndexCreate(idx, bitidx);
    if bitidx + count <= FIELD_BITS {
      FieldParts(idx, bitidx, count);
      return 0, Mask(count, bitidx), Zero(), Zero();
    } else {
      var preBits := FIELD_BITS - bitidx;
      PartFirst(idx, bitidx, count);
      pre := Mask(preBits, bitidx);
      var left := count - preBits;
      midCount := left / FIELD_BITS;
      mid := Ones();
      var rest := left % FIELD_BITS;
      post := if rest == 0 then Zero() else Mask(rest, 0);
      AcrossParts(idx, bitidx, count, midCount, rest);
    }
  }

  lemma FieldParts(idx: nat, b: nat, count: nat)
    requires b + count <= FIELD_BITS
    ensures forall f: nat :: Part(IndexCreate(idx, b), count, f) == if f == idx then Mask(count, b) else Zero()
  {
    forall f: nat
      ensures Part(IndexCreate(idx, b), count, f) == if f == idx then Mask(count, b) else Zero()
    {
      FieldPart(idx, b, count, f);
    }
  }

  lemma AcrossParts(idx: nat, b: nat, count: nat, midCount: nat, rest: nat)
    requires b < FIELD_BITS && count == FIELD_BITS - b + midCount * FIELD_BITS + rest && rest < FIELD_BITS
    ensures forall f: nat | idx < f <= idx + midCount :: Part(IndexCreate(idx, b), count, f) == Ones()
    ensures Part(IndexCreate(idx, b), count, idx + midCount + 1) == if rest == 0 then Zero() else Mask(rest, 0)
    ensures forall f: nat | f < idx || f > idx + midCount + 1 :: Part(IndexCreate(idx, b), count, f) == Zero()
  {}

  // The fields below hi have been processed.
  ghost predicate FullUpTo(m: seq<Word>, p: nat, count: nat, hi: nat) {
    forall f: nat | f < |m| && f < hi :: And(m[f], Part(p, count, f)) == Part(p, count, f)
  }

  ghost predicate ClearUpTo(m: seq<Word>, p: nat, count: nat, hi: nat) {
    forall f: nat | f < |m| && f < hi :: And(m[f], Part(p, count, f)) == Zero()
  }

  ghost predicate Upto(m: seq<Word>, m': seq<Word>, m'': seq<Word>, hi: nat) {
    |m| == |m'| == |m''| && forall f: nat | f < |m| :: m'[f] == if f < hi then m''[f] else m[f]
  }

  // Fields that the range does not reach need no work.
  ghost predicate Untouched(p: nat, count: nat, lo: nat, hi: nat) {
    forall f: nat | lo <= f < hi :: Part(p, count, f) == Zero()
  }

  lemma SkipFields(m: seq<Word>, m': seq<Word>, p: nat, count: nat, lo: nat, hi: nat)
    requires Untouched(p, count, lo, hi) && lo <= hi
    ensures FullUpTo(m, p, count, lo) ==> FullUpTo(m, p, count, hi)
    ensures ClearUpTo(m, p, count, lo) ==> ClearUpTo(m, p, count, hi)
    ensures !FullUpTo(m, p, count, lo) ==> !FullUpTo(m, p, count, hi)
    ensures !ClearUpTo(m, p, count, lo) ==> !ClearUpTo(m, p, count, hi)
    ensures Upto(m, m', ClearRange(m, p, count), lo) ==> Upto(m, m', ClearRange(m, p, count), hi)
    ensures Upto(m, m', SetRange(m, p, count), lo) ==> Upto(m, m', SetRange(m, p, count), hi)
  {
    hide Part, And, AndNot, Or;
    forall f: nat | f < |m| && lo <= f < hi
      ensures And(m[f], Part(p, count, f)) == Zero() && AndNot(m[f], Part(p, count, f)) == m[f]
        && Or(m[f], Part(p, count, f)) == m[f]
    {
      NoPart(m[f]);
    }
  }

  lemma NextField(m: seq<Word>, m': seq<Word>, p: nat, count: nat, f: nat, part: Word)
    requires f < |m| == |m'| && part == Part(p, count, f)
    ensures FullUpTo(m, p, count, f + 1) <==> FullUpTo(m, p, count, f) && And(m[f], part) == part
    ensures ClearUpTo(m, p, count, f + 1) <==> ClearUpTo(m, p, count, f) && And(m[f], part) == Zero()
    ensures Upto(m, m', ClearRange(m, p, count), f) ==>
      m'[f] == m[f] && Upto(m, m'[f := AndNot(m[f], part)], ClearRange(m, p, count), f + 1)
    ensures Upto(m, m', SetRange(m, p, count), f) ==>
      m'[f] == m[f] && Upto(m, m'[f := Or(m[f], part)], SetRange(m, p, count), f + 1)
  {
    hide Part, And, AndNot, Or;
  }

  lemma AllFields(m: seq<Word>, m': seq<Word>, p: nat, count: nat)
    requires p + count <= |m| * FIELD_BITS
    ensures FullUpTo(m, p, count, |m|) <==> Full(m, p, count)
    ensures ClearUpTo(m, p, count, |m|) <==> Clear(m, p, count)
    ensures Upto(m, m', ClearRange(m, p, count), |m|) ==> m' == ClearRange(m, p, count)
    ensures Upto(m, m', SetRange(m, p, count), |m|) ==> m' == SetRange(m, p, count)
  {
    hide Part, And, AndNot, Or;
  }

  lemma NoFields(m: seq<Word>, p: nat, count: nat)
    ensures FullUpTo(m, p, count, 0) && ClearUpTo(m, p, count, 0)
    ensures Upto(m, m, ClearRange(m, p, count), 0) && Upto(m, m, SetRange(m, p, count), 0)
  {}

  // Clear the range; true if all its bits were set.
  method UnclaimAcross(bitmap: array<Word>, bit: nat, count: nat) returns (allOne: bool)
    requires 0 < count && bit + count <= bitmap.Length * FIELD_BITS
    modifies bitmap
    ensures bitmap[..] == ClearRange(old(bitmap[..]), bit, count)
    ensures allOne <==> Full(old(bitmap[..]), bit, count)
  {
    hide *;
    ghost var m := bitmap[..];
    var midCount, pre, mid, post := MaskAcross(bitmap.Length, bit, count);
    allOne := true;
    var field := IndexField(bit);
    CoverEnds(bit, count, midCount, pre, mid, post, |m|);
    NoFields(m, bit, count);
    SkipFields(m, m, bit, count, 0, field);
    NextField(m, m, bit, count, field, pre);
    var prev := bitmap[field];
    bitmap[field] := AndNot(prev, pre);
    if And(prev, pre) != pre { allOne := false; }
    for i := 0 to midCount
      invariant Upto(m, bitmap[..], ClearRange(m, bit, count), field + 1 + i)
      invariant allOne <==> FullUpTo(m, bit, count, field + 1 + i)
    {
      CoverMid(bit, count, midCount, pre, mid, post, field + 1 + i);
      NextField(m, bitmap[..], bit, count, field + 1 + i, mid);
      prev := bitmap[field + 1 + i];
      bitmap[field + 1 + i] := AndNot(prev, mid);
      if And(prev, mid) != mid { allOne := false; }
    }
    var last := field + midCount + 1;
    if post != Zero() {
      NextField(m, bitmap[..], bit, count, last, post);
      prev := bitmap[last];
      bitmap[last] := AndNot(prev, post);
      if And(prev, post) != post { allOne := false; }
    } else {
      LastField(bit, count, last);
      SkipFields(m, bitmap[..], bit, count, last, last + 1);
    }
    if last + 1 <= |m| {
      SkipFields(m, bitmap[..], bit, count, last + 1, |m|);
    } else {
      PastEnd(m, bitmap[..], bit, count, last + 1);
    }
    AllFields(m, bitmap[..], bit, count);
  }

  lemma LastField(p: nat, count: nat, f: nat)
    requires Part(p, count, f) == Zero()
    ensures Untouched(p, count, f, f + 1)
  {}

  lemma PastEnd(m: seq<Word>, m': seq<Word>, p: nat, count: nat, hi: nat)
    requires hi >= |m|
    ensures FullUpTo(m, p, count, hi) <==> FullUpTo(m, p, count, |m|)
    ensures ClearUpTo(m, p, count, hi) <==> ClearUpTo(m, p, count, |m|)
    ensures Upto(m, m', ClearRange(m, p, count), hi) ==> Upto(m, m', ClearRange(m, p, count), |m|)
    ensures Upto(m, m', SetRange(m, p, count), hi) ==> Upto(m, m', SetRange(m, p, count), |m|)
  {
    hide Part, And, AndNot, Or, ClearRange, SetRange;
  }

  // Set the range; true if all its bits were clear, and anyZero if some were.
  method ClaimAcross(bitmap: array<Word>, bit: nat, count: nat) returns (allZero: bool, anyZero: bool)
    requires 0 < count && bit + count <= bitmap.Length * FIELD_BITS
    modifies bitmap
    ensures bitmap[..] == SetRange(old(bitmap[..]), bit, count)
    ensures allZero <==> Clear(old(bitmap[..]), bit, count)
    ensures anyZero <==> !Full(old(bitmap[..]), bit, count)
  {
    hide *;
    ghost var m := bitmap[..];
    var midCount, pre, mid, post := MaskAcross(bitmap.Length, bit, count);
    allZero, anyZero := true, false;
    var field := IndexField(bit);
    CoverEnds(bit, count, midCount, pre, mid, post, |m|);
    NoFields(m, bit, count);
    SkipFields(m, m, bit, count, 0, field);
    NextField(m, m, bit, count, field, pre);
    var prev := bitmap[field];
    bitmap[field] := Or(prev, pre);
    if And(prev, pre) != Zero() { allZero := false; }
    if And(prev, pre) != pre { anyZero := true; }
    for i := 0 to midCount
      invariant Upto(m, bitmap[..], SetRange(m, bit, count), field + 1 + i)
      invariant (allZero <==> ClearUpTo(m, bit, count, field + 1 + i))
        && (anyZero <==> !FullUpTo(m, bit, count, field + 1 + i))
    {
      CoverMid(bit, count, midCount, pre, mid, post, field + 1 + i);
      NextField(m, bitmap[..], bit, count, field + 1 + i, mid);
      prev := bitmap[field + 1 + i];
      bitmap[field + 1 + i] := Or(prev, mid);
      if And(prev, mid) != Zero() { allZero := false; }
      if And(prev, mid) != mid { anyZero := true; }
    }
    var last := field + midCount + 1;
    if post != Zero() {
      NextField(m, bitmap[..], bit, count, last, post);
      prev := bitmap[last];
      bitmap[last] := Or(prev, post);
      if And(prev, post) != Zero() { allZero := false; }
      if And(prev, post) != post { anyZero := true; }
    } else {
      LastField(bit, count, last);
      SkipFields(m, bitmap[..], bit, count, last, last + 1);
    }
    if last + 1 <= |m| {
      SkipFields(m, bitmap[..], bit, count, last + 1, |m|);
    } else {
      PastEnd(m, bitmap[..], bit, count, last + 1);
    }
    AllFields(m, bitmap[..], bit, count);
  }

  // Set a range inside one field.
  method ClaimInField(bitmap: array<Word>, bit: nat, count: nat) returns (allZero: bool, anyZero: bool)
    requires 0 < count && IndexField(bit) < bitmap.Length && IndexBit(bit) + count <= FIELD_BITS
    modifies bitmap
    ensures bitmap[..] == SetRange(old(bitmap[..]), bit, count)
    ensures allZero <==> Clear(old(bitmap[..]), bit, count)
    ensures anyZero <==> !Free(Not(old(bitmap[IndexField(bit)])), IndexBit(bit), count)
  {
    var idx, bitidx := IndexField(bit), IndexBit(bit);
    var mask := Mask(count, bitidx);
    FieldRange(bitmap[..], idx, bitidx, count);
    MaskedZero(bitmap[idx], count, bitidx);
    MaskedFull(bitmap[idx], count, bitidx);
    var prev := bitmap[idx];
    bitmap[idx] := Or(prev, mask);
    anyZero := And(prev, mask) != mask;
    allZero := And(prev, mask) == Zero();
  }

  lemma MaskedFull(word: Word, count: nat, b: nat)
    requires b + count <= FIELD_BITS
    ensures And(word, Mask(count, b)) == Mask(count, b) <==> Free(Not(word), b, count)
  {
    if And(word, Mask(count, b)) == Mask(count, b) {
      forall k | b <= k < b + count ensures word[k] { assert And(word, Mask(count, b))[k]; }
    }
    if Free(Not(word), b, count) {
      forall k | b <= k < b + count ensures word[k] { assert !Not(word)[k]; }
      assert And(word, Mask(count, b)) == Mask(count, b);
    }
  }

  method IsClaimedAcross(bitmap: array<Word>, bit: nat, count: nat) returns (allOnes: bool, anyOnes: bool)
    requires 0 < count && bit + count <= bitmap.Length * FIELD_BITS
    ensures allOnes <==> Full(bitmap[..], bit, count)
    ensures anyOnes <==> !Clear(bitmap[..], bit, count)
  {
    hide *;
    ghost var m := bitmap[..];
    var midCount, pre, mid, post := MaskAcross(bitmap.Length, bit, count);
    allOnes, anyOnes := true, false;
    var field := IndexField(bit);
    CoverEnds(bit, count, midCount, pre, mid, post, |m|);
    NoFields(m, bit, count);
    SkipFields(m, m, bit, count, 0, field);
    NextField(m, m, bit, count, field, pre);
    var prev := bitmap[field];
    if And(prev, pre) != pre { allOnes := false; }
    if And(prev, pre) != Zero() { anyOnes := true; }
    for i := 0 to midCount
      invariant (allOnes <==> FullUpTo(m, bit, count, field + 1 + i))
        && (anyOnes <==> !ClearUpTo(m, bit, count, field + 1 + i))
    {
      CoverMid(bit, count, midCount, pre, mid, post, field + 1 + i);
      NextField(m, m, bit, count, field + 1 + i, mid);
      prev := bitmap[field + 1 + i];
      if And(prev, mid) != mid { allOnes := false; }
      if And(prev, mid) != Zero() { anyOnes := true; }
    }
    var last := field + midCount + 1;
    if post != Zero() {
      NextField(m, m, bit, count, last, post);
      prev := bitmap[last];
      if And(prev, post) != post { allOnes := false; }
      if And(prev, post) != Zero() { anyOnes := true; }
    } else {
      LastField(bit, count, last);
      SkipFields(m, m, bit, count, last, last + 1);
    }
    if last + 1 <= |m| { SkipFields(m, m, bit, count, last + 1, |m|); } else { PastEnd(m, m, bit, count, last + 1); }
    AllFields(m, m, bit, count);
  }

  // ---- what claim and unclaim do to each other

  // Unclaiming a claimed range succeeds and gives back the bitmap as it was.
  method ClaimThenUnclaim(bitmap: array<Word>, start: nat, count: nat) returns (claimed: bool, all: bool)
    requires 0 < count
    modifies bitmap
    ensures claimed <==> exists p: nat :: Clear(old(bitmap[..]), p, count)
    ensures claimed ==> all
    ensures bitmap[..] == old(bitmap[..])
  {
    hide Clear, Full, SetRange, ClearRange;
    ghost var m := bitmap[..];
    var bit;
    claimed, bit := TryFindFromClaimAcross(bitmap, start, count);
    all := false;
    if claimed {
      ClearAfterSet(m, bit, count);
      RangeFits(m, bit, count);
      all := UnclaimAcross(bitmap, bit, count);
    }
  }

  lemma RangeFits(m: seq<Word>, p: nat, count: nat)
    requires Clear(m, p, count)
    ensures p + count <= |m| * FIELD_BITS && |SetRange(m, p, count)| == |m|
  {}
}
