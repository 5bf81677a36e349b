// Arenas: aligned blocks of OS memory handed out by claiming bits (arena.c).
module Arena {
  import opened Base
  import opened Words
  import opened Bitmap

  const BLOCK_SIZE: nat := 67108864   // MI_SEGMENT_SIZE

  // ---- memory ids: block index above, arena index plus one in the low byte

  const MEMID_OS: nat := 0

  // (bitmap_index << 8) | ((arena_index + 1) & 0xFF)
  function IdCreate(arenaIndex: nat, bitmapIndex: nat): nat { bitmapIndex * 256 + (arenaIndex + 1) % 256 }

  function IdArena(memid: nat): int { memid % 256 - 1 }
  function IdBlock(memid: nat): nat { memid / 256 }

  // Distinct allocations get distinct ids, none of them the id of OS memory; the low byte wraps at 255
  // arenas, so the code's bound of 0xFE on the arena index is needed.
  lemma IdRoundTrip(arenaIndex: nat, bitmapIndex: nat)
    ensures IdBlock(IdCreate(arenaIndex, bitmapIndex)) == bitmapIndex
    ensures IdArena(IdCreate(arenaIndex, bitmapIndex)) == arenaIndex <==> arenaIndex < 0xFF
    ensures arenaIndex < 0xFE ==> IdCreate(arenaIndex, bitmapIndex) != MEMID_OS
  {}

  // An allocated range of blocks.
  datatype Range = Range(bit: nat, count: nat)

  ghost predicate Apart(a: Range, b: Range) { a.bit + a.count <= b.bit || b.bit + b.count <= a.bit }

  // Some live allocation is in the way.
  ghost predicate Taken(live: set<Range>, bit: nat, count: nat) {
    exists a :: a in live && !Apart(a, Range(bit, count))
  }

  ghost predicate AllTaken(live: set<Range>, blockCount: nat, count: nat) {
    forall bit: nat | bit + count <= blockCount :: Taken(live, bit, count)
  }

  class MemoryArena {
    const start: nat
    const blockCount: nat
    const fieldCount: nat
    const inuse: array<Word>
    const dirty: array<Word>
    const committed: array<Word>
    const canDecommit: bool       // allow_decommit; otherwise blocks_committed is NULL
    ghost var live: set<Range>    // the allocations handed out and not yet freed
    ghost var touched: set<nat>   // the blocks that were ever handed out
    ghost var backed: set<nat>    // the blocks that are committed

    ghost predicate Shape() {
      && inuse.Length == dirty.Length == committed.Length == fieldCount && inuse != dirty && inuse != committed
      && dirty != committed
      && 0 < blockCount <= fieldCount * FIELD_BITS < blockCount + FIELD_BITS
    }

    ghost predicate Valid()
      reads this, inuse, dirty, committed
    {
      && Shape() && LiveOk(live, blockCount) && InUse(inuse[..], live, blockCount)
      && BitsAre(dirty[..], touched) && (canDecommit ==> BitsAre(committed[..], backed))
    }

    // mi_manage_os_memory: memory of less than a block is refused.
    static method ManageOsMemory(base: nat, size: nat, isCommitted: bool, isLarge: bool)
      returns (r: Option<MemoryArena>)
      ensures r.None? <==> size < BLOCK_SIZE
      ensures r.Some? ==> fresh(r.value) && r.value.Valid() && r.value.live == {} && r.value.start == base
      ensures r.Some? ==> r.value.blockCount == size / BLOCK_SIZE && (r.value.canDecommit <==> !isLarge && !isCommitted)
    {
      if size < BLOCK_SIZE { return None; }
      var arena := new MemoryArena(base, size, isCommitted, isLarge);
      return Some(arena);
    }

    // Bits past the last block are claimed for good. Large memory counts as committed.
    constructor (base: nat, size: nat, isCommitted: bool, isLarge: bool)
      requires size >= BLOCK_SIZE
      ensures Valid() && start == base && blockCount == size / BLOCK_SIZE && live == {} && touched == {} && backed == {}
      ensures canDecommit <==> !isLarge && !isCommitted
      ensures fresh(inuse) && fresh(dirty) && fresh(committed)
    {
      var bcount := size / BLOCK_SIZE;
      var fields := DivideUp(bcount, FIELD_BITS);
      start, blockCount, fieldCount := base, bcount, fields;
      inuse := new Word[fields](_ => Zero());
      dirty := new Word[fields](_ => Zero());
      committed := new Word[fields](_ => Zero());
      canDecommit := !isLarge && !(isCommitted || isLarge);
      live, touched, backed := {}, {}, {};
      new;
      DivideUpBound(bcount);
      var post := fields * FIELD_BITS - bcount;
      EmptyBits(inuse[..]);
      EmptyBits(dirty[..]);
      EmptyBits(committed[..]);
      ghost var m := inuse[..];
      if post > 0 {
        var postidx := IndexCreate(fields - 1, FIELD_BITS - post);
        IndexRoundTrip(fields - 1, FIELD_BITS - post);
        var b, anyZero := ClaimInField(inuse, postidx, post);
      }
      LeftoverBits(m, inuse[..], bcount, post);
    }

    // mi_arena_alloc_from. `osZeroes` says whether committing would return zeroed memory.
    method AllocFrom(arenaIndex: nat, count: nat, commitWanted: bool, osZeroes: bool)
      returns (r: Option<nat>, memid: nat, isZero: bool, commit: bool)
      requires Valid() && count > 0
      modifies this, inuse, dirty, committed
      ensures Valid()
      ensures r.None? ==> live == old(live) && touched == old(touched) && backed == old(backed)
      ensures r.None? <==> AllTaken(old(live), blockCount, count)
      ensures r.Some? ==>
        live == old(live) + {Range(IdBlock(memid), count)} && memid == IdCreate(arenaIndex, IdBlock(memid))
      ensures r.Some? ==> forall a | a in old(live) :: Apart(a, Range(IdBlock(memid), count))
      ensures r.Some? ==>
        r.value == start + IdBlock(memid) * BLOCK_SIZE
          && r.value + count * BLOCK_SIZE <= start + blockCount * BLOCK_SIZE
      // zero exactly if no block was ever allocated before, or if blocks had to be committed and came zeroed
      ensures r.Some? ==> var blocks := Blocks(IdBlock(memid), count);
        isZero <==> blocks !! old(touched) || (osZeroes && commitWanted && canDecommit && !(blocks <= old(backed)))
      ensures r.Some? ==> touched == old(touched) + Blocks(IdBlock(memid), count)
      ensures r.Some? ==>
        (commit <==> commitWanted || !canDecommit || Blocks(IdBlock(memid), count) <= old(backed))
      ensures r.Some? ==>
        backed == if canDecommit && commitWanted then old(backed) + Blocks(IdBlock(memid), count) else old(backed)
    {
      hide InUse, BitsAre, LiveOk, Clear, Full, SetRange, Part;
      ghost var used, dirt, comm := inuse[..], dirty[..], committed[..];
      var ok, bit := TryFindFromClaimAcross(inuse, 0, count);
      if !ok {
        NoRun(used, live, blockCount, count);
        return None, 0, false, false;
      }
      RunFree(used, live, blockCount, bit, count);
      live := live + {Range(bit, count)};
      r := Some(start + bit * BLOCK_SIZE);
      memid := IdCreate(arenaIndex, bit);
      IdRoundTrip(arenaIndex, bit);
      var any;
      isZero, any := ClaimAcross(dirty, bit, count);
      BitsAdd(dirt, touched, bit, count);
      touched := touched + Blocks(bit, count);
      if !canDecommit {
        commit := true;
      } else if commitWanted {
        commit := true;
        var all, anyUncommitted := ClaimAcross(committed, bit, count);
        BitsAdd(comm, backed, bit, count);
        if anyUncommitted && osZeroes { isZero := true; }
        backed := backed + Blocks(bit, count);
      } else {
        commit, any := IsClaimedAcross(committed, bit, count);
        BitsAdd(comm, backed, bit, count);
      }
    }

    // _mi_arena_free of a live allocation.
    method Free(memid: nat, count: nat) returns (allInuse: bool)
      requires Valid() && Range(IdBlock(memid), count) in live
      modifies this, inuse, committed
      ensures Valid() && allInuse
      ensures live == old(live) - {Range(IdBlock(memid), count)} && touched == old(touched)
      ensures backed == if canDecommit then old(backed) - Blocks(IdBlock(memid), count) else old(backed)
    {
      hide InUse, BitsAre, Full, ClearRange, Part;
      ghost var used, comm := inuse[..], committed[..];
      var bit := IdBlock(memid);
      LiveFull(used, live, blockCount, bit, count);
      if canDecommit {
        var all := UnclaimAcross(committed, bit, count);
        BitsRemove(comm, backed, bit, count);
        backed := backed - Blocks(bit, count);
      }
      allInuse := UnclaimAcross(inuse, bit, count);
      live := live - {Range(bit, count)};
    }
  }

  ghost predicate InRange(bit: nat, count: nat, i: nat) { bit <= i < bit + count }

  ghost function Blocks(bit: nat, count: nat): (r: set<nat>)
    ensures forall i: nat :: i in r <==> InRange(bit, count, i)
  {
    if count == 0 then {} else Blocks(bit, count - 1) + {bit + count - 1}
  }

  // Live allocations lie inside the arena and do not overlap.
  ghost predicate LiveOk(live: set<Range>, blockCount: nat) {
    && (forall r | r in live :: r.count > 0 && r.bit + r.count <= blockCount)
    && (forall a, b | a in live && b in live && a != b :: Apart(a, b))
  }

  ghost predicate Covered(live: set<Range>, i: nat) { exists r :: r in live && r.bit <= i < r.bit + r.count }

  // A bit is set when its block is allocated or does not exist.
  ghost predicate InUse(m: seq<Word>, live: set<Range>, blockCount: nat) {
    forall i: nat | i < |m| * FIELD_BITS :: Bit(m, i) <==> i >= blockCount || Covered(live, i)
  }

  ghost predicate BitsAre(m: seq<Word>, s: set<nat>) {
    forall i: nat | i < |m| * FIELD_BITS :: Bit(m, i) <==> i in s
  }

  lemma EmptyBits(m: seq<Word>)
    requires forall f | 0 <= f < |m| :: m[f] == Zero()
    ensures BitsAre(m, {})
  {
    forall i: nat | i < |m| * FIELD_BITS ensures !Bit(m, i) { BitSplit(|m|, i); }
  }

  lemma LeftoverBits(m: seq<Word>, m': seq<Word>, bcount: nat, post: nat)
    requires BitsAre(m, {}) && |m| * FIELD_BITS == bcount + post && |m| > 0 && post < FIELD_BITS
    requires m' == if post > 0 then SetRange(m, IndexCreate(|m| - 1, FIELD_BITS - post), post) else m
    ensures InUse(m', {}, bcount)
  {
    forall i: nat | i < |m| * FIELD_BITS ensures Bit(m', i) <==> i >= bcount || Covered({}, i) {
      if post > 0 { SetBits(m, IndexCreate(|m| - 1, FIELD_BITS - post), post, i); }
    }
  }

  // A clear run of bits is a range of existing blocks that touches no live allocation.
  lemma RunFree(m: seq<Word>, live: set<Range>, blockCount: nat, bit: nat, count: nat)
    requires InUse(m, live, blockCount) && LiveOk(live, blockCount) && Clear(m, bit, count) && count > 0
      && blockCount <= |m| * FIELD_BITS
    ensures bit + count <= blockCount && (forall a | a in live :: Apart(a, Range(bit, count)))
    ensures InUse(SetRange(m, bit, count), live + {Range(bit, count)}, blockCount)
      && LiveOk(live + {Range(bit, count)}, blockCount)
    ensures bit + count <= |m| * FIELD_BITS && !AllTaken(live, blockCount, count)
  {
    assert bit + count <= |m| * FIELD_BITS;
    ClearBits(m, bit, count);
    assert !Bit(m, bit + count - 1);
    var r, live' := Range(bit, count), live + {Range(bit, count)};
    forall a | a in live ensures Apart(a, r) {
      var i := if a.bit > bit then a.bit else bit;
      assert a.bit <= i < a.bit + a.count ==> Covered(live, i);
    }
    assert !Taken(live, bit, count);
    forall i: nat | i < |m| * FIELD_BITS
      ensures Bit(SetRange(m, bit, count), i) <==> i >= blockCount || Covered(live', i)
    {
      SetBits(m, bit, count, i);
      CoveredMore(live, r, i);
    }
  }

  lemma CoveredMore(live: set<Range>, r: Range, i: nat)
    ensures Covered(live + {r}, i) <==> Covered(live, i) || r.bit <= i < r.bit + r.count
  {
    if r.bit <= i < r.bit + r.count { assert r in live + {r}; }
    if Covered(live, i) {
      var a :| a in live && a.bit <= i < a.bit + a.count;
      assert a in live + {r};
    }
  }

  // Without a clear run every place is taken.
  lemma NoRun(m: seq<Word>, live: set<Range>, blockCount: nat, count: nat)
    requires InUse(m, live, blockCount) && LiveOk(live, blockCount) && count > 0 && blockCount <= |m| * FIELD_BITS
    requires forall p: nat :: !Clear(m, p, count)
    ensures AllTaken(live, blockCount, count)
  {
    forall bit: nat | bit + count <= blockCount ensures Taken(live, bit, count) {
      assert !Clear(m, bit, count);
      ClearBits(m, bit, count);
      var i: nat :| bit <= i < bit + count && Bit(m, i);
      var a :| a in live && a.bit <= i < a.bit + a.count;
      assert !Apart(a, Range(bit, count));
    }
  }

  lemma BitsAdd(m: seq<Word>, s: set<nat>, bit: nat, count: nat)
    requires BitsAre(m, s) && bit + count <= |m| * FIELD_BITS
    ensures BitsAre(SetRange(m, bit, count), s + Blocks(bit, count))
    ensures Clear(m, bit, count) <==> Blocks(bit, count) !! s
    ensures Full(m, bit, count) <==> Blocks(bit, count) <= s
  {
    forall i: nat | i < |m| * FIELD_BITS
      ensures Bit(SetRange(m, bit, count), i) <==> i in s + Blocks(bit, count)
    {
      SetBits(m, bit, count, i);
    }
    ClearBits(m, bit, count);
    FullBits(m, bit, count);
    hide Clear, Full, SetRange, Bit;
  }

  lemma FullBits(m: seq<Word>, p: nat, count: nat)
    requires p + count <= |m| * FIELD_BITS
    ensures Full(m, p, count) <==> forall i: nat | p <= i < p + count :: Bit(m, i)
  {
    if Full(m, p, count) {
      forall i: nat | p <= i < p + count ensures Bit(m, i) {
        BitSplit(|m|, i);
        var f, k := i / FIELD_BITS, i % FIELD_BITS;
        assert And(m[f], Part(p, count, f))[k] == Part(p, count, f)[k];
      }
    }
    if forall i: nat | p <= i < p + count :: Bit(m, i) {
      forall f: nat | f < |m| ensures And(m[f], Part(p, count, f)) == Part(p, count, f) {
        forall k: nat | k < FIELD_BITS && Part(p, count, f)[k] ensures m[f][k] { BitAt(m, f, k); }
      }
    }
  }

  lemma BitsRemove(m: seq<Word>, s: set<nat>, bit: nat, count: nat)
    requires BitsAre(m, s) && bit + count <= |m| * FIELD_BITS
    ensures BitsAre(ClearRange(m, bit, count), s - Blocks(bit, count))
  {
    forall i: nat | i < |m| * FIELD_BITS
      ensures Bit(ClearRange(m, bit, count), i) <==> i in s - Blocks(bit, count)
    {
      SetBits(m, bit, count, i);
    }
  }

  lemma LiveFull(m: seq<Word>, live: set<Range>, blockCount: nat, bit: nat, count: nat)
    requires InUse(m, live, blockCount) && LiveOk(live, blockCount) && Range(bit, count) in live
      && blockCount <= |m| * FIELD_BITS
    ensures Full(m, bit, count) && count > 0 && bit + count <= |m| * FIELD_BITS
    ensures InUse(ClearRange(m, bit, count), live - {Range(bit, count)}, blockCount)
      && LiveOk(live - {Range(bit, count)}, blockCount)
  {
    var r, live' := Range(bit, count), live - {Range(bit, count)};
    assert bit + count <= |m| * FIELD_BITS;
    forall f: nat | f < |m| ensures And(m[f], Part(bit, count, f)) == Part(bit, count, f) {
      forall k: nat | k < FIELD_BITS && Part(bit, count, f)[k] ensures m[f][k] {
        BitAt(m, f, k);
        assert Covered(live, f * FIELD_BITS + k);
      }
    }
    forall i: nat | i < |m| * FIELD_BITS
      ensures Bit(ClearRange(m, bit, count), i) <==> i >= blockCount || Covered(live', i)
    {
      SetBits(m, bit, count, i);
      CoveredLess(live, r, i, blockCount);
    }
  }

  lemma CoveredLess(live: set<Range>, r: Range, i: nat, blockCount: nat)
    requires LiveOk(live, blockCount) && r in live
    ensures Covered(live - {r}, i) <==> Covered(live, i) && !(r.bit <= i < r.bit + r.count)
  {
    if Covered(live - {r}, i) {
      var a :| a in live - {r} && a.bit <= i < a.bit + a.count;
      assert Apart(a, r);
    } else if Covered(live, i) {
      var a :| a in live && a.bit <= i < a.bit + a.count;
      assert a == r || a in live - {r};
    }
  }
}
