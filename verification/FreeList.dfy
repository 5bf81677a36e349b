// The free list of a page: sequential and randomized builders, and page extension (page.c).
module FreeList {
  import opened Base
  import opened SliceBins
  import DList

  const MAX_SLICE_SHIFT: nat := 6
  const MIN_SLICES: nat := 2
  const MAX_EXTEND_SIZE: nat := 4096
  const ROUND: nat := 8          // bytes in a random word

  // The blocks on the list that starts at head, -1 ending it.
  ghost predicate IsFree(list: seq<nat>, next: seq<int>, head: int) {
    NoDup(list) && head == DList.At(list, 0) && forall k: nat | k < |list| :: NextAt(list, next, k)
  }

  ghost predicate NextAt(list: seq<nat>, next: seq<int>, k: nat)
    requires k < |list|
  {
    list[k] < |next| && next[list[k]] == DList.At(list, k + 1)
  }

  // A chain without its end: the last block's link is not set yet.
  ghost predicate Chain(order: seq<nat>, next: seq<int>) {
    forall k: nat | k + 1 < |order| :: NextAt(order, next, k)
  }

  // order holds each of the extend blocks from base once.
  ghost predicate Covers(order: seq<nat>, base: nat, extend: nat) {
    NoDup(order) && forall x :: x in order <==> base <= x < base + extend
  }

  ghost predicate InRange(list: seq<nat>, bound: nat) { forall x | x in list :: x < bound }

  // Two builders that cover the same blocks give the same list up to order.
  lemma {:induction false} SameBlocks(a: seq<nat>, b: seq<nat>)
    requires NoDup(a) && NoDup(b) && forall x :: x in a <==> x in b
    ensures multiset(a) == multiset(b)
    decreases |a|
  {
    if a == [] {
      HeadIn(b);
    } else {
      assert a[0] in a && a[0] in b;
      var k: nat :| k < |b| && b[k] == a[0];
      DList.WithoutMembers(b, k);
      DList.WithoutMembers(a, 0);
      BagWithout(b, k);
      BagWithout(a, 0);
      hide NoDup;
      SameBlocks(DList.Without(a, 0), DList.Without(b, k));
    }
  }

  lemma BagWithout(s: seq<nat>, k: nat)
    requires k < |s|
    ensures multiset(s) == multiset(DList.Without(s, k)) + multiset{s[k]}
  {
    assert s == s[..k] + [s[k]] + s[k + 1..];
  }

  lemma HeadIn(s: seq<nat>)
    ensures s == [] || s[0] in s
  {}

  // The blocks of the sequential builder, in its order.
  ghost function Range(base: nat, extend: nat): seq<nat> { seq(extend, k requires 0 <= k < extend => base + k) }

  lemma RangeCovers(base: nat, extend: nat)
    ensures Covers(Range(base, extend), base, extend)
  {
    forall x: nat | base <= x < base + extend
      ensures x in Range(base, extend)
    {
      assert Range(base, extend)[x - base] == x;
    }
  }

  // So they are the same count of blocks.
  lemma CoverCount(order: seq<nat>, base: nat, extend: nat)
    requires Covers(order, base, extend)
    ensures |order| == extend
  {
    var range := Range(base, extend);
    RangeCovers(base, extend);
    SameBlocks(order, range);
    assert |multiset(order)| == |order| && |multiset(range)| == |range|;
  }

  // Whatever the random numbers, the new free list has the blocks the sequential builder gives.
  lemma BuildersAgree(order: seq<nat>, base: nat, extend: nat, list: seq<nat>)
    requires Covers(order, base, extend)
    ensures multiset(order + list) == multiset(Range(base, extend) + list) && |order + list| == extend + |list|
  {
    RangeCovers(base, extend);
    SameBlocks(order, Range(base, extend));
    CoverCount(order, base, extend);
  }

  // A finished chain in front of an old list.
  lemma Prepend(order: seq<nat>, next: seq<int>, list: seq<nat>, next': seq<int>, head: int)
    requires order != [] && Chain(order, next') && IsFree(list, next, head) && NoDup(order) && |next'| == |next|
    requires order[|order| - 1] < |next| && next'[order[|order| - 1]] == head
    requires forall x | x in list :: x !in order
    requires forall x: nat | x < |next| && x in list :: next'[x] == next[x]
    ensures IsFree(order + list, next', order[0])
  {
    var all := order + list;
    NoDupConcat2(order, list);
    forall k: nat | k < |all| ensures NextAt(all, next', k) {
      if k + 1 < |order| {
        assert NextAt(order, next', k);
      } else if k >= |order| {
        assert NextAt(list, next, k - |order|) && list[k - |order|] in list;
      }
    }
  }

  lemma NoDupConcat2(a: seq<nat>, b: seq<nat>)
    requires NoDup(a) && NoDup(b) && forall x | x in b :: x !in a
    ensures NoDup(a + b)
  {
    NoDupConcat(a, b);
  }

  // ---- slices of the randomized builder

  // Slice s has blocks base + s * width up to SliceEnd; the last one also takes what is left over.
  ghost function SliceStart(base: nat, width: nat, s: nat): nat { base + s * width }

  ghost function SliceEnd(base: nat, extend: nat, width: nat, n: nat, s: nat): nat {
    if s + 1 == n then base + extend else base + (s + 1) * width
  }

  // Blocks are taken from the start of each slice; counts holds how many are left.
  ghost predicate TakenIn(x: nat, s: nat, base: nat, extend: nat, width: nat, counts: seq<nat>) {
    s < |counts| && SliceStart(base, width, s) <= x < SliceEnd(base, extend, width, |counts|, s) - counts[s]
  }

  ghost predicate Taken(x: nat, base: nat, extend: nat, width: nat, counts: seq<nat>) {
    exists s: nat :: TakenIn(x, s, base, extend, width, counts)
  }

  ghost predicate SliceSizes(base: nat, extend: nat, width: nat, counts: seq<nat>) {
    forall s: nat | s < |counts| :: SliceStart(base, width, s) <= SliceEnd(base, extend, width, |counts|, s) - counts[s]
  }

  // Where slice s goes on: its current block if it is the slice last taken from, the block after that otherwise.
  ghost predicate BlockAt(base: nat, extend: nat, width: nat, blocks: seq<nat>, counts: seq<nat>, current: nat, s: nat)
    requires s < |blocks| == |counts|
  {
    blocks[s] == SliceEnd(base, extend, width, |counts|, s) - counts[s] - (if s == current then 1 else 0)
  }

  ghost predicate Progress(base: nat, extend: nat, width: nat, blocks: seq<nat>, counts: seq<nat>, current: nat,
                           order: seq<nat>) {
    && |blocks| == |counts| > current && SliceSizes(base, extend, width, counts)
    && (forall s: nat | s < |counts| :: BlockAt(base, extend, width, blocks, counts, current, s))
    && (forall x :: x in order <==> Taken(x, base, extend, width, counts))
    && order != [] && NoDup(order) && order[|order| - 1] == blocks[current]
  }

  // Slices cut the range into pieces.
  lemma SlicesApart(base: nat, extend: nat, width: nat, n: nat, s: nat, t: nat)
    requires s < t < n && n * width <= extend
    ensures SliceEnd(base, extend, width, n, s) <= SliceStart(base, width, t)
      && SliceEnd(base, extend, width, n, t) <= base + extend
  {
    MulMono(s + 1, t, width);
    MulMono(t + 1, n, width);
  }

  lemma MulMono(a: nat, b: nat, w: nat)
    requires a <= b
    ensures a * w <= b * w
  {}

  lemma SliceIn(base: nat, extend: nat, width: nat, n: nat, s: nat)
    requires s < n && n * width <= extend
    ensures base <= SliceStart(base, width, s)
      && SliceStart(base, width, s) + width <= SliceEnd(base, extend, width, n, s) <= base + extend
  {
    MulMono(s + 1, n, width);
    assert (s + 1) * width == s * width + width;
  }

  lemma FindSlice(base: nat, extend: nat, width: nat, n: nat, x: nat) returns (s: nat)
    requires n > 0 && width > 0 && base <= x < base + extend
    ensures s < n && SliceStart(base, width, s) <= x < SliceEnd(base, extend, width, n, s)
  {
    s := 0;
    while s + 1 < n && base + (s + 1) * width <= x
      invariant s < n && base + s * width <= x
      decreases n - s
    {
      s := s + 1;
    }
  }

  // Once every slice is used up, all blocks are taken.
  lemma AllTaken(base: nat, extend: nat, width: nat, blocks: seq<nat>, counts: seq<nat>, current: nat, order: seq<nat>)
    requires Progress(base, extend, width, blocks, counts, current, order) && width > 0 && |counts| * width <= extend
    requires forall s: nat | s < |counts| :: counts[s] == 0
    ensures Covers(order, base, extend)
  {
    forall x: nat ensures x in order <==> base <= x < base + extend {
      assert x in order <==> Taken(x, base, extend, width, counts);
      if base <= x < base + extend {
        var t := FindSlice(base, extend, width, |counts|, x);
        assert TakenIn(x, t, base, extend, width, counts);
      }
      if Taken(x, base, extend, width, counts) {
        var t: nat :| TakenIn(x, t, base, extend, width, counts);
        SliceIn(base, extend, width, |counts|, t);
      }
    }
  }

  // While fewer than all blocks are taken, some slice has one left.
  lemma SomeLeft(base: nat, extend: nat, width: nat, blocks: seq<nat>, counts: seq<nat>, current: nat, order: seq<nat>)
    returns (s: nat)
    requires Progress(base, extend, width, blocks, counts, current, order) && width > 0 && |counts| * width <= extend
      && |order| < extend
    ensures s < |counts| && counts[s] > 0
  {
    s := 0;
    if s' :| 0 <= s' < |counts| && counts[s'] > 0 {
      s := s';
    } else {
      AllTaken(base, extend, width, blocks, counts, current, order);
      CoverCount(order, base, extend);
      assert false;
    }
  }

  // The next block comes from a slice that has one left; it is new, and the current block is linked to it.
  lemma TakeNext(base: nat, extend: nat, width: nat, blocks: seq<nat>, counts: seq<nat>, current: nat, order: seq<nat>,
                 nxt: nat)
    requires Progress(base, extend, width, blocks, counts, current, order) && |counts| * width <= extend
    requires nxt < |counts| && counts[nxt] > 0
    ensures var blocks' := blocks[current := blocks[current] + 1]; var counts' := counts[nxt := counts[nxt] - 1];
      && Progress(base, extend, width, blocks', counts', nxt, order + [blocks'[nxt]])
      && base <= blocks'[nxt] < base + extend && blocks'[nxt] !in order
  {
    hide SliceStart, SliceEnd, TakenIn;
    var blocks', counts' := blocks[current := blocks[current] + 1], counts[nxt := counts[nxt] - 1];
    var x := blocks'[nxt];
    var n := |counts|;
    assert BlockAt(base, extend, width, blocks, counts, current, nxt);
    assert x == SliceEnd(base, extend, width, n, nxt) - counts[nxt];
    SliceIn(base, extend, width, n, nxt);
    NotTaken(base, extend, width, counts, nxt, x);
    assert x !in order;
    hide BlockAt;
    TakenAll(base, extend, width, counts, nxt, order, x);
    NextSizes(base, extend, width, blocks, counts, current, nxt);
  }

  lemma NotTaken(base: nat, extend: nat, width: nat, counts: seq<nat>, nxt: nat, x: nat)
    requires |counts| * width <= extend && nxt < |counts| && SliceSizes(base, extend, width, counts)
    requires x == SliceEnd(base, extend, width, |counts|, nxt) - counts[nxt] && counts[nxt] > 0
    ensures !Taken(x, base, extend, width, counts)
  {
    var n := |counts|;
    hide SliceStart, SliceEnd;
    forall t: nat ensures !TakenIn(x, t, base, extend, width, counts) {
      if t < nxt { SlicesApart(base, extend, width, n, t, nxt); }
      if nxt < t < n { SlicesApart(base, extend, width, n, nxt, t); }
    }
  }

  lemma TakenAll(base: nat, extend: nat, width: nat, counts: seq<nat>, nxt: nat, order: seq<nat>, x: nat)
    requires forall y :: y in order <==> Taken(y, base, extend, width, counts)
    requires nxt < |counts| && SliceSizes(base, extend, width, counts)
    requires x == SliceEnd(base, extend, width, |counts|, nxt) - counts[nxt] && counts[nxt] > 0
    ensures forall y :: y in order + [x] <==> Taken(y, base, extend, width, counts[nxt := counts[nxt] - 1])
  {
    var counts' := counts[nxt := counts[nxt] - 1];
    hide SliceStart, SliceEnd, TakenIn, Taken;
    forall y: nat ensures y in order + [x] <==> Taken(y, base, extend, width, counts') {
      assert y in order <==> Taken(y, base, extend, width, counts);
      TakenMore(y, base, extend, width, counts, nxt);
    }
  }

  lemma NextSizes(base: nat, extend: nat, width: nat, blocks: seq<nat>, counts: seq<nat>, current: nat, nxt: nat)
    requires |blocks| == |counts| > current && SliceSizes(base, extend, width, counts) && nxt < |counts|
      && counts[nxt] > 0
    requires forall s: nat | s < |counts| :: BlockAt(base, extend, width, blocks, counts, current, s)
    ensures var blocks' := blocks[current := blocks[current] + 1]; var counts' := counts[nxt := counts[nxt] - 1];
      SliceSizes(base, extend, width, counts')
        && forall s: nat | s < |counts| :: BlockAt(base, extend, width, blocks', counts', nxt, s)
  {
    hide SliceStart, SliceEnd;
    var blocks', counts' := blocks[current := blocks[current] + 1], counts[nxt := counts[nxt] - 1];
    forall s: nat | s < |counts| ensures BlockAt(base, extend, width, blocks', counts', nxt, s) {
      assert BlockAt(base, extend, width, blocks, counts, current, s);
    }
  }

  lemma TakenMore(y: nat, base: nat, extend: nat, width: nat, counts: seq<nat>, nxt: nat)
    requires nxt < |counts| && counts[nxt] > 0
    requires SliceStart(base, width, nxt) <= SliceEnd(base, extend, width, |counts|, nxt) - counts[nxt]
    ensures Taken(y, base, extend, width, counts[nxt := counts[nxt] - 1]) <==>
      Taken(y, base, extend, width, counts) || y == SliceEnd(base, extend, width, |counts|, nxt) - counts[nxt]
  {
    var counts' := counts[nxt := counts[nxt] - 1];
    if Taken(y, base, extend, width, counts) {
      var t: nat :| TakenIn(y, t, base, extend, width, counts);
      assert TakenIn(y, t, base, extend, width, counts');
    }
    if y == SliceEnd(base, extend, width, |counts|, nxt) - counts[nxt] {
      assert TakenIn(y, nxt, base, extend, width, counts');
    }
    if Taken(y, base, extend, width, counts') {
      var t: nat :| TakenIn(y, t, base, extend, width, counts');
      assert t != nxt ==> TakenIn(y, t, base, extend, width, counts);
      assert t == nxt && y != SliceEnd(base, extend, width, |counts|, nxt) - counts[nxt] ==>
        TakenIn(y, t, base, extend, width, counts);
    }
  }

  // The set-up: every slice full, and the first block taken from one of them.
  lemma TakeFirst(base: nat, extend: nat, width: nat, blocks: seq<nat>, counts: seq<nat>, current: nat)
    requires |blocks| == |counts| > current && width > 0 && |counts| * width <= extend
    requires forall s: nat | s < |blocks| :: blocks[s] == SliceStart(base, width, s)
    requires forall s: nat | s < |blocks| ::
      counts[s] == SliceEnd(base, extend, width, |counts|, s) - SliceStart(base, width,
          s) - (if s == current then 1 else 0)
    ensures Progress(base, extend, width, blocks, counts, current, [blocks[current]])
    ensures base <= blocks[current] < base + extend
  {
    var n := |counts|;
    forall s: nat | s < n ensures BlockAt(base, extend, width, blocks, counts, current, s) {}
    SliceIn(base, extend, width, n, current);
    var order := [blocks[current]];
    forall x: nat ensures x in order <==> Taken(x, base, extend, width, counts) {
      assert x == blocks[current] ==> TakenIn(x, current, base, extend, width, counts);
      assert forall t: nat | TakenIn(x, t, base, extend, width, counts) :: t == current;
    }
  }

  // The probe: the first slice at or after `start`, going round, that has a block left.
  method Probe(counts: array<nat>, start: nat) returns (slot: nat)
    requires start < counts.Length && exists s: nat :: s < counts.Length && counts[s] > 0
    ensures slot < counts.Length && counts[slot] > 0
    ensures if start <= slot then forall t | start <= t < slot :: counts[t] == 0
            else (forall t | 0 <= t < slot :: counts[t] == 0) && forall t | start <= t < counts.Length :: counts[t] == 0
  {
    ghost var s: nat :| s < counts.Length && counts[s] > 0;
    ghost var wrapped := false;
    slot := start;
    while counts[slot] == 0
      invariant slot < counts.Length && (wrapped ==> slot <= s)
      invariant !wrapped ==>
        start <= slot && (s >= start ==> slot <= s) && forall t | start <= t < slot :: counts[t] == 0
      invariant wrapped ==>
        s < start && (forall t | 0 <= t < slot :: counts[t] == 0)
          && forall t | start <= t < counts.Length :: counts[t] == 0
      decreases if wrapped then 0 else 1, counts.Length - slot
    {
      slot := slot + 1;
      if slot == counts.Length {
        slot := 0;
        wrapped := true;
      }
    }
  }

  // The blocks below the bound, and those past the new ones, keep their links.
  ghost predicate OthersKept(next: seq<int>, next': seq<int>, base: nat, extend: nat) {
    |next| == |next'| && forall x: nat | x < |next| && !(base <= x < base + extend) :: next'[x] == next[x]
  }

  lemma SlicePlan(extend: nat, shift: nat)
    requires Pow2(shift) <= extend
    ensures extend / Pow2(shift) > 0 && Pow2(shift) * (extend / Pow2(shift)) <= extend
    ensures forall s: nat, base: nat | s < Pow2(shift) ::
      SliceEnd(base, extend, extend / Pow2(shift), Pow2(shift), s) - SliceStart(base, extend / Pow2(shift), s)
        == extend / Pow2(shift) + (if s + 1 == Pow2(shift) then extend % Pow2(shift) else 0)
  {
    var n, width := Pow2(shift), extend / Pow2(shift);
    forall s: nat, base: nat | s < n
      ensures SliceEnd(base, extend, width, n, s) - SliceStart(base, width, s) == width
        + (if s + 1 == n then extend % n else 0)
    {
      assert (s + 1) * width == s * width + width;
      if s + 1 == n { assert n * width + extend % n == extend; }
    }
  }

  class Page {
    const next: array<int>       // the link stored in each block
    const blockSize: nat
    const reserved: nat
    const isZeroInit: bool
    var free: int
    var localFree: int
    var used: nat
    var capacity: nat
    var isZero: bool
    ghost var freeList: seq<nat>
    ghost var localList: seq<nat>

    ghost predicate Valid()
      reads this, next
    {
      && blockSize > 0 && capacity <= reserved <= next.Length
      && IsFree(freeList, next[..], free) && IsFree(localList, next[..], localFree)
      && InRange(freeList, capacity) && InRange(localList, capacity)
      && (forall x | x in freeList :: x !in localList)
      && used + |freeList| + |localList| == capacity
    }

    // mi_page_free_list_extend
    method ExtendSequential(extend: nat) returns (ghost order: seq<nat>)
      requires extend > 0 && capacity + extend <= next.Length && IsFree(freeList, next[..], free)
        && InRange(freeList, capacity)
      modifies next, `free, `freeList
      ensures Covers(order, capacity, extend) && IsFree(freeList, next[..], free) && freeList == order + old(freeList)
      ensures order == Range(capacity, extend)
      ensures OthersKept(old(next[..]), next[..], capacity, extend)
    {
      ghost var was := next[..];
      order := Range(capacity, extend);
      RangeCovers(capacity, extend);
      var start := capacity;
      var last := capacity + extend - 1;
      LinkRange(start, last);
      next[last] := free;
      free := start;
      Prepend(order, was, freeList, next[..], old(free));
      freeList := order + freeList;
    }

    method LinkRange(start: nat, last: nat)
      requires start <= last < next.Length
      modifies next
      ensures forall x | 0 <= x < next.Length :: next[x] == if start <= x <= last then x + 1 else old(next[x])
    {
      var block := start;
      while block <= last
        invariant start <= block <= last + 1
        invariant forall x | 0 <= x < next.Length :: next[x] == if start <= x < block then x + 1 else old(next[x])
      {
        next[block] := block + 1;
        block := block + 1;
      }
    }

    // mi_page_free_list_extend_secure: r is the first random number, shuffled(j) the word used in rounds 8j to 8j+7.
    method ExtendSecure(extend: nat, r: nat, shuffled: nat -> nat) returns (ghost order: seq<nat>)
      requires extend > 0 && capacity + extend <= next.Length && IsFree(freeList, next[..], free)
        && InRange(freeList, capacity)
      modifies next, `free, `freeList
      ensures Covers(order, capacity, extend) && IsFree(freeList, next[..], free) && freeList == order + old(freeList)
      ensures OthersKept(old(next[..]), next[..], capacity, extend)
    {
      hide Covers, IsFree, OthersKept, Chain, InNew, InRange;
      ghost var was := next[..];
      var freeStart, end;
      freeStart, end, order := Thread(extend, r, shuffled);
      ghost var links := next[..];
      CoverAll(capacity, extend, order);
      next[end] := free;
      free := freeStart;
      Finish(order, was, links, next[..], freeList, old(free), capacity, extend);
      freeList := order + freeList;
    }

    // Link the new blocks, jumping between slices at random.
    method Thread(extend: nat, r: nat, shuffled: nat -> nat) returns (freeStart: nat, end: nat, ghost order: seq<nat>)
      requires extend > 0 && capacity + extend <= next.Length
      modifies next
      ensures |order| == extend && NoDup(order) && InNew(order, capacity, extend) && order[0] == freeStart
        && order[extend - 1] == end
      ensures end < next.Length && Chain(order, next[..]) && OthersKept(old(next[..]), next[..], capacity, extend)
    {
      hide Progress, OthersKept, Chain, InNew, NoDup, SliceStart, SliceEnd;
      ghost var was, base := next[..], capacity;
      var shift := SliceShift(extend);
      var sliceCount := Pow2(shift);
      var sliceExtend := extend / sliceCount;
      SlicePlan(extend, shift);
      var blocks, counts := SetUp(sliceCount, sliceExtend, capacity, extend % sliceCount);
      var current: nat := r % sliceCount;
      counts[current] := counts[current] - 1;
      freeStart := blocks[current];
      TakeFirst(base, extend, sliceExtend, blocks[..], counts[..], current);
      order := [freeStart];
      Started(was, freeStart, base, extend);
      var rnd := shuffled(0);
      for i := 1 to extend
        invariant blocks.Length == counts.Length == sliceCount && |order| == i && order[0] == freeStart
          && InNew(order, base, extend)
        invariant Progress(base, extend, sliceExtend, blocks[..], counts[..], current, order)
        invariant Chain(order, next[..]) && OthersKept(was, next[..], base, extend)
      {
        var round := i % ROUND;
        if round == 0 { rnd := shuffled(i / ROUND); }
        var slot := (rnd / Pow2(8 * round)) % sliceCount;
        current, order := Step(base, extend, sliceExtend, blocks, counts, current, slot, order, was);
      }
      LastTaken(base, extend, sliceExtend, blocks[..], counts[..], current, order);
      end := blocks[current];
    }

    // Link the current block to one of the slice at `slot`, or the first after it that has a block left.
    method Step(ghost base: nat, ghost extend: nat, ghost width: nat, blocks: array<nat>, counts: array<nat>,
                current: nat, slot: nat,
                ghost order: seq<nat>, ghost was: seq<int>) returns (nxt: nat, ghost order': seq<nat>)
      requires blocks != counts && blocks.Length == counts.Length > slot && width > 0 && counts.Length * width <= extend
      requires Progress(base, extend, width, blocks[..], counts[..], current, order) && |order| < extend
        && InNew(order, base, extend)
      requires Chain(order, next[..]) && OthersKept(was, next[..], base, extend) && base + extend <= next.Length
      modifies blocks, counts, next
      ensures Progress(base, extend, width, blocks[..], counts[..], nxt, order')
      ensures |order'| == |order| + 1 && order' == order + [order'[|order|]] && InNew(order', base, extend)
      ensures Chain(order', next[..]) && OthersKept(was, next[..], base, extend)
    {
      hide Progress, OthersKept, Chain, InNew, NoDup;
      ghost var some := SomeLeft(base, extend, width, blocks[..], counts[..], current, order);
      nxt := Probe(counts, slot);
      ghost var links, blocks0, counts0 := next[..], blocks[..], counts[..];
      TakeNext(base, extend, width, blocks0, counts0, current, order, nxt);
      LastTaken(base, extend, width, blocks0, counts0, current, order);
      counts[nxt] := counts[nxt] - 1;
      assert counts[..] == counts0[nxt := counts0[nxt] - 1];
      var block := blocks[current];
      blocks[current] := block + 1;
      assert blocks[..] == blocks0[current := blocks0[current] + 1];
      next[block] := blocks[nxt];
      assert next[..] == links[block := blocks[nxt]];
      order' := order + [blocks[nxt]];
      ChainMore(order, links, base, extend, blocks[nxt], was);
    }

    // mi_page_extend_free; secure is the MI_SECURE level.
    method Extend(secure: nat, r: nat, shuffled: nat -> nat)
      requires Valid()
      modifies this, next
      ensures Valid() && used == old(used) && localList == old(localList)
      ensures secure <= 2 && old(free) != -1 ==>
        capacity == old(capacity) && freeList == old(freeList) && next[..] == old(next[..])
      ensures secure > 2 || old(free) == -1 ==>
        && capacity == old(capacity) + NewBlocks(blockSize, reserved - old(capacity), secure)
        && (old(capacity) < reserved ==> capacity > old(capacity) && free != -1)
      ensures exists order ::
        Covers(order, old(capacity), capacity - old(capacity)) && freeList == order + old(freeList)
      ensures OthersKept(old(next[..]), next[..], old(capacity), capacity - old(capacity))
      ensures isZero == (old(isZero) && (isZeroInit || capacity == old(capacity)))
    {
      hide Covers, IsFree, OthersKept, InRange;
      ghost var was, list, bound := next[..], freeList, capacity;
      NothingNew(was, bound);
      assert [] + list == list;
      if secure <= 2 && free != -1 { return; }
      if capacity >= reserved { return; }
      var extend := reserved - capacity;
      var minExtend := if secure > 0 then 8 * secure else 1;
      var maxExtend := if blockSize >= MAX_EXTEND_SIZE then minExtend else MAX_EXTEND_SIZE / blockSize;
      if maxExtend < minExtend { maxExtend := minExtend; }
      if extend > maxExtend { extend := maxExtend; }
      ghost var order;
      if extend < MIN_SLICES || secure == 0 {
        order := ExtendSequential(extend);
      } else {
        order := ExtendSecure(extend, r, shuffled);
      }
      Extended(was, next[..], order, freeList, list, localList, localFree, bound, extend, free);
      capacity := capacity + extend;
      if !isZeroInit { isZero := false; }
    }

    constructor (blocks: nat, size: nat, zero: bool)
      requires size > 0
      ensures Valid() && reserved == blocks && blockSize == size && capacity == 0 && used == 0 && freeList == []
        && localList == [] && fresh(next)
    {
      next := new int[blocks];
      blockSize, reserved, isZeroInit, isZero := size, blocks, zero, zero;
      free, localFree, used, capacity := -1, -1, 0, 0;
      freeList, localList := [], [];
    }
  }

  // How far a page grows: to its end, or to one OS page of blocks.
  function NewBlocks(blockSize: nat, left: nat, secure: nat): (n: nat)
    requires blockSize > 0
    ensures n <= left && (left > 0 ==> n > 0)
    ensures secure == 0 && n > 1 ==> n * blockSize <= MAX_EXTEND_SIZE
  {
    var least := if secure > 0 then 8 * secure else 1;
    var most := MAX_EXTEND_SIZE / blockSize;
    var bound := if most < least then least else most;
    if left < bound then left else bound
  }

  // It grows by as much as fits in that.
  lemma NewBlocksFill(blockSize: nat, left: nat, secure: nat)
    requires blockSize > 0
    ensures NewBlocks(blockSize, left, secure) < left ==>
      (NewBlocks(blockSize, left, secure) + 1) * blockSize > MAX_EXTEND_SIZE
  {
    var n, most := NewBlocks(blockSize, left, secure), MAX_EXTEND_SIZE / blockSize;
    if n < left {
      MostBlocks(blockSize, most);
      Times(most + 1, n + 1, blockSize);
    }
  }

  lemma MostBlocks(blockSize: nat, most: nat)
    requires blockSize > 0 && most == MAX_EXTEND_SIZE / blockSize
    ensures (most + 1) * blockSize > MAX_EXTEND_SIZE
  {
    assert MAX_EXTEND_SIZE == most * blockSize + MAX_EXTEND_SIZE % blockSize;
  }

  lemma Times(a: nat, b: nat, c: nat)
    requires a <= b
    ensures a * c <= b * c
  {}

  ghost predicate InNew(order: seq<nat>, base: nat, extend: nat) { forall x | x in order :: base <= x < base + extend }

  lemma LastTaken(base: nat, extend: nat, width: nat, blocks: seq<nat>, counts: seq<nat>, current: nat, order: seq<nat>)
    requires Progress(base, extend, width, blocks, counts, current, order) && InNew(order, base, extend)
    ensures current < |blocks| && order != [] && order[|order| - 1] == blocks[current]
      && base <= blocks[current] < base + extend && NoDup(order)
  {
    assert order[|order| - 1] in order;
  }

  lemma ChainMore(order: seq<nat>, next: seq<int>, base: nat, extend: nat, x: nat, was: seq<int>)
    requires order != [] && Chain(order, next) && NoDup(order) && InNew(order, base, extend)
      && base <= x < base + extend <= |next|
    requires OthersKept(was, next, base, extend)
    ensures order[|order| - 1] < |next|
    ensures var next' := next[order[|order| - 1] := x];
      Chain(order + [x], next') && OthersKept(was, next', base, extend) && InNew(order + [x], base, extend)
  {
    assert order[|order| - 1] in order;
    var next' := next[order[|order| - 1] := x];
    forall k: nat | k + 1 < |order + [x]| ensures NextAt(order + [x], next', k) {
      if k + 1 < |order| { assert NextAt(order, next, k); }
    }
  }

  // A full count of different new blocks covers them.
  lemma CoverAll(base: nat, extend: nat, order: seq<nat>)
    requires NoDup(order) && InNew(order, base, extend) && |order| == extend
    ensures Covers(order, base, extend)
  {
    var range := Range(base, extend);
    RangeCovers(base, extend);
    NoDupCard(order);
    NoDupCard(range);
    SubsetCard(Elems(order), Elems(range));
    forall x: nat ensures x in order <==> base <= x < base + extend { assert x in Elems(order) <==> x in Elems(range); }
  }

  lemma Finish(order: seq<nat>, was: seq<int>, links: seq<int>, next: seq<int>, list: seq<nat>, head: int, base: nat,
               extend: nat)
    requires order != [] && Chain(order, links) && Covers(order, base, extend) && OthersKept(was, links, base, extend)
    requires base + extend <= |links| && IsFree(list, was, head) && InRange(list, base)
    requires var last := order[|order| - 1]; last < |links| && next == links[last := head]
    ensures IsFree(order + list, next, order[0]) && OthersKept(was, next, base, extend)
  {
    assert order[|order| - 1] in order;
    forall k: nat | k + 1 < |order| ensures NextAt(order, next, k) {
      assert NextAt(order, links, k);
    }
    Prepend(order, was, list, next, head);
  }

  // Putting new blocks in front keeps the page's books.
  lemma Extended(was: seq<int>, next: seq<int>, order: seq<nat>, freeList: seq<nat>, list: seq<nat>,
                 localList: seq<nat>, localFree: int,
                 bound: nat, extend: nat, head: int)
    requires Covers(order, bound, extend) && freeList == order + list && OthersKept(was, next, bound, extend)
      && extend > 0
    requires IsFree(localList, was, localFree) && InRange(localList, bound) && InRange(list, bound)
      && forall x | x in list :: x !in localList
    ensures |freeList| == |list| + extend && IsFree(localList, next, localFree)
    ensures InRange(freeList, bound + extend) && InRange(localList, bound + extend)
      && forall x | x in freeList :: x !in localList
    requires IsFree(freeList, next, head)
    ensures freeList != [] && head >= 0
  {
    CoverCount(order, bound, extend);
    forall k: nat | k < |localList| ensures NextAt(localList, next, k) {
      assert NextAt(localList, was, k) && localList[k] in localList;
    }
  }

  lemma NothingNew(was: seq<int>, bound: nat)
    ensures Covers([], bound, 0) && OthersKept(was, was, bound, 0)
  {}

  lemma Started(was: seq<int>, x: nat, base: nat, extend: nat)
    requires base <= x < base + extend
    ensures Chain([x], was) && OthersKept(was, was, base, extend) && InNew([x], base, extend)
  {}

  // As many slices as there are blocks for, up to 64.
  method SliceShift(extend: nat) returns (shift: nat)
    requires extend > 0
    ensures shift <= MAX_SLICE_SHIFT && Pow2(shift) <= extend && (shift == MAX_SLICE_SHIFT || extend < Pow2(shift + 1))
  {
    shift := MAX_SLICE_SHIFT;
    while extend / Pow2(shift) == 0
      invariant shift <= MAX_SLICE_SHIFT && (shift == MAX_SLICE_SHIFT || extend < Pow2(shift + 1))
      decreases shift
    {
      assert Pow2(0) == 1;
      shift := shift - 1;
    }
  }

  // Slices start one after the other, the last one taking the remainder.
  method SetUp(sliceCount: nat, sliceExtend: nat, base: nat, left: nat) returns (blocks: array<nat>, counts: array<nat>)
    requires sliceCount > 0
    ensures fresh(blocks) && fresh(counts) && blocks != counts && blocks.Length == counts.Length == sliceCount
    ensures forall s: nat | s < sliceCount :: blocks[s] == SliceStart(base, sliceExtend, s)
    ensures forall s: nat | s < sliceCount :: counts[s] == sliceExtend + (if s + 1 == sliceCount then left else 0)
  {
    blocks := new nat[sliceCount];
    counts := new nat[sliceCount];
    for i := 0 to sliceCount
      invariant forall s: nat | s < i :: blocks[s] == SliceStart(base, sliceExtend, s) && counts[s] == sliceExtend
    {
      blocks[i] := base + i * sliceExtend;
      counts[i] := sliceExtend;
    }
    counts[sliceCount - 1] := counts[sliceCount - 1] + left;
  }
}
