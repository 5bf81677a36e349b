// A heap's page queues and the direct table that caches their heads (page-queue.c, heap.c).
module PageQueue {
  import opened Base
  import opened PageBins
  import DList

  // A page as its queue sees it: block is xblock_size in bytes, heap the identity of its heap, -1 the null link.
  datatype Page = Page(block: nat, inFull: bool, heap: nat, prev: int, next: int)
  datatype Queue = Queue(first: int, last: int)

  function QueueOf(p: Page): nat { if p.inFull then BIN_FULL else BinOf(p.block) }

  // Queues that pages can be in.
  predicate QueueBin(bin: nat) { UsedBin(bin) || bin == BIN_HUGE || bin == BIN_FULL }

  // ---- lists

  ghost function Prevs(s: seq<Page>): (r: seq<int>)
    ensures |r| == |s|
  {
    seq(|s|, i requires 0 <= i < |s| => s[i].prev)
  }

  ghost function Nexts(s: seq<Page>): (r: seq<int>)
    ensures |r| == |s|
  {
    seq(|s|, i requires 0 <= i < |s| => s[i].next)
  }

  ghost predicate ListAt(s: seq<Page>, q: Queue, list: seq<nat>) {
    DList.IsList(list, Prevs(s), Nexts(s), q.first, q.last)
  }

  ghost predicate Lists(s: seq<Page>, q: seq<Queue>, qs: seq<seq<nat>>) {
    |q| == |qs| == BIN_FULL + 1 && forall b: nat | b <= BIN_FULL :: ListAt(s, q[b], qs[b])
  }

  // Each page is in the queue of its size, or in the full queue.
  ghost predicate HomeAt(s: seq<Page>, id: nat, b: nat, p: nat) { p < |s| && s[p].heap == id && QueueOf(s[p]) == b }

  ghost predicate Homes(s: seq<Page>, qs: seq<seq<nat>>, id: nat) {
    |qs| == BIN_FULL + 1
      && forall b: nat, p {:trigger HomeAt(s, id, b, p)} {:trigger p in qs[b]} | b <= BIN_FULL && p in qs[b] ::
           HomeAt(s, id, b, p)
  }

  ghost predicate Unlisted(qs: seq<seq<nat>>, p: nat) { forall b: nat | b < |qs| :: p !in qs[b] }

  ghost function Total(qs: seq<seq<nat>>): nat {
    if qs == [] then 0 else Total(qs[..|qs| - 1]) + |qs[|qs| - 1]|
  }

  lemma {:induction false} TotalUpdate(qs: seq<seq<nat>>, b: nat, list: seq<nat>)
    requires b < |qs|
    ensures Total(qs[b := list]) == Total(qs) - |qs[b]| + |list|
    decreases |qs|
  {
    var n := |qs| - 1;
    if b == n {
      assert qs[b := list][..n] == qs[..n];
    } else {
      TotalUpdate(qs[..n], b, list);
      assert qs[b := list][..n] == qs[..n][b := list];
    }
  }

  // ---- the direct table

  // Entry w is the first page of the queue for w words, -1 standing for the empty page.
  ghost predicate DirectOk(direct: seq<int>, q: seq<Queue>) {
    |direct| == SMALL_WSIZE_MAX + 1 && |q| == BIN_FULL + 1
      && forall w: nat | w <= SMALL_WSIZE_MAX :: EntryOk(direct, q, w)
  }

  ghost predicate EntryOk(direct: seq<int>, q: seq<Queue>, w: nat)
    requires w < |direct| && |q| == BIN_FULL + 1
  {
    BinOfWords(w) <= BIN_FULL && direct[w] == q[BinOfWords(w)].first
  }

  // All entries but those of one bin are right, and those agree with each other.
  ghost predicate DirectBut(direct: seq<int>, q: seq<Queue>, bin: nat) {
    && |direct| == SMALL_WSIZE_MAX + 1 && |q| == BIN_FULL + 1
    && (forall w: nat | w <= SMALL_WSIZE_MAX && BinOfWords(w) != bin :: EntryOk(direct, q, w))
    && (forall v: nat, w: nat | v <= SMALL_WSIZE_MAX && w <= SMALL_WSIZE_MAX && BinOfWords(v) == bin == BinOfWords(w) ::
         direct[v] == direct[w])
  }

  lemma DirectChange(direct: seq<int>, q: seq<Queue>, bin: nat, r: Queue)
    requires DirectOk(direct, q) && bin <= BIN_FULL
    ensures DirectBut(direct, q[bin := r], bin) && (r.first == q[bin].first ==> DirectOk(direct, q[bin := r]))
  {
    hide BinOfWords;
    forall w: nat | w <= SMALL_WSIZE_MAX && BinOfWords(w) != bin
      ensures EntryOk(direct, q[bin := r], w)
    {
      assert EntryOk(direct, q, w);
    }
    forall v: nat, w: nat | v <= SMALL_WSIZE_MAX && w <= SMALL_WSIZE_MAX && BinOfWords(v) == bin == BinOfWords(w)
      ensures direct[v] == direct[w]
    {
      assert EntryOk(direct, q, v) && EntryOk(direct, q, w);
    }
    if r.first == q[bin].first {
      var q' := q[bin := r];
      forall w: nat | w <= SMALL_WSIZE_MAX ensures EntryOk(direct, q', w) { assert EntryOk(direct, q, w); }
    }
  }

  // The small sizes of a bin, as the code computes them from the block sizes.
  lemma DirectRange(bin: nat, w: nat)
    requires UsedBin(bin) && w <= SMALL_WSIZE_MAX
    ensures BinOfWords(w) == bin <==> (if bin == 1 then 0 else 1 + BlockWords(PrevUsed(bin))) <= w <= BlockWords(bin)
  {
    if w == 0 {
      if bin != 1 { PositiveBlock(bin); }
    } else {
      BinInterval(bin, w);
    }
  }

  lemma PositiveBlock(bin: nat)
    requires UsedBin(bin)
    ensures BlockWords(bin) > 0
  {
    BlockMedium(bin);
  }

  // The bins of sizes beyond the table have no entry in it.
  lemma NoEntries(bin: nat, w: nat)
    requires QueueBin(bin) && BlockWords(bin) > SMALL_WSIZE_MAX && w <= SMALL_WSIZE_MAX
    ensures BinOfWords(w) != bin
  {
    if w > 0 {
      BinUsed(w);
      if UsedBin(bin) {
        BinInterval(bin, w);
        hide BlockWords, BinOfWords;
        LastDirect();
        if bin > 24 { BlocksGrow(24, PrevUsed(bin)); } else { BlocksGrow(bin, 24); }
      }
    }
  }

  lemma LastDirect()
    ensures BlockWords(24) == SMALL_WSIZE_MAX
  {}

  // Where the search for the previous size ends.
  lemma PrevSearch(bin: nat, prev: nat)
    requires UsedBin(bin) && bin > 1 && PrevUsed(bin) <= prev < bin && BlockWords(bin) <= SMALL_WSIZE_MAX
    ensures BinOfWords(BlockWords(prev)) == bin <==> prev > PrevUsed(bin)
  {
    if bin > 8 {
      assert prev == PrevUsed(bin);
      if prev > 8 {
        BlockMedium(prev);
        BlockMedium(bin);
        BinInterval(prev, BlockWords(prev));
        hide BlockWords, BinOfWords;
        BlocksGrow(PrevUsed(prev), prev);
      } else {
        EightWords();
      }
    }
  }

  function Min(a: nat, b: nat): nat { if a > b then b else a }

  class Heap {
    const id: nat
    const pages: array<Page>
    const queues: array<Queue>
    const direct: array<int>      // pages_free_direct
    var pageCount: nat
    ghost var qs: seq<seq<nat>>

    ghost predicate Shape() { queues.Length == BIN_FULL + 1 && direct.Length == SMALL_WSIZE_MAX + 1 }

    ghost predicate Linked()
      reads this, pages, queues, direct
    {
      Shape() && Lists(pages[..], queues[..], qs) && Homes(pages[..], qs, id) && DirectOk(direct[..], queues[..])
    }

    ghost predicate Valid()
      reads this, pages, queues, direct
    {
      Linked() && pageCount == Total(qs)
    }

    // mi_heap_queue_first_update
    method FirstUpdate(bin: nat)
      requires Shape() && QueueBin(bin) && DirectBut(direct[..], queues[..], bin)
      modifies direct
      ensures DirectOk(direct[..], queues[..])
    {
      hide BinOfWords, BlockWords, EntryOk, DirectOk;
      ghost var d, q := direct[..], queues[..];
      var size := BlockWords(bin);
      if size > SMALL_WSIZE_MAX {
        NoneStale(direct[..], queues[..], bin);
        return;
      }
      SmallBin(bin);
      var page := queues[bin].first;
      var idx := size;
      DirectRange(bin, idx);
      if bin != 1 { PrevBelow(bin); }
      if direct[idx] == page {
        AlreadySet(direct[..], queues[..], bin);
        return;
      }
      var start: nat := 0;
      if idx > 1 {
        MoreThanOne(bin);
        var prev: nat := bin - 1;
        PrevSearch(bin, prev);
        while bin == BinOfWords(BlockWords(prev)) && prev > 0
          invariant PrevUsed(bin) <= prev < bin && direct[..] == d && queues[..] == q
          invariant bin == BinOfWords(BlockWords(prev)) <==> prev > PrevUsed(bin)
          decreases prev
        {
          prev := prev - 1;
          PrevSearch(bin, prev);
        }
        start := Min(1 + BlockWords(prev), idx);
      } else {
        OneWord(bin);
      }
      for sz := start to idx + 1
        invariant queues[..] == q
        invariant forall k | 0 <= k < direct.Length :: direct[k] == if start <= k < sz then page else d[k]
      {
        direct[sz] := page;
      }
      RangeSet(d, direct[..], q, bin, start, idx, page);
    }

    // ---- links

    method SetPrev(i: nat, v: int)
      requires i < pages.Length
      modifies pages
      ensures Prevs(pages[..]) == Prevs(old(pages[..]))[i := v] && Nexts(pages[..]) == Nexts(old(pages[..]))
      ensures SameBut(old(pages[..]), pages[..], {i}) && SameHome(old(pages[..]), pages[..])
    {
      pages[i] := pages[i].(prev := v);
    }

    method SetNext(i: nat, v: int)
      requires i < pages.Length
      modifies pages
      ensures Nexts(pages[..]) == Nexts(old(pages[..]))[i := v] && Prevs(pages[..]) == Prevs(old(pages[..]))
      ensures SameBut(old(pages[..]), pages[..], {i}) && SameHome(old(pages[..]), pages[..])
    {
      pages[i] := pages[i].(next := v);
    }

    method DropEnds(bin: nat, p: nat, pr: int, nx: int)
      requires Shape() && QueueBin(bin) && DirectOk(direct[..], queues[..])
      modifies queues, direct
      ensures DirectOk(direct[..], queues[..])
      ensures queues[..] ==
        old(queues[..])[bin := Queue(if old(queues[bin]).first == p then nx else old(queues[bin]).first,
                                                         if old(queues[bin]).last == p then pr
                                                           else old(queues[bin]).last)]
    {
      hide DirectOk, DirectBut;
      ghost var q, d := queues[..], direct[..];
      DirectChange(d, q, bin,
                   Queue(if q[bin].first == p then nx else q[bin].first, if q[bin].last == p then pr else q[bin].last));
      if p == queues[bin].last { queues[bin] := queues[bin].(last := pr); }
      if p == queues[bin].first {
        queues[bin] := queues[bin].(first := nx);
        assert queues[..] == q[bin := Queue(nx, if q[bin].last == p then pr else q[bin].last)];
        FirstUpdate(bin);
      } else {
        assert queues[..] == q[bin := Queue(q[bin].first, if q[bin].last == p then pr else q[bin].last)];
      }
    }

    // Unlink page p from the queue of its bin; the head of the queue goes to the direct table.
    method Unlink(bin: nat, p: nat, ghost k: nat)
      requires Linked() && QueueBin(bin) && k < |qs[bin]| && qs[bin][k] == p
      modifies pages, queues, direct, `qs
      ensures Shape() && Lists(pages[..], queues[..], qs) && DirectOk(direct[..], queues[..])
      ensures qs == old(qs)[bin := DList.Without(old(qs)[bin], k)] && p < pages.Length
      ensures SameHome(old(pages[..]), pages[..]) && SameBut(old(pages[..]), pages[..], Elems(old(qs)[bin]))
      ensures pages[p].prev == -1 && pages[p].next == -1
    {
      hide Homes, SameHome, SameBut, DirectOk, DirectBut, Prevs, Nexts, Lists;
      ghost var s, q, d := pages[..], queues[..], direct[..];
      MemberLinks(s, q, qs, bin, k);
      var pr, nx := pages[p].prev, pages[p].next;
      HomeSelf(s);
      if pr != -1 { SetNext(pr, nx); }
      ghost var s1 := pages[..];
      HomeSelf(s1);
      if nx != -1 { SetPrev(nx, pr); }
      ghost var s2 := pages[..];
      DropEnds(bin, p, pr, nx);
      SetNext(p, -1);
      ghost var s3 := pages[..];
      SetPrev(p, -1);
      Unlinked(s, s1, s2, s3, pages[..], qs[bin], p, pr, nx);
      UnlinkLists(s, pages[..], q, queues[..], qs, id, bin, k);
      qs := qs[bin := DList.Without(qs[bin], k)];
    }

    method SetFull(p: nat, full: bool)
      requires p < pages.Length
      modifies pages
      ensures pages[..] == old(pages[..])[p := old(pages[p]).(inFull := full)]
    {
      pages[p] := pages[p].(inFull := full);
    }

    // mi_page_queue_remove
    method Remove(bin: nat, p: nat, ghost k: nat)
      requires Valid() && QueueBin(bin) && k < |qs[bin]| && qs[bin][k] == p
      modifies this, pages, queues, direct
      ensures Valid() && qs == old(qs)[bin := DList.Without(old(qs)[bin], k)] && pageCount == old(pageCount) - 1
      ensures p < pages.Length && Unlisted(qs, p)
      ensures SameBut(old(pages[..]), pages[..], Elems(old(qs)[bin]))
      ensures SameHome(old(pages[..])[p := old(pages[p]).(inFull := false)], pages[..])
      ensures pages[p].prev == -1 && pages[p].next == -1
    {
      hide Lists, Homes, SameHome, SameBut, DirectOk, Total, QueueOf;
      ghost var s, qs0 := pages[..], qs;
      EndsInRange(s, queues[..], qs, bin);
      Unlink(bin, p, k);
      TotalUpdate(qs0, bin, qs[bin]);
      pageCount := pageCount - 1;
      ghost var s1 := pages[..];
      RemovedHomes(s, s1, queues[..], qs0, id, bin, k);
      SetFull(p, false);
      NotListed(s1, pages[..], queues[..], qs, id, p);
      SameSet(s, s1, pages[..], qs0[bin], p);
      FullHome(s, s1, p, false);
    }

    // Put a page that is in no queue in front of one.
    method Push(bin: nat, p: nat)
      requires Valid() && QueueBin(bin) && p < pages.Length && pages[p].heap == id && Unlisted(qs, p)
      requires bin != BIN_FULL ==> BinOf(pages[p].block) == bin
      modifies this, pages, queues, direct
      ensures Valid() && qs == old(qs)[bin := [p] + old(qs)[bin]] && pageCount == old(pageCount) + 1
      ensures SameBut(old(pages[..]), pages[..], Elems(old(qs)[bin]) + {p})
      ensures SameHome(old(pages[..])[p := old(pages[p]).(inFull := bin == BIN_FULL)], pages[..])
    {
      hide Lists, Homes, SameHome, SameBut, DirectOk, DirectBut, Total, QueueOf, Prevs, Nexts, BinOf;
      ghost var s, q, qs0, d := pages[..], queues[..], qs, direct[..];
      EndsInRange(s, q, qs, bin);
      SetFull(p, bin == BIN_FULL);
      ghost var s0 := pages[..];
      NotListed(s, s0, q, qs, id, p);
      var first := queues[bin].first;
      SetNext(p, first);
      ghost var s1 := pages[..];
      SetPrev(p, -1);
      ghost var s2 := pages[..];
      HomeSelf(s2);
      DirectChange(d, q, bin, Queue(p, if first == -1 then p else q[bin].last));
      if first != -1 {
        SetPrev(first, p);
        queues[bin] := queues[bin].(first := p);
      } else {
        queues[bin] := Queue(p, p);
      }
      assert queues[..] == q[bin := Queue(p, if first == -1 then p else q[bin].last)];
      FirstUpdate(bin);
      pageCount := pageCount + 1;
      FrontSame(s, s0, s1, s2, pages[..], qs[bin], p, first);
      PushLists(s0, pages[..], q, queues[..], qs, id, bin, p);
      TotalUpdate(qs, bin, [p] + qs[bin]);
      NewHome(s0, pages[..], id, bin, p);
      AddedHomes(s0, pages[..], qs, id, bin, p, [p] + qs[bin]);
      qs := qs[bin := [p] + qs[bin]];
    }

    // Move a page from its queue to the end of another.
    method EnqueueFrom(to: nat, from: nat, p: nat, ghost k: nat)
      requires Valid() && QueueBin(to) && QueueBin(from) && to != from && k < |qs[from]| && qs[from][k] == p
      requires p < pages.Length && (to != BIN_FULL ==> BinOf(pages[p].block) == to)
      modifies this, pages, queues, direct
      ensures Valid() && qs == old(qs)[from := DList.Without(old(qs)[from], k)][to := old(qs)[to] + [p]]
        && pageCount == old(pageCount)
      ensures SameBut(old(pages[..]), pages[..], Elems(old(qs)[from]) + Elems(old(qs)[to]))
      ensures SameHome(old(pages[..])[p := old(pages[p]).(inFull := to == BIN_FULL)], pages[..])
    {
      hide Lists, Homes, SameHome, SameBut, DirectOk, DirectBut, Total, QueueOf, Prevs, Nexts, BinOf;
      ghost var s, qs0 := pages[..], qs;
      EndsInRange(s, queues[..], qs, from);
      PageHome(s, qs, id, from, p);
      Unlink(from, p, k);
      ghost var s1, q1, d1, qs1 := pages[..], queues[..], direct[..], qs;
      RemovedHomes(s, s1, q1, qs0, id, from, k);
      EndsInRange(s1, q1, qs1, to);
      SetFull(p, to == BIN_FULL);
      ghost var s2 := pages[..];
      NotListed(s1, s2, q1, qs1, id, p);
      var last := queues[to].last;
      SetPrev(p, last);
      ghost var s3 := pages[..];
      SetNext(p, -1);
      ghost var s4 := pages[..];
      HomeSelf(s4);
      DirectChange(d1, q1, to, Queue(if last == -1 then p else q1[to].first, p));
      if last != -1 {
        SetNext(last, p);
        queues[to] := queues[to].(last := p);
        assert queues[..] == q1[to := Queue(q1[to].first, p)];
      } else {
        queues[to] := Queue(p, p);
        FirstUpdate(to);
        assert queues[..] == q1[to := Queue(p, p)];
      }
      FrontSame(s1, s2, s3, s4, pages[..], qs1[to], p, last);
      EnqueueLists(s2, pages[..], q1, queues[..], qs1, id, to, p);
      SameFields(s, s1, p);
      FullHome(s, s1, p, to == BIN_FULL);
      HomeOn(s[p := s[p].(inFull := to == BIN_FULL)], s2, pages[..]);
      MovedSame(s, s1, pages[..], qs0[from], qs0[to], p);
      NewHome(s2, pages[..], id, to, p);
      AddedHomes(s2, pages[..], qs1, id, to, p, qs1[to] + [p]);
      TotalUpdate(qs0, from, qs1[from]);
      TotalUpdate(qs1, to, qs1[to] + [p]);
      qs := qs1[to := qs1[to] + [p]];
    }

    // ---- another heap's pages

    // _mi_page_queue_append: the pages of `from` in this bin join the end of this heap's queue. Their owner
    // must be changed in all of them; `from` still names them as its own.
    method Append(bin: nat, from: Heap, ghost list: seq<nat>) returns (count: nat)
      requires Linked() && bin <= BIN_FULL && (QueueBin(bin) || list == [])
      requires from != this && from.pages == pages && from.queues != queues && from.queues.Length == BIN_FULL + 1
      requires ListAt(pages[..], from.queues[bin], list) && from.id != id
      requires forall p | p in list :: HomeAt(pages[..], from.id, bin, p)
      modifies pages, queues, direct, `qs
      ensures Linked() && count == |list| && qs == old(qs)[bin := old(qs)[bin] + list]
      ensures forall i: nat | i < pages.Length && i !in old(qs)[bin] && i !in list :: pages[i] == old(pages[i])
      ensures Rehomed(old(pages[..]), pages[..], Elems(list), id)
    {
      hide Lists, Homes, SameHome, SameBut, DirectOk, DirectBut, QueueOf, Prevs, Nexts, BinOf;
      ghost var s, q, d := pages[..], queues[..], direct[..];
      EndsInRange(s, q, qs, bin);
      ListEnds(s, from.queues[bin], list);
      if from.queues[bin].first == -1 {
        assert qs[bin] + list == qs[bin];
        assert qs[bin := qs[bin] + list] == qs;
        NoneRehomed(s, id);
        return 0;
      }
      count := TakeOver(bin, from, list);
      ghost var s1 := pages[..];
      var first, last := from.queues[bin].first, from.queues[bin].last;
      DirectChange(d, q, bin, Queue(if q[bin].last == -1 then first else q[bin].first, last));
      if queues[bin].last == -1 {
        queues[bin] := Queue(first, last);
        FirstUpdate(bin);
        assert queues[..] == q[bin := Queue(first, last)];
        HomeSelf(s1);
        assert qs[bin] + list == list;
      } else {
        SetNext(queues[bin].last, first);
        ghost var s2 := pages[..];
        SetPrev(first, queues[bin].last);
        queues[bin] := queues[bin].(last := last);
        assert queues[..] == q[bin := Queue(q[bin].first, last)];
        HomeTrans(s1, s2, pages[..], {q[bin].last as nat}, {first as nat});
        SameMore(s1, pages[..], {q[bin].last as nat} + {first as nat}, {first as nat} + Elems(qs[bin]));
      }
      AppendLists(s, s1, pages[..], q, queues[..], qs, id, from.id, bin, list, from.queues[bin]);
      OwnedHome(s, s1, pages[..], list, id);
      qs := qs[bin := qs[bin] + list];
    }

    // The loop over the appended pages.
    method TakeOver(bin: nat, from: Heap, ghost list: seq<nat>) returns (count: nat)
      requires bin <= BIN_FULL && from.pages == pages && from.queues.Length == BIN_FULL + 1
        && ListAt(pages[..], from.queues[bin], list)
      modifies pages
      ensures count == |list| && Owned(old(pages[..]), pages[..], list, id)
    {
      ghost var s := pages[..];
      count := 0;
      var page := from.queues[bin].first;
      while page != -1
        invariant count <= |list| && page == DList.At(list, count) && Owned(s, pages[..], list[..count], id)
        decreases |list| - count
      {
        NextPage(s, pages[..], from.queues[bin], list, count, id);
        pages[page] := pages[page].(heap := id);
        OwnedMore(s, pages[..], list, count, id);
        page := pages[page].next;
        count := count + 1;
      }
      assert list[..count] == list;
    }

    // mi_heap_absorb, the delayed frees aside: every page of `from` ends up in this heap.
    method Absorb(from: Heap)
      requires Valid() && from.Valid() && from != this && from.pages == pages && from.id != id
      requires from.queues != queues && from.direct != direct
      modifies this, from, pages, queues, from.queues, direct, from.direct
      ensures Valid() && from.Valid()
      ensures |old(qs)| == |old(from.qs)| == |qs| == |from.qs| == BIN_FULL + 1
      ensures forall b | 0 <= b <= BIN_FULL :: qs[b] == old(qs)[b] + old(from.qs)[b] && from.qs[b] == []
      ensures pageCount == old(pageCount) + old(from.pageCount) && from.pageCount == 0
      ensures Rehomed(old(pages[..]), pages[..], Members(old(from.qs)), id)
    {
      hide Lists, Homes, DirectOk, Total, QueueOf, ListAt, Rehomed, Members;
      ghost var s0 := pages[..];
      NoneRehomed(s0, id);
      ghost var qs0, fqs0, count0, fcount0 := qs, from.qs, pageCount, from.pageCount;
      ghost var fq := from.queues[..];
      HeapShape(pages[..], queues[..], qs);
      HeapShape(pages[..], fq, fqs0);
      AllForeign(pages[..], fq, fqs0, from.id);
      NoMembers(fqs0);
      if from.pageCount == 0 {
        NoPages(from.qs);
        return;
      }
      assert Total(fqs0[..0]) == 0 by { EmptyTotal(fqs0[..0]); }
      for i := 0 to BIN_FULL + 1
        invariant Valid() && from.queues[..] == fq && from.qs == fqs0
        invariant |qs| == BIN_FULL + 1
          && forall b | 0 <= b <= BIN_FULL :: qs[b] == if b < i then qs0[b] + fqs0[b] else qs0[b]
        invariant from.pageCount == Total(fqs0) - Total(fqs0[..i]) && pageCount == count0 + Total(fqs0[..i])
        invariant forall b: nat | i <= b <= BIN_FULL :: Foreign(pages[..], fq, fqs0, from.id, b)
        invariant Rehomed(s0, pages[..], Members(fqs0[..i]), id)
      {
        ghost var s, qs1 := pages[..], qs;
        assert Foreign(s, fq, fqs0, from.id, i);
        ForeignEmpty(s, fq, fqs0, from.id, i);
        var pcount := Append(i, from, fqs0[i]);
        TotalUpdate(qs1, i, qs1[i] + fqs0[i]);
        TotalStep(fqs0, i);
        TotalPrefix(fqs0, i + 1);
        pageCount := pageCount + pcount;
        from.pageCount := from.pageCount - pcount;
        ForeignKept(s, pages[..], qs1, id, fq, fqs0, from.id, i);
        RehomedBoth(s0, s, pages[..], Members(fqs0[..i]), Elems(fqs0[i]), id);
        MembersNext(fqs0, i);
      }
      assert fqs0[..BIN_FULL + 1] == fqs0;
      from.Reset();
    }

    // mi_heap_reset_pages
    method Reset()
      requires Shape()
      modifies this, queues, direct
      ensures Valid() && pageCount == 0 && |qs| == BIN_FULL + 1 && forall b | 0 <= b <= BIN_FULL :: qs[b] == []
    {
      for w := 0 to direct.Length
        invariant forall k | 0 <= k < w :: direct[k] == -1
      {
        direct[w] := -1;
      }
      for b := 0 to queues.Length
        invariant forall k | 0 <= k < b :: queues[k] == Queue(-1, -1)
        invariant forall k | 0 <= k < direct.Length :: direct[k] == -1
      {
        queues[b] := Queue(-1, -1);
      }
      pageCount := 0;
      qs := seq(BIN_FULL + 1, _ => []);
      EmptyHeap(pages[..], queues[..], qs, direct[..], id);
    }

    constructor (identity: nat, pageTable: array<Page>)
      ensures Valid() && id == identity && pages == pageTable && pageCount == 0 && fresh(queues) && fresh(direct)
      ensures |qs| == BIN_FULL + 1 && forall b | 0 <= b <= BIN_FULL :: qs[b] == []
    {
      id, pages := identity, pageTable;
      queues := new Queue[BIN_FULL + 1](_ => Queue(-1, -1));
      direct := new int[SMALL_WSIZE_MAX + 1](_ => -1);
      pageCount := 0;
      qs := seq(BIN_FULL + 1, _ => []);
      new;
      EmptyHeap(pages[..], queues[..], qs, direct[..], id);
    }
  }

  // Pages outside x keep everything.
  ghost predicate SameBut(s: seq<Page>, s': seq<Page>, x: set<nat>) {
    |s| == |s'| && forall i: nat | i < |s| && i !in x :: s'[i] == s[i]
  }

  // Links aside, pages are the same.
  ghost predicate SameHome(s: seq<Page>, s': seq<Page>) {
    |s| == |s'| && forall i: nat | i < |s| :: s'[i] == s[i].(prev := s'[i].prev, next := s'[i].next)
  }

  lemma FullHome(s: seq<Page>, s1: seq<Page>, p: nat, full: bool)
    requires SameHome(s, s1) && p < |s|
    ensures SameHome(s[p := s[p].(inFull := full)], s1[p := s1[p].(inFull := full)])
  {}

  lemma HomeOn(s: seq<Page>, s1: seq<Page>, s2: seq<Page>)
    requires SameHome(s, s1) && SameHome(s1, s2)
    ensures SameHome(s, s2)
  {}

  lemma MovedSame(s: seq<Page>, s1: seq<Page>, s': seq<Page>, from: seq<nat>, to: seq<nat>, p: nat)
    requires SameBut(s, s1, Elems(from)) && SameBut(s1, s', Elems(to) + {p}) && p in from
    ensures SameBut(s, s', Elems(from) + Elems(to))
  {}

  // Links aside, pages are the same but for those in x, which belong to heap id now.
  ghost predicate Rehomed(s: seq<Page>, s': seq<Page>, x: set<nat>, id: nat) {
    |s| == |s'| && forall i: nat | i < |s| ::
      s'[i] == s[i].(heap := if i in x then id else s[i].heap, prev := s'[i].prev, next := s'[i].next)
  }

  lemma NoneRehomed(s: seq<Page>, id: nat)
    ensures Rehomed(s, s, {}, id) && Elems<nat>([]) == {}
  {}

  lemma RehomedBoth(s: seq<Page>, s1: seq<Page>, s2: seq<Page>, x: set<nat>, y: set<nat>, id: nat)
    requires Rehomed(s, s1, x, id) && Rehomed(s1, s2, y, id)
    ensures Rehomed(s, s2, x + y, id)
  {}

  ghost function Members(qs: seq<seq<nat>>): set<nat> { set b: nat, p | b < |qs| && p in qs[b] :: p }

  lemma NoMembers(qs: seq<seq<nat>>)
    ensures Members(qs[..0]) == {}
    ensures (forall b | 0 <= b < |qs| :: qs[b] == []) ==> Members(qs) == {}
  {}

  lemma MembersNext(qs: seq<seq<nat>>, i: nat)
    requires i < |qs|
    ensures Members(qs[..i + 1]) == Members(qs[..i]) + Elems(qs[i])
  {
    var less, more := qs[..i], qs[..i + 1];
    forall p ensures p in Members(more) <==> p in Members(less) + Elems(qs[i]) {
      if p in qs[i] { assert p in more[i]; }
      if b: nat :| b < |less| && p in less[b] { assert p in more[b]; }
      if b: nat :| b < |more| && p in more[b] { assert b < i ==> p in less[b]; }
    }
  }

  lemma HomeSelf(s: seq<Page>)
    ensures SameHome(s, s) && SameBut(s, s, {})
  {}

  lemma HomeTrans(s: seq<Page>, s1: seq<Page>, s2: seq<Page>, x: set<nat>, y: set<nat>)
    requires SameHome(s, s1) && SameHome(s1, s2) && SameBut(s, s1, x) && SameBut(s1, s2, y)
    ensures SameHome(s, s2) && SameBut(s, s2, x + y)
  {
    forall i: nat | i < |s| ensures s2[i] == s[i].(prev := s2[i].prev, next := s2[i].next) {
      assert s1[i] == s[i].(prev := s1[i].prev, next := s1[i].next);
    }
  }

  lemma SameMore(s: seq<Page>, s': seq<Page>, x: set<nat>, y: set<nat>)
    requires SameBut(s, s', x) && x <= y
    ensures SameBut(s, s', y)
  {}

  lemma Unlinked(s: seq<Page>, s1: seq<Page>, s2: seq<Page>, s3: seq<Page>, s4: seq<Page>, list: seq<nat>, p: nat,
                 pr: int, nx: int)
    requires p in list && p < |s| && (pr == -1 || (pr >= 0 && pr in list)) && (nx == -1 || (nx >= 0 && nx in list))
    requires SameHome(s, s1) && (if pr == -1 then s1 == s else SameBut(s, s1, {pr}))
    requires SameHome(s1, s2) && (if nx == -1 then s2 == s1 else SameBut(s1, s2, {nx}))
    requires SameHome(s2, s3) && SameBut(s2, s3, {p}) && SameHome(s3, s4) && SameBut(s3, s4, {p})
    requires Nexts(s3)[p] == -1 && Nexts(s4) == Nexts(s3) && Prevs(s4)[p] == -1
    ensures SameHome(s, s4) && SameBut(s, s4, Elems(list)) && s4[p].prev == -1 && s4[p].next == -1
  {
    hide SameHome, SameBut;
    var x: set<nat> := if pr == -1 then {} else {pr};
    var y: set<nat> := if nx == -1 then {} else {nx};
    HomeSelf(s);
    HomeSelf(s1);
    HomeTrans(s, s1, s2, x, y);
    HomeTrans(s, s2, s3, x + y, {p});
    HomeTrans(s, s3, s4, x + y + {p}, {p});
    SameMore(s, s4, x + y + {p} + {p}, Elems(list));
    assert Nexts(s4)[p] == s4[p].next && Prevs(s4)[p] == s4[p].prev;
  }

  lemma MemberLinks(s: seq<Page>, q: seq<Queue>, qs: seq<seq<nat>>, bin: nat, k: nat)
    requires Lists(s, q, qs) && bin <= BIN_FULL && k < |qs[bin]|
    ensures |q| == |qs| == BIN_FULL + 1 && qs[bin][k] < |s|
    ensures var p := s[qs[bin][k]];
      && (p.prev == -1 || (0 <= p.prev < |s| && p.prev in qs[bin] && p.prev != qs[bin][k]))
      && (p.next == -1 || (0 <= p.next < |s| && p.next in qs[bin] && p.next != qs[bin][k]))
      && p.prev == DList.At(qs[bin], k - 1) && p.next == DList.At(qs[bin], k + 1)
  {
    var list := qs[bin];
    assert ListAt(s, q[bin], list);
    assert DList.LinkedAt(list, Prevs(s), Nexts(s), k);
    if k > 0 { assert DList.LinkedAt(list, Prevs(s), Nexts(s), k - 1); }
    if k + 1 < |list| { assert DList.LinkedAt(list, Prevs(s), Nexts(s), k + 1); }
  }

  lemma UnlinkLists(s: seq<Page>, s': seq<Page>, q: seq<Queue>, q': seq<Queue>, qs: seq<seq<nat>>, id: nat, bin: nat,
                    k: nat)
    requires Lists(s, q, qs) && Homes(s, qs, id) && bin <= BIN_FULL && k < |qs[bin]| && qs[bin][k] < |s| == |s'|
    requires SameBut(s, s', Elems(qs[bin]))
    requires var p := qs[bin][k]; var pr, nx := s[p].prev, s[p].next;
      && Nexts(s') == DList.PutNext(Nexts(s), pr, nx)[p := -1] && Prevs(s') == DList.PutNext(Prevs(s), nx, pr)[p := -1]
      && q' == q[bin := Queue(if q[bin].first == p then nx
           else q[bin].first, if q[bin].last == p then pr else q[bin].last)]
    ensures Lists(s', q', qs[bin := DList.Without(qs[bin], k)])
  {
    var list := qs[bin];
    assert ListAt(s, q[bin], list);
    assert Nexts(s)[list[k]] == s[list[k]].next && Prevs(s)[list[k]] == s[list[k]].prev;
    DList.Remove(list, Prevs(s), Nexts(s), q[bin].first, q[bin].last, k);
    forall i, b: nat | i in Elems(list) && b <= BIN_FULL && i in qs[b]
      ensures b == bin
    {
      assert HomeAt(s, id, b, i) && HomeAt(s, id, bin, i);
    }
    hide Homes;
    OtherLists(s, s', q, q', qs, bin, DList.Without(list, k), Elems(list));
  }

  // Lists of other bins hold other pages, so they survive changes to the pages of this one.
  lemma OtherLists(s: seq<Page>, s': seq<Page>, q: seq<Queue>, q': seq<Queue>, qs: seq<seq<nat>>, bin: nat,
                   list: seq<nat>, x: set<nat>)
    requires Lists(s, q, qs) && bin <= BIN_FULL && |q'| == |q| && q' == q[bin := q'[bin]]
    requires ListAt(s', q'[bin], list) && SameBut(s, s', x)
    requires forall i, b: nat | i in x && b <= BIN_FULL && i in qs[b] :: b == bin
    ensures Lists(s', q', qs[bin := list])
  {
    forall b: nat | b <= BIN_FULL ensures ListAt(s', q'[b], qs[bin := list][b]) {
      if b != bin {
        assert ListAt(s, q[b], qs[b]);
        forall i | i in qs[b] && i < |s| ensures Prevs(s')[i] == Prevs(s)[i] && Nexts(s')[i] == Nexts(s)[i] {
          assert i !in x;
        }
        DList.Frame(qs[b], Prevs(s), Nexts(s), Prevs(s'), Nexts(s'), q[b].first, q[b].last);
      }
    }
  }

  lemma SmallBin(bin: nat)
    requires QueueBin(bin) && BlockWords(bin) <= SMALL_WSIZE_MAX
    ensures UsedBin(bin) && bin <= 24
  {
    if bin > 24 && bin <= 52 {
      hide BlockWords;
      LastDirect();
      BlocksGrow(24, bin);
    }
  }

  lemma OneWord(bin: nat)
    requires UsedBin(bin) && BlockWords(bin) <= 1
    ensures bin == 1
  {
    if bin > 8 {
      EightWords();
      hide BlockWords;
      BlocksGrow(8, bin);
    }
  }

  lemma MoreThanOne(bin: nat)
    requires UsedBin(bin) && BlockWords(bin) > 1
    ensures bin > 1
  {}

  lemma NoneStale(direct: seq<int>, q: seq<Queue>, bin: nat)
    requires DirectBut(direct, q, bin) && QueueBin(bin) && BlockWords(bin) > SMALL_WSIZE_MAX
    ensures DirectOk(direct, q)
  {
    hide BinOfWords, BlockWords;
    forall w: nat | w <= SMALL_WSIZE_MAX ensures EntryOk(direct, q, w) { NoEntries(bin, w); }
  }

  lemma AlreadySet(direct: seq<int>, q: seq<Queue>, bin: nat)
    requires DirectBut(direct, q, bin) && UsedBin(bin) && BlockWords(bin) <= SMALL_WSIZE_MAX
      && BinOfWords(BlockWords(bin)) == bin
    requires |q| == BIN_FULL + 1 && direct[BlockWords(bin)] == q[bin].first
    ensures DirectOk(direct, q)
  {
    hide BinOfWords, BlockWords;
    forall w: nat | w <= SMALL_WSIZE_MAX ensures EntryOk(direct, q, w) {
      if BinOfWords(w) == bin { assert direct[w] == direct[BlockWords(bin)]; }
    }
  }

  lemma RangeSet(d: seq<int>, d': seq<int>, q: seq<Queue>, bin: nat, start: nat, idx: nat, page: int)
    requires DirectBut(d, q, bin) && UsedBin(bin) && |d'| == |d| && idx == BlockWords(bin) <= SMALL_WSIZE_MAX
      && page == q[bin].first
    requires start == (if bin == 1 then 0 else 1 + BlockWords(PrevUsed(bin)))
    requires forall k | 0 <= k < |d| :: d'[k] == if start <= k < idx + 1 then page else d[k]
    ensures DirectOk(d', q)
  {
    hide BinOfWords, BlockWords;
    forall w: nat | w <= SMALL_WSIZE_MAX ensures EntryOk(d', q, w) {
      DirectRange(bin, w);
      if BinOfWords(w) != bin { assert EntryOk(d, q, w); }
    }
  }

  lemma EndsInRange(s: seq<Page>, q: seq<Queue>, qs: seq<seq<nat>>, bin: nat)
    requires Lists(s, q, qs) && bin <= BIN_FULL
    ensures |q| == |qs| == BIN_FULL + 1 && q[bin].first == DList.At(qs[bin], 0)
      && q[bin].last == DList.At(qs[bin], |qs[bin]| - 1)
    ensures q[bin].first != -1 ==> 0 <= q[bin].first < |s| && q[bin].first in qs[bin]
    ensures q[bin].last != -1 ==> 0 <= q[bin].last < |s| && q[bin].last in qs[bin]
    ensures q[bin].first == -1 <==> q[bin].last == -1
  {
    var list := qs[bin];
    assert ListAt(s, q[bin], list);
    if list != [] {
      assert DList.LinkedAt(list, Prevs(s), Nexts(s), 0) && DList.LinkedAt(list, Prevs(s), Nexts(s), |list| - 1);
    }
  }

  // After the unlinking the other pages are still at home, and p is in no queue.
  lemma RemovedHomes(s: seq<Page>, s': seq<Page>, q': seq<Queue>, qs: seq<seq<nat>>, id: nat, bin: nat, k: nat)
    requires Homes(s, qs, id) && SameHome(s, s') && bin <= BIN_FULL && k < |qs[bin]|
    requires Lists(s', q', qs[bin := DList.Without(qs[bin], k)]) && exists q0 :: Lists(s, q0, qs)
    ensures Homes(s', qs[bin := DList.Without(qs[bin], k)], id)
    ensures Unlisted(qs[bin := DList.Without(qs[bin], k)], qs[bin][k])
  {
    var p, qs' := qs[bin][k], qs[bin := DList.Without(qs[bin], k)];
    var q0 :| Lists(s, q0, qs);
    assert ListAt(s, q0[bin], qs[bin]);
    DList.WithoutMembers(qs[bin], k);
    hide Lists;
    forall b: nat, x | b <= BIN_FULL && x in qs'[b] ensures HomeAt(s', id, b, x) && x != p {
      assert x in qs[b] && HomeAt(s, id, b, x) && HomeAt(s, id, bin, p);
    }
  }

  // A page in no queue may change its flag.
  lemma NotListed(s: seq<Page>, s': seq<Page>, q: seq<Queue>, qs: seq<seq<nat>>, id: nat, p: nat)
    requires Lists(s, q, qs) && Homes(s, qs, id) && p < |s| && Unlisted(qs, p)
    requires |s'| == |s| && s' == s[p := s'[p]] && s'[p].prev == s[p].prev && s'[p].next == s[p].next
    ensures Lists(s', q, qs) && Homes(s', qs, id)
  {
    assert Prevs(s') == Prevs(s) && Nexts(s') == Nexts(s);
    forall b: nat | b <= BIN_FULL ensures ListAt(s', q[b], qs[b]) { assert ListAt(s, q[b], qs[b]); }
    hide ListAt;
    forall b: nat, x | b <= BIN_FULL && x in qs[b]
      ensures HomeAt(s', id, b, x)
    {
      assert HomeAt(s, id, b, x) && x != p;
    }
  }

  lemma SameSet(s: seq<Page>, s1: seq<Page>, s2: seq<Page>, list: seq<nat>, p: nat)
    requires SameBut(s, s1, Elems(list)) && p in list && p < |s1| && |s2| == |s1| && s2 == s1[p := s2[p]]
    ensures SameBut(s, s2, Elems(list))
  {}

  lemma FrontSame(s: seq<Page>, s0: seq<Page>, s1: seq<Page>, s2: seq<Page>, s3: seq<Page>, list: seq<nat>, p: nat,
                  first: int)
    requires p < |s| == |s0| && s0 == s[p := s0[p]] && (first == -1 || (first >= 0 && first in list))
    requires SameHome(s0, s1) && SameBut(s0, s1, {p}) && SameHome(s1, s2) && SameBut(s1, s2, {p})
    requires SameHome(s2, s3) && (if first == -1 then s3 == s2 else SameBut(s2, s3, {first}))
    ensures SameHome(s0, s3) && SameBut(s0, s3, Elems(list) + {p}) && SameBut(s, s3, Elems(list) + {p})
  {
    var x: set<nat> := if first == -1 then {} else {first};
    HomeSelf(s2);
    hide SameHome;
    assert SameBut(s, s0, {p});
    hide SameBut;
    HomeTrans(s0, s1, s2, {p}, {p});
    HomeTrans(s0, s2, s3, {p} + {p}, x);
    SameMore(s0, s3, {p} + {p} + x, Elems(list) + {p});
    SameTrans(s, s0, s3, {p}, Elems(list) + {p});
    SameMore(s, s3, {p} + (Elems(list) + {p}), Elems(list) + {p});
  }

  lemma SameTrans(s: seq<Page>, s1: seq<Page>, s2: seq<Page>, x: set<nat>, y: set<nat>)
    requires SameBut(s, s1, x) && SameBut(s1, s2, y)
    ensures SameBut(s, s2, x + y)
  {}

  lemma PushLists(s: seq<Page>, s': seq<Page>, q: seq<Queue>, q': seq<Queue>, qs: seq<seq<nat>>, id: nat, bin: nat,
                  p: nat)
    requires Lists(s, q, qs) && Homes(s, qs, id) && bin <= BIN_FULL && p < |s| == |s'| && Unlisted(qs, p)
    requires SameBut(s, s', Elems(qs[bin]) + {p})
    requires var f := q[bin].first;
      && Prevs(s') == DList.PutNext(Prevs(s)[p := -1], f, p) && Nexts(s') == Nexts(s)[p := f]
      && q' == q[bin := Queue(p, if f == -1 then p else q[bin].last)]
    ensures Lists(s', q', qs[bin := [p] + qs[bin]])
  {
    var list := qs[bin];
    assert ListAt(s, q[bin], list);
    DList.PushFront(list, Prevs(s), Nexts(s), q[bin].first, q[bin].last, p);
    forall i, b: nat | i in Elems(list) + {p} && b <= BIN_FULL && i in qs[b]
      ensures b == bin
    {
      assert HomeAt(s, id, b, i) && HomeAt(s, id, bin, i);
    }
    hide Homes;
    OtherLists(s, s', q, q', qs, bin, [p] + list, Elems(list) + {p});
  }

  lemma NewHome(s: seq<Page>, s': seq<Page>, id: nat, bin: nat, p: nat)
    requires SameHome(s, s') && p < |s| && s[p].heap == id && s[p].inFull == (bin == BIN_FULL)
      && (bin != BIN_FULL ==> BinOf(s[p].block) == bin)
    ensures HomeAt(s', id, bin, p)
  {
    hide BinOf;
  }

  lemma AddedHomes(s: seq<Page>, s': seq<Page>, qs: seq<seq<nat>>, id: nat, bin: nat, p: nat, list: seq<nat>)
    requires Homes(s, qs, id) && SameHome(s, s') && bin <= BIN_FULL && HomeAt(s', id, bin, p)
    requires forall x | x in list :: x in qs[bin] || x == p
    ensures Homes(s', qs[bin := list], id)
  {
    var qs' := qs[bin := list];
    forall b: nat, x | b <= BIN_FULL && x in qs'[b] ensures HomeAt(s', id, b, x) {
      if x in qs[b] { assert HomeAt(s, id, b, x); }
    }
  }

  lemma PageHome(s: seq<Page>, qs: seq<seq<nat>>, id: nat, bin: nat, p: nat)
    requires Homes(s, qs, id) && bin <= BIN_FULL && p in qs[bin]
    ensures p < |s| && s[p].heap == id
  {
    assert HomeAt(s, id, bin, p);
  }

  lemma SameFields(s: seq<Page>, s': seq<Page>, p: nat)
    requires SameHome(s, s') && p < |s|
    ensures s'[p].heap == s[p].heap && s'[p].block == s[p].block
  {}

  lemma EnqueueLists(s: seq<Page>, s': seq<Page>, q: seq<Queue>, q': seq<Queue>, qs: seq<seq<nat>>, id: nat, bin: nat,
                     p: nat)
    requires Lists(s, q, qs) && Homes(s, qs, id) && bin <= BIN_FULL && p < |s| == |s'| && Unlisted(qs, p)
    requires SameBut(s, s', Elems(qs[bin]) + {p})
    requires var l := q[bin].last;
      && Prevs(s') == Prevs(s)[p := l] && Nexts(s') == DList.PutNext(Nexts(s)[p := -1], l, p)
      && q' == q[bin := Queue(if l == -1 then p else q[bin].first, p)]
    ensures Lists(s', q', qs[bin := qs[bin] + [p]])
  {
    var list := qs[bin];
    assert ListAt(s, q[bin], list);
    DList.PushBack(list, Prevs(s), Nexts(s), q[bin].first, q[bin].last, p);
    forall i, b: nat | i in Elems(list) + {p} && b <= BIN_FULL && i in qs[b]
      ensures b == bin
    {
      assert HomeAt(s, id, b, i) && HomeAt(s, id, bin, i);
    }
    hide Homes;
    OtherLists(s, s', q, q', qs, bin, list + [p], Elems(list) + {p});
  }

  lemma ListEnds(s: seq<Page>, q: Queue, list: seq<nat>)
    requires ListAt(s, q, list)
    ensures q.first == DList.At(list, 0) && q.last == DList.At(list, |list| - 1)
    ensures list != [] ==> 0 <= q.first < |s| && 0 <= q.last < |s|
  {
    if list != [] {
      assert DList.LinkedAt(list, Prevs(s), Nexts(s), 0) && DList.LinkedAt(list, Prevs(s), Nexts(s), |list| - 1);
    }
  }

  // The pages of the list, and no others, have a new owner.
  ghost predicate Owned(s: seq<Page>, s': seq<Page>, list: seq<nat>, id: nat) {
    |s| == |s'| && forall i: nat | i < |s| :: s'[i] == if i in list then s[i].(heap := id) else s[i]
  }

  lemma OwnedHome(s: seq<Page>, s1: seq<Page>, s2: seq<Page>, list: seq<nat>, id: nat)
    requires Owned(s, s1, list, id) && SameHome(s1, s2)
    ensures Rehomed(s, s2, Elems(list), id)
  {}

  lemma NextPage(s: seq<Page>, s': seq<Page>, q: Queue, list: seq<nat>, n: nat, id: nat)
    requires ListAt(s, q, list) && n < |list| && Owned(s, s', list[..n], id)
    ensures list[n] < |s'| && s'[list[n]].next == DList.At(list, n + 1)
  {
    assert DList.LinkedAt(list, Prevs(s), Nexts(s), n);
  }

  lemma OwnedMore(s: seq<Page>, s': seq<Page>, list: seq<nat>, n: nat, id: nat)
    requires n < |list| && list[n] < |s| == |s'| && s'[list[n]].heap == id && s'[list[n]] == s[list[n]].(heap := id)
    requires forall i: nat | i < |s| && i != list[n] :: s'[i] == if i in list[..n] then s[i].(heap := id) else s[i]
    ensures Owned(s, s', list[..n + 1], id)
  {
    assert list[..n + 1] == list[..n] + [list[n]];
  }

  // Two lists of different owners, joined end to end.
  lemma AppendLists(s: seq<Page>, s1: seq<Page>, s2: seq<Page>, q: seq<Queue>, q': seq<Queue>, qs: seq<seq<nat>>,
                    id: nat, from: nat,
                    bin: nat, list: seq<nat>, fq: Queue)
    requires Lists(s, q, qs) && Homes(s, qs, id) && bin <= BIN_FULL && list != [] && from != id
    requires ListAt(s, fq, list) && Owned(s, s1, list, id) && (forall p | p in list :: HomeAt(s, from, bin, p))
    requires q' == q[bin := Queue(if q[bin].last == -1 then fq.first else q[bin].first, fq.last)]
    requires |s2| == |s1| && SameHome(s1, s2)
    requires if q[bin].last == -1 then s2 == s1 else
      Nexts(s2) == DList.PutNext(Nexts(s1), q[bin].last, fq.first)
        && Prevs(s2) == DList.PutNext(Prevs(s1), fq.first, q[bin].last)
        && fq.first >= 0 && SameBut(s1, s2, {fq.first as nat} + Elems(qs[bin]))
    ensures Lists(s2, q', qs[bin := qs[bin] + list]) && Homes(s2, qs[bin := qs[bin] + list], id)
    ensures forall i: nat | i < |s| && i !in qs[bin] && i !in list :: s2[i] == s[i]
  {
    ListEnds(s, fq, list);
    assert list[0] in list;
    Apart(s, qs, id, from, bin, list);
    assert Prevs(s1) == Prevs(s) && Nexts(s1) == Nexts(s);
    assert ListAt(s1, fq, list);
    forall b: nat | b <= BIN_FULL ensures ListAt(s1, q[b], qs[b]) { assert ListAt(s, q[b], qs[b]); }
    assert ListAt(s1, q[bin], qs[bin]);
    ListEnds(s, q[bin], qs[bin]);
    JoinHomes(s, s1, s2, qs, id, from, bin, list);
    forall i, b: nat | i in Elems(qs[bin]) && b <= BIN_FULL && i in qs[b]
      ensures b == bin
    {
      assert HomeAt(s, id, b, i) && HomeAt(s, id, bin, i);
    }
    hide Homes, HomeAt;
    if q[bin].last == -1 {
      assert qs[bin] + list == list;
      OtherLists(s1, s2, q, q', qs, bin, list, {});
    } else {
      DList.Join(qs[bin], list, Prevs(s1), Nexts(s1), q[bin].first, q[bin].last, fq.first, fq.last);
      OtherLists(s1, s2, q, q', qs, bin, qs[bin] + list, {fq.first as nat} + Elems(qs[bin]));
    }
  }

  // Pages of another heap are in no queue of this one.
  lemma Apart(s: seq<Page>, qs: seq<seq<nat>>, id: nat, from: nat, bin: nat, list: seq<nat>)
    requires Homes(s, qs, id) && from != id && bin <= BIN_FULL && (forall p | p in list :: HomeAt(s, from, bin, p))
    ensures forall x, b: nat | b <= BIN_FULL && x in list :: x !in qs[b]
  {
    forall x, b: nat | b <= BIN_FULL && x in list ensures x !in qs[b] {
      assert HomeAt(s, from, bin, x);
      assert x in qs[b] ==> HomeAt(s, id, b, x);
    }
  }

  lemma JoinHomes(s: seq<Page>, s1: seq<Page>, s2: seq<Page>, qs: seq<seq<nat>>, id: nat, from: nat, bin: nat,
                  list: seq<nat>)
    requires Homes(s, qs, id) && bin <= BIN_FULL && Owned(s, s1, list, id) && SameHome(s1, s2)
      && (forall p | p in list :: HomeAt(s, from, bin, p))
    requires forall x, b: nat | b <= BIN_FULL && x in list :: x !in qs[b]
    ensures Homes(s2, qs[bin := qs[bin] + list], id)
  {
    hide BinOf;
    var qs' := qs[bin := qs[bin] + list];
    forall b: nat, x | b <= BIN_FULL && x in qs'[b] ensures HomeAt(s2, id, b, x) {
      if x in qs[b] { assert HomeAt(s, id, b, x) && x !in list; } else { assert x in list && HomeAt(s, from, bin, x); }
    }
  }

  // A list of another heap's pages of bin b.
  ghost predicate Foreign(s: seq<Page>, fq: seq<Queue>, fqs: seq<seq<nat>>, from: nat, b: nat) {
    b < |fq| == |fqs| && ListAt(s, fq[b], fqs[b]) && forall p | p in fqs[b] :: HomeAt(s, from, b, p)
  }

  lemma AllForeign(s: seq<Page>, fq: seq<Queue>, fqs: seq<seq<nat>>, from: nat)
    requires Lists(s, fq, fqs) && Homes(s, fqs, from)
    ensures forall b: nat | b <= BIN_FULL :: Foreign(s, fq, fqs, from, b)
  {
    hide HomeAt, ListAt;
    forall b: nat | b <= BIN_FULL ensures Foreign(s, fq, fqs, from, b) {
      forall p | p in fqs[b] ensures HomeAt(s, from, b, p) {}
    }
  }

  // No page's size leads to a bin that is not used.
  lemma ForeignEmpty(s: seq<Page>, fq: seq<Queue>, fqs: seq<seq<nat>>, from: nat, b: nat)
    requires Foreign(s, fq, fqs, from, b)
    ensures QueueBin(b) || fqs[b] == []
  {
    if fqs[b] != [] {
      var p := fqs[b][0];
      assert HomeAt(s, from, b, p);
      if WordsOf(s[p].block) <= MEDIUM_OBJ_WSIZE_MAX { BinUsed(WordsOf(s[p].block)); }
    }
  }

  lemma ForeignKept(s: seq<Page>, s': seq<Page>, qs: seq<seq<nat>>, id: nat, fq: seq<Queue>, fqs: seq<seq<nat>>,
                    from: nat, i: nat)
    requires Homes(s, qs, id) && from != id && i <= BIN_FULL && |s| == |s'| && Foreign(s, fq, fqs, from, i)
    requires forall b: nat | i <= b <= BIN_FULL :: Foreign(s, fq, fqs, from, b)
    requires forall j: nat | j < |s| && j !in qs[i] && j !in fqs[i] :: s'[j] == s[j]
    ensures forall b: nat | i < b <= BIN_FULL :: Foreign(s', fq, fqs, from, b)
  {
    hide BinOf;
    assert Foreign(s, fq, fqs, from, i);
    forall b: nat | i < b <= BIN_FULL ensures Foreign(s', fq, fqs, from, b) {
      assert Foreign(s, fq, fqs, from, b);
      forall p | p in fqs[b] ensures p < |s| && s'[p] == s[p] {
        assert HomeAt(s, from, b, p);
        assert p in qs[i] ==> HomeAt(s, id, i, p);
        assert p in fqs[i] ==> HomeAt(s, from, i, p);
      }
      forall p | p in fqs[b] ensures HomeAt(s', from, b, p) { assert HomeAt(s, from, b, p); }
      DList.Frame(fqs[b], Prevs(s), Nexts(s), Prevs(s'), Nexts(s'), fq[b].first, fq[b].last);
    }
  }

  lemma HeapShape(s: seq<Page>, q: seq<Queue>, qs: seq<seq<nat>>)
    requires Lists(s, q, qs)
    ensures |q| == |qs| == BIN_FULL + 1
  {}

  lemma {:induction false} NoPages(qs: seq<seq<nat>>)
    requires Total(qs) == 0
    ensures forall b | 0 <= b < |qs| :: qs[b] == []
  {
    if qs != [] { NoPages(qs[..|qs| - 1]); }
  }

  lemma {:induction false} EmptyTotal(qs: seq<seq<nat>>)
    requires forall b | 0 <= b < |qs| :: qs[b] == []
    ensures Total(qs) == 0
  {
    if qs != [] { EmptyTotal(qs[..|qs| - 1]); }
  }

  lemma TotalStep(qs: seq<seq<nat>>, i: nat)
    requires i < |qs|
    ensures Total(qs[..i + 1]) == Total(qs[..i]) + |qs[i]|
  {
    assert qs[..i + 1][..i] == qs[..i];
  }

  lemma {:induction false} TotalPrefix(qs: seq<seq<nat>>, i: nat)
    requires i <= |qs|
    ensures Total(qs[..i]) <= Total(qs)
    decreases |qs|
  {
    if i == |qs| {
      assert qs[..i] == qs;
    } else {
      TotalPrefix(qs[..|qs| - 1], i);
      assert qs[..|qs| - 1][..i] == qs[..i];
    }
  }

  lemma EmptyHeap(s: seq<Page>, q: seq<Queue>, qs: seq<seq<nat>>, direct: seq<int>, id: nat)
    requires |q| == |qs| == BIN_FULL + 1 && |direct| == SMALL_WSIZE_MAX + 1
    requires (forall b | 0 <= b <= BIN_FULL :: q[b] == Queue(-1, -1) && qs[b] == [])
      && forall w | 0 <= w <= SMALL_WSIZE_MAX :: direct[w] == -1
    ensures Lists(s, q, qs) && Homes(s, qs, id) && DirectOk(direct, q) && Total(qs) == 0
  {
    EmptyTotal(qs);
    forall b: nat | b <= BIN_FULL ensures ListAt(s, q[b], qs[b]) {}
    hide BinOfWords;
    forall w: nat | w <= SMALL_WSIZE_MAX ensures EntryOk(direct, q, w) { BinUsed(w); }
  }

  // The fast path of allocation reads the direct table instead of computing the bin.
  lemma DirectLookup(heap: Heap, size: nat)
    requires heap.Valid() && size <= SMALL_WSIZE_MAX * WORD
    ensures var bin, w := BinOf(size), WordsOf(size);
      && bin <= BIN_FULL && |heap.qs| == heap.queues.Length == BIN_FULL + 1 && w < heap.direct.Length
      && heap.direct[w] == heap.queues[bin].first == DList.At(heap.qs[bin], 0)
    ensures var page := heap.direct[WordsOf(size)];
      && (page == -1 || 0 <= page < heap.pages.Length)
      && (page != -1 ==> HomeAt(heap.pages[..], heap.id, BinOf(size), page) && !heap.pages[page].inFull)
  {
    hide BinOfWords, Total;
    var w := WordsOf(size);
    BinUsed(w);
    var bin := BinOfWords(w);
    assert EntryOk(heap.direct[..], heap.queues[..], w);
    assert ListAt(heap.pages[..], heap.queues[..][bin], heap.qs[bin]);
    if heap.qs[bin] != [] { assert HomeAt(heap.pages[..], heap.id, bin, heap.qs[bin][0]); }
  }
}
