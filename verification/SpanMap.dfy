// Segments cut into spans of slices: what split and coalesce do to the partition (segment.c).
// Slices of all segments are numbered in one line, SLICES_PER_SEGMENT to a segment.
module SpanMap {
  import opened Base
  import opened SliceBins

  // Taken: out of the free queues, on its way to become a page or to be freed.
  datatype Use = Free | Page | Taken
  datatype Span = Span(count: nat, use: Use)

  type Spans = map<nat, Span>

  function Seg(i: nat): nat { i / SLICES_PER_SEGMENT }

  function Start(i: nat): (s: nat)
    ensures s <= i < s + SLICES_PER_SEGMENT
  {
    Seg(i) * SLICES_PER_SEGMENT
  }

  function End(i: nat): (e: nat)
    ensures i < e == Start(i) + SLICES_PER_SEGMENT
  {
    Start(i) + SLICES_PER_SEGMENT
  }

  lemma SameSegment(i: nat, j: nat)
    requires Start(i) <= j < End(i)
    ensures Start(j) == Start(i) && End(j) == End(i) && Seg(j) == Seg(i)
  {}

  lemma StartStart(i: nat)
    ensures Start(Start(i)) == Start(i)
  {}

  // ---- the spans of a segment tile it

  ghost predicate TiledAt(sp: Spans, h: nat)
    requires h in sp
  {
    && sp[h].count > 0 && h + sp[h].count <= End(h)
    && (h + sp[h].count == End(h) || h + sp[h].count in sp)
    && Start(h) in sp
    && forall k | k in sp && h < k :: h + sp[h].count <= k
  }

  ghost predicate Tiled(sp: Spans) { forall h {:trigger TiledAt(sp, h)} | h in sp :: TiledAt(sp, h) }

  ghost predicate Covers(sp: Spans, h: nat, i: nat) { h in sp && h <= i < h + sp[h].count }

  // Every slice of a segment lies in exactly one span, and that span lies in the segment.
  lemma Tiling(sp: Spans, i: nat) returns (h: nat)
    requires Tiled(sp) && Start(i) in sp
    ensures Covers(sp, h, i) && Start(i) <= h && h + sp[h].count <= End(i)
    ensures forall k | Covers(sp, k, i) :: k == h
  {
    hide Seg, Start, End;
    h := Owner(sp, i, Start(i));
    SameSegment(i, h);
    assert TiledAt(sp, h);
    forall k | Covers(sp, k, i) ensures k == h {
      assert TiledAt(sp, k);
    }
  }

  lemma {:induction false} Owner(sp: Spans, i: nat, from: nat) returns (h: nat)
    requires Tiled(sp) && from in sp && Start(i) <= from <= i
    ensures Covers(sp, h, i) && Start(i) <= h
    decreases i - from
  {
    hide Seg, Start, End;
    assert TiledAt(sp, from);
    if i < from + sp[from].count {
      h := from;
    } else {
      SameSegment(i, from);
      h := Owner(sp, i, from + sp[from].count);
    }
  }

  ghost predicate IsPrev(sp: Spans, p: nat, h: nat) { p in sp && p + sp[p].count == h }

  // A span that does not start its segment has a neighbour before it, in the same segment.
  lemma PrevExists(sp: Spans, h: nat) returns (p: nat)
    requires Tiled(sp) && h in sp && h != Start(h)
    ensures IsPrev(sp, p, h) && Start(p) == Start(h) && End(p) == End(h) && p < h
  {
    hide Seg, Start, End;
    SameSegment(h, h - 1);
    assert TiledAt(sp, h);
    p := Owner(sp, h - 1, Start(h));
    SameSegment(h, p);
    assert TiledAt(sp, p);
  }

  lemma PrevUnique(sp: Spans, p: nat, q: nat, h: nat)
    requires Tiled(sp) && IsPrev(sp, p, h) && IsPrev(sp, q, h)
    ensures p == q
  {
    hide Seg, Start, End;
    assert TiledAt(sp, p) && TiledAt(sp, q);
  }

  // ---- changing the partition

  ghost function Cut(sp: Spans, h: nat, c: nat, u: Use, v: Use): Spans
    requires h in sp && 0 < c <= sp[h].count
  {
    hide Seg, Start, End;
    if c == sp[h].count then sp[h := Span(c, u)] else sp[h := Span(c, u)][h + c := Span(sp[h].count - c, v)]
  }

  ghost function Merge(sp: Spans, h: nat, u: Use): Spans
    requires h in sp && h + sp[h].count in sp
  {
    hide Seg, Start, End;
    var n := h + sp[h].count;
    (sp - {n})[h := Span(sp[h].count + sp[n].count, u)]
  }

  lemma UseTiled(sp: Spans, h: nat, u: Use)
    requires Tiled(sp) && h in sp
    ensures Tiled(sp[h := Span(sp[h].count, u)])
  {
    hide Seg, Start, End;
    var sp' := sp[h := Span(sp[h].count, u)];
    forall k | k in sp' ensures TiledAt(sp', k) { assert TiledAt(sp, k); }
  }

  lemma CutTiled(sp: Spans, h: nat, c: nat, u: Use, v: Use)
    requires Tiled(sp) && h in sp && 0 < c <= sp[h].count
    ensures Tiled(Cut(sp, h, c, u, v))
  {
    hide Seg, Start, End;
    var sp' := Cut(sp, h, c, u, v);
    assert TiledAt(sp, h);
    SameSegment(h, h + c - 1);
    if c < sp[h].count { SameSegment(h, h + c); }
    hide Start, End;
    forall k | k in sp' ensures TiledAt(sp', k) {
      if k in sp { assert TiledAt(sp, k); }
    }
  }

  lemma MergeTiled(sp: Spans, h: nat, u: Use)
    requires Tiled(sp) && h in sp && h + sp[h].count in sp && h + sp[h].count < End(h)
    ensures Tiled(Merge(sp, h, u))
  {
    hide Seg, Start, End;
    var n := h + sp[h].count;
    var sp' := Merge(sp, h, u);
    assert TiledAt(sp, h) && TiledAt(sp, n);
    SameSegment(h, n);
    assert n != Start(n);
    forall k | k in sp' ensures TiledAt(sp', k) {
      assert TiledAt(sp, k);
      StartStart(k);
    }
  }

  // ---- free and coalesce

  ghost predicate NextFree(sp: Spans, h: nat)
    requires h in sp
  {
    var n := h + sp[h].count;
    n < End(h) && n in sp && sp[n].use.Free?
  }

  ghost predicate PrevFree(sp: Spans, h: nat) { h != Start(h) && exists p :: IsPrev(sp, p, h) && sp[p].use.Free? }

  ghost function TakeNext(sp: Spans, h: nat): Spans
    requires h in sp
  {
    if NextFree(sp, h) then Merge(sp, h, Taken) else sp[h := Span(sp[h].count, Taken)]
  }

  // Free the taken span h together with its free neighbours.
  ghost function Coalesced(sp: Spans, h: nat): Spans
    requires h in sp
  {
    var sp1 := TakeNext(sp, h);
    if PrevFree(sp, h) then
      var p :| IsPrev(sp, p, h) && sp[p].use.Free?;
      (sp1 - {h})[p := Span(sp[p].count + sp1[h].count, Free)]
    else
      sp1[h := Span(sp1[h].count, Free)]
  }

  // No two neighbouring spans are free.
  ghost predicate Apart(sp: Spans) {
    forall h {:trigger NextFree(sp, h)} | h in sp && sp[h].use.Free? :: !NextFree(sp, h)
  }

  ghost predicate OnlyTaken(sp: Spans, h: nat) { forall k | k in sp && sp[k].use.Taken? :: k == h }

  lemma TakeNextTiled(sp: Spans, h: nat)
    requires Tiled(sp) && h in sp
    ensures Tiled(TakeNext(sp, h)) && h in TakeNext(sp, h)
  {
    hide Seg, Start, End;
    if NextFree(sp, h) { MergeTiled(sp, h, Taken); } else { UseTiled(sp, h, Taken); }
  }

  // What Coalesced is, once the predecessor is known.
  lemma CoalescedWith(sp: Spans, h: nat, p: nat)
    requires Tiled(sp) && h in sp && h != Start(h) && IsPrev(sp, p, h) && p < h
    ensures h in TakeNext(sp, h)
    ensures Coalesced(sp, h) == if sp[p].use.Free?
      then (TakeNext(sp, h) - {h})[p := Span(sp[p].count + TakeNext(sp, h)[h].count, Free)]
      else TakeNext(sp, h)[h := Span(TakeNext(sp, h)[h].count, Free)]
  {
    hide Seg, Start, End;
    if PrevFree(sp, h) {
      var q :| IsPrev(sp, q, h) && sp[q].use.Free?
        && Coalesced(sp, h) == (TakeNext(sp, h) - {h})[q := Span(sp[q].count + TakeNext(sp, h)[h].count, Free)];
      PrevUnique(sp, p, q, h);
    }
  }

  // The two shapes a coalesced partition can take.
  lemma CoalescedCases(sp: Spans, h: nat) returns (t: Spans, p: nat)
    requires Tiled(sp) && h in sp
    ensures t == TakeNext(sp, h) && Tiled(t) && h in t && t[h].use.Taken?
    ensures PrevFree(sp, h) ==>
      IsPrev(sp, p, h) && p < h && sp[p].use.Free? && p in t && t[p] == sp[p] && End(p) == End(h)
    ensures PrevFree(sp, h) ==> Coalesced(sp, h) == Merge(t, p, Free)
    ensures !PrevFree(sp, h) ==> Coalesced(sp, h) == t[h := Span(t[h].count, Free)]
  {
    hide Seg, Start, End;
    t, p := TakeNext(sp, h), 0;
    TakeNextTiled(sp, h);
    if PrevFree(sp, h) {
      p := PrevExists(sp, h);
      CoalescedWith(sp, h, p);
      var q :| IsPrev(sp, q, h) && sp[q].use.Free?;
      PrevUnique(sp, p, q, h);
      assert TiledAt(sp, p);
      assert (t - {h})[p := Span(sp[p].count + t[h].count, Free)] == Merge(t, p, Free);
    }
  }

  lemma CoalescedTiled(sp: Spans, h: nat)
    requires Tiled(sp) && h in sp
    ensures Tiled(Coalesced(sp, h))
  {
    hide Seg, Start, End, Tiled, Coalesced, TakeNext, NextFree;
    var t, p := CoalescedCases(sp, h);
    if PrevFree(sp, h) {
      MergeTiled(t, p, Free);
    } else {
      UseTiled(t, h, Free);
    }
  }

  // Pages are left alone.
  ghost predicate SamePages(sp: Spans, sp': Spans) {
    && (forall k | k in sp && sp[k].use.Page? :: k in sp' && sp'[k] == sp[k])
    && (forall k | k in sp' && sp'[k].use.Page? :: k in sp && sp[k] == sp'[k])
  }

  lemma CoalescedPages(sp: Spans, h: nat)
    requires Tiled(sp) && h in sp && sp[h].use.Taken?
    ensures SamePages(sp, Coalesced(sp, h))
  {
    hide Seg, Start, End, Tiled, Coalesced;
    var t, p := CoalescedCases(sp, h);
  }

  // ---- which slices are free

  ghost predicate InUse(sp: Spans, u: Use, i: nat) { exists h :: Covers(sp, h, i) && sp[h].use == u }

  lemma CutSlices(sp: Spans, h: nat, c: nat, u: Use, v: Use, i: nat)
    requires Tiled(sp) && h in sp && 0 < c <= sp[h].count
    ensures InUse(Cut(sp, h, c, u, v), Free, i) <==>
      if h <= i < h + c then u.Free? else if h + c <= i < h + sp[h].count then v.Free? else InUse(sp, Free, i)
  {
    hide Seg, Start, End;
    var sp' := Cut(sp, h, c, u, v);
    assert TiledAt(sp, h);
    if h <= i < h + c {
      CutTiled(sp, h, c, u, v);
      assert TiledAt(sp', h);
      assert Covers(sp', h, i);
      forall k | Covers(sp', k, i) ensures k == h { assert TiledAt(sp', k); }
    } else if h + c <= i < h + sp[h].count {
      CutTiled(sp, h, c, u, v);
      assert TiledAt(sp', h + c);
      assert Covers(sp', h + c, i);
      forall k | Covers(sp', k, i) ensures k == h + c { assert TiledAt(sp', k); }
    } else {
      forall k | Covers(sp, k, i) ensures Covers(sp', k, i) && sp'[k] == sp[k] { assert TiledAt(sp, k); }
      forall k | Covers(sp', k, i) ensures Covers(sp, k, i) && sp'[k] == sp[k] {}
    }
  }

  lemma MergeSlices(sp: Spans, h: nat, u: Use, i: nat)
    requires Tiled(sp) && h in sp && h + sp[h].count in sp && h + sp[h].count < End(h)
    ensures InUse(Merge(sp, h, u), Free, i) <==>
      if h <= i < h + Merge(sp, h, u)[h].count then u.Free? else InUse(sp, Free, i)
  {
    hide Seg, Start, End;
    var n, sp' := h + sp[h].count, Merge(sp, h, u);
    MergeTiled(sp, h, u);
    if h <= i < h + sp'[h].count {
      assert Covers(sp', h, i);
      forall k | Covers(sp', k, i) ensures k == h { assert TiledAt(sp', k) && TiledAt(sp', h); }
    } else {
      forall k | Covers(sp, k, i)
        ensures Covers(sp', k, i) && sp'[k] == sp[k]
      {
        assert TiledAt(sp, h) && TiledAt(sp, n);
      }
      forall k | Covers(sp', k, i) ensures Covers(sp, k, i) && sp'[k] == sp[k] {}
    }
  }

  // Coalescing frees exactly the slices of the span it is given.
  lemma CoalescedSlices(sp: Spans, h: nat, i: nat)
    requires Tiled(sp) && h in sp && sp[h].use.Taken?
    ensures InUse(Coalesced(sp, h), Free, i) <==> InUse(sp, Free, i) || h <= i < h + sp[h].count
  {
    hide Seg, Start, End, Coalesced, InUse;
    var t, p := CoalescedCases(sp, h);
    TakeNextSlices(sp, h, i);
    if PrevFree(sp, h) {
      MergeSlices(t, p, Free, i);
      CoveredFree(sp, p, i);
    } else {
      assert TiledAt(t, h);
      CutSlices(t, h, t[h].count, Free, Free, i);
    }
  }

  lemma CoveredFree(sp: Spans, p: nat, i: nat)
    requires p in sp && sp[p].use.Free?
    ensures p <= i < p + sp[p].count ==> InUse(sp, Free, i)
  {
    if p <= i < p + sp[p].count { assert Covers(sp, p, i); }
  }

  lemma TakeNextSlices(sp: Spans, h: nat, i: nat)
    requires Tiled(sp) && h in sp && sp[h].use.Taken?
    ensures h in TakeNext(sp, h)
    ensures h + sp[h].count <= i < h + TakeNext(sp, h)[h].count ==> InUse(sp, Free, i)
    ensures !(h <= i < h + TakeNext(sp, h)[h].count) ==> (InUse(TakeNext(sp, h), Free, i) <==> InUse(sp, Free, i))
    ensures h <= i < h + sp[h].count ==> !InUse(sp, Free, i)
    ensures sp[h].count <= TakeNext(sp, h)[h].count
  {
    hide Seg, Start, End;
    assert TiledAt(sp, h);
    if NextFree(sp, h) {
      MergeSlices(sp, h, Taken, i);
      CoveredFree(sp, h + sp[h].count, i);
    } else {
      CutSlices(sp, h, sp[h].count, Taken, Taken, i);
    }
    forall k | Covers(sp, k, i) && h <= i < h + sp[h].count ensures k == h { assert TiledAt(sp, k); }
  }

  // ---- free spans stay apart

  lemma CoalescedApart(sp: Spans, h: nat)
    requires Tiled(sp) && Apart(sp) && h in sp && sp[h].use.Taken?
    ensures Apart(Coalesced(sp, h))
  {
    hide Seg, Start, End;
    var sp' := Coalesced(sp, h);
    CoalescedTiled(sp, h);
    var t, p := CoalescedCases(sp, h);
    hide Coalesced;
    forall k | k in sp' && sp'[k].use.Free? ensures !NextFree(sp', k) {
      if NextFree(sp', k) {
        assert TiledAt(sp', k);
        NoFreeNext(sp, h, t, p, sp', k);
      }
    }
  }

  lemma NoFreeNext(sp: Spans, h: nat, t: Spans, p: nat, sp': Spans, k: nat)
    requires Tiled(sp) && Apart(sp) && h in sp && sp[h].use.Taken? && t == TakeNext(sp, h) && h in t
    requires k in sp' && sp'[k].use.Free?
    requires PrevFree(sp, h) ==>
      IsPrev(sp, p, h) && p < h && sp[p].use.Free? && p in t && t[p] == sp[p] && End(p) == End(h)
        && sp' == Merge(t, p, Free)
    requires !PrevFree(sp, h) ==> sp' == t[h := Span(t[h].count, Free)]
    ensures !NextFree(sp', k)
  {
    hide Seg, Start, End;
    hide Tiled, Apart, TakeNext;
    if k == h || (PrevFree(sp, h) && k == p) {
      NoFreeAfterHead(sp, h, t, p, sp', k);
    } else {
      NoFreeBefore(sp, h, t, p, sp', k);
    }
  }

  lemma NoFreeAfterHead(sp: Spans, h: nat, t: Spans, p: nat, sp': Spans, k: nat)
    requires Tiled(sp) && Apart(sp) && h in sp && sp[h].use.Taken? && t == TakeNext(sp, h) && h in t
    requires PrevFree(sp, h) ==>
      IsPrev(sp, p, h) && p < h && p in t && t[p] == sp[p] && End(p) == End(h) && sp' == Merge(t, p, Free)
    requires !PrevFree(sp, h) ==> sp' == t[h := Span(t[h].count, Free)]
    requires k in sp' && (if PrevFree(sp, h) then k == p else k == h)
    ensures !NextFree(sp', k)
  {
    hide Seg, Start, End, PrevFree;
    assert TiledAt(sp, h);
    if NextFree(sp, h) {
      var m := h + sp[h].count;
      SameSegment(h, m);
      assert TiledAt(sp, m) && !NextFree(sp, m);
    }
  }

  lemma NoFreeBefore(sp: Spans, h: nat, t: Spans, p: nat, sp': Spans, k: nat)
    requires Tiled(sp) && Apart(sp) && h in sp && sp[h].use.Taken? && t == TakeNext(sp, h) && h in t
    requires PrevFree(sp, h) ==>
      IsPrev(sp, p, h) && p < h && sp[p].use.Free? && p in t && t[p] == sp[p] && sp' == Merge(t, p, Free)
    requires !PrevFree(sp, h) ==> sp' == t[h := Span(t[h].count, Free)]
    requires k in sp' && sp'[k].use.Free? && k != h && (PrevFree(sp, h) ==> k != p)
    ensures !NextFree(sp', k)
  {
    hide Seg, Start, End;
    assert TiledAt(sp, h);
    assert k in sp && sp[k] == sp'[k] && TiledAt(sp, k) && !NextFree(sp, k);
    if k + sp[k].count == h && h < End(k) {
      SameSegment(k, h);
      StartBefore(k, h);
      assert IsPrev(sp, k, h) && PrevFree(sp, h);
      PrevUnique(sp, k, p, h);
    }
  }

  lemma StartBefore(k: nat, h: nat)
    requires k < h < End(k)
    ensures h != Start(h)
  {
    SameSegment(k, h);
  }

  lemma NoPrevFree(sp: Spans, h: nat)
    requires Tiled(sp) && Apart(sp) && h in sp && sp[h].use.Free?
    ensures !PrevFree(sp, h)
  {
    hide Seg, Start, End;
    if h != Start(h) {
      var p := PrevExists(sp, h);
      assert !NextFree(sp, p) || !sp[p].use.Free?;
      forall q | IsPrev(sp, q, h) ensures q == p { PrevUnique(sp, p, q, h); }
    }
  }

  // ---- what freeing undoes

  // Taking the first c slices of a free span and coalescing them again restores the partition.
  lemma CutCoalesced(sp: Spans, h: nat, c: nat)
    requires Tiled(sp) && Apart(sp) && h in sp && sp[h].use.Free? && 0 < c <= sp[h].count
    ensures Coalesced(Cut(sp, h, c, Taken, Free), h) == sp
  {
    hide Seg, Start, End;
    var cut := Cut(sp, h, c, Taken, Free);
    assert TiledAt(sp, h);
    CutTiled(sp, h, c, Taken, Free);
    var t, p := CoalescedCases(cut, h);
    NoPrevFree(sp, h);
    assert forall q: nat :: IsPrev(cut, q, h) && q < h ==> IsPrev(sp, q, h) && sp[q] == cut[q];
    assert !PrevFree(cut, h);
    if c < sp[h].count {
      assert NextFree(cut, h);
    } else {
      assert !NextFree(sp, h);
    }
    assert t == sp[h := Span(sp[h].count, Taken)];
  }
}
