// The commit and decommit masks while spans are freed, and which slices a sweep over a segment frees (segment.c).
module SpanMasks {
  import opened Base
  import opened SliceBins
  import opened SpanMap
  import opened SpanState
  import opened SpanCore
  import opened SpanRules
  import opened SpanSweeps

  // Freed slices stay as they are where decommitting is not allowed; they are decommitted at once, or otherwise those
  // that are committed are scheduled for it.
  ghost function Release(commit: set<nat>, decommit: set<nat>, allow: bool, eager: bool, r: set<nat>)
    : (set<nat>, set<nat>)
  {
    if !allow then (commit, decommit)
    else if eager then (commit - r, decommit - r)
    else (commit, decommit + commit * r)
  }

  lemma NothingReleased(commit: set<nat>, decommit: set<nat>, allow: bool, eager: bool, r: set<nat>)
    requires r == {}
    ensures Release(commit, decommit, allow, eager, r) == (commit, decommit)
  {
    assert commit - r == commit && decommit - r == decommit && decommit + commit * r == decommit;
  }

  lemma ApartMinus(a: set<nat>, b: set<nat>)
    ensures a * b == {} ==> a - b == a
  {
    if a * b == {} {
      NoneCommon(a, b);
      assert a - b == a;
    }
  }

  lemma NoneCommon(a: set<nat>, b: set<nat>)
    requires a * b == {}
    ensures a !! b
  {
    forall x | x in a ensures x !in b { assert x !in a * b; }
  }

  // Freeing twice is freeing both.
  lemma ReleasedBoth(commit: set<nat>, decommit: set<nat>, allow: bool, eager: bool, a: set<nat>, b: set<nat>)
    ensures var (c, d) := Release(commit, decommit, allow, eager, a);
      Release(c, d, allow, eager, b) == Release(commit, decommit, allow, eager, a + b)
  {
    assert commit - a - b == commit - (a + b) && decommit - a - b == decommit - (a + b);
    assert decommit + commit * a + commit * b == decommit + commit * (a + b);
  }

  lemma RangeRest(h: nat, c: nat, n: nat)
    requires c <= n
    ensures Range(h + c, n - c) + Range(h, n) == Range(h, n)
  {}

  // ---- a sweep that frees every free slice again, too

  // `freed` are the slices before the cursor that are in free spans.
  ghost predicate FreeBefore(sp: Spans, g: nat, cursor: nat, freed: set<nat>) {
    forall i: nat :: i in freed <==> g * SLICES_PER_SEGMENT <= i < cursor && InUse(sp, Free, i)
  }

  lemma PageNotFree(sp: Spans, h: nat, i: nat)
    requires Tiled(sp) && h in sp && !sp[h].use.Free? && h <= i < h + sp[h].count
    ensures !InUse(sp, Free, i)
  {
    hide Seg, Start, End;
    forall k | Covers(sp, k, i) ensures k == h { assert TiledAt(sp, k) && TiledAt(sp, h); }
  }

  lemma FreeStart(sp: Spans, g: nat)
    requires Tiled(sp) && g * SLICES_PER_SEGMENT in sp && !sp[g * SLICES_PER_SEGMENT].use.Free?
    ensures FreeBefore(sp, g, g * SLICES_PER_SEGMENT + sp[g * SLICES_PER_SEGMENT].count, {})
  {
    hide InUse, Tiled;
    var h := g * SLICES_PER_SEGMENT;
    forall i: nat | h <= i < h + sp[h].count ensures !InUse(sp, Free, i) { PageNotFree(sp, h, i); }
  }

  lemma FreeSkip(sp: Spans, g: nat, h: nat, freed: set<nat>)
    requires Tiled(sp) && FreeBefore(sp, g, h, freed) && h in sp && !sp[h].use.Free?
    ensures FreeBefore(sp, g, h + sp[h].count, freed + {})
  {
    hide InUse, Tiled;
    forall i: nat | h <= i < h + sp[h].count ensures !InUse(sp, Free, i) { PageNotFree(sp, h, i); }
  }

  lemma FreeAgain(sp: Spans, g: nat, h: nat, freed: set<nat>)
    requires FreeBefore(sp, g, h, freed) && h in sp && sp[h].use.Free? && g * SLICES_PER_SEGMENT <= h
    ensures FreeBefore(sp, g, h + sp[h].count, freed + Range(h, sp[h].count))
  {
    forall i: nat | h <= i < h + sp[h].count ensures InUse(sp, Free, i) { assert Covers(sp, h, i); }
    hide InUse;
  }

  // Clearing a page frees exactly its slices.
  lemma ClearedSlices(sp: Spans, h: nat, i: nat)
    requires Tiled(sp) && h in sp && sp[h].use.Page?
    ensures InUse(Cleared(sp, h), Free, i) <==> InUse(sp, Free, i) || h <= i < h + sp[h].count
  {
    hide Seg, Start, End, Coalesced, Tiled;
    var sp1 := sp[h := Span(sp[h].count, Taken)];
    UseTiled(sp, h, Taken);
    CoalescedSlices(sp1, h, i);
    if k :| Covers(sp, k, i) && sp[k].use == Free { assert Covers(sp1, k, i) && sp1[k].use == Free; }
    if k :| Covers(sp1, k, i) && sp1[k].use == Free { assert Covers(sp, k, i) && sp[k].use == Free; }
  }

  lemma SegmentSlices(sp: Spans, g: nat, head: nat)
    requires head in sp && forall i: nat | head <= i < head + sp[head].count :: Seg(i) == g
    ensures Range(head, sp[head].count) <= Range(g * SLICES_PER_SEGMENT, SLICES_PER_SEGMENT)
  {
    forall i | i in Range(head, sp[head].count) ensures i in Range(g * SLICES_PER_SEGMENT, SLICES_PER_SEGMENT) {
      SegRange(i, g);
    }
  }

  lemma FreeMore(sp: Spans, g: nat, h: nat, head: nat, freed: set<nat>)
    requires Tiled(sp) && FreeBefore(sp, g, h, freed) && h in sp && sp[h].use.Page?
    requires Covers(Cleared(sp, h), head, h) && Cleared(sp, h)[head].use.Free? && g * SLICES_PER_SEGMENT <= head
    requires h + sp[h].count <= head + Cleared(sp, h)[head].count
    ensures var c := Cleared(sp, h)[head].count;
      FreeBefore(Cleared(sp, h), g, head + c, freed + Range(head, c))
  {
    var sp' := Cleared(sp, h);
    var c := sp'[head].count;
    hide Cleared, Tiled;
    forall i: nat
      ensures i in freed + Range(head, c) <==> g * SLICES_PER_SEGMENT <= i < head + c && InUse(sp', Free, i)
    {
      ClearedSlices(sp, h, i);
      if head <= i < head + c { assert Covers(sp', head, i); }
      hide InUse;
    }
  }

  // The cleared page lies inside the free span it becomes part of.
  lemma ClearedInside(sp: Spans, h: nat, head: nat)
    requires Tiled(sp) && h in sp && sp[h].use.Page? && Covers(Cleared(sp, h), head, h)
    ensures Tiled(Cleared(sp, h)) && sp[h].count > 0 && h + sp[h].count <= head + Cleared(sp, h)[head].count
  {
    hide Seg, Start, End, Coalesced, Tiled;
    var sp1 := sp[h := Span(sp[h].count, Taken)];
    UseTiled(sp, h, Taken);
    CoalescedTiled(sp1, h);
    CountsPositive(sp, h);
    var t, p := CoalescedCases(sp1, h);
    var sp', first := Cleared(sp, h), if PrevFree(sp1, h) then p else h;
    NextTaken(sp1, h);
    assert first in sp' && h + sp[h].count <= first + sp'[first].count && first <= h;
    OneSpan(sp', first, head, h);
  }

  lemma NextTaken(sp: Spans, h: nat)
    requires h in sp
    ensures h in TakeNext(sp, h) && TakeNext(sp, h)[h].count >= sp[h].count
  {}

  lemma OneSpan(sp: Spans, a: nat, b: nat, i: nat)
    requires Tiled(sp) && Covers(sp, b, i) && a in sp && a <= i < a + sp[a].count
    ensures a == b
  {
    assert TiledAt(sp, a) && TiledAt(sp, b);
  }

  lemma CountsPositive(sp: Spans, h: nat)
    requires Tiled(sp) && h in sp
    ensures sp[h].count > 0
  {
    assert TiledAt(sp, h);
  }

  lemma MoreFree(sp: Spans, g: nat, h: nat, head: nat, freed: set<nat>)
    requires Tiled(sp) && FreeBefore(sp, g, h, freed) && h in sp && sp[h].use.Page? && Seg(head) == g
    requires Covers(Cleared(sp, h), head, h) && Cleared(sp, h)[head].use.Free?
    ensures var c := Cleared(sp, h)[head].count;
      FreeBefore(Cleared(sp, h), g, head + c, freed + Range(head, c))
  {
    ClearedInside(sp, h, head);
    SegRange(head, g);
    hide Cleared, Tiled, FreeBefore, Seg;
    FreeMore(sp, g, h, head, freed);
  }

  // In a segment without pages everything after the info slices is free.
  lemma AllFree(s: seq<Slice>, q: seq<Queue>, qs: seq<seq<nat>>, filed: map<nat, nat>, sp: Spans, segs: seq<Segment>,
                commit: set<nat>, decommit: set<nat>, info: nat, g: nat, freed: set<nat>)
    requires Core(s, q, qs, filed, sp, segs, commit, decommit, info) && Settled(sp, segs, filed)
    requires 0 < info < SLICES_PER_SEGMENT && g < |segs| && segs[g].used == 0 && g * SLICES_PER_SEGMENT in sp
    requires FreeBefore(sp, g, (g + 1) * SLICES_PER_SEGMENT, freed)
    ensures freed == Range(g * SLICES_PER_SEGMENT + info, SLICES_PER_SEGMENT - info)
  {
    EmptySegment(s, q, qs, filed, sp, segs, commit, decommit, info, g);
    TiledOf(s, q, qs, filed, sp, segs, commit, decommit, info);
    hide Core, Settled, Tiled, Seg;
    var st := g * SLICES_PER_SEGMENT;
    var rest := Range(st + info, SLICES_PER_SEGMENT - info);
    forall i: nat ensures i in freed <==> i in rest {
      if i in rest { assert Covers(sp, st + info, i) && InUse(sp, Free, i); }
      if st <= i < st + info { PageNotFree(sp, st, i); }
      hide InUse;
    }
  }

  // ---- a sweep that frees pages only

  // `freed` holds all slices of the pages in `gone`, and only slices of segment g that are in free spans.
  ghost predicate FreedPages(sp0: Spans, sp: Spans, g: nat, gone: set<nat>, freed: set<nat>) {
    && (forall k | k in gone :: k in sp0 && Range(k, sp0[k].count) <= freed)
    && (forall i | i in freed :: Seg(i) == g && InUse(sp, Free, i))
  }

  lemma NoneFreed(sp0: Spans, sp: Spans, g: nat)
    ensures FreedPages(sp0, sp, g, {}, {})
  {}

  lemma CheckingSwept(sp0: Spans, sp: Spans, segs: seq<Segment>, g: nat, cursor: nat, needed: nat,
                      allFree: set<nat>, roomy: set<nat>, has: bool, gone: set<nat>)
    requires Checking(sp0, sp, segs, g, cursor, needed, allFree, roomy, has, gone)
    ensures PagesLess(sp0, sp, gone)
  {}

  lemma AllGone(sp0: Spans, sp: Spans, segs: seq<Segment>, g: nat, needed: nat,
                allFree: set<nat>, roomy: set<nat>, has: bool, gone: set<nat>)
    requires Checking(sp0, sp, segs, g, (g + 1) * SLICES_PER_SEGMENT, needed, allFree, roomy, has, gone)
    ensures gone == FreePages(sp0, g, allFree)
  {
    forall k | k in FreePages(sp0, g, allFree) ensures k in gone { SegRange(k, g); }
  }

  lemma FreedMore(sp0: Spans, sp: Spans, g: nat, h: nat, head: nat, gone: set<nat>, freed: set<nat>)
    requires Tiled(sp) && FreedPages(sp0, sp, g, gone, freed) && h in sp && sp[h].use.Page?
    requires h in sp0 && sp0[h] == sp[h] && Seg(head) == g
    requires Covers(Cleared(sp, h), head, h) && Cleared(sp, h)[head].use.Free?
    ensures var c := Cleared(sp, h)[head].count;
      FreedPages(sp0, Cleared(sp, h), g, gone + {h}, freed + Range(head, c))
  {
    var sp' := Cleared(sp, h);
    var c := sp'[head].count;
    ClearedInside(sp, h, head);
    SpanInSegment(sp', head);
    hide Cleared, Tiled, Seg, InUse;
    forall i | i in freed + Range(head, c) ensures Seg(i) == g && InUse(sp', Free, i) {
      FreedAt(sp, h, head, i);
    }
    PagesIn(sp0, gone, freed, h, head, c) by { assert head <= h; }
  }

  lemma FreedAt(sp: Spans, h: nat, head: nat, i: nat)
    requires Tiled(sp) && h in sp && sp[h].use.Page? && head in Cleared(sp, h) && Cleared(sp, h)[head].use.Free?
    requires InUse(sp, Free, i) || head <= i < head + Cleared(sp, h)[head].count
    ensures InUse(Cleared(sp, h), Free, i)
  {
    var sp' := Cleared(sp, h);
    ClearedSlices(sp, h, i);
    hide Cleared;
    if head <= i < head + sp'[head].count { assert Covers(sp', head, i); }
  }

  lemma PagesIn(sp0: Spans, gone: set<nat>, freed: set<nat>, h: nat, head: nat, c: nat)
    requires h in sp0 && head <= h && h + sp0[h].count <= head + c
    requires forall k | k in gone :: k in sp0 && Range(k, sp0[k].count) <= freed
    ensures forall k | k in gone + {h} :: k in sp0 && Range(k, sp0[k].count) <= freed + Range(head, c)
  {}

  lemma SpanInSegment(sp: Spans, head: nat)
    requires Tiled(sp) && head in sp
    ensures forall i: nat | head <= i < head + sp[head].count :: Seg(i) == Seg(head)
  {
    assert TiledAt(sp, head);
  }
}
