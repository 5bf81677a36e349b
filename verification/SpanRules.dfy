// What holds between operations: free spans apart and queued, pages counted (segment.c).
module SpanRules {
  import opened Base
  import opened SliceBins
  import opened SpanMap
  import opened SpanState
  import opened SpanCore

  ghost predicate NoTaken(sp: Spans) { forall k | k in sp :: !sp[k].use.Taken? }

  // Every free span of an owned segment is queued.
  ghost predicate AllFiled(sp: Spans, segs: seq<Segment>, filed: map<nat, nat>) {
    forall k | k in sp && sp[k].use.Free? && Seg(k) < |segs| && segs[Seg(k)].owned :: k in filed
  }

  ghost function Pages(sp: Spans, g: nat): set<nat> { set k | k in sp && Seg(k) == g && sp[k].use.Page? }

  // `used` does not count the info page.
  ghost predicate UsedCount(sp: Spans, segs: seq<Segment>) {
    forall g: nat {:trigger Pages(sp, g)} | g < |segs| && g * SLICES_PER_SEGMENT in sp ::
      segs[g].used + 1 == |Pages(sp, g)|
  }

  ghost predicate AbandonedCount(segs: seq<Segment>) {
    forall g | 0 <= g < |segs| ::
      segs[g].abandoned <= segs[g].used && (!segs[g].owned ==> segs[g].abandoned == segs[g].used)
  }

  ghost predicate Resting(sp: Spans, segs: seq<Segment>) { NoTaken(sp) && Apart(sp) && UsedCount(sp, segs) }

  ghost predicate Settled(sp: Spans, segs: seq<Segment>, filed: map<nat, nat>) {
    Resting(sp, segs) && AllFiled(sp, segs, filed) && AbandonedCount(segs)
  }

  // ---- taking part of a free span for a page

  lemma AllocateApart(sp: Spans, h: nat, c: nat)
    requires Tiled(sp) && Apart(sp) && NoTaken(sp) && h in sp && 0 < c <= sp[h].count && sp[h].use.Free?
    ensures Apart(Cut(sp, h, c, Page, Free)) && NoTaken(Cut(sp, h, c, Page, Free))
  {
    hide Seg, Start, End;
    var sp' := Cut(sp, h, c, Page, Free);
    assert TiledAt(sp, h) && !NextFree(sp, h);
    if c < sp[h].count { SameSegment(h, h + c); }
    forall k | k in sp' && sp'[k].use.Free? ensures !NextFree(sp', k) {
      if k in sp && k != h {
        assert TiledAt(sp, k) && !NextFree(sp, k);
        assert k + sp[k].count != h + c;
      }
    }
  }

  lemma AllocatePages(sp: Spans, h: nat, c: nat, g: nat)
    requires Tiled(sp) && h in sp && 0 < c <= sp[h].count && sp[h].use.Free?
    ensures Pages(Cut(sp, h, c, Page, Free), g) == if g == Seg(h) then Pages(sp, g) + {h} else Pages(sp, g)
  {
    hide Start, End, Seg;
    assert TiledAt(sp, h);
  }

  lemma AllocateResting(sp: Spans, segs: seq<Segment>, h: nat, c: nat)
    requires Tiled(sp) && Resting(sp, segs) && h in sp && 0 < c <= sp[h].count && sp[h].use.Free? && Seg(h) < |segs|
    ensures Resting(Cut(sp, h, c, Page, Free), segs[Seg(h) := segs[Seg(h)].(used := segs[Seg(h)].used + 1)])
  {
    var sp', segs' := Cut(sp, h, c, Page, Free), segs[Seg(h) := segs[Seg(h)].(used := segs[Seg(h)].used + 1)];
    AllocateApart(sp, h, c);
    assert TiledAt(sp, h);
    if c < sp[h].count { SameSegment(h, h + c); StartBefore(h, h + c); }
    hide Apart, NoTaken, Tiled, Pages, Seg, Start, End;
    forall g: nat | g < |segs| && g * SLICES_PER_SEGMENT in sp' ensures segs'[g].used + 1 == |Pages(sp', g)| {
      AllocatePages(sp, h, c, g);
      StartMultiple(g);
      NotPage(sp, h, g);
    }
  }

  lemma NotPage(sp: Spans, h: nat, g: nat)
    requires h in sp && !sp[h].use.Page?
    ensures h !in Pages(sp, g)
  {}

  // ---- freeing a page

  ghost function Cleared(sp: Spans, h: nat): Spans
    requires h in sp
  {
    Coalesced(sp[h := Span(sp[h].count, Taken)], h)
  }

  lemma CoalescedTaken(sp: Spans, h: nat)
    requires Tiled(sp) && h in sp && sp[h].use.Taken? && OnlyTaken(sp, h)
    ensures NoTaken(Coalesced(sp, h))
  {
    hide Seg, Start, End, Tiled, Coalesced;
    var t, p := CoalescedCases(sp, h);
  }

  lemma ClearApart(sp: Spans, h: nat)
    requires Tiled(sp) && Apart(sp) && NoTaken(sp) && h in sp && !sp[h].use.Free?
    ensures var sp1 := sp[h := Span(sp[h].count, Taken)]; Tiled(sp1) && Apart(sp1) && OnlyTaken(sp1, h)
    ensures Tiled(Cleared(sp, h)) && Apart(Cleared(sp, h)) && NoTaken(Cleared(sp, h))
  {
    hide Seg, Start, End, Coalesced, Tiled;
    var sp1 := sp[h := Span(sp[h].count, Taken)];
    UseTiled(sp, h, Taken);
    forall k | k in sp1 && sp1[k].use.Free? ensures !NextFree(sp1, k) { assert !NextFree(sp, k); }
    CoalescedTaken(sp1, h);
    CoalescedApart(sp1, h);
    CoalescedTiled(sp1, h);
  }

  lemma ClearPages(sp: Spans, h: nat, g: nat)
    requires Tiled(sp) && h in sp && sp[h].use.Page?
    ensures Pages(Cleared(sp, h), g) == Pages(sp, g) - {h}
  {
    hide Seg, Start, End, Coalesced, Tiled;
    var sp1 := sp[h := Span(sp[h].count, Taken)];
    UseTiled(sp, h, Taken);
    CoalescedPages(sp1, h);
  }

  lemma ClearResting(sp: Spans, segs: seq<Segment>, info: nat, h: nat)
    requires Tiled(sp) && Resting(sp, segs) && Infos(sp, info) && h in sp && sp[h].use.Page? && h != Start(h)
      && Seg(h) < |segs|
    ensures segs[Seg(h)].used > 0
    ensures Resting(Cleared(sp, h), segs[Seg(h) := segs[Seg(h)].(used := segs[Seg(h)].used - 1)])
  {
    var g0 := Seg(h);
    ClearApart(sp, h);
    TwoPages(sp, info, h);
    assert g0 * SLICES_PER_SEGMENT == Start(h) && InfoAt(sp, info, Start(h));
    var segs' := segs[g0 := segs[g0].(used := segs[g0].used - 1)];
    ClearedStarts(sp, info, h);
    hide Apart, NoTaken, Tiled, Cleared, Seg, Start, Pages;
    forall g: nat | g < |segs| && g * SLICES_PER_SEGMENT in Cleared(sp, h)
      ensures segs'[g].used + 1 == |Pages(Cleared(sp, h), g)|
    {
      ClearPages(sp, h, g);
      StartMultiple(g);
      assert g * SLICES_PER_SEGMENT in sp;
      PageMember(sp, h, g);
    }
  }

  lemma PageMember(sp: Spans, h: nat, g: nat)
    requires h in sp && sp[h].use.Page?
    ensures h in Pages(sp, g) <==> Seg(h) == g
  {}

  // The info page and h are two pages of the segment.
  lemma TwoPages(sp: Spans, info: nat, h: nat)
    requires Tiled(sp) && NoTaken(sp) && Infos(sp, info) && h in sp && sp[h].use.Page? && h != Start(h)
    ensures |Pages(sp, Seg(h))| >= 2
  {
    assert InfoAt(sp, info, Start(h));
    SameSegment(h, Start(h));
    SubsetCard({h, Start(h)}, Pages(sp, Seg(h)));
  }

  // Coalescing neither adds nor removes the start of a segment.
  lemma ClearedStarts(sp: Spans, info: nat, h: nat)
    requires Tiled(sp) && h in sp
    ensures forall k | k in Cleared(sp, h) :: k in sp
  {
    hide Seg, Start, End, Tiled, Coalesced;
    UseTiled(sp, h, Taken);
    var t, p := CoalescedCases(sp[h := Span(sp[h].count, Taken)], h);
  }

  // ---- queues after an operation on one span

  lemma FiledUnique(sp: Spans, segs: seq<Segment>, f: map<nat, nat>, f': map<nat, nat>)
    requires FiledFree(sp, segs, f) && AllFiled(sp, segs, f) && FiledFree(sp, segs, f') && AllFiled(sp, segs, f')
    ensures f == f'
  {
    hide SliceBin, Seg;
    forall k | k in f ensures k in f' { assert FiledAt(sp, segs, k, f[k]); }
    forall k | k in f'
      ensures k in f && f'[k] == f[k]
    {
      assert FiledAt(sp, segs, k, f'[k]) && (k in f ==> FiledAt(sp, segs, k, f[k]));
    }
  }

  lemma QueuedFacts(s: seq<Slice>, q: seq<Queue>, qs: seq<seq<nat>>, filed: map<nat, nat>, sp: Spans,
                    segs: seq<Segment>, commit: set<nat>, decommit: set<nat>, info: nat, h: nat)
    requires Core(s, q, qs, filed, sp, segs, commit, decommit, info) && h in filed
    ensures Tiled(sp) && FiledFree(sp, segs, filed)
    ensures h in sp && sp[h].use.Free? && Seg(h) < |segs| && segs[Seg(h)].owned && h != Start(h)
    ensures h + sp[h].count <= |s| && 0 < sp[h].count == s[h].count && filed[h] == SliceBin(sp[h].count)
  {
    hide SliceBin, Seg, Start, QueueInv, CommitInv;
    assert FiledAt(sp, segs, h, filed[h]) && BackAt(s, h, sp[h]) && InfoAt(sp, info, Start(h));
  }

  lemma TakenCount(s: seq<Slice>, s': seq<Slice>, h: nat)
    requires h < |s| && SameEntries(s[h := s[h].(xblock := 1)], s')
    ensures h < |s'| && s'[h].count == s[h].count
  {
    assert SameEntry(s[h := s[h].(xblock := 1)][h], s'[h]);
  }

  lemma CommitOf(s: seq<Slice>, q: seq<Queue>, qs: seq<seq<nat>>, filed: map<nat, nat>, sp: Spans,
                 segs: seq<Segment>, commit: set<nat>, decommit: set<nat>, info: nat)
    requires Core(s, q, qs, filed, sp, segs, commit, decommit, info)
    ensures decommit <= commit
  {}

  lemma FiledOf(s: seq<Slice>, q: seq<Queue>, qs: seq<seq<nat>>, filed: map<nat, nat>, sp: Spans,
                segs: seq<Segment>, commit: set<nat>, decommit: set<nat>, info: nat)
    requires Core(s, q, qs, filed, sp, segs, commit, decommit, info)
    ensures FiledFree(sp, segs, filed) && Tiled(sp) && Infos(sp, info)
  {}

  lemma CutOfTaken(sp: Spans, h: nat, c: nat)
    requires h in sp && 0 < c <= sp[h].count
    ensures Cut(sp[h := Span(sp[h].count, Taken)], h, c, Taken, Free) == Cut(sp, h, c, Taken, Free)
    ensures h in Cut(sp, h, c, Taken, Free) && Cut(sp, h, c, Taken, Free)[h] == Span(c, Taken)
    ensures Cut(sp, h, c, Taken, Free)[h := Span(c, Page)] == Cut(sp, h, c, Page, Free)
  {}

  // f1: the queues after h left them and its rest, if any, entered them.
  ghost predicate SplitFiled(sp: Spans, f: map<nat, nat>, f1: map<nat, nat>, h: nat, c: nat)
    requires h in sp
  {
    forall k :: k in f1 <==> (k in f && k != h) || (k == h + c && c < sp[h].count)
  }

  lemma CutOnlyTaken(sp: Spans, segs: seq<Segment>, f: map<nat, nat>, h: nat, c: nat)
    requires Settled(sp, segs, f) && h in sp && 0 < c <= sp[h].count
    ensures OnlyTaken(Cut(sp, h, c, Taken, Free), h)
  {}

  lemma Restored(sp: Spans, segs: seq<Segment>,
                 f: map<nat, nat>, f1: map<nat, nat>, f2: map<nat, nat>, h: nat, c: nat, head: nat)
    requires Tiled(sp) && Settled(sp, segs, f) && FiledFree(sp, segs, f) && h in sp && sp[h].use.Free?
      && 0 < c <= sp[h].count
    requires SplitFiled(sp, f, f1, h, c)
    requires forall k | k in Coalesced(Cut(sp, h, c, Taken, Free), h) && k != head :: k in f2 <==> k in f1
    requires head in f2 && FiledFree(Coalesced(Cut(sp, h, c, Taken, Free), h), segs, f2)
    requires Covers(Coalesced(Cut(sp, h, c, Taken, Free), h), head, h)
    ensures Coalesced(Cut(sp, h, c, Taken, Free), h) == sp && f2 == f && head == h
  {
    hide Seg, Start, End, SliceBin, Coalesced, FiledFree;
    CutCoalesced(sp, h, c);
    assert TiledAt(sp, h) && TiledAt(sp, head);
    assert head == h;
    FiledUnique(sp, segs, f, f2);
  }

  lemma AllocateSettled(sp: Spans, segs: seq<Segment>, f: map<nat, nat>, f1: map<nat, nat>, h: nat, c: nat)
    requires Tiled(sp) && Settled(sp, segs, f) && h in sp && sp[h].use.Free? && 0 < c <= sp[h].count
    requires Seg(h) < |segs| && segs[Seg(h)].owned && SplitFiled(sp, f, f1, h, c)
    ensures Settled(Cut(sp, h, c, Page, Free), segs[Seg(h) := segs[Seg(h)].(used := segs[Seg(h)].used + 1)], f1)
  {
    hide Tiled, Start, End, Resting;
    AllocateResting(sp, segs, h, c);
    hide Seg;
  }

  lemma PageFacts(s: seq<Slice>, q: seq<Queue>, qs: seq<seq<nat>>, filed: map<nat, nat>, sp: Spans,
                  segs: seq<Segment>, commit: set<nat>, decommit: set<nat>, info: nat, h: nat)
    requires Core(s, q, qs, filed, sp, segs, commit, decommit, info) && h in sp && sp[h].use.Page?
    ensures h !in filed && h < |s| && s[h].count == sp[h].count
  {
    hide Seg, Start, QueueInv, CommitInv;
    assert BackAt(s, h, sp[h]) && (h in filed ==> FiledAt(sp, segs, h, filed[h]));
  }

  lemma MarkOnly(sp: Spans, segs: seq<Segment>, h: nat)
    requires Resting(sp, segs) && h in sp
    ensures OnlyTaken(sp[h := Span(sp[h].count, Taken)], h)
  {}

  lemma SpanFacts(s: seq<Slice>, q: seq<Queue>, qs: seq<seq<nat>>, filed: map<nat, nat>, sp: Spans,
                  segs: seq<Segment>, commit: set<nat>, decommit: set<nat>, info: nat, h: nat)
    requires Core(s, q, qs, filed, sp, segs, commit, decommit, info) && h in sp && !sp[h].use.Taken?
    ensures sp[h].count > 0 && h + sp[h].count <= |s| && s[h].count == sp[h].count && h + sp[h].count <= End(h)
    ensures BackAt(s, h, sp[h]) && (s[h].xblock == 0 <==> sp[h].use.Free?) && (sp[h].use.Free? ==> h != Start(h))
    ensures !sp[h].use.Free? ==> h !in filed
    ensures h + sp[h].count == End(h) || (h + sp[h].count in sp && Seg(h + sp[h].count) == Seg(h)
      && Start(h + sp[h].count) == Start(h) && End(h + sp[h].count) == End(h))
  {
    hide Seg, Start, End, QueueInv, CommitInv;
    assert h in filed ==> FiledAt(sp, segs, h, filed[h]);
    assert BackAt(s, h, sp[h]) && InfoAt(sp, info, Start(h)) && TiledAt(sp, h);
    if h + sp[h].count < End(h) { SameSegment(h, h + sp[h].count); }
  }

  // ---- a segment without pages

  lemma EmptySegment(s: seq<Slice>, q: seq<Queue>, qs: seq<seq<nat>>, filed: map<nat, nat>, sp: Spans,
                     segs: seq<Segment>, commit: set<nat>, decommit: set<nat>, info: nat, g: nat)
    requires Core(s, q, qs, filed, sp, segs, commit, decommit, info) && Settled(sp, segs, filed)
    requires 0 < info < SLICES_PER_SEGMENT && g < |segs| && segs[g].used == 0 && g * SLICES_PER_SEGMENT in sp
    ensures var st := g * SLICES_PER_SEGMENT;
      && sp[st] == Span(info, Page) && st + info in sp && sp[st + info] == Span(SLICES_PER_SEGMENT - info, Free)
      && st + info != Start(st + info) && Seg(st + info) == g
      && (forall k | k in sp && Seg(k) == g :: k == st || k == st + info)
  {
    hide QueueInv, CommitInv, Backs, FiledFree;
    var st := g * SLICES_PER_SEGMENT;
    StartMultiple(g);
    assert InfoAt(sp, info, Start(st)) && TiledAt(sp, st);
    var n := st + info;
    SameSegment(st, n);
    assert TiledAt(sp, n);
    SubsetCard({st}, Pages(sp, g));
    assert Pages(sp, g) == {st};
    assert n !in Pages(sp, g);
    hide Pages;
    PageMember2(sp, n, g, st);
    assert !NextFree(sp, n);
    if n + sp[n].count < End(n) {
      SameSegment(st, n + sp[n].count);
      PageMember2(sp, n + sp[n].count, g, st);
    }
    forall k | k in sp && Seg(k) == g ensures k == st || k == n { assert TiledAt(sp, k); }
  }

  lemma PageMember2(sp: Spans, n: nat, g: nat, st: nat)
    requires Pages(sp, g) == {st} && n in sp && Seg(n) == g && n != st && NoTaken(sp)
    ensures sp[n].use.Free?
  {
    assert n !in Pages(sp, g);
  }

  ghost function Dropped(sp: Spans, g: nat): Spans { map k | k in sp && Seg(k) != g :: sp[k] }

  lemma DropTiled(sp: Spans, g: nat)
    requires Tiled(sp)
    ensures Tiled(Dropped(sp, g))
  {
    hide Start, End, Seg;
    var sp' := Dropped(sp, g);
    forall k | k in sp' ensures TiledAt(sp', k) {
      assert TiledAt(sp, k);
      SameSegment(k, Start(k));
      if k + sp[k].count < End(k) { SameSegment(k, k + sp[k].count); }
    }
  }

  lemma DropResting(sp: Spans, segs: seq<Segment>, g: nat)
    requires Tiled(sp) && Resting(sp, segs)
    ensures Resting(Dropped(sp, g), segs)
  {
    hide Seg, Start, End;
    var sp' := Dropped(sp, g);
    forall k | k in sp' && sp'[k].use.Free? ensures !NextFree(sp', k) { assert !NextFree(sp, k); }
    forall a: nat | a < |segs| && a * SLICES_PER_SEGMENT in sp' ensures segs[a].used + 1 == |Pages(sp', a)| {
      StartMultiple(a);
      assert Pages(sp', a) == Pages(sp, a);
    }
  }

  // f, sp: before the segment's free span left its queue; f', sp1: after.
  lemma DropSegment(s: seq<Slice>, q: seq<Queue>, qs: seq<seq<nat>>,
                    f: map<nat, nat>, f': map<nat, nat>, sp: Spans, sp1: Spans,
                    segs: seq<Segment>, commit: set<nat>, decommit: set<nat>, info: nat, g: nat, free: nat)
    requires Core(s, q, qs, f', sp1, segs, commit, decommit, info) && Tiled(sp) && FiledFree(sp, segs, f)
      && Settled(sp, segs, f)
    requires f' == f - {free} && free in sp && Seg(free) == g && sp1 == sp[free := Span(sp[free].count, Taken)]
    requires forall k | k in sp && Seg(k) == g :: k == g * SLICES_PER_SEGMENT || k == free
    requires g * SLICES_PER_SEGMENT in sp && !sp[g * SLICES_PER_SEGMENT].use.Free?
    ensures Core(s, q, qs, f', Dropped(sp, g), segs, commit, decommit, info) && Settled(Dropped(sp, g), segs, f')
    ensures forall k | k in f' :: k in f
  {
    hide QueueInv, Seg, Start, End, BackAt, Resting, Apart, SliceBin;
    var sp' := Dropped(sp, g);
    assert sp' == Dropped(sp1, g);
    DropTiled(sp, g);
    DropResting(sp, segs, g);
    forall k | k in f'
      ensures FiledAt(sp', segs, k, f'[k])
    {
      assert FiledAt(sp, segs, k, f[k]) && FiledAt(sp1, segs, k, f'[k]);
    }
    forall k | k in sp' ensures InfoAt(sp', info, Start(k)) {
      SameSegment(k, Start(k));
      assert InfoAt(sp1, info, Start(k));
    }
    forall k | k in sp' ensures BackAt(s, k, sp'[k]) { assert BackAt(s, k, sp1[k]); }
    CommitPages(sp1, sp', commit, decommit);
    hide Tiled, Backs, Infos, FiledFree, CommitInv;
  }

  // ---- abandoning a segment

  lemma SettledFacts(sp: Spans, segs: seq<Segment>, f: map<nat, nat>)
    requires Settled(sp, segs, f)
    ensures NoTaken(sp)
  {}

  // The span after h, or the end of the segment.
  lemma NextSpan(s: seq<Slice>, q: seq<Queue>, qs: seq<seq<nat>>, filed: map<nat, nat>, sp: Spans,
                 segs: seq<Segment>, commit: set<nat>, decommit: set<nat>, info: nat, h: nat)
    requires Core(s, q, qs, filed, sp, segs, commit, decommit, info) && h in sp && !sp[h].use.Taken?
    ensures h < |s| && s[h].count == sp[h].count > 0 && h + sp[h].count <= End(h)
    ensures var n := h + sp[h].count;
      n < End(h) ==> n in sp && Start(n) == Start(h) && End(n) == End(h) && Seg(n) == Seg(h)
    ensures forall k | k in sp && h < k :: h + sp[h].count <= k
  {
    hide Seg, Start, End, QueueInv, CommitInv, FiledFree;
    assert BackAt(s, h, sp[h]) && TiledAt(sp, h);
    if h + sp[h].count < End(h) { SameSegment(h, h + sp[h].count); }
  }

  // The span goes back to free, but stays out of the queues.
  lemma CoreRestore(s: seq<Slice>, s1: seq<Slice>, s2: seq<Slice>, q: seq<Queue>, qs: seq<seq<nat>>,
                    filed: map<nat, nat>, sp: Spans,
                    segs: seq<Segment>, commit: set<nat>, decommit: set<nat>, info: nat, h: nat)
    requires h in sp && sp[h].use.Free? && h != Start(h)
    requires Core(s1, q, qs, filed, sp[h := Span(sp[h].count, Taken)], segs, commit, decommit, info) && h < |s|
      && h !in filed
    requires BackAt(s, h, sp[h]) && SameEntries(s[h := s[h].(xblock := 1)], s1)
    requires h < |s1| && s2 == s1[h := s1[h].(xblock := 0)]
    ensures Core(s2, q, qs, filed, sp, segs, commit, decommit, info)
  {
    hide QueueInv, Seg, Start, End, SliceBin;
    var t := sp[h := Span(sp[h].count, Taken)];
    assert sp == t[h := Span(t[h].count, Free)];
    RestoredEntries(s, s1, s2, h, sp[h].count);
    UseTiled(t, h, Free);
    InfosUse(t, info, h, sp[h]);
    BacksWithin(s1, s2, t, h, Free);
    FiledStep(t, segs, filed, h, sp[h]);
    CommitPages(t, sp, commit, decommit);
    QueueSame(s1, s2, q, qs, filed);
    hide *;
  }

  lemma RestoredEntries(s: seq<Slice>, s1: seq<Slice>, s2: seq<Slice>, h: nat, c: nat)
    requires BackAt(s, h, Span(c, Free)) && SameEntries(s[h := s[h].(xblock := 1)], s1)
    requires h < |s1| && s2 == s1[h := s1[h].(xblock := 0)]
    ensures SameOutside(s1, s2, h, h + c) && BackAt(s2, h, Span(c, Free))
  {
    var t := s[h := s[h].(xblock := 1)];
    assert SameEntry(t[h], s1[h]) && SameEntry(t[h + c - 1], s1[h + c - 1]);
  }

  lemma AbandonSettled(s: seq<Slice>, q: seq<Queue>, qs: seq<seq<nat>>, f: map<nat, nat>, f': map<nat, nat>, sp: Spans,
                       segs: seq<Segment>, segs': seq<Segment>, commit: set<nat>, decommit: set<nat>, info: nat, g: nat)
    requires Core(s, q, qs, f', sp, segs, commit, decommit, info) && Settled(sp, segs, f) && FiledFree(sp, segs, f)
      && g < |segs|
    requires segs' == segs[g := segs[g].(owned := false)] && segs[g].used == segs[g].abandoned
    requires forall k | k in sp :: k in f' <==> k in f && !(g * SLICES_PER_SEGMENT <= k < (g + 1) * SLICES_PER_SEGMENT)
    ensures Core(s, q, qs, f', sp, segs', commit, decommit, info) && Settled(sp, segs', f')
    ensures forall k :: k in f' <==> k in f && Seg(k) != g
  {
    hide QueueInv, Start, End, SliceBin, Backs, Tiled, CommitInv, Infos, Apart;
    forall k: nat
      ensures g * SLICES_PER_SEGMENT <= k < (g + 1) * SLICES_PER_SEGMENT <==> Seg(k) == g
    {
      SegRange(k, g);
    }
    hide Seg;
    forall k | k in f ensures k in sp { assert FiledAt(sp, segs, k, f[k]); }
    forall k | k in f' ensures FiledAt(sp, segs', k, f'[k]) { assert FiledAt(sp, segs, k, f'[k]); }
    forall a: nat | a < |segs'| && a * SLICES_PER_SEGMENT in sp ensures segs'[a].used + 1 == |Pages(sp, a)| {}
  }

  lemma SegRange(k: nat, g: nat)
    ensures g * SLICES_PER_SEGMENT <= k < (g + 1) * SLICES_PER_SEGMENT <==> Seg(k) == g
  {}

  lemma AbandonOne(sp: Spans, segs: seq<Segment>, segs': seq<Segment>, f: map<nat, nat>, g: nat)
    requires Settled(sp, segs, f) && g < |segs| && segs[g].owned && segs[g].abandoned < segs[g].used
    requires segs' == segs[g := segs[g].(abandoned := segs[g].abandoned + 1)]
    ensures Settled(sp, segs', f)
  {
    hide Apart, Seg;
    forall a: nat | a < |segs'| && a * SLICES_PER_SEGMENT in sp ensures segs'[a].used + 1 == |Pages(sp, a)| {}
  }

  lemma SegmentStart(s: seq<Slice>, q: seq<Queue>, qs: seq<seq<nat>>, filed: map<nat, nat>, sp: Spans,
                     segs: seq<Segment>, commit: set<nat>, decommit: set<nat>, info: nat, h: nat)
    requires Core(s, q, qs, filed, sp, segs, commit, decommit, info) && h in sp
    ensures Start(h) == Seg(h) * SLICES_PER_SEGMENT && Start(h) in sp
  {
    assert InfoAt(sp, info, Start(h));
  }

  // After a page of an owned segment is cleared, all its free spans are queued again.
  lemma ClearedFiled(s: seq<Slice>, q: seq<Queue>, qs: seq<seq<nat>>,
                     f: map<nat, nat>, f': map<nat, nat>, sp: Spans, sp': Spans,
                     segs: seq<Segment>, segs': seq<Segment>, commit: set<nat>,
                     decommit: set<nat>, info: nat, h: nat, head: nat)
    requires Tiled(sp) && Settled(sp, segs, f) && Resting(sp', segs') && h in sp && sp[h].use.Page?
      && sp' == Cleared(sp, h)
    requires Seg(h) < |segs| && segs[Seg(h)].abandoned < segs[Seg(h)].used
    requires segs' == segs[Seg(h) := segs[Seg(h)].(used := segs[Seg(h)].used - 1)] && segs[Seg(h)].owned
    requires (forall k | k in sp' && k != head :: k in f' <==> k in f) && head in f' && Covers(sp', head, h)
    ensures Settled(sp', segs', f')
  {
    hide Seg, Start, End, Cleared, Resting;
    ClearedOthers(sp, h, head);
    forall k | k in sp' && sp'[k].use.Free? && Seg(k) < |segs'| && segs'[Seg(k)].owned ensures k in f' {}
  }

  lemma ClearedOthers(sp: Spans, h: nat, head: nat)
    requires Tiled(sp) && h in sp && Covers(Cleared(sp, h), head, h)
    ensures forall k | k in Cleared(sp, h) && k != head :: k in sp && sp[k] == Cleared(sp, h)[k] && k != h
  {
    hide Seg, Start, End, Coalesced;
    var sp1 := sp[h := Span(sp[h].count, Taken)];
    UseTiled(sp, h, Taken);
    CoalescedTiled(sp1, h);
    var t, p := CoalescedCases(sp1, h);
    assert TiledAt(Cleared(sp, h), head);
    assert TiledAt(sp1, h);
    var r := if PrevFree(sp1, h) then p else h;
    assert Covers(Cleared(sp, h), r, h);
    assert TiledAt(Cleared(sp, h), r);
    assert r == head;
  }

  // ---- a fresh segment: the info span and the rest

  ghost function WithSegment(sp: Spans, g: nat, info: nat, u: Use, v: Use): Spans
    requires info < SLICES_PER_SEGMENT
  {
    var st := g * SLICES_PER_SEGMENT;
    sp[st := Span(info, u)][st + info := Span(SLICES_PER_SEGMENT - info, v)]
  }

  lemma SegmentRest(g: nat, info: nat)
    requires 0 < info < SLICES_PER_SEGMENT
    ensures var st := g * SLICES_PER_SEGMENT;
      Start(st + info) == st && Seg(st + info) == g && End(st) == End(st + info) == st + SLICES_PER_SEGMENT
        && st + info != Start(st + info)
  {}

  // Without its start, a segment has no spans.
  lemma NoSpans(sp: Spans, info: nat, g: nat)
    requires Infos(sp, info) && g * SLICES_PER_SEGMENT !in sp
    ensures forall k | k in sp :: Seg(k) != g
  {
    forall k | k in sp ensures Seg(k) != g { assert InfoAt(sp, info, Start(k)); }
  }

  lemma WithTiled(sp: Spans, info: nat, g: nat, u: Use, v: Use)
    requires Tiled(sp) && Infos(sp, info) && g * SLICES_PER_SEGMENT !in sp && 0 < info < SLICES_PER_SEGMENT && !u.Free?
    ensures Tiled(WithSegment(sp, g, info, u, v)) && Infos(WithSegment(sp, g, info, u, v), info)
  {
    var sp', st := WithSegment(sp, g, info, u, v), g * SLICES_PER_SEGMENT;
    NoSpans(sp, info, g);
    StartMultiple(g);
    SegmentRest(g, info);
    forall k | k in sp ensures InOther(k, st) { SegRange(k, g); OtherSegment(k, g); }
    hide Seg, Start, End;
    forall k | k in sp' ensures TiledAt(sp', k) { if k in sp { assert TiledAt(sp, k) && InOther(k, st); } }
    WithInfos(sp, info, g, u, v);
  }

  // k lies in another segment than the one starting at st.
  ghost predicate InOther(k: nat, st: nat) { Start(k) != st && (End(k) <= st || st + SLICES_PER_SEGMENT <= k) }

  lemma WithInfos(sp: Spans, info: nat, g: nat, u: Use, v: Use)
    requires Infos(sp, info) && g * SLICES_PER_SEGMENT !in sp && 0 < info < SLICES_PER_SEGMENT && !u.Free?
    ensures Infos(WithSegment(sp, g, info, u, v), info)
  {
    var sp', st := WithSegment(sp, g, info, u, v), g * SLICES_PER_SEGMENT;
    StartMultiple(g);
    SegmentRest(g, info);
    hide Seg, Start, End;
    forall k | k in sp' ensures InfoAt(sp', info, Start(k)) {
      StartStart(k);
      if k in sp && k != st + info { assert InfoAt(sp, info, Start(k)); }
    }
  }

  lemma OtherSegment(k: nat, g: nat)
    requires Seg(k) != g
    ensures Start(k) != g * SLICES_PER_SEGMENT && (k < g * SLICES_PER_SEGMENT ==> End(k) <= g * SLICES_PER_SEGMENT)
  {}

  lemma CoreInit(s: seq<Slice>, s': seq<Slice>, q: seq<Queue>, qs: seq<seq<nat>>, filed: map<nat, nat>, sp: Spans,
                 segs: seq<Segment>, segs': seq<Segment>, commit: set<nat>,
                 commit': set<nat>, decommit: set<nat>, decommit': set<nat>,
                 info: nat, g: nat)
    requires Core(s, q, qs, filed, sp, segs, commit, decommit, info) && g * SLICES_PER_SEGMENT !in sp && g < |segs|
    requires 0 < info < SLICES_PER_SEGMENT && |s| == |s'| == |segs| * SLICES_PER_SEGMENT
    requires var st := g * SLICES_PER_SEGMENT; forall k | 0 <= k < |s| ::
      s'[k] == if st <= k < st + SLICES_PER_SEGMENT then Slice(0, 0, 0, -1, -1) else s[k]
    requires |segs'| == |segs| && segs' == segs[g := segs'[g]] && decommit' <= commit'
    requires var all := Range(g * SLICES_PER_SEGMENT, SLICES_PER_SEGMENT);
      commit - all <= commit' && decommit' <= decommit + all
    ensures Core(s', q, qs, filed, WithSegment(sp, g, info, Taken, Taken), segs', commit', decommit', info)
  {
    hide QueueInv, Seg, Start, End, SliceBin, Tiled, Infos, Loose;
    var sp', st := WithSegment(sp, g, info, Taken, Taken), g * SLICES_PER_SEGMENT;
    NoSpans(sp, info, g);
    WithTiled(sp, info, g, Taken, Taken);
    forall k | k in sp ensures k < st || k >= st + SLICES_PER_SEGMENT { SegRange(k, g); }
    assert sp'[st].count == info && sp'[st + info].count == SLICES_PER_SEGMENT - info;
    InitBacks(s, s', sp, info, g);
    InitQueues(s, s', q, qs, filed, sp, segs, segs', g);
    InitCommit(sp, commit, commit', decommit, decommit', info, g);
    hide *;
  }

  lemma InitBacks(s: seq<Slice>, s': seq<Slice>, sp: Spans, info: nat, g: nat)
    requires Tiled(sp) && Backs(s, sp) && 0 < info < SLICES_PER_SEGMENT && |s| == |s'|
      && (g + 1) * SLICES_PER_SEGMENT <= |s|
    requires var st := g * SLICES_PER_SEGMENT;
      forall k | 0 <= k < |s| && !(st <= k < st + SLICES_PER_SEGMENT) :: s'[k] == s[k]
    requires forall k | k in sp :: Seg(k) != g
    ensures Backs(s', WithSegment(sp, g, info, Taken, Taken))
  {
    hide Start, End, Seg;
    var sp', st := WithSegment(sp, g, info, Taken, Taken), g * SLICES_PER_SEGMENT;
    forall k | k in sp' ensures BackAt(s', k, sp'[k]) {
      if k != st && k != st + info {
        assert BackAt(s, k, sp[k]) && TiledAt(sp, k);
        SegRange(k, g);
        OtherSegment(k, g);
        BackBound(s, k, sp[k]);
        hide BackAt;
        BackFrame(s, s', k, sp[k]);
      }
    }
  }

  lemma InitQueues(s: seq<Slice>, s': seq<Slice>, q: seq<Queue>, qs: seq<seq<nat>>, filed: map<nat, nat>, sp: Spans,
                   segs: seq<Segment>, segs': seq<Segment>, g: nat)
    requires QueueInv(s, q, qs, filed) && FiledFree(sp, segs, filed) && g < |segs| == |segs'|
      && segs' == segs[g := segs'[g]] && |s'| == |s|
    requires forall k | 0 <= k < |s| ::
      s'[k] == s[k] || (g * SLICES_PER_SEGMENT <= k < (g + 1) * SLICES_PER_SEGMENT && s'[k] == Slice(0, 0, 0, -1, -1))
    requires forall k | k in sp :: Seg(k) != g
    ensures QueueInv(s', q, qs, filed)
    ensures forall info | 0 < info < SLICES_PER_SEGMENT ::
      FiledFree(WithSegment(sp, g, info, Taken, Taken), segs', filed)
  {
    hide Seg, SliceBin, Lists, Filed;
    forall k | k in filed ensures k in sp && Seg(k) != g { assert FiledAt(sp, segs, k, filed[k]); }
    forall k: nat | k < |s| ensures s'[k].prev == s[k].prev && s'[k].next == s[k].next {
      SegRange(k, g);
    }
    QueueSame(s, s', q, qs, filed);
    forall info | 0 < info < SLICES_PER_SEGMENT
      ensures FiledFree(WithSegment(sp, g, info, Taken, Taken), segs', filed)
    {
      var sp' := WithSegment(sp, g, info, Taken, Taken);
      StartMultiple(g);
      SegmentRest(g, info);
      forall k | k in filed ensures FiledAt(sp', segs', k, filed[k]) { assert FiledAt(sp, segs, k, filed[k]); }
    }
  }

  lemma InitCommit(sp: Spans,
                   commit: set<nat>, commit': set<nat>, decommit: set<nat>, decommit': set<nat>, info: nat, g: nat)
    requires Tiled(sp) && CommitInv(sp, commit, decommit) && 0 < info < SLICES_PER_SEGMENT && decommit' <= commit'
    requires forall k | k in sp :: Seg(k) != g
    requires var all := Range(g * SLICES_PER_SEGMENT, SLICES_PER_SEGMENT);
      commit - all <= commit' && decommit' <= decommit + all
    ensures CommitInv(WithSegment(sp, g, info, Taken, Taken), commit', decommit')
  {
    hide Start, End, Seg;
    var sp' := WithSegment(sp, g, info, Taken, Taken);
    forall k | k in sp' && sp'[k].use.Page? ensures Backed(k, sp'[k].count, commit', decommit') {
      assert Backed(k, sp[k].count, commit, decommit) && TiledAt(sp, k);
      SegRange(k, g);
      OtherSegment(k, g);
    }
  }

  lemma CoreUninit(s: seq<Slice>, q: seq<Queue>, qs: seq<seq<nat>>, filed: map<nat, nat>, sp: Spans,
                   segs: seq<Segment>, commit: set<nat>, decommit: set<nat>, info: nat, g: nat)
    requires 0 < info < SLICES_PER_SEGMENT
      && Core(s, q, qs, filed, WithSegment(sp, g, info, Taken, Taken), segs, commit, decommit, info)
    requires Tiled(sp) && Infos(sp, info) && g * SLICES_PER_SEGMENT !in sp
    ensures Core(s, q, qs, filed, sp, segs, commit, decommit, info)
  {
    hide QueueInv, Start, End, SliceBin, Tiled, Infos, BackAt;
    var sp', st := WithSegment(sp, g, info, Taken, Taken), g * SLICES_PER_SEGMENT;
    NoSpans(sp, info, g);
    StartMultiple(g);
    SegmentRest(g, info);
    hide Seg;
    forall k | k in sp ensures BackAt(s, k, sp[k]) { assert BackAt(s, k, sp'[k]); }
    forall k | k in filed ensures FiledAt(sp, segs, k, filed[k]) { assert FiledAt(sp', segs, k, filed[k]); }
    CommitPages(sp', sp, commit, decommit);
  }

  lemma UninitSettled(sp: Spans, segs: seq<Segment>, segs': seq<Segment>, f: map<nat, nat>, g: nat)
    requires Settled(sp, segs, f) && g < |segs| == |segs'| && g * SLICES_PER_SEGMENT !in sp
      && segs' == segs[g := segs'[g]]
    requires segs'[g].abandoned == segs'[g].used == 0 && forall k | k in sp :: Seg(k) != g
    ensures Settled(sp, segs', f)
  {
    hide Apart, Seg;
    forall a: nat | a < |segs'| && a * SLICES_PER_SEGMENT in sp ensures segs'[a].used + 1 == |Pages(sp, a)| {}
  }

  lemma FreshSettled(sp: Spans, segs: seq<Segment>, segs': seq<Segment>,
                     f: map<nat, nat>, f': map<nat, nat>, info: nat, g: nat)
    requires Tiled(sp) && Infos(sp, info) && Settled(sp, segs, f) && g < |segs| == |segs'|
      && g * SLICES_PER_SEGMENT !in sp && segs' == segs[g := segs'[g]]
    requires segs'[g].used == 0 && segs'[g].abandoned == 0 && segs'[g].owned && 0 < info < SLICES_PER_SEGMENT
    requires forall k :: k in f' <==> k in f || k == g * SLICES_PER_SEGMENT + info
    ensures Settled(WithSegment(sp, g, info, Page, Free), segs', f')
  {
    var sp', st := WithSegment(sp, g, info, Page, Free), g * SLICES_PER_SEGMENT;
    NoSpans(sp, info, g);
    StartMultiple(g);
    SegmentRest(g, info);
    hide Seg, Start;
    forall a: nat | a < |segs'| && a * SLICES_PER_SEGMENT in sp' ensures segs'[a].used + 1 == |Pages(sp', a)| {
      if a == g {
        assert Pages(sp', g) == {st};
      } else {
        assert Pages(sp', a) == Pages(sp, a);
        StartMultiple(a);
      }
    }
    FreshApart(sp, info, g);
  }

  lemma FreshApart(sp: Spans, info: nat, g: nat)
    requires Tiled(sp) && Infos(sp, info) && Apart(sp) && g * SLICES_PER_SEGMENT !in sp && 0 < info < SLICES_PER_SEGMENT
    ensures Apart(WithSegment(sp, g, info, Page, Free))
  {
    var sp', st := WithSegment(sp, g, info, Page, Free), g * SLICES_PER_SEGMENT;
    NoSpans(sp, info, g);
    StartMultiple(g);
    SegmentRest(g, info);
    hide Seg, Start, End;
    forall k | k in sp' && sp'[k].use.Free? ensures !NextFree(sp', k) {
      if k in sp {
        assert !NextFree(sp, k) && TiledAt(sp, k);
        if k + sp[k].count < End(k) { SameSegment(k, k + sp[k].count); }
      }
    }
  }
}
