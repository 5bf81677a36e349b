// Walking over the spans of an abandoned segment while pages are freed under the cursor (segment.c).
module SpanSweeps {
  import opened Base
  import opened SliceBins
  import opened SpanMap
  import opened SpanState
  import opened SpanCore
  import opened SpanRules

  // The pages of sp0 other than `gone`, unchanged.
  ghost predicate PagesLess(sp0: Spans, sp: Spans, gone: set<nat>) {
    && (forall k | k in sp && sp[k].use.Page? :: k in sp0 && sp0[k] == sp[k] && k !in gone)
    && (forall k | k in sp0 && sp0[k].use.Page? && k !in gone :: k in sp && sp[k] == sp0[k])
  }

  ghost predicate SameElsewhere(sp0: Spans, sp: Spans, g: nat) {
    && (forall k | k in sp && Seg(k) != g :: k in sp0 && sp0[k] == sp[k])
    && (forall k | k in sp0 && Seg(k) != g :: k in sp)
  }

  // The pages of segment g, its info page aside, that are in allFree.
  ghost function FreePages(sp: Spans, g: nat, allFree: set<nat>): set<nat> {
    set k | k in Pages(sp, g) && k in allFree && k != g * SLICES_PER_SEGMENT
  }

  // The spans before the cursor have been visited, and `gone` are the pages freed so far.
  ghost predicate Swept(sp0: Spans, sp: Spans, g: nat, cursor: nat, allFree: set<nat>, gone: set<nat>) {
    && PagesLess(sp0, sp, gone) && SameElsewhere(sp0, sp, g) && gone <= FreePages(sp0, g, allFree)
    && forall k | k in sp && sp[k].use.Page? && g * SLICES_PER_SEGMENT < k < cursor :: k !in allFree
  }

  lemma SweptStart(sp: Spans, g: nat, allFree: set<nat>)
    requires Tiled(sp) && g * SLICES_PER_SEGMENT in sp
    ensures Swept(sp, sp, g, g * SLICES_PER_SEGMENT + sp[g * SLICES_PER_SEGMENT].count, allFree, {})
  {
    hide Seg, Start, End;
    assert TiledAt(sp, g * SLICES_PER_SEGMENT);
  }

  lemma SweptSkip(sp0: Spans, sp: Spans, g: nat, h: nat, allFree: set<nat>, gone: set<nat>)
    requires Tiled(sp) && Swept(sp0, sp, g, h, allFree, gone) && h in sp && (sp[h].use.Page? ==> h !in allFree)
    ensures Swept(sp0, sp, g, h + sp[h].count, allFree, gone)
  {
    hide Seg, Start, End;
    assert TiledAt(sp, h);
  }

  lemma ClearElsewhere(sp: Spans, h: nat)
    requires Tiled(sp) && h in sp
    ensures SameElsewhere(sp, Cleared(sp, h), Seg(h))
  {
    hide Seg, Start, End, Coalesced, Tiled;
    var sp1 := sp[h := Span(sp[h].count, Taken)];
    UseTiled(sp, h, Taken);
    var t, p := CoalescedCases(sp1, h);
    if PrevFree(sp1, h) { PrevSegment(sp1, h, p); }
    if NextFree(sp1, h) { SameSegment(h, h + sp[h].count); }
  }

  lemma PrevSegment(sp: Spans, h: nat, p: nat)
    requires Tiled(sp) && h in sp && h != Start(h) && IsPrev(sp, p, h) && p < h
    ensures Seg(p) == Seg(h)
  {
    hide Seg, Start, End;
    var q := PrevExists(sp, h);
    PrevUnique(sp, p, q, h);
    SameSegment(h, q);
  }

  lemma SweptClear(sp0: Spans, sp: Spans, g: nat, h: nat, allFree: set<nat>, gone: set<nat>, head: nat)
    requires Tiled(sp) && Swept(sp0, sp, g, h, allFree, gone) && h in sp && sp[h].use.Page? && h in allFree
    requires Seg(h) == g && g * SLICES_PER_SEGMENT < h && Covers(Cleared(sp, h), head, h)
      && Cleared(sp, h)[head].use.Free?
    ensures Swept(sp0, Cleared(sp, h), g, head + Cleared(sp, h)[head].count, allFree, gone + {h})
  {
    hide Seg, Start, End, Coalesced;
    var sp' := Cleared(sp, h);
    var sp1 := sp[h := Span(sp[h].count, Taken)];
    UseTiled(sp, h, Taken);
    CoalescedPages(sp1, h);
    CoalescedTiled(sp1, h);
    ClearElsewhere(sp, h);
    ClearedOthers(sp, h, head);
    assert TiledAt(sp', head);
    hide Cleared;
    assert PagesLess(sp0, sp', gone + {h});
    assert h in Pages(sp0, g);
    forall k | k in sp' && sp'[k].use.Page? && g * SLICES_PER_SEGMENT < k < head + sp'[head].count
      ensures k !in allFree
    {
      assert k != head && k in sp && sp[k] == sp'[k];
      assert k < head;
    }
  }

  lemma SweptEnd(sp0: Spans, sp: Spans, g: nat, end: nat, allFree: set<nat>, gone: set<nat>)
    requires Swept(sp0, sp, g, end, allFree, gone) && end == (g + 1) * SLICES_PER_SEGMENT
    ensures PagesLess(sp0, sp, FreePages(sp0, g, allFree)) && SameElsewhere(sp0, sp, g)
  {
    forall k | k in FreePages(sp0, g, allFree) ensures k in gone {
      SegRange(k, g);
    }
    assert gone == FreePages(sp0, g, allFree);
  }

  // ---- check_free: is there room for a page?

  ghost predicate Room(sp: Spans, g: nat, k: nat, needed: nat, roomy: set<nat>) {
    && k in sp && Seg(k) == g && k != g * SLICES_PER_SEGMENT
    && ((sp[k].use.Free? && sp[k].count >= needed) || (sp[k].use.Page? && k in roomy))
  }

  ghost predicate RoomBefore(sp: Spans, g: nat, cursor: nat, needed: nat,
                             roomy: set<nat>, allFree: set<nat>, has: bool) {
    && (!has ==> forall k: nat | Room(sp, g, k, needed, roomy) :: k >= cursor)
    && (has ==> exists k: nat :: Room(sp, g, k, needed, roomy - allFree))
  }

  lemma RoomSkip(sp: Spans, g: nat, h: nat, needed: nat, roomy: set<nat>, allFree: set<nat>, has: bool, has': bool)
    requires Tiled(sp) && RoomBefore(sp, g, h, needed, roomy, allFree, has) && h in sp
    requires Seg(h) == g && h != g * SLICES_PER_SEGMENT && (sp[h].use.Page? ==> h !in allFree) && !sp[h].use.Taken?
    requires has' == (has || Room(sp, g, h, needed, roomy))
    ensures RoomBefore(sp, g, h + sp[h].count, needed, roomy, allFree, has')
  {
    hide Seg, Start, End;
    assert TiledAt(sp, h);
    if has' && !has { assert Room(sp, g, h, needed, roomy - allFree); }
  }

  lemma RoomClear(sp: Spans, g: nat, h: nat, needed: nat,
                  roomy: set<nat>, allFree: set<nat>, has: bool, has': bool, head: nat)
    requires Tiled(sp) && RoomBefore(sp, g, h, needed, roomy, allFree, has) && h in sp && sp[h].use.Page?
      && h in allFree
    requires Seg(h) == g && Covers(Cleared(sp, h), head, h) && Cleared(sp, h)[head].use.Free?
    requires Seg(head) == g && head != g * SLICES_PER_SEGMENT
    requires has' == (has || Cleared(sp, h)[head].count >= needed)
    ensures RoomBefore(Cleared(sp, h), g, head + Cleared(sp, h)[head].count, needed, roomy, allFree, has')
  {
    hide Seg, Start, End, Coalesced;
    var sp' := Cleared(sp, h);
    var sp1 := sp[h := Span(sp[h].count, Taken)];
    UseTiled(sp, h, Taken);
    CoalescedTiled(sp1, h);
    CoalescedPages(sp1, h);
    ClearedOthers(sp, h, head);
    assert TiledAt(sp', head);
    if has {
      var k: nat :| Room(sp, g, k, needed, roomy - allFree);
      if sp[k].use.Free? {
        ClearGrows(sp, h, head, k);
        assert Room(sp', g, if k in sp' then k else head, needed, roomy - allFree);
      } else {
        assert Room(sp', g, k, needed, roomy - allFree);
      }
    } else if has' {
      assert Room(sp', g, head, needed, roomy - allFree);
    } else {
      hide Cleared;
      forall k: nat | Room(sp', g, k, needed, roomy) ensures k >= head + sp'[head].count {
        assert k != head && Room(sp, g, k, needed, roomy);
      }
    }
  }

  // A free span stays, grows, or is absorbed by a larger one.
  lemma ClearGrows(sp: Spans, h: nat, head: nat, k: nat)
    requires Tiled(sp) && h in sp && sp[h].use.Page? && Covers(Cleared(sp, h), head, h) && k in sp && sp[k].use.Free?
    ensures var sp' := Cleared(sp, h);
      var r := if k in sp' then k else head; sp'[r].use.Free? && sp'[r].count >= sp[k].count
  {
    hide Seg, Start, End, Coalesced;
    var sp1, sp' := sp[h := Span(sp[h].count, Taken)], Cleared(sp, h);
    UseTiled(sp, h, Taken);
    CoalescedTiled(sp1, h);
    var t, p := CoalescedCases(sp1, h);
    assert TiledAt(sp1, h) && TiledAt(sp', head);
    var r := if PrevFree(sp1, h) then p else h;
    assert Covers(sp', r, h) && TiledAt(sp', r);
    assert r == head;
  }

  // ---- reclaim: pages and queues beyond the cursor are still to do

  ghost function PagesFrom(sp: Spans, g: nat, cursor: nat): set<nat> { set k | k in Pages(sp, g) && k >= cursor }

  // Free spans of owned segments are queued, those of segment g only before the cursor.
  ghost predicate FiledBefore(sp: Spans, segs: seq<Segment>, filed: map<nat, nat>, g: nat, cursor: nat) {
    forall k | k in sp && sp[k].use.Free? && Seg(k) < |segs| && segs[Seg(k)].owned ::
      k in filed <==> !(Seg(k) == g && k >= cursor)
  }

  lemma FromStart(sp: Spans, segs: seq<Segment>, info: nat, g: nat)
    requires Tiled(sp) && Resting(sp, segs) && Infos(sp, info) && g < |segs| && g * SLICES_PER_SEGMENT in sp && info > 0
    ensures |PagesFrom(sp, g, g * SLICES_PER_SEGMENT + info)| == segs[g].used
    ensures sp[g * SLICES_PER_SEGMENT] == Span(info, Page)
  {
    var st := g * SLICES_PER_SEGMENT;
    StartMultiple(g);
    assert InfoAt(sp, info, Start(st)) && TiledAt(sp, st);
    hide Start, End;
    forall k | k in Pages(sp, g) ensures k >= st { SegRange(k, g); }
    assert Pages(sp, g) == PagesFrom(sp, g, st + info) + {st};
  }

  lemma FromSkip(sp: Spans, g: nat, h: nat)
    requires Tiled(sp) && h in sp && Seg(h) == g
    ensures PagesFrom(sp, g, h + sp[h].count) == PagesFrom(sp, g, h) - {h}
    ensures h in PagesFrom(sp, g, h) <==> sp[h].use.Page?
  {
    hide Seg, Start, End;
    assert TiledAt(sp, h);
  }

  lemma FromClear(sp: Spans, g: nat, h: nat, head: nat)
    requires Tiled(sp) && h in sp && sp[h].use.Page? && Seg(h) == g
    requires Covers(Cleared(sp, h), head, h) && Cleared(sp, h)[head].use.Free?
    ensures PagesFrom(Cleared(sp, h), g, head + Cleared(sp, h)[head].count) == PagesFrom(sp, g, h) - {h}
  {
    hide Seg, Start, End, Coalesced;
    var sp' := Cleared(sp, h);
    var sp1 := sp[h := Span(sp[h].count, Taken)];
    UseTiled(sp, h, Taken);
    CoalescedTiled(sp1, h);
    CoalescedPages(sp1, h);
    assert TiledAt(sp', head);
  }

  lemma FromEnd(sp: Spans, g: nat, end: nat)
    requires end == (g + 1) * SLICES_PER_SEGMENT
    ensures PagesFrom(sp, g, end) == {}
  {
    forall k | k in Pages(sp, g) ensures k < end { SegRange(k, g); }
  }

  lemma FiledSkip(sp: Spans, segs: seq<Segment>, f: map<nat, nat>, f': map<nat, nat>, g: nat, h: nat)
    requires Tiled(sp) && FiledBefore(sp, segs, f, g, h) && h in sp
    requires (forall k | k in sp && k != h :: k in f' <==> k in f) && (sp[h].use.Free? ==> h in f')
    ensures FiledBefore(sp, segs, f', g, h + sp[h].count)
  {
    hide Seg, Start, End;
    assert TiledAt(sp, h);
  }

  lemma FiledClear(sp: Spans, segs: seq<Segment>, f: map<nat, nat>, f': map<nat, nat>, g: nat, h: nat, head: nat)
    requires Tiled(sp) && FiledBefore(sp, segs, f, g, h) && h in sp && Covers(Cleared(sp, h), head, h)
    requires (forall k | k in Cleared(sp, h) && k != head :: k in f' <==> k in f) && head in f'
    ensures FiledBefore(Cleared(sp, h), segs, f', g, head + Cleared(sp, h)[head].count)
  {
    hide Seg, Start, End, Coalesced;
    var sp' := Cleared(sp, h);
    UseTiled(sp, h, Taken);
    CoalescedTiled(sp[h := Span(sp[h].count, Taken)], h);
    ClearedOthers(sp, h, head);
    assert TiledAt(sp', head);
    hide Cleared;
  }

  // Putting a free span that is not queued back through coalescing changes nothing else.
  lemma RefreeSame(sp: Spans, h: nat)
    requires Tiled(sp) && Apart(sp) && h in sp && sp[h].use.Free?
    ensures Cleared(sp, h) == sp
  {
    assert TiledAt(sp, h);
    CutCoalesced(sp, h, sp[h].count);
  }

  // ---- small steps of the two loops

  lemma RestingSegs(sp: Spans, segs: seq<Segment>, segs': seq<Segment>)
    requires Resting(sp, segs) && |segs| == |segs'| && forall i | 0 <= i < |segs| :: segs'[i].used == segs[i].used
    ensures Resting(sp, segs')
  {
    hide Apart, NoTaken;
    forall g: nat | g < |segs'| && g * SLICES_PER_SEGMENT in sp ensures segs'[g].used + 1 == |Pages(sp, g)| {}
  }

  ghost predicate OwnedSame(segs: seq<Segment>, segs': seq<Segment>) {
    |segs| == |segs'| && forall i | 0 <= i < |segs| :: segs'[i].owned == segs[i].owned
  }

  lemma SegmentOf(h: nat, g: nat)
    requires Seg(h) == g
    ensures Start(h) == g * SLICES_PER_SEGMENT && End(h) == (g + 1) * SLICES_PER_SEGMENT
  {}

  lemma HeadIs(sp: Spans, head: nat, h: nat)
    requires Tiled(sp) && Covers(sp, head, h) && h in sp
    ensures head == h
  {
    hide Seg, Start, End;
    assert TiledAt(sp, head) && TiledAt(sp, h);
  }

  lemma NoRoomYet(s: seq<Slice>, q: seq<Queue>, qs: seq<seq<nat>>, filed: map<nat, nat>, sp: Spans,
                  segs: seq<Segment>, commit: set<nat>,
                  decommit: set<nat>, info: nat, g: nat, needed: nat, roomy: set<nat>, allFree: set<nat>)
    requires Core(s, q, qs, filed, sp, segs, commit, decommit, info) && g * SLICES_PER_SEGMENT in sp
    ensures RoomBefore(sp, g, g * SLICES_PER_SEGMENT + sp[g * SLICES_PER_SEGMENT].count, needed, roomy, allFree, false)
    ensures sp[g * SLICES_PER_SEGMENT].count == info && !sp[g * SLICES_PER_SEGMENT].use.Free?
  {
    hide Start, End, QueueInv, CommitInv, Backs, FiledFree;
    var st := g * SLICES_PER_SEGMENT;
    StartMultiple(g);
    assert TiledAt(sp, st) && InfoAt(sp, info, Start(st));
    forall k: nat | Room(sp, g, k, needed, roomy) ensures k >= st + sp[st].count { SegRange(k, g); }
  }

  lemma RoomEnd(sp: Spans, g: nat, end: nat, needed: nat, roomy: set<nat>, allFree: set<nat>, has: bool)
    requires RoomBefore(sp, g, end, needed, roomy, allFree, has) && end == (g + 1) * SLICES_PER_SEGMENT
    ensures has <==> exists k: nat :: Room(sp, g, k, needed, roomy - allFree)
  {
    if !has {
      forall k: nat ensures !Room(sp, g, k, needed, roomy - allFree) {
        SegRange(k, g);
        assert Room(sp, g, k, needed, roomy - allFree) ==> Room(sp, g, k, needed, roomy);
      }
    }
  }

  // Clearing a page of an abandoned segment touches no queue.
  lemma ClearedAbandoned(s: seq<Slice>, q: seq<Queue>, qs: seq<seq<nat>>,
                         f: map<nat, nat>, f': map<nat, nat>, sp: Spans, sp': Spans,
                         segs: seq<Segment>, segs': seq<Segment>, commit: set<nat>,
                         decommit: set<nat>, info: nat, h: nat, head: nat)
    requires Tiled(sp) && Settled(sp, segs, f) && Resting(sp', segs') && h in sp && sp[h].use.Page?
      && sp' == Cleared(sp, h)
    requires Seg(h) < |segs| && segs[Seg(h)].used > 0 && !segs[Seg(h)].owned && segs[Seg(h)].abandoned > 0
    requires segs' == segs[Seg(h) :=
      segs[Seg(h)].(used := segs[Seg(h)].used - 1, abandoned := segs[Seg(h)].abandoned - 1)]
    requires (forall k | k in sp' && k != head :: k in f' <==> k in f) && Covers(sp', head, h) && Seg(head) == Seg(h)
    ensures Settled(sp', segs', f')
  {
    hide Seg, Start, End, Cleared, Resting;
    ClearedOthers(sp, h, head);
    forall k | k in sp' && sp'[k].use.Free? && Seg(k) < |segs'| && segs'[Seg(k)].owned ensures k in f' {}
  }

  lemma SameFiled(s: seq<Slice>, q: seq<Queue>, qs: seq<seq<nat>>,
                  f: map<nat, nat>, f': map<nat, nat>, sp: Spans, sp': Spans,
                  segs: seq<Segment>, segs': seq<Segment>, commit: set<nat>, decommit: set<nat>, info: nat, g: nat)
    requires Core(s, q, qs, f', sp', segs', commit, decommit, info) && FiledFree(sp, segs, f)
    requires AllFiled(sp, segs, f) && AllFiled(sp', segs', f') && OwnedSame(segs, segs') && SameElsewhere(sp, sp', g)
    requires g < |segs| && !segs[g].owned
    ensures f' == f
  {
    hide Seg, SliceBin, Tiled, Backs, QueueInv, CommitInv, Infos;
    forall k | k in f ensures k in f' && f'[k] == f[k] {
      assert FiledAt(sp, segs, k, f[k]);
      assert k in f' ==> FiledAt(sp', segs', k, f'[k]);
    }
    forall k | k in f' ensures k in f { assert FiledAt(sp', segs', k, f'[k]); }
  }

  ghost predicate OtherAbandoned(segs: seq<Segment>, g: nat) {
    forall i | 0 <= i < |segs| && i != g ::
      segs[i].abandoned <= segs[i].used && (!segs[i].owned ==> segs[i].abandoned == segs[i].used)
  }

  lemma CoreOwn(s: seq<Slice>, q: seq<Queue>, qs: seq<seq<nat>>, filed: map<nat, nat>, sp: Spans,
                segs: seq<Segment>, segs': seq<Segment>, commit: set<nat>, decommit: set<nat>, info: nat, g: nat)
    requires Core(s, q, qs, filed, sp, segs, commit, decommit, info) && Settled(sp, segs, filed)
    requires g < |segs| && !segs[g].owned && segs' == segs[g := segs[g].(owned := true)]
    ensures Core(s, q, qs, filed, sp, segs', commit, decommit, info) && Resting(sp, segs') && OtherAbandoned(segs', g)
    ensures segs[g].abandoned == segs[g].used
    ensures g * SLICES_PER_SEGMENT in sp ==> FiledBefore(sp, segs', filed, g, g * SLICES_PER_SEGMENT + info)
  {
    hide SliceBin, Backs, QueueInv, CommitInv, Resting, Start, End;
    RestingSegs(sp, segs, segs');
    forall k | k in filed ensures FiledAt(sp, segs', k, filed[k]) { assert FiledAt(sp, segs, k, filed[k]); }
    forall k | k in sp && Seg(k) == g ensures k !in filed { assert k in filed ==> FiledAt(sp, segs, k, filed[k]); }
    var st := g * SLICES_PER_SEGMENT;
    if st in sp {
      StartMultiple(g);
      assert InfoAt(sp, info, Start(st)) && TiledAt(sp, st);
      forall k | k in sp && Seg(k) == g && sp[k].use.Free? ensures k >= st + info { SegRange(k, g); }
    }
    hide Seg, Tiled, Infos;
  }

  lemma FiledSegs(sp: Spans, segs: seq<Segment>, segs': seq<Segment>, f: map<nat, nat>, g: nat, cursor: nat)
    requires FiledBefore(sp, segs, f, g, cursor) && OwnedSame(segs, segs')
    ensures FiledBefore(sp, segs', f, g, cursor)
  {}

  lemma ReclaimSettled(sp: Spans, segs: seq<Segment>, f: map<nat, nat>, g: nat, end: nat)
    requires Resting(sp, segs) && FiledBefore(sp, segs, f, g, end) && OtherAbandoned(segs, g) && g < |segs|
    requires segs[g].owned && segs[g].abandoned == 0 && end == (g + 1) * SLICES_PER_SEGMENT
    ensures Settled(sp, segs, f)
  {
    forall k | k in sp && sp[k].use.Free? && Seg(k) < |segs| && segs[Seg(k)].owned ensures k in f { SegRange(k, g); }
  }

  lemma PagesLeft(s: seq<Slice>, q: seq<Queue>, qs: seq<seq<nat>>, filed: map<nat, nat>, sp: Spans,
                  segs: seq<Segment>, commit: set<nat>,
                  decommit: set<nat>, info: nat, sp0: Spans, g: nat, allFree: set<nat>)
    requires Core(s, q, qs, filed, sp, segs, commit, decommit, info) && Resting(sp, segs) && g < |segs|
    requires g * SLICES_PER_SEGMENT in sp0 && sp0[g * SLICES_PER_SEGMENT].use.Page?
      && PagesLess(sp0, sp, FreePages(sp0, g, allFree))
    ensures g * SLICES_PER_SEGMENT in sp
    ensures segs[g].used > 0 <==> Pages(sp0, g) != FreePages(sp0, g, allFree) + {g * SLICES_PER_SEGMENT}
  {
    hide QueueInv, CommitInv, Backs, FiledFree, Tiled, Apart, Start, End, Infos;
    var st, free := g * SLICES_PER_SEGMENT, FreePages(sp0, g, allFree);
    StartMultiple(g);
    assert st in sp && st in Pages(sp, g) && st in Pages(sp0, g);
    assert Pages(sp, g) == Pages(sp0, g) - free;
    assert segs[g].used + 1 == |Pages(sp, g)|;
    SubsetCard({st}, Pages(sp, g));
    assert free <= Pages(sp0, g);
  }

  lemma DroppedElsewhere(sp0: Spans, sp: Spans, g: nat)
    requires SameElsewhere(sp0, sp, g)
    ensures SameElsewhere(sp0, Dropped(sp, g), g) && forall k | k in Dropped(sp, g) :: Seg(k) != g
  {}

  // Between two spans of a segment under reclaim.
  ghost predicate Reclaiming(sp0: Spans, sp: Spans, segs: seq<Segment>, filed: map<nat, nat>, g: nat, cursor: nat,
                             allFree: set<nat>, gone: set<nat>)
  {
    && g < |segs| && segs[g].owned && Resting(sp, segs) && OtherAbandoned(segs, g)
    && segs[g].abandoned == |PagesFrom(sp, g, cursor)| && FiledBefore(sp, segs, filed, g, cursor)
    && Swept(sp0, sp, g, cursor, allFree, gone)
  }

  lemma ReclaimingTaken(sp0: Spans, sp: Spans, segs: seq<Segment>, filed: map<nat, nat>, g: nat, cursor: nat,
                        allFree: set<nat>, gone: set<nat>)
    requires Reclaiming(sp0, sp, segs, filed, g, cursor, allFree, gone)
    ensures NoTaken(sp)
  {}

  lemma ReclaimStart(s: seq<Slice>, q: seq<Queue>, qs: seq<seq<nat>>, filed: map<nat, nat>, sp: Spans,
                     segs: seq<Segment>, segs': seq<Segment>, commit: set<nat>,
                     decommit: set<nat>, info: nat, g: nat, allFree: set<nat>)
    requires Core(s, q, qs, filed, sp, segs, commit, decommit, info) && Settled(sp, segs, filed) && 0 < info
    requires g < |segs| && !segs[g].owned && segs' == segs[g := segs[g].(owned := true)] && g * SLICES_PER_SEGMENT in sp
    ensures Core(s, q, qs, filed, sp, segs', commit, decommit, info)
    ensures sp[g * SLICES_PER_SEGMENT] == Span(info, Page)
    ensures Reclaiming(sp, sp, segs', filed, g, g * SLICES_PER_SEGMENT + info, allFree, {})
  {
    hide Core, Resting, Seg, Start, End, Tiled, Infos, FiledFree, Swept, FiledBefore, PagesFrom;
    FiledOf(s, q, qs, filed, sp, segs, commit, decommit, info);
    FromStart(sp, segs, info, g);
    CoreOwn(s, q, qs, filed, sp, segs, segs', commit, decommit, info, g);
    SweptStart(sp, g, allFree);
  }

  lemma ReclaimEnd(s: seq<Slice>, q: seq<Queue>, qs: seq<seq<nat>>, filed: map<nat, nat>, sp: Spans,
                   segs: seq<Segment>, commit: set<nat>,
                   decommit: set<nat>, info: nat, sp0: Spans, g: nat, allFree: set<nat>, gone: set<nat>)
    requires Core(s, q, qs, filed, sp, segs, commit, decommit, info)
    requires Reclaiming(sp0, sp, segs, filed, g, (g + 1) * SLICES_PER_SEGMENT, allFree, gone)
    requires g * SLICES_PER_SEGMENT in sp0 && sp0[g * SLICES_PER_SEGMENT].use.Page?
    ensures Settled(sp, segs, filed) && segs[g].owned && segs[g].abandoned == 0
    ensures PagesLess(sp0, sp, FreePages(sp0, g, allFree)) && SameElsewhere(sp0, sp, g) && g * SLICES_PER_SEGMENT in sp
    ensures segs[g].used > 0 <==> Pages(sp0, g) != FreePages(sp0, g, allFree) + {g * SLICES_PER_SEGMENT}
  {
    hide Core, Resting, Seg, Start, End, Tiled, Swept, FiledBefore, PagesFrom, Settled, PagesLess, SameElsewhere;
    var end := (g + 1) * SLICES_PER_SEGMENT;
    FromEnd(sp, g, end);
    SweptEnd(sp0, sp, g, end, allFree, gone);
    ReclaimSettled(sp, segs, filed, g, end);
    PagesLeft(s, q, qs, filed, sp, segs, commit, decommit, info, sp0, g, allFree);
  }

  lemma ReclaimingFacts(sp0: Spans, sp: Spans, segs: seq<Segment>,
                        filed: map<nat, nat>, g: nat, h: nat, allFree: set<nat>, gone: set<nat>)
    requires Reclaiming(sp0, sp, segs, filed, g, h, allFree, gone) && Tiled(sp) && h in sp && Seg(h) == g
    ensures g < |segs| && segs[g].owned && Resting(sp, segs) && NoTaken(sp)
    ensures sp[h].use.Page? ==> segs[g].abandoned > 0
    ensures sp[h].use.Free? ==> h !in filed
    ensures forall n: nat :: Resting(sp, segs[g := segs[g].(abandoned := n)])
  {
    FromSkip(sp, g, h);
    forall n: nat ensures Resting(sp, segs[g := segs[g].(abandoned := n)]) {
      RestingSegs(sp, segs, segs[g := segs[g].(abandoned := n)]);
    }
  }

  lemma ReclaimedFree(sp0: Spans, sp: Spans, segs: seq<Segment>,
                      f: map<nat, nat>, segs': seq<Segment>, f': map<nat, nat>,
                      g: nat, h: nat, allFree: set<nat>, gone: set<nat>, head: nat)
    requires Reclaiming(sp0, sp, segs, f, g, h, allFree, gone) && Tiled(sp) && h in sp && sp[h].use.Page? && Seg(h) == g
    requires g * SLICES_PER_SEGMENT < h && h in allFree && Covers(Cleared(sp, h), head, h)
      && Cleared(sp, h)[head].use.Free?
    requires segs[g].abandoned > 0 && segs[g].used > 0 && Resting(Cleared(sp, h), segs')
    requires segs' == segs[g := segs[g].(abandoned := segs[g].abandoned - 1, used := segs[g].used - 1)]
    requires (forall k | k in Cleared(sp, h) && k != head :: k in f' <==> k in f) && head in f'
    ensures Reclaiming(sp0, Cleared(sp, h), segs', f', g, head + Cleared(sp, h)[head].count, allFree, gone + {h})
  {
    hide Resting, Tiled, Cleared, Swept, FiledBefore, PagesFrom, Seg;
    FromSkip(sp, g, h);
    FromClear(sp, g, h, head);
    FiledClear(sp, segs, f, f', g, h, head);
    FiledSegs(Cleared(sp, h), segs, segs', f', g, head + Cleared(sp, h)[head].count);
    SweptClear(sp0, sp, g, h, allFree, gone, head);
  }

  lemma ReclaimedUsed(sp0: Spans, sp: Spans, segs: seq<Segment>, f: map<nat, nat>, segs': seq<Segment>,
                      g: nat, h: nat, allFree: set<nat>, gone: set<nat>)
    requires Reclaiming(sp0, sp, segs, f, g, h, allFree, gone) && Tiled(sp) && h in sp && sp[h].use.Page? && Seg(h) == g
    requires h !in allFree && segs[g].abandoned > 0 && segs' == segs[g := segs[g].(abandoned := segs[g].abandoned - 1)]
    ensures Reclaiming(sp0, sp, segs', f, g, h + sp[h].count, allFree, gone)
  {
    hide Resting, Tiled, Swept, FiledBefore, PagesFrom, Seg;
    RestingSegs(sp, segs, segs');
    FromSkip(sp, g, h);
    FiledSkip(sp, segs, f, f, g, h);
    FiledSegs(sp, segs, segs', f, g, h + sp[h].count);
    SweptSkip(sp0, sp, g, h, allFree, gone);
  }

  lemma ReclaimedSpan(sp0: Spans, sp: Spans, segs: seq<Segment>, f: map<nat, nat>, f': map<nat, nat>,
                      g: nat, h: nat, allFree: set<nat>, gone: set<nat>)
    requires Reclaiming(sp0, sp, segs, f, g, h, allFree, gone) && Tiled(sp) && h in sp && sp[h].use.Free? && Seg(h) == g
    requires h in f' && forall k | k in sp && k != h :: k in f' <==> k in f
    ensures Reclaiming(sp0, sp, segs, f', g, h + sp[h].count, allFree, gone)
  {
    hide Resting, Tiled, Swept, FiledBefore, PagesFrom, Seg;
    FromSkip(sp, g, h);
    FiledSkip(sp, segs, f, f', g, h);
    SweptSkip(sp0, sp, g, h, allFree, gone);
  }

  // Between two spans of a segment under check.
  ghost predicate Checking(sp0: Spans, sp: Spans, segs: seq<Segment>, g: nat, cursor: nat, needed: nat,
                           allFree: set<nat>, roomy: set<nat>, has: bool, gone: set<nat>)
  {
    g < |segs| && !segs[g].owned && Swept(sp0, sp, g, cursor, allFree, gone)
      && RoomBefore(sp, g, cursor, needed, roomy, allFree, has)
  }

  lemma CheckStart(s: seq<Slice>, q: seq<Queue>, qs: seq<seq<nat>>, filed: map<nat, nat>, sp: Spans,
                   segs: seq<Segment>, commit: set<nat>,
                   decommit: set<nat>, info: nat, g: nat, needed: nat, allFree: set<nat>, roomy: set<nat>)
    requires Core(s, q, qs, filed, sp, segs, commit, decommit, info) && g * SLICES_PER_SEGMENT in sp && g < |segs|
      && !segs[g].owned
    ensures Checking(sp, sp, segs, g, g * SLICES_PER_SEGMENT + sp[g * SLICES_PER_SEGMENT].count, needed, allFree, roomy,
      false, {})
  {
    hide Core, Swept, RoomBefore, Tiled;
    FiledOf(s, q, qs, filed, sp, segs, commit, decommit, info);
    SweptStart(sp, g, allFree);
    NoRoomYet(s, q, qs, filed, sp, segs, commit, decommit, info, g, needed, roomy, allFree);
  }

  lemma CheckingFacts(sp0: Spans, sp: Spans, segs: seq<Segment>,
                      f: map<nat, nat>, info: nat, g: nat, h: nat, needed: nat,
                      allFree: set<nat>, roomy: set<nat>, has: bool, gone: set<nat>)
    requires Checking(sp0, sp, segs, g, h, needed, allFree, roomy, has, gone) && Settled(sp, segs, f) && Tiled(sp)
      && Infos(sp, info)
    requires h in sp && Seg(h) == g && h != Start(h)
    ensures g < |segs| && !segs[g].owned && Resting(sp, segs) && segs[g].abandoned == segs[g].used
    ensures sp[h].use.Page? ==> segs[g].used > 0
  {
    hide Resting, Tiled, Infos, Seg, Start;
    if sp[h].use.Page? { ClearResting(sp, segs, info, h); }
  }

  lemma CheckedFree(sp0: Spans, sp: Spans, segs: seq<Segment>, segs': seq<Segment>, g: nat, h: nat, needed: nat,
                    allFree: set<nat>, roomy: set<nat>, has: bool, has': bool, gone: set<nat>, head: nat)
    requires Checking(sp0, sp, segs, g, h, needed, allFree, roomy, has, gone) && Tiled(sp) && h in sp && sp[h].use.Page?
      && Seg(h) == g
    requires g * SLICES_PER_SEGMENT < h && h in allFree && Covers(Cleared(sp, h), head, h)
      && Cleared(sp, h)[head].use.Free?
    requires Seg(head) == g && head != g * SLICES_PER_SEGMENT && OwnedSame(segs, segs')
    requires has' == (has || Cleared(sp, h)[head].count >= needed)
    ensures Checking(sp0, Cleared(sp, h), segs', g, head + Cleared(sp, h)[head].count, needed, allFree, roomy, has',
      gone + {h})
  {
    hide Tiled, Cleared, Swept, RoomBefore, Seg;
    RoomClear(sp, g, h, needed, roomy, allFree, has, has', head);
    SweptClear(sp0, sp, g, h, allFree, gone, head);
  }

  lemma CheckedSkip(sp0: Spans, sp: Spans, segs: seq<Segment>, g: nat, h: nat, needed: nat,
                    allFree: set<nat>, roomy: set<nat>, has: bool, has': bool, gone: set<nat>)
    requires Checking(sp0, sp, segs, g, h, needed, allFree, roomy, has, gone) && Tiled(sp) && h in sp
      && !sp[h].use.Taken?
    requires Seg(h) == g && h != g * SLICES_PER_SEGMENT && (sp[h].use.Page? ==> h !in allFree)
    requires has' == (has || (sp[h].use.Page? && h in roomy) || (sp[h].use.Free? && sp[h].count >= needed))
    ensures Checking(sp0, sp, segs, g, h + sp[h].count, needed, allFree, roomy, has', gone)
  {
    hide Tiled, Swept, RoomBefore, Seg;
    RoomSkip(sp, g, h, needed, roomy, allFree, has, has');
    SweptSkip(sp0, sp, g, h, allFree, gone);
  }

  lemma CheckEnd(s: seq<Slice>, q: seq<Queue>, qs: seq<seq<nat>>,
                 f: map<nat, nat>, f': map<nat, nat>, sp0: Spans, sp: Spans,
                 segs: seq<Segment>, segs': seq<Segment>, commit: set<nat>,
                 decommit: set<nat>, info: nat, g: nat, needed: nat,
                 allFree: set<nat>, roomy: set<nat>, has: bool, gone: set<nat>)
    requires Core(s, q, qs, f', sp, segs', commit, decommit, info) && FiledFree(sp0, segs, f) && Settled(sp0, segs, f)
      && Settled(sp, segs', f')
    requires Checking(sp0, sp, segs', g, (g + 1) * SLICES_PER_SEGMENT, needed, allFree, roomy, has, gone)
      && OwnedSame(segs, segs')
    ensures f' == f && PagesLess(sp0, sp, FreePages(sp0, g, allFree)) && SameElsewhere(sp0, sp, g) && !segs'[g].owned
    ensures has <==> exists k: nat :: Room(sp, g, k, needed, roomy - allFree)
  {
    hide Core, Resting, AllFiled, Swept, RoomBefore, PagesLess, SameElsewhere, FiledFree;
    var end := (g + 1) * SLICES_PER_SEGMENT;
    SweptEnd(sp0, sp, g, end, allFree, gone);
    RoomEnd(sp, g, end, needed, roomy, allFree, has);
    SameFiled(s, q, qs, f, f', sp0, sp, segs, segs', commit, decommit, info, g);
  }
}
