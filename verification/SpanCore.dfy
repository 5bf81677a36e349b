// The invariant of a thread's segment tables, step by step (segment.c).
module SpanCore {
  import opened Base
  import opened SliceBins
  import opened SpanMap
  import opened SpanState
  import DList

  // Every segment starts with its info page, which is never free.
  ghost predicate InfoAt(sp: Spans, info: nat, start: nat) {
    start in sp && sp[start].count == info && !sp[start].use.Free?
  }

  ghost predicate Infos(sp: Spans, info: nat) {
    forall h {:trigger InfoAt(sp, info, Start(h))} | h in sp :: InfoAt(sp, info, Start(h))
  }

  ghost predicate Core(s: seq<Slice>, q: seq<Queue>, qs: seq<seq<nat>>, filed: map<nat, nat>, sp: Spans,
                       segs: seq<Segment>, commit: set<nat>, decommit: set<nat>, info: nat)
  {
    && Tiled(sp) && Infos(sp, info) && Backs(s, sp) && QueueInv(s, q, qs, filed)
    && FiledFree(sp, segs, filed) && CommitInv(sp, commit, decommit)
  }

  // The slices that ensure_committed commits for the span of c slices at h.
  const MINIMAL_COMMIT: nat := 32

  function LiberalMask(h: nat, c: nat, info: nat): set<nat>
  {
    var from := h - Start(h);
    var start0 := from / MINIMAL_COMMIT * MINIMAL_COMMIT;
    var start := if from >= info && start0 < info then info else start0;
    var end0 := RoundUp(from + c);
    var end := if end0 > SLICES_PER_SEGMENT then SLICES_PER_SEGMENT else end0;
    if start <= end then Range(Start(h) + start, end - start) else {}
  }

  lemma MaskInSegment(h: nat, c: nat, info: nat)
    requires 0 < c && h + c <= End(h)
    ensures Range(h, c) <= LiberalMask(h, c, info) <= Range(Start(h), SLICES_PER_SEGMENT)
  {
    hide Start, End, Seg;
  }

  lemma StartMultiple(g: nat)
    ensures Start(g * SLICES_PER_SEGMENT) == g * SLICES_PER_SEGMENT && Seg(g * SLICES_PER_SEGMENT) == g
  {}

  // The info slices of a segment are all that is committed with them exactly if they are whole blocks.
  lemma InfoBlocks(g: nat, info: nat)
    requires 0 < info < SLICES_PER_SEGMENT
    ensures LiberalMask(g * SLICES_PER_SEGMENT, info, info) <= Range(g * SLICES_PER_SEGMENT, info)
            <==> info % MINIMAL_COMMIT == 0
  {
    var h, end := g * SLICES_PER_SEGMENT, RoundUp(info);
    StartMultiple(g);
    hide Start;
    assert LiberalMask(h, info, info) == Range(h, end);
    if info % MINIMAL_COMMIT != 0 { assert h + info in Range(h, end); }
  }

  // The end of the block that has the last of n slices.
  function RoundUp(n: nat): (end: nat)
    ensures n <= end < n + MINIMAL_COMMIT && (end == n <==> n % MINIMAL_COMMIT == 0)
    ensures n <= SLICES_PER_SEGMENT ==> end <= SLICES_PER_SEGMENT
  {
    (n + MINIMAL_COMMIT - 1) / MINIMAL_COMMIT * MINIMAL_COMMIT
  }

  // One info slice is not: committing it takes 31 more.
  lemma InfoExample()
    ensures !(LiberalMask(0, 1, 1) <= Range(0, 1))
  {
    InfoBlocks(0, 1);
  }

  // ---- Core through the steps above

  lemma SegBound(h: nat, n: nat, segs: nat)
    requires h < n == segs * SLICES_PER_SEGMENT
    ensures Seg(h) < segs
  {}

  lemma TakenFacts(s: seq<Slice>, q: seq<Queue>, qs: seq<seq<nat>>, filed: map<nat, nat>, sp: Spans,
                   segs: seq<Segment>, commit: set<nat>, decommit: set<nat>, info: nat, h: nat)
    requires Core(s, q, qs, filed, sp, segs, commit, decommit, info) && h in sp && sp[h].use.Taken?
    requires |s| == |segs| * SLICES_PER_SEGMENT
    ensures QueueInv(s, q, qs, filed) && h !in filed && Seg(h) < |segs|
    ensures 0 < sp[h].count <= SLICES_PER_SEGMENT && h + sp[h].count <= |s|
    ensures 0 < SliceBin(sp[h].count) <= BIN_MAX
  {
    hide QueueInv, FreeAt, PageAt, CommitInv, Infos, SliceBin, Start;
    assert BackAt(s, h, sp[h]);
    assert h in filed ==> FiledAt(sp, segs, h, filed[h]);
    assert TiledAt(sp, h);
    SegBound(h, |s|, |segs|);
    BinRange(sp[h].count);
  }

  lemma FreeFacts(s: seq<Slice>, q: seq<Queue>, qs: seq<seq<nat>>, filed: map<nat, nat>, sp: Spans,
                  segs: seq<Segment>, commit: set<nat>, decommit: set<nat>, info: nat, h: nat)
    requires Core(s, q, qs, filed, sp, segs, commit, decommit, info) && h in sp && sp[h].use.Free?
    ensures QueueInv(s, q, qs, filed)
    ensures 0 < sp[h].count <= SLICES_PER_SEGMENT && h + sp[h].count <= |s|
    ensures s[h].count == sp[h].count && s[h].xblock == 0
    ensures 0 < SliceBin(sp[h].count) <= BIN_MAX && (h in filed ==> filed[h] == SliceBin(sp[h].count))
  {
    hide QueueInv, PageAt, CommitInv, Infos, SliceBin, Start;
    assert BackAt(s, h, sp[h]);
    assert h in filed ==> FiledAt(sp, segs, h, filed[h]);
    assert TiledAt(sp, h);
    BinRange(sp[h].count);
  }

  lemma FreedEntries(s: seq<Slice>, s1: seq<Slice>, s2: seq<Slice>, h: nat, c: nat)
    requires c > 0 && h + c <= |s| == |s1|
    requires s1 == if c > 1
      then s[h := s[h].(count := c, offset := 0)][h + c - 1 := s[h + c - 1].(count := 0, offset := c - 1, xblock := 0)]
      else s[h := s[h].(count := c, offset := 0)]
    requires SameEntries(s1[h := s1[h].(xblock := 0)], s2)
    ensures SameOutside(s, s2, h, h + c) && BackAt(s2, h, Span(c, Free))
  {
    var t := s1[h := s1[h].(xblock := 0)];
    assert SameEntry(t[h], s2[h]) && SameEntry(t[h + c - 1], s2[h + c - 1]);
    forall i: nat | i < |s| && !(h <= i < h + c) ensures SameEntry(s[i], s2[i]) { assert SameEntry(t[i], s2[i]); }
  }

  lemma InfosUse(sp: Spans, info: nat, h: nat, span: Span)
    requires Infos(sp, info) && h in sp && (h != Start(h) || (span.count == info && !span.use.Free?))
    ensures Infos(sp[h := span], info)
  {
    hide Seg, Start;
    var sp' := sp[h := span];
    forall k | k in sp' ensures InfoAt(sp', info, Start(k)) {
      StartStart(k);
      assert InfoAt(sp, info, Start(if k == h then h else k));
    }
  }

  lemma FiledStep(sp: Spans, segs: seq<Segment>, filed: map<nat, nat>, h: nat, span: Span)
    requires FiledFree(sp, segs, filed) && h in sp && h !in filed
    ensures FiledFree(sp[h := span], segs, filed)
    ensures span.use.Free? && Seg(h) < |segs| && segs[Seg(h)].owned ==>
      FiledFree(sp[h := span], segs, filed[h := SliceBin(span.count)])
  {
    hide Seg, SliceBin;
    var sp' := sp[h := span];
    forall k | k in filed ensures FiledAt(sp', segs, k, filed[k]) { assert FiledAt(sp, segs, k, filed[k]); }
    var filed' := filed[h := SliceBin(span.count)];
    if span.use.Free? && Seg(h) < |segs| && segs[Seg(h)].owned {
      forall k | k in filed'
        ensures FiledAt(sp', segs, k, filed'[k])
      {
        if k != h { assert FiledAt(sp, segs, k, filed[k]); }
      }
    }
  }

  lemma FiledLess(sp: Spans, segs: seq<Segment>, filed: map<nat, nat>, h: nat)
    requires FiledFree(sp, segs, filed)
    ensures FiledFree(sp, segs, filed - {h})
  {
    forall k | k in filed - {h}
      ensures FiledAt(sp, segs, k, (filed -
    {
      h})[k]) { assert FiledAt(sp, segs, k, filed[k]);
    }
  }

  lemma CoreFree(s: seq<Slice>, s': seq<Slice>, q: seq<Queue>, q': seq<Queue>, qs: seq<seq<nat>>, qs': seq<seq<nat>>,
                 filed: map<nat, nat>, filed': map<nat, nat>, sp: Spans, segs: seq<Segment>,
                 commit: set<nat>, commit': set<nat>, decommit: set<nat>, decommit': set<nat>, info: nat, h: nat)
    requires Core(s, q, qs, filed, sp, segs, commit, decommit, info) && h in sp && sp[h].use.Taken? && h != Start(h)
    requires Seg(h) < |segs| && h !in filed
    requires QueueInv(s', q', qs', filed')
    requires filed' == if segs[Seg(h)].owned then filed[h := SliceBin(sp[h].count)] else filed
    requires SameOutside(s, s', h, h + sp[h].count) && BackAt(s', h, Span(sp[h].count, Free))
    requires (commit', decommit') == (commit, decommit)
      || (commit', decommit') == (commit - Range(h, sp[h].count), decommit - Range(h, sp[h].count))
      || (commit', decommit') == (commit, decommit + commit * Range(h, sp[h].count))
    ensures Core(s', q', qs', filed', sp[h := Span(sp[h].count, Free)], segs, commit', decommit', info)
  {
    hide QueueInv, Seg, Start, End, SliceBin, SameOutside, BackAt;
    var c := sp[h].count;
    var sp' := sp[h := Span(c, Free)];
    UseTiled(sp, h, Free);
    InfosUse(sp, info, h, Span(c, Free));
    BacksWithin(s, s', sp, h, Free);
    FiledStep(sp, segs, filed, h, Span(c, Free));
    CommitFree(sp, commit, commit', decommit, decommit', h);
    hide *;
  }

  lemma CommitFree(sp: Spans, commit: set<nat>, commit': set<nat>, decommit: set<nat>, decommit': set<nat>, h: nat)
    requires Tiled(sp) && CommitInv(sp, commit, decommit) && h in sp && sp[h].use.Taken?
    requires (commit', decommit') == (commit, decommit)
      || (commit', decommit') == (commit - Range(h, sp[h].count), decommit - Range(h, sp[h].count))
      || (commit', decommit') == (commit, decommit + commit * Range(h, sp[h].count))
    ensures CommitInv(sp[h := Span(sp[h].count, Free)], commit', decommit')
  {
    hide Tiled;
    assert decommit <= commit;
    hide CommitInv;
    DecommitTaken(sp, commit, decommit, h, commit', decommit');
    CommitPages(sp, sp[h := Span(sp[h].count, Free)], commit', decommit');
  }

  lemma CoreTake(s: seq<Slice>, s': seq<Slice>, q: seq<Queue>, q': seq<Queue>, qs: seq<seq<nat>>, qs': seq<seq<nat>>,
                 filed: map<nat, nat>, filed': map<nat, nat>, sp: Spans, segs: seq<Segment>,
                 commit: set<nat>, decommit: set<nat>, info: nat, h: nat)
    requires Core(s, q, qs, filed, sp, segs, commit, decommit, info) && h in sp && sp[h].use.Free? && h != Start(h)
    requires QueueInv(s', q', qs', filed') && filed' == filed - {h} && h < |s|
    requires SameEntries(s[h := s[h].(xblock := 1)], s')
    ensures Core(s', q', qs', filed', sp[h := Span(sp[h].count, Taken)], segs, commit, decommit, info)
  {
    hide QueueInv, Seg, Start, End, SliceBin;
    var c := sp[h].count;
    var sp' := sp[h := Span(c, Taken)];
    UseTiled(sp, h, Taken);
    InfosUse(sp, info, h, Span(c, Taken));
    assert BackAt(s, h, sp[h]);
    TakenEntries(s, s', h, c);
    BacksWithin(s, s', sp, h, Taken);
    FiledLess(sp, segs, filed, h);
    FiledStep(sp, segs, filed', h, Span(c, Taken));
    CommitPages(sp, sp', commit, decommit);
    hide *;
  }

  lemma TiledOf(s: seq<Slice>, q: seq<Queue>, qs: seq<seq<nat>>, filed: map<nat, nat>, sp: Spans,
                segs: seq<Segment>, commit: set<nat>, decommit: set<nat>, info: nat)
    requires Core(s, q, qs, filed, sp, segs, commit, decommit, info)
    ensures Tiled(sp)
  {}

  // A taken head, or one in an abandoned segment, is in no queue.
  lemma NotFiled(s: seq<Slice>, q: seq<Queue>, qs: seq<seq<nat>>, filed: map<nat, nat>, sp: Spans,
                 segs: seq<Segment>, commit: set<nat>, decommit: set<nat>, info: nat, h: nat)
    requires Core(s, q, qs, filed, sp, segs, commit, decommit, info)
    requires h !in sp || !sp[h].use.Free? || Seg(h) >= |segs| || !segs[Seg(h)].owned
    ensures h !in filed
  {
    assert h in filed ==> FiledAt(sp, segs, h, filed[h]);
  }

  lemma NextFacts(s: seq<Slice>, q: seq<Queue>, qs: seq<seq<nat>>, filed: map<nat, nat>, sp: Spans,
                  segs: seq<Segment>, commit: set<nat>, decommit: set<nat>, info: nat, h: nat)
    requires Core(s, q, qs, filed, sp, segs, commit, decommit, info) && h in sp && OnlyTaken(sp, h)
    ensures Tiled(sp)
    ensures var n := h + sp[h].count; n < End(h) ==>
      && n in sp && n < |s| && (s[n].xblock == 0 <==> sp[n].use.Free?) && s[n].count == sp[n].count > 0
      && n != Start(n) && n != h && Seg(n) == Seg(h)
      && (Seg(h) < |segs| && !segs[Seg(h)].owned ==> n !in filed)
  {
    hide Seg, Start, End, Infos, QueueInv, CommitInv;
    var n := h + sp[h].count;
    assert TiledAt(sp, h);
    if n < End(h) {
      SameSegment(h, n);
      StartBefore(h, n);
      assert BackAt(s, n, sp[n]) && TiledAt(sp, n);
      assert n in filed ==> FiledAt(sp, segs, n, filed[n]);
    }
  }

  lemma PrevFacts(s: seq<Slice>, q: seq<Queue>, qs: seq<seq<nat>>, filed: map<nat, nat>, sp: Spans,
                  segs: seq<Segment>, commit: set<nat>, decommit: set<nat>, info: nat, h: nat) returns (p: nat)
    requires Core(s, q, qs, filed, sp, segs, commit, decommit, info) && h in sp && OnlyTaken(sp, h) && h != Start(h)
    requires Seg(h) < |segs|
    ensures Tiled(sp) && 0 < h <= |s| && s[h - 1].offset <= h - 1 && p == h - 1 - s[h - 1].offset
    ensures IsPrev(sp, p, h) && p < h && p < |s| && (s[p].xblock == 0 <==> sp[p].use.Free?) && s[p].count == sp[p].count
    ensures (sp[p].use.Free? <==> PrevFree(sp, h)) && Seg(p) == Seg(h) && End(p) == End(h)
    ensures sp[p].use.Free? ==> p != Start(p)
    ensures !segs[Seg(h)].owned ==> p !in filed
  {
    hide Seg, Start, End, QueueInv, CommitInv;
    p := PrevBySlice(s, sp, h);
    SameSegment(h, p);
    assert InfoAt(sp, info, Start(p));
    assert p in filed ==> FiledAt(sp, segs, p, filed[p]);
    forall r | IsPrev(sp, r, h) ensures r == p { PrevUnique(sp, p, r, h); }
  }

  lemma CoreMark(s: seq<Slice>, q: seq<Queue>, qs: seq<seq<nat>>, filed: map<nat, nat>, sp: Spans,
                 segs: seq<Segment>, commit: set<nat>, decommit: set<nat>, info: nat, h: nat)
    requires Core(s, q, qs, filed, sp, segs, commit, decommit, info) && h in sp && h !in filed && h != Start(h)
    ensures Core(s, q, qs, filed, sp[h := Span(sp[h].count, Taken)], segs, commit, decommit, info)
  {
    hide QueueInv, Seg, Start, End, BackAt;
    UseTiled(sp, h, Taken);
    InfosUse(sp, info, h, Span(sp[h].count, Taken));
    BacksTaken(s, sp, h);
    FiledStep(sp, segs, filed, h, Span(sp[h].count, Taken));
    CommitPages(sp, sp[h := Span(sp[h].count, Taken)], commit, decommit);
    hide *;
  }

  lemma CoreMerge(s: seq<Slice>, q: seq<Queue>, qs: seq<seq<nat>>, filed: map<nat, nat>, sp: Spans,
                  segs: seq<Segment>, commit: set<nat>, decommit: set<nat>, info: nat, h: nat)
    requires Core(s, q, qs, filed, sp, segs, commit, decommit, info) && h in sp && h + sp[h].count in sp
    requires sp[h].use.Taken? && sp[h + sp[h].count].use.Taken? && h + sp[h].count < End(h) && h != Start(h)
    ensures Core(s, q, qs, filed, Merge(sp, h, Taken), segs, commit, decommit, info)
  {
    hide QueueInv, Seg, Start, End, BackAt;
    var n, sp' := h + sp[h].count, Merge(sp, h, Taken);
    MergeTiled(sp, h, Taken);
    BacksMerge(s, sp, h);
    assert TiledAt(sp, h);
    SameSegment(h, n);
    StartBefore(h, n);
    InfosMerge(sp, info, h);
    forall k | k in filed ensures FiledAt(sp', segs, k, filed[k]) { assert FiledAt(sp, segs, k, filed[k]); }
    CommitPages(sp, sp', commit, decommit);
    hide *;
  }

  lemma InfosMerge(sp: Spans, info: nat, h: nat)
    requires Tiled(sp) && Infos(sp, info) && h in sp && h + sp[h].count in sp
      && h + sp[h].count != Start(h + sp[h].count)
    requires sp[h].use.Taken? && h != Start(h)
    ensures Infos(Merge(sp, h, Taken), info)
  {
    hide Seg, Start, End;
    var n, sp' := h + sp[h].count, Merge(sp, h, Taken);
    assert TiledAt(sp, h) && TiledAt(sp, n);
    forall k | k in sp' ensures InfoAt(sp', info, Start(k)) {
      StartStart(k);
      assert k in sp && InfoAt(sp, info, Start(k));
    }
  }

  // The next two follow the three steps of coalescing.
  lemma CoalesceSteps(sp: Spans, h: nat) returns (t: Spans)
    requires Tiled(sp) && h in sp && sp[h].use.Taken? && OnlyTaken(sp, h)
    ensures t == TakeNext(sp, h) && Tiled(t) && h in t && t[h].use.Taken? && OnlyTaken(t, h)
    ensures PrevFree(t, h) <==> PrevFree(sp, h)
  {
    hide Seg, Start, End;
    t := TakeNext(sp, h);
    TakeNextTiled(sp, h);
    assert TiledAt(sp, h);
    if PrevFree(sp, h) {
      var p :| IsPrev(sp, p, h) && sp[p].use.Free?;
      assert TiledAt(sp, p) && IsPrev(t, p, h);
    }
    if PrevFree(t, h) {
      var p :| IsPrev(t, p, h) && t[p].use.Free?;
      assert IsPrev(sp, p, h);
    }
  }

  lemma CoalesceEnd(sp: Spans, h: nat, t: Spans, head: nat, t': Spans, sp': Spans)
    requires Tiled(sp) && h in sp && sp[h].use.Taken? && t == TakeNext(sp, h) && h in t && t[h].use.Taken? && Tiled(t)
    requires PrevFree(t, h) <==> PrevFree(sp, h)
    requires PrevFree(t, h) ==> IsPrev(t, head, h) && t' == Merge(t, head, Taken)
    requires !PrevFree(t, h) ==> head == h && t' == t
    requires head in t' && sp' == t'[head := Span(t'[head].count, Free)]
    ensures sp' == Coalesced(sp, h) && Covers(sp', head, h)
  {
    hide Seg, Start, End, Coalesced, TakeNext, PrevFree, NextFree;
    var u, p := CoalescedCases(sp, h);
    assert TiledAt(t, h);
    if PrevFree(sp, h) {
      assert IsPrev(t, p, h);
      PrevUnique(t, p, head, h);
      assert sp' == Merge(t, head, Free);
    }
  }

  lemma TakenEnd(s: seq<Slice>, q: seq<Queue>, qs: seq<seq<nat>>, filed: map<nat, nat>, sp: Spans,
                 segs: seq<Segment>, commit: set<nat>, decommit: set<nat>, info: nat, h: nat)
    requires Core(s, q, qs, filed, sp, segs, commit, decommit, info) && h in sp
    ensures Tiled(sp) && h + sp[h].count <= End(h)
  {
    hide Seg, Start, End;
    assert TiledAt(sp, h);
  }

  lemma CutFacts(s: seq<Slice>, q: seq<Queue>, qs: seq<seq<nat>>, filed: map<nat, nat>, sp: Spans,
                 segs: seq<Segment>, commit: set<nat>, decommit: set<nat>, info: nat, h: nat, c: nat)
    requires Core(s, q, qs, filed, sp, segs, commit, decommit, info) && h in sp && sp[h].use.Taken?
      && 0 < c < sp[h].count
    requires h != Start(h)
    ensures Core(s, q, qs, filed, Cut(sp, h, c, Taken, Taken), segs, commit, decommit, info)
    ensures h + c != Start(h + c) && Start(h + c) == Start(h) && Seg(h + c) == Seg(h) && h + c < |s| && h + c !in sp
      && h + c !in filed
  {
    hide Seg, Start, End, BackAt, QueueInv;
    var sp' := Cut(sp, h, c, Taken, Taken);
    CutTiled(sp, h, c, Taken, Taken);
    assert TiledAt(sp, h);
    SameSegment(h, h + c);
    StartBefore(h, h + c);
    BackBound(s, h, sp[h]);
    BacksCut(s, sp, h, c);
    hide TiledAt;
    InfosCut(sp, info, h, c);
    assert h + c in filed ==> FiledAt(sp, segs, h + c, filed[h + c]);
    assert h in filed ==> FiledAt(sp, segs, h, filed[h]);
    FiledCut(sp, segs, filed, h, c);
    CommitPages(sp, sp', commit, decommit);
    hide *;
  }

  lemma InfosCut(sp: Spans, info: nat, h: nat, c: nat)
    requires Infos(sp, info) && h in sp && 0 < c < sp[h].count && h != Start(h) && Start(h + c) == Start(h)
      && h + c !in sp
    ensures Infos(Cut(sp, h, c, Taken, Taken), info)
  {
    hide Seg, Start, End;
    var sp' := Cut(sp, h, c, Taken, Taken);
    forall k | k in sp' ensures InfoAt(sp', info, Start(k)) {
      StartStart(k);
      assert InfoAt(sp, info, Start(if k == h + c then h else k));
    }
  }

  lemma FiledCut(sp: Spans, segs: seq<Segment>, filed: map<nat, nat>, h: nat, c: nat)
    requires FiledFree(sp, segs, filed) && h in sp && 0 < c < sp[h].count && h !in filed && h + c !in filed
    ensures FiledFree(Cut(sp, h, c, Taken, Taken), segs, filed)
  {
    hide Seg, SliceBin;
    var sp' := Cut(sp, h, c, Taken, Taken);
    forall k | k in filed ensures FiledAt(sp', segs, k, filed[k]) { assert FiledAt(sp, segs, k, filed[k]); }
  }

  // A taken span's entries may be anything.
  lemma CoreEntry(s: seq<Slice>, s': seq<Slice>, q: seq<Queue>, qs: seq<seq<nat>>, filed: map<nat, nat>, sp: Spans,
                  segs: seq<Segment>, commit: set<nat>, decommit: set<nat>, info: nat, h: nat)
    requires Core(s, q, qs, filed, sp, segs, commit, decommit, info) && h in sp && sp[h].use.Taken?
    requires |s'| == |s| && (forall i | 0 <= i < |s| && i != h :: s'[i] == s[i])
    requires h < |s| && s'[h].prev == s[h].prev && s'[h].next == s[h].next
    ensures Core(s', q, qs, filed, sp, segs, commit, decommit, info)
  {
    hide Seg, Start, End, QueueInv, FiledFree, CommitInv, Infos;
    QueueSame(s, s', q, qs, filed);
    assert BackAt(s, h, sp[h]);
    BacksWithin(s, s', sp, h, Taken);
    assert sp == sp[h := Span(sp[h].count, Taken)];
  }

  lemma CoreAllocate(s: seq<Slice>, s': seq<Slice>, q: seq<Queue>, qs: seq<seq<nat>>, filed: map<nat, nat>, sp: Spans,
                     segs: seq<Segment>, commit: set<nat>,
                     commit': set<nat>, decommit: set<nat>, decommit': set<nat>, info: nat, h: nat)
    requires Core(s, q, qs, filed, sp, segs, commit, decommit, info) && h in sp && sp[h].use.Taken?
    requires QueueInv(s', q, qs, filed) && h !in filed && h + sp[h].count <= |s| == |s'| && sp[h].count > 0
    requires SameOutside(s, s', h, h + sp[h].count) && PageAt(s', h, sp[h].count) && s'[h].count == sp[h].count
      && s'[h].offset == 0
    requires exists more :: Range(h, sp[h].count) <= more && commit' == commit + more && decommit' == decommit - more
    ensures Core(s', q, qs, filed, sp[h := Span(sp[h].count, Page)], segs, commit', decommit', info)
    ensures Range(h, sp[h].count) <= commit' && Range(h, sp[h].count) * decommit' == {}
  {
    hide QueueInv, Seg, Start, End, SliceBin, SameOutside, PageAt;
    var c, sp' := sp[h].count, sp[h := Span(sp[h].count, Page)];
    UseTiled(sp, h, Page);
    assert h == Start(h) ==> InfoAt(sp, info, Start(h));
    InfosUse(sp, info, h, Span(c, Page));
    BacksWithin(s, s', sp, h, Page);
    FiledStep(sp, segs, filed, h, Span(c, Page));
    var more :| Range(h, c) <= more && commit' == commit + more && decommit' == decommit - more;
    CommitMore(sp, commit, decommit, more);
    CommitPage(sp, commit', decommit', h);
    hide *;
  }

  lemma CommitPage(sp: Spans, commit: set<nat>, decommit: set<nat>, h: nat)
    requires CommitInv(sp, commit, decommit) && h in sp
    requires Range(h, sp[h].count) <= commit && Range(h, sp[h].count) !! decommit
    ensures CommitInv(sp[h := Span(sp[h].count, Page)], commit, decommit)
  {
    var sp' := sp[h := Span(sp[h].count, Page)];
    forall k | k in sp' && sp'[k].use.Page? ensures Backed(k, sp'[k].count, commit, decommit) {
      if k == h {
        assert forall i: nat | h <= i < h + sp[h].count :: i in Range(h, sp[h].count);
      } else {
        assert Backed(k, sp[k].count, commit, decommit);
      }
    }
  }

  lemma CoreSegments(s: seq<Slice>, q: seq<Queue>, qs: seq<seq<nat>>, filed: map<nat, nat>, sp: Spans,
                     segs: seq<Segment>, segs': seq<Segment>, commit: set<nat>, decommit: set<nat>, info: nat)
    requires Core(s, q, qs, filed, sp, segs, commit, decommit, info)
    requires |segs| == |segs'| && forall i | 0 <= i < |segs| :: segs'[i].owned == segs[i].owned
    ensures Core(s, q, qs, filed, sp, segs', commit, decommit, info)
  {
    hide QueueInv, Seg, Start, End, SliceBin, Backs, Tiled, CommitInv, Infos;
    forall k | k in filed ensures FiledAt(sp, segs', k, filed[k]) { assert FiledAt(sp, segs, k, filed[k]); }
  }

  lemma TakenEntries(s: seq<Slice>, s': seq<Slice>, h: nat, c: nat)
    requires c > 0 && h + c <= |s| && SameEntries(s[h := s[h].(xblock := 1)], s')
    ensures SameOutside(s, s', h, h + c) && BackAt(s', h, Span(c, Taken))
  {
    var t := s[h := s[h].(xblock := 1)];
    forall i: nat | i < |s| && !(h <= i < h + c) ensures SameEntry(s[i], s'[i]) { assert SameEntry(t[i], s'[i]); }
  }

  lemma EntriesSelf(s: seq<Slice>)
    ensures SameEntries(s, s)
  {}

  lemma EntriesTrans(s: seq<Slice>, s1: seq<Slice>, s2: seq<Slice>)
    requires SameEntries(s, s1) && SameEntries(s1, s2)
    ensures SameEntries(s, s2)
  {
    forall i | 0 <= i < |s| ensures SameEntry(s[i], s2[i]) { assert SameEntry(s[i], s1[i]) && SameEntry(s1[i], s2[i]); }
  }

  lemma EntriesSteps(s: seq<Slice>, s1: seq<Slice>, s2: seq<Slice>, h: nat, v: nat)
    requires SameEntries(s, s1) && SameEntries(s1, s2) && h < |s|
    ensures SameEntries(s[h := s[h].(xblock := v)], s2[h := s2[h].(xblock := v)])
  {
    EntriesTrans(s, s1, s2);
    var t, t' := s[h := s[h].(xblock := v)], s2[h := s2[h].(xblock := v)];
    forall i | 0 <= i < |t| ensures SameEntry(t[i], t'[i]) { assert SameEntry(s[i], s2[i]); }
  }

  lemma SameLinks(s: seq<Slice>, s': seq<Slice>)
    requires |s| == |s'| && Prevs(s') == Prevs(s) && Nexts(s') == Nexts(s)
    ensures forall i | 0 <= i < |s| :: s'[i].prev == s[i].prev && s'[i].next == s[i].next
  {
    forall i | 0 <= i < |s| ensures s'[i].prev == s[i].prev && s'[i].next == s[i].next {
      assert Prevs(s')[i] == Prevs(s)[i] && Nexts(s')[i] == Nexts(s)[i];
    }
  }

  lemma FirstInRange(s: seq<Slice>, q: seq<Queue>, qs: seq<seq<nat>>, filed: map<nat, nat>, b: nat)
    requires QueueInv(s, q, qs, filed) && b <= BIN_MAX
    ensures |q| == |qs| == BIN_MAX + 1
    ensures q[b].first == DList.At(qs[b], 0)
    ensures q[b].first == -1 || (0 <= q[b].first < |s| && q[b].first in filed)
  {
    assert ListAt(s, q[b], qs[b]);
    if qs[b] != [] { assert DList.LinkedAt(qs[b], Prevs(s), Nexts(s), 0) && qs[b][0] in qs[b]; }
  }

  lemma Neighbours(s: seq<Slice>, q: seq<Queue>, qs: seq<seq<nat>>, filed: map<nat, nat>, b: nat, h: nat)
    returns (k: nat)
    requires QueueInv(s, q, qs, filed) && b <= BIN_MAX && h < |s| && (h in filed ==> filed[h] == b)
    ensures |q| == |qs| == BIN_MAX + 1
    ensures s[h].prev == -1 || (0 <= s[h].prev < |s| && s[h].prev != h)
    ensures s[h].next == -1 || (0 <= s[h].next < |s| && s[h].next != h)
    ensures s[h].prev == s[h].next ==> s[h].prev == -1
    ensures h in filed ==> k < |qs[b]| && qs[b][k] == h
    ensures h !in filed ==> s[h].prev == -1 && s[h].next == -1 && q[b].first != h && q[b].last != h
  {
    assert ListAt(s, q[b], qs[b]);
    if h in filed {
      k := DList.Member(qs[b], Prevs(s), Nexts(s), q[b].first, q[b].last, h);
      if k > 0 { assert DList.LinkedAt(qs[b], Prevs(s), Nexts(s), k - 1); }
      if k + 1 < |qs[b]| { assert DList.LinkedAt(qs[b], Prevs(s), Nexts(s), k + 1); }
    } else if qs[b] != [] {
      k := 0;
      assert qs[b][0] in qs[b] && qs[b][|qs[b]| - 1] in qs[b];
    } else {
      k := 0;
    }
  }
}
