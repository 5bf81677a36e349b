// Span allocation, freeing, abandonment and reclaim over one thread's segments (segment.c).
module Segments {
  import opened Base
  import opened SliceBins
  import opened SpanMap
  import opened SpanState
  import opened SpanCore
  import opened SpanRules
  import opened SpanSweeps
  import opened SpanMasks
  import DList

  class SpanTable {
    const info: nat              // segment_info_slices
    const eagerDecommit: bool    // mi_option_decommit_delay is 0
    const slices: array<Slice>
    const queues: array<Queue>
    const segs: array<Segment>
    var commit: set<nat>         // the commit masks, by slice
    var decommit: set<nat>       // the decommit masks, by slice
    ghost var sp: Spans
    ghost var qs: seq<seq<nat>>
    ghost var filed: map<nat, nat>

    ghost predicate Shape() {
      && slices.Length == segs.Length * SLICES_PER_SEGMENT && queues.Length == BIN_MAX + 1
      && 0 < info < SLICES_PER_SEGMENT
    }

    ghost predicate Inv()
      reads this, slices, queues, segs
    {
      Shape() && Core(slices[..], queues[..], qs, filed, sp, segs[..], commit, decommit, info)
    }

    // ---- span queues

    method SetPrev(i: nat, v: int)
      requires i < slices.Length
      modifies slices
      ensures Prevs(slices[..]) == Prevs(old(slices[..]))[i := v] && Nexts(slices[..]) == Nexts(old(slices[..]))
      ensures SameEntries(old(slices[..]), slices[..])
    {
      slices[i] := slices[i].(prev := v);
    }

    method SetNext(i: nat, v: int)
      requires i < slices.Length
      modifies slices
      ensures Nexts(slices[..]) == Nexts(old(slices[..]))[i := v] && Prevs(slices[..]) == Prevs(old(slices[..]))
      ensures SameEntries(old(slices[..]), slices[..])
    {
      slices[i] := slices[i].(next := v);
    }

    method SetBlock(i: nat, v: nat)
      requires i < slices.Length
      modifies slices
      ensures Nexts(slices[..]) == Nexts(old(slices[..])) && Prevs(slices[..]) == Prevs(old(slices[..]))
      ensures slices[..] == old(slices[..])[i := old(slices[i]).(xblock := v)]
    {
      slices[i] := slices[i].(xblock := v);
    }

    method QueuePush(b: nat, h: nat)
      requires Shape() && QueueInv(slices[..], queues[..], qs, filed)
      requires b <= BIN_MAX && h < slices.Length && h !in filed
      modifies slices, queues, `qs, `filed
      ensures QueueInv(slices[..], queues[..], qs, filed)
      ensures filed == old(filed)[h := b] && qs == old(qs)[b := [h] + old(qs)[b]]
      ensures SameEntries(old(slices[..])[h := old(slices[h]).(xblock := 0)], slices[..])
    {
      hide QueueInv, Prevs, Nexts, SameEntries;
      ghost var s, q := slices[..], queues[..];
      var f := queues[b].first;
      FirstInRange(s, q, qs, filed, b);
      SetPrev(h, -1);
      ghost var s0 := slices[..];
      SetNext(h, f);
      queues[b] := queues[b].(first := h);
      ghost var s1 := slices[..];
      EntriesTrans(s, s0, s1);
      if f != -1 {
        SetPrev(f, h);
      } else {
        queues[b] := queues[b].(last := h);
        EntriesSelf(s1);
      }
      ghost var s2 := slices[..];
      SetBlock(h, 0);
      ghost var s' := slices[..];
      assert Prevs(s') == DList.PutNext(Prevs(s)[h := -1], f, h);
      PushInv(s, s', q, qs, filed, b, h);
      assert queues[..] == q[b := Queue(h, if f == -1 then h else q[b].last)];
      qs, filed := qs[b := [h] + qs[b]], filed[h := b];
      EntriesSteps(s, s1, s2, h, 0);
    }

    method Unlink(b: nat, h: nat)
      requires Shape() && b <= BIN_MAX && h < slices.Length
      requires var p, n := slices[h].prev, slices[h].next;
        && (p == -1 || (0 <= p < slices.Length && p != h)) && (n == -1 || (0 <= n < slices.Length && n != h))
      modifies slices, queues
      ensures var s, p, n := old(slices[..]), old(slices[h]).prev, old(slices[h]).next;
        && Prevs(slices[..]) == DList.PutNext(Prevs(s), n, p)[h := -1]
        && Nexts(slices[..]) == DList.PutNext(Nexts(s), p, n)[h := -1]
        && queues[..] == old(queues[..])[b := Queue(if old(queues[b]).first == h then n else old(queues[b]).first,
                                                    if old(queues[b]).last == h then p else old(queues[b]).last)]
        && SameEntries(s[h := s[h].(xblock := 1)], slices[..])
    {
      hide Prevs, Nexts, SameEntries;
      ghost var s := slices[..];
      var p, n := slices[h].prev, slices[h].next;
      EntriesSelf(s);
      if p != -1 { SetNext(p, n); }
      ghost var s1 := slices[..];
      EntriesSelf(s1);
      if h == queues[b].first { queues[b] := queues[b].(first := n); }
      if n != -1 { SetPrev(n, p); }
      ghost var s2 := slices[..];
      if h == queues[b].last { queues[b] := queues[b].(last := p); }
      SetPrev(h, -1);
      ghost var s0 := slices[..];
      SetNext(h, -1);
      EntriesTrans(s2, s0, slices[..]);
      ghost var s3 := slices[..];
      SetBlock(h, 1);
      EntriesTrans(s, s1, s2);
      EntriesSteps(s, s2, s3, h, 1);
    }

    // Works too when the queue does not hold the slice, as can happen during reclaim.
    method QueueDelete(b: nat, h: nat)
      requires Shape() && QueueInv(slices[..], queues[..], qs, filed)
      requires b <= BIN_MAX && h < slices.Length && (h in filed ==> filed[h] == b)
      modifies slices, queues, `qs, `filed
      ensures QueueInv(slices[..], queues[..], qs, filed) && filed == old(filed) - {h}
      ensures Leaves(old(qs), qs, b, h, h in old(filed))
      ensures SameEntries(old(slices[..])[h := old(slices[h]).(xblock := 1)], slices[..])
    {
      hide QueueInv, SameEntries, Leaves;
      ghost var s, q := slices[..], queues[..];
      assert Leaves(qs, qs, b, h, false) by { LeavesNone(qs, b, h); }
      ghost var k := Neighbours(s, q, qs, filed, b, h);
      Unlink(b, h);
      if h in filed {
        DeleteInv(s, slices[..], q, qs, filed, b, h, k);
        LeavesAt(qs, b, h, k);
        qs := qs[b := DList.Without(qs[b], k)];
      } else {
        assert queues[..] == q;
        SameLinks(s, slices[..]);
        QueueSame(s, slices[..], q, qs, filed);
        assert filed - {h} == filed;
      }
      filed := filed - {h};
    }

    // ---- commit sets

    // The commit and decommit masks once the slices in r were freed in segment g.
    ghost function Released(g: nat, r: set<nat>): (set<nat>, set<nat>)
      requires g < segs.Length
      reads this, segs
    {
      Release(commit, decommit, segs[g].allowDecommit, eagerDecommit, r)
    }

    ghost function StillCommitted(g: nat, h: nat, c: nat): set<nat>
      requires g < segs.Length
      reads this, segs
    {
      Released(g, Range(h, c)).0
    }

    // Only whole slices are decommitted, now or later.
    method PerhapsDecommit(g: nat, h: nat, c: nat)
      requires g < segs.Length
      modifies `commit, `decommit
      ensures (commit, decommit) == old(Released(g, Range(h, c)))
    {
      if !segs[g].allowDecommit { return; }
      var mask := Range(h, c);
      if eagerDecommit {
        ApartMinus(commit, mask);
        if commit * mask != {} { commit := commit - mask; }
        decommit := decommit - mask;
      } else {
        decommit := decommit + commit * mask;
      }
    }

    // ---- spans

    // Free the taken span of c slices at h.
    method SpanFree(g: nat, h: nat, c: nat)
      requires Inv() && g < segs.Length && h in sp && sp[h] == Span(c, Taken) && Seg(h) == g && h != Start(h)
      modifies this, slices, queues
      ensures Inv() && sp == old(sp)[h := Span(c, Free)]
      ensures filed == if segs[g].owned then old(filed)[h := SliceBin(c)] else old(filed)
      ensures segs[g].owned ==> SliceBin(c) < |old(qs)| && qs == old(qs)[SliceBin(c) := [h] + old(qs)[SliceBin(c)]]
      ensures !segs[g].owned ==> qs == old(qs)
      ensures (commit, decommit) == old(Released(g, Range(h, c)))
    {
      hide Core, QueueInv, FreeAt, SliceBin;
      ghost var s, q := slices[..], queues[..];
      TakenFacts(s, q, qs, filed, sp, segs[..], commit, decommit, info, h);
      QueueCount(s, q, qs, filed);
      slices[h] := slices[h].(count := c, offset := 0);
      if c > 1 {
        var last := h + c - 1;
        slices[last] := slices[last].(count := 0, offset := c - 1, xblock := 0);
      }
      ghost var s1 := slices[..];
      QueueSame(s, s1, q, qs, filed);
      PerhapsDecommit(g, h, c);
      if segs[g].owned {
        QueuePush(SliceBin(c), h);
      } else {
        SetBlock(h, 0);
        QueueSame(s1, slices[..], q, qs, filed);
        EntriesSelf(slices[..]);
      }
      FreedEntries(s, s1, slices[..], h, c);
      assert Core(slices[..], queues[..], qs, filed, sp[h := Span(c, Free)], segs[..], commit, decommit, info) by {
        CoreFree(s, slices[..], q, queues[..], old(qs), qs, old(filed), filed, sp, segs[..], old(commit), commit,
                 old(decommit), decommit, info, h);
      }
      sp := sp[h := Span(c, Free)];
    }

    method RemoveFromQueue(h: nat)
      requires Inv() && h < slices.Length && h in sp && sp[h].use.Free? && h != Start(h)
      modifies this, slices, queues
      ensures Inv() && sp == old(sp)[h := Span(old(sp)[h].count, Taken)] && filed == old(filed) - {h}
      ensures commit == old(commit) && decommit == old(decommit)
      ensures Leaves(old(qs), qs, SliceBin(old(sp)[h].count), h, h in old(filed))
      ensures SameEntries(old(slices[..])[h := old(slices[h]).(xblock := 1)], slices[..])
    {
      hide Core, QueueInv, SameEntries, Leaves;
      ghost var s, q := slices[..], queues[..];
      FreeFacts(s, q, qs, filed, sp, segs[..], commit, decommit, info, h);
      QueueDelete(SliceBin(slices[h].count), h);
      CoreTake(s, slices[..], q, queues[..], old(qs), qs, old(filed), filed, sp, segs[..], commit, decommit, info, h);
      sp := sp[h := Span(sp[h].count, Taken)];
    }

    // Take the free neighbour after h out of its queue and join it to h.
    method AbsorbNext(g: nat, h: nat) returns (c: nat)
      requires Inv() && g == Seg(h) < segs.Length && h < slices.Length && h != Start(h)
      requires h in sp && sp[h].use.Taken? && OnlyTaken(sp, h) && slices[h].count == sp[h].count
      modifies this, slices, queues
      ensures Inv() && sp == TakeNext(old(sp), h) && h in sp && c == sp[h].count
      ensures filed == if NextFree(old(sp), h) then old(filed) - {h + old(sp)[h].count} else old(filed)
      ensures forall k | k in sp :: k in filed <==> k in old(filed)
      ensures commit == old(commit) && decommit == old(decommit)
    {
      hide Core, SameEntries, Seg, Start, End, Tiled, OnlyTaken;
      c := slices[h].count;
      var next := h + c;
      NextFacts(slices[..], queues[..], qs, filed, sp, segs[..], commit, decommit, info, h);
      if next < End(h) && slices[next].xblock == 0 {
        c := c + slices[next].count;
        if segs[g].owned {
          RemoveFromQueue(next);
        } else {
          CoreMark(slices[..], queues[..], qs, filed, sp, segs[..], commit, decommit, info, next);
          sp := sp[next := Span(sp[next].count, Taken)];
        }
        CoreMerge(slices[..], queues[..], qs, filed, sp, segs[..], commit, decommit, info, h);
        assert Merge(sp, h, Taken) == Merge(old(sp), h, Taken);
        sp := Merge(sp, h, Taken);
      } else {
        assert sp == sp[h := Span(sp[h].count, Taken)];
      }
    }

    // Take the free neighbour before h out of its queue and join h to it.
    method AbsorbPrev(g: nat, h: nat, c: nat) returns (head: nat, c': nat)
      requires Inv() && g == Seg(h) < segs.Length && h < slices.Length && h != Start(h)
      requires h in sp && sp[h] == Span(c, Taken) && OnlyTaken(sp, h)
      modifies this, slices, queues
      ensures Inv() && head in sp && sp[head] == Span(c', Taken)
      ensures PrevFree(old(sp), h) ==>
        IsPrev(old(sp), head, h) && sp == Merge(old(sp), head, Taken) && filed == old(filed) - {head}
      ensures !PrevFree(old(sp), h) ==> head == h && sp == old(sp) && filed == old(filed)
      ensures head != Start(head) && Seg(head) == g
      ensures forall k | k in sp && k != head :: k in old(sp) && (k in filed <==> k in old(filed))
      ensures commit == old(commit) && decommit == old(decommit)
    {
      hide Core, SameEntries, Seg, Start, End, Tiled, OnlyTaken;
      head, c' := h, c;
      ghost var p := PrevFacts(slices[..], queues[..], qs, filed, sp, segs[..], commit, decommit, info, h);
      var prev := h - 1 - slices[h - 1].offset;
      if slices[prev].xblock == 0 {
        c' := c + slices[prev].count;
        if segs[g].owned {
          RemoveFromQueue(prev);
        } else {
          CoreMark(slices[..], queues[..], qs, filed, sp, segs[..], commit, decommit, info, prev);
          sp := sp[prev := Span(sp[prev].count, Taken)];
        }
        CoreMerge(slices[..], queues[..], qs, filed, sp, segs[..], commit, decommit, info, prev);
        assert Merge(sp, prev, Taken) == Merge(old(sp), prev, Taken);
        sp := Merge(sp, prev, Taken);
        head := prev;
      }
    }

    // Free the taken span at h together with its free neighbours.
    method SpanFreeCoalesce(g: nat, h: nat) returns (head: nat)
      requires Inv() && g == Seg(h) < segs.Length && h < slices.Length && h != Start(h)
      requires h in sp && sp[h].use.Taken? && OnlyTaken(sp, h) && slices[h].count == sp[h].count
      modifies this, slices, queues
      ensures Inv() && sp == Coalesced(old(sp), h)
      ensures head in sp && sp[head].use.Free? && Covers(sp, head, h) && head != Start(head) && Seg(head) == g
      ensures forall k | k in sp && k != head :: k in filed <==> k in old(filed)
      ensures head in filed <==> segs[g].owned
      ensures var c := sp[head].count; (commit, decommit) == old(Released(g, Range(head, c)))
    {
      hide Core, Seg, Start, End, Tiled, OnlyTaken, TakeNext, Coalesced, PrevFree, NextFree;
      TiledOf(slices[..], queues[..], qs, filed, sp, segs[..], commit, decommit, info);
      ghost var t := CoalesceSteps(sp, h);
      var c := AbsorbNext(g, h);
      ghost var filed1 := filed;
      var c';
      head, c' := AbsorbPrev(g, h, c);
      ghost var t' := sp;
      NotFiled(slices[..], queues[..], qs, filed, sp, segs[..], commit, decommit, info, head);
      SpanFree(g, head, c');
      CoalesceEnd(old(sp), h, t, head, t', sp);
    }

    // ---- allocation

    // Shorten the taken span at h to c slices; the rest becomes free.
    method SliceSplit(g: nat, h: nat, c: nat)
      requires Inv() && g == Seg(h) < segs.Length && h < slices.Length && h != Start(h)
      requires h in sp && sp[h].use.Taken? && slices[h].count == sp[h].count && 0 < c <= sp[h].count
      modifies this, slices, queues
      ensures Inv() && sp == Cut(old(sp), h, c, Taken, Free) && slices[h].count == c
      ensures c < old(sp)[h].count && segs[g].owned ==> filed == old(filed)[h + c := SliceBin(old(sp)[h].count - c)]
      ensures c == old(sp)[h].count || !segs[g].owned ==> filed == old(filed)
      ensures (commit, decommit) == old(Released(g, Range(h + c, slices[h].count - c)))
    {
      hide Core, Seg, Start, End, Tiled, SliceBin;
      if slices[h].count <= c {
        NothingReleased(commit, decommit, segs[g].allowDecommit, eagerDecommit, Range(h + c, 0));
        return;
      }
      var next, rest := h + c, slices[h].count - c;
      CutFacts(slices[..], queues[..], qs, filed, sp, segs[..], commit, decommit, info, h, c);
      sp := Cut(sp, h, c, Taken, Taken);
      SpanFree(g, next, rest);
      ghost var s := slices[..];
      slices[h] := slices[h].(count := c);
      CoreEntry(s, slices[..], queues[..], qs, filed, sp, segs[..], commit, decommit, info, h);
    }

    // Commit is liberal: the surrounding 2 MiB, clipped to the pages of the segment.
    method EnsureCommitted(h: nat, c: nat, osCommits: bool) returns (ok: bool)
      requires 0 < c && h + c <= End(h) && 0 < info < SLICES_PER_SEGMENT
      modifies `commit, `decommit
      ensures ok ==>
        commit == old(commit) + LiberalMask(h, c, info) && decommit == old(decommit) - LiberalMask(h, c, info)
      ensures !ok ==> commit == old(commit) && decommit == old(decommit)
      ensures ok <==> osCommits || LiberalMask(h, c, info) <= old(commit)
    {
      hide Start, End, Seg, LiberalMask;
      var mask, all := LiberalMask(h, c, info), Range(Start(h), SLICES_PER_SEGMENT);
      MaskInSegment(h, c, info);
      if all <= commit && all * decommit == {} {
        assert mask <= commit && commit == commit + mask && decommit == decommit - mask by {
          assert forall i | i in mask :: i in all;
        }
        return true;
      }
      if !(mask <= commit) {
        if !osCommits { return false; }
        commit := commit + mask;
      }
      assert commit == old(commit) + mask;
      decommit := decommit - mask;
      return true;
    }

    // Turn the taken span at h into a page; fails only when the commit fails, with nothing changed.
    method SpanAllocate(g: nat, h: nat, c: nat, osCommits: bool) returns (ok: bool)
      requires Inv() && g == Seg(h) < segs.Length && h < slices.Length && h in sp && sp[h] == Span(c, Taken)
      modifies this, slices, segs
      ensures Inv() && filed == old(filed)
      ensures ok <==> osCommits || LiberalMask(h, c, info) <= old(commit)
      ensures sp == if ok then old(sp)[h := Span(c, Page)] else old(sp)
      ensures segs[..] == if ok then old(segs[..])[g := old(segs[g]).(used := old(segs[g]).used + 1)] else old(segs[..])
      ensures ok ==> Range(h, c) <= commit && Range(h, c) * decommit == {}
      ensures ok ==>
        commit == old(commit) + LiberalMask(h, c, info) && decommit == old(decommit) - LiberalMask(h, c, info)
      ensures !ok ==> slices[..] == old(slices[..]) && commit == old(commit) && decommit == old(decommit)
    {
      hide Core, Seg, Start, End, Tiled, SliceBin, LiberalMask, PageAt, SameOutside, QueueInv;
      ghost var s, q := slices[..], queues[..];
      TakenFacts(s, q, qs, filed, sp, segs[..], commit, decommit, info, h);
      TakenEnd(s, q, qs, filed, sp, segs[..], commit, decommit, info, h);
      ok := EnsureCommitted(h, c, osCommits);
      if !ok { return; }
      MaskInSegment(h, c, info);
      WriteEntries(h, c);
      QueueSame(s, slices[..], q, qs, filed);
      CoreAllocate(s, slices[..], q, qs, filed, sp, segs[..], old(commit), commit, old(decommit), decommit, info, h);
      sp := sp[h := Span(c, Page)];
      ghost var segs0 := segs[..];
      segs[g] := segs[g].(used := segs[g].used + 1);
      CoreSegments(slices[..], q, qs, filed, sp, segs0, segs[..], commit, decommit, info);
    }

    // The head and the back offsets of a new page.
    method WriteEntries(h: nat, c: nat)
      requires 0 < c && h + c <= slices.Length
      modifies slices
      ensures PageAt(slices[..], h, c) && slices[h].count == c && slices[h].offset == 0
      ensures SameOutside(old(slices[..]), slices[..], h, h + c)
      ensures forall i | 0 <= i < slices.Length ::
        slices[i].prev == old(slices[i].prev) && slices[i].next == old(slices[i].next)
    {
      slices[h] := slices[h].(offset := 0, count := c, xblock := c * SLICE_SIZE);
      var extra := if c - 1 > MAX_SLICE_OFFSET then MAX_SLICE_OFFSET else c - 1;
      for i := 1 to extra + 1
        invariant slices[h] == old(slices[h]).(offset := 0, count := c, xblock := c * SLICE_SIZE)
        invariant forall k | 0 <= k < slices.Length && !(h <= k < h + i) :: slices[k] == old(slices[k])
        invariant forall k | h < k < h + i :: slices[k] == old(slices[k]).(offset := k - h, count := 0, xblock := 1)
      {
        slices[h + i] := slices[h + i].(offset := i, count := 0, xblock := 1);
      }
      var last := h + c - 1;
      if last >= h + extra + 1 {
        slices[last] := slices[last].(offset := c - 1, count := 0, xblock := 1);
      }
    }

    ghost predicate Valid()
      reads this, slices, queues, segs
    {
      Inv() && Settled(sp, segs[..], filed)
    }

    // The masks once the span of n slices at h was cut to c slices and those were committed.
    ghost function Committed(h: nat, c: nat, n: nat): (set<nat>, set<nat>)
      requires c <= n && Seg(h) < segs.Length
      reads this, segs
    {
      var (stay, waiting) := Released(Seg(h), Range(h + c, n - c));
      (stay + LiberalMask(h, c, info), waiting - LiberalMask(h, c, info))
    }

    // Take the queued span h, cut it to c slices and make them a page. When the commit fails, the
    // spans and queues are as before.
    method AllocateFrom(h: nat, c: nat, osCommits: bool) returns (r: Option<nat>)
      requires Valid() && h in filed && h < slices.Length && 0 < c <= slices[h].count && Seg(h) < segs.Length
      modifies this, slices, queues, segs
      ensures Valid()
      ensures r.Some? <==>
        osCommits || LiberalMask(h, c, info) <= old(StillCommitted(Seg(h), h + c, slices[h].count - c))
      ensures r.None? ==> sp == old(sp) && filed == old(filed) && segs[..] == old(segs[..])
      ensures r.Some? ==> r.value == h && h in old(sp) && old(sp)[h].use.Free? && c <= old(sp)[h].count
      ensures r.Some? ==> sp == Cut(old(sp), h, c, Page, Free)
      ensures r.Some? ==> segs[..] == old(segs[..])[Seg(h) := old(segs[Seg(h)]).(used := old(segs[Seg(h)]).used + 1)]
      ensures r.Some? ==> Range(h, c) <= commit && Range(h, c) !! decommit
      ensures r.Some? ==> (commit, decommit) == old(Committed(h, c, slices[h].count))
      ensures r.None? ==> (commit, decommit) == old(Released(Seg(h), Range(h, slices[h].count)))
    {
      hide Core, Settled, Coalesced, Seg, Start, End, Tiled, SliceBin, SameEntries, FiledFree, OnlyTaken, Cut, Release,
           Range, LiberalMask;
      ghost var s0, segs0, sp0, filed0 := slices[..], segs[..], sp, filed;
      ghost var n, commit0, decommit0 := slices[h].count, commit, decommit;
      var g := Seg(h);
      QueuedFacts(s0, queues[..], qs, filed, sp, segs0, commit, decommit, info, h);
      RemoveFromQueue(h);
      TakenCount(s0, slices[..], h);
      SliceSplit(g, h, c);
      CutOfTaken(sp0, h, c);
      ghost var filed1 := filed;
      assert SplitFiled(sp0, filed0, filed1, h, c);
      var ok := SpanAllocate(g, h, c, osCommits);
      if !ok {
        CutOnlyTaken(sp0, segs0, filed0, h, c);
        ghost var head := SpanFreeCoalesce(g, h);
        FiledOf(slices[..], queues[..], qs, filed, sp, segs[..], commit, decommit, info);
        Restored(sp0, segs0, filed0, filed1, filed, h, c, head);
        ReleasedBoth(commit0, decommit0, segs0[g].allowDecommit, eagerDecommit, Range(h + c, n - c), Range(h, n));
        RangeRest(h, c, n);
        return None;
      }
      AllocateSettled(sp0, segs0, filed0, filed1, h, c);
      NoneCommon(Range(h, c), decommit);
      return Some(h);
    }

    // A request for slices can be met from the span h: what the page needs is committed or can be.
    ghost predicate CanTake(h: nat, sliceCount: nat, osCommits: bool)
      requires Fits(sp, h, sliceCount) && Seg(h) < segs.Length
      reads this, segs
    {
      var n := Needed(sliceCount);
      osCommits || LiberalMask(h, n, info) <= StillCommitted(Seg(h), h + n, sp[h].count - n)
    }

    // Best fit: the first fitting span of the lowest bin that holds one. When that one cannot be committed, no other is
    // tried.
    method FindAndAllocate(sliceCount: nat, osCommits: bool) returns (r: Option<nat>, ghost best: Option<nat>)
      requires Valid() && sliceCount <= SLICES_PER_SEGMENT / 2
      modifies this, slices, queues, segs
      ensures Valid()
      ensures best.None? <==> forall k | k in old(filed) :: !Fits(old(sp), k, sliceCount)
      ensures best.Some? ==>
        Seg(best.value) < segs.Length && BestFit(old(sp), old(filed), old(qs), best.value, sliceCount)
      ensures r == if best.Some? && old(CanTake(best.value, sliceCount, osCommits)) then best else None
      ensures r.None? ==> sp == old(sp) && filed == old(filed) && segs[..] == old(segs[..])
      ensures r.Some? ==> sp == Cut(old(sp), r.value, Needed(sliceCount), Page, Free)
      ensures r.Some? ==> var g := Seg(r.value);
        segs[..] == old(segs[..])[g := old(segs[g]).(used := old(segs[g]).used + 1)]
      ensures r.Some? ==> Range(r.value, Needed(sliceCount)) <= commit && Range(r.value, Needed(sliceCount)) !! decommit
      ensures best.None? ==> commit == old(commit) && decommit == old(decommit)
      ensures best.Some? ==>
        var h, n := best.value, Needed(sliceCount);
        (commit, decommit) == if r.Some? then old(Committed(h, n, sp[h].count))
                              else old(Released(Seg(h), Range(h, sp[h].count)))
    {
      hide Core, Settled, Seg, Start, End, Tiled, SliceBin, FiledFree;
      var b, c := SliceBin(sliceCount), Needed(sliceCount);
      ghost var sp0, filed0 := sp, filed;
      Lower(slices[..], queues[..], qs, filed, sp, segs[..], commit, decommit, info, sliceCount);
      while b <= BIN_MAX
        invariant Valid() && sp == sp0 && filed == filed0 && segs[..] == old(segs[..])
        invariant commit == old(commit) && decommit == old(decommit) && qs == old(qs)
        invariant forall k | k in filed && filed[k] < b :: k in sp && sp[k].count < c
      {
        var slice := queues[b].first;
        ghost var i: nat := 0;
        BinFacts(slices[..], queues[..], qs, filed, sp, segs[..], commit, decommit, info, b);
        while slice != -1
          invariant Valid() && sp == sp0 && filed == filed0 && segs[..] == old(segs[..])
          invariant |qs| == BIN_MAX + 1 && i <= |qs[b]| && slice == DList.At(qs[b], i)
          invariant commit == old(commit) && decommit == old(decommit) && qs == old(qs)
          invariant forall j | 0 <= j < i :: qs[b][j] in sp && sp[qs[b][j]].count < c
          decreases |qs[b]| - i
        {
          EntryFacts(slices[..], queues[..], qs, filed, sp, segs[..], commit, decommit, info, b, i);
          if slices[slice].count >= c {
            FiledBins(slices[..], queues[..], qs, filed, sp, segs[..], commit, decommit, info);
            best := Some(slice);
            assert FirstFit(sp, qs, filed[slice], i, slice, sliceCount);
            r := AllocateFrom(slice, c, osCommits);
            return;
          }
          slice, i := slices[slice].next, i + 1;
        }
        BinDone(slices[..], queues[..], qs, filed, sp, segs[..], commit, decommit, info, b);
        b := b + 1;
      }
      FiledBins(slices[..], queues[..], qs, filed, sp, segs[..], commit, decommit, info);
      r, best := None, None;
    }

    // ---- freeing pages

    // Free a page whose blocks are all free; the segment keeps its invariants even while it is
    // abandoned or half reclaimed.
    method PageClear(g: nat, h: nat) returns (head: nat)
      requires Inv() && Resting(sp, segs[..]) && g == Seg(h) < segs.Length && h < slices.Length
      requires h in sp && sp[h].use.Page? && h != Start(h)
      modifies this, slices, queues, segs
      ensures Inv() && Resting(sp, segs[..]) && sp == Cleared(old(sp), h)
      ensures old(segs[g]).used > 0 && segs[..] == old(segs[..])[g := old(segs[g]).(used := old(segs[g]).used - 1)]
      ensures head in sp && sp[head].use.Free? && Covers(sp, head, h) && head != Start(head) && Seg(head) == g
      ensures forall k | k in sp && k != head :: k in filed <==> k in old(filed)
      ensures head in filed <==> segs[g].owned
      ensures var c := sp[head].count; (commit, decommit) == old(Released(g, Range(head, c)))
    {
      hide Core, Resting, Coalesced, Seg, Start, End, Tiled, OnlyTaken, Infos, Release;
      ghost var segs0, sp0 := segs[..], sp;
      FiledOf(slices[..], queues[..], qs, filed, sp, segs0, commit, decommit, info);
      ClearResting(sp, segs0, info, h);
      PageFacts(slices[..], queues[..], qs, filed, sp, segs0, commit, decommit, info, h);
      CoreMark(slices[..], queues[..], qs, filed, sp, segs0, commit, decommit, info, h);
      sp := sp[h := Span(sp[h].count, Taken)];
      ghost var s1 := slices[..];
      slices[h] := slices[h].(xblock := 1);
      CoreEntry(s1, slices[..], queues[..], qs, filed, sp, segs0, commit, decommit, info, h);
      MarkOnly(sp0, segs0, h);
      head := SpanFreeCoalesce(g, h);
      segs[g] := segs[g].(used := segs[g].used - 1);
      CoreSegments(slices[..], queues[..], qs, filed, sp, segs0, segs[..], commit, decommit, info);
    }

    // The masks once what waits in segment g is decommitted.
    ghost function Decommitted(g: nat, due: bool): (set<nat>, set<nat>)
      requires g < segs.Length
      reads this, segs
    {
      DecommitFrom(g, commit, decommit, due)
    }

    ghost function DecommitFrom(g: nat, stay: set<nat>, waiting: set<nat>, due: bool): (set<nat>, set<nat>)
      requires g < segs.Length
      reads this, segs
    {
      var mask := waiting * Range(g * SLICES_PER_SEGMENT, SLICES_PER_SEGMENT);
      if segs[g].allowDecommit && due then (stay - mask, waiting - mask) else (stay, waiting)
    }

    // Decommit what waits in this segment. The mask loop is the subject of module CommitMask.
    method DelayedDecommit(g: nat, due: bool)
      requires Inv() && g < segs.Length
      modifies `commit, `decommit
      ensures Inv()
      ensures (commit, decommit) == old(Decommitted(g, due))
    {
      hide Tiled, Infos, Backs, QueueInv, FiledFree, CommitInv;
      var mask := decommit * Range(g * SLICES_PER_SEGMENT, SLICES_PER_SEGMENT);
      if !segs[g].allowDecommit || mask == {} || !due {
        assert mask == {} ==> commit - mask == commit && decommit - mask == decommit;
        return;
      }
      DecommitWaiting(sp, commit, decommit, mask);
      decommit := decommit - mask;
      commit := commit - mask;
    }

    // A page that is cleared leaves no memory committed once what waits in its segment has been decommitted, where
    // that is allowed, and with it all its memory otherwise.
    method ClearThenDecommit(g: nat, h: nat) returns (head: nat)
      requires Inv() && Resting(sp, segs[..]) && g == Seg(h) < segs.Length && h < slices.Length
      requires h in sp && sp[h].use.Page? && h != Start(h)
      modifies this, slices, queues, segs
      ensures Inv() && sp == Cleared(old(sp), h)
      ensures var page := Range(h, old(sp[h].count));
        if old(segs[g].allowDecommit) then page !! commit && page !! decommit
        else commit == old(commit) && decommit == old(decommit)
    {
      hide Core, Resting, Seg, Start, Cleared, Tiled;
      ghost var sp0, commit0 := sp, commit;
      TiledOf(slices[..], queues[..], qs, filed, sp, segs[..], commit, decommit, info);
      head := PageClear(g, h);
      ClearedInside(sp0, h, head);
      SpanInSegment(sp, head);
      SegmentSlices(sp, g, head);
      CommitOf(slices[..], queues[..], qs, filed, sp, segs[..], commit, decommit, info);
      DelayedDecommit(g, true);
    }

    // Give back a segment without pages: it has exactly the info span and one free span.
    method SegmentFree(g: nat) returns (spans: nat)
      requires Valid() && g < segs.Length && segs[g].used == 0 && segs[g].owned && g * SLICES_PER_SEGMENT in sp
      modifies this, slices, queues
      ensures Valid() && sp == Dropped(old(sp), g) && spans == 2
      ensures forall k | k in filed :: k in old(filed)
      ensures commit == old(commit) && decommit == old(decommit)
    {
      hide Core, Resting, Settled, Seg, Start, Tiled, Dropped, FiledFree, SameEntries;
      ghost var sp0, filed0, segs0 := sp, filed, segs[..];
      FiledOf(slices[..], queues[..], qs, filed, sp, segs0, commit, decommit, info);
      var slice, end := g * SLICES_PER_SEGMENT, (g + 1) * SLICES_PER_SEGMENT;
      ghost var free := slice + info;
      EmptySegment(slices[..], queues[..], qs, filed, sp, segs0, commit, decommit, info, g);
      spans := 0;
      while slice < end
        invariant Inv() && segs[..] == segs0 && slice <= end
        invariant spans == 0 ==> slice == end - SLICES_PER_SEGMENT && sp == sp0 && filed == filed0
        invariant spans == 1 ==> slice == free && sp == sp0 && filed == filed0
        invariant spans == 2 ==> slice == end && sp == sp0[free := Span(end - free, Taken)] && filed == filed0 - {free}
        invariant spans <= 2 && commit == old(commit) && decommit == old(decommit)
        decreases 2 - spans
      {
        ghost var h: nat := slice;
        SpanFacts(slices[..], queues[..], qs, filed, sp, segs0, commit, decommit, info, h);
        if slices[slice].xblock == 0 {
          ghost var s := slices[..];
          RemoveFromQueue(slice);
          TakenCount(s, slices[..], slice);
        }
        slice := slice + slices[slice].count;
        spans := spans + 1;
      }
      DropSegment(slices[..], queues[..], qs, filed0, filed, sp0, sp, segs0, commit, decommit, info, g, free);
      sp := Dropped(sp0, g);
    }

    // ---- abandonment

    // Every page of the segment is abandoned: its free spans leave the queues and it leaves this thread.
    method SegmentAbandon(g: nat, decommitDue: bool)
      requires Valid() && g < segs.Length && segs[g].owned && segs[g].used == segs[g].abandoned
        && g * SLICES_PER_SEGMENT in sp
      modifies this, slices, queues, segs
      ensures Valid() && sp == old(sp)
      ensures segs[..] == old(segs[..])[g := old(segs[g]).(owned := false)]
      ensures forall k :: k in filed <==> k in old(filed) && Seg(k) != g
      ensures (commit, decommit) == old(Decommitted(g, decommitDue))
    {
      hide Core, Settled, Seg, Start, End, Tiled, FiledFree, SameEntries, BackAt;
      ghost var sp0, filed0, segs0 := sp, filed, segs[..];
      var slice, end := g * SLICES_PER_SEGMENT, (g + 1) * SLICES_PER_SEGMENT;
      StartMultiple(g);
      SettledFacts(sp, segs0, filed);
      FiledOf(slices[..], queues[..], qs, filed, sp, segs0, commit, decommit, info);
      while slice < end
        invariant Inv() && segs[..] == segs0 && sp == sp0 && g * SLICES_PER_SEGMENT <= slice <= end
        invariant slice < end ==> slice in sp && Start(slice) == g * SLICES_PER_SEGMENT && End(slice) == end
        invariant forall k | k in sp0 :: k in filed <==> k in filed0 && !(g * SLICES_PER_SEGMENT <= k < slice)
        invariant commit == old(commit) && decommit == old(decommit)
        decreases end - slice
      {
        ghost var h: nat := slice;
        SpanFacts(slices[..], queues[..], qs, filed, sp, segs0, commit, decommit, info, h);
        if slices[slice].xblock == 0 {
          ghost var s := slices[..];
          RemoveFromQueue(slice);
          TakenCount(s, slices[..], slice);
          ghost var s1 := slices[..];
          slices[slice] := slices[slice].(xblock := 0);
          CoreRestore(s, s1, slices[..], queues[..], qs, filed, sp0, segs0, commit, decommit, info, h);
          sp := sp0;
        }
        NextSpan(slices[..], queues[..], qs, filed, sp, segs0, commit, decommit, info, h);
        slice := slice + slices[slice].count;
      }
      DelayedDecommit(g, decommitDue);
      segs[g] := segs[g].(owned := false);
      AbandonSettled(slices[..], queues[..], qs, filed0, filed, sp, segs0, segs[..], commit, decommit, info, g);
    }

    method PageAbandon(g: nat, decommitDue: bool)
      requires Valid() && g < segs.Length && segs[g].owned && segs[g].abandoned < segs[g].used
        && g * SLICES_PER_SEGMENT in sp
      modifies this, slices, queues, segs
      ensures Valid() && sp == old(sp)
      ensures segs[g].owned <==> segs[g].abandoned != segs[g].used
      ensures segs[g].abandoned == old(segs[g]).abandoned + 1 && segs[g].used == old(segs[g]).used
      ensures segs[..] == old(segs[..])[g := old(segs[g]).(abandoned := segs[g].abandoned, owned := segs[g].owned)]
      ensures (commit, decommit) ==
        if segs[g].owned then (old(commit), old(decommit)) else old(Decommitted(g, decommitDue))
    {
      hide Core, Resting;
      ghost var segs0 := segs[..];
      segs[g] := segs[g].(abandoned := segs[g].abandoned + 1);
      CoreSegments(slices[..], queues[..], qs, filed, sp, segs0, segs[..], commit, decommit, info);
      AbandonOne(sp, segs0, segs[..], filed, g);
      if segs[g].used == segs[g].abandoned {
        SegmentAbandon(g, decommitDue);
      }
    }

    method PageFree(g: nat, h: nat, decommitDue: bool) returns (ghost head: nat)
      requires Valid() && g == Seg(h) < segs.Length && segs[g].owned && segs[g].abandoned < segs[g].used
      requires h < slices.Length && h in sp && sp[h].use.Page? && h != Start(h)
      modifies this, slices, queues, segs
      ensures Valid()
      ensures sp == if old(segs[g]).used == 1 then Dropped(Cleared(old(sp), h), g) else Cleared(old(sp), h)
      ensures segs[g].used == old(segs[g]).used - 1 && segs[g].abandoned == old(segs[g]).abandoned
      ensures segs[g].owned <==> segs[g].used == 0 || segs[g].abandoned != segs[g].used
      ensures segs[..] == old(segs[..])[g := old(segs[g]).(used := segs[g].used, owned := segs[g].owned)]
      // the page and its free neighbours are freed; where the rest is abandoned, too, what waits may be decommitted
      ensures Covers(Cleared(old(sp), h), head, h)
      ensures var c := Cleared(old(sp), h)[head].count; var (stay, waiting) := old(Released(g, Range(head, c)));
        (commit, decommit) == if segs[g].owned then (stay, waiting)
                              else old(DecommitFrom(g, stay, waiting, decommitDue))
    {
      hide Core, Resting, Seg, Start, End, Tiled, AllFiled, Cleared, Dropped, Release;
      ghost var segs0, filed0 := segs[..], filed;
      FiledOf(slices[..], queues[..], qs, filed, sp, segs0, commit, decommit, info);
      SegmentStart(slices[..], queues[..], qs, filed, sp, segs0, commit, decommit, info, h);
      head := PageClear(g, h);
      ClearedFiled(slices[..], queues[..], qs, old(filed), filed, old(sp), sp, segs0, segs[..], commit, decommit, info,
                   h, head);
      SegmentStart(slices[..], queues[..], qs, filed, sp, segs[..], commit, decommit, info, head);
      if segs[g].used == 0 {
        var spans := SegmentFree(g);
      } else if segs[g].used == segs[g].abandoned {
        SegmentAbandon(g, decommitDue);
      }
    }

    // ---- visiting an abandoned segment

    // One span of a segment under check; the next one starts after the result.
    method CheckSpan(g: nat, h: nat, needed: nat,
                     allFree: set<nat>, roomy: set<nat>, has: bool, ghost sp0: Spans, ghost gone: set<nat>,
                     ghost freed: set<nat>)
      returns (head: nat, has': bool, ghost gone': set<nat>, ghost more: set<nat>)
      requires Valid() && h in sp && Seg(h) == g && g * SLICES_PER_SEGMENT < h < slices.Length
      requires Checking(sp0, sp, segs[..], g, h, needed, allFree, roomy, has, gone)
      requires FreedPages(sp0, sp, g, gone, freed) && PagesLess(sp0, sp, gone)
      modifies this, slices, queues, segs
      ensures Valid() && head in sp && Seg(head) == g && Covers(sp, head, h) && OwnedSame(old(segs[..]), segs[..])
      ensures Checking(sp0, sp, segs[..], g, head + sp[head].count, needed, allFree, roomy, has', gone')
      ensures FreedPages(sp0, sp, g, gone', freed + more) && OnlySegment(old(segs[..]), segs[..], g)
      ensures (commit, decommit) == old(Released(g, more))
    {
      hide Core, Settled, Resting, Seg, Start, End, Tiled, Cleared, Checking, BackAt, FreedPages, Release;
      ghost var sp1, segs1, filed1 := sp, segs[..], filed;
      head, has', gone', more := h, has, gone, {};
      NothingReleased(commit, decommit, segs[g].allowDecommit, eagerDecommit, more);
      FiledOf(slices[..], queues[..], qs, filed, sp, segs1, commit, decommit, info);
      SettledFacts(sp, segs1, filed);
      SpanFacts(slices[..], queues[..], qs, filed, sp, segs1, commit, decommit, info, h);
      SegmentOf(h, g);
      CheckingFacts(sp0, sp, segs1, filed, info, g, h, needed, allFree, roomy, has, gone);
      if slices[h].xblock > 0 && h in allFree {
        segs[g] := segs[g].(abandoned := segs[g].abandoned - 1);
        ghost var segs2 := segs[..];
        CoreSegments(slices[..], queues[..], qs, filed, sp, segs1, segs2, commit, decommit, info);
        RestingSegs(sp, segs1, segs2);
        head := PageClear(g, h);
        ClearedAbandoned(slices[..], queues[..], qs, filed1, filed, sp1, sp, segs1, segs[..], commit, decommit, info, h,
                         head);
        SettledFacts(sp, segs[..], filed);
        SegmentOf(head, g);
        SpanFacts(slices[..], queues[..], qs, filed, sp, segs[..], commit, decommit, info, head);
        if slices[head].count >= needed { has' := true; }
        gone', more := gone + {h}, Range(head, sp[head].count);
        FreedMore(sp0, sp1, g, h, head, gone, freed);
        CheckedFree(sp0, sp1, segs1, segs[..], g, h, needed, allFree, roomy, has, has', gone, head);
      } else {
        if slices[h].xblock > 0 {
          if h in roomy { has' := true; }
        } else if slices[h].count >= needed {
          has' := true;
        }
        assert freed + more == freed;
        CheckedSkip(sp0, sp, segs1, g, h, needed, allFree, roomy, has, has', gone);
      }
    }

    // Free the pages of an abandoned segment that have become all free; is there room now for
    // `needed` slices, or a page in `roomy` with a free block of the right size?
    method CheckFree(g: nat, needed: nat, allFree: set<nat>, roomy: set<nat>)
      returns (hasPage: bool, ghost freed: set<nat>)
      requires Valid() && g < segs.Length && !segs[g].owned && g * SLICES_PER_SEGMENT in sp
      modifies this, slices, queues, segs
      ensures Valid() && !segs[g].owned && filed == old(filed)
      ensures PagesLess(old(sp), sp, FreePages(old(sp), g, allFree)) && SameElsewhere(old(sp), sp, g)
      ensures hasPage <==> exists k: nat :: Room(sp, g, k, needed, roomy - allFree)
      // the slices of the freed pages, and of their free neighbours
      ensures FreedPages(old(sp), sp, g, FreePages(old(sp), g, allFree), freed)
        && OnlySegment(old(segs[..]), segs[..], g)
      ensures (commit, decommit) == old(Released(g, freed))
    {
      hide Core, Settled, Seg, Start, End, Tiled, Checking, BackAt, PagesLess, SameElsewhere, Room, FreedPages, Release;
      ghost var sp0, filed0, segs0 := sp, filed, segs[..];
      ghost var commit0, decommit0, allow := commit, decommit, segs[g].allowDecommit;
      var start, end := g * SLICES_PER_SEGMENT, (g + 1) * SLICES_PER_SEGMENT;
      StartMultiple(g);
      SettledFacts(sp, segs0, filed);
      FiledOf(slices[..], queues[..], qs, filed, sp, segs0, commit, decommit, info);
      SpanFacts(slices[..], queues[..], qs, filed, sp, segs0, commit, decommit, info, start);
      var slice := start + slices[start].count;
      ghost var gone: set<nat> := {};
      hasPage, freed := false, {};
      NothingReleased(commit, decommit, allow, eagerDecommit, freed);
      assert FreedPages(sp0, sp, g, gone, freed) by { NoneFreed(sp0, sp, g); }
      CheckStart(slices[..], queues[..], qs, filed, sp, segs0, commit, decommit, info, g, needed, allFree, roomy);
      while slice < end
        invariant Valid() && start < slice <= end && OwnedSame(segs0, segs[..])
        invariant slice < end ==> slice in sp && Seg(slice) == g
        invariant Checking(sp0, sp, segs[..], g, slice, needed, allFree, roomy, hasPage, gone)
        invariant FreedPages(sp0, sp, g, gone, freed) && OnlySegment(segs0, segs[..], g)
        invariant (commit, decommit) == Release(commit0, decommit0, allow, eagerDecommit, freed)
        decreases end - slice
      {
        CheckingSwept(sp0, sp, segs[..], g, slice, needed, allFree, roomy, hasPage, gone);
        ghost var more;
        slice, hasPage, gone, more := CheckSpan(g, slice, needed, allFree, roomy, hasPage, sp0, gone, freed);
        ReleasedBoth(commit0, decommit0, allow, eagerDecommit, freed, more);
        freed := freed + more;
        ghost var at: nat := slice;
        SegmentOf(at, g);
        SettledFacts(sp, segs[..], filed);
        NextSpan(slices[..], queues[..], qs, filed, sp, segs[..], commit, decommit, info, at);
        slice := slice + slices[slice].count;
      }
      CheckEnd(slices[..], queues[..], qs, filed0, filed, sp0, sp, segs0, segs[..], commit, decommit, info, g, needed,
               allFree, roomy, hasPage, gone);
      AllGone(sp0, sp, segs[..], g, needed, allFree, roomy, hasPage, gone);
    }

    // Put a free span of a segment under reclaim into its queue.
    method RequeueFree(g: nat, h: nat) returns (head: nat)
      requires Inv() && Resting(sp, segs[..]) && g == Seg(h) < segs.Length && segs[g].owned
      requires h < slices.Length && h in sp && sp[h].use.Free? && h !in filed
      modifies this, slices, queues
      ensures Inv() && sp == old(sp) && head == h && h in filed
      ensures forall k | k in sp && k != h :: k in filed <==> k in old(filed)
      ensures (commit, decommit) == old(Released(g, Range(h, sp[h].count)))
    {
      hide Core, Coalesced, Seg, Start, End, Tiled, OnlyTaken, Infos, UsedCount, Release;
      ghost var sp0, segs0 := sp, segs[..];
      SpanFacts(slices[..], queues[..], qs, filed, sp, segs0, commit, decommit, info, h);
      FiledOf(slices[..], queues[..], qs, filed, sp, segs0, commit, decommit, info);
      RefreeSame(sp, h);
      CoreMark(slices[..], queues[..], qs, filed, sp, segs0, commit, decommit, info, h);
      sp := sp[h := Span(sp[h].count, Taken)];
      MarkOnly(sp0, segs0, h);
      head := SpanFreeCoalesce(g, h);
      HeadIs(sp, head, h);
    }

    // One span of a segment under reclaim; the next one starts after the result.
    method ReclaimSpan(g: nat, h: nat, allFree: set<nat>, ghost sp0: Spans, ghost gone: set<nat>,
                       ghost freed: set<nat>)
      returns (head: nat, ghost gone': set<nat>, ghost more: set<nat>)
      requires Inv() && Reclaiming(sp0, sp, segs[..], filed, g, h, allFree, gone) && FreeBefore(sp, g, h, freed)
      requires h in sp && Seg(h) == g && g * SLICES_PER_SEGMENT < h < slices.Length
      modifies this, slices, queues, segs
      ensures Inv() && head in sp && Seg(head) == g && Covers(sp, head, h)
      ensures Reclaiming(sp0, sp, segs[..], filed, g, head + sp[head].count, allFree, gone')
      ensures FreeBefore(sp, g, head + sp[head].count, freed + more)
      ensures OnlySegment(old(segs[..]), segs[..], g) && (commit, decommit) == old(Released(g, more))
    {
      hide Core, Resting, Seg, Start, End, Tiled, Cleared, Reclaiming, BackAt, FreeBefore, Release;
      ghost var sp1, segs1, filed1 := sp, segs[..], filed;
      head, gone', more := h, gone, {};
      NothingReleased(commit, decommit, segs[g].allowDecommit, eagerDecommit, more);
      FiledOf(slices[..], queues[..], qs, filed, sp, segs1, commit, decommit, info);
      ReclaimingFacts(sp0, sp, segs1, filed, g, h, allFree, gone);
      SpanFacts(slices[..], queues[..], qs, filed, sp, segs1, commit, decommit, info, h);
      SegmentOf(h, g);
      if slices[h].xblock > 0 {
        segs[g] := segs[g].(abandoned := segs[g].abandoned - 1);
        ghost var segs2 := segs[..];
        CoreSegments(slices[..], queues[..], qs, filed, sp, segs1, segs2, commit, decommit, info);
        if h in allFree {
          head := PageClear(g, h);
          gone', more := gone + {h}, Range(head, sp[head].count);
          MoreFree(sp1, g, h, head, freed);
          ReclaimedFree(sp0, sp1, segs1, filed1, segs[..], filed, g, h, allFree, gone, head);
        } else {
          FreeSkip(sp, g, h, freed);
          ReclaimedUsed(sp0, sp, segs1, filed, segs2, g, h, allFree, gone);
        }
      } else {
        head := RequeueFree(g, h);
        more := Range(h, sp[h].count);
        FreeAgain(sp, g, h, freed);
        ReclaimedSpan(sp0, sp, segs1, filed1, filed, g, h, allFree, gone);
      }
    }

    // This thread takes an abandoned segment: pages go to its heap or, when all free, are freed, and
    // free spans enter its queues. A segment left without pages is given back.
    method Reclaim(g: nat, allFree: set<nat>) returns (kept: bool, ghost freed: set<nat>)
      requires Valid() && g < segs.Length && !segs[g].owned && g * SLICES_PER_SEGMENT in sp
      modifies this, slices, queues, segs
      ensures Valid()
      ensures kept <==> segs[g].used > 0
      ensures kept ==> segs[g].owned && segs[g].abandoned == 0
      ensures kept ==> PagesLess(old(sp), sp, FreePages(old(sp), g, allFree)) && SameElsewhere(old(sp), sp, g)
      ensures !kept ==> SameElsewhere(old(sp), sp, g) && (forall k | k in sp :: Seg(k) != g)
      ensures kept <==> Pages(old(sp), g) != FreePages(old(sp), g, allFree) + {g * SLICES_PER_SEGMENT}
      // all slices that are free afterwards; everything but the info slices where the segment is given back
      ensures kept ==> FreeBefore(sp, g, (g + 1) * SLICES_PER_SEGMENT, freed)
      ensures !kept ==> freed == Range(g * SLICES_PER_SEGMENT + info, SLICES_PER_SEGMENT - info)
      ensures OnlySegment(old(segs[..]), segs[..], g)
      ensures (commit, decommit) == old(Released(g, freed))
    {
      hide Core, Settled, Seg, Start, End, Tiled, Reclaiming, PagesLess, SameElsewhere, Pages, BackAt, FreeBefore,
            Release;
      ghost var sp0, segs0 := sp, segs[..];
      ghost var commit0, decommit0, allow := commit, decommit, segs[g].allowDecommit;
      var start, end := g * SLICES_PER_SEGMENT, (g + 1) * SLICES_PER_SEGMENT;
      StartMultiple(g);
      SettledFacts(sp, segs0, filed);
      SpanFacts(slices[..], queues[..], qs, filed, sp, segs0, commit, decommit, info, start);
      var slice := start + slices[start].count;
      segs[g] := segs[g].(owned := true);
      ReclaimStart(slices[..], queues[..], qs, filed, sp, segs0, segs[..], commit, decommit, info, g, allFree);
      ghost var gone: set<nat> := {};
      freed := {};
      NothingReleased(commit, decommit, allow, eagerDecommit, freed);
      TiledOf(slices[..], queues[..], qs, filed, sp, segs[..], commit, decommit, info);
      FreeStart(sp, g);
      while slice < end
        invariant Inv() && start < slice <= end
        invariant FreeBefore(sp, g, slice, freed) && OnlySegment(segs0, segs[..], g)
        invariant (commit, decommit) == Release(commit0, decommit0, allow, eagerDecommit, freed)
        invariant Reclaiming(sp0, sp, segs[..], filed, g, slice, allFree, gone)
        invariant slice < end ==> slice in sp && Seg(slice) == g
        decreases end - slice
      {
        ghost var more;
        slice, gone, more := ReclaimSpan(g, slice, allFree, sp0, gone, freed);
        ReleasedBoth(commit0, decommit0, allow, eagerDecommit, freed, more);
        freed := freed + more;
        ghost var at: nat := slice;
        SegmentOf(at, g);
        ReclaimingTaken(sp0, sp, segs[..], filed, g, at + sp[at].count, allFree, gone);
        NextSpan(slices[..], queues[..], qs, filed, sp, segs[..], commit, decommit, info, at);
        slice := slice + slices[slice].count;
      }
      ReclaimEnd(slices[..], queues[..], qs, filed, sp, segs[..], commit, decommit, info, sp0, g, allFree, gone);
      kept := segs[g].used > 0;
      if !kept {
        ghost var sp1 := sp;
        AllFree(slices[..], queues[..], qs, filed, sp, segs[..], commit, decommit, info, g, freed);
        var spans := SegmentFree(g);
        DroppedElsewhere(sp0, sp1, g);
      }
    }

    // ---- a fresh segment

    method ZeroEntries(start: nat, end: nat)
      requires start <= end <= slices.Length
      modifies slices
      ensures forall k | 0 <= k < slices.Length ::
        slices[k] == if start <= k < end then Slice(0, 0, 0, -1, -1) else old(slices[k])
    {
      for i := start to end
        invariant forall k | 0 <= k < slices.Length ::
          slices[k] == if start <= k < i then Slice(0, 0, 0, -1, -1) else old(slices[k])
      {
        slices[i] := Slice(0, 0, 0, -1, -1);
      }
    }

    // Zero the entries, take over the masks and mark out the info slices and the rest.
    method PrepareSegment(g: nat, commitMask: set<nat>, decommitMask: set<nat>, allowDecommit: bool)
      requires Inv() && g < segs.Length && g * SLICES_PER_SEGMENT !in sp
      requires decommitMask <= commitMask <= Range(g * SLICES_PER_SEGMENT, SLICES_PER_SEGMENT)
      modifies this, slices, segs
      ensures Inv() && sp == WithSegment(old(sp), g, info, Taken, Taken) && filed == old(filed)
      ensures segs[..] == old(segs[..])[g := Segment(0, 0, true, allowDecommit)]
      ensures var all := Range(g * SLICES_PER_SEGMENT, SLICES_PER_SEGMENT);
        commit == old(commit) - all + commitMask && decommit == old(decommit) - all + decommitMask
    {
      hide Core, Seg, Start, End, Tiled, WithSegment, FiledFree;
      ghost var s, segs0 := slices[..], segs[..];
      var start, end := g * SLICES_PER_SEGMENT, (g + 1) * SLICES_PER_SEGMENT;
      CommitOf(s, queues[..], qs, filed, sp, segs0, commit, decommit, info);
      ZeroEntries(start, end);
      var all := Range(start, SLICES_PER_SEGMENT);
      commit := commit - all + commitMask;
      decommit := decommit - all + decommitMask;
      segs[g] := Segment(0, 0, true, allowDecommit);
      CoreInit(s, slices[..], queues[..], qs, filed, sp, segs0, segs[..], old(commit), commit, old(decommit), decommit,
               info, g);
      sp := WithSegment(sp, g, info, Taken, Taken);
    }

    // The masks of a new segment: those it came with, with the info slices committed and the others free.
    ghost function SetUp(g: nat, commitMask: set<nat>, decommitMask: set<nat>, allow: bool, ok: bool)
      : (set<nat>, set<nat>)
      requires info < SLICES_PER_SEGMENT
      reads this
    {
      var start := g * SLICES_PER_SEGMENT;
      var all := Range(start, SLICES_PER_SEGMENT);
      var stay, waiting := commit - all + commitMask, decommit - all + decommitMask;
      if !ok then (stay, waiting)
      else
        var mask := LiberalMask(start, info, info);
        Release(stay + mask, waiting - mask, allow, eagerDecommit, Range(start + info, SLICES_PER_SEGMENT - info))
    }

    // Set up segment g over memory that is committed as the masks say, at least for the info slices.
    // Turning the info slices into a page commits whole 2 MiB blocks, so this can fail although the
    // info slices themselves are committed.
    method SegmentInit(g: nat, commitMask: set<nat>, decommitMask: set<nat>, allowDecommit: bool, osCommits: bool)
      returns (ok: bool)
      requires Valid() && g < segs.Length && g * SLICES_PER_SEGMENT !in sp
      requires decommitMask <= commitMask <= Range(g * SLICES_PER_SEGMENT, SLICES_PER_SEGMENT)
      requires Range(g * SLICES_PER_SEGMENT, info) <= commitMask - decommitMask
      modifies this, slices, queues, segs
      ensures Valid()
      ensures ok <==> osCommits || LiberalMask(g * SLICES_PER_SEGMENT, info, info) <= commitMask
      ensures sp == if ok then WithSegment(old(sp), g, info, Page, Free) else old(sp)
      ensures (commit, decommit) == old(SetUp(g, commitMask, decommitMask, allowDecommit, ok))
      ensures segs[..] == old(segs[..])[g := Segment(0, 0, true, allowDecommit)]
    {
      hide Core, Settled, Seg, Start, End, Tiled, SliceBin, LiberalMask, FiledFree, WithSegment, Infos, Resting,
            Release, Range;
      ghost var sp0, segs0, filed0 := sp, segs[..], filed;
      var start: nat := g * SLICES_PER_SEGMENT;
      SetUpSpans(sp0, g, info);
      StartMultiple(g);
      FiledOf(slices[..], queues[..], qs, filed, sp, segs0, commit, decommit, info);
      NoSpans(sp, info, g);
      SegmentRest(g, info);
      PrepareSegment(g, commitMask, decommitMask, allowDecommit);
      MaskInSegment(start, info, info);
      MaskOf(old(commit), commitMask, Range(start, SLICES_PER_SEGMENT), LiberalMask(start, info, info));
      ok := SpanAllocate(g, start, info, osCommits);
      if !ok {
        CoreUninit(slices[..], queues[..], qs, filed, sp0, segs[..], commit, decommit, info, g);
        sp := sp0;
        UninitSettled(sp0, segs0, segs[..], filed, g);
        return;
      }
      ghost var segs2 := segs[..];
      segs[g] := segs[g].(used := 0);
      CoreSegments(slices[..], queues[..], qs, filed, sp, segs2, segs[..], commit, decommit, info);
      SpanFree(g, start + info, SLICES_PER_SEGMENT - info);
      FreshSettled(sp0, segs0, segs[..], filed0, filed, info, g);
    }

    // Empty tables: no segment, empty queues.
    constructor (segments: nat, infoSlices: nat, eager: bool)
      requires 0 < infoSlices < SLICES_PER_SEGMENT
      ensures Valid() && sp == map[] && segs.Length == segments && info == infoSlices
      ensures fresh(slices) && fresh(queues) && fresh(segs)
    {
      info, eagerDecommit := infoSlices, eager;
      slices := new Slice[segments * SLICES_PER_SEGMENT](_ => Slice(0, 0, 0, -1, -1));
      queues := new Queue[BIN_MAX + 1](_ => Queue(-1, -1));
      segs := new Segment[segments](_ => Segment(0, 0, true, false));
      commit, decommit, sp, filed := {}, {}, map[], map[];
      qs := seq(BIN_MAX + 1, _ => []);
      new;
      forall b: nat | b <= BIN_MAX ensures ListAt(slices[..], queues[b], qs[b]) {
        assert qs[b] == [];
      }
    }

    // _mi_segment_page_of: the page that holds an address.
    method PageOf(address: nat) returns (h: nat)
      requires Inv() && exists k: nat :: HoldsAddress(sp, k, address)
      ensures HoldsAddress(sp, h, address)
    {
      hide Core, Seg, Start;
      ghost var k: nat :| HoldsAddress(sp, k, address);
      assert Backs(slices[..], sp)
        by { BacksOf(slices[..], queues[..], qs, filed, sp, segs[..], commit, decommit, info); }
      PageOfOwner(slices[..], sp, k, address);
      var index := address / SLICE_SIZE;
      h := index - slices[index].offset;
    }
  }

  lemma QueueCount(s: seq<Slice>, q: seq<Queue>, qs: seq<seq<nat>>, filed: map<nat, nat>)
    requires QueueInv(s, q, qs, filed)
    ensures |qs| == BIN_MAX + 1
  {}

  // The other segments are as before, and in this one decommitting is allowed if it was.
  ghost predicate OnlySegment(segs: seq<Segment>, segs': seq<Segment>, g: nat) {
    && |segs'| == |segs| && (forall a | 0 <= a < |segs| && a != g :: segs'[a] == segs[a])
    && (g < |segs| ==> segs'[g].allowDecommit == segs[g].allowDecommit)
  }

  // Queue b has lost h if it was there, in the order it had.
  ghost predicate Leaves(qs: seq<seq<nat>>, qs': seq<seq<nat>>, b: nat, h: nat, there: bool) {
    if !there then qs' == qs
    else b < |qs| && exists k: nat :: k < |qs[b]| && qs[b][k] == h && qs' == qs[b := DList.Without(qs[b], k)]
  }

  lemma LeavesAt(qs: seq<seq<nat>>, b: nat, h: nat, k: nat)
    requires b < |qs| && k < |qs[b]| && qs[b][k] == h
    ensures Leaves(qs, qs[b := DList.Without(qs[b], k)], b, h, true)
  {}

  lemma LeavesNone(qs: seq<seq<nat>>, b: nat, h: nat)
    ensures Leaves(qs, qs, b, h, false)
  {}

  // The address lies in the page at k, within the slices that lead back to its head.
  ghost predicate HoldsAddress(sp: Spans, k: nat, address: nat) {
    && k in sp && sp[k].use.Page?
    && k * SLICE_SIZE <= address < (k + sp[k].count) * SLICE_SIZE && address < (k + MAX_SLICE_OFFSET + 1) * SLICE_SIZE
  }

  // The spans of a new segment: first both taken, then the info slices a page and the rest free.
  lemma SetUpSpans(sp: Spans, g: nat, info: nat)
    requires 0 < info < SLICES_PER_SEGMENT
    ensures var st := g * SLICES_PER_SEGMENT; var all := WithSegment(sp, g, info, Taken, Taken);
      && st in all && all[st] == Span(info, Taken) && st + info in all
      && all[st + info] == Span(SLICES_PER_SEGMENT - info, Taken)
      && all[st := Span(info, Page)][st + info := Span(SLICES_PER_SEGMENT - info, Free)] ==
           WithSegment(sp, g, info, Page, Free)
  {}

  lemma MaskOf(old0: set<nat>, mask0: set<nat>, all: set<nat>, mask: set<nat>)
    requires mask <= all && mask0 <= all
    ensures mask <= old0 - all + mask0 <==> mask <= mask0
  {}

  lemma BacksOf(s: seq<Slice>, q: seq<Queue>, qs: seq<seq<nat>>, filed: map<nat, nat>, sp: Spans,
                segs: seq<Segment>, commit: set<nat>, decommit: set<nat>, info: nat)
    requires Core(s, q, qs, filed, sp, segs, commit, decommit, info)
    ensures Backs(s, sp)
  {}

  // ---- what a valid table promises

  // Spans tile each segment: every slice is in exactly one span, inside its own segment.
  lemma TableTiles(t: SpanTable, i: nat) returns (h: nat)
    requires t.Valid() && Start(i) in t.sp
    ensures Covers(t.sp, h, i) && Start(i) <= h && h + t.sp[h].count <= End(i)
    ensures forall k | Covers(t.sp, k, i) :: k == h
  {
    hide Start, End;
    h := Tiling(t.sp, i);
  }

  // The memory of a live page is committed and no pending decommit will take it away.
  lemma PageMemory(t: SpanTable, h: nat)
    requires t.Valid() && h in t.sp && t.sp[h].use.Page?
    ensures Range(h, t.sp[h].count) <= t.commit && Range(h, t.sp[h].count) !! t.decommit && t.decommit <= t.commit
  {
    assert Backed(h, t.sp[h].count, t.commit, t.decommit);
  }

  // The entries that lead back to the head of a span: its last one, and in a page also those of its first 16 slices.
  lemma BackOffsets(t: SpanTable, h: nat, i: nat)
    requires t.Valid() && h in t.sp && h <= i < h + t.sp[h].count
    requires i == h + t.sp[h].count - 1 || (t.sp[h].use.Page? && i <= h + MAX_SLICE_OFFSET)
    ensures h + t.sp[h].count <= t.slices.Length && t.slices[i].offset == i - h
  {
    BacksOf(t.slices[..], t.queues[..], t.qs, t.filed, t.sp, t.segs[..], t.commit, t.decommit, t.info);
    assert !t.sp[h].use.Taken?;
    hide Core, Settled;
    assert BackAt(t.slices[..], h, t.sp[h]);
    if t.sp[h].use.Page? && i != h { assert LeadsBack(t.slices[..], h, i); }
  }

  // The pages of a segment number one more than `used`: the info page is not counted.
  lemma UsedSpans(t: SpanTable, g: nat)
    requires t.Valid() && g < t.segs.Length && g * SLICES_PER_SEGMENT in t.sp
    ensures t.segs[g].used + 1 == |Pages(t.sp, g)|
    ensures forall k :: k in Pages(t.sp, g) <==> k in t.sp && Seg(k) == g && !t.sp[k].use.Free?
  {
    hide Core;
    assert t.segs[..][g].used + 1 == |Pages(t.sp, g)|;
    assert NoTaken(t.sp);
  }

  // A free span sits in the queue of its own size exactly when its segment belongs to this thread,
  // and has no free neighbour.
  lemma FreeSpans(t: SpanTable, h: nat)
    requires t.Valid() && h in t.sp && t.sp[h].use.Free?
    ensures Seg(h) < t.segs.Length && |t.qs| == BIN_MAX + 1 && SliceBin(t.sp[h].count) <= BIN_MAX
    ensures t.segs[Seg(h)].owned <==> h in t.qs[SliceBin(t.sp[h].count)]
    ensures !NextFree(t.sp, h) && !PrevFree(t.sp, h)
  {
    hide Core, Start, End, SliceBin;
    FiledOf(t.slices[..], t.queues[..], t.qs, t.filed, t.sp, t.segs[..], t.commit, t.decommit, t.info);
    FreeFacts(t.slices[..], t.queues[..], t.qs, t.filed, t.sp, t.segs[..], t.commit, t.decommit, t.info, h);
    SegBound(h, t.slices.Length, t.segs.Length);
    NoPrevFree(t.sp, h);
    if h in t.filed { assert FiledAt(t.sp, t.segs[..], h, t.filed[h]); }
  }

  function Needed(sliceCount: nat): nat { if sliceCount == 0 then 1 else sliceCount }

  ghost predicate Fits(sp: Spans, h: nat, sliceCount: nat) {
    h in sp && sp[h].use.Free? && Needed(sliceCount) <= sp[h].count
  }

  ghost predicate FirstFit(sp: Spans, qs: seq<seq<nat>>, b: nat, i: nat, h: nat, sliceCount: nat) {
    && b < |qs| && i < |qs[b]| && qs[b][i] == h
    && forall j | 0 <= j < i :: !Fits(sp, qs[b][j], sliceCount)
  }

  // Of the queued spans that fit h is in the lowest bin, and there the first.
  ghost predicate BestFit(sp: Spans, filed: map<nat, nat>, qs: seq<seq<nat>>, h: nat, sliceCount: nat) {
    && h in filed && Fits(sp, h, sliceCount)
    && (exists i: nat :: FirstFit(sp, qs, filed[h], i, h, sliceCount))
    && forall k | k in filed && Fits(sp, k, sliceCount) :: filed[h] <= filed[k]
  }

  // Spans in bins below that of the request are too small.
  lemma Lower(s: seq<Slice>, q: seq<Queue>, qs: seq<seq<nat>>, filed: map<nat, nat>, sp: Spans,
              segs: seq<Segment>, commit: set<nat>, decommit: set<nat>, info: nat, sliceCount: nat)
    requires Core(s, q, qs, filed, sp, segs, commit, decommit, info) && |s| == |segs| * SLICES_PER_SEGMENT
    ensures forall k | k in filed && filed[k] < SliceBin(sliceCount) :: k in sp && sp[k].count < Needed(sliceCount)
  {
    hide SliceBin, Core, Seg, Start, End, Tiled, FiledFree;
    forall k | k in filed && filed[k] < SliceBin(sliceCount) ensures k in sp && sp[k].count < Needed(sliceCount) {
      QueuedFacts(s, q, qs, filed, sp, segs, commit, decommit, info, k);
      FreeFacts(s, q, qs, filed, sp, segs, commit, decommit, info, k);
      if sp[k].count >= sliceCount { BinMonotone(sliceCount, sp[k].count); }
    }
  }

  lemma BinFacts(s: seq<Slice>, q: seq<Queue>, qs: seq<seq<nat>>, filed: map<nat, nat>, sp: Spans,
                 segs: seq<Segment>, commit: set<nat>, decommit: set<nat>, info: nat, b: nat)
    requires Core(s, q, qs, filed, sp, segs, commit, decommit, info) && b <= BIN_MAX
    ensures |qs| == |q| == BIN_MAX + 1 && q[b].first == DList.At(qs[b], 0)
  {
    FirstInRange(s, q, qs, filed, b);
  }

  lemma EntryFacts(s: seq<Slice>, q: seq<Queue>, qs: seq<seq<nat>>, filed: map<nat, nat>, sp: Spans,
                   segs: seq<Segment>, commit: set<nat>, decommit: set<nat>, info: nat, b: nat, i: nat)
    requires Core(s, q, qs, filed, sp, segs, commit, decommit, info) && b <= BIN_MAX && |qs| == BIN_MAX + 1
      && i < |qs[b]|
    ensures var h := qs[b][i];
      && h < |s| && h in filed && h in sp && filed[h] == b == SliceBin(sp[h].count) && sp[h].use.Free?
      && s[h].count == sp[h].count > 0
      && s[h].next == DList.At(qs[b], i + 1) && Seg(h) < |segs|
  {
    hide SliceBin, Seg, Start;
    assert ListAt(s, q[b], qs[b]);
    assert DList.LinkedAt(qs[b], Prevs(s), Nexts(s), i);
    assert qs[b][i] in qs[b];
    hide QueueInv, Tiled;
    QueuedFacts(s, q, qs, filed, sp, segs, commit, decommit, info, qs[b][i]);
  }

  lemma BinDone(s: seq<Slice>, q: seq<Queue>, qs: seq<seq<nat>>, filed: map<nat, nat>, sp: Spans,
                segs: seq<Segment>, commit: set<nat>, decommit: set<nat>, info: nat, b: nat)
    requires Core(s, q, qs, filed, sp, segs, commit, decommit, info) && b <= BIN_MAX
    ensures |qs| == BIN_MAX + 1 && forall k | k in filed && filed[k] == b :: k in qs[b]
  {}

  lemma FiledBins(s: seq<Slice>, q: seq<Queue>, qs: seq<seq<nat>>, filed: map<nat, nat>, sp: Spans,
                  segs: seq<Segment>, commit: set<nat>, decommit: set<nat>, info: nat)
    requires Core(s, q, qs, filed, sp, segs, commit, decommit, info)
    ensures forall k | k in filed :: k in sp && filed[k] == SliceBin(sp[k].count) <= BIN_MAX
  {
    hide SliceBin, Seg;
    forall k | k in filed
      ensures k in sp && filed[k] == SliceBin(sp[k].count) <= BIN_MAX
    {
      assert FiledAt(sp, segs, k, filed[k]);
    }
  }
}
