// What a thread's segment tables hold: slice entries, span queues and commit sets (segment.c).
module SpanState {
  import opened Base
  import opened SliceBins
  import opened SpanMap
  import DList

  // Entries up to this distance from the head of a page lead back to it.
  const MAX_SLICE_OFFSET: nat := 15

  // One mi_slice_t: offsets are counted in slices, -1 is the null link.
  datatype Slice = Slice(count: nat, offset: nat, xblock: nat, prev: int, next: int)
  datatype Queue = Queue(first: int, last: int)
  // owned: thread_id is this thread; otherwise the segment is abandoned.
  datatype Segment = Segment(used: nat, abandoned: nat, owned: bool, allowDecommit: bool)

  // ---- slice entries

  ghost predicate LeadsBack(s: seq<Slice>, h: nat, i: nat)
    requires h <= i < |s|
  {
    s[i].offset == i - h && s[i].count == 0 && s[i].xblock == 1
  }

  ghost predicate BackAt(s: seq<Slice>, h: nat, span: Span) {
    && span.count > 0 && h + span.count <= |s|
    && (!span.use.Taken? ==> s[h].count == span.count && s[h].offset == 0)
    && (span.use.Free? ==> FreeAt(s, h, span.count))
    && (span.use.Page? ==> PageAt(s, h, span.count))
  }

  // Only the last entry of a free span leads back to its head.
  ghost predicate FreeAt(s: seq<Slice>, h: nat, count: nat)
    requires count > 0 && h + count <= |s|
  {
    var last := h + count - 1;
    s[h].xblock == 0 && s[last].offset == count - 1 && s[last].xblock == 0 && (count > 1 ==> s[last].count == 0)
  }

  ghost predicate PageAt(s: seq<Slice>, h: nat, count: nat)
    requires count > 0 && h + count <= |s|
  {
    && s[h].xblock > 0
    && forall i: nat | h < i < h + count && (i <= h + MAX_SLICE_OFFSET || i == h + count - 1) :: LeadsBack(s, h, i)
  }

  ghost predicate Backs(s: seq<Slice>, sp: Spans) {
    forall h {:trigger BackAt(s, h, sp[h])} | h in sp :: BackAt(s, h, sp[h])
  }

  // The span fields, links aside, agree.
  ghost predicate SameEntry(a: Slice, b: Slice) { a.count == b.count && a.offset == b.offset && a.xblock == b.xblock }

  ghost predicate SameEntries(s: seq<Slice>, s': seq<Slice>) {
    |s| == |s'| && forall i | 0 <= i < |s| :: SameEntry(s[i], s'[i])
  }

  ghost predicate SameOutside(s: seq<Slice>, s': seq<Slice>, lo: nat, hi: nat) {
    |s| == |s'| && forall i: nat | i < |s| && !(lo <= i < hi) :: SameEntry(s[i], s'[i])
  }

  lemma BackFrame(s: seq<Slice>, s': seq<Slice>, h: nat, span: Span)
    requires BackAt(s, h, span) && |s| == |s'|
    requires forall i: nat | h <= i < h + span.count :: SameEntry(s[i], s'[i])
    ensures BackAt(s', h, span)
  {
    assert SameEntry(s[h], s'[h]) && SameEntry(s[h + span.count - 1], s'[h + span.count - 1]);
    if span.use.Page? {
      forall i: nat | h < i < h + span.count && (i <= h + MAX_SLICE_OFFSET || i == h + span.count - 1)
        ensures LeadsBack(s', h, i)
      {
        assert LeadsBack(s, h, i) && SameEntry(s[i], s'[i]);
      }
    }
  }

  lemma BackBound(s: seq<Slice>, h: nat, span: Span)
    requires BackAt(s, h, span)
    ensures span.count > 0 && h + span.count <= |s|
  {}

  // Rewriting the entries of one span.
  lemma BacksWithin(s: seq<Slice>, s': seq<Slice>, sp: Spans, h: nat, u: Use)
    requires Tiled(sp) && Backs(s, sp) && h in sp && SameOutside(s, s', h, h + sp[h].count)
    requires BackAt(s', h, Span(sp[h].count, u))
    ensures Backs(s', sp[h := Span(sp[h].count, u)])
  {
    var sp' := sp[h := Span(sp[h].count, u)];
    hide BackAt, SameEntry, Start, End;
    assert TiledAt(sp, h);
    forall k | k in sp' ensures BackAt(s', k, sp'[k]) {
      if k != h {
        assert TiledAt(sp, k) && BackAt(s, k, sp[k]);
        BackBound(s, k, sp[k]);
        BackFrame(s, s', k, sp[k]);
      }
    }
  }

  lemma BacksTaken(s: seq<Slice>, sp: Spans, h: nat)
    requires Backs(s, sp) && h in sp
    ensures Backs(s, sp[h := Span(sp[h].count, Taken)])
  {
    var sp' := sp[h := Span(sp[h].count, Taken)];
    forall k | k in sp' ensures BackAt(s, k, sp'[k]) { assert BackAt(s, k, sp[k]); }
  }

  lemma BacksMerge(s: seq<Slice>, sp: Spans, h: nat)
    requires Backs(s, sp) && h in sp && h + sp[h].count in sp
    ensures Backs(s, Merge(sp, h, Taken))
  {
    var sp' := Merge(sp, h, Taken);
    assert BackAt(s, h, sp[h]) && BackAt(s, h + sp[h].count, sp[h + sp[h].count]);
    forall k | k in sp' ensures BackAt(s, k, sp'[k]) {
      if k in sp { assert BackAt(s, k, sp[k]); }
    }
  }

  lemma BacksCut(s: seq<Slice>, sp: Spans, h: nat, c: nat)
    requires Backs(s, sp) && h in sp && 0 < c <= sp[h].count
    ensures Backs(s, Cut(sp, h, c, Taken, Taken))
  {
    var sp' := Cut(sp, h, c, Taken, Taken);
    assert BackAt(s, h, sp[h]);
    forall k | k in sp' ensures BackAt(s, k, sp'[k]) {
      if k in sp { assert BackAt(s, k, sp[k]); }
    }
  }

  // The entry just before a head leads to the neighbour before it.
  lemma PrevBySlice(s: seq<Slice>, sp: Spans, h: nat) returns (p: nat)
    requires Tiled(sp) && Backs(s, sp) && h in sp && h != Start(h) && (forall k | k in sp && sp[k].use.Taken? :: k >= h)
    ensures 0 < h <= |s| && s[h - 1].offset <= h - 1 && p == h - 1 - s[h - 1].offset
    ensures IsPrev(sp, p, h) && p < h && Start(p) == Start(h) && End(p) == End(h)
    ensures !sp[p].use.Taken? && s[p].count == sp[p].count && (s[p].xblock == 0 <==> sp[p].use.Free?)
  {
    hide Start, End, Seg;
    p := PrevExists(sp, h);
    assert BackAt(s, p, sp[p]);
    if sp[p].use.Page? && sp[p].count > 1 { assert LeadsBack(s, p, h - 1); }
  }

  // ---- the owner of an address

  const SLICE_SIZE: nat := 65536

  // Any address in the first MAX_SLICE_OFFSET + 1 slices of a page leads to the head of the page.
  lemma PageOfOwner(s: seq<Slice>, sp: Spans, h: nat, address: nat)
    requires Backs(s, sp) && h in sp && sp[h].use.Page?
    requires h * SLICE_SIZE <= address < (h + sp[h].count) * SLICE_SIZE
    requires address < (h + MAX_SLICE_OFFSET + 1) * SLICE_SIZE
    ensures address / SLICE_SIZE < |s| && s[address / SLICE_SIZE].offset <= address / SLICE_SIZE
    ensures address / SLICE_SIZE - s[address / SLICE_SIZE].offset == h
  {
    var i := address / SLICE_SIZE;
    assert h <= i < h + sp[h].count && i <= h + MAX_SLICE_OFFSET;
    assert BackAt(s, h, sp[h]);
    if i > h { assert LeadsBack(s, h, i); }
  }

  // ---- span queues

  ghost function Prevs(s: seq<Slice>): (r: seq<int>)
    ensures |r| == |s|
  {
    seq(|s|, i requires 0 <= i < |s| => s[i].prev)
  }

  ghost function Nexts(s: seq<Slice>): (r: seq<int>)
    ensures |r| == |s|
  {
    seq(|s|, i requires 0 <= i < |s| => s[i].next)
  }


  ghost predicate ListAt(s: seq<Slice>, q: Queue, list: seq<nat>) {
    DList.IsList(list, Prevs(s), Nexts(s), q.first, q.last)
  }

  // filed: the bin of every queued head.
  ghost predicate Lists(s: seq<Slice>, q: seq<Queue>, qs: seq<seq<nat>>) {
    |q| == |qs| == BIN_MAX + 1 && forall b: nat | b <= BIN_MAX :: ListAt(s, q[b], qs[b])
  }

  ghost predicate Filed(qs: seq<seq<nat>>, filed: map<nat, nat>) {
    && |qs| == BIN_MAX + 1
    && (forall b: nat, h | b <= BIN_MAX && h in qs[b] :: h in filed && filed[h] == b)
    && (forall h | h in filed :: filed[h] <= BIN_MAX && h in qs[filed[h]])
  }

  // Entries outside the queues have null links.
  ghost predicate Loose(s: seq<Slice>, filed: map<nat, nat>) {
    forall i: nat | i < |s| && i !in filed :: s[i].prev == -1 && s[i].next == -1
  }

  ghost predicate QueueInv(s: seq<Slice>, q: seq<Queue>, qs: seq<seq<nat>>, filed: map<nat, nat>) {
    Lists(s, q, qs) && Filed(qs, filed) && Loose(s, filed)
  }

  lemma QueueSame(s: seq<Slice>, s': seq<Slice>, q: seq<Queue>, qs: seq<seq<nat>>, filed: map<nat, nat>)
    requires QueueInv(s, q, qs, filed) && |s'| == |s|
    requires forall i | 0 <= i < |s| :: s'[i].prev == s[i].prev && s'[i].next == s[i].next
    ensures QueueInv(s', q, qs, filed)
  {
    assert Prevs(s') == Prevs(s) && Nexts(s') == Nexts(s);
    forall b: nat | b <= BIN_MAX ensures ListAt(s', q[b], qs[b]) { assert ListAt(s, q[b], qs[b]); }
  }

  // Lists of the other bins survive changes to entries outside them.
  lemma OtherLists(s: seq<Slice>, s': seq<Slice>, q: seq<Queue>, q': seq<Queue>, qs: seq<seq<nat>>, b: nat,
                   list: seq<nat>)
    requires Lists(s, q, qs) && |s'| == |s| && b <= BIN_MAX && |q'| == |q| && q' == q[b := q'[b]]
    requires ListAt(s', q'[b], list)
    requires forall c: nat, x | c <= BIN_MAX && c != b && x in qs[c] && x < |s| ::
      s'[x].prev == s[x].prev && s'[x].next == s[x].next
    ensures Lists(s', q', qs[b := list])
  {
    forall c: nat | c <= BIN_MAX ensures ListAt(s', q'[c], qs[b := list][c]) {
      if c != b {
        assert ListAt(s, q[c], qs[c]);
        DList.Frame(qs[c], Prevs(s), Nexts(s), Prevs(s'), Nexts(s'), q[c].first, q[c].last);
      }
    }
  }

  lemma PushInv(s: seq<Slice>, s': seq<Slice>, q: seq<Queue>, qs: seq<seq<nat>>, filed: map<nat, nat>, b: nat, h: nat)
    requires QueueInv(s, q, qs, filed) && b <= BIN_MAX && h < |s| == |s'| && h !in filed
    requires Prevs(s') == DList.PutNext(Prevs(s)[h := -1], q[b].first, h) && Nexts(s') == Nexts(s)[h := q[b].first]
    ensures QueueInv(s', q[b := Queue(h, if q[b].first == -1 then h else q[b].last)], qs[b := [h] + qs[b]],
      filed[h := b])
  {
    var f := q[b].first;
    assert ListAt(s, q[b], qs[b]);
    assert h !in qs[b];
    DList.PushFront(qs[b], Prevs(s), Nexts(s), f, q[b].last, h);
    var q', qs', filed' := q[b := Queue(h, if f == -1 then h else q[b].last)], qs[b := [h] + qs[b]], filed[h := b];
    assert f == -1 || f in qs[b];
    forall x: nat | x < |s| && x != h && x != f ensures s'[x].prev == s[x].prev && s'[x].next == s[x].next {
      assert Prevs(s')[x] == Prevs(s)[x] && Nexts(s')[x] == Nexts(s)[x];
    }
    FiledPush(qs, filed, b, h);
    OtherUntouched(qs, filed, b, f);
    OtherLists(s, s', q, q', qs, b, [h] + qs[b]);
  }

  lemma OtherUntouched(qs: seq<seq<nat>>, filed: map<nat, nat>, b: nat, f: int)
    requires Filed(qs, filed) && b <= BIN_MAX && (f == -1 || f in qs[b])
    ensures forall c: nat | c <= BIN_MAX && c != b :: f !in qs[c]
  {
    if f != -1 {
      var x: nat := f;
      assert filed[x] == b;
      assert forall c: nat | c <= BIN_MAX && x in qs[c] :: filed[x] == c;
    }
  }

  lemma FiledPush(qs: seq<seq<nat>>, filed: map<nat, nat>, b: nat, h: nat)
    requires Filed(qs, filed) && b <= BIN_MAX && h !in filed
    ensures Filed(qs[b := [h] + qs[b]], filed[h := b])
  {
    var qs', filed' := qs[b := [h] + qs[b]], filed[h := b];
    forall c: nat, x | c <= BIN_MAX && x in qs'[c] ensures x in filed' && filed'[x] == c {
      if c == b && x != h { assert x in qs[b]; }
    }
    forall x | x in filed' ensures filed'[x] <= BIN_MAX && x in qs'[filed'[x]] {
      if x == h { assert qs'[b][0] == h; } else if filed[x] == b { assert x in qs[b]; }
    }
  }

  lemma FiledDelete(qs: seq<seq<nat>>, filed: map<nat, nat>, b: nat, k: nat)
    requires Filed(qs, filed) && b <= BIN_MAX && k < |qs[b]| && NoDup(qs[b])
    ensures Filed(qs[b := DList.Without(qs[b], k)], filed - {qs[b][k]})
  {
    DList.WithoutMembers(qs[b], k);
    var h, w := qs[b][k], DList.Without(qs[b], k);
    var qs', filed' := qs[b := w], filed - {h};
    assert h in qs[b] && filed[h] == b;
    forall c: nat, x | c <= BIN_MAX && x in qs'[c] ensures x in filed' && filed'[x] == c {
      if c == b { assert x in w; }
      assert x in qs[c] && filed[x] == c && x != h;
    }
    forall x | x in filed' ensures filed'[x] <= BIN_MAX && x in qs'[filed'[x]] {
      assert x in filed && x != h;
    }
  }

  lemma DeleteInv(s: seq<Slice>, s': seq<Slice>, q: seq<Queue>, qs: seq<seq<nat>>,
                  filed: map<nat, nat>, b: nat, h: nat, k: nat)
    requires QueueInv(s, q, qs, filed) && b <= BIN_MAX && h < |s| == |s'| && k < |qs[b]| && qs[b][k] == h
    requires var p, n := s[h].prev, s[h].next;
      Prevs(s') == DList.PutNext(Prevs(s), n, p)[h := -1] && Nexts(s') == DList.PutNext(Nexts(s), p, n)[h := -1]
    ensures var p, n := s[h].prev, s[h].next;
      QueueInv(s', q[b := Queue(if q[b].first == h then n else q[b].first, if q[b].last == h then p else q[b].last)],
               qs[b := DList.Without(qs[b], k)], filed - {h})
  {
    var p, n := s[h].prev, s[h].next;
    var q' := q[b := Queue(if q[b].first == h then n else q[b].first, if q[b].last == h then p else q[b].last)];
    assert ListAt(s, q[b], qs[b]);
    assert DList.LinkedAt(qs[b], Prevs(s), Nexts(s), k);
    DList.Remove(qs[b], Prevs(s), Nexts(s), q[b].first, q[b].last, k);
    assert (p == -1 || p in qs[b]) && (n == -1 || n in qs[b]) && h in qs[b];
    OtherUntouched(qs, filed, b, p);
    OtherUntouched(qs, filed, b, n);
    OtherUntouched(qs, filed, b, h);
    forall x: nat | x < |s| && x != h && x != p && x != n ensures s'[x].prev == s[x].prev && s'[x].next == s[x].next {
      assert Prevs(s')[x] == Prevs(s)[x] && Nexts(s')[x] == Nexts(s)[x];
    }
    FiledDelete(qs, filed, b, k);
    OtherLists(s, s', q, q', qs, b, DList.Without(qs[b], k));
    forall i: nat | i < |s| && i !in filed - {h} ensures s'[i].prev == -1 && s'[i].next == -1 {
      assert Prevs(s')[i] == s'[i].prev && Nexts(s')[i] == s'[i].next;
    }
  }

  // ---- queued spans are the free spans, in the queue of their size

  ghost predicate FiledAt(sp: Spans, segs: seq<Segment>, h: nat, b: nat) {
    h in sp && sp[h].use.Free? && Seg(h) < |segs| && segs[Seg(h)].owned && b == SliceBin(sp[h].count)
  }

  ghost predicate FiledFree(sp: Spans, segs: seq<Segment>, filed: map<nat, nat>) {
    forall h {:trigger FiledAt(sp, segs, h, filed[h])} | h in filed :: FiledAt(sp, segs, h, filed[h])
  }

  // ---- commit sets

  ghost predicate Backed(h: nat, count: nat, commit: set<nat>, decommit: set<nat>) {
    forall i: nat | h <= i < h + count :: i in commit && i !in decommit
  }

  // Only committed slices wait for decommit, and pages are committed and not waiting.
  ghost predicate CommitInv(sp: Spans, commit: set<nat>, decommit: set<nat>) {
    && decommit <= commit
    && forall h {:trigger Backed(h, sp[h].count, commit, decommit)} | h in sp && sp[h].use.Page? ::
         Backed(h, sp[h].count, commit, decommit)
  }

  function Range(h: nat, count: nat): (r: set<nat>)
    ensures forall i: nat :: i in r <==> h <= i < h + count
  {
    if count == 0 then {} else Range(h, count - 1) + {h + count - 1}
  }

  lemma CommitMore(sp: Spans, commit: set<nat>, decommit: set<nat>, more: set<nat>)
    requires CommitInv(sp, commit, decommit)
    ensures CommitInv(sp, commit + more, decommit - more)
  {
    forall h | h in sp && sp[h].use.Page? ensures Backed(h, sp[h].count, commit + more, decommit - more) {
      assert Backed(h, sp[h].count, commit, decommit);
    }
  }

  // Dropping or scheduling slices of a span that is not a page.
  lemma DecommitTaken(sp: Spans, commit: set<nat>, decommit: set<nat>, h: nat, commit': set<nat>, decommit': set<nat>)
    requires Tiled(sp) && CommitInv(sp, commit, decommit) && h in sp && !sp[h].use.Page?
    requires commit - Range(h, sp[h].count) <= commit' && decommit' <= decommit + Range(h, sp[h].count)
      && decommit' <= commit'
    ensures CommitInv(sp, commit', decommit')
  {
    hide Start, End, Seg;
    assert TiledAt(sp, h);
    forall k | k in sp && sp[k].use.Page? ensures Backed(k, sp[k].count, commit', decommit') {
      assert TiledAt(sp, k) && Backed(k, sp[k].count, commit, decommit);
    }
  }

  lemma DecommitWaiting(sp: Spans, commit: set<nat>, decommit: set<nat>, mask: set<nat>)
    requires CommitInv(sp, commit, decommit) && mask <= decommit
    ensures CommitInv(sp, commit - mask, decommit - mask)
  {
    forall h | h in sp && sp[h].use.Page? ensures Backed(h, sp[h].count, commit - mask, decommit - mask) {
      assert Backed(h, sp[h].count, commit, decommit);
    }
  }

  lemma CommitPages(sp: Spans, sp': Spans, commit: set<nat>, decommit: set<nat>)
    requires CommitInv(sp, commit, decommit)
    requires forall k | k in sp' && sp'[k].use.Page? :: k in sp && sp[k] == sp'[k]
    ensures CommitInv(sp', commit, decommit)
  {
    forall h | h in sp' && sp'[h].use.Page? ensures Backed(h, sp'[h].count, commit, decommit) {
      assert Backed(h, sp[h].count, commit, decommit);
    }
  }
}
