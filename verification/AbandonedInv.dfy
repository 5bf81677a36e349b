// The invariant of the abandoned list protocol and its preservation by every step.
module AbandonedInv {
  import opened Base
  import opened Abandoned

  // ---- the invariant, one predicate for each group of components

  // The list holds exactly the segments in place p, once each.
  ghost predicate Holds(list: seq<Seg>, loc: map<Seg, Place>, p: Place) {
    NoDup(list) && forall x :: x in list <==> x in loc && loc[x] == p
  }

  ghost predicate Lists(loc: map<Seg, Place>, alist: seq<Seg>, vlist: seq<Seg>, batch: map<Tid, seq<Seg>>) {
    && Holds(alist, loc, InAbandoned) && Holds(vlist, loc, InVisited)
    && (forall t | t in batch :: Holds(batch[t], loc, InBatch(t)))
    && (forall x | x in loc && loc[x].InBatch? :: loc[x].mover in batch)
    && (forall x | x in loc && loc[x].Owned? :: loc[x].owner in batch)
  }

  // Following `next` from the head visits the list and ends at `end`.
  ghost predicate LinkAt(next: map<Seg, Option<Seg>>, list: seq<Seg>, end: Option<Seg>, i: nat)
    requires i < |list|
  {
    list[i] in next && next[list[i]] == if i + 1 < |list| then Some(list[i + 1]) else end
  }

  ghost predicate Chain(next: map<Seg, Option<Seg>>, list: seq<Seg>, end: Option<Seg>) {
    forall i: nat | i < |list| :: LinkAt(next, list, end, i)
  }

  ghost predicate Chains(next: map<Seg, Option<Seg>>, abandoned: Tagged, visited: Option<Seg>, alist: seq<Seg>,
                         vlist: seq<Seg>) {
    Chain(next, alist, None) && abandoned.ptr == Head(alist) && Chain(next, vlist, None) && visited == Head(vlist)
  }

  ghost predicate BatchOk(next: map<Seg, Option<Seg>>, list: seq<Seg>, pc: Pc) {
    match pc
    case RvLook(_, first) => list != [] && first == list[0] && Chain(next, list, None)
    case RvSwap(_, first, _) => list != [] && first == list[0] && Chain(next, list, None)
    case RvTail(_, first, last) => list != [] && first == list[0] && last in list && Chain(next, list, None)
    case RvLoad(_, first, last) => list != [] && first == list[0] && last == list[|list| - 1] && Chain(next, list, None)
    case RvStore(_, first, last, _) =>
      list != [] && first == list[0] && last == list[|list| - 1] && last in next && Chain(next, list, next[last])
    case RvCas(_, first, last, ts) =>
      list != [] && first == list[0] && last == list[|list| - 1] && Chain(next, list, ts.ptr)
    case _ => list == []
  }

  ghost predicate Batches(next: map<Seg, Option<Seg>>, batch: map<Tid, seq<Seg>>, pcs: map<Tid, Pc>) {
    batch.Keys == pcs.Keys && forall t | t in pcs :: BatchOk(next, batch[t], pcs[t])
  }

  ghost predicate Mine(loc: map<Seg, Place>, t: Tid, x: Seg) { x in loc && loc[x] == Owned(t) }

  // A tagged pointer seen earlier; an equal tag means that nothing happened since.
  ghost predicate Seen(ts: Tagged, abandoned: Tagged) {
    ts.tag <= abandoned.tag && (ts.tag == abandoned.tag ==> ts == abandoned)
  }

  ghost predicate PcOk(t: Tid, pc: Pc, abandoned: Tagged, next: map<Seg, Option<Seg>>, loc: map<Seg, Place>) {
    match pc
    case PushStore(x, ts) => Mine(loc, t, x) && Seen(ts, abandoned)
    case PushCas(x, ts) => Mine(loc, t, x) && Seen(ts, abandoned) && x in next && next[x] == ts.ptr
    case VisitStore(x, _) => Mine(loc, t, x)
    case VisitCas(x, a) => Mine(loc, t, x) && x in next && next[x] == a
    case PopRead(ts) => ts.ptr.Some? && Seen(ts, abandoned)
    case PopCas(ts, a) =>
      ts.ptr.Some? && Seen(ts, abandoned) && (abandoned == ts ==> ts.ptr.value in next && next[ts.ptr.value] == a)
    case PopLeave(got) => got.Some? ==> Mine(loc, t, got.value)
    case PopClear(x) => Mine(loc, t, x)
    case RvSwap(_, _, ts) => Seen(ts, abandoned) && ts.ptr.None?
    case RvStore(_, _, _, ts) => Seen(ts, abandoned)
    case RvCas(_, _, _, ts) => Seen(ts, abandoned)
    case Await(x) => Mine(loc, t, x)
    case Awaited(x) => Mine(loc, t, x)
    case _ => true
  }

  ghost predicate Pcs(pcs: map<Tid, Pc>, abandoned: Tagged, next: map<Seg, Option<Seg>>, loc: map<Seg, Place>) {
    next.Keys == loc.Keys && forall t | t in pcs :: PcOk(t, pcs[t], abandoned, next, loc)
  }

  // Between raising and lowering the reader count.
  predicate InPop(pc: Pc) { pc.PopLoad? || pc.PopRead? || pc.PopCas? || pc.PopLeave? }

  ghost function Readers(pcs: map<Tid, Pc>): set<Tid> { set t | t in pcs && InPop(pcs[t]) }

  ghost predicate ReaderCount(readers: nat, pcs: map<Tid, Pc>) { readers == |Readers(pcs)| }

  // The thread holds a pointer to x that it may still read through.
  predicate Reads(pc: Pc, x: Seg) {
    match pc
    case PopRead(ts) => ts.ptr == Some(x)
    case PopCas(ts, _) => ts.ptr == Some(x)
    case _ => false
  }

  ghost predicate SafeRead(pcs: map<Tid, Pc>, loc: map<Seg, Place>, u: Tid, x: Seg)
    requires u in pcs
  {
    Reads(pcs[u], x) ==> x in loc && !loc[x].Unmapped? && forall t | t in pcs :: pcs[t] != Awaited(x)
  }

  ghost predicate SafeReads(pcs: map<Tid, Pc>, loc: map<Seg, Place>) {
    forall u, x | u in pcs :: SafeRead(pcs, loc, u, x)
  }

  // The thread is working on the link of x.
  predicate Busy(pc: Pc, x: Seg) {
    match pc
    case PushStore(y, _) => y == x
    case PushCas(y, _) => y == x
    case VisitStore(y, _) => y == x
    case VisitCas(y, _) => y == x
    case PopLeave(got) => got == Some(x)
    case PopClear(y) => y == x
    case _ => false
  }

  // Otherwise an owned segment's link is null.
  ghost predicate Clean(next: map<Seg, Option<Seg>>, loc: map<Seg, Place>, pcs: map<Tid, Pc>) {
    forall x | x in loc && x in next && loc[x].Owned? && loc[x].owner in pcs ::
      next[x].None? || Busy(pcs[loc[x].owner], x)
  }

  ghost predicate Inv(s: State) {
    && Lists(s.loc, s.alist, s.vlist, s.batch)
    && Chains(s.next, s.abandoned, s.visited, s.alist, s.vlist)
    && Batches(s.next, s.batch, s.pcs)
    && Pcs(s.pcs, s.abandoned, s.next, s.loc)
    && ReaderCount(s.readers, s.pcs)
    && SafeReads(s.pcs, s.loc)
    && Clean(s.next, s.loc, s.pcs)
  }

  lemma InvParts(s: State)
    requires Inv(s)
    ensures Lists(s.loc, s.alist, s.vlist, s.batch) && Chains(s.next, s.abandoned, s.visited, s.alist, s.vlist)
    ensures Batches(s.next, s.batch, s.pcs) && Pcs(s.pcs, s.abandoned, s.next, s.loc) && ReaderCount(s.readers, s.pcs)
    ensures SafeReads(s.pcs, s.loc) && Clean(s.next, s.loc, s.pcs)
  {}

  lemma InitInv(s: State)
    requires Init(s)
    ensures Inv(s)
  {
    assert Readers(s.pcs) == {};
  }

  // ---- frames

  lemma ChainFrame(next: map<Seg, Option<Seg>>, list: seq<Seg>, end: Option<Seg>, x: Seg, v: Option<Seg>)
    requires Chain(next, list, end) && x !in list
    ensures Chain(next[x := v], list, end)
  {
    var next' := next[x := v];
    forall i: nat | i < |list| ensures LinkAt(next', list, end, i) {
      assert LinkAt(next, list, end, i) && list[i] in list;
    }
  }

  lemma OtherPcs(pcs: map<Tid, Pc>, t: Tid, pc: Pc, abandoned: Tagged, next: map<Seg, Option<Seg>>,
                 loc: map<Seg, Place>)
    requires Pcs(pcs, abandoned, next, loc) && t in pcs && PcOk(t, pc, abandoned, next, loc)
    ensures Pcs(pcs[t := pc], abandoned, next, loc)
  {
    hide PcOk;
    var pcs' := pcs[t := pc];
    forall u | u in pcs' ensures PcOk(u, pcs'[u], abandoned, next, loc) {
      if u != t { assert PcOk(u, pcs[u], abandoned, next, loc); }
    }
  }

  lemma OtherBatches(next: map<Seg, Option<Seg>>, batch: map<Tid, seq<Seg>>, pcs: map<Tid, Pc>, t: Tid, pc: Pc)
    requires Batches(next, batch, pcs) && t in pcs && BatchOk(next, batch[t], pc)
    ensures Batches(next, batch, pcs[t := pc])
  {
    hide BatchOk;
    var pcs' := pcs[t := pc];
    forall u | u in pcs' ensures BatchOk(next, batch[u], pcs'[u]) {
      if u != t { assert BatchOk(next, batch[u], pcs[u]); }
    }
  }

  lemma SameReaders(readers: nat, pcs: map<Tid, Pc>, t: Tid, pc: Pc)
    requires ReaderCount(readers, pcs) && t in pcs && InPop(pc) == InPop(pcs[t])
    ensures ReaderCount(readers, pcs[t := pc])
  {
    assert Readers(pcs[t := pc]) == Readers(pcs);
  }

  lemma MoreReaders(readers: nat, pcs: map<Tid, Pc>, t: Tid, pc: Pc)
    requires ReaderCount(readers, pcs) && t in pcs && InPop(pc) && !InPop(pcs[t])
    ensures ReaderCount(readers + 1, pcs[t := pc])
  {
    assert Readers(pcs[t := pc]) == Readers(pcs) + {t};
  }

  lemma FewerReaders(readers: nat, pcs: map<Tid, Pc>, t: Tid, pc: Pc)
    requires ReaderCount(readers, pcs) && t in pcs && !InPop(pc) && InPop(pcs[t])
    ensures readers > 0 && ReaderCount(readers - 1, pcs[t := pc])
  {
    assert t in Readers(pcs);
    assert Readers(pcs[t := pc]) == Readers(pcs) - {t};
  }

  // A thread that reads no more than before and awaits no more than before.
  lemma SafeStep(pcs: map<Tid, Pc>, loc: map<Seg, Place>, t: Tid, pc: Pc)
    requires SafeReads(pcs, loc) && t in pcs && !pc.Awaited? && forall x | Reads(pc, x) :: Reads(pcs[t], x)
    ensures SafeReads(pcs[t := pc], loc)
  {
    var pcs' := pcs[t := pc];
    forall u, x | u in pcs' ensures SafeRead(pcs', loc, u, x) { assert SafeRead(pcs, loc, u, x); }
  }

  // A thread that has loaded the head of the list.
  lemma SafeLoad(s: State, t: Tid)
    requires Inv(s) && t in s.pcs
    ensures SafeReads(s.pcs[t := Loaded(s.abandoned)], s.loc)
  {
    hide Inv;
    var pcs' := s.pcs[t := Loaded(s.abandoned)];
    LoadPlace(s);
    forall u, x | u in pcs' ensures SafeRead(pcs', s.loc, u, x) {
      assert SafeRead(s.pcs, s.loc, u, x);
      if u == t && Reads(pcs'[t], x) {
        forall w | w in pcs' ensures pcs'[w] != Awaited(x) { NotAwaited(s, w, x); }
      }
    }
  }

  lemma LoadPlace(s: State)
    requires Inv(s)
    ensures SafeReads(s.pcs, s.loc)
    ensures s.abandoned.ptr.Some? ==> s.abandoned.ptr.value in s.loc && s.loc[s.abandoned.ptr.value] == InAbandoned
  {
    hide SafeReads, Pcs, Batches, Clean, ReaderCount;
  }

  lemma NotAwaited(s: State, w: Tid, x: Seg)
    requires Inv(s) && w in s.pcs && x in s.loc && s.loc[x] == InAbandoned
    ensures s.pcs[w] != Awaited(x)
  {
    hide SafeReads, Batches, Clean, ReaderCount, Lists, Chains;
    assert PcOk(w, s.pcs[w], s.abandoned, s.next, s.loc);
  }

  lemma SafeAwaited(s: State, t: Tid, x: Seg)
    requires Inv(s) && t in s.pcs && s.readers == 0
    ensures SafeReads(s.pcs[t := Awaited(x)], s.loc)
  {
    var pcs' := s.pcs[t := Awaited(x)];
    assert Readers(s.pcs) == {};
    forall u, y | u in pcs' ensures SafeRead(pcs', s.loc, u, y) {
      assert u !in Readers(s.pcs);
    }
  }

  lemma CleanStep(next: map<Seg, Option<Seg>>, loc: map<Seg, Place>, pcs: map<Tid, Pc>, t: Tid, pc: Pc)
    requires Clean(next, loc, pcs) && t in pcs
      && forall x | Busy(pcs[t], x) && Mine(loc, t, x) :: Busy(pc, x) || (x in next && next[x].None?)
    ensures Clean(next, loc, pcs[t := pc])
  {}

  // ---- steps that change only the program counter

  lemma PcStep(s: State, t: Tid, pc: Pc)
    requires Inv(s) && t in s.pcs
    requires PcOk(t, pc, s.abandoned, s.next, s.loc) && BatchOk(s.next, s.batch[t], pc)
    requires InPop(pc) == InPop(s.pcs[t]) && SafeReads(s.pcs[t := pc], s.loc)
    requires forall x | Busy(s.pcs[t], x) && Mine(s.loc, t, x) :: Busy(pc, x) || (x in s.next && s.next[x].None?)
    ensures Inv(s.(pcs := s.pcs[t := pc]))
  {
    hide Lists, Chains, Batches, Pcs, ReaderCount, SafeReads, Clean, PcOk, BatchOk, Busy, InPop;
    OtherPcs(s.pcs, t, pc, s.abandoned, s.next, s.loc);
    OtherBatches(s.next, s.batch, s.pcs, t, pc);
    SameReaders(s.readers, s.pcs, t, pc);
    CleanStep(s.next, s.loc, s.pcs, t, pc);
  }

  lemma ThreadFacts(s: State, t: Tid)
    requires Inv(s) && t in s.pcs
    ensures PcOk(t, s.pcs[t], s.abandoned, s.next, s.loc)
    ensures t in s.batch && BatchOk(s.next, s.batch[t], s.pcs[t])
  {
    hide PcOk, BatchOk, Lists, Chains, SafeReads, Clean, ReaderCount;
  }

  lemma StartInv(s: State, t: Tid, a: Act)
    requires Inv(s) && t in s.pcs && s.pcs[t].Idle? && !a.Map? && !a.Pass?
    ensures Inv(StartStep(s, t, a))
  {
    hide Lists, Chains, Batches, Pcs, SafeReads, Clean, ReaderCount, Inv;
    InvParts(s);
    ThreadFacts(s, t);
    var s' := StartStep(s, t, a);
    if s' != s {
      StartFacts(s, t, a, s'.pcs[t]);
      SafeStep(s.pcs, s.loc, t, s'.pcs[t]);
      PcStep(s, t, s'.pcs[t]);
    }
  }

  lemma StartFacts(s: State, t: Tid, a: Act, pc: Pc)
    requires Inv(s) && t in s.pcs && s.pcs[t].Idle? && !a.Map? && !a.Pass?
    requires t in s.batch && BatchOk(s.next, s.batch[t], Idle) && StartStep(s, t, a) != s
      && pc == StartStep(s, t, a).pcs[t]
    ensures PcOk(t, pc, s.abandoned, s.next, s.loc) && BatchOk(s.next, s.batch[t], pc) && InPop(pc) == InPop(s.pcs[t])
    ensures StartStep(s, t, a) == s.(pcs := s.pcs[t := pc]) && !pc.Awaited? && forall x :: !Reads(pc, x)
  {
    hide Inv;
  }

  // ---- steps that change one link

  // What other threads rely on: the tag, their own segments, and the link of the head while the tag lasts.
  lemma OthersOk(u: Tid, pc: Pc, ab: Tagged, ab': Tagged, next: map<Seg, Option<Seg>>, next': map<Seg, Option<Seg>>,
                 loc: map<Seg, Place>, loc': map<Seg, Place>)
    requires PcOk(u, pc, ab, next, loc) && (ab' == ab || ab'.tag == ab.tag + 1)
    requires forall y | Mine(loc, u, y) :: Mine(loc', u, y) && (y in next ==> y in next' && next'[y] == next[y])
    requires ab' == ab && ab.ptr.Some? && ab.ptr.value in next ==>
      ab.ptr.value in next' && next'[ab.ptr.value] == next[ab.ptr.value]
    ensures PcOk(u, pc, ab', next', loc')
  {}

  // All threads after a step of t.
  lemma PcsStep(pcs: map<Tid, Pc>, t: Tid, pc: Pc, ab: Tagged, ab': Tagged, next: map<Seg, Option<Seg>>,
                next': map<Seg, Option<Seg>>,
                loc: map<Seg, Place>, loc': map<Seg, Place>)
    requires Pcs(pcs, ab, next, loc) && t in pcs && PcOk(t, pc, ab', next', loc') && next'.Keys == loc'.Keys
    requires ab' == ab || ab'.tag == ab.tag + 1
    requires forall u, y | u != t && Mine(loc, u, y) ::
      Mine(loc', u, y) && (y in next ==> y in next' && next'[y] == next[y])
    requires ab' == ab && ab.ptr.Some? && ab.ptr.value in next ==>
      ab.ptr.value in next' && next'[ab.ptr.value] == next[ab.ptr.value]
    ensures Pcs(pcs[t := pc], ab', next', loc')
  {
    hide PcOk;
    var pcs' := pcs[t := pc];
    forall u | u in pcs' ensures PcOk(u, pcs'[u], ab', next', loc') {
      if u != t {
        assert PcOk(u, pcs[u], ab, next, loc);
        OthersOk(u, pcs[u], ab, ab', next, next', loc, loc');
      }
    }
  }

  lemma HeadPlace(s: State)
    requires Inv(s)
    ensures s.abandoned.ptr.Some? ==> s.alist != [] && s.abandoned.ptr.value == s.alist[0]
    ensures s.abandoned.ptr.Some? ==> s.abandoned.ptr.value in s.loc && s.loc[s.abandoned.ptr.value] == InAbandoned
    ensures s.next.Keys == s.loc.Keys && s.batch.Keys == s.pcs.Keys
  {}

  // x is owned by the stepping thread, so it is in no list.
  lemma OwnChains(s: State, t: Tid, x: Seg, v: Option<Seg>)
    requires Inv(s) && Mine(s.loc, t, x)
    ensures Chains(s.next[x := v], s.abandoned, s.visited, s.alist, s.vlist)
    ensures forall u | u in s.pcs :: BatchOk(s.next[x := v], s.batch[u], s.pcs[u])
  {
    hide Pcs, SafeReads, Clean, ReaderCount;
    ChainFrame(s.next, s.alist, None, x, v);
    ChainFrame(s.next, s.vlist, None, x, v);
    forall u | u in s.pcs ensures BatchOk(s.next[x := v], s.batch[u], s.pcs[u]) {
      assert BatchOk(s.next, s.batch[u], s.pcs[u]) && x !in s.batch[u];
      BatchFrame(s.next, s.batch[u], s.pcs[u], x, v);
    }
  }

  lemma BatchFrame(next: map<Seg, Option<Seg>>, list: seq<Seg>, pc: Pc, x: Seg, v: Option<Seg>)
    requires BatchOk(next, list, pc) && x !in list
    ensures BatchOk(next[x := v], list, pc)
  {
    match pc
    case RvStore(_, _, last, _) => ChainFrame(next, list, next[last], x, v);
    case RvCas(_, _, _, ts) => ChainFrame(next, list, ts.ptr, x, v);
    case _ => if list != [] { ChainFrame(next, list, None, x, v); }
  }

  lemma OwnLink(s: State, t: Tid, x: Seg, v: Option<Seg>, pc: Pc)
    requires Inv(s) && t in s.pcs && Mine(s.loc, t, x) && Busy(s.pcs[t], x) && (v.None? || Busy(pc, x))
    requires !InPop(s.pcs[t]) && (pc.PushCas? || pc.VisitCas? || pc.Idle?)
    requires BatchOk(s.next, s.batch[t], s.pcs[t]) && s.batch[t] == []
    requires PcOk(t, pc, s.abandoned, s.next[x := v], s.loc)
    ensures Inv(s.(next := s.next[x := v], pcs := s.pcs[t := pc]))
  {
    hide Lists, Chains, Batches, Pcs, SafeReads, Clean, ReaderCount, PcOk;
    InvParts(s);
    HeadPlace(s);
    OwnChains(s, t, x, v);
    OwnPcs(s, t, x, v, pc);
    OwnBatches(s, t, s.next[x := v], pc);
    OwnClean(s, t, x, v, pc);
    SameReaders(s.readers, s.pcs, t, pc);
    SafeStep(s.pcs, s.loc, t, pc);
  }

  lemma OwnPcs(s: State, t: Tid, x: Seg, v: Option<Seg>, pc: Pc)
    requires Inv(s) && t in s.pcs && Mine(s.loc, t, x) && PcOk(t, pc, s.abandoned, s.next[x := v], s.loc)
    ensures Pcs(s.pcs[t := pc], s.abandoned, s.next[x := v], s.loc)
  {
    hide Inv, Pcs, PcOk;
    InvParts(s);
    HeadPlace(s);
    assert s.next[x := v].Keys == s.loc.Keys;
    PcsStep(s.pcs, t, pc, s.abandoned, s.abandoned, s.next, s.next[x := v], s.loc, s.loc);
  }

  lemma OwnBatches(s: State, t: Tid, next': map<Seg, Option<Seg>>, pc: Pc)
    requires s.batch.Keys == s.pcs.Keys && t in s.pcs && forall u | u in s.pcs :: BatchOk(next', s.batch[u], s.pcs[u])
    requires BatchOk(next', s.batch[t], pc)
    ensures Batches(next', s.batch, s.pcs[t := pc])
  {
    hide BatchOk;
  }

  lemma OwnClean(s: State, t: Tid, x: Seg, v: Option<Seg>, pc: Pc)
    requires Clean(s.next, s.loc, s.pcs) && t in s.pcs && Mine(s.loc, t, x)
    requires (forall y | Busy(s.pcs[t], y) :: y == x) && (v.None? || Busy(pc, x))
    ensures Clean(s.next[x := v], s.loc, s.pcs[t := pc])
  {}

  lemma PushInv(s: State, t: Tid, fails: bool)
    requires Inv(s) && t in s.pcs
      && (s.pcs[t].PushStore? || s.pcs[t].VisitStore? || s.pcs[t].PushCas? || s.pcs[t].VisitCas?)
    requires s.pcs[t].PushCas? ==> s.abandoned != s.pcs[t].ts || fails
    requires s.pcs[t].VisitCas? ==> s.visited != s.pcs[t].anext || fails
    ensures Inv(PushStep(s, t, fails))
  {
    hide Lists, Chains, ReaderCount, Clean;
    assert PcOk(t, s.pcs[t], s.abandoned, s.next, s.loc) && BatchOk(s.next, s.batch[t], s.pcs[t]);
    hide Batches, Pcs;
    var pc := PushStep(s, t, fails).pcs[t];
    SafeStep(s.pcs, s.loc, t, pc);
    hide SafeReads;
    match s.pcs[t]
    case PushStore(x, ts) => OwnLink(s, t, x, ts.ptr, pc);
    case VisitStore(x, a) => OwnLink(s, t, x, a, pc);
    case _ => PcStep(s, t, pc);
  }

  // ---- a push succeeds

  lemma PushedLists(loc: map<Seg, Place>, alist: seq<Seg>, vlist: seq<Seg>, batch: map<Tid, seq<Seg>>, t: Tid, x: Seg)
    requires Lists(loc, alist, vlist, batch) && Mine(loc, t, x)
    ensures Lists(loc[x := InAbandoned], [x] + alist, vlist, batch)
      && Lists(loc[x := InVisited], alist, [x] + vlist, batch)
  {
    HoldsMore(alist, loc, InAbandoned, x);
    HoldsMore(vlist, loc, InVisited, x);
    HoldsSame(alist, loc, InAbandoned, x, InVisited);
    HoldsSame(vlist, loc, InVisited, x, InAbandoned);
    forall u | u in batch
      ensures Holds(batch[u], loc[x := InAbandoned], InBatch(u)) && Holds(batch[u], loc[x := InVisited], InBatch(u))
    {
      HoldsSame(batch[u], loc, InBatch(u), x, InAbandoned);
      HoldsSame(batch[u], loc, InBatch(u), x, InVisited);
    }
    hide Holds;
  }

  lemma HoldsMore(list: seq<Seg>, loc: map<Seg, Place>, p: Place, x: Seg)
    requires Holds(list, loc, p) && x in loc && loc[x] != p
    ensures Holds([x] + list, loc[x := p], p)
  {
    assert x !in list;
  }

  lemma HoldsSame(list: seq<Seg>, loc: map<Seg, Place>, p: Place, x: Seg, q: Place)
    requires Holds(list, loc, p) && x in loc && loc[x] != p && q != p
    ensures Holds(list, loc[x := q], p)
  {}

  lemma ChainPush(next: map<Seg, Option<Seg>>, list: seq<Seg>, x: Seg)
    requires Chain(next, list, None) && x in next && next[x] == Head(list)
    ensures Chain(next, [x] + list, None)
  {
    var list' := [x] + list;
    forall i: nat | i < |list'| ensures LinkAt(next, list', None, i) {
      if i > 0 { assert LinkAt(next, list, None, i - 1); }
    }
  }

  // The stepping thread gives up its segment x.
  lemma GiveUp(s: State, t: Tid, x: Seg, q: Place, ab': Tagged)
    requires Inv(s) && t in s.pcs && Mine(s.loc, t, x) && !q.Unmapped? && !q.Owned? && !InPop(s.pcs[t])
    requires ab' == s.abandoned || ab'.tag == s.abandoned.tag + 1
    ensures Pcs(s.pcs[t := Idle], ab', s.next, s.loc[x := q]) && SafeReads(s.pcs[t := Idle], s.loc[x := q])
    ensures (forall y | Busy(s.pcs[t], y) :: y == x) ==> Clean(s.next, s.loc[x := q], s.pcs[t := Idle])
    ensures ReaderCount(s.readers, s.pcs[t := Idle])
  {
    hide Inv, Pcs, SafeReads, Clean, ReaderCount, Busy;
    InvParts(s);
    GiveUpPcs(s, t, x, q, ab');
    SafePlace(s.pcs, s.loc, t, x, q);
    if forall y | Busy(s.pcs[t], y) :: y == x { CleanPlace(s.next, s.loc, s.pcs, t, x, q); }
    SameReaders(s.readers, s.pcs, t, Idle);
  }

  lemma SafePlace(pcs: map<Tid, Pc>, loc: map<Seg, Place>, t: Tid, x: Seg, q: Place)
    requires SafeReads(pcs, loc) && t in pcs && x in loc && !q.Unmapped?
    ensures SafeReads(pcs[t := Idle], loc[x := q])
  {
    var loc', pcs' := loc[x := q], pcs[t := Idle];
    forall u, y | u in pcs' ensures SafeRead(pcs', loc', u, y) { assert SafeRead(pcs, loc, u, y); }
  }

  lemma CleanPlace(next: map<Seg, Option<Seg>>, loc: map<Seg, Place>, pcs: map<Tid, Pc>, t: Tid, x: Seg, q: Place)
    requires Clean(next, loc, pcs) && t in pcs && !q.Owned? && forall y | Busy(pcs[t], y) :: y == x
    ensures Clean(next, loc[x := q], pcs[t := Idle])
  {}

  lemma GiveUpPcs(s: State, t: Tid, x: Seg, q: Place, ab': Tagged)
    requires Inv(s) && t in s.pcs && Mine(s.loc, t, x) && (ab' == s.abandoned || ab'.tag == s.abandoned.tag + 1)
    ensures Pcs(s.pcs[t := Idle], ab', s.next, s.loc[x := q])
  {
    hide Inv, Pcs;
    InvParts(s);
    HeadPlace(s);
    assert s.next.Keys == s.loc[x := q].Keys;
    PcsStep(s.pcs, t, Idle, s.abandoned, ab', s.next, s.next, s.loc, s.loc[x := q]);
  }

  lemma PushDone(s: State, t: Tid)
    requires Inv(s) && t in s.pcs && s.pcs[t].PushCas? && s.abandoned == s.pcs[t].ts
    ensures Inv(PushStep(s, t, false))
  {
    hide Lists, Chain, Batches, Pcs, ReaderCount, SafeReads, Clean;
    InvParts(s);
    ThreadFacts(s, t);
    var x, ts := s.pcs[t].seg, s.pcs[t].ts;
    GiveUp(s, t, x, InAbandoned, Tagged(Some(x), ts.tag + 1));
    PushedLists(s.loc, s.alist, s.vlist, s.batch, t, x);
    ChainPush(s.next, s.alist, x);
    OtherBatches(s.next, s.batch, s.pcs, t, Idle);
  }

  lemma VisitDone(s: State, t: Tid)
    requires Inv(s) && t in s.pcs && s.pcs[t].VisitCas? && s.visited == s.pcs[t].anext
    ensures Inv(PushStep(s, t, false))
  {
    hide Lists, Chain, Batches, Pcs, ReaderCount, SafeReads, Clean;
    InvParts(s);
    ThreadFacts(s, t);
    var x := s.pcs[t].seg;
    GiveUp(s, t, x, InVisited, s.abandoned);
    PushedLists(s.loc, s.alist, s.vlist, s.batch, t, x);
    ChainPush(s.next, s.vlist, x);
    OtherBatches(s.next, s.batch, s.pcs, t, Idle);
  }

  // ---- a pop

  lemma PopInv(s: State, t: Tid, fails: bool)
    requires Inv(s) && t in s.pcs && (s.pcs[t].PopLoad? || s.pcs[t].PopRead? || s.pcs[t].PopCas?)
    requires s.pcs[t].PopCas? ==> s.abandoned != s.pcs[t].ts || fails
    ensures Inv(PopStep(s, t, fails))
  {
    hide Inv, SafeReads;
    if s.pcs[t].PopRead? {
      ReadInv(s, t);
    } else {
      LoadFacts(s, t);
      SafeLoad(s, t);
      PcStep(s, t, Loaded(s.abandoned));
    }
  }

  lemma LoadFacts(s: State, t: Tid)
    requires Inv(s) && t in s.pcs && (s.pcs[t].PopLoad? || s.pcs[t].PopCas?)
    ensures PcOk(t, Loaded(s.abandoned), s.abandoned, s.next, s.loc)
    ensures t in s.batch && BatchOk(s.next, s.batch[t], Loaded(s.abandoned)) && forall x :: !Busy(s.pcs[t], x)
  {
    hide Inv;
    ThreadFacts(s, t);
  }

  lemma ReadInv(s: State, t: Tid)
    requires Inv(s) && t in s.pcs && s.pcs[t].PopRead?
    ensures Inv(PopStep(s, t, false)) && Inv(PopStep(s, t, true))
  {
    var ts := s.pcs[t].ts;
    var pc := PopCas(ts, ReadLink(s, t));
    ReadFacts(s, t, pc);
    hide *;
    hide Inv;
    PcStep(s, t, pc);
  }

  ghost function ReadLink(s: State, t: Tid): Option<Seg>
    requires t in s.pcs && s.pcs[t].PopRead?
  {
    var ts := s.pcs[t].ts;
    if ts.ptr.Some? && ts.ptr.value in s.next then s.next[ts.ptr.value] else None
  }

  lemma ReadFacts(s: State, t: Tid, pc: Pc)
    requires Inv(s) && t in s.pcs && s.pcs[t].PopRead? && pc == PopCas(s.pcs[t].ts, ReadLink(s, t))
    ensures PcOk(t, pc, s.abandoned, s.next, s.loc) && t in s.batch && BatchOk(s.next, s.batch[t], pc)
    ensures SafeReads(s.pcs[t := pc], s.loc) && InPop(pc) == InPop(s.pcs[t]) && forall x :: !Busy(s.pcs[t], x)
    ensures PopStep(s, t, false) == PopStep(s, t, true) == s.(pcs := s.pcs[t := pc])
  {
    ThreadFacts(s, t);
    HeadPlace(s);
    ReadMapped(s, t, s.pcs[t].ts.ptr.value);
    hide Lists, Chains, ReaderCount, Clean, Batches, Pcs;
    SafeStep(s.pcs, s.loc, t, pc);
    hide SafeReads;
  }

  // A popping thread only reads links of segments whose memory is mapped, and nobody has finished
  // waiting for readers on such a segment.
  lemma ReadMapped(s: State, t: Tid, x: Seg)
    requires Inv(s) && t in s.pcs && Reads(s.pcs[t], x)
    ensures x in s.loc && x in s.next && !s.loc[x].Unmapped? && forall u | u in s.pcs :: s.pcs[u] != Awaited(x)
  {
    hide Lists, Chains, ReaderCount, Clean, Batches, PcOk;
    assert SafeRead(s.pcs, s.loc, t, x);
  }

  lemma LookInv(s: State, t: Tid)
    requires Inv(s) && t in s.pcs && s.pcs[t].PopLook?
    ensures Inv(PopStep(s, t, false))
  {
    hide Lists, Chains, Batches, Pcs, ReaderCount, SafeReads, Clean;
    ThreadFacts(s, t);
    SafeStep(s.pcs, s.loc, t, if s.visited.None? then Idle else RvTake(true));
    PcStep(s, t, if s.visited.None? then Idle else RvTake(true));
  }

  lemma EnterInv(s: State, t: Tid)
    requires Inv(s) && t in s.pcs && s.pcs[t].PopEnter?
    ensures Inv(PopStep(s, t, false))
  {
    assert BatchOk(s.next, s.batch[t], s.pcs[t]);
    hide Lists, Chains, ReaderCount, Clean, Batches, Pcs, SafeReads, PcOk, BatchOk;
    PcFrame(s, t, PopLoad);
    MoreReaders(s.readers, s.pcs, t, PopLoad);
  }

  // All components but the reader count.
  lemma PcFrame(s: State, t: Tid, pc: Pc)
    requires Inv(s) && t in s.pcs && (pc.PopLoad? || pc.Idle? || pc.PopClear?)
    requires PcOk(t, pc, s.abandoned, s.next, s.loc) && BatchOk(s.next, s.batch[t], pc)
    requires forall x | Busy(s.pcs[t], x) :: Busy(pc, x)
    ensures Batches(s.next, s.batch, s.pcs[t := pc]) && Pcs(s.pcs[t := pc], s.abandoned, s.next, s.loc)
    ensures SafeReads(s.pcs[t := pc], s.loc) && Clean(s.next, s.loc, s.pcs[t := pc])
  {
    hide Lists, Chains, Batches, Pcs, ReaderCount, SafeReads, Clean, PcOk, BatchOk;
    OtherPcs(s.pcs, t, pc, s.abandoned, s.next, s.loc);
    OtherBatches(s.next, s.batch, s.pcs, t, pc);
    SafeStep(s.pcs, s.loc, t, pc);
    CleanStep(s.next, s.loc, s.pcs, t, pc);
  }

  lemma LeaveInv(s: State, t: Tid)
    requires Inv(s) && t in s.pcs && s.pcs[t].PopLeave?
    ensures Inv(PopStep(s, t, false))
  {
    var pc := if s.pcs[t].got.Some? then PopClear(s.pcs[t].got.value) else Idle;
    LeaveFacts(s, t, pc);
    PcFrame(s, t, pc);
    FewerReaders(s.readers, s.pcs, t, pc);
    hide Lists, Chains, ReaderCount, Clean, Batches, Pcs, SafeReads, PcOk, BatchOk, Busy;
  }

  lemma LeaveFacts(s: State, t: Tid, pc: Pc)
    requires Inv(s) && t in s.pcs && s.pcs[t].PopLeave?
    requires pc == if s.pcs[t].got.Some? then PopClear(s.pcs[t].got.value) else Idle
    ensures PcOk(t, pc, s.abandoned, s.next, s.loc) && t in s.batch && BatchOk(s.next, s.batch[t], pc)
    ensures (forall x | Busy(s.pcs[t], x) :: Busy(pc, x)) && InPop(s.pcs[t]) && !InPop(pc)
  {
    ThreadFacts(s, t);
    hide Lists, Chains, ReaderCount, Clean, Batches, Pcs, SafeReads;
  }

  lemma ClearInv(s: State, t: Tid)
    requires Inv(s) && t in s.pcs && s.pcs[t].PopClear?
    ensures Inv(PopStep(s, t, false))
  {
    assert PcOk(t, s.pcs[t], s.abandoned, s.next, s.loc) && BatchOk(s.next, s.batch[t], s.pcs[t]);
    hide Lists, Chains, ReaderCount, Clean, Batches, Pcs, SafeReads;
    OwnLink(s, t, s.pcs[t].seg, None, Idle);
  }

  lemma PoppedLists(loc: map<Seg, Place>, alist: seq<Seg>, vlist: seq<Seg>, batch: map<Tid, seq<Seg>>, t: Tid)
    requires Lists(loc, alist, vlist, batch) && alist != [] && t in batch
    ensures alist[0] in loc && loc[alist[0]] == InAbandoned
    ensures Lists(loc[alist[0] := Owned(t)], alist[1..], vlist, batch)
  {
    var x := alist[0];
    assert x in alist;
    HoldsLess(alist, loc, InAbandoned, Owned(t));
    HoldsSame(vlist, loc, InVisited, x, Owned(t));
    forall u | u in batch
      ensures Holds(batch[u], loc[x := Owned(t)], InBatch(u))
    {
      HoldsSame(batch[u], loc, InBatch(u), x, Owned(t));
    }
    hide Holds;
  }

  lemma HoldsLess(list: seq<Seg>, loc: map<Seg, Place>, p: Place, q: Place)
    requires Holds(list, loc, p) && list != [] && q != p
    ensures list[0] in loc && Holds(list[1..], loc[list[0] := q], p)
  {
    assert list[0] in list;
    forall x ensures x in list[1..] <==> x in list && x != list[0] {
      if x in list && x != list[0] {
        var i :| 0 <= i < |list| && list[i] == x;
        assert list[1..][i - 1] == x;
      }
    }
  }

  lemma ChainTail(next: map<Seg, Option<Seg>>, list: seq<Seg>)
    requires Chain(next, list, None) && list != []
    ensures Chain(next, list[1..], None) && list[0] in next && next[list[0]] == Head(list[1..])
  {
    assert LinkAt(next, list, None, 0);
    var rest := list[1..];
    forall i: nat | i < |rest| ensures LinkAt(next, rest, None, i) { assert LinkAt(next, list, None, i + 1); }
  }

  lemma PopDone(s: State, t: Tid)
    requires Inv(s) && t in s.pcs && s.pcs[t].PopCas? && s.abandoned == s.pcs[t].ts
    ensures Inv(PopStep(s, t, false))
  {
    hide Lists, Chains, Batches, Pcs, SafeReads, Clean, ReaderCount;
    InvParts(s);
    var ts, a := s.pcs[t].ts, s.pcs[t].anext;
    ThreadFacts(s, t);
    HeadPlace(s);
    PoppedPcs(s, t, s.alist[0], Tagged(a, ts.tag + 1));
    PoppedChains(s, t);
    PoppedLists(s.loc, s.alist, s.vlist, s.batch, t);
    OtherBatches(s.next, s.batch, s.pcs, t, PopLeave(ts.ptr));
    SameReaders(s.readers, s.pcs, t, PopLeave(ts.ptr));
  }

  lemma PoppedChains(s: State, t: Tid)
    requires Inv(s) && t in s.pcs && s.pcs[t].PopCas? && s.abandoned == s.pcs[t].ts && s.alist != []
    ensures Chains(s.next, Tagged(s.pcs[t].anext, s.abandoned.tag + 1), s.visited, s.alist[1..], s.vlist)
  {
    hide Lists, Batches, BatchOk, Pcs, SafeReads, Clean, ReaderCount, Chain;
    ThreadFacts(s, t);
    HeadPlace(s);
    ChainTail(s.next, s.alist);
  }

  lemma PoppedPcs(s: State, t: Tid, x: Seg, ab': Tagged)
    requires Inv(s) && t in s.pcs && x in s.loc && s.loc[x] == InAbandoned && ab'.tag == s.abandoned.tag + 1
    requires forall y :: !Busy(s.pcs[t], y)
    ensures Pcs(s.pcs[t := PopLeave(Some(x))], ab', s.next, s.loc[x := Owned(t)])
    ensures SafeReads(s.pcs[t := PopLeave(Some(x))], s.loc[x := Owned(t)])
    ensures Clean(s.next, s.loc[x := Owned(t)], s.pcs[t := PopLeave(Some(x))])
  {
    HeadPlace(s);
    PoppedSafe(s.pcs, s.loc, t, x);
    PoppedClean(s.next, s.loc, s.pcs, t, x);
    PoppedOthers(s.pcs, t, x, s.abandoned, ab', s.next, s.loc);
    hide Lists, Chains, Batches, SafeReads, Clean, ReaderCount, Pcs, Busy;
  }

  lemma PoppedOthers(pcs: map<Tid, Pc>, t: Tid, x: Seg, ab: Tagged, ab': Tagged, next: map<Seg, Option<Seg>>,
                     loc: map<Seg, Place>)
    requires Pcs(pcs, ab, next, loc) && t in pcs && x in loc && loc[x] == InAbandoned && ab'.tag == ab.tag + 1
      && next.Keys == loc.Keys
    ensures Pcs(pcs[t := PopLeave(Some(x))], ab', next, loc[x := Owned(t)])
  {
    hide Pcs;
    assert next.Keys == loc[x := Owned(t)].Keys;
    PcsStep(pcs, t, PopLeave(Some(x)), ab, ab', next, next, loc, loc[x := Owned(t)]);
  }

  lemma PoppedSafe(pcs: map<Tid, Pc>, loc: map<Seg, Place>, t: Tid, x: Seg)
    requires SafeReads(pcs, loc) && t in pcs
    ensures SafeReads(pcs[t := PopLeave(Some(x))], loc[x := Owned(t)])
  {
    var loc', pcs' := loc[x := Owned(t)], pcs[t := PopLeave(Some(x))];
    forall u, y | u in pcs' ensures SafeRead(pcs', loc', u, y) { assert SafeRead(pcs, loc, u, y); }
  }

  lemma PoppedClean(next: map<Seg, Option<Seg>>, loc: map<Seg, Place>, pcs: map<Tid, Pc>, t: Tid, x: Seg)
    requires Clean(next, loc, pcs) && t in pcs && forall y :: !Busy(pcs[t], y)
    ensures Clean(next, loc[x := Owned(t)], pcs[t := PopLeave(Some(x))])
  {}

  // ---- the visited list moves back

  lemma RevisitInv(s: State, t: Tid, fails: bool)
    requires Inv(s) && t in s.pcs
    requires s.pcs[t].RvLook? || s.pcs[t].RvSwap? || s.pcs[t].RvTail? || s.pcs[t].RvLoad? || s.pcs[t].RvCas?
      || (s.pcs[t].RvTake? && s.visited.None?)
    requires s.pcs[t].RvSwap? ==> s.abandoned != s.pcs[t].ts
    requires s.pcs[t].RvCas? ==> s.abandoned != s.pcs[t].ts || fails
    ensures Inv(RevisitStep(s, t, fails))
  {
    hide Lists, Chains, ReaderCount, Clean;
    assert PcOk(t, s.pcs[t], s.abandoned, s.next, s.loc) && BatchOk(s.next, s.batch[t], s.pcs[t]);
    hide Batches, Pcs;
    var pc := RevisitStep(s, t, fails).pcs[t];
    SafeStep(s.pcs, s.loc, t, pc);
    hide SafeReads, PcOk;
    RevisitBatch(s, t, fails);
    assert PcOk(t, pc, s.abandoned, s.next, s.loc) by { RevisitPc(s, t, fails); }
    hide BatchOk;
    PcStep(s, t, pc);
  }

  lemma RevisitPc(s: State, t: Tid, fails: bool)
    requires t in s.pcs && PcOk(t, s.pcs[t], s.abandoned, s.next, s.loc)
    requires s.pcs[t].RvLook? || s.pcs[t].RvSwap? || s.pcs[t].RvTail? || s.pcs[t].RvLoad? || s.pcs[t].RvCas?
      || (s.pcs[t].RvTake? && s.visited.None?)
    requires s.pcs[t].RvSwap? ==> s.abandoned != s.pcs[t].ts
    requires s.pcs[t].RvCas? ==> s.abandoned != s.pcs[t].ts || fails
    ensures PcOk(t, RevisitStep(s, t, fails).pcs[t], s.abandoned, s.next, s.loc)
  {
    hide MoveAll, Join;
    match s.pcs[t]
    case RvTake(_) =>
    case RvLook(_, _) =>
    case RvSwap(_, _, _) =>
    case RvTail(_, _, _) =>
    case RvLoad(_, _, _) =>
    case RvCas(_, _, _, _) =>
  }

  // The walk to the tail stays inside the detached list and stops at its end.
  lemma RevisitBatch(s: State, t: Tid, fails: bool)
    requires t in s.pcs && t in s.batch && BatchOk(s.next, s.batch[t], s.pcs[t])
    requires s.pcs[t].RvLook? || s.pcs[t].RvSwap? || s.pcs[t].RvTail? || s.pcs[t].RvLoad? || s.pcs[t].RvCas?
      || (s.pcs[t].RvTake? && s.visited.None?)
    requires s.pcs[t].RvSwap? ==> s.abandoned != s.pcs[t].ts
    requires s.pcs[t].RvCas? ==> s.abandoned != s.pcs[t].ts || fails
    ensures BatchOk(s.next, s.batch[t], RevisitStep(s, t, fails).pcs[t])
  {
    var list := s.batch[t];
    match s.pcs[t]
    case RvTail(_, _, last) =>
      var i: nat :| i < |list| && list[i] == last;
      assert LinkAt(s.next, list, None, i);
    case RvLoad(_, _, _) => assert LinkAt(s.next, list, None, |list| - 1);
    case RvCas(_, _, _, ts) => assert LinkAt(s.next, list, ts.ptr, |list| - 1);
    case _ =>
  }

  // ---- the visited list is taken, and later joined to the abandoned list

  lemma MovedHolds(list: seq<Seg>, loc: map<Seg, Place>, p: Place, q: Place)
    requires Holds(list, loc, p) && p != q && forall x | x in loc :: loc[x] != q
    ensures Holds(list, MoveAll(loc, list, q), q) && Holds([], MoveAll(loc, list, q), p)
  {}

  lemma MovedOther(list: seq<Seg>, loc: map<Seg, Place>, p: Place, q: Place, other: seq<Seg>, r: Place)
    requires Holds(list, loc, p) && Holds(other, loc, r) && r != p && r != q
    ensures Holds(other, MoveAll(loc, list, q), r)
  {
    assert forall x | x in other :: x !in list;
  }

  lemma MovedJoin(list: seq<Seg>, loc: map<Seg, Place>, p: Place, q: Place, old0: seq<Seg>)
    requires Holds(list, loc, p) && Holds(old0, loc, q) && p != q
    ensures Holds(list + old0, MoveAll(loc, list, q), q) && Holds([], MoveAll(loc, list, q), p)
  {
    NoDupConcat(list, old0);
    forall x ensures x in list + old0 <==> x in MoveAll(loc, list, q) && MoveAll(loc, list, q)[x] == q {}
  }

  lemma TakenLists(loc: map<Seg, Place>, alist: seq<Seg>, vlist: seq<Seg>, batch: map<Tid, seq<Seg>>, t: Tid)
    requires Lists(loc, alist, vlist, batch) && t in batch && batch[t] == []
    ensures Lists(MoveAll(loc, vlist, InBatch(t)), alist, [], batch[t := vlist])
  {
    var loc', batch' := MoveAll(loc, vlist, InBatch(t)), batch[t := vlist];
    NoneInBatch(loc, batch, t);
    MovedHolds(vlist, loc, InVisited, InBatch(t));
    hide Holds;
    MovedOther(vlist, loc, InVisited, InBatch(t), alist, InAbandoned);
    MovedBatch(vlist, loc, InVisited, t, batch);
    hide MoveAll;
    forall x | x in loc'
      ensures (loc'[x].InBatch? ==> loc'[x].mover in batch') && (loc'[x].Owned? ==> loc'[x].owner in batch')
    {
      MovedPlace(loc, vlist, InBatch(t), x);
    }
  }

  lemma MovedPlace(loc: map<Seg, Place>, list: seq<Seg>, q: Place, x: Seg)
    requires x in MoveAll(loc, list, q)
    ensures x in loc && (MoveAll(loc, list, q)[x] == q || MoveAll(loc, list, q)[x] == loc[x])
  {}

  lemma NoneInBatch(loc: map<Seg, Place>, batch: map<Tid, seq<Seg>>, t: Tid)
    requires t in batch && batch[t] == [] && Holds(batch[t], loc, InBatch(t))
    ensures forall x | x in loc :: loc[x] != InBatch(t)
  {
    assert forall x :: x !in batch[t];
  }

  lemma MovedBatch(list: seq<Seg>, loc: map<Seg, Place>, p: Place, t: Tid, batch: map<Tid, seq<Seg>>)
    requires Holds(list, loc, p) && !p.InBatch? && forall u | u in batch :: Holds(batch[u], loc, InBatch(u))
    ensures forall u | u in batch && u != t :: Holds(batch[u], MoveAll(loc, list, InBatch(t)), InBatch(u))
  {
    hide Holds, MoveAll;
    forall u | u in batch && u != t ensures Holds(batch[u], MoveAll(loc, list, InBatch(t)), InBatch(u)) {
      MovedOther(list, loc, p, InBatch(t), batch[u], InBatch(u));
    }
  }

  lemma JoinedLists(loc: map<Seg, Place>, alist: seq<Seg>, vlist: seq<Seg>, batch: map<Tid, seq<Seg>>, t: Tid)
    requires Lists(loc, alist, vlist, batch) && t in batch
    ensures Lists(MoveAll(loc, batch[t], InAbandoned), batch[t] + alist, vlist, batch[t := []])
  {
    var loc', batch' := MoveAll(loc, batch[t], InAbandoned), batch[t := []];
    assert Holds(batch[t], loc, InBatch(t));
    MovedJoin(batch[t], loc, InBatch(t), InAbandoned, alist);
    MovedOther(batch[t], loc, InBatch(t), InAbandoned, vlist, InVisited);
    forall u | u in batch' ensures Holds(batch'[u], loc', InBatch(u)) {
      if u != t { MovedOther(batch[t], loc, InBatch(t), InAbandoned, batch[u], InBatch(u)); }
    }
    hide Holds;
  }

  // Moving segments between lists concerns no thread's own segments.
  lemma MovedRest(s: State, t: Tid, pc: Pc, list: seq<Seg>, p: Place, q: Place, ab': Tagged)
    requires Inv(s) && t in s.pcs && Holds(list, s.loc, p) && !p.Owned? && !p.Unmapped? && !q.Owned? && !q.Unmapped?
    requires (ab' == s.abandoned || ab'.tag == s.abandoned.tag + 1) && (pc.Idle? || pc.PopEnter? || pc.RvLook?)
    requires !InPop(s.pcs[t]) && forall y :: !Busy(s.pcs[t], y)
    ensures Pcs(s.pcs[t := pc], ab', s.next, MoveAll(s.loc, list, q))
      && SafeReads(s.pcs[t := pc], MoveAll(s.loc, list, q))
    ensures Clean(s.next, MoveAll(s.loc, list, q), s.pcs[t := pc]) && ReaderCount(s.readers, s.pcs[t := pc])
  {
    hide Inv, Lists, Chains, Batches, MoveAll, Holds, Pcs, SafeReads, Clean, ReaderCount, OwnersKept, Busy;
    InvParts(s);
    var loc' := MoveAll(s.loc, list, q);
    MovedPlaces(s.loc, list, p, q);
    MovedPcs(s.pcs, t, pc, s.abandoned, ab', s.next, s.loc, loc');
    MovedSafe(s.pcs, s.loc, loc', t, pc);
    MovedClean(s.next, s.loc, loc', s.pcs, t, pc);
    SameReaders(s.readers, s.pcs, t, pc);
  }

  lemma MovedPcs(pcs: map<Tid, Pc>, t: Tid, pc: Pc, ab: Tagged, ab': Tagged, next: map<Seg, Option<Seg>>,
                 loc: map<Seg, Place>, loc': map<Seg, Place>)
    requires Pcs(pcs, ab, next, loc) && t in pcs && OwnersKept(loc, loc') && (ab' == ab || ab'.tag == ab.tag + 1)
    requires pc.Idle? || pc.PopEnter? || pc.RvLook?
    ensures Pcs(pcs[t := pc], ab', next, loc')
  {
    hide Pcs;
    assert next.Keys == loc.Keys by { PcsKeys(pcs, ab, next, loc); }
    PcsStep(pcs, t, pc, ab, ab', next, next, loc, loc');
  }

  lemma PcsKeys(pcs: map<Tid, Pc>, ab: Tagged, next: map<Seg, Option<Seg>>, loc: map<Seg, Place>)
    requires Pcs(pcs, ab, next, loc)
    ensures next.Keys == loc.Keys
  {}

  ghost predicate OwnersKept(loc: map<Seg, Place>, loc': map<Seg, Place>) {
    && loc'.Keys == loc.Keys && (forall x | x in loc :: loc[x].Unmapped? <==> loc'[x].Unmapped?)
    && (forall x, u | x in loc :: loc[x] == Owned(u) <==> loc'[x] == Owned(u))
  }

  lemma MovedPlaces(loc: map<Seg, Place>, list: seq<Seg>, p: Place, q: Place)
    requires Holds(list, loc, p) && !p.Owned? && !p.Unmapped? && !q.Owned? && !q.Unmapped?
    ensures OwnersKept(loc, MoveAll(loc, list, q))
  {}

  lemma MovedSafe(pcs: map<Tid, Pc>, loc: map<Seg, Place>, loc': map<Seg, Place>, t: Tid, pc: Pc)
    requires SafeReads(pcs, loc) && OwnersKept(loc, loc') && t in pcs && (pc.Idle? || pc.PopEnter? || pc.RvLook?)
    ensures SafeReads(pcs[t := pc], loc')
  {
    var pcs' := pcs[t := pc];
    forall u, y | u in pcs' ensures SafeRead(pcs', loc', u, y) { assert SafeRead(pcs, loc, u, y); }
  }

  lemma MovedClean(next: map<Seg, Option<Seg>>, loc: map<Seg, Place>, loc': map<Seg, Place>, pcs: map<Tid, Pc>, t: Tid,
                   pc: Pc)
    requires Clean(next, loc, pcs) && OwnersKept(loc, loc') && t in pcs && forall y :: !Busy(pcs[t], y)
    ensures Clean(next, loc', pcs[t := pc])
  {
    forall x | x in loc' && loc'[x].Owned? ensures loc[x] == loc'[x] { assert loc'[x] == Owned(loc'[x].owner); }
  }

  lemma MovedBatches(next: map<Seg, Option<Seg>>, batch: map<Tid, seq<Seg>>, pcs: map<Tid, Pc>, t: Tid, pc: Pc,
                     list: seq<Seg>)
    requires Batches(next, batch, pcs) && t in pcs && BatchOk(next, list, pc)
    ensures Batches(next, batch[t := list], pcs[t := pc])
  {
    hide BatchOk;
    var batch', pcs' := batch[t := list], pcs[t := pc];
    forall u | u in pcs' ensures BatchOk(next, batch'[u], pcs'[u]) {
      if u != t { assert BatchOk(next, batch[u], pcs[u]); }
    }
  }

  lemma TakeDone(s: State, t: Tid)
    requires Inv(s) && t in s.pcs && s.pcs[t].RvTake? && s.visited.Some?
    ensures Inv(RevisitStep(s, t, false))
  {
    hide Lists, Chains, Batches, Pcs, SafeReads, Clean, ReaderCount, MoveAll, Holds, Chain;
    InvParts(s);
    var pc := RvLook(s.pcs[t].pop, s.visited.value);
    TakeFacts(s, t);
    MovedRest(s, t, pc, s.vlist, InVisited, InBatch(t), s.abandoned);
    TakenLists(s.loc, s.alist, s.vlist, s.batch, t);
    MovedBatches(s.next, s.batch, s.pcs, t, pc, s.vlist);
  }

  lemma TakeFacts(s: State, t: Tid)
    requires Inv(s) && t in s.pcs && s.pcs[t].RvTake? && s.visited.Some?
    ensures t in s.batch && s.batch[t] == [] && Holds(s.vlist, s.loc, InVisited)
    ensures s.vlist != [] && s.visited.value == s.vlist[0] && Chain(s.next, s.vlist, None)
    ensures Chains(s.next, s.abandoned, None, s.alist, [])
  {
    hide Pcs, SafeReads, Clean, ReaderCount, Holds;
  }

  lemma ChainJoin(next: map<Seg, Option<Seg>>, list: seq<Seg>, rest: seq<Seg>)
    requires Chain(next, list, Head(rest)) && Chain(next, rest, None)
    ensures Chain(next, list + rest, None)
  {
    var all := list + rest;
    forall i: nat | i < |all| ensures LinkAt(next, all, None, i) {
      if i < |list| { assert LinkAt(next, list, Head(rest), i); } else { assert LinkAt(next, rest, None, i - |list|); }
    }
  }

  // The detached list, its tail linked to the head of the abandoned list, becomes its front.
  lemma JoinDone(s: State, t: Tid, pop: bool, first: Seg, ts: Tagged)
    requires Inv(s) && t in s.pcs && (s.pcs[t].RvSwap? || s.pcs[t].RvCas?) && s.abandoned == ts
    requires s.batch[t] != [] && first == s.batch[t][0] && Chain(s.next, s.batch[t], ts.ptr)
    ensures Inv(Join(s, t, pop, first, ts))
  {
    hide Pcs, SafeReads, Clean, ReaderCount, MoveAll, Holds, Lists, Chain, Batches;
    HeadPlace(s);
    var list, pc := s.batch[t], Revisited(pop);
    BatchHolds(s, t);
    MovedRest(s, t, pc, list, InBatch(t), InAbandoned, Tagged(Some(first), ts.tag + 1));
    JoinedLists(s.loc, s.alist, s.vlist, s.batch, t);
    MovedBatches(s.next, s.batch, s.pcs, t, pc, []);
    ChainJoin(s.next, list, s.alist);
  }

  lemma BatchHolds(s: State, t: Tid)
    requires Inv(s) && t in s.batch
    ensures Holds(s.batch[t], s.loc, InBatch(t))
  {
    hide Holds, Chains, Batches, Pcs, SafeReads, Clean, ReaderCount;
  }

  lemma SwapDone(s: State, t: Tid)
    requires Inv(s) && t in s.pcs && ((s.pcs[t].RvSwap? || s.pcs[t].RvCas?) && s.abandoned == s.pcs[t].ts)
    ensures Inv(RevisitStep(s, t, false))
  {
    ThreadFacts(s, t);
    hide Inv, Join;
    match s.pcs[t]
    case RvSwap(pop, first, ts) => JoinDone(s, t, pop, first, ts);
    case RvCas(pop, first, _, ts) => JoinDone(s, t, pop, first, ts);
  }

  // Linking the tail of the detached list to the head of the abandoned list.
  lemma StoreInv(s: State, t: Tid)
    requires Inv(s) && t in s.pcs && s.pcs[t].RvStore?
    ensures Inv(RevisitStep(s, t, false))
  {
    var first, last, ts := s.pcs[t].first, s.pcs[t].last, s.pcs[t].ts;
    var pc := RvCas(s.pcs[t].pop, first, last, ts);
    ThreadFacts(s, t);
    HeadPlace(s);
    BatchHolds(s, t);
    assert last in s.batch[t];
    StoreChains(s, t, last, ts.ptr);
    StoreBatches(s, t, last, ts.ptr, pc);
    StorePcs(s, t, last, ts.ptr, pc);
    hide Lists, Chains, Batches, Pcs;
    SameReaders(s.readers, s.pcs, t, pc);
    SafeStep(s.pcs, s.loc, t, pc);
    hide SafeReads, ReaderCount, Clean;
  }

  lemma StoreChains(s: State, t: Tid, x: Seg, v: Option<Seg>)
    requires Inv(s) && t in s.batch && x in s.batch[t]
    ensures Chains(s.next[x := v], s.abandoned, s.visited, s.alist, s.vlist)
  {
    BatchHolds(s, t);
    hide Batches, Pcs, SafeReads, Clean, ReaderCount;
    ChainFrame(s.next, s.alist, None, x, v);
    ChainFrame(s.next, s.vlist, None, x, v);
  }

  lemma StoreBatches(s: State, t: Tid, x: Seg, v: Option<Seg>, pc: Pc)
    requires Inv(s) && t in s.pcs && pc.RvCas? && v == pc.ts.ptr
    requires s.batch.Keys == s.pcs.Keys && s.batch[t] != [] && pc.first == s.batch[t][0]
      && pc.last == x == s.batch[t][|s.batch[t]| - 1]
    requires x in s.next && Chain(s.next, s.batch[t], s.next[x])
    ensures Batches(s.next[x := v], s.batch, s.pcs[t := pc])
  {
    hide Inv, Chain;
    BatchHolds(s, t);
    var next', pcs' := s.next[x := v], s.pcs[t := pc];
    assert x in s.batch[t] && s.loc[x] == InBatch(t);
    RelinkTail(s.next, s.batch[t], v);
    hide Holds;
    assert BatchOk(next', s.batch[t], pc);
    hide BatchOk;
    forall u | u in pcs' ensures BatchOk(next', s.batch[u], pcs'[u]) {
      if u != t { StoreOther(s, t, x, v, u); }
    }
  }

  lemma StoreOther(s: State, t: Tid, x: Seg, v: Option<Seg>, u: Tid)
    requires Inv(s) && t in s.pcs && x in s.loc && s.loc[x] == InBatch(t) && u in s.pcs && u != t
    ensures u in s.batch && BatchOk(s.next[x := v], s.batch[u], s.pcs[u])
  {
    ThreadFacts(s, u);
    BatchHolds(s, u);
    hide Inv, BatchOk;
    BatchFrame(s.next, s.batch[u], s.pcs[u], x, v);
  }

  lemma RelinkTail(next: map<Seg, Option<Seg>>, list: seq<Seg>, v: Option<Seg>)
    requires NoDup(list) && list != [] && list[|list| - 1] in next && Chain(next, list, next[list[|list| - 1]])
    ensures Chain(next[list[|list| - 1] := v], list, v)
  {
    var next' := next[list[|list| - 1] := v];
    forall i: nat | i < |list| ensures LinkAt(next', list, v, i) {
      assert LinkAt(next, list, next[list[|list| - 1]], i);
    }
  }

  lemma StorePcs(s: State, t: Tid, x: Seg, v: Option<Seg>, pc: Pc)
    requires Inv(s) && t in s.pcs && x in s.loc && s.loc[x] == InBatch(t)
      && PcOk(t, pc, s.abandoned, s.next[x := v], s.loc)
    requires forall y :: !Busy(s.pcs[t], y)
    ensures Pcs(s.pcs[t := pc], s.abandoned, s.next[x := v], s.loc) && Clean(s.next[x := v], s.loc, s.pcs[t := pc])
  {
    HeadPlace(s);
    hide Lists, Chains, Batches, SafeReads, ReaderCount, Pcs, PcOk;
    assert s.next[x := v].Keys == s.loc.Keys;
    PcsStep(s.pcs, t, pc, s.abandoned, s.abandoned, s.next, s.next[x := v], s.loc, s.loc);
  }

  // ---- memory comes and goes

  lemma AwaitInv(s: State, t: Tid)
    requires Inv(s) && t in s.pcs && s.pcs[t].Await?
    ensures Inv(AwaitStep(s, t))
  {
    if s.readers == 0 {
      var pc := Awaited(s.pcs[t].seg);
      SafeAwaited(s, t, s.pcs[t].seg);
      AwaitFacts(s, t, pc);
      hide *;
      hide Inv;
      PcStep(s, t, pc);
    }
  }

  lemma AwaitFacts(s: State, t: Tid, pc: Pc)
    requires Inv(s) && t in s.pcs && s.pcs[t].Await? && s.readers == 0 && pc == Awaited(s.pcs[t].seg)
    ensures PcOk(t, pc, s.abandoned, s.next, s.loc) && t in s.batch && BatchOk(s.next, s.batch[t], pc)
    ensures InPop(pc) == InPop(s.pcs[t]) && forall x :: !Busy(s.pcs[t], x)
    ensures AwaitStep(s, t) == s.(pcs := s.pcs[t := pc])
  {
    ThreadFacts(s, t);
    hide Lists, Chains, ReaderCount, Clean, Batches, Pcs, SafeReads;
  }

  lemma UnmapInv(s: State, t: Tid)
    requires Inv(s) && t in s.pcs && s.pcs[t].Awaited?
    ensures Inv(AwaitStep(s, t))
  {
    hide Lists, Chains, Batches, Pcs, SafeReads, Clean, ReaderCount;
    InvParts(s);
    var x := s.pcs[t].seg;
    ThreadFacts(s, t);
    HeadPlace(s);
    PlacedLists(s.loc, s.alist, s.vlist, s.batch, x, Unmapped);
    GiveUpPcs(s, t, x, Unmapped, s.abandoned);
    UnmapSafe(s.pcs, s.loc, t, x);
    CleanPlace(s.next, s.loc, s.pcs, t, x, Unmapped);
    OtherBatches(s.next, s.batch, s.pcs, t, Idle);
    SameReaders(s.readers, s.pcs, t, Idle);
  }

  lemma UnmapSafe(pcs: map<Tid, Pc>, loc: map<Seg, Place>, t: Tid, x: Seg)
    requires SafeReads(pcs, loc) && t in pcs && pcs[t] == Awaited(x)
    ensures SafeReads(pcs[t := Idle], loc[x := Unmapped])
  {
    var loc', pcs' := loc[x := Unmapped], pcs[t := Idle];
    forall u, y | u in pcs' ensures SafeRead(pcs', loc', u, y) { assert SafeRead(pcs, loc, u, y); }
  }

  lemma PlacedLists(loc: map<Seg, Place>, alist: seq<Seg>, vlist: seq<Seg>, batch: map<Tid, seq<Seg>>, x: Seg, q: Place)
    requires Lists(loc, alist, vlist, batch) && x in loc && (loc[x].Owned? || loc[x].Unmapped?)
    requires q.Unmapped? || (q.Owned? && q.owner in batch)
    ensures Lists(loc[x := q], alist, vlist, batch)
  {
    hide Holds;
    HoldsSame(alist, loc, InAbandoned, x, q);
    HoldsSame(vlist, loc, InVisited, x, q);
    forall u | u in batch
      ensures Holds(batch[u], loc[x := q], InBatch(u))
    {
      HoldsSame(batch[u], loc, InBatch(u), x, q);
    }
  }

  lemma MapInv(s: State, t: Tid, x: Seg)
    requires Inv(s) && t in s.pcs && s.pcs[t].Idle? && x in s.loc && s.loc[x].Unmapped?
    ensures Inv(s.(loc := s.loc[x := Owned(t)], next := s.next[x := None]))
  {
    hide Lists, Chains, Batches, Pcs, SafeReads, Clean, ReaderCount;
    InvParts(s);
    HeadPlace(s);
    PlacedLists(s.loc, s.alist, s.vlist, s.batch, x, Owned(t));
    FreshChains(s, x);
    FreshPcs(s, t, x);
    FreshSafe(s.pcs, s.loc, t, x);
    FreshClean(s.next, s.loc, s.pcs, t, x);
  }

  lemma FreshSafe(pcs: map<Tid, Pc>, loc: map<Seg, Place>, t: Tid, x: Seg)
    requires SafeReads(pcs, loc) && x in loc
    ensures SafeReads(pcs, loc[x := Owned(t)])
  {
    var loc' := loc[x := Owned(t)];
    forall u, y | u in pcs ensures SafeRead(pcs, loc', u, y) { assert SafeRead(pcs, loc, u, y); }
  }

  lemma FreshClean(next: map<Seg, Option<Seg>>, loc: map<Seg, Place>, pcs: map<Tid, Pc>, t: Tid, x: Seg)
    requires Clean(next, loc, pcs)
    ensures Clean(next[x := None], loc[x := Owned(t)], pcs)
  {}

  lemma FreshChains(s: State, x: Seg)
    requires Inv(s) && x in s.loc && s.loc[x].Unmapped?
    ensures Chains(s.next[x := None], s.abandoned, s.visited, s.alist, s.vlist)
      && Batches(s.next[x := None], s.batch, s.pcs)
  {
    hide Pcs, SafeReads, Clean, ReaderCount;
    ChainFrame(s.next, s.alist, None, x, None);
    ChainFrame(s.next, s.vlist, None, x, None);
    forall u | u in s.pcs ensures BatchOk(s.next[x := None], s.batch[u], s.pcs[u]) {
      assert BatchOk(s.next, s.batch[u], s.pcs[u]) && x !in s.batch[u];
      BatchFrame(s.next, s.batch[u], s.pcs[u], x, None);
    }
  }

  lemma FreshPcs(s: State, t: Tid, x: Seg)
    requires Inv(s) && t in s.pcs && s.pcs[t].Idle? && x in s.loc && s.loc[x].Unmapped?
    ensures Pcs(s.pcs, s.abandoned, s.next[x := None], s.loc[x := Owned(t)])
  {
    hide Inv, Pcs;
    InvParts(s);
    HeadPlace(s);
    assert s.next[x := None].Keys == s.loc[x := Owned(t)].Keys && s.pcs[t := Idle] == s.pcs;
    PcsStep(s.pcs, t, Idle, s.abandoned, s.abandoned, s.next, s.next[x := None], s.loc, s.loc[x := Owned(t)]);
  }

  lemma PassInv(s: State, t: Tid, x: Seg, u: Tid)
    requires Inv(s) && t in s.pcs && s.pcs[t].Idle? && Mine(s.loc, t, x) && u in s.pcs
    ensures Inv(s.(loc := s.loc[x := Owned(u)]))
  {
    hide Lists, Chains, Batches, Pcs, SafeReads, Clean, ReaderCount;
    InvParts(s);
    HeadPlace(s);
    PlacedLists(s.loc, s.alist, s.vlist, s.batch, x, Owned(u));
    PassPcs(s, t, x, u);
    FreshSafe(s.pcs, s.loc, u, x);
    PassClean(s.next, s.loc, s.pcs, t, x, u);
  }

  lemma PassClean(next: map<Seg, Option<Seg>>, loc: map<Seg, Place>, pcs: map<Tid, Pc>, t: Tid, x: Seg, u: Tid)
    requires Clean(next, loc, pcs) && Mine(loc, t, x) && t in pcs && pcs[t].Idle? && x in next
    ensures Clean(next, loc[x := Owned(u)], pcs)
  {
    assert next[x].None?;
  }

  lemma PassPcs(s: State, t: Tid, x: Seg, u: Tid)
    requires Inv(s) && t in s.pcs && s.pcs[t].Idle? && Mine(s.loc, t, x) && u in s.pcs
    ensures Pcs(s.pcs, s.abandoned, s.next, s.loc[x := Owned(u)])
  {
    hide Inv, Pcs;
    InvParts(s);
    HeadPlace(s);
    assert s.next.Keys == s.loc[x := Owned(u)].Keys && s.pcs[t := Idle] == s.pcs;
    PcsStep(s.pcs, t, Idle, s.abandoned, s.abandoned, s.next, s.next, s.loc, s.loc[x := Owned(u)]);
  }

  // ---- every step, every run

  lemma StepInv(s: State, t: Tid, a: Act)
    requires Inv(s) && t in s.pcs
    ensures Inv(Step(s, t, a))
  {
    hide Inv, StartStep, PushStep, PopStep, RevisitStep, AwaitStep;
    var fails := a.Spurious?;
    match s.pcs[t]
    case Idle => IdleInv(s, t, a);
    case PushStore(_, _) => PushInv(s, t, fails);
    case PushCas(_, ts) => PushCasInv(s, t, fails);
    case VisitStore(_, _) => PushInv(s, t, fails);
    case VisitCas(_, _) => PushCasInv(s, t, fails);
    case Await(_) => AwaitInv(s, t);
    case Awaited(_) => UnmapInv(s, t);
    case PopLook => PopAnyInv(s, t, fails);
    case PopEnter => PopAnyInv(s, t, fails);
    case PopLoad => PopAnyInv(s, t, fails);
    case PopRead(_) => PopAnyInv(s, t, fails);
    case PopCas(_, _) => PopAnyInv(s, t, fails);
    case PopLeave(_) => PopAnyInv(s, t, fails);
    case PopClear(_) => PopAnyInv(s, t, fails);
    case _ => RevisitAnyInv(s, t, fails);
  }

  lemma IdleInv(s: State, t: Tid, a: Act)
    requires Inv(s) && t in s.pcs && s.pcs[t].Idle?
    ensures Inv(StartStep(s, t, a))
  {
    hide Inv;
    match a
    case Map(x) => if x in s.loc && s.loc[x].Unmapped? { MapInv(s, t, x); }
    case Pass(x, u) => if Owns(s, t, x) && u in s.pcs { PassInv(s, t, x, u); }
    case _ => StartInv(s, t, a);
  }

  lemma PushCasInv(s: State, t: Tid, fails: bool)
    requires Inv(s) && t in s.pcs && (s.pcs[t].PushCas? || s.pcs[t].VisitCas?)
    ensures Inv(PushStep(s, t, fails))
  {
    hide Inv, PushStep;
    match s.pcs[t]
    case PushCas(_, ts) => if s.abandoned == ts && !fails { PushDone(s, t); } else { PushInv(s, t, fails); }
    case VisitCas(_, a) => if s.visited == a && !fails { VisitDone(s, t); } else { PushInv(s, t, fails); }
  }

  lemma PopAnyInv(s: State, t: Tid, fails: bool)
    requires Inv(s) && t in s.pcs
    requires s.pcs[t].PopLook? || s.pcs[t].PopEnter? || s.pcs[t].PopLoad? || s.pcs[t].PopRead? || s.pcs[t].PopCas?
      || s.pcs[t].PopLeave? || s.pcs[t].PopClear?
    ensures Inv(PopStep(s, t, fails))
  {
    hide Inv;
    assert !s.pcs[t].PopCas? ==> PopStep(s, t, fails) == PopStep(s, t, false);
    hide PopStep;
    match s.pcs[t]
    case PopLook => LookInv(s, t);
    case PopEnter => EnterInv(s, t);
    case PopCas(ts, _) => if s.abandoned == ts && !fails { PopDone(s, t); } else { PopInv(s, t, fails); }
    case PopLeave(_) => LeaveInv(s, t);
    case PopClear(_) => ClearInv(s, t);
    case _ => PopInv(s, t, fails);
  }

  lemma RevisitAnyInv(s: State, t: Tid, fails: bool)
    requires Inv(s) && t in s.pcs
    requires s.pcs[t].RvTake? || s.pcs[t].RvLook? || s.pcs[t].RvSwap? || s.pcs[t].RvTail? || s.pcs[t].RvLoad?
      || s.pcs[t].RvStore? || s.pcs[t].RvCas?
    ensures Inv(RevisitStep(s, t, fails))
  {
    hide Inv, Join, MoveAll;
    assert !s.pcs[t].RvCas? ==> RevisitStep(s, t, fails) == RevisitStep(s, t, false);
    hide RevisitStep;
    match s.pcs[t]
    case RvTake(_) => if s.visited.Some? { TakeDone(s, t); } else { RevisitInv(s, t, fails); }
    case RvSwap(_, _, ts) => if s.abandoned == ts { SwapDone(s, t); } else { RevisitInv(s, t, fails); }
    case RvStore(_, _, _, _) => StoreInv(s, t);
    case RvCas(_, _, _, ts) => if s.abandoned == ts && !fails { SwapDone(s, t); } else { RevisitInv(s, t, fails); }
    case _ => RevisitInv(s, t, fails);
  }

  lemma {:induction false} RunInv(s: State, steps: Schedule)
    requires Init(s)
    ensures Inv(Run(s, steps))
    decreases |steps|
  {
    hide Inv, Step;
    if steps == [] {
      InitInv(s);
    } else {
      RunInv(s, steps[..|steps| - 1]);
      var before := Run(s, steps[..|steps| - 1]);
      var (t, a) := steps[|steps| - 1];
      if t in before.pcs { StepInv(before, t, a); }
    }
  }

  // No step makes a segment known or forgets one.
  lemma StepKeys(s: State, t: Tid, a: Act)
    requires Inv(s) && t in s.pcs
    ensures Step(s, t, a).loc.Keys == s.loc.Keys
  {
    ThreadFacts(s, t);
    HeadPlace(s);
    hide Inv, StartStep, PushStep, PopStep, RevisitStep, AwaitStep;
    StartKeys(s, t, a);
    ClaimKeys(s, t, a.Spurious?);
    RevisitKeys(s, t, a.Spurious?);
  }

  lemma StartKeys(s: State, t: Tid, a: Act)
    requires t in s.pcs
    ensures StartStep(s, t, a).loc.Keys == s.loc.Keys
  {
    match a
    case Map(x) =>
    case Pass(x, u) =>
    case _ => assert StartStep(s, t, a).loc == s.loc;
  }

  lemma ClaimKeys(s: State, t: Tid, fails: bool)
    requires t in s.pcs && PcOk(t, s.pcs[t], s.abandoned, s.next, s.loc)
    requires s.abandoned.ptr.Some? ==> s.abandoned.ptr.value in s.loc
    ensures PushStep(s, t, fails).loc.Keys == s.loc.Keys && PopStep(s, t, fails).loc.Keys == s.loc.Keys
    ensures AwaitStep(s, t).loc.Keys == s.loc.Keys
  {
    match s.pcs[t]
    case PushCas(_, _) =>
    case VisitCas(_, _) =>
    case PopCas(_, _) =>
    case Awaited(_) =>
    case _ =>
  }

  lemma RevisitKeys(s: State, t: Tid, fails: bool)
    requires t in s.pcs
    ensures RevisitStep(s, t, fails).loc.Keys == s.loc.Keys
  {
    hide MoveAll;
    MovedKeys(s.loc, s.vlist, InBatch(t));
    MovedKeys(s.loc, if t in s.batch then s.batch[t] else [], InAbandoned);
  }

  lemma MovedKeys(loc: map<Seg, Place>, moved: seq<Seg>, p: Place)
    ensures MoveAll(loc, moved, p).Keys == loc.Keys
  {}

  lemma {:induction false} RunKeys(s: State, steps: Schedule)
    requires Init(s)
    ensures Run(s, steps).loc.Keys == s.loc.Keys
    decreases |steps|
  {
    hide Inv, Step;
    if steps != [] {
      var before := Run(s, steps[..|steps| - 1]);
      RunKeys(s, steps[..|steps| - 1]);
      RunInv(s, steps[..|steps| - 1]);
      var (t, a) := steps[|steps| - 1];
      if t in before.pcs { StepKeys(before, t, a); }
    }
  }

  // ---- what the invariant says

  // Follow `next` n times.
  ghost function Follow(next: map<Seg, Option<Seg>>, p: Option<Seg>, n: nat): Option<Seg>
    decreases n
  {
    if n == 0 || p.None? || p.value !in next then p else Follow(next, next[p.value], n - 1)
  }

  lemma {:induction false} FollowChain(next: map<Seg, Option<Seg>>, list: seq<Seg>, n: nat)
    requires Chain(next, list, None) && n <= |list|
    ensures Follow(next, Head(list), n) == if n < |list| then Some(list[n]) else None
    decreases n
  {
    if n > 0 {
      ChainTail(next, list);
      FollowChain(next, list[1..], n - 1);
    }
  }

  // In every reachable state each segment is in one place only: on the abandoned list, on the visited
  // list, on the list one thread has detached, owned by one thread, or unmapped; it occurs once on its
  // list; and both lists are finite, the k-th segment being k links from the head. None is lost.
  lemma OnePlace(s: State, steps: Schedule, r: State, x: Seg)
    requires Init(s) && r == Run(s, steps) && x in s.loc
    ensures r.loc.Keys == s.loc.Keys
    ensures x in r.alist <==> r.loc[x] == InAbandoned
    ensures x in r.vlist <==> r.loc[x] == InVisited
    ensures forall t | t in r.batch :: x in r.batch[t] <==> r.loc[x] == InBatch(t)
    ensures NoDup(r.alist) && NoDup(r.vlist) && forall t | t in r.batch :: NoDup(r.batch[t])
    ensures forall k: nat | k <= |r.alist| ::
      Follow(r.next, r.abandoned.ptr, k) == if k < |r.alist| then Some(r.alist[k]) else None
    ensures forall k: nat | k <= |r.vlist| ::
      Follow(r.next, r.visited, k) == if k < |r.vlist| then Some(r.vlist[k]) else None
  {
    RunInv(s, steps);
    RunKeys(s, steps);
    hide Batches, Pcs, ReaderCount, SafeReads, Clean, Run;
    forall k: nat | k <= |r.alist|
      ensures Follow(r.next, r.abandoned.ptr, k) == if k < |r.alist| then Some(r.alist[k]) else None
    {
      FollowChain(r.next, r.alist, k);
    }
    forall k: nat | k <= |r.vlist|
      ensures Follow(r.next, r.visited, k) == if k < |r.vlist| then Some(r.vlist[k]) else None
    {
      FollowChain(r.next, r.vlist, k);
    }
  }

  // A thread about to read a link reads mapped memory, and once a thread has seen no readers for a
  // segment it removed, nobody can still read that segment's link.
  lemma ReadersSafe(s: State, steps: Schedule, r: State, u: Tid, x: Seg)
    requires Init(s) && r == Run(s, steps) && u in r.pcs && Reads(r.pcs[u], x)
    ensures x in r.loc && !r.loc[x].Unmapped? && forall t | t in r.pcs :: r.pcs[t] != Awaited(x)
  {
    RunInv(s, steps);
    ReadMapped(r, u, x);
  }

  // A successful pop takes the first segment and leaves the rest, whatever happened since it looked.
  lemma PopTakesFirst(s: State, steps: Schedule, r: State, t: Tid)
    requires Init(s) && r == Run(s, steps) && t in r.pcs && r.pcs[t].PopCas? && r.abandoned == r.pcs[t].ts
    ensures r.alist != []
    ensures var r' := Step(r, t, Go);
      r'.pcs[t] == PopLeave(Some(r.alist[0])) && r'.alist == r.alist[1..] && r'.abandoned.ptr == Head(r.alist[1..])
  {
    hide Run, Inv;
    RunInv(s, steps);
    PopFacts(r, t);
  }

  lemma PopFacts(r: State, t: Tid)
    requires Inv(r) && t in r.pcs && r.pcs[t].PopCas? && r.abandoned == r.pcs[t].ts
    ensures r.alist != [] && r.pcs[t].ts.ptr == Some(r.alist[0]) && r.pcs[t].anext == Head(r.alist[1..])
  {
    hide Lists, Batches, BatchOk, Pcs, ReaderCount, SafeReads, Clean;
    ThreadFacts(r, t);
    HeadPlace(r);
    ChainTail(r.next, r.alist);
  }

  // A segment is pushed with a null link, as the code asserts.
  lemma PushedClean(s: State, steps: Schedule, t: Tid, x: Seg)
    requires var r := Run(s, steps); Init(s) && t in r.pcs && r.pcs[t].Idle? && Owns(r, t, x)
    ensures x in Run(s, steps).next && Run(s, steps).next[x].None?
  {
    RunInv(s, steps);
    HeadPlace(Run(s, steps));
    hide Run, Lists, Chains, Batches, Pcs, ReaderCount, SafeReads;
  }
}
