// The inductive invariant of the cross-thread free protocol, step by step.
module ThreadFreeInv {
  import opened Base
  import opened ThreadFree

  type Pages = map<nat, Page>
  type Freers = map<Tid, Freer>
  type Owners = map<Tid, Owner>
  type Loc = map<Block, Place>

  predicate At(loc: Loc, b: Block, pl: Place) { b in loc && loc[b] == pl }

  // On the delayed path, and its owner has not yet reset the flag of its page for it.
  predicate Pending(owners: Owners, loc: Loc, b: Block) {
    && b in loc
    && match loc[b]
       case OnDelayed(h) => true
       case Drained(t) => var o := OwnerAt(owners, t); !(o.past && o.walk != [] && o.walk[0] == b)
       case _ => false
  }

  predicate InDelayed(f: Freer) {
    f.Claimed? || f.HeapRead? || f.ListRead? || f.Pushed? || f.ResetLoaded?
  }

  function InHand(f: Freer): Option<Block> {
    if f.Start? || f.Loaded? || f.Claimed? || f.HeapRead? || f.ListRead? then Some(f.block) else None
  }

  function DetachedList(o: Owner): seq<Block> { if o.op.Append? then o.op.list else [] }

  // ---- the blocks and their places

  ghost predicate Domain(pages: Pages, loc: Loc) {
    forall b :: b in loc <==> b.page in pages && b.idx < pages[b.page].capacity
  }

  ghost predicate PageLists(pages: Pages, loc: Loc) {
    forall p | p in pages :: PageListsOf(loc, p, pages[p])
  }

  ghost predicate PageListsOf(loc: Loc, p: nat, pg: Page) {
    && NoDup(pg.free) && NoDup(pg.localFree) && NoDup(pg.threadFree)
    && (forall b :: b in pg.free <==> b.page == p && At(loc, b, InFree))
    && (forall b :: b in pg.localFree <==> b.page == p && At(loc, b, InLocal))
    && (forall b :: b in pg.threadFree <==> b.page == p && At(loc, b, InThread))
    && pg.used + |pg.free| + |pg.localFree| == pg.capacity
  }

  ghost predicate OwnerLists(owners: Owners, loc: Loc) {
    forall t: Tid :: OwnerListsOf(loc, t, OwnerAt(owners, t))
  }

  ghost predicate OwnerListsOf(loc: Loc, t: Tid, o: Owner) {
    && NoDup(o.delayed) && NoDup(o.walk) && NoDup(DetachedList(o))
    && (forall b :: b in o.delayed <==> At(loc, b, OnDelayed(t)))
    && (forall b :: b in o.walk <==> At(loc, b, Drained(t)))
    && (forall b :: b in DetachedList(o) <==> At(loc, b, Detached(t)))
  }

  ghost predicate Hands(freers: Freers, loc: Loc) {
    forall t: Tid, b :: InHand(FreerAt(freers, t)) == Some(b) <==> At(loc, b, Hand(t))
  }

  // ---- the flag

  ghost predicate Heaps(pages: Pages) {
    forall p | p in pages ::
      match pages[p].heap
      case None => pages[p].flag == NeverDelayed
      case Some(h) => pages[p].owner == Some(h)
  }

  ghost predicate DelayedThreads(freers: Freers, pages: Pages, owners: Owners, loc: Loc) {
    && (forall t: Tid | InDelayed(FreerAt(freers, t)) :: DelayedThread(FreerAt(freers, t), pages, owners, loc))
    && (forall t: Tid, u: Tid | InDelayed(FreerAt(freers, t)) && InDelayed(FreerAt(freers, u))
            && FreerAt(freers, t).block.page == FreerAt(freers, u).block.page :: t == u)
    && (forall p | p in pages && pages[p].flag == DelayedFreeing :: SomeDelayed(freers, p))
  }

  ghost predicate SomeDelayed(freers: Freers, p: nat) {
    exists t: Tid :: InDelayed(FreerAt(freers, t)) && FreerAt(freers, t).block.page == p
  }

  ghost predicate DelayedThread(f: Freer, pages: Pages, owners: Owners, loc: Loc)
    requires InDelayed(f)
  {
    var p := f.block.page;
    && p in pages && pages[p].flag == DelayedFreeing && pages[p].heap.Some?
    && (f.HeapRead? ==> f.h == pages[p].heap)
    && (f.ListRead? ==> Some(f.heap) == pages[p].heap)
    && (f.Pushed? || f.ResetLoaded? ==> Pending(owners, loc, f.block))
  }

  ghost predicate PendingInv(pages: Pages, owners: Owners, loc: Loc) {
    && (forall b | b in loc && loc[b].OnDelayed? :: Owned(pages, loc[b].h, b.page))
    && (forall b | b in loc && loc[b].Drained? :: Owned(pages, loc[b].t, b.page))
    && (forall p | p in pages && pages[p].flag == NoDelayed :: SomePending(owners, loc, p))
  }

  ghost predicate SomePending(owners: Owners, loc: Loc, p: nat) {
    exists b: Block :: b.page == p && Pending(owners, loc, b)
  }

  // ---- the owners

  ghost predicate OwnersInv(pages: Pages, owners: Owners) {
    forall t: Tid :: OpInv(pages, t, OwnerAt(owners, t)) && PhaseInv(pages, t, OwnerAt(owners, t))
  }

  ghost predicate OpInv(pages: Pages, t: Tid, o: Owner) {
    && (o.past ==> o.walk != [])
    && match o.op
       case NoOp => true
       case Take(d) => o.walk == [] && (o.phase == Running || o.phase == Draining(false))
       case SetFlag(p, to, ovr) => FlagOp(pages, t, o, p, to, ovr)
       case SetFlagLoaded(p, to, ovr, w) =>
         FlagOp(pages, t, o, p, to, ovr) && w.flag != DelayedFreeing && (ovr || w.flag != NeverDelayed)
       case Collect(p, w) => p in pages && pages[p].owner == Some(t) && (o.walk == [] || o.past)
       case Append(p, list) =>
         && p in pages && pages[p].owner == Some(t) && (o.walk == [] || o.past)
         && list != [] && forall b | b in list :: b.page == p
  }

  ghost predicate FlagOp(pages: Pages, t: Tid, o: Owner, p: nat, to: Flag, ovr: bool) {
    && Owned(pages, t, p)
    && if o.walk != [] then !o.past && p == o.walk[0].page && to == UseDelayed && !ovr
       else if o.phase.Marking? then to == NeverDelayed && !ovr
       else o.phase == Running && to == UseDelayed && ovr
  }

  ghost predicate PhaseInv(pages: Pages, t: Tid, o: Owner) {
    match o.phase
    case Running => true
    case Marking(m) => o.walk == [] && forall p | p in m :: Owned(pages, t, p) && pages[p].flag == NeverDelayed
    case Draining(taken) => AllNever(pages, t) && (if taken then o.delayed == [] else o.walk == [])
    case Abandoning => AllNever(pages, t) && o.delayed == [] && o.walk == []
  }

  ghost predicate AllNever(pages: Pages, t: Tid) {
    forall p | Owned(pages, t, p) :: pages[p].flag == NeverDelayed
  }

  ghost predicate Inv(s: State) {
    && Domain(s.pages, s.loc) && PageLists(s.pages, s.loc) && OwnerLists(s.owners, s.loc) && Hands(s.freers, s.loc)
    && Heaps(s.pages) && DelayedThreads(s.freers, s.pages, s.owners, s.loc)
    && PendingInv(s.pages, s.owners, s.loc) && OwnersInv(s.pages, s.owners)
  }


  // ---- frames: what a small change of one component keeps

  predicate OwnerPlace(pl: Place) { pl.OnDelayed? || pl.Drained? || pl.Detached? }

  // Same blocks of kind k at the same places.
  ghost predicate SameAt(loc: Loc, loc': Loc, k: Place -> bool) {
    forall b: Block ::
      (b in loc && k(loc[b])) || (b in loc' && k(loc'[b])) ==> b in loc && b in loc' && loc[b] == loc'[b]
  }

  lemma OwnerListsFrame(owners: Owners, loc: Loc, loc': Loc)
    requires OwnerLists(owners, loc) && SameAt(loc, loc', OwnerPlace)
    ensures OwnerLists(owners, loc')
  {
    forall t: Tid ensures OwnerListsOf(loc', t, OwnerAt(owners, t)) {
      assert OwnerListsOf(loc, t, OwnerAt(owners, t));
    }
  }

  lemma HandsFrame(freers: Freers, loc: Loc, loc': Loc)
    requires Hands(freers, loc) && SameAt(loc, loc', (pl: Place) => pl.Hand?)
    ensures Hands(freers, loc')
  {
    forall t: Tid, b ensures InHand(FreerAt(freers, t)) == Some(b) <==> At(loc', b, Hand(t)) {
      assert At(loc, b, Hand(t)) <==> At(loc', b, Hand(t));
    }
  }

  lemma PageListsUpdate(pages: Pages, loc: Loc, p: nat, pg: Page, loc': Loc)
    requires PageLists(pages, loc) && PageListsOf(loc', p, pg)
    requires forall b: Block | b.page != p :: (b in loc <==> b in loc') && (b in loc ==> loc[b] == loc'[b])
    ensures PageLists(pages[p := pg], loc')
  {
    forall q | q in pages && q != p ensures PageListsOf(loc', q, pages[q]) {
      assert PageListsOf(loc, q, pages[q]);
    }
  }

  lemma HandsFreer(freers: Freers, loc: Loc, t: Tid, f: Freer)
    requires Hands(freers, loc) && InHand(f) == InHand(FreerAt(freers, t))
    ensures Hands(freers[t := f], loc)
  {}

  lemma HandsTake(freers: Freers, loc: Loc, t: Tid, f: Freer, b: Block)
    requires Hands(freers, loc) && InHand(f) == Some(b) && InHand(FreerAt(freers, t)) == None
    requires b in loc && !loc[b].Hand?
    ensures Hands(freers[t := f], loc[b := Hand(t)])
  {}

  lemma HandsDrop(freers: Freers, loc: Loc, t: Tid, f: Freer, b: Block, pl: Place)
    requires Hands(freers, loc) && InHand(f) == None && InHand(FreerAt(freers, t)) == Some(b)
    requires !pl.Hand?
    ensures Hands(freers[t := f], loc[b := pl])
  {}

  // The flag, the heap and the owner of a page: what remote threads depend on.
  predicate SameControl(pg: Page, pg': Page) {
    pg.flag == pg'.flag && pg.heap == pg'.heap && pg.owner == pg'.owner
  }

  lemma ControlFrame(freers: Freers, pages: Pages, owners: Owners, loc: Loc, p: nat, pg: Page)
    requires p in pages && SameControl(pages[p], pg)
    requires Heaps(pages) && DelayedThreads(freers, pages, owners, loc)
    requires PendingInv(pages, owners, loc) && OwnersInv(pages, owners)
    ensures var pages' := pages[p := pg];
      && Heaps(pages') && DelayedThreads(freers, pages', owners, loc)
      && PendingInv(pages', owners, loc) && OwnersInv(pages', owners)
  {
    var pages' := pages[p := pg];
    assert forall t: Tid, q :: Owned(pages', t, q) <==> Owned(pages, t, q);
    forall t: Tid ensures OpInv(pages', t, OwnerAt(owners, t)) && PhaseInv(pages', t, OwnerAt(owners, t)) {
      assert OpInv(pages, t, OwnerAt(owners, t)) && PhaseInv(pages, t, OwnerAt(owners, t));
    }
  }

  // No block leaves the delayed path whose page still counts on it.
  ghost predicate MorePending(pages: Pages, owners: Owners, loc: Loc, owners': Owners, loc': Loc) {
    forall b | Pending(owners, loc, b) && b.page in pages
      && (pages[b.page].flag == DelayedFreeing || pages[b.page].flag == NoDelayed) :: Pending(owners', loc', b)
  }

  lemma DelayedMono(freers: Freers, pages: Pages, owners: Owners, loc: Loc, owners': Owners, loc': Loc)
    requires DelayedThreads(freers, pages, owners, loc) && MorePending(pages, owners, loc, owners', loc')
    ensures DelayedThreads(freers, pages, owners', loc')
  {}

  // The places a pending block can have, and whose page it then is.
  ghost predicate DelayedOwned(pages: Pages, loc: Loc) {
    && (forall b | b in loc && loc[b].OnDelayed? :: Owned(pages, loc[b].h, b.page))
    && (forall b | b in loc && loc[b].Drained? :: Owned(pages, loc[b].t, b.page))
  }

  lemma PendingMono(pages: Pages, owners: Owners, loc: Loc, owners': Owners, loc': Loc)
    requires PendingInv(pages, owners, loc) && MorePending(pages, owners, loc, owners', loc')
      && DelayedOwned(pages, loc')
    ensures PendingInv(pages, owners', loc')
  {
    forall p | p in pages && pages[p].flag == NoDelayed ensures SomePending(owners', loc', p) {
      var c: Block :| c.page == p && Pending(owners, loc, c);
      assert Pending(owners', loc', c);
    }
  }

  // A thread outside the delayed phase changes its state and stays outside.
  lemma DelayedOutside(freers: Freers, pages: Pages, owners: Owners, loc: Loc, t: Tid, f: Freer)
    requires DelayedThreads(freers, pages, owners, loc)
    requires !InDelayed(f) && !InDelayed(FreerAt(freers, t))
    ensures DelayedThreads(freers[t := f], pages, owners, loc)
  {
    var freers' := freers[t := f];
    assert forall u: Tid | InDelayed(FreerAt(freers', u)) :: FreerAt(freers', u) == FreerAt(freers, u);
    forall p | p in pages && pages[p].flag == DelayedFreeing ensures SomeDelayed(freers', p) {
      var u: Tid :| InDelayed(FreerAt(freers, u)) && FreerAt(freers, u).block.page == p;
      assert FreerAt(freers', u) == FreerAt(freers, u);
    }
  }

  // A thread inside the delayed phase moves on with the same block.
  lemma DelayedInside(freers: Freers, pages: Pages, owners: Owners, loc: Loc, t: Tid, f: Freer)
    requires DelayedThreads(freers, pages, owners, loc)
    requires InDelayed(f) && InDelayed(FreerAt(freers, t)) && f.block.page == FreerAt(freers, t).block.page
    requires DelayedThread(f, pages, owners, loc)
    ensures DelayedThreads(freers[t := f], pages, owners, loc)
  {
    var freers' := freers[t := f];
    assert forall u: Tid :: FreerAt(freers', u) == if u == t then f else FreerAt(freers, u);
    forall p | p in pages && pages[p].flag == DelayedFreeing ensures SomeDelayed(freers', p) {
      var u: Tid :| InDelayed(FreerAt(freers, u)) && FreerAt(freers, u).block.page == p;
      assert InDelayed(FreerAt(freers', u)) && FreerAt(freers', u).block.page == p;
    }
  }

  lemma OwnersSet(pages: Pages, owners: Owners, t: Tid, o: Owner)
    requires OwnersInv(pages, owners) && OpInv(pages, t, o) && PhaseInv(pages, t, o)
    ensures OwnersInv(pages, owners[t := o])
  {
    var owners' := owners[t := o];
    forall u: Tid ensures OpInv(pages, u, OwnerAt(owners', u)) && PhaseInv(pages, u, OwnerAt(owners', u)) {
      if u == t {
        assert OwnerAt(owners', u) == o;
      } else {
        assert OwnerAt(owners', u) == OwnerAt(owners, u);
      }
    }
  }

  // A new flag for page p.
  lemma FlagFrame(s: State, p: nat, flag: Flag)
    requires p in s.pages && Domain(s.pages, s.loc) && PageLists(s.pages, s.loc) && Heaps(s.pages)
    requires s.pages[p].heap == None ==> flag == NeverDelayed
    ensures var pages' := s.pages[p := s.pages[p].(flag := flag)];
      Domain(pages', s.loc) && PageLists(pages', s.loc) && Heaps(pages')
  {
    assert PageListsOf(s.loc, p, s.pages[p]);
  }

  lemma OwnersFlag(pages: Pages, owners: Owners, p: nat, flag: Flag)
    requires p in pages && OwnersInv(pages, owners)
    requires pages[p].flag == NeverDelayed && flag != NeverDelayed ==>
      pages[p].owner.Some? && OwnerAt(owners, pages[p].owner.value).phase == Running
    ensures OwnersInv(pages[p := pages[p].(flag := flag)], owners)
  {
    var pages' := pages[p := pages[p].(flag := flag)];
    assert forall t: Tid, q :: Owned(pages', t, q) <==> Owned(pages, t, q);
    forall t: Tid ensures OpInv(pages', t, OwnerAt(owners, t)) && PhaseInv(pages', t, OwnerAt(owners, t)) {
      assert OpInv(pages, t, OwnerAt(owners, t)) && PhaseInv(pages, t, OwnerAt(owners, t));
    }
  }

  lemma DomainFrame(pages: Pages, loc: Loc, loc': Loc)
    requires Domain(pages, loc) && loc.Keys == loc'.Keys
    ensures Domain(pages, loc')
  {
    assert forall b :: b in loc <==> b in loc';
  }

  lemma DomainPage(pages: Pages, loc: Loc, p: nat, pg: Page)
    requires Domain(pages, loc) && p in pages && pages[p].capacity == pg.capacity
    ensures Domain(pages[p := pg], loc)
  {}

  lemma PageListsFrame(pages: Pages, loc: Loc, loc': Loc)
    requires PageLists(pages, loc) && SameAt(loc, loc', (pl: Place) => pl.InFree? || pl.InLocal? || pl.InThread?)
    ensures PageLists(pages, loc')
  {
    forall p | p in pages ensures PageListsOf(loc', p, pages[p]) {
      assert PageListsOf(loc, p, pages[p]);
    }
  }

  // Blocks leave and enter only places that no owner list and no delayed path holds.
  lemma PlainMove(s: State, loc': Loc)
    requires Inv(s) && loc'.Keys == s.loc.Keys && SameAt(s.loc, loc', OwnerPlace)
    ensures Domain(s.pages, loc') && OwnerLists(s.owners, loc')
    ensures DelayedThreads(s.freers, s.pages, s.owners, loc') && PendingInv(s.pages, s.owners, loc')
  {
    hide PageLists, OwnerLists, Hands, Heaps, DelayedThreads, OwnersInv, Domain;
    OwnerListsFrame(s.owners, s.loc, loc');
    DomainFrame(s.pages, s.loc, loc');
    assert MorePending(s.pages, s.owners, s.loc, s.owners, loc');
    DelayedMono(s.freers, s.pages, s.owners, s.loc, s.owners, loc');
    PendingMono(s.pages, s.owners, s.loc, s.owners, loc');
  }

  // ---- the steps of a freeing thread

  lemma FreeStartInv(s: State, t: Tid, b: Block, s': State)
    requires Inv(s) && FreerStep(s, t, FreeStart(b), s')
    ensures Inv(s')
  {
    hide Domain, PageLists, OwnerLists, Hands, Heaps, DelayedThreads, PendingInv, OwnersInv;
    PlainMove(s, s'.loc);
    HandsTake(s.freers, s.loc, t, Start(b), b);
    PageListsFrame(s.pages, s.loc, s'.loc);
    DelayedOutside(s.freers, s.pages, s.owners, s'.loc, t, Start(b));
  }

  // Loads and failed compare-and-swaps outside the delayed phase.
  lemma FreeLoadInv(s: State, t: Tid, a: Action, s': State)
    requires Inv(s) && FreerStep(s, t, a, s') && (a.FreeLoad? || a.FreeRetry?)
    ensures Inv(s')
  {
    hide Domain, PageLists, OwnerLists, Hands, Heaps, DelayedThreads, PendingInv, OwnersInv;
    HandsFreer(s.freers, s.loc, t, s'.FreerOf(t));
    DelayedOutside(s.freers, s.pages, s.owners, s.loc, t, s'.FreerOf(t));
  }

  // The loads inside the delayed phase.
  lemma DelayedLoadInv(s: State, t: Tid, a: Action, s': State)
    requires Inv(s) && FreerStep(s, t, a, s')
    requires a.ReadHeap? || a.ReadList? || a.ListRetry? || a.ResetLoad? || a.ResetRetry?
    ensures Inv(s')
  {
    hide Domain, PageLists, OwnerLists, Hands, Heaps, PendingInv, OwnersInv;
    var f := s'.FreerOf(t);
    assert DelayedThread(s.FreerOf(t), s.pages, s.owners, s.loc);
    assert DelayedThread(f, s.pages, s.owners, s.loc);
    DelayedInside(s.freers, s.pages, s.owners, s.loc, t, f);
    hide DelayedThreads;
    HandsFreer(s.freers, s.loc, t, f);
  }

  // The flag of p changes to something no pending block is needed for.
  lemma PendingFlag(pages: Pages, owners: Owners, loc: Loc, p: nat, flag: Flag)
    requires p in pages && PendingInv(pages, owners, loc)
    requires flag == NoDelayed ==> SomePending(owners, loc, p)
    ensures PendingInv(pages[p := pages[p].(flag := flag)], owners, loc)
  {}

  lemma DelayedEnter(freers: Freers, pages: Pages, owners: Owners, loc: Loc, t: Tid, b: Block)
    requires b.page in pages && pages[b.page].flag != DelayedFreeing && pages[b.page].heap.Some?
    requires DelayedThreads(freers, pages, owners, loc) && !InDelayed(FreerAt(freers, t))
    ensures DelayedThreads(freers[t := Claimed(b)], pages[b.page := pages[b.page].(flag := DelayedFreeing)], owners,
      loc)
  {
    var freers', pages' := freers[t := Claimed(b)], pages[b.page := pages[b.page].(flag := DelayedFreeing)];
    forall u: Tid | InDelayed(FreerAt(freers', u)) ensures DelayedThread(FreerAt(freers', u), pages', owners, loc) {
      assert FreerAt(freers', u) == if u == t then Claimed(b) else FreerAt(freers, u);
      if u != t { assert DelayedThread(FreerAt(freers, u), pages, owners, loc); }
    }
    forall u: Tid, v: Tid | InDelayed(FreerAt(freers', u)) && InDelayed(FreerAt(freers', v))
      && FreerAt(freers', u).block.page == FreerAt(freers', v).block.page ensures u == v
    {
      assert FreerAt(freers', u) == if u == t then Claimed(b) else FreerAt(freers, u);
      assert FreerAt(freers', v) == if v == t then Claimed(b) else FreerAt(freers, v);
      if u != t { assert DelayedThread(FreerAt(freers, u), pages, owners, loc); }
      if v != t { assert DelayedThread(FreerAt(freers, v), pages, owners, loc); }
    }
    forall q | q in pages' && pages'[q].flag == DelayedFreeing ensures SomeDelayed(freers', q) {
      if q == b.page {
        assert FreerAt(freers', t) == Claimed(b);
      } else {
        var u: Tid :| InDelayed(FreerAt(freers, u)) && FreerAt(freers, u).block.page == q;
        assert FreerAt(freers', u) == FreerAt(freers, u);
      }
    }
  }

  lemma DelayedLeave(freers: Freers, pages: Pages, owners: Owners, loc: Loc, t: Tid)
    requires DelayedThreads(freers, pages, owners, loc) && InDelayed(FreerAt(freers, t))
    ensures var p := FreerAt(freers, t).block.page;
      p in pages && DelayedThreads(freers[t := Idle], pages[p := pages[p].(flag := NoDelayed)], owners, loc)
  {
    var p := FreerAt(freers, t).block.page;
    assert DelayedThread(FreerAt(freers, t), pages, owners, loc);
    var freers', pages' := freers[t := Idle], pages[p := pages[p].(flag := NoDelayed)];
    assert forall u: Tid | InDelayed(FreerAt(freers', u)) :: u != t && FreerAt(freers', u) == FreerAt(freers, u);
    forall q | q in pages' && pages'[q].flag == DelayedFreeing ensures SomeDelayed(freers', q) {
      var u: Tid :| InDelayed(FreerAt(freers, u)) && FreerAt(freers, u).block.page == q;
      assert FreerAt(freers', u) == FreerAt(freers, u);
    }
  }

  lemma FreeCasClaimInv(s: State, t: Tid, s': State)
    requires Inv(s) && FreerStep(s, t, FreeCas, s') && s.FreerOf(t).w.flag == UseDelayed
    ensures Inv(s')
  {
    hide Domain, PageLists, OwnerLists, Hands, DelayedThreads, PendingInv, OwnersInv;
    var b := s.FreerOf(t).block;
    HandsFreer(s.freers, s.loc, t, Claimed(b));
    FlagFrame(s, b.page, DelayedFreeing);
    OwnersFlag(s.pages, s.owners, b.page, DelayedFreeing);
    PendingFlag(s.pages, s.owners, s.loc, b.page, DelayedFreeing);
    DelayedEnter(s.freers, s.pages, s.owners, s.loc, t, b);
  }

  lemma PushPlace(pages: Pages, loc: Loc, b: Block, pl: Place, used: int)
    requires PageLists(pages, loc) && b in loc && b.page in pages
    requires !loc[b].InFree? && !loc[b].InLocal? && !loc[b].InThread?
    requires (pl == InThread && used == pages[b.page].used) || (pl == InLocal && used == pages[b.page].used - 1)
    ensures var pg := pages[b.page];
      PageLists(pages[b.page := if pl == InThread then pg.(threadFree := [b] + pg.threadFree)
                                else pg.(localFree := [b] + pg.localFree, used := used)], loc[b := pl])
  {
    var pg, loc' := pages[b.page], loc[b := pl];
    assert PageListsOf(loc, b.page, pg);
    assert b !in pg.free && b !in pg.localFree && b !in pg.threadFree;
    var pg' := if pl == InThread then pg.(threadFree := [b] + pg.threadFree)
               else pg.(localFree := [b] + pg.localFree, used := used);
    assert PageListsOf(loc', b.page, pg');
    PageListsUpdate(pages, loc, b.page, pg', loc');
  }

  lemma FreeCasPushInv(s: State, t: Tid, s': State)
    requires Inv(s) && FreerStep(s, t, FreeCas, s') && s.FreerOf(t).w.flag != UseDelayed
    ensures Inv(s')
  {
    hide Domain, PageLists, OwnerLists, DelayedThreads, PendingInv, OwnersInv, Heaps;
    var b := s.FreerOf(t).block;
    assert InHand(s.FreerOf(t)) == Some(b);
    assert At(s.loc, b, Hand(t));
    HandsDrop(s.freers, s.loc, t, Idle, b, InThread);
    hide Hands;
    PlainMove(s, s'.loc);
    PushPlace(s.pages, s.loc, b, InThread, s.pages[b.page].used);
    DomainPage(s.pages, s'.loc, b.page, s'.pages[b.page]);
    DelayedOutside(s.freers, s.pages, s.owners, s'.loc, t, Idle);
    ControlFrame(s'.freers, s.pages, s.owners, s'.loc, b.page, s'.pages[b.page]);
  }

  lemma ListCasInv(s: State, t: Tid, s': State)
    requires Inv(s) && FreerStep(s, t, ListCas, s')
    ensures Inv(s')
  {
    hide Domain, PageLists, OwnerLists, Hands, PendingInv, OwnersInv, Heaps, DelayedThreads;
    var f := s.FreerOf(t);
    var b, h, o' := f.block, f.heap, s'.OwnerOf(f.heap);
    ListCasFacts(s, t);
    HandsDrop(s.freers, s.loc, t, Pushed(b), b, OnDelayed(h));
    DomainFrame(s.pages, s.loc, s'.loc);
    PageListsFrame(s.pages, s.loc, s'.loc);
    OwnerListsPush(s.owners, s.loc, h, b);
    NeverNotDelayed(s, h, b);
    OwnersSet(s.pages, s.owners, h, o');
    ListCasPending(s.pages, s.owners, s.loc, h, b);
    DelayedMono(s.freers, s.pages, s.owners, s.loc, s'.owners, s'.loc);
    DelayedInside(s.freers, s.pages, s'.owners, s'.loc, t, Pushed(b));
    PendingMono(s.pages, s.owners, s.loc, s'.owners, s'.loc);
  }

  // The thread about to push b still holds the flag, and the heap it read is the page's heap.
  lemma ListCasFacts(s: State, t: Tid)
    requires Inv(s) && FreerAt(s.freers, t).ListRead?
    ensures var f := FreerAt(s.freers, t); var b := f.block;
      && Owned(s.pages, f.heap, b.page) && s.pages[b.page].flag == DelayedFreeing
      && At(s.loc, b, Hand(t)) && DelayedOwned(s.pages, s.loc)
  {
    hide Domain, PageLists, OwnerLists, OwnersInv, Hands, PendingInv;
    var f := FreerAt(s.freers, t);
    assert DelayedThread(f, s.pages, s.owners, s.loc);
    hide DelayedThreads;
    HandHeld(s, t, f.block);
    DelayedOwnedOf(s);
  }

  lemma ListCasPending(pages: Pages, owners: Owners, loc: Loc, h: Tid, b: Block)
    requires b in loc && loc[b].Hand? && DelayedOwned(pages, loc) && Owned(pages, h, b.page)
    ensures var owners' := owners[h := OwnerAt(owners, h).(delayed := [b] + OwnerAt(owners, h).delayed)];
      && MorePending(pages, owners, loc, owners', loc[b := OnDelayed(h)])
      && DelayedOwned(pages, loc[b := OnDelayed(h)]) && Pending(owners', loc[b := OnDelayed(h)], b)
  {}

  lemma HandHeld(s: State, t: Tid, b: Block)
    requires Hands(s.freers, s.loc) && InHand(s.FreerOf(t)) == Some(b)
    ensures At(s.loc, b, Hand(t))
  {}

  lemma DelayedOwnedOf(s: State)
    requires PendingInv(s.pages, s.owners, s.loc)
    ensures DelayedOwned(s.pages, s.loc)
  {}

  lemma OwnerListsPush(owners: Owners, loc: Loc, h: Tid, b: Block)
    requires OwnerLists(owners, loc) && b in loc && !OwnerPlace(loc[b])
    ensures var o := OwnerAt(owners, h);
      OwnerLists(owners[h := o.(delayed := [b] + o.delayed)], loc[b := OnDelayed(h)])
  {
    var o := OwnerAt(owners, h);
    var owners', loc' := owners[h := o.(delayed := [b] + o.delayed)], loc[b := OnDelayed(h)];
    forall t: Tid ensures OwnerListsOf(loc', t, OwnerAt(owners', t)) {
      assert OwnerListsOf(loc, t, OwnerAt(owners, t));
      assert b !in OwnerAt(owners, t).delayed;
      assert OwnerAt(owners', t) == if t == h then o.(delayed := [b] + o.delayed) else OwnerAt(owners, t);
    }
  }

  // A heap that receives a delayed block is not being abandoned past its marking.
  lemma NeverNotDelayed(s: State, h: Tid, b: Block)
    requires OwnersInv(s.pages, s.owners) && Owned(s.pages, h, b.page) && s.pages[b.page].flag != NeverDelayed
    ensures var o := s.OwnerOf(h);
      OpInv(s.pages, h, o.(delayed := [b] + o.delayed)) && PhaseInv(s.pages, h, o.(delayed := [b] + o.delayed))
  {
    assert OpInv(s.pages, h, s.OwnerOf(h)) && PhaseInv(s.pages, h, s.OwnerOf(h));
  }

  lemma ResetCasInv(s: State, t: Tid, s': State)
    requires Inv(s) && FreerStep(s, t, ResetCas, s')
    ensures Inv(s')
  {
    hide Domain, PageLists, OwnerLists, Hands, PendingInv, OwnersInv;
    var b := s.FreerOf(t).block;
    assert DelayedThread(s.FreerOf(t), s.pages, s.owners, s.loc);
    hide DelayedThreads;
    assert SomePending(s.owners, s.loc, b.page);
    HandsFreer(s.freers, s.loc, t, Idle);
    FlagFrame(s, b.page, NoDelayed);
    OwnersFlag(s.pages, s.owners, b.page, NoDelayed);
    PendingFlag(s.pages, s.owners, s.loc, b.page, NoDelayed);
    DelayedLeave(s.freers, s.pages, s.owners, s.loc, t);
  }

  // ---- the steps of an owner

  // Only the operation or the phase of t changes.
  lemma OwnerOnly(s: State, t: Tid, o: Owner)
    requires Inv(s) && OpInv(s.pages, t, o) && PhaseInv(s.pages, t, o)
    requires var old_ := s.OwnerOf(t);
      o.delayed == old_.delayed && o.walk == old_.walk && o.past == old_.past && DetachedList(o) == DetachedList(old_)
    ensures Inv(s.SetOwner(t, o))
  {
    hide Domain, PageLists, Hands, Heaps, DelayedThreads, PendingInv, OwnersInv;
    var owners' := s.owners[t := o];
    OwnersSet(s.pages, s.owners, t, o);
    assert OwnerLists(owners', s.loc) by { OwnerListsOp(s.owners, s.loc, t, o); }
    hide OwnerLists;
    assert MorePending(s.pages, s.owners, s.loc, owners', s.loc);
    DelayedMono(s.freers, s.pages, s.owners, s.loc, owners', s.loc);
    DelayedOwnedOf(s);
    PendingMono(s.pages, s.owners, s.loc, owners', s.loc);
  }

  lemma OwnerListsOp(owners: Owners, loc: Loc, t: Tid, o: Owner)
    requires OwnerLists(owners, loc) && OwnerListsOf(loc, t, o)
    ensures OwnerLists(owners[t := o], loc)
  {
    var owners' := owners[t := o];
    forall u: Tid ensures OwnerListsOf(loc, u, OwnerAt(owners', u)) {
      assert OwnerListsOf(loc, u, OwnerAt(owners, u));
      if u != t { assert OwnerAt(owners', u) == OwnerAt(owners, u); }
    }
  }

  lemma OwnerFacts(s: State, t: Tid)
    requires Inv(s)
    ensures OpInv(s.pages, t, s.OwnerOf(t)) && PhaseInv(s.pages, t, s.OwnerOf(t))
    ensures OwnerListsOf(s.loc, t, s.OwnerOf(t))
  {}

  lemma CollectLoadInv(s: State, t: Tid, a: Action, s': State)
    requires Inv(s) && CollectStep(s, t, a, s') && (a.CollectLoad? || a.TakeLoad? || a.TakeRetry?)
    ensures Inv(s')
  {
    hide Domain, PageLists, OwnerLists, Hands, Heaps, DelayedThreads, PendingInv, OwnersInv;
    OwnerFacts(s, t);
    if s' != s { OwnerOnly(s, t, s'.OwnerOf(t)); }
  }

  lemma FlagLoadInv(s: State, t: Tid, a: Action, s': State)
    requires Inv(s) && FlagStep(s, t, a, s') && (a.WalkFlag? || a.SetFlagRetry?)
    ensures Inv(s')
  {
    hide Domain, PageLists, OwnerLists, Hands, Heaps, DelayedThreads, PendingInv, OwnersInv;
    OwnerFacts(s, t);
    if a.WalkFlag? { WalkOwned(s, t); }
    OwnerOnly(s, t, s'.OwnerOf(t));
  }

  lemma MarkingInv(s: State, t: Tid, a: Action, s': State)
    requires Inv(s) && PhaseStep(s, t, a, s')
    requires a.BeginAbandon? || a.Mark? || a.EndMark? || a.EndDrain? || a.EndAbandon?
    ensures Inv(s')
  {
    hide Domain, PageLists, OwnerLists, Hands, Heaps, DelayedThreads, PendingInv, OwnersInv;
    OwnerFacts(s, t);
    if a.EndMark? { assert AllNever(s.pages, t); }
    OwnerOnly(s, t, s'.OwnerOf(t));
  }

  lemma WalkOwned(s: State, t: Tid)
    requires Inv(s) && s.OwnerOf(t).walk != []
    ensures var b := s.OwnerOf(t).walk[0]; At(s.loc, b, Drained(t)) && Owned(s.pages, t, b.page)
  {
    assert OwnerListsOf(s.loc, t, s.OwnerOf(t));
    assert s.OwnerOf(t).walk[0] in s.OwnerOf(t).walk;
  }

  // `_mi_page_use_delayed_free` returns: the flag is settled and walk[0] needs it no longer.
  lemma FlagDoneInv(s: State, t: Tid)
    requires Inv(s) && (s.OwnerOf(t).op.SetFlag? || s.OwnerOf(t).op.SetFlagLoaded?)
    requires var op := s.OwnerOf(t).op;
      op.p in s.pages && var flag := s.pages[op.p].flag; flag == op.to || (!op.override && flag == NeverDelayed)
    ensures Inv(s.SetOwner(t, FlagDone(s.OwnerOf(t), s.OwnerOf(t).op.p)))
  {
    hide Domain, PageLists, OwnerLists, Hands, Heaps, DelayedThreads, PendingInv, OwnersInv;
    var o, p := s.OwnerOf(t), s.OwnerOf(t).op.p;
    var o' := FlagDone(o, p);
    OwnerFacts(s, t);
    OwnersSet(s.pages, s.owners, t, o');
    OwnerListsOp(s.owners, s.loc, t, o');
    var owners' := s.owners[t := o'];
    assert MorePending(s.pages, s.owners, s.loc, owners', s.loc);
    DelayedMono(s.freers, s.pages, s.owners, s.loc, owners', s.loc);
    DelayedOwnedOf(s);
    PendingMono(s.pages, s.owners, s.loc, owners', s.loc);
  }

  lemma SetFlagLoadInv(s: State, t: Tid, s': State)
    requires Inv(s) && FlagStep(s, t, SetFlagLoad, s')
    ensures Inv(s')
  {
    hide Domain, PageLists, OwnerLists, Hands, Heaps, DelayedThreads, PendingInv, OwnersInv;
    OwnerFacts(s, t);
    var o := s.OwnerOf(t);
    var flag := s.pages[o.op.p].flag;
    if flag == DelayedFreeing {
    } else if o.op.to == flag || (!o.op.override && flag == NeverDelayed) {
      FlagDoneInv(s, t);
    } else {
      OwnerOnly(s, t, s'.OwnerOf(t));
    }
  }

  // The flag of a page changes between values that no delayed freeing is in.
  lemma FlagChange(s: State, p: nat, flag: Flag)
    requires Inv(s) && p in s.pages && s.pages[p].heap.Some?
    requires s.pages[p].flag != DelayedFreeing && (flag == UseDelayed || flag == NeverDelayed)
    requires s.pages[p].flag == NeverDelayed && flag != NeverDelayed ==>
      s.pages[p].owner.Some? && s.OwnerOf(s.pages[p].owner.value).phase == Running
    ensures Inv(s.SetPage(p, s.pages[p].(flag := flag)))
  {
    hide Domain, PageLists, OwnerLists, Hands, Heaps, PendingInv, OwnersInv;
    FlagFrame(s, p, flag);
    OwnersFlag(s.pages, s.owners, p, flag);
    PendingFlag(s.pages, s.owners, s.loc, p, flag);
  }

  lemma SetFlagCasInv(s: State, t: Tid, s': State)
    requires Inv(s) && FlagStep(s, t, SetFlagCas, s')
    ensures Inv(s')
  {
    hide Domain, PageLists, OwnerLists, Hands, Heaps, DelayedThreads, PendingInv, OwnersInv;
    OwnerFacts(s, t);
    var op := s.OwnerOf(t).op;
    FlagChange(s, op.p, op.to);
    FlagDoneInv(s.SetPage(op.p, s.pages[op.p].(flag := op.to)), t);
  }

  lemma NewPageInv(s: State, t: Tid, p: nat, reserved: nat, s': State)
    requires Inv(s) && LocalStep(s, t, NewPage(p, reserved), s')
    ensures Inv(s')
  {
    hide Domain, PageLists, OwnerLists, Hands, Heaps, DelayedThreads, PendingInv, OwnersInv;
    OwnerFacts(s, t);
    NewPageLists(s.pages, s.loc, p, s'.pages[p]);
    NewPageControl(s, t, p, s'.pages[p]);
  }

  lemma NewPageLists(pages: Pages, loc: Loc, p: nat, pg: Page)
    requires Domain(pages, loc) && PageLists(pages, loc) && p !in pages
    requires pg.free == [] && pg.localFree == [] && pg.threadFree == [] && pg.capacity == 0 && pg.used == 0
    ensures Domain(pages[p := pg], loc) && PageLists(pages[p := pg], loc)
  {
    assert forall b | b in loc :: b.page != p;
    PageListsUpdate(pages, loc, p, pg, loc);
  }

  lemma NewPageControl(s: State, t: Tid, p: nat, pg: Page)
    requires Inv(s) && p !in s.pages && pg.flag == UseDelayed && pg.heap == Some(t) && pg.owner == Some(t)
    requires s.OwnerOf(t).phase == Running
    ensures var pages' := s.pages[p := pg];
      && Heaps(pages') && DelayedThreads(s.freers, pages', s.owners, s.loc)
      && PendingInv(pages', s.owners, s.loc) && OwnersInv(pages', s.owners)
  {
    hide Domain, PageLists, OwnerLists, Hands;
    var pages' := s.pages[p := pg];
    forall u: Tid ensures OpInv(pages', u, OwnerAt(s.owners, u)) && PhaseInv(pages', u, OwnerAt(s.owners, u)) {
      assert OpInv(s.pages, u, OwnerAt(s.owners, u)) && PhaseInv(s.pages, u, OwnerAt(s.owners, u));
    }
  }

  // Blocks of page p move between its lists and the program.
  // Only the local lists of page p changed.
  ghost predicate OnlyPage(s: State, p: nat, s': State) {
    && p in s.pages && p in s'.pages && SameControl(s.pages[p], s'.pages[p])
    && s'.pages[p].capacity == s.pages[p].capacity
    && s'.pages == s.pages[p := s'.pages[p]] && s'.freers == s.freers && s'.owners == s.owners
    && s'.loc.Keys == s.loc.Keys && SameAt(s.loc, s'.loc, OwnerPlace)
    && SameAt(s.loc, s'.loc, (pl: Place) => pl.Hand?) && PageListsOf(s'.loc, p, s'.pages[p])
    && forall b: Block | b.page != p && b in s.loc :: s.loc[b] == s'.loc[b]
  }

  lemma PageContent(s: State, p: nat, s': State)
    requires Inv(s) && OnlyPage(s, p, s')
    ensures Inv(s')
  {
    hide Domain, PageLists, OwnerLists, Hands, Heaps, DelayedThreads, PendingInv, OwnersInv;
    var pg := s'.pages[p];
    PlainMove(s, s'.loc);
    assert forall b :: b in s.loc.Keys <==> b in s'.loc.Keys;
    PageListsUpdate(s.pages, s.loc, p, pg, s'.loc);
    HandsFrame(s.freers, s.loc, s'.loc);
    DomainPage(s.pages, s'.loc, p, pg);
    ControlFrame(s.freers, s.pages, s.owners, s'.loc, p, pg);
  }

  lemma PageFacts(s: State, p: nat)
    requires Inv(s) && p in s.pages
    ensures PageListsOf(s.loc, p, s.pages[p])
  {}

  lemma MallocInv(s: State, t: Tid, p: nat, s': State)
    requires Inv(s) && LocalStep(s, t, Malloc(p), s')
    ensures Inv(s')
  {
    hide Inv, LocalStep, OnlyPage;
    MallocPage(s, t, p, s');
    PageContent(s, p, s');
  }

  lemma MallocPage(s: State, t: Tid, p: nat, s': State)
    requires Inv(s) && LocalStep(s, t, Malloc(p), s')
    ensures OnlyPage(s, p, s')
  {
    hide Inv;
    PageFacts(s, p);
    var pg := s.pages[p];
    var b := pg.free[0];
    assert pg.free == [b] + pg.free[1..];
    assert b in pg.free;
  }

  lemma LocalFreeInv(s: State, t: Tid, b: Block, s': State)
    requires Inv(s) && LocalStep(s, t, LocalFree(b), s')
    ensures Inv(s')
  {
    hide Inv, LocalStep, OnlyPage;
    LocalFreePage(s, t, b, s');
    PageContent(s, b.page, s');
  }

  lemma LocalFreePage(s: State, t: Tid, b: Block, s': State)
    requires Inv(s) && LocalStep(s, t, LocalFree(b), s')
    ensures OnlyPage(s, b.page, s')
  {
    hide Inv;
    PageFacts(s, b.page);
  }

  lemma CollectLocalInv(s: State, t: Tid, p: nat, force: bool, s': State)
    requires Inv(s) && LocalStep(s, t, CollectLocal(p, force), s')
    ensures Inv(s')
  {
    hide Inv, LocalStep, OnlyPage;
    CollectLocalPage(s, t, p, force, s');
    PageContent(s, p, s');
  }

  lemma CollectLocalPage(s: State, t: Tid, p: nat, force: bool, s': State)
    requires Inv(s) && LocalStep(s, t, CollectLocal(p, force), s')
    ensures OnlyPage(s, p, s')
  {
    hide Inv, PageListsOf;
    PageFacts(s, p);
    LocalMembers(s.loc, p, s.pages[p]);
    LocalToFree(s.loc, p, s.pages[p], s'.loc);
  }

  lemma LocalMembers(loc: Loc, p: nat, pg: Page)
    requires PageListsOf(loc, p, pg)
    ensures forall b | b in pg.localFree :: b.page == p && At(loc, b, InLocal)
  {}

  lemma LocalToFree(loc: Loc, p: nat, pg: Page, loc': Loc)
    requires PageListsOf(loc, p, pg) && loc'.Keys == loc.Keys
    requires forall b | b in loc :: loc'[b] == if b in pg.localFree then InFree else loc[b]
    ensures PageListsOf(loc', p, pg.(free := pg.localFree + pg.free, localFree := []))
  {
    assert forall b :: b in loc.Keys <==> b in loc'.Keys;
    assert forall b | b in pg.localFree :: At(loc, b, InLocal);
    NoDupConcat(pg.localFree, pg.free);
  }

  // A whole list moves from one place to another, and no pending block is among it.
  lemma ListMove(s: State, l: seq<Block>, pl: Place)
    requires Inv(s) && (forall b | b in l :: b in s.loc && !s.loc[b].OnDelayed? && !s.loc[b].Drained?)
    requires !pl.OnDelayed? && !pl.Drained?
    ensures var loc' := s.MoveAll(l, pl).loc;
      && Domain(s.pages, loc') && DelayedThreads(s.freers, s.pages, s.owners, loc')
      && PendingInv(s.pages, s.owners, loc')
  {
    hide PageLists, OwnerLists, Hands, Heaps, DelayedThreads, OwnersInv, Domain, PendingInv;
    var loc' := s.MoveAll(l, pl).loc;
    assert loc'.Keys == s.loc.Keys;
    DomainFrame(s.pages, s.loc, loc');
    DelayedOwnedOf(s);
    assert MorePending(s.pages, s.owners, s.loc, s.owners, loc');
    DelayedMono(s.freers, s.pages, s.owners, s.loc, s.owners, loc');
    PendingMono(s.pages, s.owners, s.loc, s.owners, loc');
  }

  lemma OwnerListsDetach(owners: Owners, loc: Loc, t: Tid, o: Owner, l: seq<Block>, loc': Loc)
    requires OwnerLists(owners, loc) && NoDup(l) && loc'.Keys == loc.Keys
    requires forall b | b in loc :: loc'[b] == if b in l then Detached(t) else loc[b]
    requires forall b | b in l :: b in loc && !OwnerPlace(loc[b])
    requires var o0 := OwnerAt(owners, t);
      DetachedList(o0) == [] && DetachedList(o) == l && o.delayed == o0.delayed && o.walk == o0.walk
    ensures OwnerLists(owners[t := o], loc')
  {
    var owners' := owners[t := o];
    assert OwnerListsOf(loc, t, OwnerAt(owners, t));
    forall u: Tid ensures OwnerListsOf(loc', u, OwnerAt(owners', u)) {
      assert OwnerListsOf(loc, u, OwnerAt(owners, u));
      assert forall b :: b in loc.Keys <==> b in loc'.Keys;
      if u == t {
        forall b ensures b in DetachedList(o) <==> At(loc', b, Detached(t)) {
          assert b !in DetachedList(OwnerAt(owners, t)) && !At(loc, b, Detached(t));
        }
        forall b ensures b in o.delayed <==> At(loc', b, OnDelayed(t)) {
          assert b in o.delayed <==> At(loc, b, OnDelayed(t));
        }
        forall b ensures b in o.walk <==> At(loc', b, Drained(t)) {
          assert b in o.walk <==> At(loc, b, Drained(t));
        }
      } else {
        assert OwnerAt(owners', u) == OwnerAt(owners, u);
      }
    }
  }

  lemma OwnerListsAttach(owners: Owners, loc: Loc, t: Tid, o: Owner, l: seq<Block>, loc': Loc)
    requires OwnerLists(owners, loc) && loc'.Keys == loc.Keys
    requires forall b | b in loc :: loc'[b] == if b in l then InLocal else loc[b]
    requires var o0 := OwnerAt(owners, t);
      DetachedList(o0) == l && DetachedList(o) == [] && o.delayed == o0.delayed && o.walk == o0.walk
    ensures OwnerLists(owners[t := o], loc')
  {
    var owners' := owners[t := o];
    assert OwnerListsOf(loc, t, OwnerAt(owners, t));
    forall u: Tid ensures OwnerListsOf(loc', u, OwnerAt(owners', u)) {
      assert OwnerListsOf(loc, u, OwnerAt(owners, u));
      assert OwnerAt(owners', u) == if u == t then o else OwnerAt(owners, u);
      assert forall b :: b in loc.Keys <==> b in loc'.Keys;
    }
  }

  // Changing the operation of t changes neither which blocks are pending nor the hands.
  lemma OpFrame(s: State, pages: Pages, loc: Loc, t: Tid, o: Owner)
    requires var o0 := s.OwnerOf(t); o.walk == o0.walk && o.past == o0.past
    requires DelayedThreads(s.freers, pages, s.owners, loc) && PendingInv(pages, s.owners, loc)
    ensures DelayedThreads(s.freers, pages, s.owners[t := o], loc) && PendingInv(pages, s.owners[t := o], loc)
  {
    hide DelayedThreads;
    var owners' := s.owners[t := o];
    assert MorePending(pages, s.owners, loc, owners', loc);
    DelayedMono(s.freers, pages, s.owners, loc, owners', loc);
    PendingMono(pages, s.owners, loc, owners', loc);
  }

  lemma DetachPage(loc: Loc, p: nat, pg: Page, t: Tid, loc': Loc)
    requires PageListsOf(loc, p, pg) && loc'.Keys == loc.Keys
    requires forall b | b in loc :: loc'[b] == if b in pg.threadFree then Detached(t) else loc[b]
    ensures PageListsOf(loc', p, pg.(threadFree := []))
  {
    assert forall b :: b in loc.Keys <==> b in loc'.Keys;
  }

  lemma AttachPage(loc: Loc, p: nat, pg: Page, t: Tid, l: seq<Block>, loc': Loc)
    requires PageListsOf(loc, p, pg) && loc'.Keys == loc.Keys && NoDup(l)
    requires forall b | b in l :: At(loc, b, Detached(t)) && b.page == p
    requires forall b | b in loc :: loc'[b] == if b in l then InLocal else loc[b]
    ensures PageListsOf(loc', p, pg.(localFree := l + pg.localFree, used := pg.used - |l|))
  {
    assert forall b :: b in loc.Keys <==> b in loc'.Keys;
    assert forall b | b in pg.localFree :: At(loc, b, InLocal);
    NoDupConcat(l, pg.localFree);
  }

  lemma FreshMembers(p: nat, from: nat, n: nat)
    ensures forall b: Block :: b in Fresh(p, from, n) <==> b.page == p && from <= b.idx < from + n
    ensures NoDup(Fresh(p, from, n))
  {
    var blocks := Fresh(p, from, n);
    forall b: Block | b.page == p && from <= b.idx < from + n ensures b in blocks {
      assert blocks[b.idx - from] == b;
    }
  }

  lemma ExtendPage(loc: Loc, p: nat, pg: Page, n: nat, loc': Loc)
    requires PageListsOf(loc, p, pg) && pg.free == []
    requires forall b: Block | b.page == p && b in loc :: b.idx < pg.capacity
    requires forall b :: b in loc' <==> b in loc || b in Fresh(p, pg.capacity, n)
    requires forall b | b in loc' :: loc'[b] == if b in Fresh(p, pg.capacity, n) then InFree else loc[b]
    ensures PageListsOf(loc', p, pg.(capacity := pg.capacity + n, free := Fresh(p, pg.capacity, n)))
  {
    FreshMembers(p, pg.capacity, n);
    hide Fresh;
    forall b ensures b !in pg.free {}
    forall b ensures b in Fresh(p, pg.capacity, n) <==> b.page == p && At(loc', b, InFree) {
      assert b in pg.free <==> b.page == p && At(loc, b, InFree);
    }
  }

  lemma CollectCasInv(s: State, t: Tid, s': State)
    requires Inv(s) && CollectStep(s, t, CollectCas, s')
    ensures Inv(s')
  {
    hide Domain, PageLists, OwnerLists, Hands, Heaps, DelayedThreads, PendingInv, OwnersInv;
    OwnerFacts(s, t);
    var o := s.OwnerOf(t);
    var pg := s.pages[o.op.p];
    if o.op.w != WordOf(pg) || pg.threadFree == [] {
      OwnerOnly(s, t, s'.OwnerOf(t));
    } else {
      DetachInv(s, t, o.op.p);
    }
  }

  // The successful exchange of `_mi_page_thread_free_collect`.
  lemma DetachInv(s: State, t: Tid, p: nat)
    requires Inv(s) && s.OwnerOf(t).op.Collect? && s.OwnerOf(t).op.p == p && p in s.pages && s.pages[p].threadFree != []
    ensures var pg := s.pages[p];
      Inv(s.SetPage(p, pg.(threadFree := [])).MoveAll(pg.threadFree, Detached(t))
           .SetOwner(t, s.OwnerOf(t).(op := Append(p, pg.threadFree))))
  {
    hide Domain, PageLists, OwnerLists, Hands, Heaps, DelayedThreads, PendingInv, OwnersInv;
    OwnerFacts(s, t);
    PageFacts(s, p);
    var pg := s.pages[p];
    var pg', o', l := pg.(threadFree := []), s.OwnerOf(t).(op := Append(p, pg.threadFree)), pg.threadFree;
    var loc' := s.MoveAll(l, Detached(t)).loc;
    ListMove(s, l, Detached(t));
    OwnerListsDetach(s.owners, s.loc, t, o', l, loc');
    HandsFrame(s.freers, s.loc, loc');
    DomainPage(s.pages, loc', p, pg');
    DetachPage(s.loc, p, pg, t, loc');
    PageListsUpdate(s.pages, s.loc, p, pg', loc');
    OwnersSet(s.pages, s.owners, t, o');
    OpFrame(s, s.pages, loc', t, o');
    ControlFrame(s.freers, s.pages, s.owners[t := o'], loc', p, pg');
  }

  lemma CollectAppendInv(s: State, t: Tid, s': State)
    requires Inv(s) && CollectStep(s, t, CollectAppend, s')
    ensures Inv(s')
  {
    hide Inv;
    AttachInv(s, t, s.OwnerOf(t).op.p, s.OwnerOf(t).op.list);
  }

  // Appending the detached list to the local list of its page.
  lemma AttachInv(s: State, t: Tid, p: nat, l: seq<Block>)
    requires Inv(s) && s.OwnerOf(t).op == Append(p, l) && p in s.pages && l != []
    ensures var pg := s.pages[p];
      Inv(s.SetPage(p, pg.(localFree := l + pg.localFree, used := pg.used - |l|)).MoveAll(l, InLocal)
           .Link(l[|l| - 1], HeadOf(pg.localFree)).SetOwner(t, s.OwnerOf(t).(op := NoOp)))
  {
    hide Domain, PageLists, OwnerLists, Hands, Heaps, DelayedThreads, PendingInv, OwnersInv;
    OwnerFacts(s, t);
    PageFacts(s, p);
    var pg := s.pages[p];
    var pg', o' := pg.(localFree := l + pg.localFree, used := pg.used - |l|), s.OwnerOf(t).(op := NoOp);
    var loc' := s.MoveAll(l, InLocal).loc;
    assert forall b | b in l :: At(s.loc, b, Detached(t));
    ListMove(s, l, InLocal);
    OwnerListsAttach(s.owners, s.loc, t, o', l, loc');
    HandsFrame(s.freers, s.loc, loc');
    DomainPage(s.pages, loc', p, pg');
    AttachPage(s.loc, p, pg, t, l, loc');
    PageListsUpdate(s.pages, s.loc, p, pg', loc');
    OwnersSet(s.pages, s.owners, t, o');
    OpFrame(s, s.pages, loc', t, o');
    ControlFrame(s.freers, s.pages, s.owners[t := o'], loc', p, pg');
  }

  lemma OwnerListsTake(owners: Owners, loc: Loc, t: Tid, o: Owner, loc': Loc)
    requires OwnerLists(owners, loc) && loc'.Keys == loc.Keys
    requires var o0 := OwnerAt(owners, t);
      && o0.walk == [] && o.delayed == [] && o.walk == o0.delayed && DetachedList(o0) == DetachedList(o) == []
      && forall b | b in loc :: loc'[b] == if b in o0.delayed then Drained(t) else loc[b]
    ensures OwnerLists(owners[t := o], loc')
  {
    var owners' := owners[t := o];
    assert OwnerListsOf(loc, t, OwnerAt(owners, t));
    forall u: Tid ensures OwnerListsOf(loc', u, OwnerAt(owners', u)) {
      assert OwnerListsOf(loc, u, OwnerAt(owners, u));
      assert forall b :: b in loc.Keys <==> b in loc'.Keys;
      if u == t {
        forall b ensures b in o.walk <==> At(loc', b, Drained(t)) {
          assert b !in OwnerAt(owners, t).walk && !At(loc, b, Drained(t));
          assert b in o.walk <==> At(loc, b, OnDelayed(t));
        }
        forall b ensures b in DetachedList(o) <==> At(loc', b, Detached(t)) {
          assert b !in DetachedList(OwnerAt(owners, t)) && !At(loc, b, Detached(t));
        }
        forall b ensures b in o.delayed <==> At(loc', b, OnDelayed(t)) {
          assert b in o.walk <==> At(loc, b, OnDelayed(t));
        }
      } else {
        assert OwnerAt(owners', u) == OwnerAt(owners, u);
      }
    }
  }

  lemma TakeCasInv(s: State, t: Tid, s': State)
    requires Inv(s) && CollectStep(s, t, TakeCas, s')
    ensures Inv(s')
  {
    hide Inv;
    OwnerFacts(s, t);
    TakenInv(s, t, s'.OwnerOf(t));
  }

  // The successful exchange of the delayed list: its blocks are now those to be walked.
  lemma TakenInv(s: State, t: Tid, o: Owner)
    requires Inv(s) && OpInv(s.pages, t, o) && PhaseInv(s.pages, t, o)
    requires s.OwnerOf(t).walk == [] && DetachedList(s.OwnerOf(t)) == DetachedList(o) == []
    requires o.delayed == [] && o.walk == s.OwnerOf(t).delayed && !o.past
    ensures Inv(s.MoveAll(s.OwnerOf(t).delayed, Drained(t)).SetOwner(t, o))
  {
    hide Domain, PageLists, OwnerLists, Hands, Heaps, DelayedThreads, PendingInv, OwnersInv;
    OwnerFacts(s, t);
    var loc', owners' := s.MoveAll(s.OwnerOf(t).delayed, Drained(t)).loc, s.owners[t := o];
    assert loc'.Keys == s.loc.Keys;
    DomainFrame(s.pages, s.loc, loc');
    OwnerListsTake(s.owners, s.loc, t, o, loc');
    HandsFrame(s.freers, s.loc, loc');
    PageListsFrame(s.pages, s.loc, loc');
    OwnersSet(s.pages, s.owners, t, o);
    TakenPending(s, t, o, loc');
  }

  // Blocks that were on the delayed list are still pending while they are walked.
  lemma TakenPending(s: State, t: Tid, o: Owner, loc': Loc)
    requires Inv(s) && s.OwnerOf(t).walk == [] && o.walk == s.OwnerOf(t).delayed && !o.past
    requires loc' == s.MoveAll(s.OwnerOf(t).delayed, Drained(t)).loc
    ensures DelayedThreads(s.freers, s.pages, s.owners[t := o], loc') && PendingInv(s.pages, s.owners[t := o], loc')
  {
    hide Domain, PageLists, OwnerLists, Hands, Heaps, DelayedThreads, PendingInv, OwnersInv;
    OwnerFacts(s, t);
    DelayedOwnedOf(s);
    assert DelayedOwned(s.pages, loc');
    assert MorePending(s.pages, s.owners, s.loc, s.owners[t := o], loc');
    DelayedMono(s.freers, s.pages, s.owners, s.loc, s.owners[t := o], loc');
    PendingMono(s.pages, s.owners, s.loc, s.owners[t := o], loc');
  }

  lemma OwnerListsWalk(owners: Owners, loc: Loc, t: Tid)
    requires OwnerLists(owners, loc) && OwnerAt(owners, t).walk != [] && !OwnerAt(owners, t).op.Append?
    ensures var o := OwnerAt(owners, t);
      OwnerLists(owners[t := o.(walk := o.walk[1..], past := false)], loc[o.walk[0] := InLocal])
  {
    var o := OwnerAt(owners, t);
    var o' := o.(walk := o.walk[1..], past := false);
    var owners', loc' := owners[t := o'], loc[o.walk[0] := InLocal];
    assert OwnerListsOf(loc, t, o);
    assert o.walk[0] in o.walk && o.walk == [o.walk[0]] + o.walk[1..];
    forall u: Tid ensures OwnerListsOf(loc', u, OwnerAt(owners', u)) {
      assert OwnerListsOf(loc, u, OwnerAt(owners, u));
      if u == t {
        forall b ensures b in o'.walk <==> At(loc', b, Drained(t)) {
          assert b in o.walk <==> At(loc, b, Drained(t));
          assert b in o.walk <==> b == o.walk[0] || b in o'.walk;
        }
        forall b ensures b in DetachedList(o') <==> At(loc', b, Detached(t)) {
          assert b in DetachedList(o) <==> At(loc, b, Detached(t));
        }
        forall b ensures b in o'.delayed <==> At(loc', b, OnDelayed(t)) {
          assert b in o.delayed <==> At(loc, b, OnDelayed(t));
        }
      } else {
        assert OwnerAt(owners', u) == OwnerAt(owners, u);
      }
    }
  }

  lemma WalkFreeInv(s: State, t: Tid, s': State)
    requires Inv(s) && CollectStep(s, t, WalkFree, s')
    ensures Inv(s')
  {
    hide Domain, PageLists, OwnerLists, Hands, Heaps, DelayedThreads, PendingInv, OwnersInv;
    OwnerFacts(s, t);
    WalkOwned(s, t);
    var o, o' := s.OwnerOf(t), s'.OwnerOf(t);
    var b := o.walk[0];
    assert s'.loc.Keys == s.loc.Keys;
    DomainFrame(s.pages, s.loc, s'.loc);
    OwnerListsWalk(s.owners, s.loc, t);
    HandsFrame(s.freers, s.loc, s'.loc);
    PushPlace(s.pages, s.loc, b, InLocal, s.pages[b.page].used - 1);
    DomainPage(s.pages, s'.loc, b.page, s'.pages[b.page]);
    OwnersSet(s.pages, s.owners, t, o');
    DelayedOwnedOf(s);
    assert o.walk[0] !in o'.walk;
    assert MorePending(s.pages, s.owners, s.loc, s'.owners, s'.loc);
    DelayedMono(s.freers, s.pages, s.owners, s.loc, s'.owners, s'.loc);
    PendingMono(s.pages, s.owners, s.loc, s'.owners, s'.loc);
    ControlFrame(s.freers, s.pages, s'.owners, s'.loc, b.page, s'.pages[b.page]);
  }

  lemma ExtendInv(s: State, t: Tid, p: nat, n: nat, s': State)
    requires Inv(s) && LocalStep(s, t, Extend(p, n), s')
    ensures Inv(s')
  {
    hide PageLists, OwnerLists, Hands, Heaps, DelayedThreads, PendingInv, OwnersInv, PageListsOf, Domain, Fresh,
      AddFree, LinkFresh;
    var pg, loc' := s.pages[p], s'.loc;
    PageFacts(s, p);
    ExtendDomain(s.pages, s.loc, p, n, loc');
    ExtendPage(s.loc, p, pg, n, loc');
    ExtendOthers(s, p, s'.pages[p], loc');
  }

  lemma ExtendDomain(pages: Pages, loc: Loc, p: nat, n: nat, loc': Loc)
    requires Domain(pages, loc) && p in pages
    requires forall b :: b in loc' <==> b in loc || b in Fresh(p, pages[p].capacity, n)
    ensures var pg := pages[p];
      && Domain(pages[p := pg.(capacity := pg.capacity + n, free := Fresh(p, pg.capacity, n))], loc')
      && (forall b: Block | b.page == p && b in loc :: b.idx < pg.capacity)
      && (forall b | b in Fresh(p, pg.capacity, n) :: b !in loc && b.page == p)
  {
    FreshMembers(p, pages[p].capacity, n);
  }

  lemma ExtendOthers(s: State, p: nat, pg: Page, loc': Loc)
    requires p in s.pages && SameControl(s.pages[p], pg) && PageListsOf(loc', p, pg)
    requires PageLists(s.pages, s.loc) && OwnerLists(s.owners, s.loc) && Hands(s.freers, s.loc) && Heaps(s.pages)
    requires DelayedThreads(s.freers, s.pages, s.owners, s.loc)
    requires PendingInv(s.pages, s.owners, s.loc) && OwnersInv(s.pages, s.owners)
    requires forall b | b in s.loc :: b in loc' && loc'[b] == s.loc[b]
    requires forall b | b in loc' && b !in s.loc :: loc'[b] == InFree && b.page == p
    ensures var pages' := s.pages[p := pg];
      && PageLists(pages', loc') && OwnerLists(s.owners, loc') && Hands(s.freers, loc') && Heaps(pages')
      && DelayedThreads(s.freers, pages', s.owners, loc')
      && PendingInv(pages', s.owners, loc') && OwnersInv(pages', s.owners)
  {
    hide PageLists, OwnerLists, Hands, Heaps, DelayedThreads, PendingInv, OwnersInv, PageListsOf;
    OwnerListsFrame(s.owners, s.loc, loc');
    HandsFrame(s.freers, s.loc, loc');
    PageListsUpdate(s.pages, s.loc, p, pg, loc');
    DelayedOwnedOf(s);
    assert MorePending(s.pages, s.owners, s.loc, s.owners, loc');
    DelayedMono(s.freers, s.pages, s.owners, s.loc, s.owners, loc');
    PendingMono(s.pages, s.owners, s.loc, s.owners, loc');
    ControlFrame(s.freers, s.pages, s.owners, loc', p, pg);
  }

  // The heap and owner of an idle page change hands.
  lemma OwnersControl(pages: Pages, owners: Owners, t: Tid, p: nat, pg: Page)
    requires p in pages && OwnersInv(pages, owners) && OwnerAt(owners, t).op == NoOp
    requires pages[p].owner == None || pages[p].owner == Some(t)
    requires pg.owner == None || pg.owner == Some(t)
    requires pg.flag == pages[p].flag
    requires OwnerAt(owners, t).phase == Running
      || (pg.heap == None && (pages[p].heap == None || OwnerAt(owners, t).phase == Abandoning))
    ensures OwnersInv(pages[p := pg], owners)
  {
    var pages' := pages[p := pg];
    forall u: Tid ensures OpInv(pages', u, OwnerAt(owners, u)) && PhaseInv(pages', u, OwnerAt(owners, u)) {
      assert OpInv(pages, u, OwnerAt(owners, u)) && PhaseInv(pages, u, OwnerAt(owners, u));
      assert u != t ==> forall q :: Owned(pages', u, q) <==> Owned(pages, u, q);
    }
  }

  lemma PendingControl(pages: Pages, owners: Owners, loc: Loc, p: nat, pg: Page)
    requires p in pages && PendingInv(pages, owners, loc) && pg.flag == pages[p].flag
    requires forall b | b in loc && b.page == p :: !loc[b].OnDelayed? && !loc[b].Drained?
    ensures PendingInv(pages[p := pg], owners, loc)
  {}

  lemma ControlChange(s: State, t: Tid, p: nat, pg: Page)
    requires Inv(s) && p in s.pages && s.OwnerOf(t).op == NoOp
    requires pg == s.pages[p].(heap := pg.heap, owner := pg.owner) && pg.flag == NeverDelayed
    requires s.pages[p].owner == None || s.pages[p].owner == Some(t)
    requires pg.owner == None || pg.owner == Some(t)
    requires pg.heap.Some? ==> pg.heap == pg.owner
    requires s.OwnerOf(t).phase == Running
      || (pg.heap == None && (s.pages[p].heap == None || s.OwnerOf(t).phase == Abandoning))
    requires s.pages[p].heap.Some? ==> s.OwnerOf(t).phase == Abandoning && s.pages[p].heap == Some(t)
    ensures Inv(s.SetPage(p, pg))
  {
    hide OwnerLists, Hands, PageLists, DelayedThreads, OwnersInv;
    DomainPage(s.pages, s.loc, p, pg);
    PageFacts(s, p);
    PageListsUpdate(s.pages, s.loc, p, pg, s.loc);
    OwnersControl(s.pages, s.owners, t, p, pg);
    NoDelayedBlocks(s, t, p);
    PendingControl(s.pages, s.owners, s.loc, p, pg);
    DelayedControl(s.freers, s.pages, s.owners, s.loc, p, pg);
  }

  lemma DelayedControl(freers: Freers, pages: Pages, owners: Owners, loc: Loc, p: nat, pg: Page)
    requires p in pages && DelayedThreads(freers, pages, owners, loc)
    requires pages[p].flag == pg.flag && pg.flag != DelayedFreeing
    ensures DelayedThreads(freers, pages[p := pg], owners, loc)
  {}

  // After the drain of an abandoning heap, and on pages without a heap, no block of the page
  // is on any delayed list.
  lemma NoDelayedBlocks(s: State, t: Tid, p: nat)
    requires Inv(s) && p in s.pages
    requires s.pages[p].heap == None || (s.pages[p].heap == Some(t) && s.OwnerOf(t).phase == Abandoning)
    ensures forall b | b in s.loc && b.page == p :: !s.loc[b].OnDelayed? && !s.loc[b].Drained?
  {
    hide PageLists, Domain, Hands, DelayedThreads, Heaps;
    OwnerFacts(s, t);
    forall b | b in s.loc && b.page == p ensures !s.loc[b].OnDelayed? && !s.loc[b].Drained? {
      assert At(s.loc, b, OnDelayed(t)) <==> b in s.OwnerOf(t).delayed;
      assert At(s.loc, b, Drained(t)) <==> b in s.OwnerOf(t).walk;
    }
  }

  lemma HandOverInv(s: State, t: Tid, a: Action, s': State)
    requires Inv(s) && PhaseStep(s, t, a, s') && (a.AbandonPage? || a.Adopt? || a.Disown? || a.Reclaim?)
    ensures Inv(s')
  {
    hide Inv, PhaseStep;
    match a
    case AbandonPage(p) => AbandonPageInv(s, t, p, s');
    case Adopt(p) => AdoptInv(s, t, p, s');
    case Disown(p) => DisownInv(s, t, p, s');
    case Reclaim(p) => ReclaimInv(s, t, p, s');
  }

  lemma AbandonPageInv(s: State, t: Tid, p: nat, s': State)
    requires Inv(s) && PhaseStep(s, t, AbandonPage(p), s')
    ensures Inv(s')
  {
    hide Inv;
    OwnerFacts(s, t);
    ControlChange(s, t, p, s'.pages[p]);
  }

  lemma AdoptInv(s: State, t: Tid, p: nat, s': State)
    requires Inv(s) && PhaseStep(s, t, Adopt(p), s')
    ensures Inv(s')
  {
    hide Domain, PageLists, OwnerLists, Hands, DelayedThreads, PendingInv, OwnersInv;
    ControlChange(s, t, p, s'.pages[p]);
  }

  lemma DisownInv(s: State, t: Tid, p: nat, s': State)
    requires Inv(s) && PhaseStep(s, t, Disown(p), s')
    ensures Inv(s')
  {
    hide Domain, PageLists, OwnerLists, Hands, DelayedThreads, PendingInv, OwnersInv;
    ControlChange(s, t, p, s'.pages[p]);
  }

  lemma ReclaimInv(s: State, t: Tid, p: nat, s': State)
    requires Inv(s) && PhaseStep(s, t, Reclaim(p), s')
    ensures Inv(s')
  {
    hide Domain, PageLists, OwnerLists, Hands, DelayedThreads, PendingInv, OwnersInv;
    ControlChange(s, t, p, s'.pages[p]);
    OwnerOnlyOf(s.SetPage(p, s'.pages[p]), t, s'.OwnerOf(t));
  }

  lemma OwnerOnlyOf(s: State, t: Tid, o: Owner)
    requires Inv(s) && Calm(s.OwnerOf(t)) && o == s.OwnerOf(t).(op := o.op) && o.op.SetFlag?
    requires Owned(s.pages, t, o.op.p) && o.op.to == UseDelayed && o.op.override
    ensures Inv(s.SetOwner(t, o))
  {
    hide Domain, PageLists, OwnerLists, Hands, Heaps, DelayedThreads, PendingInv, OwnersInv;
    OwnerFacts(s, t);
    OwnerOnly(s, t, o);
  }

  // ---- freeing a page

  ghost function BlocksOf(p: nat, n: nat): (r: set<Block>)
    ensures |r| == n && forall b: Block :: b in r <==> b.page == p && b.idx < n
  {
    if n == 0 then {} else BlocksOf(p, n - 1) + {Block(p, n - 1)}
  }

  // `used` counts the blocks of the page that are on neither of its two local lists.
  lemma UsedCounts(s: State, p: nat)
    requires Inv(s) && p in s.pages
    ensures s.pages[p].used == |InUse(s, p)|
  {
    hide OwnerLists, Hands, Heaps, DelayedThreads, PendingInv, OwnersInv;
    PageFacts(s, p);
    hide PageLists;
    CountBlocks(s.loc, p, s.pages[p], BlocksOf(p, s.pages[p].capacity), InUse(s, p));
  }

  lemma CountBlocks(loc: Loc, p: nat, pg: Page, all: set<Block>, used: set<Block>)
    requires PageListsOf(loc, p, pg)
    requires |all| == pg.capacity && forall b :: b in all <==> b in loc && b.page == p
    requires forall b :: b in used <==> b in loc && b.page == p && !loc[b].InFree? && !loc[b].InLocal?
    ensures pg.used == |used|
  {
    var free, local := Elems(pg.free), Elems(pg.localFree);
    NoDupCard(pg.free);
    NoDupCard(pg.localFree);
    assert forall b :: b in free <==> b.page == p && At(loc, b, InFree);
    assert forall b :: b in local <==> b.page == p && At(loc, b, InLocal);
    assert all == free + local + used;
    assert free !! local && (free + local) !! used;
  }

  ghost function InUse(s: State, p: nat): set<Block> {
    set b | b in s.loc && b.page == p && !s.loc[b].InFree? && !s.loc[b].InLocal?
  }

  lemma UnusedAllFree(s: State, p: nat)
    requires Inv(s) && p in s.pages && s.pages[p].used == 0
    ensures forall b | b in s.loc && b.page == p :: s.loc[b].InFree? || s.loc[b].InLocal?
    ensures s.pages[p].flag != DelayedFreeing && s.pages[p].flag != NoDelayed
    ensures forall u: Tid | !FreerAt(s.freers, u).Idle? :: FreerAt(s.freers, u).block.page != p
  {
    UsedCounts(s, p);
    assert InUse(s, p) == {};
    assert forall b | b in s.loc && b.page == p :: b !in InUse(s, p);
    NotInUse(s, p);
  }

  lemma NotInUse(s: State, p: nat)
    requires Inv(s) && p in s.pages
    requires forall b | b in s.loc && b.page == p :: s.loc[b].InFree? || s.loc[b].InLocal?
    ensures s.pages[p].flag != DelayedFreeing && s.pages[p].flag != NoDelayed
    ensures forall u: Tid | !FreerAt(s.freers, u).Idle? :: FreerAt(s.freers, u).block.page != p
  {
    hide OwnerLists, OwnersInv, PageLists, Heaps, Domain, Hands;
    if s.pages[p].flag == DelayedFreeing {
      var u: Tid :| InDelayed(FreerAt(s.freers, u)) && FreerAt(s.freers, u).block.page == p;
      FreerBlock(s, u);
    }
    forall u: Tid | !FreerAt(s.freers, u).Idle? ensures FreerAt(s.freers, u).block.page != p {
      FreerBlock(s, u);
    }
  }

  // The block a freeing thread works on is in its hand or on the delayed path.
  lemma FreerBlock(s: State, u: Tid)
    requires Inv(s) && !FreerAt(s.freers, u).Idle?
    ensures var b := FreerAt(s.freers, u).block;
      b in s.loc && (s.loc[b] == Hand(u) || s.loc[b].OnDelayed? || s.loc[b].Drained?)
  {
    hide OwnerLists, OwnersInv, PageLists, Heaps, Domain, PendingInv;
    var f := FreerAt(s.freers, u);
    if InHand(f) == Some(f.block) {
      assert At(s.loc, f.block, Hand(u));
    } else {
      assert DelayedThread(f, s.pages, s.owners, s.loc);
    }
  }

  lemma FreePageInv(s: State, t: Tid, p: nat, s': State)
    requires Inv(s) && LocalStep(s, t, FreePage(p), s')
    ensures Inv(s')
  {
    hide Domain, PageLists, OwnerLists, Hands, Heaps, DelayedThreads, PendingInv, OwnersInv;
    OwnerFacts(s, t);
    UnusedAllFree(s, p);
    OwnerListsFrame(s.owners, s.loc, s'.loc);
    HandsFrame(s.freers, s.loc, s'.loc);
    FreePagePages(s.pages, s.loc, p, s'.loc);
    FreePageOwners(s, t, p);
    FreePageDelayed(s, p, s'.loc);
  }

  lemma FreePagePages(pages: Pages, loc: Loc, p: nat, loc': Loc)
    requires Domain(pages, loc) && PageLists(pages, loc) && Heaps(pages)
    requires loc' == map b | b in loc && b.page != p :: loc[b]
    ensures Domain(pages - {p}, loc') && PageLists(pages - {p}, loc') && Heaps(pages - {p})
  {
    hide Domain, Heaps, PageListsOf;
    FreePageDomain(pages, loc, p, loc');
    FreePageHeaps(pages, p);
    forall q | q in pages - {p} ensures PageListsOf(loc', q, pages[q]) {
      FreePageLists(loc, p, q, pages[q], loc');
    }
  }

  lemma FreePageLists(loc: Loc, p: nat, q: nat, pg: Page, loc': Loc)
    requires PageListsOf(loc, q, pg) && q != p && loc' == map b | b in loc && b.page != p :: loc[b]
    ensures PageListsOf(loc', q, pg)
  {}

  lemma FreePageDomain(pages: Pages, loc: Loc, p: nat, loc': Loc)
    requires Domain(pages, loc) && loc' == map b | b in loc && b.page != p :: loc[b]
    ensures Domain(pages - {p}, loc')
  {}

  lemma FreePageHeaps(pages: Pages, p: nat)
    requires Heaps(pages)
    ensures Heaps(pages - {p})
  {}

  lemma FreePageOwners(s: State, t: Tid, p: nat)
    requires Inv(s) && p in s.pages && s.pages[p].owner == Some(t)
    requires s.OwnerOf(t).op == NoOp && !s.OwnerOf(t).phase.Marking?
    ensures OwnersInv(s.pages - {p}, s.owners)
  {
    hide Domain, PageLists, OwnerLists, Hands, DelayedThreads, PendingInv;
    var pages' := s.pages - {p};
    forall u: Tid ensures OpInv(pages', u, OwnerAt(s.owners, u)) && PhaseInv(pages', u, OwnerAt(s.owners, u)) {
      assert OpInv(s.pages, u, OwnerAt(s.owners, u)) && PhaseInv(s.pages, u, OwnerAt(s.owners, u));
      assert forall q :: Owned(pages', u, q) <==> Owned(s.pages, u, q) && q != p;
    }
  }

  lemma FreePageDelayed(s: State, p: nat, loc': Loc)
    requires Inv(s) && p in s.pages && loc' == map b | b in s.loc && b.page != p :: s.loc[b]
    requires forall b | b in s.loc && b.page == p :: s.loc[b].InFree? || s.loc[b].InLocal?
    requires s.pages[p].flag != DelayedFreeing
    ensures DelayedThreads(s.freers, s.pages - {p}, s.owners, loc')
    ensures PendingInv(s.pages - {p}, s.owners, loc')
  {
    hide Domain, PageLists, OwnerLists, Hands, OwnersInv, Heaps, DelayedThreads, PendingInv;
    assert MorePending(s.pages, s.owners, s.loc, s.owners, loc');
    DelayedMono(s.freers, s.pages, s.owners, s.loc, s.owners, loc');
    DelayedOwnedOf(s);
    PendingMono(s.pages, s.owners, s.loc, s.owners, loc');
    DropPage(s.freers, s.pages, s.owners, loc', p);
  }

  lemma DropPage(freers: Freers, pages: Pages, owners: Owners, loc: Loc, p: nat)
    requires DelayedThreads(freers, pages, owners, loc) && PendingInv(pages, owners, loc)
    requires p in pages && pages[p].flag != DelayedFreeing && forall b | b in loc :: b.page != p
    ensures DelayedThreads(freers, pages - {p}, owners, loc) && PendingInv(pages - {p}, owners, loc)
  {}

  // ---- every step keeps the invariant

  predicate FreerAction(a: Action) {
    a.FreeStart? || a.FreeLoad? || a.FreeCas? || a.FreeRetry? || a.ReadHeap? || a.ReadList? || a.ListCas?
    || a.ListRetry? || a.ResetLoad? || a.ResetCas? || a.ResetRetry?
  }

  predicate LocalAction(a: Action) {
    a.NewPage? || a.Extend? || a.Malloc? || a.LocalFree? || a.CollectLocal? || a.FreePage?
  }

  predicate CollectAction(a: Action) {
    a.CollectLoad? || a.CollectCas? || a.CollectAppend? || a.TakeLoad? || a.TakeCas? || a.TakeRetry? || a.WalkFree?
  }

  predicate FlagAction(a: Action) { a.WalkFlag? || a.SetFlagLoad? || a.SetFlagCas? || a.SetFlagRetry? }

  // Each action belongs to one group of steps.
  lemma WhoseAction(s: State, t: Tid, a: Action, s': State)
    requires Next(s, t, a, s')
    ensures FreerAction(a) ==> FreerStep(s, t, a, s')
    ensures LocalAction(a) ==> LocalStep(s, t, a, s')
    ensures CollectAction(a) ==> CollectStep(s, t, a, s')
    ensures FlagAction(a) ==> FlagStep(s, t, a, s')
    ensures !FreerAction(a) && !LocalAction(a) && !CollectAction(a) && !FlagAction(a) ==> PhaseStep(s, t, a, s')
  {
    hide FreerStep, LocalStep, CollectStep, FlagStep, PhaseStep;
    NotFreer(s, t, a, s');
    NotLocal(s, t, a, s');
    NotCollect(s, t, a, s');
    NotFlag(s, t, a, s');
    NotPhase(s, t, a, s');
  }

  lemma NotFreer(s: State, t: Tid, a: Action, s': State)
    ensures !FreerAction(a) ==> !FreerStep(s, t, a, s')
  {}

  lemma NotLocal(s: State, t: Tid, a: Action, s': State)
    ensures !LocalAction(a) ==> !LocalStep(s, t, a, s')
  {}

  lemma NotCollect(s: State, t: Tid, a: Action, s': State)
    ensures !CollectAction(a) ==> !CollectStep(s, t, a, s')
  {}

  lemma NotFlag(s: State, t: Tid, a: Action, s': State)
    ensures !FlagAction(a) ==> !FlagStep(s, t, a, s')
  {}

  lemma NotPhase(s: State, t: Tid, a: Action, s': State)
    ensures FreerAction(a) || LocalAction(a) || CollectAction(a) || FlagAction(a) ==> !PhaseStep(s, t, a, s')
  {}

  lemma FreerStepInv(s: State, t: Tid, a: Action, s': State)
    requires Inv(s) && FreerAction(a) && FreerStep(s, t, a, s')
    ensures Inv(s')
  {
    hide Inv, FreerStep;
    match a
    case FreeStart(b) => FreeStartInv(s, t, b, s');
    case FreeLoad => FreeLoadInv(s, t, a, s');
    case FreeRetry => FreeLoadInv(s, t, a, s');
    case FreeCas => FreeCasInv(s, t, s');
    case ListCas => ListCasInv(s, t, s');
    case ResetCas => ResetCasInv(s, t, s');
    case _ => DelayedLoadInv(s, t, a, s');
  }

  lemma FreeCasInv(s: State, t: Tid, s': State)
    requires Inv(s) && FreerStep(s, t, FreeCas, s')
    ensures Inv(s')
  {
    hide Inv;
    if s.FreerOf(t).w.flag == UseDelayed { FreeCasClaimInv(s, t, s'); } else { FreeCasPushInv(s, t, s'); }
  }

  lemma LocalStepInv(s: State, t: Tid, a: Action, s': State)
    requires Inv(s) && LocalAction(a) && LocalStep(s, t, a, s')
    ensures Inv(s')
  {
    hide Inv, LocalStep;
    match a
    case NewPage(p, r) => NewPageInv(s, t, p, r, s');
    case Extend(p, n) => ExtendInv(s, t, p, n, s');
    case Malloc(p) => MallocInv(s, t, p, s');
    case LocalFree(b) => LocalFreeInv(s, t, b, s');
    case CollectLocal(p, force) => CollectLocalInv(s, t, p, force, s');
    case FreePage(p) => FreePageInv(s, t, p, s');
  }

  lemma CollectStepInv(s: State, t: Tid, a: Action, s': State)
    requires Inv(s) && CollectAction(a) && CollectStep(s, t, a, s')
    ensures Inv(s')
  {
    hide Inv, CollectStep;
    match a
    case CollectCas => CollectCasInv(s, t, s');
    case CollectAppend => CollectAppendInv(s, t, s');
    case TakeCas => TakeCasInv(s, t, s');
    case WalkFree => WalkFreeInv(s, t, s');
    case _ => CollectLoadInv(s, t, a, s');
  }

  lemma FlagStepInv(s: State, t: Tid, a: Action, s': State)
    requires Inv(s) && FlagAction(a) && FlagStep(s, t, a, s')
    ensures Inv(s')
  {
    hide Inv, FlagStep;
    match a
    case SetFlagLoad => SetFlagLoadInv(s, t, s');
    case SetFlagCas => SetFlagCasInv(s, t, s');
    case _ => FlagLoadInv(s, t, a, s');
  }

  lemma PhaseStepInv(s: State, t: Tid, a: Action, s': State)
    requires Inv(s) && PhaseStep(s, t, a, s')
    ensures Inv(s')
  {
    NotPhase(s, t, a, s');
    hide Inv, PhaseStep;
    if a.AbandonPage? || a.Adopt? || a.Disown? || a.Reclaim? {
      HandOverInv(s, t, a, s');
    } else {
      MarkingInv(s, t, a, s');
    }
  }

  lemma StepInv(s: State, t: Tid, a: Action, s': State)
    requires Inv(s) && Next(s, t, a, s')
    ensures Inv(s')
  {
    hide Inv, FreerStep, LocalStep, CollectStep, FlagStep, PhaseStep;
    WhoseAction(s, t, a, s');
    if FreerAction(a) { FreerStepInv(s, t, a, s'); }
    else if LocalAction(a) { LocalStepInv(s, t, a, s'); }
    else if CollectAction(a) { CollectStepInv(s, t, a, s'); }
    else if FlagAction(a) { FlagStepInv(s, t, a, s'); }
    else { PhaseStepInv(s, t, a, s'); }
  }
}
