// What holds in every reachable state of the cross-thread free protocol.
module ThreadFreeRuns {
  import opened Base
  import opened ThreadFree
  import opened ThreadFreeInv

  type LinkMem = map<Block, Option<Block>>

  function Follow(next: LinkMem, b: Block): Option<Block> { if b in next then next[b] else None }

  // Following the link words from the head of l visits exactly l and ends with null.
  ghost predicate Linked(next: LinkMem, l: seq<Block>) {
    forall i | 0 <= i < |l| :: LinkedAt(next, l, i)
  }

  predicate LinkedAt(next: LinkMem, l: seq<Block>, i: nat)
    requires i < |l|
  {
    if i + 1 < |l| then Follow(next, l[i]) == Some(l[i + 1]) else Follow(next, l[i]) == None
  }

  ghost predicate PageLinks(pages: Pages, next: LinkMem) {
    forall p | p in pages ::
      Linked(next, pages[p].free) && Linked(next, pages[p].localFree) && Linked(next, pages[p].threadFree)
  }

  ghost predicate OwnerLinks(owners: Owners, next: LinkMem) {
    forall t: Tid :: OwnerLinksOf(OwnerAt(owners, t), next)
  }

  ghost predicate OwnerLinksOf(o: Owner, next: LinkMem) {
    Linked(next, o.delayed) && Linked(next, o.walk) && Linked(next, DetachedList(o))
  }

  // ---- writing one link word

  lemma LinkFrame(next: LinkMem, b: Block, n: Option<Block>, l: seq<Block>)
    requires Linked(next, l) && b !in l
    ensures Linked(next[b := n], l)
  {
    var next' := next[b := n];
    forall i | 0 <= i < |l| ensures LinkedAt(next', l, i) {
      assert LinkedAt(next, l, i) && l[i] in l;
    }
  }

  lemma LinkPush(next: LinkMem, b: Block, l: seq<Block>)
    requires Linked(next, l) && b !in l
    ensures Linked(next[b := HeadOf(l)], [b] + l)
  {
    var m, next' := [b] + l, next[b := HeadOf(l)];
    forall i | 0 <= i < |m| ensures LinkedAt(next', m, i)
    {
      if i > 0 {
        assert LinkedAt(next, l, i - 1) && m[i] == l[i - 1] && l[i - 1] in l;
        if i + 1 < |m| { assert m[i + 1] == l[i]; }
      }
    }
  }

  lemma LinkTail(next: LinkMem, l: seq<Block>)
    requires Linked(next, l) && l != []
    ensures Linked(next, l[1..])
  {
    var m := l[1..];
    forall i | 0 <= i < |m| ensures LinkedAt(next, m, i) {
      assert LinkedAt(next, l, i + 1) && m[i] == l[i + 1];
      if i + 1 < |m| { assert m[i + 1] == l[i + 2]; }
    }
  }

  lemma LinkConcat(next: LinkMem, a: seq<Block>, b: seq<Block>)
    requires Linked(next, a) && Linked(next, b) && a != [] && NoDup(a) && a[|a| - 1] !in b
    ensures Linked(next[a[|a| - 1] := HeadOf(b)], a + b)
  {
    var m, next' := a + b, next[a[|a| - 1] := HeadOf(b)];
    forall i | 0 <= i < |m| ensures LinkedAt(next', m, i) {
      if i < |a| - 1 {
        assert LinkedAt(next, a, i) && m[i] == a[i] && m[i + 1] == a[i + 1];
      } else if i >= |a| {
        assert LinkedAt(next, b, i - |a|) && m[i] == b[i - |a|] && b[i - |a|] in b;
        if i + 1 < |m| { assert m[i + 1] == b[i + 1 - |a|]; }
      }
    }
  }

  // Pages whose lists do not hold the written block keep their links.
  lemma PageLinksWrite(pages: Pages, next: LinkMem, p: nat, pg: Page, b: Block, n: Option<Block>)
    requires PageLinks(pages, next)
    requires forall q | q in pages && q != p ::
      b !in pages[q].free && b !in pages[q].localFree && b !in pages[q].threadFree
    requires var next' := next[b := n];
      Linked(next', pg.free) && Linked(next', pg.localFree) && Linked(next', pg.threadFree)
    ensures PageLinks(pages[p := pg], next[b := n])
  {
    forall q | q in pages && q != p
      ensures Linked(next[b := n], pages[q].free) && Linked(next[b := n], pages[q].localFree)
        && Linked(next[b := n], pages[q].threadFree)
    {
      LinkFrame(next, b, n, pages[q].free);
      LinkFrame(next, b, n, pages[q].localFree);
      LinkFrame(next, b, n, pages[q].threadFree);
    }
  }

  lemma OwnerLinksWrite(owners: Owners, next: LinkMem, t: Tid, o: Owner, b: Block, n: Option<Block>)
    requires OwnerLinks(owners, next) && OwnerLinksOf(o, next[b := n])
    requires forall u: Tid | u != t :: var x := OwnerAt(owners, u);
      b !in x.delayed && b !in x.walk && b !in DetachedList(x)
    ensures OwnerLinks(owners[t := o], next[b := n])
  {
    var owners' := owners[t := o];
    forall u: Tid ensures OwnerLinksOf(OwnerAt(owners', u), next[b := n]) {
      if u != t {
        var x := OwnerAt(owners, u);
        assert OwnerAt(owners', u) == x && OwnerLinksOf(x, next);
        LinkFrame(next, b, n, x.delayed);
        LinkFrame(next, b, n, x.walk);
        LinkFrame(next, b, n, DetachedList(x));
      }
    }
  }

  lemma OwnerLinksSet(owners: Owners, next: LinkMem, t: Tid, o: Owner)
    requires OwnerLinks(owners, next) && OwnerLinksOf(o, next)
    ensures OwnerLinks(owners[t := o], next)
  {
    var owners' := owners[t := o];
    forall u: Tid ensures OwnerLinksOf(OwnerAt(owners', u), next) {
      if u != t { assert OwnerAt(owners', u) == OwnerAt(owners, u); }
    }
  }

  // A block is on no list but the one its place names.
  lemma Listed(s: State, b: Block)
    requires Inv(s) && b in s.loc
    ensures forall q | q in s.pages ::
      && (b in s.pages[q].free ==> q == b.page && s.loc[b] == InFree)
      && (b in s.pages[q].localFree ==> q == b.page && s.loc[b] == InLocal)
      && (b in s.pages[q].threadFree ==> q == b.page && s.loc[b] == InThread)
    ensures forall u: Tid :: var o := OwnerAt(s.owners, u);
      && (b in o.delayed ==> s.loc[b] == OnDelayed(u))
      && (b in o.walk ==> s.loc[b] == Drained(u))
      && (b in DetachedList(o) ==> s.loc[b] == Detached(u))
  {
    hide Domain, Hands, Heaps, DelayedThreads, PendingInv, OwnersInv;
    forall q | q in s.pages
      ensures (b in s.pages[q].free ==> q == b.page && s.loc[b] == InFree)
        && (b in s.pages[q].localFree ==> q == b.page && s.loc[b] == InLocal)
        && (b in s.pages[q].threadFree ==> q == b.page && s.loc[b] == InThread)
    {
      assert PageListsOf(s.loc, q, s.pages[q]);
    }
    forall u: Tid
      ensures (b in OwnerAt(s.owners, u).delayed ==> s.loc[b] == OnDelayed(u))
        && (b in OwnerAt(s.owners, u).walk ==> s.loc[b] == Drained(u))
        && (b in DetachedList(OwnerAt(s.owners, u)) ==> s.loc[b] == Detached(u))
    {
      assert OwnerListsOf(s.loc, u, OwnerAt(s.owners, u));
    }
  }

  ghost predicate Links(s: State) { PageLinks(s.pages, s.next) && OwnerLinks(s.owners, s.next) }

  ghost predicate Good(s: State) { Inv(s) && Links(s) }

  // A block pushed on a list of its own page.
  lemma PushPageLinks(s: State, b: Block, pg: Page, l: seq<Block>)
    requires Good(s) && b in s.loc && b.page in s.pages
    requires !s.loc[b].InFree? && !s.loc[b].InLocal? && !s.loc[b].InThread?
    requires var old_ := s.pages[b.page];
      || (l == old_.localFree && pg.localFree == [b] + l && pg.free == old_.free && pg.threadFree == old_.threadFree)
      || (l == old_.threadFree && pg.threadFree == [b] + l && pg.free == old_.free && pg.localFree == old_.localFree)
    ensures PageLinks(s.pages[b.page := pg], s.next[b := HeadOf(l)])
  {
    hide Inv, OwnerLinks, Linked;
    Listed(s, b);
    var old_, n := s.pages[b.page], HeadOf(l);
    LinkPush(s.next, b, l);
    LinkFrame(s.next, b, n, old_.free);
    LinkFrame(s.next, b, n, old_.localFree);
    LinkFrame(s.next, b, n, old_.threadFree);
    PageLinksWrite(s.pages, s.next, b.page, pg, b, n);
  }

  // A write to a block that is on no owner list.
  lemma OwnerLinksPlain(s: State, b: Block, n: Option<Block>)
    requires Good(s) && b in s.loc && !OwnerPlace(s.loc[b])
    ensures OwnerLinks(s.owners, s.next[b := n])
  {
    hide Inv, PageLinks, Linked;
    Listed(s, b);
    forall u: Tid ensures OwnerLinksOf(OwnerAt(s.owners, u), s.next[b := n]) {
      var x := OwnerAt(s.owners, u);
      assert OwnerLinksOf(x, s.next);
      LinkFrame(s.next, b, n, x.delayed);
      LinkFrame(s.next, b, n, x.walk);
      LinkFrame(s.next, b, n, DetachedList(x));
    }
  }

  lemma FreeCasLinks(s: State, t: Tid, s': State)
    requires Good(s) && FreerStep(s, t, FreeCas, s') && s.FreerOf(t).w.flag != UseDelayed
    ensures Links(s')
  {
    hide Inv, Linked, PageLinks, OwnerLinks;
    var b := s.FreerOf(t).block;
    InHandAt(s, t);
    PushPageLinks(s, b, s'.pages[b.page], s.pages[b.page].threadFree);
    OwnerLinksPlain(s, b, s.FreerOf(t).w.head);
  }

  lemma ListCasLinks(s: State, t: Tid, s': State)
    requires Good(s) && FreerStep(s, t, ListCas, s')
    ensures Links(s')
  {
    hide Inv, Linked, PageLinks, OwnerLinks;
    var b, h := s.FreerOf(t).block, s.FreerOf(t).heap;
    InHandAt(s, t);
    Listed(s, b);
    var o, n := s.OwnerOf(h), s.FreerOf(t).d;
    OwnerLinksAt(s, h);
    LinkPush(s.next, b, o.delayed);
    LinkFrame(s.next, b, n, o.walk);
    LinkFrame(s.next, b, n, DetachedList(o));
    OwnerLinksWrite(s.owners, s.next, h, s'.OwnerOf(h), b, n);
    PlainPageLinks(s, b, n);
  }

  // All other steps of a freeing thread leave every list as it is.
  lemma OtherFreerLinks(s: State, t: Tid, a: Action, s': State)
    requires Links(s) && FreerStep(s, t, a, s') && !a.ListCas?
    requires a.FreeCas? ==> !s.FreerOf(t).Loaded? || s.FreerOf(t).w.flag == UseDelayed
    ensures Links(s')
  {
    hide Linked, OwnerLinks, PageLinks;
    if a.FreeCas? || a.ResetCas? {
      var p := s.FreerOf(t).block.page;
      FlagPageLinks(s.pages, s.next, p, s'.pages[p].flag);
    }
  }

  lemma FlagPageLinks(pages: Pages, next: LinkMem, p: nat, flag: Flag)
    requires p in pages && PageLinks(pages, next)
    ensures PageLinks(pages[p := pages[p].(flag := flag)], next)
  {}

  lemma InHandAt(s: State, t: Tid)
    requires Inv(s) && InHand(s.FreerOf(t)).Some?
    ensures At(s.loc, InHand(s.FreerOf(t)).value, Hand(t))
  {}

  lemma PlainPageLinks(s: State, b: Block, n: Option<Block>)
    requires Good(s) && b in s.loc && !PagePlace(s.loc[b])
    ensures PageLinks(s.pages, s.next[b := n])
  {
    hide Inv, OwnerLinks, Linked;
    Listed(s, b);
    forall q | q in s.pages
      ensures var pg := s.pages[q]; var next' := s.next[b := n];
        Linked(next', pg.free) && Linked(next', pg.localFree) && Linked(next', pg.threadFree)
    {
      LinkFrame(s.next, b, n, s.pages[q].free);
      LinkFrame(s.next, b, n, s.pages[q].localFree);
      LinkFrame(s.next, b, n, s.pages[q].threadFree);
    }
  }

  predicate PagePlace(pl: Place) { pl.InFree? || pl.InLocal? || pl.InThread? }

  lemma LocalFreeLinks(s: State, t: Tid, b: Block, s': State)
    requires Good(s) && LocalStep(s, t, LocalFree(b), s')
    ensures Links(s')
  {
    hide Inv, Linked, PageLinks, OwnerLinks;
    PushPageLinks(s, b, s'.pages[b.page], s.pages[b.page].localFree);
    OwnerLinksPlain(s, b, HeadOf(s.pages[b.page].localFree));
  }

  lemma WalkFreeLinks(s: State, t: Tid, s': State)
    requires Good(s) && CollectStep(s, t, WalkFree, s')
    ensures Links(s')
  {
    hide Inv, Linked, PageLinks;
    var o := s.OwnerOf(t);
    var b := o.walk[0];
    WalkOwned(s, t);
    var n := HeadOf(s.pages[b.page].localFree);
    PushPageLinks(s, b, s'.pages[b.page], s.pages[b.page].localFree);
    Listed(s, b);
    assert OwnerLinksOf(o, s.next);
    LinkTail(s.next, o.walk);
    OwnerFacts(s, t);
    LinkFrame(s.next, b, n, o.delayed);
    LinkFrame(s.next, b, n, o.walk[1..]);
    LinkFrame(s.next, b, n, DetachedList(o));
    OwnerLinksWrite(s.owners, s.next, t, s'.OwnerOf(t), b, n);
  }

  lemma CollectLocalLinks(s: State, t: Tid, p: nat, force: bool, s': State)
    requires Good(s) && LocalStep(s, t, CollectLocal(p, force), s')
    ensures Links(s')
  {
    hide Inv, Linked, OwnerLinks;
    var pg := s.pages[p];
    var b, n := pg.localFree[|pg.localFree| - 1], HeadOf(pg.free);
    PageFacts(s, p);
    assert b in pg.localFree;
    Listed(s, b);
    LinkConcat(s.next, pg.localFree, pg.free);
    LinkFrame(s.next, b, n, pg.threadFree);
    assert Linked(s.next[b := n], []) by { LinkEmpty(s.next[b := n]); }
    PageLinksWrite(s.pages, s.next, p, s'.pages[p], b, n);
    OwnerLinksPlain(s, b, n);
  }

  lemma LinkEmpty(next: LinkMem)
    ensures Linked(next, [])
  {}

  lemma CollectAppendLinks(s: State, t: Tid, s': State)
    requires Good(s) && CollectStep(s, t, CollectAppend, s')
    ensures Links(s')
  {
    hide Inv, Linked;
    var o := s.OwnerOf(t);
    var p, l := o.op.p, o.op.list;
    var pg := s.pages[p];
    var b, n := l[|l| - 1], HeadOf(pg.localFree);
    OwnerFacts(s, t);
    assert b in DetachedList(o) && OwnerLinksOf(o, s.next);
    Listed(s, b);
    LinkConcat(s.next, l, pg.localFree);
    LinkFrame(s.next, b, n, pg.free);
    LinkFrame(s.next, b, n, pg.threadFree);
    PageLinksWrite(s.pages, s.next, p, s'.pages[p], b, n);
    LinkFrame(s.next, b, n, o.delayed);
    LinkFrame(s.next, b, n, o.walk);
    LinkEmpty(s.next[b := n]);
    OwnerLinksWrite(s.owners, s.next, t, s'.OwnerOf(t), b, n);
  }

  lemma FreshLinked(next: LinkMem, p: nat, from: nat, n: nat)
    ensures Linked(LinkFresh(next, Fresh(p, from, n), from + n), Fresh(p, from, n))
  {
    var l := Fresh(p, from, n);
    var next' := LinkFresh(next, l, from + n);
    forall i | 0 <= i < |l| ensures LinkedAt(next', l, i) {
      assert l[i] in l && l[i] == Block(p, from + i);
    }
  }

  lemma FreshFrame(next: LinkMem, blocks: seq<Block>, end: nat, l: seq<Block>)
    requires Linked(next, l) && forall b | b in l :: b !in blocks
    ensures Linked(LinkFresh(next, blocks, end), l)
  {
    var next' := LinkFresh(next, blocks, end);
    forall i | 0 <= i < |l| ensures LinkedAt(next', l, i) {
      assert LinkedAt(next, l, i) && l[i] in l;
    }
  }

  lemma ExtendLinks(s: State, t: Tid, p: nat, n: nat, s': State)
    requires Good(s) && LocalStep(s, t, Extend(p, n), s')
    ensures Links(s')
  {
    hide Inv, Linked, Fresh, LinkFresh, AddFree;
    var pg := s.pages[p];
    var blocks, end := Fresh(p, pg.capacity, n), pg.capacity + n;
    FreshOnNoList(s, p, n);
    FreshLinked(s.next, p, pg.capacity, n);
    forall q | q in s.pages
      ensures Linked(s'.next, s.pages[q].free) && Linked(s'.next, s.pages[q].localFree)
        && Linked(s'.next, s.pages[q].threadFree)
    {
      FreshFrame(s.next, blocks, end, s.pages[q].free);
      FreshFrame(s.next, blocks, end, s.pages[q].localFree);
      FreshFrame(s.next, blocks, end, s.pages[q].threadFree);
    }
    forall u: Tid ensures OwnerLinksOf(OwnerAt(s.owners, u), s'.next) {
      var o := OwnerAt(s.owners, u);
      assert OwnerLinksOf(o, s.next);
      FreshFrame(s.next, blocks, end, o.delayed);
      FreshFrame(s.next, blocks, end, o.walk);
      FreshFrame(s.next, blocks, end, DetachedList(o));
    }
  }

  lemma FreshOnNoList(s: State, p: nat, n: nat)
    requires Inv(s) && p in s.pages
    ensures forall b | b in Fresh(p, s.pages[p].capacity, n) ::
      && (forall q | q in s.pages ::
            b !in s.pages[q].free && b !in s.pages[q].localFree && b !in s.pages[q].threadFree)
      && (forall u: Tid :: var o := OwnerAt(s.owners, u); b !in o.delayed && b !in o.walk && b !in DetachedList(o))
  {
    hide Hands, Heaps, DelayedThreads, PendingInv, OwnersInv;
    FreshMembers(p, s.pages[p].capacity, n);
    forall b | b in Fresh(p, s.pages[p].capacity, n)
      ensures (forall q | q in s.pages ::
            b !in s.pages[q].free && b !in s.pages[q].localFree && b !in s.pages[q].threadFree)
      ensures (forall u: Tid :: var o := OwnerAt(s.owners, u); b !in o.delayed && b !in o.walk && b !in DetachedList(o))
    {
      assert b !in s.loc;
      forall q | q in s.pages
        ensures b !in s.pages[q].free && b !in s.pages[q].localFree && b !in s.pages[q].threadFree
      {
        assert PageListsOf(s.loc, q, s.pages[q]);
      }
      forall u: Tid
        ensures var o := OwnerAt(s.owners, u); b !in o.delayed && b !in o.walk && b !in DetachedList(o)
      {
        assert OwnerListsOf(s.loc, u, OwnerAt(s.owners, u));
      }
    }
  }

  // Steps that write no link word: lists only move, shrink or become empty.
  lemma LocalMoveLinks(s: State, t: Tid, a: Action, s': State)
    requires Links(s) && LocalStep(s, t, a, s') && (a.NewPage? || a.Malloc? || a.FreePage?)
    ensures Links(s')
  {
    hide Linked, OwnerLinks;
    LinkEmpty(s.next);
    if a.Malloc? { LinkTail(s.next, s.pages[a.p].free); }
  }

  // The lists of owner t stay as they are, or its detached list is given up.
  lemma OwnerKeepsLinks(s: State, t: Tid, o: Owner)
    requires Links(s)
    requires var old_ := s.OwnerOf(t);
      o.delayed == old_.delayed && o.walk == old_.walk
        && (DetachedList(o) == DetachedList(old_) || DetachedList(o) == [])
    ensures OwnerLinks(s.owners[t := o], s.next)
  {
    hide Linked, PageLinks;
    assert OwnerLinksOf(s.OwnerOf(t), s.next);
    LinkEmpty(s.next);
    OwnerLinksSet(s.owners, s.next, t, o);
  }

  lemma CollectMoveLinks(s: State, t: Tid, a: Action, s': State)
    requires Links(s) && CollectStep(s, t, a, s') && (a.CollectLoad? || a.TakeLoad? || a.TakeRetry?)
    ensures Links(s')
  {
    hide Linked, PageLinks, OwnerLinks;
    if s' != s { OwnerKeepsLinks(s, t, s'.OwnerOf(t)); }
  }

  lemma DetachLinks(s: State, t: Tid, a: Action, s': State)
    requires Links(s) && CollectStep(s, t, a, s') && (a.CollectCas? || a.TakeCas?)
    ensures Links(s')
  {
    hide Links, CollectStep;
    if a.CollectCas? { CollectCasLinks(s, t, s'); } else { TakeCasLinks(s, t, s'); }
  }

  lemma CollectCasLinks(s: State, t: Tid, s': State)
    requires Links(s) && CollectStep(s, t, CollectCas, s')
    ensures Links(s')
  {
    hide Linked, OwnerLinks, PageLinks;
    var o := s.OwnerOf(t);
    var pg := s.pages[o.op.p];
    if o.op.w != WordOf(pg) || pg.threadFree == [] {
      OwnerKeepsLinks(s, t, s'.OwnerOf(t));
    } else {
      DetachedLinks(s, t, o.op.p, o.(op := Append(o.op.p, pg.threadFree)));
    }
  }

  lemma DetachedLinks(s: State, t: Tid, p: nat, o: Owner)
    requires Links(s) && p in s.pages && o == s.OwnerOf(t).(op := Append(p, s.pages[p].threadFree))
    ensures PageLinks(s.pages[p := s.pages[p].(threadFree := [])], s.next) && OwnerLinks(s.owners[t := o], s.next)
  {
    hide Linked, OwnerLinks;
    OwnerLinksAt(s, t);
    LinkEmpty(s.next);
    OwnerLinksSet(s.owners, s.next, t, o);
  }

  lemma TakeCasLinks(s: State, t: Tid, s': State)
    requires Links(s) && CollectStep(s, t, TakeCas, s')
    ensures Links(s')
  {
    hide Linked, OwnerLinks;
    OwnerLinksAt(s, t);
    LinkEmpty(s.next);
    OwnerLinksSet(s.owners, s.next, t, s'.OwnerOf(t));
  }

  lemma FlagLinks(s: State, t: Tid, a: Action, s': State)
    requires Links(s) && FlagStep(s, t, a, s')
    ensures Links(s')
  {
    hide Linked, OwnerLinks;
    if s' != s { OwnerKeepsLinks(s, t, s'.OwnerOf(t)); }
  }

  lemma PhaseLinks(s: State, t: Tid, a: Action, s': State)
    requires Links(s) && PhaseStep(s, t, a, s')
    ensures Links(s')
  {
    hide Linked, OwnerLinks;
    if a.Reclaim? || a.BeginAbandon? || a.Mark? || a.EndMark? || a.EndDrain? || a.EndAbandon? {
      OwnerKeepsLinks(s, t, s'.OwnerOf(t));
    }
  }

  lemma LocalLinks(s: State, t: Tid, a: Action, s': State)
    requires Good(s) && LocalAction(a) && LocalStep(s, t, a, s')
    ensures Links(s')
  {
    hide Inv, Links, LocalStep;
    match a
    case Extend(p, n) => ExtendLinks(s, t, p, n, s');
    case LocalFree(b) => LocalFreeLinks(s, t, b, s');
    case CollectLocal(p, force) => CollectLocalLinks(s, t, p, force, s');
    case _ => LocalMoveLinks(s, t, a, s');
  }

  lemma CollectLinks(s: State, t: Tid, a: Action, s': State)
    requires Good(s) && CollectAction(a) && CollectStep(s, t, a, s')
    ensures Links(s')
  {
    hide Inv, Links, CollectStep;
    match a
    case CollectAppend => CollectAppendLinks(s, t, s');
    case WalkFree => WalkFreeLinks(s, t, s');
    case CollectCas => DetachLinks(s, t, a, s');
    case TakeCas => DetachLinks(s, t, a, s');
    case _ => CollectMoveLinks(s, t, a, s');
  }

  lemma FreerLinks(s: State, t: Tid, a: Action, s': State)
    requires Good(s) && FreerStep(s, t, a, s')
    ensures Links(s')
  {
    hide Inv, Links, FreerStep;
    if a.ListCas? {
      ListCasLinks(s, t, s');
    } else if a.FreeCas? && s.FreerOf(t).Loaded? && s.FreerOf(t).w.flag != UseDelayed {
      FreeCasLinks(s, t, s');
    } else {
      OtherFreerLinks(s, t, a, s');
    }
  }

  lemma StepLinks(s: State, t: Tid, a: Action, s': State)
    requires Good(s) && Next(s, t, a, s')
    ensures Good(s')
  {
    hide Inv, Links, FreerStep, LocalStep, CollectStep, FlagStep, PhaseStep;
    StepInv(s, t, a, s');
    WhoseAction(s, t, a, s');
    if FreerAction(a) { FreerLinks(s, t, a, s'); }
    else if LocalAction(a) { LocalLinks(s, t, a, s'); }
    else if CollectAction(a) { CollectLinks(s, t, a, s'); }
    else if FlagAction(a) { FlagLinks(s, t, a, s'); }
    else { PhaseLinks(s, t, a, s'); }
  }

  // ---- runs

  ghost predicate Step(s: State, s': State) { exists t: Tid, a :: Next(s, t, a, s') }

  ghost predicate Run(run: seq<State>) {
    && run != [] && Init(run[0])
    && forall i | 0 <= i < |run| - 1 :: Step(run[i], run[i + 1])
  }

  lemma {:induction false} RunGood(run: seq<State>, i: nat)
    requires Run(run) && i < |run|
    ensures Good(run[i])
  {
    if i == 0 {
      assert run[0].owners == map[];
      LinkEmpty(run[0].next);
    } else {
      RunGood(run, i - 1);
      assert Step(run[i - 1], run[i]);
      var t: Tid, a :| Next(run[i - 1], t, a, run[i]);
      StepLinks(run[i - 1], t, a, run[i]);
    }
  }

  // b is on the list, or in the hand, that pl names; read off the lists themselves.
  ghost predicate HeldAt(s: State, b: Block, pl: Place) {
    match pl
    case Program => false
    case InFree => b.page in s.pages && b in s.pages[b.page].free
    case InLocal => b.page in s.pages && b in s.pages[b.page].localFree
    case InThread => b.page in s.pages && b in s.pages[b.page].threadFree
    case Hand(t) => InHand(FreerAt(s.freers, t)) == Some(b)
    case OnDelayed(h) => b in OwnerAt(s.owners, h).delayed
    case Drained(t) => b in OwnerAt(s.owners, t).walk
    case Detached(t) => b in DetachedList(OwnerAt(s.owners, t))
  }

  ghost predicate IsBlock(s: State, b: Block) { b.page in s.pages && b.idx < s.pages[b.page].capacity }

  // In every reachable state each block of a page is in exactly one place: with the program and
  // on no list, or on one list (or in one hand) only; and only blocks are on lists.
  lemma ExactlyOnePlace(run: seq<State>, i: nat, b: Block)
    requires Run(run) && i < |run|
    ensures var s := run[i];
      if IsBlock(s, b) then b in s.loc && forall pl :: HeldAt(s, b, pl) <==> pl != Program && s.loc[b] == pl
      else forall pl :: !HeldAt(s, b, pl)
  {
    RunGood(run, i);
    PlaceOf(run[i], b);
  }

  lemma PlaceOf(s: State, b: Block)
    requires Inv(s)
    ensures if IsBlock(s, b) then b in s.loc && forall pl :: HeldAt(s, b, pl) <==> pl != Program && s.loc[b] == pl
      else forall pl :: !HeldAt(s, b, pl)
  {
    hide Heaps, DelayedThreads, PendingInv, OwnersInv;
    assert IsBlock(s, b) <==> b in s.loc;
    forall pl ensures HeldAt(s, b, pl) <==> pl != Program && At(s.loc, b, pl) {
      if b.page in s.pages { assert PageListsOf(s.loc, b.page, s.pages[b.page]); }
      match pl
      case OnDelayed(h) => assert OwnerListsOf(s.loc, h, OwnerAt(s.owners, h));
      case Drained(t) => assert OwnerListsOf(s.loc, t, OwnerAt(s.owners, t));
      case Detached(t) => assert OwnerListsOf(s.loc, t, OwnerAt(s.owners, t));
      case _ =>
    }
  }

  // The page accounting, and `used` as the number of blocks on neither local list.
  lemma Accounting(run: seq<State>, i: nat, p: nat)
    requires Run(run) && i < |run| && p in run[i].pages
    ensures var s, pg := run[i], run[i].pages[p];
      && pg.used + |pg.free| + |pg.localFree| == pg.capacity
      && pg.used == |InUse(s, p)|
      && 0 <= pg.used <= pg.capacity
  {
    RunGood(run, i);
    PageFacts(run[i], p);
    UsedCounts(run[i], p);
  }

  // What the delayed-free flag guarantees in every reachable state.
  lemma FlagSafety(run: seq<State>, i: nat, p: nat)
    requires Run(run) && i < |run| && p in run[i].pages
    ensures var s, pg := run[i], run[i].pages[p];
      // DELAYED_FREEING is held by exactly one thread, and its heap is still there
      && (pg.flag == DelayedFreeing ==> pg.heap.Some? && exists t: Tid :: OnlyDelayed(s, t, p))
      && (forall t: Tid | InDelayed(FreerAt(s.freers, t)) && FreerAt(s.freers, t).block.page == p ::
            pg.flag == DelayedFreeing && FreerAt(s.freers, t) != HeapRead(FreerAt(s.freers, t).block, None))
      // NO_DELAYED means that a block of the page will still come back over the delayed path
      && (pg.flag == NoDelayed ==> exists b: Block :: b.page == p && Pending(s.owners, s.loc, b))
      // an unused page is not being freed into, and no thread still looks at it
      && (pg.used == 0 ==> pg.flag != DelayedFreeing && pg.flag != NoDelayed)
      && (pg.used == 0 ==> forall t: Tid | !FreerAt(s.freers, t).Idle? :: FreerAt(s.freers, t).block.page != p)
      // no delayed block refers to a page without a heap: neither an abandoned one
      && (pg.heap == None ==> forall b: Block, t: Tid | b.page == p ::
            b !in OwnerAt(s.owners, t).delayed && b !in OwnerAt(s.owners, t).walk)
  {
    var s, pg := run[i], run[i].pages[p];
    RunGood(run, i);
    FlagFacts(s, p);
    if pg.used == 0 { UnusedAllFree(s, p); }
    if pg.heap == None {
      NoDelayedBlocks(s, 0, p);
      forall b: Block, t: Tid | b.page == p
        ensures b !in OwnerAt(s.owners, t).delayed && b !in OwnerAt(s.owners, t).walk
      {
        PlaceOf(s, b);
        assert HeldAt(s, b, OnDelayed(t)) <==> b in OwnerAt(s.owners, t).delayed;
        assert HeldAt(s, b, Drained(t)) <==> b in OwnerAt(s.owners, t).walk;
      }
    }
  }

  ghost predicate OnlyDelayed(s: State, t: Tid, p: nat) {
    forall u: Tid :: InDelayed(FreerAt(s.freers, u)) && FreerAt(s.freers, u).block.page == p <==> u == t
  }

  lemma FlagFacts(s: State, p: nat)
    requires Inv(s) && p in s.pages
    ensures var pg := s.pages[p];
      && (pg.flag == DelayedFreeing ==> pg.heap.Some? && exists t: Tid :: OnlyDelayed(s, t, p))
      && (forall t: Tid | InDelayed(FreerAt(s.freers, t)) && FreerAt(s.freers, t).block.page == p ::
            pg.flag == DelayedFreeing && FreerAt(s.freers, t) != HeapRead(FreerAt(s.freers, t).block, None))
      && (pg.flag == NoDelayed ==> exists b: Block :: b.page == p && Pending(s.owners, s.loc, b))
  {
    hide Domain, PageLists, OwnerLists, Hands, OwnersInv;
    if s.pages[p].flag == DelayedFreeing {
      var t: Tid :| InDelayed(FreerAt(s.freers, t)) && FreerAt(s.freers, t).block.page == p;
      assert OnlyDelayed(s, t, p);
    }
    if s.pages[p].flag == NoDelayed { assert SomePending(s.owners, s.loc, p); }
    forall t: Tid | InDelayed(FreerAt(s.freers, t)) && FreerAt(s.freers, t).block.page == p
      ensures s.pages[p].flag == DelayedFreeing && FreerAt(s.freers, t) != HeapRead(FreerAt(s.freers, t).block, None)
    {
      assert DelayedThread(FreerAt(s.freers, t), s.pages, s.owners, s.loc);
    }
  }

  // While an owner spins on DELAYED_FREEING, the thread that holds the flag can always go on.
  lemma SpinCanEnd(run: seq<State>, i: nat, p: nat) returns (t: Tid, a: Action, s': State)
    requires Run(run) && i < |run| && p in run[i].pages && run[i].pages[p].flag == DelayedFreeing
    ensures InDelayed(FreerAt(run[i].freers, t)) && FreerAt(run[i].freers, t).block.page == p
    ensures FreerStep(run[i], t, a, s') && FreerAt(s'.freers, t) != FreerAt(run[i].freers, t)
  {
    var s := run[i];
    RunGood(run, i);
    hide Inv, Links, FreerStep;
    FlagFacts(s, p);
    t :| OnlyDelayed(s, t, p);
    assert InDelayed(FreerAt(s.freers, t)) && FreerAt(s.freers, t).block.page == p;
    FreerBlockPage(s, t);
    a, s' := DelayedProgress(s, t);
  }

  lemma DelayedProgress(s: State, t: Tid) returns (a: Action, s': State)
    requires InDelayed(FreerAt(s.freers, t)) && FreerAt(s.freers, t).block.page in s.pages
    ensures FreerStep(s, t, a, s') && FreerAt(s'.freers, t) != FreerAt(s.freers, t)
  {
    var f := s.FreerOf(t);
    var b, pg := f.block, s.pages[f.block.page];
    match f
    case Claimed(_) => a, s' := ReadHeap, s.SetFreer(t, HeapRead(b, pg.heap));
    case HeapRead(_, h) =>
      a := ReadList;
      s' := if h == None then s.SetFreer(t, Pushed(b))
            else s.SetFreer(t, ListRead(b, h.value, HeadOf(s.OwnerOf(h.value).delayed)));
    case ListRead(_, h, d) =>
      var o := s.OwnerOf(h);
      if d == HeadOf(o.delayed) {
        a := ListCas;
        s' := s.Link(b, d).SetOwner(h, o.(delayed := [b] + o.delayed)).Move(b, OnDelayed(h)).SetFreer(t, Pushed(b));
      } else {
        a, s' := ListRetry, s.SetFreer(t, f.(d := HeadOf(o.delayed)));
      }
    case Pushed(_) => a, s' := ResetLoad, s.SetFreer(t, ResetLoaded(b, WordOf(pg)));
    case ResetLoaded(_, w) =>
      if w == WordOf(pg) {
        a, s' := ResetCas, s.SetPage(b.page, pg.(flag := NoDelayed)).SetFreer(t, Idle);
      } else {
        a, s' := ResetRetry, s.SetFreer(t, ResetLoaded(b, WordOf(pg)));
      }
  }

  lemma FreerBlockPage(s: State, t: Tid)
    requires Good(s) && InDelayed(FreerAt(s.freers, t))
    ensures FreerAt(s.freers, t).block.page in s.pages
  {
    assert DelayedThread(FreerAt(s.freers, t), s.pages, s.owners, s.loc);
  }

  // ---- walking a detached list (page.c, `_mi_page_thread_free_collect`)

  // The loop that finds the tail of a detached list and counts it: for a well-linked list that
  // fits in the page it stops at the real tail with the exact length, never at the error check.
  method FindTail(next: LinkMem, head: Block, maxCount: nat, ghost list: seq<Block>) returns (tail: Block, count: nat)
    requires Linked(next, list) && list != [] && head == list[0] && |list| <= maxCount
    ensures tail == list[|list| - 1] && count == |list| <= maxCount
  {
    count := 1;
    tail := head;
    assert LinkedAt(next, list, 0);
    var n := Follow(next, tail);
    while n.Some? && count <= maxCount
      invariant 1 <= count <= |list| && tail == list[count - 1] && n == Follow(next, tail)
      decreases |list| - count
    {
      assert LinkedAt(next, list, count - 1);
      count := count + 1;
      tail := n.value;
      n := Follow(next, tail);
    }
    assert LinkedAt(next, list, count - 1);
  }

  // In every reachable state a detached list meets the precondition of the walk, so the "corrupted
  // thread-free list" branch is dead and `used` is decreased by the true number of blocks.
  lemma DetachedFits(run: seq<State>, i: nat, t: Tid)
    requires Run(run) && i < |run| && run[i].OwnerOf(t).op.Append?
    ensures var op := run[i].OwnerOf(t).op;
      && op.list != [] && Linked(run[i].next, op.list) && op.p in run[i].pages
      && |op.list| <= run[i].pages[op.p].used <= run[i].pages[op.p].capacity
  {
    var s := run[i];
    RunGood(run, i);
    var op := s.OwnerOf(t).op;
    OwnerFacts(s, t);
    OwnerLinksAt(s, t);
    Accounting(run, i, op.p);
    hide Inv, Links;
    NoDupCard(op.list);
    assert forall b | b in op.list :: b in DetachedList(s.OwnerOf(t));
    assert Elems(op.list) <= InUse(s, op.p);
    SubsetCard(Elems(op.list), InUse(s, op.p));
  }

  lemma OwnerLinksAt(s: State, t: Tid)
    requires Links(s)
    ensures OwnerLinksOf(s.OwnerOf(t), s.next)
  {}

  // ---- the packed word (mimalloc-internal.h, `mi_tf_*`)

  function TfBlock(tf: bv64): bv64 { tf & 0xFFFF_FFFF_FFFF_FFFC }

  function TfDelayed(tf: bv64): bv64 { tf & 3 }

  function TfMake(block: bv64, delayed: bv64): bv64 { block | delayed }

  function TfSetDelayed(tf: bv64, delayed: bv64): bv64 { TfMake(TfBlock(tf), delayed) }

  function TfSetBlock(tf: bv64, block: bv64): bv64 { TfMake(block, TfDelayed(tf)) }

  // Block addresses are 4-aligned, so packing loses nothing and each setter changes one part;
  // comparing packed words is comparing the pair of head and flag, as `Word` does.
  lemma PackedWord(block: bv64, delayed: bv64)
    requires TfDelayed(block) == 0 && TfBlock(delayed) == 0
    ensures TfBlock(TfMake(block, delayed)) == block && TfDelayed(TfMake(block, delayed)) == delayed
  {}

  lemma UnpackedWord(tf: bv64)
    ensures TfMake(TfBlock(tf), TfDelayed(tf)) == tf
    ensures TfDelayed(TfBlock(tf)) == 0 && TfBlock(TfDelayed(tf)) == 0
  {}

  lemma PackedSetters(tf: bv64, block: bv64, delayed: bv64)
    requires TfDelayed(block) == 0 && TfBlock(delayed) == 0
    ensures TfBlock(TfSetDelayed(tf, delayed)) == TfBlock(tf) && TfDelayed(TfSetDelayed(tf, delayed)) == delayed
    ensures TfBlock(TfSetBlock(tf, block)) == block && TfDelayed(TfSetBlock(tf, block)) == TfDelayed(tf)
  {
    UnpackedWord(tf);
    PackedWord(TfBlock(tf), delayed);
    PackedWord(block, TfDelayed(tf));
  }
}
