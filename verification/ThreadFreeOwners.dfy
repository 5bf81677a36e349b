// What an owner's operations come to when the other threads stand still: settling a flag, draining the delayed list,
// taking a page over, giving up a heap, and finding a block to allocate (page.c, heap.c).
module ThreadFreeOwners {
  import opened Base
  import opened ThreadFree
  import opened ThreadFreeInv
  import opened ThreadFreeRuns
  import opened ThreadFreeAlone

  lemma FlagNext(s: State, t: Tid, a: Action, s1: State, s': State)
    requires FlagStep(s, t, a, s1) && Reaches(s1, t, s')
    ensures Reaches(s, t, s')
  {
    hide FreerStep, LocalStep, CollectStep, FlagStep, PhaseStep;
    ReachesNext(s, t, a, s1, s');
  }

  lemma LocalNext(s: State, t: Tid, a: Action, s1: State, s': State)
    requires LocalStep(s, t, a, s1) && Reaches(s1, t, s')
    ensures Reaches(s, t, s')
  {
    hide FreerStep, LocalStep, CollectStep, FlagStep, PhaseStep;
    ReachesNext(s, t, a, s1, s');
  }

  lemma PhaseNext(s: State, t: Tid, a: Action, s1: State, s': State)
    requires PhaseStep(s, t, a, s1) && Reaches(s1, t, s')
    ensures Reaches(s, t, s')
  {
    hide FreerStep, LocalStep, CollectStep, FlagStep, PhaseStep;
    ReachesNext(s, t, a, s1, s');
  }

  // ---- one flag

  function FlagTo(flag: Flag, to: Flag, override: bool): Flag { if flag == NeverDelayed && !override then flag else to }

  function Settled(s: State, t: Tid, p: nat, to: Flag, override: bool): State
    requires p in s.pages
  {
    s.SetPage(p, s.pages[p].(flag := FlagTo(s.pages[p].flag, to, override))).SetOwner(t, FlagDone(s.OwnerOf(t), p))
  }

  // Run alone, a flag operation sets the flag, unless that is NEVER and not to be overridden.
  lemma FlagAlone(s: State, t: Tid, p: nat, to: Flag, override: bool)
    requires s.OwnerOf(t).op == SetFlag(p, to, override) && p in s.pages && s.pages[p].flag != DelayedFreeing
    ensures Reaches(s, t, Settled(s, t, p, to, override))
  {
    var pg, o, s' := s.pages[p], s.OwnerOf(t), Settled(s, t, p, to, override);
    if FlagTo(pg.flag, to, override) == pg.flag {
      assert s.SetPage(p, pg.(flag := pg.flag)) == s;
      assert FlagStep(s, t, SetFlagLoad, s');
      hide FlagStep, Settled;
      ReachesSelf(s', t);
      FlagNext(s, t, SetFlagLoad, s', s');
    } else {
      var s1 := s.SetOwner(t, o.(op := SetFlagLoaded(p, to, override, WordOf(pg))));
      assert FlagStep(s, t, SetFlagLoad, s1);
      assert FlagStep(s1, t, SetFlagCas, s');
      hide FlagStep, Settled;
      ReachesSelf(s', t);
      FlagNext(s1, t, SetFlagCas, s', s');
      FlagNext(s, t, SetFlagLoad, s1, s');
    }
  }

  // ---- taking a page over

  function Adopted(s: State, t: Tid, p: nat): State
    requires p in s.pages
  {
    s.SetPage(p, s.pages[p].(owner := Some(t), heap := Some(t), flag := UseDelayed)).SetOwner(t, s.OwnerOf(t))
  }

  // Run alone, taking over an abandoned page leaves it in the thread's heap, open for delayed frees again.
  lemma AdoptAlone(s: State, t: Tid, p: nat)
    requires Inv(s) && Calm(s.OwnerOf(t)) && p in s.pages && s.pages[p].owner == None
    ensures Reaches(s, t, Adopted(s, t, p))
  {
    assert s.pages[p].heap == None && s.pages[p].flag == NeverDelayed;
    hide Inv;
    AdoptFrom(s, t, p);
  }

  lemma AdoptFrom(s: State, t: Tid, p: nat)
    requires Calm(s.OwnerOf(t)) && !s.OwnerOf(t).past && p in s.pages
    requires s.pages[p].owner == None && s.pages[p].heap == None && s.pages[p].flag == NeverDelayed
    ensures Reaches(s, t, Adopted(s, t, p))
  {
    var pg, o := s.pages[p], s.OwnerOf(t);
    var s1 := s.SetPage(p, pg.(owner := Some(t)));
    var s2 := s.SetPage(p, pg.(owner := Some(t), heap := Some(t))).SetOwner(t, o.(op := SetFlag(p, UseDelayed, true)));
    assert PhaseStep(s, t, Adopt(p), s1);
    assert PhaseStep(s1, t, Reclaim(p), s2);
    AdoptEnd(s, t, p, s2);
    hide PhaseStep, Settled, Adopted;
    FlagAlone(s2, t, p, UseDelayed, true);
    PhaseNext(s1, t, Reclaim(p), s2, Adopted(s, t, p));
    PhaseNext(s, t, Adopt(p), s1, Adopted(s, t, p));
  }

  lemma AdoptEnd(s: State, t: Tid, p: nat, s2: State)
    requires Calm(s.OwnerOf(t)) && !s.OwnerOf(t).past && p in s.pages
    requires s2 == s.SetPage(p, s.pages[p].(owner := Some(t), heap := Some(t)))
                    .SetOwner(t, s.OwnerOf(t).(op := SetFlag(p, UseDelayed, true)))
    ensures Settled(s2, t, p, UseDelayed, true) == Adopted(s, t, p)
  {
    assert FlagDone(s2.OwnerOf(t), p) == s.OwnerOf(t);
  }

  // ---- collecting both lists of a page (page.c, `_mi_page_free_collect`)

  function CollectPage(pg: Page): Page {
    pg.(threadFree := [], localFree := pg.threadFree + pg.localFree, used := pg.used - |pg.threadFree|)
  }

  function TurnPage(pg: Page, force: bool): Page {
    if pg.localFree != [] && (pg.free == [] || force) then pg.(free := pg.localFree + pg.free, localFree := []) else pg
  }

  // The local list becomes the free list.
  function Turned(s: State, p: nat): State
    requires p in s.pages && s.pages[p].localFree != []
  {
    var pg := s.pages[p];
    s.SetPage(p, pg.(free := pg.localFree + pg.free, localFree := [])).MoveAll(pg.localFree, InFree)
     .Link(pg.localFree[|pg.localFree| - 1], HeadOf(pg.free))
  }

  function Gathered(s: State, t: Tid, p: nat, force: bool): State
    requires p in s.pages
  {
    var s1 := if force || s.pages[p].threadFree != [] then Collected(s, t, p) else s;
    if s1.pages[p].localFree != [] && (s1.pages[p].free == [] || force) then Turned(s1, p) else s1
  }

  // The thread-free list of p joins its local list, and this becomes the free list where that is empty, or by force.
  lemma GatherAlone(s: State, t: Tid, p: nat, force: bool)
    requires MayCollect(s, t, p)
    ensures Reaches(s, t, Gathered(s, t, p, force))
  {
    var s1 := if force || s.pages[p].threadFree != [] then Collected(s, t, p) else s;
    ReachesSelf(s, t);
    if force || s.pages[p].threadFree != [] { CollectAlone(s, t, p); }
    MayTurn(s, t, p);
    hide Collected;
    if s1.pages[p].localFree != [] && (s1.pages[p].free == [] || force) {
      TurnStep(s1, t, p, force);
      hide LocalStep, Turned;
      ReachesSelf(Turned(s1, p), t);
      LocalNext(s1, t, CollectLocal(p, force), Turned(s1, p), Turned(s1, p));
      ReachesTrans(s, t, s1, Turned(s1, p));
    }
  }

  lemma MayTurn(s: State, t: Tid, p: nat)
    requires MayCollect(s, t, p)
    ensures var s1 := Collected(s, t, p); s1.OwnerOf(t).op == NoOp && p in s1.pages && s1.pages[p].owner == Some(t)
  {}

  lemma TurnStep(s: State, t: Tid, p: nat, force: bool)
    requires s.OwnerOf(t).op == NoOp && p in s.pages && s.pages[p].owner == Some(t) && s.pages[p].localFree != []
    requires s.pages[p].free == [] || force
    ensures LocalStep(s, t, CollectLocal(p, force), Turned(s, p))
  {}

  // Where a block may be afterwards: one that came back is on a list of its own page, and so is one that was on the
  // local list; one of the thread-free list may be; and all others stay where they are.
  predicate Home(pl: Place) { pl.InLocal? || pl.InFree? }

  predicate MovedTo(pl: Place, pl': Place, back: bool) {
    if back || pl.InLocal? then Home(pl') else if pl.InThread? then pl'.InThread? || Home(pl') else pl' == pl
  }

  ghost predicate MovedAll(loc: Loc, loc': Loc, back: seq<Block>) {
    loc'.Keys == loc.Keys && forall b | b in loc :: MovedTo(loc[b], loc'[b], b in back)
  }

  lemma MovedThen(loc: Loc, loc1: Loc, loc2: Loc, a: seq<Block>, b: seq<Block>, both: seq<Block>)
    requires MovedAll(loc, loc1, a) && MovedAll(loc1, loc2, b)
    requires forall c :: c in both <==> c in a || c in b
    ensures MovedAll(loc, loc2, both)
  {
    forall c | c in loc ensures MovedTo(loc[c], loc2[c], c in both) { assert c in loc1; }
  }

  // Page p has become pg', and nothing else has changed but links and what the blocks of its lists are on.
  ghost predicate Became(s: State, s': State, t: Tid, p: nat, pg': Page) {
    && s'.pages == s.pages[p := pg'] && s'.freers == s.freers
    && OthersSame(s, s', t) && s'.OwnerOf(t) == s.OwnerOf(t).(op := NoOp) && MovedAll(s.loc, s'.loc, [])
  }

  lemma BecameThen(s: State, s1: State, s2: State, t: Tid, p: nat, pg1: Page, pg2: Page)
    requires Became(s, s1, t, p, pg1) && Became(s1, s2, t, p, pg2)
    ensures Became(s, s2, t, p, pg2)
  {
    hide MovedAll;
    MovedThen(s.loc, s1.loc, s2.loc, [], [], []);
    SetTwice(s.pages, p, pg1, pg2);
    forall u: Tid | u != t ensures s2.OwnerOf(u) == s.OwnerOf(u) {
      assert s1.OwnerOf(u) == s.OwnerOf(u) && s2.OwnerOf(u) == s1.OwnerOf(u);
    }
  }

  lemma NothingBecame(s: State, t: Tid, p: nat)
    requires p in s.pages && s.OwnerOf(t).op == NoOp
    ensures Became(s, s, t, p, s.pages[p])
  {
    assert s.pages[p := s.pages[p]] == s.pages;
  }

  lemma CollectedMoves(s: State, t: Tid, p: nat)
    requires p in s.pages && forall c | c in s.pages[p].threadFree :: At(s.loc, c, InThread)
    ensures MovedAll(s.loc, Collected(s, t, p).loc, [])
  {
    assert Collected(s, t, p).loc == s.MoveAll(s.pages[p].threadFree, InLocal).loc;
    hide Collected;
  }

  lemma CollectedBecame(s: State, t: Tid, p: nat)
    requires p in s.pages && forall c | c in s.pages[p].threadFree :: At(s.loc, c, InThread)
    ensures Became(s, Collected(s, t, p), t, p, CollectPage(s.pages[p]))
  {
    CollectedMoves(s, t, p);
    hide MovedAll;
  }

  lemma TurnedMoves(s: State, p: nat)
    requires p in s.pages && s.pages[p].localFree != []
    requires forall c | c in s.pages[p].localFree :: At(s.loc, c, InLocal)
    ensures MovedAll(s.loc, Turned(s, p).loc, [])
  {
    assert Turned(s, p).loc == s.MoveAll(s.pages[p].localFree, InFree).loc;
    hide Turned;
  }

  lemma TurnedBecame(s: State, t: Tid, p: nat, force: bool)
    requires p in s.pages && s.pages[p].localFree != [] && (s.pages[p].free == [] || force) && s.OwnerOf(t).op == NoOp
    requires forall c | c in s.pages[p].localFree :: At(s.loc, c, InLocal)
    ensures Became(s, Turned(s, p), t, p, TurnPage(s.pages[p], force))
  {
    TurnedMoves(s, p);
    hide MovedAll;
  }

  lemma TurnBecame(s: State, t: Tid, p: nat, force: bool)
    requires Good(s) && p in s.pages && s.OwnerOf(t).op == NoOp
    ensures var turns := s.pages[p].localFree != [] && (s.pages[p].free == [] || force);
      Became(s, if turns then Turned(s, p) else s, t, p, TurnPage(s.pages[p], force))
  {
    LocalPlaces(s, p);
    hide Good, Became, Turned;
    if s.pages[p].localFree != [] && (s.pages[p].free == [] || force) {
      TurnedBecame(s, t, p, force);
    } else {
      NothingBecame(s, t, p);
    }
  }

  lemma FirstBecame(s: State, t: Tid, p: nat, force: bool) returns (s1: State)
    requires Good(s) && MayCollect(s, t, p)
    ensures s1 == (if force || s.pages[p].threadFree != [] then Collected(s, t, p) else s) && Good(s1)
    ensures Became(s, s1, t, p, CollectPage(s.pages[p]))
  {
    LocalPlaces(s, p);
    hide Good, Became, Collected;
    if force || s.pages[p].threadFree != [] {
      s1 := Collected(s, t, p);
      CollectAlone(s, t, p);
      GoodOn(s, t, s1);
      CollectedBecame(s, t, p);
    } else {
      s1 := s;
      NothingBecame(s, t, p);
      assert [] + s.pages[p].localFree == s.pages[p].localFree;
    }
  }

  // Run alone, the owner of a page collects it: the thread-free list joins the local one, and this the free one.
  lemma GatheredFacts(s: State, t: Tid, p: nat, force: bool)
    requires Good(s) && MayCollect(s, t, p)
    ensures Reaches(s, t, Gathered(s, t, p, force))
    ensures Became(s, Gathered(s, t, p, force), t, p, TurnPage(CollectPage(s.pages[p]), force))
  {
    GatherAlone(s, t, p, force);
    hide Good, Collected, Turned, TurnPage, CollectPage, MovedAll;
    var pg1 := CollectPage(s.pages[p]);
    var s1 := FirstBecame(s, t, p, force);
    assert s1.pages[p] == pg1;
    TurnBecame(s1, t, p, force);
    var s2 := Gathered(s, t, p, force);
    assert s2 == if pg1.localFree != [] && (pg1.free == [] || force) then Turned(s1, p) else s1;
    hide Gathered, Became;
    BecameThen(s, s1, s2, t, p, pg1, TurnPage(pg1, force));
  }

  // ---- draining the delayed list

  // The first block of the list taken over goes to the local list of its page, whose flag is settled and whose lists
  // are collected before.
  function Walked(s: State, t: Tid): State
    requires s.OwnerOf(t).walk != [] && s.OwnerOf(t).walk[0].page in s.pages
  {
    var o, b := s.OwnerOf(t), s.OwnerOf(t).walk[0];
    PushLocal(Gathered(Flagged(s, t), t, b.page, false), b).SetOwner(t, o.(walk := o.walk[1..]))
  }

  // Its flag is settled.
  function Flagged(s: State, t: Tid): State
    requires s.OwnerOf(t).walk != [] && s.OwnerOf(t).walk[0].page in s.pages
  {
    var o, p := s.OwnerOf(t), s.OwnerOf(t).walk[0].page;
    Settled(s.SetOwner(t, o.(op := SetFlag(p, UseDelayed, false))), t, p, UseDelayed, false)
  }

  ghost predicate WalkReady(s: State, t: Tid) {
    var o := s.OwnerOf(t);
    o.op == NoOp && !o.past && !o.phase.Marking? && NoneFreeing(s, o.walk)
  }

  // No thread is in the middle of a delayed free into the page of one of these blocks.
  ghost predicate NoneFreeing(s: State, list: seq<Block>) {
    forall b | b in list :: b in s.loc && b.page in s.pages && s.pages[b.page].flag != DelayedFreeing
  }

  lemma WalkOne(s: State, t: Tid)
    requires Good(s) && WalkReady(s, t) && s.OwnerOf(t).walk != []
    ensures s.OwnerOf(t).walk[0].page in s.pages && Reaches(s, t, Walked(s, t))
  {
    WalkHeld(s, t);
    FlagWalks(s, t);
    FlaggedMay(s, t);
    var p, s2 := s.OwnerOf(t).walk[0].page, Flagged(s, t);
    hide Good, WalkReady, Flagged, MayCollect, Gathered, Walked;
    GoodOn(s, t, s2);
    GatheredFacts(s2, t, p, false);
    WalkFrees(s, t, s2, Gathered(s2, t, p, false));
    ReachesTrans(s2, t, Gathered(s2, t, p, false), Walked(s, t));
    ReachesTrans(s, t, s2, Walked(s, t));
  }

  lemma FlagWalks(s: State, t: Tid)
    requires WalkReady(s, t) && s.OwnerOf(t).walk != [] && s.OwnerOf(t).walk[0].page in s.pages
    ensures Reaches(s, t, Flagged(s, t))
  {
    var o := s.OwnerOf(t);
    assert o.walk[0] in o.walk;
    var p := o.walk[0].page;
    var s1 := s.SetOwner(t, o.(op := SetFlag(p, UseDelayed, false)));
    assert FlagStep(s, t, WalkFlag, s1);
    assert s1.OwnerOf(t).op == SetFlag(p, UseDelayed, false) && s1.pages == s.pages;
    hide FlagStep, Settled, WalkReady;
    FlagAlone(s1, t, p, UseDelayed, false);
    FlagNext(s, t, WalkFlag, s1, Flagged(s, t));
  }

  lemma WalkFrees(s: State, t: Tid, s2: State, s3: State)
    requires s.OwnerOf(t).walk != [] && s.OwnerOf(t).walk[0].page in s.pages && s2 == Flagged(s, t)
    requires s.OwnerOf(t).walk[0].page in s2.pages && s3 == Gathered(s2, t, s.OwnerOf(t).walk[0].page, false)
    requires WalkReady(s, t) && s2.OwnerOf(t) == s.OwnerOf(t).(past := true)
    requires exists pg :: Became(s2, s3, t, s.OwnerOf(t).walk[0].page, pg)
    ensures Reaches(s3, t, Walked(s, t))
  {
    hide Gathered, Flagged, MovedAll;
    FreeStep(s, t, s3);
    hide CollectStep, Walked, Became, WalkReady;
    ReachesSelf(Walked(s, t), t);
    CollectNext(s3, t, WalkFree, Walked(s, t), Walked(s, t));
  }

  lemma WalkHeld(s: State, t: Tid)
    requires Good(s) && s.OwnerOf(t).walk != []
    ensures Owned(s.pages, t, s.OwnerOf(t).walk[0].page)
  {
    WalkOwned(s, t);
  }

  lemma FlaggedMay(s: State, t: Tid)
    requires WalkReady(s, t) && s.OwnerOf(t).walk != [] && Owned(s.pages, t, s.OwnerOf(t).walk[0].page)
    ensures MayCollect(Flagged(s, t), t, s.OwnerOf(t).walk[0].page)
    ensures Flagged(s, t).OwnerOf(t) == s.OwnerOf(t).(past := true)
  {}

  lemma FreeStep(s: State, t: Tid, s3: State)
    requires s.OwnerOf(t).walk != [] && s.OwnerOf(t).walk[0].page in s.pages && !s.OwnerOf(t).past
    requires s3 == Gathered(Flagged(s, t), t, s.OwnerOf(t).walk[0].page, false)
    requires s.OwnerOf(t).op == NoOp && s3.OwnerOf(t) == s.OwnerOf(t).(past := true)
    requires s.OwnerOf(t).walk[0].page in s3.pages
    ensures CollectStep(s3, t, WalkFree, Walked(s, t))
  {
    hide Gathered, Flagged;
  }

  // What the page has become when block b is back on it.
  function GetBack(pg: Page, b: Block): Page {
    var pg1 := TurnPage(CollectPage(pg.(flag := FlagTo(pg.flag, UseDelayed, false))), false);
    pg1.(localFree := [b] + pg1.localFree, used := pg1.used - 1)
  }

  // Page q after all blocks of the list have come back one by one.
  function PageAfter(pg: Page, list: seq<Block>, q: nat): Page
    decreases |list|
  {
    if list == [] then pg else PageAfter(if list[0].page == q then GetBack(pg, list[0]) else pg, list[1..], q)
  }

  // The blocks of a list that belong to page q.
  function OnPage(list: seq<Block>, q: nat): nat {
    if list == [] then 0 else (if list[0].page == q then 1 else 0) + OnPage(list[1..], q)
  }

  // They are no longer in use, nor are those of the page's thread-free list; a page of which none is on the list
  // stays as it is.
  lemma {:induction false} PageGets(pg: Page, list: seq<Block>, q: nat)
    ensures var pg' := PageAfter(pg, list, q);
      if OnPage(list, q) == 0 then pg' == pg
      else
        && pg'.used == pg.used - OnPage(list, q) - |pg.threadFree| && pg'.threadFree == []
        && pg'.flag == FlagTo(pg.flag, UseDelayed, false) && pg'.heap == pg.heap && pg'.owner == pg.owner
        && pg'.capacity == pg.capacity && pg'.reserved == pg.reserved
    decreases |list|
  {
    if list != [] { PageGets(if list[0].page == q then GetBack(pg, list[0]) else pg, list[1..], q); }
  }

  lemma {:induction false} OnPageIn(list: seq<Block>, b: Block)
    requires b in list
    ensures OnPage(list, b.page) > 0
  {
    if list[0] != b { OnPageIn(list[1..], b); }
  }

  // All blocks of the list are back on the lists of their pages.
  ghost predicate CameBack(s: State, s': State, list: seq<Block>) {
    && s'.pages.Keys == s.pages.Keys && (forall q | q in s.pages :: s'.pages[q] == PageAfter(s.pages[q], list, q))
    && MovedAll(s.loc, s'.loc, list) && s'.freers == s.freers
  }

  ghost predicate OthersSame(s: State, s': State, t: Tid) { forall u: Tid | u != t :: s'.OwnerOf(u) == s.OwnerOf(u) }

  // One step of the walk.
  ghost predicate WalkedTo(s: State, s1: State, t: Tid)
    requires s.OwnerOf(t).walk != [] && s.OwnerOf(t).walk[0].page in s.pages
  {
    var o, b := s.OwnerOf(t), s.OwnerOf(t).walk[0];
    && s1.pages == s.pages[b.page := GetBack(s.pages[b.page], b)] && s1.freers == s.freers
    && MovedAll(s.loc, s1.loc, [b]) && OthersSame(s, s1, t) && s1.OwnerOf(t) == o.(walk := o.walk[1..])
  }

  lemma WalkedFacts(s: State, t: Tid)
    requires Good(s) && WalkReady(s, t) && s.OwnerOf(t).walk != [] && s.OwnerOf(t).walk[0].page in s.pages
    ensures WalkedTo(s, Walked(s, t), t)
  {
    var b, s2 := s.OwnerOf(t).walk[0], Flagged(s, t);
    WalkHeld(s, t);
    FlagWalks(s, t);
    FlaggedMay(s, t);
    FlaggedFacts(s, t);
    assert b in s.loc by { assert b in s.OwnerOf(t).walk; }
    hide Good, Gathered, Flagged, WalkReady, GetBack, TurnPage, CollectPage, MayCollect, Became, WalkedTo;
    GoodOn(s, t, s2);
    GatheredFacts(s2, t, b.page, false);
    WalkedOn(s, t, s2, Gathered(s2, t, b.page, false));
  }

  lemma WalkedOn(s: State, t: Tid, s2: State, s3: State)
    requires s.OwnerOf(t).walk != [] && s.OwnerOf(t).walk[0].page in s.pages && s2 == Flagged(s, t)
    requires s.OwnerOf(t).walk[0].page in s2.pages && s3 == Gathered(s2, t, s.OwnerOf(t).walk[0].page, false)
    requires s.OwnerOf(t).walk[0] in s.loc
    requires var p := s.OwnerOf(t).walk[0].page;
      && s2.pages == s.pages[p := s.pages[p].(flag := FlagTo(s.pages[p].flag, UseDelayed, false))]
      && s2.loc == s.loc && s2.freers == s.freers && OthersSame(s, s2, t)
      && Became(s2, s3, t, p, TurnPage(CollectPage(s2.pages[p]), false))
    ensures WalkedTo(s, Walked(s, t), t)
  {
    var b, s4 := s.OwnerOf(t).walk[0], Walked(s, t);
    hide Gathered, Flagged, FlagTo, TurnPage, CollectPage, MovedAll;
    BackPlace(s.loc, s3.loc, b);
    BackPage(s.pages, s2.pages, s3.pages, b);
    hide GetBack;
    forall u: Tid | u != t ensures s4.OwnerOf(u) == s.OwnerOf(u) {
      assert s3.OwnerOf(u) == s2.OwnerOf(u) && s2.OwnerOf(u) == s.OwnerOf(u);
    }
  }

  lemma BackPage(pages: map<nat, Page>, pages2: map<nat, Page>, pages3: map<nat, Page>, b: Block)
    requires b.page in pages
    requires var pg := pages[b.page]; pages2 == pages[b.page := pg.(flag := FlagTo(pg.flag, UseDelayed, false))]
    requires pages3 == pages2[b.page := TurnPage(CollectPage(pages2[b.page]), false)]
    ensures var pg3 := pages3[b.page];
      pages3[b.page := pg3.(localFree := [b] + pg3.localFree, used := pg3.used - 1)]
      == pages[b.page := GetBack(pages[b.page], b)]
  {
    hide FlagTo, TurnPage, CollectPage;
    SetTwice(pages, b.page, pages2[b.page], pages3[b.page]);
    SetTwice(pages, b.page, pages3[b.page], GetBack(pages[b.page], b));
  }

  lemma BackPlace(loc: Loc, loc': Loc, b: Block)
    requires MovedAll(loc, loc', []) && b in loc
    ensures MovedAll(loc, loc'[b := InLocal], [b])
  {}

  lemma FlaggedFacts(s: State, t: Tid)
    requires s.OwnerOf(t).walk != [] && s.OwnerOf(t).walk[0].page in s.pages
    ensures var p, s2 := s.OwnerOf(t).walk[0].page, Flagged(s, t);
      && s2.pages == s.pages[p := s.pages[p].(flag := FlagTo(s.pages[p].flag, UseDelayed, false))]
      && s2.loc == s.loc && s2.freers == s.freers && OthersSame(s, s2, t)
  {}

  lemma WalkedReady(s: State, s1: State, t: Tid)
    requires WalkReady(s, t) && s.OwnerOf(t).walk != [] && s.OwnerOf(t).walk[0].page in s.pages && WalkedTo(s, s1, t)
    ensures WalkReady(s1, t)
  {
    var o := s.OwnerOf(t);
    assert o.walk[0] in o.walk;
    forall b | b in o.walk[1..]
      ensures b in s1.loc && b.page in s1.pages && s1.pages[b.page].flag != DelayedFreeing
    {
      assert b in o.walk;
    }
  }

  lemma WalkedBack(s: State, s1: State, t: Tid, s': State)
    requires s.OwnerOf(t).walk != [] && s.OwnerOf(t).walk[0].page in s.pages && WalkedTo(s, s1, t)
    requires CameBack(s1, s', s.OwnerOf(t).walk[1..])
    ensures CameBack(s, s', s.OwnerOf(t).walk)
  {
    var list := s.OwnerOf(t).walk;
    hide GetBack, MovedAll;
    MovedThen(s.loc, s1.loc, s'.loc, [list[0]], list[1..], list);
    forall q | q in s.pages ensures s'.pages[q] == PageAfter(s.pages[q], list, q) {
      assert s'.pages[q] == PageAfter(s1.pages[q], list[1..], q);
    }
  }

  // Run alone, the walk over the list taken over brings every block back.
  lemma {:induction false} WalkAlone(s: State, t: Tid) returns (s': State)
    requires Good(s) && WalkReady(s, t)
    ensures Reaches(s, t, s') && CameBack(s, s', s.OwnerOf(t).walk)
    ensures s'.OwnerOf(t) == s.OwnerOf(t).(walk := []) && OthersSame(s, s', t)
    decreases |s.OwnerOf(t).walk|
  {
    if s.OwnerOf(t).walk == [] {
      s' := s;
      ReachesSelf(s, t);
      NothingBack(s);
    } else {
      hide Good, Walked, WalkReady, CameBack;
      WalkOne(s, t);
      var s1 := Walked(s, t);
      GoodOn(s, t, s1);
      WalkedFacts(s, t);
      WalkedReady(s, s1, t);
      s' := WalkAlone(s1, t);
      WalkedBack(s, s1, t, s');
      ReachesTrans(s, t, s1, s');
    }
  }

  lemma NothingBack(s: State)
    ensures CameBack(s, s, [])
  {}

  // Run alone, a heap drains its delayed list: every block on it is back on a list of its page.
  lemma DrainAlone(s: State, t: Tid) returns (s': State)
    requires Good(s) && NoneFreeing(s, s.OwnerOf(t).delayed)
    requires var o := s.OwnerOf(t);
      o.op == NoOp && o.walk == [] && !o.past && (o.phase == Running || o.phase == Draining(false))
    ensures Reaches(s, t, s') && CameBack(s, s', s.OwnerOf(t).delayed) && OthersSame(s, s', t)
    ensures s'.OwnerOf(t) == s.OwnerOf(t).(delayed := [], phase := AfterDrain(s.OwnerOf(t).phase))
  {
    var o := s.OwnerOf(t);
    if o.delayed == [] && o.phase == Running {
      s' := s;
      NothingBack(s);
      ReachesSelf(s, t);
    } else if o.delayed == [] {
      s' := s.SetOwner(t, o.(phase := Draining(true)));
      NothingBack(s);
      EmptyDrained(s, t);
    } else {
      hide Good;
      var s2 := TakenOver(s, t);
      TakeFrom(s, t);
      GoodOn(s, t, s2);
      TakenReady(s, t);
      hide NoneFreeing;
      s' := WalkAlone(s2, t);
      DelayedPlaces(s, t);
      TakenBack(s, t, s');
      ReachesTrans(s, t, s2, s');
    }
  }

  function AfterDrain(phase: Phase): Phase { if phase == Running then Running else Draining(true) }

  lemma EmptyDrained(s: State, t: Tid)
    requires var o := s.OwnerOf(t); o.op == NoOp && o.walk == [] && o.delayed == [] && o.phase == Draining(false)
    ensures Reaches(s, t, s.SetOwner(t, s.OwnerOf(t).(phase := Draining(true))))
  {
    var s' := s.SetOwner(t, s.OwnerOf(t).(phase := Draining(true)));
    assert CollectStep(s, t, TakeLoad, s');
    hide CollectStep;
    ReachesSelf(s', t);
    CollectNext(s, t, TakeLoad, s', s');
  }

  // The delayed list is in the hands of its heap's thread.
  function TakenOver(s: State, t: Tid): State {
    var o := s.OwnerOf(t);
    s.MoveAll(o.delayed, Drained(t)).SetOwner(t, Owner(AfterDrain(o.phase), NoOp, [], o.delayed, false))
  }

  lemma TakeFrom(s: State, t: Tid)
    requires var o := s.OwnerOf(t);
      o.op == NoOp && o.walk == [] && o.delayed != [] && (o.phase == Running || o.phase == Draining(false))
    ensures Reaches(s, t, TakenOver(s, t))
  {
    var o := s.OwnerOf(t);
    var s1 := s.SetOwner(t, o.(op := Take(HeadOf(o.delayed))));
    assert CollectStep(s, t, TakeLoad, s1);
    assert CollectStep(s1, t, TakeCas, TakenOver(s, t));
    hide CollectStep, TakenOver;
    ReachesSelf(TakenOver(s, t), t);
    CollectNext(s1, t, TakeCas, TakenOver(s, t), TakenOver(s, t));
    CollectNext(s, t, TakeLoad, s1, TakenOver(s, t));
  }

  lemma TakenReady(s: State, t: Tid)
    requires NoneFreeing(s, s.OwnerOf(t).delayed)
    ensures WalkReady(TakenOver(s, t), t)
  {}

  lemma DelayedPlaces(s: State, t: Tid)
    requires Good(s)
    ensures forall b | b in s.OwnerOf(t).delayed :: At(s.loc, b, OnDelayed(t))
  {
    OwnerFacts(s, t);
  }

  lemma TakenBack(s: State, t: Tid, s': State)
    requires CameBack(TakenOver(s, t), s', s.OwnerOf(t).delayed)
    requires forall b | b in s.OwnerOf(t).delayed :: At(s.loc, b, OnDelayed(t))
    ensures CameBack(s, s', s.OwnerOf(t).delayed)
  {
    var s2, list := TakenOver(s, t), s.OwnerOf(t).delayed;
    forall b | b in s.loc ensures b in s'.loc && MovedTo(s.loc[b], s'.loc[b], b in list) {
      assert b in s2.loc && MovedTo(s2.loc[b], s'.loc[b], b in list);
    }
  }

  // A block that another thread frees over the delayed list comes back: its heap's next drain puts it on a list of its
  // page, and opens the page for delayed frees again.
  lemma ComesBack(s: State, t: Tid, h: Tid, b: Block) returns (r: State, s': State)
    requires Good(s) && s.FreerOf(t) == Idle && b in s.loc && s.loc[b] == Program && b.page in s.pages
    requires s.pages[b.page].flag == UseDelayed && s.pages[b.page].heap == Some(h)
    requires Calm(s.OwnerOf(h)) && NoneFreeing(s, s.OwnerOf(h).delayed)
    ensures Reaches(s, t, r) && Reaches(r, h, s')
    ensures b in s'.loc && Home(s'.loc[b]) && b.page in s'.pages && s'.pages[b.page].flag == UseDelayed
  {
    r := OnDelayedList(s, t, b, h);
    FreedByOther(s, t, b);
    NotPast(s, h);
    hide Good;
    GoodOn(s, t, r);
    ListedReady(s, t, b, h);
    hide NoneFreeing, OnDelayedList;
    s' := DrainAlone(r, h);
    BackHome(r, s', [b] + s.OwnerOf(h).delayed, b);
  }

  lemma FreedByOther(s: State, t: Tid, b: Block)
    requires Good(s) && s.FreerOf(t) == Idle && b in s.loc && s.loc[b] == Program && b.page in s.pages
    requires s.pages[b.page].flag == UseDelayed && s.pages[b.page].heap.Some?
    ensures Reaches(s, t, OnDelayedList(s, t, b, s.pages[b.page].heap.value))
  {
    hide Links;
    RemoteFree(s, t, b);
  }

  lemma NotPast(s: State, h: Tid)
    requires Good(s) && s.OwnerOf(h).walk == []
    ensures !s.OwnerOf(h).past
  {
    OwnerFacts(s, h);
  }

  lemma ListedReady(s: State, t: Tid, b: Block, h: Tid)
    requires b in s.loc && b.page in s.pages && NoneFreeing(s, s.OwnerOf(h).delayed)
    ensures var r := OnDelayedList(s, t, b, h);
      && r.OwnerOf(h) == s.OwnerOf(h).(delayed := [b] + s.OwnerOf(h).delayed) && NoneFreeing(r, r.OwnerOf(h).delayed)
      && b in r.loc && b.page in r.pages && r.pages[b.page].flag == NoDelayed
  {
    var r := OnDelayedList(s, t, b, h);
    forall c | c in r.OwnerOf(h).delayed
      ensures c in r.loc && c.page in r.pages && r.pages[c.page].flag != DelayedFreeing
    {
      assert c == b || c in s.OwnerOf(h).delayed;
    }
  }

  lemma BackHome(r: State, s': State, list: seq<Block>, b: Block)
    requires CameBack(r, s', list) && b in list && b in r.loc && b.page in r.pages
    requires r.pages[b.page].flag == NoDelayed
    ensures b in s'.loc && Home(s'.loc[b]) && b.page in s'.pages && s'.pages[b.page].flag == UseDelayed
  {
    OnPageIn(list, b);
    PageGets(r.pages[b.page], list, b.page);
  }

  // ---- allocating

  predicate Allocates(s: State, s': State, p: nat, b: Block) {
    b.page == p && At(s'.loc, b, Program) && !At(s.loc, b, Program)
  }

  // A page that has a block on one of its own lists, or room for more, gives its owner a block.
  lemma CanAllocate(s: State, t: Tid, p: nat) returns (s': State, b: Block)
    requires Good(s) && Calm(s.OwnerOf(t)) && Owned(s.pages, t, p)
    requires var pg := s.pages[p];
      pg.free != [] || pg.localFree != [] || pg.threadFree != [] || pg.capacity < pg.reserved
    ensures Reaches(s, t, s') && Allocates(s, s', p, b)
  {
    var pg := s.pages[p];
    hide Good;
    if pg.free != [] {
      s', b := TakeFree(s, t, p);
    } else if pg.localFree != [] {
      s', b := TakeLocal(s, t, p);
    } else if pg.threadFree != [] {
      var s1 := Collected(s, t, p);
      CollectAlone(s, t, p);
      GoodOn(s, t, s1);
      CollectedPage(s, t, p);
      hide Collected;
      s', b := TakeLocal(s1, t, p);
      ReachesTrans(s, t, s1, s');
    } else {
      var s1 := Extended(s, p, 1);
      ExtendOne(s, t, p);
      GoodOn(s, t, s1);
      hide Extended;
      s', b := TakeFree(s1, t, p);
      ReachesTrans(s, t, s1, s');
    }
  }

  lemma TakeFree(s: State, t: Tid, p: nat) returns (s': State, b: Block)
    requires Good(s) && Calm(s.OwnerOf(t)) && Owned(s.pages, t, p) && s.pages[p].free != []
    ensures Reaches(s, t, s') && Allocates(s, s', p, b)
  {
    hide Good, LocalStep;
    var pg := s.pages[p];
    b := pg.free[0];
    FreePlace(s, p, b);
    s' := s.SetPage(p, pg.(free := pg.free[1..], used := pg.used + 1)).Move(b, Program);
    MallocStep(s, t, p);
    ReachesSelf(s', t);
    LocalNext(s, t, Malloc(p), s', s');
  }

  lemma MallocStep(s: State, t: Tid, p: nat)
    requires Calm(s.OwnerOf(t)) && Owned(s.pages, t, p) && s.pages[p].free != []
    ensures var pg := s.pages[p];
      LocalStep(s, t, Malloc(p), s.SetPage(p, pg.(free := pg.free[1..], used := pg.used + 1)).Move(pg.free[0], Program))
  {}

  lemma FreePlace(s: State, p: nat, b: Block)
    requires Good(s) && p in s.pages && b in s.pages[p].free
    ensures b.page == p && At(s.loc, b, InFree)
  {
    PageFacts(s, p);
  }

  lemma TakeLocal(s: State, t: Tid, p: nat) returns (s': State, b: Block)
    requires Good(s) && Calm(s.OwnerOf(t)) && Owned(s.pages, t, p)
    requires s.pages[p].free == [] && s.pages[p].localFree != []
    ensures Reaches(s, t, s') && Allocates(s, s', p, b)
  {
    hide Good, LocalStep, Turned;
    var s1 := Turned(s, p);
    TurnStep(s, t, p, false);
    TurnedFacts(s, t, p);
    LocalPlaces(s, p);
    ReachesSelf(s1, t);
    LocalNext(s, t, CollectLocal(p, false), s1, s1);
    GoodOn(s, t, s1);
    s', b := TakeFree(s1, t, p);
    ReachesTrans(s, t, s1, s');
  }

  lemma TurnedFacts(s: State, t: Tid, p: nat)
    requires Calm(s.OwnerOf(t)) && Owned(s.pages, t, p) && s.pages[p].localFree != []
    ensures var s1 := Turned(s, p);
      && Calm(s1.OwnerOf(t)) && Owned(s1.pages, t, p) && s1.pages[p].free != []
      && forall c | At(s.loc, c, Program) && c !in s.pages[p].localFree :: At(s1.loc, c, Program)
  {}

  lemma LocalPlaces(s: State, p: nat)
    requires Good(s) && p in s.pages
    ensures forall c | c in s.pages[p].localFree :: At(s.loc, c, InLocal)
    ensures forall c | c in s.pages[p].threadFree :: At(s.loc, c, InThread)
  {
    PageFacts(s, p);
  }

  lemma CollectedPage(s: State, t: Tid, p: nat)
    requires Good(s) && Calm(s.OwnerOf(t)) && Owned(s.pages, t, p) && s.pages[p].threadFree != []
    ensures var s1 := Collected(s, t, p);
      && Calm(s1.OwnerOf(t)) && Owned(s1.pages, t, p) && s1.pages[p].localFree != []
      && s1.pages[p].free == s.pages[p].free && forall c | At(s.loc, c, Program) :: At(s1.loc, c, Program)
  {
    LocalPlaces(s, p);
    hide Good;
  }

  function Extended(s: State, p: nat, n: nat): State
    requires p in s.pages
  {
    var pg := s.pages[p];
    var blocks := Fresh(p, pg.capacity, n);
    s.SetPage(p, pg.(capacity := pg.capacity + n, free := blocks))
     .(loc := AddFree(s.loc, blocks), next := LinkFresh(s.next, blocks, pg.capacity + n))
  }

  lemma ExtendOne(s: State, t: Tid, p: nat)
    requires Good(s) && Calm(s.OwnerOf(t)) && Owned(s.pages, t, p) && s.pages[p].free == []
    requires s.pages[p].capacity < s.pages[p].reserved
    ensures var s1 := Extended(s, p, 1);
      && Reaches(s, t, s1) && Calm(s1.OwnerOf(t)) && Owned(s1.pages, t, p) && s1.pages[p].free != []
      && forall c | At(s.loc, c, Program) :: At(s1.loc, c, Program)
  {
    hide Good, LocalStep, Fresh, LinkFresh, AddFree;
    var s1 := Extended(s, p, 1);
    NewPlaces(s, p);
    ExtendStep(s, t, p);
    ReachesSelf(s1, t);
    LocalNext(s, t, Extend(p, 1), s1, s1);
  }

  lemma ExtendStep(s: State, t: Tid, p: nat)
    requires Calm(s.OwnerOf(t)) && Owned(s.pages, t, p) && s.pages[p].free == []
    requires s.pages[p].capacity < s.pages[p].reserved
    ensures LocalStep(s, t, Extend(p, 1), Extended(s, p, 1))
  {
    hide Fresh, LinkFresh, AddFree;
  }

  lemma NewPlaces(s: State, p: nat)
    requires Good(s) && p in s.pages
    ensures forall c | c in Fresh(p, s.pages[p].capacity, 1) :: c !in s.loc
  {
    FreshMembers(p, s.pages[p].capacity, 1);
  }

  // A block freed by its owner goes to the front of the local list at once.
  lemma LocalFreeAlone(s: State, t: Tid, b: Block)
    requires Calm(s.OwnerOf(t)) && b in s.loc && s.loc[b] == Program && Owned(s.pages, t, b.page)
    ensures Reaches(s, t, PushLocal(s, b))
  {
    assert LocalStep(s, t, LocalFree(b), PushLocal(s, b));
    hide LocalStep;
    ReachesSelf(PushLocal(s, b), t);
    LocalNext(s, t, LocalFree(b), PushLocal(s, b), PushLocal(s, b));
  }

  // ---- a page comes and goes

  // A new page is empty, in the heap of its thread, and open for delayed frees; a page of which no block is in use may
  // be given back at once, and all its blocks go with it.
  lemma PageAlone(s: State, t: Tid, p: nat, reserved: nat)
    requires Calm(s.OwnerOf(t))
    ensures p !in s.pages ==>
      Reaches(s, t, s.SetPage(p, Page(0, reserved, 0, [], [], [], UseDelayed, Some(t), Some(t))))
    ensures p in s.pages && s.pages[p].owner == Some(t) && s.pages[p].used == 0 ==>
      Reaches(s, t, s.(pages := s.pages - {p}, loc := map b | b in s.loc && b.page != p :: s.loc[b]))
  {
    var added := s.SetPage(p, Page(0, reserved, 0, [], [], [], UseDelayed, Some(t), Some(t)));
    var gone := s.(pages := s.pages - {p}, loc := map b | b in s.loc && b.page != p :: s.loc[b]);
    assert p !in s.pages ==> LocalStep(s, t, NewPage(p, reserved), added);
    assert p in s.pages && s.pages[p].owner == Some(t) && s.pages[p].used == 0 ==> LocalStep(s, t, FreePage(p), gone);
    hide LocalStep;
    ReachesSelf(added, t);
    ReachesSelf(gone, t);
    if p !in s.pages { LocalNext(s, t, NewPage(p, reserved), added, added); }
    else if s.pages[p].owner == Some(t) && s.pages[p].used == 0 { LocalNext(s, t, FreePage(p), gone, gone); }
  }

  // ---- every operation ends

  function OwnerLeft(s: State, t: Tid): nat {
    match s.OwnerOf(t).op
    case NoOp => 0
    case Take(d) => if d == HeadOf(s.OwnerOf(t).delayed) then 1 else 2
    case SetFlag(_, _, _) => 2
    case SetFlagLoaded(p, _, _, w) => if p in s.pages && w == WordOf(s.pages[p]) then 1 else 3
    case Append(_, _) => 1
    case Collect(p, w) => if p in s.pages && w == WordOf(s.pages[p]) then 2 else 3
  }

  // A flag operation waits for a thread that is freeing into the page.
  predicate Waits(s: State, t: Tid) {
    var op := s.OwnerOf(t).op;
    (op.SetFlag? || op.SetFlagLoaded?) && op.p in s.pages && s.pages[op.p].flag == DelayedFreeing
  }

  lemma OpPage(s: State, t: Tid)
    requires Good(s)
    ensures var op := s.OwnerOf(t).op;
      && (op.SetFlag? || op.SetFlagLoaded? || op.Collect? || op.Append? ==> op.p in s.pages)
      && (op.Append? ==> op.list != [])
  {
    OwnerFacts(s, t);
  }

  lemma TakeOnward(s: State, t: Tid) returns (a: Action, s1: State)
    requires s.OwnerOf(t).op.Take?
    ensures CollectStep(s, t, a, s1) && OwnerLeft(s1, t) < OwnerLeft(s, t) && !Waits(s1, t)
  {
    var o := s.OwnerOf(t);
    if o.op.d == HeadOf(o.delayed) {
      a := TakeCas;
      s1 := s.MoveAll(o.delayed, Drained(t))
             .SetOwner(t, Owner(if o.phase == Running then Running else Draining(true), NoOp, [], o.delayed, false));
    } else {
      a, s1 := TakeRetry, s.SetOwner(t, o.(op := Take(HeadOf(o.delayed))));
    }
  }

  lemma CollectOnward(s: State, t: Tid) returns (a: Action, s1: State)
    requires var op := s.OwnerOf(t).op; (op.Collect? || (op.Append? && op.list != [])) && op.p in s.pages
    ensures CollectStep(s, t, a, s1) && OwnerLeft(s1, t) < OwnerLeft(s, t) && !Waits(s1, t)
  {
    var o, p := s.OwnerOf(t), s.OwnerOf(t).op.p;
    var pg := s.pages[p];
    if o.op.Append? {
      var list := o.op.list;
      a := CollectAppend;
      s1 := s.SetPage(p, pg.(localFree := list + pg.localFree, used := pg.used - |list|)).MoveAll(list, InLocal)
             .Link(list[|list| - 1], HeadOf(pg.localFree)).SetOwner(t, o.(op := NoOp));
    } else {
      a := CollectCas;
      s1 := if o.op.w != WordOf(pg) then s.SetOwner(t, o.(op := Collect(p, WordOf(pg))))
            else if pg.threadFree == [] then s.SetOwner(t, o.(op := NoOp))
            else s.SetPage(p, pg.(threadFree := [])).MoveAll(pg.threadFree, Detached(t))
                  .SetOwner(t, o.(op := Append(p, pg.threadFree)));
    }
  }

  lemma FlagOnward(s: State, t: Tid) returns (a: Action, s1: State)
    requires var op := s.OwnerOf(t).op; (op.SetFlag? || op.SetFlagLoaded?) && op.p in s.pages && !Waits(s, t)
    ensures FlagStep(s, t, a, s1) && OwnerLeft(s1, t) < OwnerLeft(s, t) && !Waits(s1, t)
  {
    var o, p := s.OwnerOf(t), s.OwnerOf(t).op.p;
    var pg := s.pages[p];
    if o.op.SetFlag? {
      a := SetFlagLoad;
      s1 := if o.op.to == pg.flag || (!o.op.override && pg.flag == NeverDelayed) then s.SetOwner(t, FlagDone(o, p))
            else s.SetOwner(t, o.(op := SetFlagLoaded(p, o.op.to, o.op.override, WordOf(pg))));
    } else if o.op.w == WordOf(pg) {
      a, s1 := SetFlagCas, s.SetPage(p, pg.(flag := o.op.to)).SetOwner(t, FlagDone(o, p));
    } else {
      a, s1 := SetFlagRetry, s.SetOwner(t, o.(op := SetFlag(p, o.op.to, o.op.override)));
    }
  }

  // Whatever the others have done before, an owner that is left alone comes to the end of its operation, unless it
  // waits for a thread that is freeing into the page.
  lemma {:induction false} OwnerEnds(s: State, t: Tid) returns (s': State)
    requires Good(s) && !Waits(s, t)
    ensures Reaches(s, t, s') && s'.OwnerOf(t).op == NoOp
    decreases OwnerLeft(s, t)
  {
    hide Good, FreerStep, LocalStep, CollectStep, FlagStep, PhaseStep, OwnerLeft, Waits;
    var op := s.OwnerOf(t).op;
    if op == NoOp {
      s' := s;
      ReachesSelf(s, t);
    } else {
      OpPage(s, t);
      var a, s1;
      if op.Take? { a, s1 := TakeOnward(s, t); }
      else if op.Collect? || op.Append? { a, s1 := CollectOnward(s, t); }
      else { a, s1 := FlagOnward(s, t); }
      StepLinks(s, t, a, s1);
      s' := OwnerEnds(s1, t);
      ReachesNext(s, t, a, s1, s');
    }
  }
}
