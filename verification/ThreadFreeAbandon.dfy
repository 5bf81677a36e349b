// A thread that ends gives up its heap: it closes its pages to delayed frees, drains the delayed list and leaves every
// page without a heap (heap.c, segment.c).
module ThreadFreeAbandon {
  import opened Base
  import opened ThreadFree
  import opened ThreadFreeInv
  import opened ThreadFreeRuns
  import opened ThreadFreeAlone
  import opened ThreadFreeOwners

  ghost function Own(s: State, t: Tid): set<nat> { set p | p in s.pages && Owned(s.pages, t, p) }

  // ---- closing the pages

  ghost predicate MarkReady(s: State, t: Tid) {
    var o := s.OwnerOf(t);
    && o.phase.Marking? && o.op == NoOp && o.walk == [] && !o.past
    && forall p | p in Own(s, t) :: s.pages[p].flag != DelayedFreeing
  }

  // The flags of the pages in `closed` are NEVER, and nothing else is different but the phase of t.
  ghost predicate Closed(s: State, s': State, t: Tid, closed: set<nat>, phase: Phase) {
    && s'.pages.Keys == s.pages.Keys
    && (forall q | q in s.pages :: s'.pages[q] == if q in closed then s.pages[q].(flag := NeverDelayed) else s.pages[q])
    && s'.loc == s.loc && s'.freers == s.freers && OthersSame(s, s', t)
    && s'.OwnerOf(t) == s.OwnerOf(t).(phase := phase)
  }

  function Marked(s: State, t: Tid, p: nat): State
    requires p in s.pages && s.OwnerOf(t).phase.Marking?
  {
    s.SetPage(p, s.pages[p].(flag := NeverDelayed))
     .SetOwner(t, s.OwnerOf(t).(phase := Marking(s.OwnerOf(t).phase.marked + {p})))
  }

  lemma MarkOne(s: State, t: Tid, p: nat)
    requires MarkReady(s, t) && p in Own(s, t) && p !in s.OwnerOf(t).phase.marked
    ensures Reaches(s, t, Marked(s, t, p))
  {
    var s1 := s.SetOwner(t, s.OwnerOf(t).(op := SetFlag(p, NeverDelayed, false)));
    assert PhaseStep(s, t, Mark(p), s1);
    assert Settled(s1, t, p, NeverDelayed, false) == Marked(s, t, p) by { MarkSettled(s, t, p, s1); }
    hide PhaseStep, Settled, Marked;
    FlagAlone(s1, t, p, NeverDelayed, false);
    PhaseNext(s, t, Mark(p), s1, Marked(s, t, p));
  }

  lemma MarkSettled(s: State, t: Tid, p: nat, s1: State)
    requires MarkReady(s, t) && p in s.pages
    requires s1 == s.SetOwner(t, s.OwnerOf(t).(op := SetFlag(p, NeverDelayed, false)))
    ensures Settled(s1, t, p, NeverDelayed, false) == Marked(s, t, p)
  {
    var o := s.OwnerOf(t);
    assert FlagDone(s1.OwnerOf(t), p) == o.(phase := Marking(o.phase.marked + {p}));
  }

  lemma MarkedReady(s: State, t: Tid, p: nat)
    requires MarkReady(s, t) && p in Own(s, t)
    ensures var s1 := Marked(s, t, p);
      && MarkReady(s1, t) && Own(s1, t) == Own(s, t) && s1.OwnerOf(t).phase == Marking(s.OwnerOf(t).phase.marked + {p})
  {
    var s1 := Marked(s, t, p);
    forall q ensures q in Own(s1, t) <==> q in Own(s, t) {}
  }

  lemma {:induction false} MarkAll(s: State, t: Tid) returns (s': State, marked: set<nat>)
    requires MarkReady(s, t)
    ensures Reaches(s, t, s') && marked >= Own(s, t)
    ensures Closed(s, s', t, Own(s, t) - s.OwnerOf(t).phase.marked, Marking(marked))
    decreases |Own(s, t) - s.OwnerOf(t).phase.marked|
  {
    var own, m := Own(s, t), s.OwnerOf(t).phase.marked;
    if own <= m {
      s', marked := s, m;
      ReachesSelf(s, t);
      assert own - m == {};
    } else {
      var p :| p in own && p !in m;
      var s1 := Marked(s, t, p);
      MarkOne(s, t, p);
      MarkedReady(s, t, p);
      Fewer(own, m, p);
      hide MarkReady, Closed, Own;
      s', marked := MarkAll(s1, t);
      MarkedMore(s, s', t, p, own, m, marked);
      hide Marked;
      ReachesTrans(s, t, s1, s');
    }
  }

  lemma Fewer(own: set<nat>, m: set<nat>, p: nat)
    requires p in own && p !in m
    ensures |own - (m + {p})| < |own - m|
  {
    assert own - m == (own - (m + {p})) + {p};
  }

  lemma MarkedMore(s: State, s': State, t: Tid, p: nat, own: set<nat>, m: set<nat>, marked: set<nat>)
    requires p in own && p in s.pages && p !in m && s.OwnerOf(t).phase == Marking(m)
    requires Closed(Marked(s, t, p), s', t, own - (m + {p}), Marking(marked))
    ensures Closed(s, s', t, own - m, Marking(marked))
  {
    var s1 := Marked(s, t, p);
    forall q | q in s.pages
      ensures s'.pages[q] == if q in own - m then s.pages[q].(flag := NeverDelayed) else s.pages[q]
    {
      assert q in s1.pages;
    }
  }

  // ---- leaving the pages

  // A page of which all blocks are free once its lists are collected.
  predicate Empty(pg: Page) { pg.used == |pg.threadFree| }

  function LeftPage(pg: Page): Page { TurnPage(CollectPage(pg), true).(heap := None, owner := None) }

  ghost function EmptyOf(pages: map<nat, Page>, left: set<nat>): set<nat> {
    set q | q in left && q in pages && Empty(pages[q])
  }

  // The blocks of the pages in `gone` are gone, and the others may have moved to a list of their page.
  ghost predicate MovedRest(loc: Loc, loc': Loc, back: seq<Block>, gone: set<nat>) {
    && (forall b :: b in loc' <==> b in loc && b.page !in gone)
    && forall b | b in loc' :: MovedTo(loc[b], loc'[b], b in back)
  }

  // The pages in `left` are given back where they are empty, and have neither heap nor owner where they are not.
  ghost predicate Leaves(s: State, s': State, t: Tid, left: set<nat>) {
    && s'.pages.Keys == s.pages.Keys - EmptyOf(s.pages, left)
    && (forall q | q in s'.pages :: s'.pages[q] == if q in left then LeftPage(s.pages[q]) else s.pages[q])
    && MovedRest(s.loc, s'.loc, [], EmptyOf(s.pages, left))
    && s'.freers == s.freers && OthersSame(s, s', t) && s'.OwnerOf(t) == s.OwnerOf(t)
  }

  // Page p is collected by force, and given back if it is empty then.
  function Left(s: State, t: Tid, p: nat): State
    requires p in s.pages
  {
    var s1 := Gathered(s, t, p, true);
    if p !in s1.pages then s1
    else if s1.pages[p].used == 0
      then s1.(pages := s1.pages - {p}, loc := map b | b in s1.loc && b.page != p :: s1.loc[b])
    else s1.SetPage(p, s1.pages[p].(heap := None, owner := None))
  }

  predicate LeaveReady(s: State, t: Tid) {
    var o := s.OwnerOf(t);
    o.phase == Abandoning && o.op == NoOp && o.walk == []
  }

  lemma LeaveOne(s: State, t: Tid, p: nat)
    requires Good(s) && LeaveReady(s, t) && p in s.pages && Owned(s.pages, t, p)
    ensures Reaches(s, t, Left(s, t, p)) && Leaves(s, Left(s, t, p), t, {p})
  {
    assert MayCollect(s, t, p);
    hide Good, Became, Leaves, Left, MayCollect, TurnPage, CollectPage;
    var s1 := Gathered(s, t, p, true);
    GatheredFacts(s, t, p, true);
    hide Gathered;
    BecameReady(s, s1, t, p);
    LeaveStep(s, t, p, s1);
    LeftLeaves(s, t, p, s1);
    ReachesTrans(s, t, s1, Left(s, t, p));
  }

  lemma BecameReady(s: State, s1: State, t: Tid, p: nat)
    requires LeaveReady(s, t) && p in s.pages && Owned(s.pages, t, p)
    requires Became(s, s1, t, p, TurnPage(CollectPage(s.pages[p]), true))
    ensures LeaveReady(s1, t) && p in s1.pages && Owned(s1.pages, t, p)
  {
    hide MovedAll, OthersSame;
  }

  lemma LeaveStep(s: State, t: Tid, p: nat, s1: State)
    requires p in s.pages && s1 == Gathered(s, t, p, true)
    requires LeaveReady(s1, t) && p in s1.pages && Owned(s1.pages, t, p)
    ensures Reaches(s1, t, Left(s, t, p))
  {
    hide Gathered;
    var s' := Left(s, t, p);
    assert s1.pages[p].used == 0 ==> LocalStep(s1, t, FreePage(p), s');
    assert s1.pages[p].used != 0 ==> PhaseStep(s1, t, AbandonPage(p), s');
    hide LocalStep, PhaseStep, Left;
    ReachesSelf(s', t);
    if s1.pages[p].used == 0 { LocalNext(s1, t, FreePage(p), s', s'); }
    else { PhaseNext(s1, t, AbandonPage(p), s', s'); }
  }

  lemma LeftLeaves(s: State, t: Tid, p: nat, s1: State)
    requires p in s.pages && s1 == Gathered(s, t, p, true) && s.OwnerOf(t).op == NoOp
    requires Became(s, s1, t, p, TurnPage(CollectPage(s.pages[p]), true))
    ensures Leaves(s, Left(s, t, p), t, {p})
  {
    LeftPlaces(s, t, p, s1);
    LeftPages(s, t, p, s1);
    LeftOwners(s, t, p, s1);
    LeftEmpty(s, p);
    hide Gathered, MovedRest, EmptyOf, LeftPage, Left, Became, OthersSame;
  }

  lemma LeftPages(s: State, t: Tid, p: nat, s1: State)
    requires p in s.pages && s1 == Gathered(s, t, p, true)
    requires s1.pages == s.pages[p := TurnPage(CollectPage(s.pages[p]), true)]
    ensures Left(s, t, p).pages == if s.pages[p].used == |s.pages[p].threadFree| then s.pages - {p}
                                   else s.pages[p := LeftPage(s.pages[p])]
  {
    hide Gathered;
    assert s1.pages[p].used == s.pages[p].used - |s.pages[p].threadFree|;
    assert s1.pages - {p} == s.pages - {p};
    SetTwice(s.pages, p, s1.pages[p], LeftPage(s.pages[p]));
  }

  lemma LeftOwners(s: State, t: Tid, p: nat, s1: State)
    requires p in s.pages && s1 == Gathered(s, t, p, true) && s.OwnerOf(t).op == NoOp
    requires Became(s, s1, t, p, TurnPage(CollectPage(s.pages[p]), true))
    ensures var s' := Left(s, t, p);
      s'.freers == s.freers && OthersSame(s, s', t) && s'.OwnerOf(t) == s.OwnerOf(t)
  {
    hide Gathered, TurnPage, CollectPage, MovedAll;
  }

  lemma LeftEmpty(s: State, p: nat)
    requires p in s.pages
    ensures EmptyOf(s.pages, {p}) == if s.pages[p].used == |s.pages[p].threadFree| then {p} else {}
  {}

  lemma LeftPlaces(s: State, t: Tid, p: nat, s1: State)
    requires p in s.pages && s1 == Gathered(s, t, p, true)
    requires Became(s, s1, t, p, TurnPage(CollectPage(s.pages[p]), true))
    ensures MovedRest(s.loc, Left(s, t, p).loc, [], EmptyOf(s.pages, {p}))
  {
    hide Gathered, MovedTo, OthersSame;
    LeftEmpty(s, p);
    hide EmptyOf;
    assert s1.pages[p].used == s.pages[p].used - |s.pages[p].threadFree|;
    hide TurnPage, CollectPage;
  }

  lemma LeavesOwn(s: State, s1: State, t: Tid, p: nat)
    requires p in Own(s, t) && Leaves(s, s1, t, {p})
    ensures Own(s1, t) == Own(s, t) - {p} && |Own(s1, t)| < |Own(s, t)|
  {
    hide MovedRest, OthersSame, CollectPage, TurnPage;
    forall q ensures q in Own(s1, t) <==> q in Own(s, t) && q != p {}
    assert Own(s, t) == Own(s1, t) + {p};
  }

  lemma {:induction false} LeaveAll(s: State, t: Tid) returns (s': State)
    requires Good(s) && LeaveReady(s, t)
    ensures Reaches(s, t, s') && Leaves(s, s', t, Own(s, t)) && Own(s', t) == {}
    decreases |Own(s, t)|
  {
    var own := Own(s, t);
    if own == {} {
      s' := s;
      ReachesSelf(s, t);
      NothingLeft(s, t);
    } else {
      var p :| p in own;
      var s1 := Left(s, t, p);
      hide Good, Left;
      LeaveOne(s, t, p);
      GoodOn(s, t, s1);
      LeavesOwn(s, s1, t, p);
      assert LeaveReady(s1, t);
      hide Leaves, Own;
      s' := LeaveAll(s1, t);
      LeavesThen(s, s1, s', t, p, own);
      ReachesTrans(s, t, s1, s');
    }
  }

  lemma NothingLeft(s: State, t: Tid)
    ensures Leaves(s, s, t, {})
  {}

  lemma LeavesThen(s: State, s1: State, s': State, t: Tid, p: nat, own: set<nat>)
    requires p in own && p in s.pages && Leaves(s, s1, t, {p}) && Leaves(s1, s', t, own - {p})
    ensures Leaves(s, s', t, own)
  {
    hide MovedRest, LeftPage, Empty;
    GoneBoth(s, s1, t, p, own);
    MovedRestThen(s.loc, s1.loc, s'.loc, EmptyOf(s.pages, {p}), EmptyOf(s1.pages, own - {p}));
    hide EmptyOf;
    forall u: Tid | u != t ensures s'.OwnerOf(u) == s.OwnerOf(u) {
      assert s1.OwnerOf(u) == s.OwnerOf(u) && s'.OwnerOf(u) == s1.OwnerOf(u);
    }
  }

  lemma GoneBoth(s: State, s1: State, t: Tid, p: nat, own: set<nat>)
    requires p in own && p in s.pages && Leaves(s, s1, t, {p})
    ensures EmptyOf(s.pages, own) == EmptyOf(s.pages, {p}) + EmptyOf(s1.pages, own - {p})
  {
    hide MovedRest, LeftPage, Empty, OthersSame;
  }

  lemma MovedRestThen(loc: Loc, loc1: Loc, loc2: Loc, gone1: set<nat>, gone2: set<nat>)
    requires MovedRest(loc, loc1, [], gone1) && MovedRest(loc1, loc2, [], gone2)
    ensures MovedRest(loc, loc2, [], gone1 + gone2)
  {
    forall b | b in loc2 ensures MovedTo(loc[b], loc2[b], false) { assert b in loc1; }
  }

  // ---- giving up the heap

  // The page is abandoned with its lists collected; n blocks came back to it from the delayed list.
  predicate Abandons(pg: Page, pg': Page, n: nat) {
    && pg'.heap == None && pg'.owner == None && pg'.flag == NeverDelayed && pg'.capacity == pg.capacity
    && pg'.reserved == pg.reserved && pg'.used == pg.used - |pg.threadFree| - n
    && pg'.threadFree == [] && pg'.localFree == []
  }

  // The pages of t of which no block is in use once everything is collected.
  ghost function Unused(s: State, t: Tid): set<nat> {
    set q | q in s.pages && Owned(s.pages, t, q)
            && s.pages[q].used == |s.pages[q].threadFree| + OnPage(s.OwnerOf(t).delayed, q)
  }

  ghost predicate GivesUp(s: State, s': State, t: Tid) {
    && s'.OwnerOf(t) == Owner(Running, NoOp, [], [], false) && OthersSame(s, s', t) && s'.freers == s.freers
    && s'.pages.Keys == s.pages.Keys - Unused(s, t)
    && (forall q | q in s'.pages ::
          if q in Own(s, t) then Abandons(s.pages[q], s'.pages[q], OnPage(s.OwnerOf(t).delayed, q))
          else s'.pages[q] == s.pages[q])
    && MovedRest(s.loc, s'.loc, s.OwnerOf(t).delayed, Unused(s, t))
  }

  // Run alone, a thread that gives up its heap comes to the end of it: every block on its delayed list is back in its
  // page, exactly the pages of which no block is in use are given back, and the others are abandoned with a NEVER flag.
  // It only has to wait for frees that are under way.
  lemma AbandonAlone(s: State, t: Tid) returns (s': State)
    requires Good(s) && Calm(s.OwnerOf(t)) && forall p | p in Own(s, t) :: s.pages[p].flag != DelayedFreeing
    ensures Reaches(s, t, s') && GivesUp(s, s', t) && Own(s', t) == {}
  {
    hide Good;
    CalmFacts(s, t);
    var s1 := CloseAll(s, t);
    DelayedClosed(s, s1, t);
    hide Closed, NoneFreeing;
    GoodOn(s, t, s1);
    var s2 := DrainAlone(s1, t);
    hide CameBack, OthersSame;
    var s3 := s2.SetOwner(t, s2.OwnerOf(t).(phase := Abandoning));
    DrainEnd(s2, t);
    GoodOn(s1, t, s2);
    GoodOn(s2, t, s3);
    var s4 := LeaveAll(s3, t);
    s' := s4.SetOwner(t, s4.OwnerOf(t).(phase := Running));
    LeftOwner(s3, s4, t);
    LeaveEnd(s4, t);
    hide Leaves, GivesUp, Own;
    Joined(s, s1, s2, s3, s4, t);
    ReachesTrans(s3, t, s4, s');
    ReachesTrans(s2, t, s3, s');
    ReachesTrans(s1, t, s2, s');
    ReachesTrans(s, t, s1, s');
  }

  lemma CalmFacts(s: State, t: Tid)
    requires Good(s) && Calm(s.OwnerOf(t))
    ensures !s.OwnerOf(t).past
    ensures forall b | b in s.OwnerOf(t).delayed :: b in s.loc && b.page in Own(s, t)
  {
    OwnerFacts(s, t);
  }

  lemma CloseAll(s: State, t: Tid) returns (s1: State)
    requires Calm(s.OwnerOf(t)) && !s.OwnerOf(t).past && forall p | p in Own(s, t) :: s.pages[p].flag != DelayedFreeing
    ensures Reaches(s, t, s1) && Closed(s, s1, t, Own(s, t), Draining(false))
  {
    var a := s.SetOwner(t, s.OwnerOf(t).(phase := Marking({})));
    BeginStep(s, t, a);
    var b, marked := MarkAll(a, t);
    assert Own(a, t) - {} == Own(s, t);
    hide Own;
    ClosedOwn(a, b, t, Own(s, t), marked);
    s1 := b.SetOwner(t, b.OwnerOf(t).(phase := Draining(false)));
    EndStep(b, t, marked, s1) by { ClosedPhase(a, b, t, Own(s, t), marked); }
    ClosedBoth(s, a, b, s1, t, Own(s, t), marked);
    hide Closed;
    ReachesTrans(a, t, b, s1);
    ReachesTrans(s, t, a, s1);
  }

  lemma BeginStep(s: State, t: Tid, a: State)
    requires Calm(s.OwnerOf(t)) && !s.OwnerOf(t).past && a == s.SetOwner(t, s.OwnerOf(t).(phase := Marking({})))
    requires forall p | p in Own(s, t) :: s.pages[p].flag != DelayedFreeing
    ensures Reaches(s, t, a) && Own(a, t) == Own(s, t) && MarkReady(a, t)
  {
    assert PhaseStep(s, t, BeginAbandon, a);
    assert Own(a, t) == Own(s, t);
    hide PhaseStep;
    ReachesSelf(a, t);
    PhaseNext(s, t, BeginAbandon, a, a);
  }

  lemma ClosedPhase(a: State, b: State, t: Tid, closed: set<nat>, marked: set<nat>)
    requires Closed(a, b, t, closed, Marking(marked)) && a.OwnerOf(t).op == NoOp
    ensures b.OwnerOf(t).phase == Marking(marked) && b.OwnerOf(t).op == NoOp
  {}

  lemma EndStep(b: State, t: Tid, marked: set<nat>, s1: State)
    requires b.OwnerOf(t).phase == Marking(marked) && b.OwnerOf(t).op == NoOp
    requires forall p | Owned(b.pages, t, p) :: p in marked
    requires s1 == b.SetOwner(t, b.OwnerOf(t).(phase := Draining(false)))
    ensures Reaches(b, t, s1)
  {
    assert PhaseStep(b, t, EndMark, s1);
    hide PhaseStep;
    ReachesSelf(s1, t);
    PhaseNext(b, t, EndMark, s1, s1);
  }

  lemma ClosedBoth(s: State, a: State, b: State, s1: State, t: Tid, closed: set<nat>, marked: set<nat>)
    requires a == s.SetOwner(t, s.OwnerOf(t).(phase := Marking({})))
    requires Closed(a, b, t, closed, Marking(marked)) && s1 == b.SetOwner(t, b.OwnerOf(t).(phase := Draining(false)))
    ensures Closed(s, s1, t, closed, Draining(false))
  {
    forall u: Tid | u != t ensures s1.OwnerOf(u) == s.OwnerOf(u) {
      assert b.OwnerOf(u) == a.OwnerOf(u) && a.OwnerOf(u) == s.OwnerOf(u) && s1.OwnerOf(u) == b.OwnerOf(u);
    }
  }

  lemma ClosedOwn(a: State, b: State, t: Tid, closed: set<nat>, marked: set<nat>)
    requires Closed(a, b, t, closed, Marking(marked)) && marked >= Own(a, t)
    ensures forall p | Owned(b.pages, t, p) :: p in marked
  {
    forall p | Owned(b.pages, t, p) ensures p in marked { assert p in Own(a, t); }
  }

  lemma DelayedClosed(s: State, s1: State, t: Tid)
    requires Closed(s, s1, t, Own(s, t), Draining(false))
    requires forall b | b in s.OwnerOf(t).delayed :: b in s.loc && b.page in Own(s, t)
    ensures NoneFreeing(s1, s1.OwnerOf(t).delayed) && s1.OwnerOf(t) == s.OwnerOf(t).(phase := Draining(false))
  {}

  lemma DrainEnd(s2: State, t: Tid)
    requires s2.OwnerOf(t).phase == Draining(true) && s2.OwnerOf(t).op == NoOp && s2.OwnerOf(t).walk == []
    ensures Reaches(s2, t, s2.SetOwner(t, s2.OwnerOf(t).(phase := Abandoning)))
  {
    var s3 := s2.SetOwner(t, s2.OwnerOf(t).(phase := Abandoning));
    assert PhaseStep(s2, t, EndDrain, s3);
    hide PhaseStep;
    ReachesSelf(s3, t);
    PhaseNext(s2, t, EndDrain, s3, s3);
  }

  lemma LeftOwner(s3: State, s4: State, t: Tid)
    requires Leaves(s3, s4, t, Own(s3, t))
    ensures s4.OwnerOf(t) == s3.OwnerOf(t)
  {}

  lemma LeaveEnd(s4: State, t: Tid)
    requires s4.OwnerOf(t).phase == Abandoning && s4.OwnerOf(t).op == NoOp && Own(s4, t) == {}
    ensures Reaches(s4, t, s4.SetOwner(t, s4.OwnerOf(t).(phase := Running)))
    ensures Own(s4.SetOwner(t, s4.OwnerOf(t).(phase := Running)), t) == {}
  {
    var s' := s4.SetOwner(t, s4.OwnerOf(t).(phase := Running));
    forall p ensures !Owned(s4.pages, t, p) { assert p !in Own(s4, t); }
    assert PhaseStep(s4, t, EndAbandon, s');
    hide PhaseStep;
    ReachesSelf(s', t);
    PhaseNext(s4, t, EndAbandon, s', s');
  }

  lemma Joined(s: State, s1: State, s2: State, s3: State, s4: State, t: Tid)
    requires Calm(s.OwnerOf(t)) && !s.OwnerOf(t).past && forall b | b in s.OwnerOf(t).delayed :: b.page in Own(s, t)
    requires Closed(s, s1, t, Own(s, t), Draining(false)) && CameBack(s1, s2, s.OwnerOf(t).delayed)
    requires OthersSame(s1, s2, t)
    requires s2.OwnerOf(t) == s1.OwnerOf(t).(delayed := [], phase := Draining(true))
    requires s3 == s2.SetOwner(t, s2.OwnerOf(t).(phase := Abandoning)) && Leaves(s3, s4, t, Own(s3, t))
    ensures GivesUp(s, s4.SetOwner(t, s4.OwnerOf(t).(phase := Running)), t)
  {
    var s', list := s4.SetOwner(t, s4.OwnerOf(t).(phase := Running)), s.OwnerOf(t).delayed;
    JoinedOwners(s, s1, s2, s3, s4, t);
    DrainedPages(s, s1, s2, t, list);
    JoinedPages(s, s2, s3, s4, t, list);
    JoinedPlaces(s, s1, s2, s3, s4, t, list);
    hide Closed, CameBack, Leaves, Own, Unused, MovedRest, OthersSame, Abandons;
  }

  lemma JoinedOwners(s: State, s1: State, s2: State, s3: State, s4: State, t: Tid)
    requires Calm(s.OwnerOf(t)) && !s.OwnerOf(t).past
    requires Closed(s, s1, t, Own(s, t), Draining(false)) && CameBack(s1, s2, s.OwnerOf(t).delayed)
    requires OthersSame(s1, s2, t)
    requires s2.OwnerOf(t) == s1.OwnerOf(t).(delayed := [], phase := Draining(true))
    requires s3 == s2.SetOwner(t, s2.OwnerOf(t).(phase := Abandoning)) && Leaves(s3, s4, t, Own(s3, t))
    ensures var s' := s4.SetOwner(t, s4.OwnerOf(t).(phase := Running));
      && s'.OwnerOf(t) == Owner(Running, NoOp, [], [], false) && OthersSame(s, s', t) && s'.freers == s.freers
  {
    hide MovedAll, MovedRest, Own, EmptyOf, LeftPage, PageAfter;
    var s' := s4.SetOwner(t, s4.OwnerOf(t).(phase := Running));
    forall u: Tid | u != t ensures s'.OwnerOf(u) == s.OwnerOf(u) {
      assert s1.OwnerOf(u) == s.OwnerOf(u) && s2.OwnerOf(u) == s1.OwnerOf(u) && s4.OwnerOf(u) == s3.OwnerOf(u);
    }
  }

  // A page of t after its flag is NEVER and the delayed list is drained.
  predicate Drains(pg: Page, pg': Page, n: nat) {
    && pg'.heap == pg.heap && pg'.owner == pg.owner && pg'.flag == NeverDelayed && pg'.capacity == pg.capacity
    && pg'.reserved == pg.reserved && pg'.used - |pg'.threadFree| == pg.used - |pg.threadFree| - n
  }

  ghost predicate DrainsAll(s: State, s2: State, t: Tid, list: seq<Block>) {
    && s2.pages.Keys == s.pages.Keys
    && forall q | q in s.pages ::
         if q in Own(s, t) then Drains(s.pages[q], s2.pages[q], OnPage(list, q)) else s2.pages[q] == s.pages[q]
  }

  lemma DrainedPages(s: State, s1: State, s2: State, t: Tid, list: seq<Block>)
    requires Closed(s, s1, t, Own(s, t), Draining(false)) && CameBack(s1, s2, list)
    requires forall b | b in list :: b.page in Own(s, t)
    ensures DrainsAll(s, s2, t, list)
  {
    hide MovedAll, OthersSame, Own;
    forall q | q in s.pages
      ensures if q in Own(s, t) then Drains(s.pages[q], s2.pages[q], OnPage(list, q)) else s2.pages[q] == s.pages[q]
    {
      PageGets(s1.pages[q], list, q);
      if q !in Own(s, t) { NoneOnPage(list, q); }
    }
  }

  lemma {:induction false} NoneOnPage(list: seq<Block>, q: nat)
    requires forall b | b in list :: b.page != q
    ensures OnPage(list, q) == 0
  {
    if list != [] { NoneOnPage(list[1..], q); }
  }

  lemma JoinedPages(s: State, s2: State, s3: State, s4: State, t: Tid, list: seq<Block>)
    requires DrainsAll(s, s2, t, list) && list == s.OwnerOf(t).delayed
    requires s3.pages == s2.pages && Leaves(s3, s4, t, Own(s3, t))
    ensures EmptyOf(s3.pages, Own(s3, t)) == Unused(s, t) && s4.pages.Keys == s.pages.Keys - Unused(s, t)
    ensures forall q | q in s4.pages ::
      if q in Own(s, t) then Abandons(s.pages[q], s4.pages[q], OnPage(list, q)) else s4.pages[q] == s.pages[q]
  {
    hide MovedRest, OthersSame;
    forall q | q in s.pages ensures q in Own(s3, t) <==> q in Own(s, t) {}
    assert Own(s3, t) == Own(s, t);
    DrainedEmpty(s, s3, t, list);
  }

  lemma DrainedEmpty(s: State, s3: State, t: Tid, list: seq<Block>)
    requires DrainsAll(s, s3, t, list) && list == s.OwnerOf(t).delayed && Own(s3, t) == Own(s, t)
    ensures EmptyOf(s3.pages, Own(s3, t)) == Unused(s, t)
  {
    forall q ensures q in EmptyOf(s3.pages, Own(s3, t)) <==> q in Unused(s, t) {}
  }

  lemma JoinedPlaces(s: State, s1: State, s2: State, s3: State, s4: State, t: Tid, list: seq<Block>)
    requires Closed(s, s1, t, Own(s, t), Draining(false)) && CameBack(s1, s2, list) && s3.loc == s2.loc
    requires Leaves(s3, s4, t, Own(s3, t)) && EmptyOf(s3.pages, Own(s3, t)) == Unused(s, t)
    ensures MovedRest(s.loc, s4.loc, list, Unused(s, t))
  {
    assert MovedAll(s.loc, s3.loc, list) && MovedRest(s3.loc, s4.loc, [], Unused(s, t));
    hide Closed, CameBack, Leaves, Own, EmptyOf, Unused;
    forall b | b in s4.loc ensures MovedTo(s.loc[b], s4.loc[b], b in list) { assert b in s3.loc; }
  }
}
