// What the delayed-free flag is while its page is in use, and when `_mi_page_use_delayed_free` returns (page.c).
module ThreadFreeFlag {
  import opened Base
  import opened ThreadFree
  import opened ThreadFreeInv
  import opened ThreadFreeRuns

  // The operation sets the flag of page p whatever it is.
  predicate Overrides(op: Op, p: nat) { (op.SetFlag? || op.SetFlagLoaded?) && op.p == p && op.override }

  // A page of a running heap may be freed into over the delayed list, unless its flag is just being set; a heap that
  // is being abandoned has closed the pages it has marked, and no others.
  ghost predicate OpenPage(pg: Page, o: Owner, p: nat) {
    pg.flag == NeverDelayed ==>
      match o.phase
      case Running => Overrides(o.op, p)
      case Marking(marked) => p in marked
      case _ => true
  }

  ghost predicate Open(pages: Pages, owners: Owners) {
    forall t: Tid, p {:trigger Owned(pages, t, p)} | Owned(pages, t, p) :: OpenPage(pages[p], OwnerAt(owners, t), p)
  }

  // Nobody's phase or flag operation changes, and no flag becomes NEVER.
  lemma OpenFrame(pages: Pages, owners: Owners, pages': Pages, owners': Owners)
    requires Open(pages, owners)
    requires forall t: Tid :: OwnerAt(owners', t).phase == OwnerAt(owners, t).phase
                              && OwnerAt(owners', t).op == OwnerAt(owners, t).op
    requires forall t: Tid, p {:trigger Owned(pages', t, p)} | Owned(pages', t, p) && pages'[p].flag == NeverDelayed ::
      Owned(pages, t, p) && pages[p].flag == NeverDelayed
    ensures Open(pages', owners')
  {
    forall t: Tid, p | Owned(pages', t, p) ensures OpenPage(pages'[p], OwnerAt(owners', t), p) {
      if pages'[p].flag == NeverDelayed { assert OpenPage(pages[p], OwnerAt(owners, t), p); }
    }
  }

  lemma FreerOpen(s: State, t: Tid, a: Action, s': State)
    requires Open(s.pages, s.owners) && FreerStep(s, t, a, s')
    ensures Open(s'.pages, s'.owners)
  {
    hide Open;
    OpenFrame(s.pages, s.owners, s'.pages, s'.owners);
  }

  lemma LocalOpen(s: State, t: Tid, a: Action, s': State)
    requires Open(s.pages, s.owners) && LocalStep(s, t, a, s')
    ensures Open(s'.pages, s'.owners)
  {
    hide Open, Fresh, AddFree, LinkFresh;
    OpenFrame(s.pages, s.owners, s'.pages, s'.owners);
  }

  // One owner moves on; its own pages stay open.
  lemma OwnOpen(pages: Pages, owners: Owners, pages': Pages, t: Tid, o: Owner)
    requires Open(pages, owners)
    requires forall u: Tid, p {:trigger Owned(pages', u, p)} |
      u != t && Owned(pages', u, p) && pages'[p].flag == NeverDelayed ::
        Owned(pages, u, p) && pages[p].flag == NeverDelayed
    requires forall p | Owned(pages', t, p) :: OpenPage(pages'[p], o, p)
    ensures Open(pages', owners[t := o])
  {
    var owners' := owners[t := o];
    forall u: Tid, p | Owned(pages', u, p) ensures OpenPage(pages'[p], OwnerAt(owners', u), p) {
      if u != t && pages'[p].flag == NeverDelayed {
        assert OwnerAt(owners', u) == OwnerAt(owners, u);
        assert OpenPage(pages[p], OwnerAt(owners, u), p);
      }
    }
  }

  // The pages keep owner, heap and flag.
  ghost predicate SameFlags(pages: Pages, pages': Pages) {
    pages'.Keys == pages.Keys && forall p | p in pages :: SameControl(pages[p], pages'[p])
  }

  lemma CollectFlags(s: State, t: Tid, a: Action, s': State)
    requires CollectStep(s, t, a, s')
    ensures SameFlags(s.pages, s'.pages)
  {
    hide CollectStep, SameFlags;
    if a.CollectCas? { DetachFlags(s, t, s'); }
    else if a.CollectAppend? || a.WalkFree? { AppendFlags(s, t, a, s'); }
    else { NoFlags(s, t, a, s'); }
  }

  lemma DetachFlags(s: State, t: Tid, s': State)
    requires CollectStep(s, t, CollectCas, s')
    ensures SameFlags(s.pages, s'.pages)
  {}

  lemma AppendFlags(s: State, t: Tid, a: Action, s': State)
    requires CollectStep(s, t, a, s') && (a.CollectAppend? || a.WalkFree?)
    ensures SameFlags(s.pages, s'.pages)
  {}

  lemma NoFlags(s: State, t: Tid, a: Action, s': State)
    requires CollectStep(s, t, a, s') && !a.CollectCas? && !a.CollectAppend? && !a.WalkFree?
    ensures SameFlags(s.pages, s'.pages)
  {}

  lemma CollectPhase(s: State, t: Tid, a: Action, s': State)
    requires CollectStep(s, t, a, s') && s' != s
    ensures forall p :: !Overrides(s.OwnerOf(t).op, p)
    ensures s'.OwnerOf(t).phase == s.OwnerOf(t).phase || s'.OwnerOf(t).phase.Draining?
  {}

  lemma CollectOwners(s: State, t: Tid, a: Action, s': State)
    requires CollectStep(s, t, a, s') && s' != s
    ensures s'.owners == s.owners[t := s'.OwnerOf(t)]
  {
    match a
    case CollectCas =>
    case CollectAppend =>
    case WalkFree =>
    case TakeCas =>
    case _ =>
  }

  lemma CollectOpen(s: State, t: Tid, a: Action, s': State)
    requires Open(s.pages, s.owners) && CollectStep(s, t, a, s')
    ensures Open(s'.pages, s'.owners)
  {
    if s' != s {
      CollectFlags(s, t, a, s');
      CollectPhase(s, t, a, s');
      CollectOwners(s, t, a, s');
      hide CollectStep;
      var o := s'.OwnerOf(t);
      forall p | Owned(s'.pages, t, p) ensures OpenPage(s'.pages[p], o, p) {
        assert Owned(s.pages, t, p) && OpenPage(s.pages[p], s.OwnerOf(t), p);
      }
      hide Open, OpenPage;
      OwnOpen(s.pages, s.owners, s'.pages, t, o);
    }
  }

  // A flag operation that ends leaves the flag as asked for, or NEVER where it may not override that; one that goes
  // on is the same operation.
  ghost predicate Settles(s: State, t: Tid, s': State)
    requires s.OwnerOf(t).op.SetFlag? || s.OwnerOf(t).op.SetFlagLoaded?
  {
    var op, op' := s.OwnerOf(t).op, s'.OwnerOf(t).op;
    if op' == NoOp then
      && op.p in s'.pages
      && (s'.pages[op.p].flag == op.to || (!op.override && s'.pages[op.p].flag == NeverDelayed))
    else (op'.SetFlag? || op'.SetFlagLoaded?) && op'.p == op.p && op'.to == op.to && op'.override == op.override
  }

  ghost predicate IsFlagOp(o: Owner) { o.op.SetFlag? || o.op.SetFlagLoaded? }

  lemma FlagSettles(s: State, t: Tid, a: Action, s': State)
    requires FlagStep(s, t, a, s') && IsFlagOp(s.OwnerOf(t))
    ensures Settles(s, t, s')
  {}

  lemma FlagOthers(s: State, t: Tid, a: Action, s': State)
    requires FlagStep(s, t, a, s')
    ensures forall q | q in s.pages && (a.WalkFlag? || q != s.OwnerOf(t).op.p) ::
      q in s'.pages && s'.pages[q] == s.pages[q]
    ensures s'.pages.Keys == s.pages.Keys
    ensures forall q | q in s.pages :: s'.pages[q].heap == s.pages[q].heap && s'.pages[q].owner == s.pages[q].owner
  {}

  lemma FlagPhase(s: State, t: Tid, a: Action, s': State)
    requires FlagStep(s, t, a, s') && OpInv(s.pages, t, s.OwnerOf(t))
    ensures var o, o' := s.OwnerOf(t), s'.OwnerOf(t);
      match o.phase
      case Marking(m) => o'.phase.Marking? && m <= o'.phase.marked
                         && (IsFlagOp(o) && o'.op == NoOp ==> o.op.p in o'.phase.marked)
      case _ => o'.phase == o.phase
    ensures !IsFlagOp(s.OwnerOf(t)) ==> a.WalkFlag?
  {}

  // The page the operation is about is the only one whose flag may change.
  lemma FlagOpen(s: State, t: Tid, a: Action, s': State)
    requires Inv(s) && Open(s.pages, s.owners) && FlagStep(s, t, a, s')
    ensures Open(s'.pages, s'.owners)
  {
    OwnerFacts(s, t);
    hide Inv, Open;
    if s' != s {
      FlagOwn(s, t, a, s');
      FlagRest(s, t, a, s');
      FlagOwners(s, t, a, s');
      hide FlagStep, OpenPage;
      OwnOpen(s.pages, s.owners, s'.pages, t, s'.OwnerOf(t));
    }
  }

  lemma FlagOwners(s: State, t: Tid, a: Action, s': State)
    requires FlagStep(s, t, a, s') && s' != s
    ensures s'.owners == s.owners[t := s'.OwnerOf(t)]
  {}

  lemma FlagOwn(s: State, t: Tid, a: Action, s': State)
    requires FlagStep(s, t, a, s') && Open(s.pages, s.owners) && OpInv(s.pages, t, s.OwnerOf(t))
    ensures forall p | Owned(s'.pages, t, p) :: OpenPage(s'.pages[p], s'.OwnerOf(t), p)
  {
    FlagOthers(s, t, a, s');
    hide OpenPage, FlagStep, OpInv;
    var o := s.OwnerOf(t);
    forall p | Owned(s'.pages, t, p) ensures OpenPage(s'.pages[p], s'.OwnerOf(t), p) {
      assert Owned(s.pages, t, p) && OpenPage(s.pages[p], o, p);
      if IsFlagOp(o) && p == o.op.p { FlagOpenAt(s, t, a, s'); } else { FlagOpenOther(s, t, a, s', p); }
    }
  }

  lemma FlagRest(s: State, t: Tid, a: Action, s': State)
    requires FlagStep(s, t, a, s') && OpInv(s.pages, t, s.OwnerOf(t))
    ensures forall u: Tid, p {:trigger Owned(s'.pages, u, p)} |
      u != t && Owned(s'.pages, u, p) && s'.pages[p].flag == NeverDelayed ::
        Owned(s.pages, u, p) && s.pages[p].flag == NeverDelayed
  {
    FlagOthers(s, t, a, s');
    FlagPhase(s, t, a, s');
    OwnFlag(s, t, a);
    hide FlagStep, OpInv;
  }

  lemma FlagOpenOther(s: State, t: Tid, a: Action, s': State, p: nat)
    requires FlagStep(s, t, a, s') && OpInv(s.pages, t, s.OwnerOf(t)) && p in s.pages && p in s'.pages
    requires OpenPage(s.pages[p], s.OwnerOf(t), p) && !(IsFlagOp(s.OwnerOf(t)) && p == s.OwnerOf(t).op.p)
    ensures OpenPage(s'.pages[p], s'.OwnerOf(t), p)
  {
    FlagPhase(s, t, a, s');
    FlagOthers(s, t, a, s');
    hide FlagStep;
  }

  lemma OwnFlag(s: State, t: Tid, a: Action)
    requires OpInv(s.pages, t, s.OwnerOf(t))
    ensures IsFlagOp(s.OwnerOf(t)) ==> Owned(s.pages, t, s.OwnerOf(t).op.p)
  {}

  lemma FlagOpenAt(s: State, t: Tid, a: Action, s': State)
    requires FlagStep(s, t, a, s') && OpInv(s.pages, t, s.OwnerOf(t)) && IsFlagOp(s.OwnerOf(t))
    requires OpenPage(s.pages[s.OwnerOf(t).op.p], s.OwnerOf(t), s.OwnerOf(t).op.p)
    ensures s.OwnerOf(t).op.p in s'.pages
      && OpenPage(s'.pages[s.OwnerOf(t).op.p], s'.OwnerOf(t), s.OwnerOf(t).op.p)
  {
    FlagSettles(s, t, a, s');
    FlagPhase(s, t, a, s');
    FlagOthers(s, t, a, s');
    if s'.OwnerOf(t).op != NoOp { FlagKept(s, t, a, s'); }
    hide FlagStep;
  }

  lemma FlagKept(s: State, t: Tid, a: Action, s': State)
    requires FlagStep(s, t, a, s') && s'.OwnerOf(t).op != NoOp
    ensures s'.pages == s.pages
  {}

  lemma PhaseOpen(s: State, t: Tid, a: Action, s': State)
    requires Inv(s) && Open(s.pages, s.owners) && PhaseStep(s, t, a, s')
    ensures Open(s'.pages, s'.owners)
  {
    hide Open;
    if s'.owners == s.owners {
      OpenFrame(s.pages, s.owners, s'.pages, s'.owners);
    } else {
      PhaseOwn(s, t, a, s');
      hide PhaseStep;
      OwnOpen(s.pages, s.owners, s'.pages, t, s'.OwnerOf(t));
    }
  }

  lemma PhaseOwn(s: State, t: Tid, a: Action, s': State)
    requires Inv(s) && Open(s.pages, s.owners) && PhaseStep(s, t, a, s') && s'.owners != s.owners
    ensures s'.owners == s.owners[t := s'.OwnerOf(t)]
    ensures forall u: Tid, p {:trigger Owned(s'.pages, u, p)} |
      u != t && Owned(s'.pages, u, p) && s'.pages[p].flag == NeverDelayed ::
        Owned(s.pages, u, p) && s.pages[p].flag == NeverDelayed
    ensures forall p | Owned(s'.pages, t, p) :: OpenPage(s'.pages[p], s'.OwnerOf(t), p)
  {
    OwnerFacts(s, t);
    hide Inv;
    forall p | Owned(s'.pages, t, p) ensures OpenPage(s'.pages[p], s'.OwnerOf(t), p) {
      if Owned(s.pages, t, p) { assert OpenPage(s.pages[p], s.OwnerOf(t), p); }
    }
  }

  lemma StepOpen(s: State, t: Tid, a: Action, s': State)
    requires Inv(s) && Open(s.pages, s.owners) && Next(s, t, a, s')
    ensures Open(s'.pages, s'.owners)
  {
    hide Inv, Open, FreerStep, LocalStep, CollectStep, FlagStep, PhaseStep;
    WhoseAction(s, t, a, s');
    if FreerAction(a) { FreerOpen(s, t, a, s'); }
    else if LocalAction(a) { LocalOpen(s, t, a, s'); }
    else if CollectAction(a) { CollectOpen(s, t, a, s'); }
    else if FlagAction(a) { FlagOpen(s, t, a, s'); }
    else { PhaseOpen(s, t, a, s'); }
  }

  lemma {:induction false} RunOpen(run: seq<State>, i: nat)
    requires Run(run) && i < |run|
    ensures Open(run[i].pages, run[i].owners)
  {
    hide Open, Good, Next, Init;
    if i == 0 {
      EmptyOpen(run[0]);
    } else {
      RunOpen(run, i - 1);
      RunGood(run, i - 1);
      GoodInv(run[i - 1]);
      assert Step(run[i - 1], run[i]);
      var t: Tid, a :| Next(run[i - 1], t, a, run[i]);
      StepOpen(run[i - 1], t, a, run[i]);
    }
  }

  lemma EmptyOpen(s: State)
    requires Init(s)
    ensures Open(s.pages, s.owners)
  {}

  lemma GoodInv(s: State)
    requires Good(s)
    ensures Inv(s)
  {}

  // In every reachable state a page of a running heap takes remote frees: its flag is NEVER only while the heap's
  // thread is inside the operation that overrides it, as it takes the page over.
  lemma PagesOpen(run: seq<State>, i: nat, t: Tid, p: nat)
    requires Run(run) && i < |run| && Owned(run[i].pages, t, p)
    ensures run[i].OwnerOf(t).phase == Running && run[i].pages[p].flag == NeverDelayed ==>
      Overrides(run[i].OwnerOf(t).op, p)
    ensures run[i].OwnerOf(t).phase.Marking? && run[i].pages[p].flag == NeverDelayed ==>
      p in run[i].OwnerOf(t).phase.marked
  {
    RunOpen(run, i);
    hide Run;
    assert OpenPage(run[i].pages[p], run[i].OwnerOf(t), p);
  }

  // In every interleaving: when a flag operation returns, the flag is what it was to be, or NEVER where the operation
  // must not override that.
  lemma FlagReturns(s: State, t: Tid, a: Action, s': State)
    requires Next(s, t, a, s') && !FreerAction(a) && IsFlagOp(s.OwnerOf(t))
    ensures Settles(s, t, s')
  {
    WhoseAction(s, t, a, s');
    hide FreerStep, Settles;
    if FlagAction(a) { FlagSettles(s, t, a, s'); }
  }
}
