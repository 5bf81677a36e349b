// What one push, pop or revisit comes to when the other threads stand still, that it ends, and what it has
// achieved when it ends among other threads (segment.c).
module AbandonedAlone {
  import opened Base
  import opened Abandoned
  import opened AbandonedInv

  // Thread t takes n steps.
  ghost function Alone(s: State, t: Tid, n: nat): State
    decreases n
  {
    if n == 0 || t !in s.pcs then s else Alone(Step(s, t, Go), t, n - 1)
  }

  // Left alone, t gets from s to s'.
  ghost predicate Reaches(s: State, t: Tid, s': State) { exists n: nat :: Alone(s, t, n) == s' }

  lemma ReachesSelf(s: State, t: Tid)
    ensures Reaches(s, t, s)
  {
    assert Alone(s, t, 0) == s;
  }

  lemma ReachesStep(s: State, t: Tid, s': State)
    requires t in s.pcs && Reaches(Step(s, t, Go), t, s')
    ensures Reaches(s, t, s')
  {
    var n: nat :| Alone(Step(s, t, Go), t, n) == s';
    assert Alone(s, t, n + 1) == s';
  }

  lemma {:induction false} ReachesOn(s: State, t: Tid, n: nat, s': State)
    requires Reaches(Alone(s, t, n), t, s')
    ensures Reaches(s, t, s')
    decreases n
  {
    if n > 0 && t in s.pcs {
      ReachesOn(Step(s, t, Go), t, n - 1, s');
      ReachesStep(s, t, s');
    }
  }

  lemma ReachesTrans(s: State, t: Tid, s1: State, s2: State)
    requires Reaches(s, t, s1) && Reaches(s1, t, s2)
    ensures Reaches(s, t, s2)
  {
    var n: nat :| Alone(s, t, n) == s1;
    ReachesOn(s, t, n, s2);
  }

  ghost function At(s: State, t: Tid, pc: Pc): State { s.(pcs := s.pcs[t := pc]) }

  lemma AtAt(s: State, t: Tid, pc: Pc, pc': Pc)
    ensures At(At(s, t, pc), t, pc') == At(s, t, pc')
    ensures t in s.pcs && s.pcs[t] == pc ==> At(s, t, pc) == s
  {
    assert s.pcs[t := pc][t := pc'] == s.pcs[t := pc'];
  }

  // ---- kinds of steps

  predicate IsPush(pc: Pc) { pc.PushStore? || pc.PushCas? || pc.VisitStore? || pc.VisitCas? }
  predicate IsAwait(pc: Pc) { pc.Await? || pc.Awaited? }
  predicate IsPop(pc: Pc) {
    pc.PopLook? || pc.PopEnter? || pc.PopLoad? || pc.PopRead? || pc.PopCas? || pc.PopLeave? || pc.PopClear?
  }

  lemma StepIs(s: State, t: Tid, a: Act)
    requires t in s.pcs
    ensures var pc := s.pcs[t];
      Step(s, t, a) == if pc.Idle? then StartStep(s, t, a) else if IsPush(pc) then PushStep(s, t, a.Spurious?)
        else if IsAwait(pc) then AwaitStep(s, t) else if IsPop(pc) then PopStep(s, t, a.Spurious?)
        else RevisitStep(s, t, a.Spurious?)
  {
    hide StartStep, PushStep, PopStep, RevisitStep, AwaitStep;
  }

  // ---- a pop

  // The first segment of the abandoned list is t's, with a null link.
  ghost function Popped(s: State, t: Tid): State
    requires s.alist != []
  {
    var x := s.alist[0];
    s.(abandoned := Tagged(Head(s.alist[1..]), s.abandoned.tag + 1), alist := s.alist[1..],
       loc := s.loc[x := Owned(t)], next := s.next[x := None], pcs := s.pcs[t := Idle])
  }

  // The visited list in front of the abandoned one, where it has segments.
  ghost function Revisited(s: State, t: Tid): State {
    if s.vlist == [] then At(s, t, Idle)
    else
      s.(abandoned := Tagged(Some(s.vlist[0]), s.abandoned.tag + 1), visited := None, alist := s.vlist + s.alist,
         vlist := [], loc := MoveAll(s.loc, s.vlist, InAbandoned), pcs := s.pcs[t := Idle],
         next := if s.alist == [] then s.next else s.next[s.vlist[|s.vlist| - 1] := Some(s.alist[0])])
  }

  ghost predicate Ready(s: State, t: Tid) {
    && t in s.pcs && t in s.batch && s.batch[t] == []
    && s.abandoned.ptr == Head(s.alist) && s.visited == Head(s.vlist)
    && Chain(s.next, s.alist, None) && Chain(s.next, s.vlist, None)
    && Holds(s.vlist, s.loc, InVisited)
  }

  lemma IdleReady(s: State, t: Tid)
    requires Inv(s) && t in s.pcs && s.pcs[t].Idle?
    ensures Ready(s, t)
  {
    ThreadFacts(s, t);
    hide Pcs, SafeReads, Clean, ReaderCount, Batches;
  }

  lemma PopFrom(s: State, t: Tid)
    requires Ready(s, t) && s.alist != [] && s.pcs[t] == PopEnter
    ensures Reaches(s, t, Popped(s, t))
  {
    ChainTail(s.next, s.alist);
    var r := s.(readers := s.readers + 1);
    var s1 := At(r, t, PopLoad);
    var s2 := At(r, t, PopRead(s.abandoned));
    var s3 := At(r, t, PopCas(s.abandoned, Head(s.alist[1..])));
    hide Ready, Chain, Popped;
    assert Step(s, t, Go) == s1;
    assert Step(s1, t, Go) == s2;
    assert Step(s2, t, Go) == s3;
    PopTakes(s, t, s3);
    hide Step;
    ReachesStep(s2, t, Popped(s, t));
    ReachesStep(s1, t, Popped(s, t));
    ReachesStep(s, t, Popped(s, t));
  }

  lemma PopTakes(s: State, t: Tid, s3: State)
    requires t in s.pcs && s.alist != [] && s.abandoned.ptr == Head(s.alist)
    requires s3 == At(s.(readers := s.readers + 1), t, PopCas(s.abandoned, Head(s.alist[1..])))
    ensures Reaches(s3, t, Popped(s, t))
  {
    var x := s.alist[0];
    var s4 := Popped(s, t).(readers := s.readers + 1, next := s.next, pcs := s.pcs[t := PopLeave(Some(x))]);
    hide Step;
    PopCasStep(s, t, s3, s4);
    PopEnds(s4, t, x);
    assert s4.(readers := s4.readers - 1, next := s4.next[x := None], pcs := s4.pcs[t := Idle]) == Popped(s, t);
    hide Popped;
    ReachesStep(s3, t, Popped(s, t));
  }

  lemma PopCasStep(s: State, t: Tid, s3: State, s4: State)
    requires t in s.pcs && s.alist != [] && s.abandoned.ptr == Head(s.alist)
    requires s3 == At(s.(readers := s.readers + 1), t, PopCas(s.abandoned, Head(s.alist[1..])))
    requires s4 == Popped(s, t).(readers := s.readers + 1, next := s.next,
                                 pcs := s.pcs[t := PopLeave(Some(s.alist[0]))])
    ensures Step(s3, t, Go) == s4
  {}

  lemma PopEnds(s: State, t: Tid, x: Seg)
    requires t in s.pcs && s.pcs[t] == PopLeave(Some(x)) && s.readers > 0
    ensures Reaches(s, t, s.(readers := s.readers - 1, next := s.next[x := None], pcs := s.pcs[t := Idle]))
  {
    var s1 := At(s.(readers := s.readers - 1), t, PopClear(x));
    var s2 := s.(readers := s.readers - 1, next := s.next[x := None], pcs := s.pcs[t := Idle]);
    assert Step(s, t, Go) == s1;
    assert Step(s1, t, Go) == s2;
    hide Step;
    ReachesSelf(s2, t);
    ReachesStep(s1, t, s2);
    ReachesStep(s, t, s2);
  }

  // ---- a revisit

  // On the empty abandoned list the visited list is swapped in.
  lemma SwapFrom(s: State, t: Tid, pop: bool)
    requires Ready(s, t) && s.alist == [] && s.vlist != [] && s.pcs[t] == RvTake(pop)
    ensures Reaches(s, t, At(Revisited(s, t), t, if pop then PopEnter else Idle))
  {
    var s' := At(Revisited(s, t), t, if pop then PopEnter else Idle);
    var taken := Taken(s, t);
    var s1 := At(taken, t, RvLook(pop, s.vlist[0]));
    var s2 := At(taken, t, RvSwap(pop, s.vlist[0], s.abandoned));
    hide Step, Revisited;
    TakeStep(s, t, pop);
    assert Step(s1, t, Go) == s2;
    SwapStep(s, t, pop, s2);
    hide Ready;
    ReachesSelf(s', t);
    ReachesStep(s2, t, s');
    ReachesStep(s1, t, s');
    ReachesStep(s, t, s');
  }

  // The visited list is in the hands of t.
  ghost function Taken(s: State, t: Tid): State {
    s.(visited := None, vlist := [], batch := s.batch[t := s.vlist], loc := MoveAll(s.loc, s.vlist, InBatch(t)))
  }

  lemma TakeStep(s: State, t: Tid, pop: bool)
    requires Ready(s, t) && s.vlist != [] && s.pcs[t] == RvTake(pop)
    ensures Step(s, t, Go) == At(Taken(s, t), t, RvLook(pop, s.vlist[0]))
  {
    hide Chain, Holds;
  }

  lemma SwapStep(s: State, t: Tid, pop: bool, s2: State)
    requires Ready(s, t) && s.alist == [] && s.vlist != []
      && s2 == At(Taken(s, t), t, RvSwap(pop, s.vlist[0], s.abandoned))
    ensures Step(s2, t, Go) == At(Revisited(s, t), t, if pop then PopEnter else Idle)
  {
    hide Chain, Holds, Join;
    JoinTaken(s, t, pop, s2);
  }

  lemma JoinTaken(s: State, t: Tid, pop: bool, s2: State)
    requires Ready(s, t) && s.vlist != []
    requires t in s2.pcs && s2 == Taken(s, t).(pcs := s2.pcs, next := s2.next) && s2.pcs == s.pcs[t := s2.pcs[t]]
    requires s2.next == Revisited(s, t).next
    ensures Join(s2, t, pop, s.vlist[0], s.abandoned) == At(Revisited(s, t), t, if pop then PopEnter else Idle)
  {
    assert s.batch[t := s.vlist][t := []] == s.batch;
    assert MoveAll(MoveAll(s.loc, s.vlist, InBatch(t)), s.vlist, InAbandoned) == MoveAll(s.loc, s.vlist, InAbandoned);
    AtAt(s, t, s2.pcs[t], if pop then PopEnter else Idle);
    AtAt(s, t, Idle, if pop then PopEnter else Idle);
  }

  // Run alone, a pop takes the first abandoned segment; where there is none it moves the visited segments back and
  // takes the first of those; and it comes back empty-handed, with nothing changed, exactly where there is neither.
  lemma PopAlone(s: State, t: Tid)
    requires Inv(s) && t in s.pcs && s.pcs[t].Idle?
    ensures s.alist != [] ==> Reaches(Step(s, t, StartPop), t, Popped(s, t))
    ensures s.alist == [] && s.vlist != [] ==> Reaches(Step(s, t, StartPop), t, Popped(Revisited(s, t), t))
    ensures s.alist == [] && s.vlist == [] ==> Reaches(Step(s, t, StartPop), t, s)
  {
    IdleReady(s, t);
    var s1 := Step(s, t, StartPop);
    hide Inv, Popped, Revisited;
    if s.alist != [] {
      assert s1 == At(s, t, PopEnter);
      MovedReady(s, t, PopEnter);
      PopFrom(s1, t);
      PoppedAt(s, t, PopEnter);
    } else if s.vlist != [] {
      assert s1 == At(s, t, PopLook);
      LookFrom(s, t);
    } else {
      assert s1 == At(s, t, PopLook);
      AtAt(s, t, PopLook, Idle);
      AtAt(s, t, Idle, Idle);
      assert Step(s1, t, Go) == s;
      ReachesSelf(s, t);
      ReachesStep(s1, t, s);
    }
  }

  lemma MovedReady(s: State, t: Tid, pc: Pc)
    requires Ready(s, t)
    ensures Ready(At(s, t, pc), t)
  {
    hide Chain, Holds;
  }

  lemma PoppedAt(s: State, t: Tid, pc: Pc)
    requires s.alist != []
    ensures Popped(At(s, t, pc), t) == Popped(s, t)
  {
    AtAt(s, t, pc, Idle);
  }

  lemma RevisitedAt(s: State, t: Tid, pc: Pc)
    ensures Revisited(At(s, t, pc), t) == Revisited(s, t)
  {
    AtAt(s, t, pc, Idle);
  }

  lemma LookFrom(s: State, t: Tid)
    requires Ready(s, t) && s.alist == [] && s.vlist != []
    ensures Reaches(At(s, t, PopLook), t, Popped(Revisited(s, t), t))
  {
    var s1, s2 := At(s, t, PopLook), At(s, t, RvTake(true));
    AtAt(s, t, PopLook, RvTake(true));
    assert Step(s1, t, Go) == s2;
    hide Step, Popped;
    MovedReady(s, t, RvTake(true));
    SwapFrom(s2, t, true);
    RevisitedAt(s, t, RvTake(true));
    var r := Revisited(s, t);
    SwapReady(s, t);
    hide Revisited;
    MovedReady(r, t, PopEnter);
    PopFrom(At(r, t, PopEnter), t);
    PoppedAt(r, t, PopEnter);
    ReachesTrans(s2, t, At(r, t, PopEnter), Popped(r, t));
    ReachesStep(s1, t, Popped(r, t));
  }

  lemma SwapReady(s: State, t: Tid)
    requires Ready(s, t) && s.alist == [] && s.vlist != []
    ensures Ready(Revisited(s, t), t) && Revisited(s, t).alist == s.vlist
  {
    var r := Revisited(s, t);
    assert r.alist == s.vlist + [] == s.vlist;
    forall x ensures x in r.vlist <==> x in r.loc && r.loc[x] == InVisited {}
  }

  // In front of a list that is not empty the visited list is walked to its end, and linked there.
  lemma {:induction false} TailFrom(s: State, t: Tid, pop: bool, first: Seg, i: nat)
    requires t in s.pcs && t in s.batch && i < |s.batch[t]| && Chain(s.next, s.batch[t], None)
    requires s.pcs[t] == RvTail(pop, first, s.batch[t][i])
    ensures Reaches(s, t, At(s, t, RvLoad(pop, first, s.batch[t][|s.batch[t]| - 1])))
    decreases |s.batch[t]| - i
  {
    var list := s.batch[t];
    var s' := At(s, t, RvLoad(pop, first, list[|list| - 1]));
    assert LinkAt(s.next, list, None, i);
    if i + 1 < |list| {
      var s1 := At(s, t, RvTail(pop, first, list[i + 1]));
      assert Step(s, t, Go) == s1;
      TailFrom(s1, t, pop, first, i + 1);
      AtAt(s, t, RvTail(pop, first, list[i + 1]), RvLoad(pop, first, list[|list| - 1]));
      ReachesStep(s, t, s');
    } else {
      assert Step(s, t, Go) == s';
      ReachesSelf(s', t);
      ReachesStep(s, t, s');
    }
  }

  lemma LinkFrom(s: State, t: Tid)
    requires Ready(s, t) && s.alist != [] && s.vlist != [] && s.pcs[t] == RvTake(false)
    ensures Reaches(s, t, Revisited(s, t))
  {
    var s1 := At(Taken(s, t), t, RvLook(false, s.vlist[0]));
    var s2 := At(Taken(s, t), t, RvTail(false, s.vlist[0], s.vlist[0]));
    hide Step, Revisited, Chain, Holds, Taken, At;
    TakeStep(s, t, false);
    LinkOn(s, t, s2);
    LookStep(s, t);
    hide Ready;
    ReachesStep(s1, t, Revisited(s, t));
    ReachesStep(s, t, Revisited(s, t));
  }

  lemma LinkOn(s: State, t: Tid, s2: State)
    requires Ready(s, t) && s.alist != [] && s.vlist != []
    requires s2 == At(Taken(s, t), t, RvTail(false, s.vlist[0], s.vlist[0]))
    ensures Reaches(s2, t, Revisited(s, t))
  {
    var first, last := s.vlist[0], s.vlist[|s.vlist| - 1];
    var s3 := At(Taken(s, t), t, RvLoad(false, first, last));
    TakenChain(s, t, s2);
    hide Step, Revisited, Chain, Holds, Taken;
    TailFrom(s2, t, false, first, 0);
    AtAt(Taken(s, t), t, RvTail(false, first, first), RvLoad(false, first, last));
    StoreFrom(s, t, s3);
    hide Ready;
    ReachesTrans(s2, t, s3, Revisited(s, t));
  }

  lemma LookStep(s: State, t: Tid)
    requires Ready(s, t) && s.alist != [] && s.vlist != []
    ensures t in At(Taken(s, t), t, RvLook(false, s.vlist[0])).pcs
    ensures Step(At(Taken(s, t), t, RvLook(false, s.vlist[0])), t, Go)
      == At(Taken(s, t), t, RvTail(false, s.vlist[0], s.vlist[0]))
  {
    hide Chain, Holds, MoveAll;
    AtAt(Taken(s, t), t, RvLook(false, s.vlist[0]), RvTail(false, s.vlist[0], s.vlist[0]));
  }

  lemma TakenChain(s: State, t: Tid, s2: State)
    requires Ready(s, t) && t in s2.pcs && s2 == At(Taken(s, t), t, s2.pcs[t])
    ensures t in s2.batch && s2.batch[t] == s.vlist && Chain(s2.next, s2.batch[t], None)
  {
    hide Chain, Holds;
  }

  lemma StoreFrom(s: State, t: Tid, s3: State)
    requires Ready(s, t) && s.alist != [] && s.vlist != []
    requires s3 == At(Taken(s, t), t, RvLoad(false, s.vlist[0], s.vlist[|s.vlist| - 1]))
    ensures Reaches(s3, t, Revisited(s, t))
  {
    var first, last := s.vlist[0], s.vlist[|s.vlist| - 1];
    var taken := Taken(s, t);
    var s4 := At(taken, t, RvStore(false, first, last, s.abandoned));
    var linked := taken.(next := s.next[last := s.abandoned.ptr]);
    var s5 := At(linked, t, RvCas(false, first, last, s.abandoned));
    TakenSame(s, t);
    JoinStep(s, t, s5);
    hide Ready, Revisited, Taken, Join;
    assert Step(s3, t, Go) == s4 by { AtAt(taken, t, s3.pcs[t], s4.pcs[t]); }
    assert Step(s4, t, Go) == s5 by { StoreStep(taken, t, first, last, s.abandoned); }
    hide Step;
    ReachesSelf(Revisited(s, t), t);
    ReachesStep(s5, t, Revisited(s, t));
    ReachesStep(s4, t, Revisited(s, t));
    ReachesStep(s3, t, Revisited(s, t));
  }

  lemma TakenSame(s: State, t: Tid)
    ensures Taken(s, t).abandoned == s.abandoned && Taken(s, t).next == s.next && Taken(s, t).pcs == s.pcs
  {}

  lemma StoreStep(r: State, t: Tid, first: Seg, last: Seg, ts: Tagged)
    requires t in r.pcs
    ensures Step(At(r, t, RvStore(false, first, last, ts)), t, Go)
      == At(r.(next := r.next[last := ts.ptr]), t, RvCas(false, first, last, ts))
  {}

  lemma JoinStep(s: State, t: Tid, s5: State)
    requires Ready(s, t) && s.alist != [] && s.vlist != []
    requires var last := s.vlist[|s.vlist| - 1];
      s5 == At(Taken(s, t).(next := s.next[last := s.abandoned.ptr]), t, RvCas(false, s.vlist[0], last, s.abandoned))
    ensures Step(s5, t, Go) == Revisited(s, t)
  {
    hide Chain, Holds, Join, MoveAll;
    JoinTaken(s, t, false, s5);
    AtAt(s, t, Idle, Idle);
  }

  // Run alone, a revisit puts the visited list in front of the abandoned one, in order.
  lemma RevisitAlone(s: State, t: Tid)
    requires Inv(s) && t in s.pcs && s.pcs[t].Idle?
    ensures Reaches(Step(s, t, StartRevisit), t, Revisited(s, t))
  {
    IdleReady(s, t);
    var s1 := Step(s, t, StartRevisit);
    hide Inv;
    AtAt(s, t, Idle, Idle);
    if s.vlist == [] {
      assert s1 == s == Revisited(s, t);
      ReachesSelf(s, t);
    } else {
      assert s1 == At(s, t, RvTake(false));
      hide Revisited, Step;
      MovedReady(s, t, RvTake(false));
      RevisitedAt(s, t, RvTake(false));
      if s.alist == [] {
        SwapFrom(s1, t, false);
        IdleRevisited(s, t);
      } else {
        LinkFrom(s1, t);
      }
    }
  }

  lemma IdleRevisited(s: State, t: Tid)
    requires t in s.pcs
    ensures At(Revisited(s, t), t, Idle) == Revisited(s, t)
  {
    AtAt(s, t, Idle, Idle);
  }

  // ---- a push

  ghost function Pushed(s: State, t: Tid, x: Seg): State {
    s.(abandoned := Tagged(Some(x), s.abandoned.tag + 1), alist := [x] + s.alist,
       loc := s.loc[x := InAbandoned], next := s.next[x := Head(s.alist)])
  }

  ghost function Visited(s: State, t: Tid, x: Seg): State {
    s.(visited := Some(x), vlist := [x] + s.vlist, loc := s.loc[x := InVisited], next := s.next[x := Head(s.vlist)])
  }

  // Run alone, a push puts its segment in front of the list.
  lemma PushAlone(s: State, t: Tid, x: Seg)
    requires Inv(s) && t in s.pcs && s.pcs[t].Idle? && Owns(s, t, x)
    ensures Reaches(Step(s, t, StartPush(x)), t, Pushed(s, t, x))
    ensures Reaches(Step(s, t, StartVisit(x)), t, Visited(s, t, x))
  {
    IdleReady(s, t);
    hide Inv, Chain, Holds;
    PushFrom(s, t, x);
    VisitFrom(s, t, x);
  }

  lemma PushFrom(s: State, t: Tid, x: Seg)
    requires t in s.pcs && s.pcs[t].Idle? && Owns(s, t, x) && s.abandoned.ptr == Head(s.alist)
    ensures Reaches(Step(s, t, StartPush(x)), t, Pushed(s, t, x))
  {
    var s1 := At(s, t, PushStore(x, s.abandoned));
    var s2 := At(s.(next := s.next[x := Head(s.alist)]), t, PushCas(x, s.abandoned));
    assert Step(s, t, StartPush(x)) == s1 && Step(s1, t, Go) == s2;
    AtAt(s, t, PushCas(x, s.abandoned), Idle);
    AtAt(s, t, Idle, Idle);
    assert Step(s2, t, Go) == Pushed(s, t, x);
    hide Step, Pushed;
    ReachesSelf(Pushed(s, t, x), t);
    ReachesStep(s2, t, Pushed(s, t, x));
    ReachesStep(s1, t, Pushed(s, t, x));
  }

  lemma VisitFrom(s: State, t: Tid, x: Seg)
    requires t in s.pcs && s.pcs[t].Idle? && Owns(s, t, x) && s.visited == Head(s.vlist)
    ensures Reaches(Step(s, t, StartVisit(x)), t, Visited(s, t, x))
  {
    var s1 := At(s, t, VisitStore(x, s.visited));
    var s2 := At(s.(next := s.next[x := Head(s.vlist)]), t, VisitCas(x, s.visited));
    assert Step(s, t, StartVisit(x)) == s1 && Step(s1, t, Go) == s2;
    AtAt(s, t, VisitCas(x, s.visited), Idle);
    AtAt(s, t, Idle, Idle);
    assert Step(s2, t, Go) == Visited(s, t, x);
    hide Step, Visited;
    ReachesSelf(Visited(s, t, x), t);
    ReachesStep(s2, t, Visited(s, t, x));
    ReachesStep(s1, t, Visited(s, t, x));
  }

  // Run alone, a thread may take the memory of its segment away at once where nobody reads, and waits otherwise.
  lemma AwaitAlone(s: State, t: Tid, x: Seg)
    requires t in s.pcs && s.pcs[t].Idle? && Owns(s, t, x)
    ensures s.readers == 0 ==> Reaches(Step(s, t, StartAwait(x)), t, s.(loc := s.loc[x := Unmapped]))
    ensures s.readers > 0 ==> Step(Step(s, t, StartAwait(x)), t, Go) == Step(s, t, StartAwait(x))
  {
    var s1, s2 := At(s, t, Await(x)), At(s, t, Awaited(x));
    AtAt(s, t, Await(x), Awaited(x));
    AtAt(s, t, Awaited(x), Idle);
    AtAt(s, t, Idle, Idle);
    assert Step(s, t, StartAwait(x)) == s1;
    if s.readers == 0 {
      var s' := s.(loc := s.loc[x := Unmapped]);
      assert Step(s1, t, Go) == s2 && Step(s2, t, Go) == s';
      hide Step;
      ReachesSelf(s', t);
      ReachesStep(s2, t, s');
      ReachesStep(s1, t, s');
    }
  }

  // ---- every operation ends

  // A tagged pointer seen earlier may be out of date, and then it is read again.
  function Stale(ts: Tagged, now: Tagged): nat { if ts == now then 0 else 3 }

  // How far t still has to go alone, not counting the walk to the end of its list.
  function Left(s: State, pc: Pc): nat {
    match pc
    case Idle => 0
    case PushCas(_, ts) => 1 + Stale(ts, s.abandoned)
    case PushStore(_, ts) => 2 + Stale(ts, s.abandoned)
    case VisitCas(_, a) => if a == s.visited then 1 else 4
    case VisitStore(_, a) => if a == s.visited then 2 else 5
    case PopClear(_) => 1
    case PopLeave(_) => 2
    case PopCas(ts, _) => 3 + Stale(ts, s.abandoned)
    case PopRead(ts) => 4 + Stale(ts, s.abandoned)
    case PopLoad => 8
    case PopEnter => 9
    case RvCas(_, _, _, ts) => 10 + Stale(ts, s.abandoned)
    case RvStore(_, _, _, ts) => 11 + Stale(ts, s.abandoned)
    case RvLoad(_, _, _) => 15
    case RvTail(_, _, _) => 16
    case RvSwap(_, _, _) => 17
    case RvLook(_, _) => 18
    case RvTake(_) => 19
    case PopLook => 20
    case Awaited(_) => 1
    case Await(_) => 2
  }

  // A thread that waits for readers depends on them.
  predicate Waits(s: State, t: Tid)
    requires t in s.pcs
  {
    s.pcs[t].Await? && s.readers > 0
  }

  // Every step of a thread that is left alone, whatever the others have done before, brings it nearer the end.
  lemma Nearer(s: State, t: Tid)
    requires Inv(s) && t in s.pcs && !s.pcs[t].Idle? && !s.pcs[t].RvTail? && !Waits(s, t)
    ensures IsNearer(s, t, Step(s, t, Go))
  {
    StepIs(s, t, Go);
    hide Inv, Step, PushStep, PopStep, RevisitStep, AwaitStep, Left;
    var pc := s.pcs[t];
    if IsPush(pc) { PushNearer(s, t); }
    else if IsAwait(pc) { AwaitNearer(s, t); }
    else if pc.PopRead? || pc.PopCas? { PopNearer(s, t); }
    else if IsPop(pc) { LookNearer(s, t); }
    else if pc.RvSwap? || pc.RvCas? { JoinNearer(s, t); }
    else { RevisitNearer(s, t); }
  }

  ghost predicate IsNearer(s: State, t: Tid, s': State)
    requires t in s.pcs
  {
    t in s'.pcs && !Waits(s', t) && Left(s', s'.pcs[t]) < Left(s, s.pcs[t])
  }

  lemma PushNearer(s: State, t: Tid)
    requires t in s.pcs && IsPush(s.pcs[t])
    ensures IsNearer(s, t, PushStep(s, t, false))
  {}

  lemma AwaitNearer(s: State, t: Tid)
    requires t in s.pcs && (s.pcs[t].Await? || s.pcs[t].Awaited?) && !Waits(s, t)
    ensures IsNearer(s, t, AwaitStep(s, t))
  {}

  lemma PopNearer(s: State, t: Tid)
    requires Inv(s) && t in s.pcs && (s.pcs[t].PopRead? || s.pcs[t].PopCas?)
    ensures IsNearer(s, t, PopStep(s, t, false))
  {
    hide Inv;
    match s.pcs[t]
    case PopRead(ts) => ReadPtr(s, t);
    case PopCas(ts, _) => if s.abandoned == ts { PopFacts(s, t); }
  }

  lemma ReadPtr(s: State, t: Tid)
    requires Inv(s) && t in s.pcs && s.pcs[t].PopRead?
    ensures s.pcs[t].ts.ptr.Some? && s.pcs[t].ts.ptr.value in s.next
  {
    ThreadFacts(s, t);
    hide Inv;
    ReadMapped(s, t, s.pcs[t].ts.ptr.value);
  }

  lemma LookNearer(s: State, t: Tid)
    requires t in s.pcs
    requires s.pcs[t].PopLook? || s.pcs[t].PopEnter? || s.pcs[t].PopLoad? || s.pcs[t].PopLeave? || s.pcs[t].PopClear?
    ensures IsNearer(s, t, PopStep(s, t, false))
  {}

  lemma RevisitNearer(s: State, t: Tid)
    requires t in s.pcs
    requires s.pcs[t].RvTake? || s.pcs[t].RvLook? || s.pcs[t].RvLoad? || s.pcs[t].RvStore?
    ensures IsNearer(s, t, RevisitStep(s, t, false))
  {
    hide MoveAll;
  }

  lemma JoinNearer(s: State, t: Tid)
    requires t in s.pcs && (s.pcs[t].RvSwap? || s.pcs[t].RvCas?)
    ensures IsNearer(s, t, RevisitStep(s, t, false))
  {
    hide MoveAll;
  }

  ghost predicate Finishes(s: State, t: Tid) {
    exists n: nat :: t in Alone(s, t, n).pcs && Alone(s, t, n).pcs[t].Idle?
  }

  lemma FinishesOn(s: State, t: Tid, s1: State)
    requires Reaches(s, t, s1) && Finishes(s1, t)
    ensures Finishes(s, t)
  {
    var n: nat :| t in Alone(s1, t, n).pcs && Alone(s1, t, n).pcs[t].Idle?;
    assert Reaches(s1, t, Alone(s1, t, n));
    ReachesTrans(s, t, s1, Alone(s1, t, n));
    var m: nat :| Alone(s, t, m) == Alone(s1, t, n);
  }

  lemma {:induction false} AloneInv(s: State, t: Tid, n: nat)
    requires Inv(s)
    ensures Inv(Alone(s, t, n))
    decreases n
  {
    hide Inv, Step;
    if n > 0 && t in s.pcs {
      StepInv(s, t, Go);
      AloneInv(Step(s, t, Go), t, n - 1);
    }
  }

  // So a push, pop or revisit, in whatever state other threads have left it, ends once its thread runs undisturbed;
  // and so does the way out of the list of a segment whose memory goes away, once nobody reads.
  lemma Ends(s: State, t: Tid)
    requires Inv(s) && t in s.pcs && !Waits(s, t)
    ensures Finishes(s, t)
  {
    hide Inv, Left, Finishes;
    EndsIn(s, t, Left(s, s.pcs[t]));
  }

  lemma {:induction false} EndsIn(s: State, t: Tid, k: nat)
    requires Inv(s) && t in s.pcs && !Waits(s, t) && Left(s, s.pcs[t]) <= k
    ensures Finishes(s, t)
    decreases k
  {
    hide Inv, Step;
    if s.pcs[t].Idle? {
      assert Alone(s, t, 0) == s;
    } else if s.pcs[t].RvTail? {
      var s' := TailEnds(s, t);
      EndsIn(s', t, k - 1);
      FinishesOn(s, t, s');
    } else {
      hide Left;
      Nearer(s, t);
      StepInv(s, t, Go);
      var s' := Step(s, t, Go);
      EndsIn(s', t, k - 1);
      ReachesSelf(s', t);
      ReachesStep(s, t, s');
      FinishesOn(s, t, s');
    }
  }

  lemma TailIndex(s: State, t: Tid) returns (i: nat)
    requires Inv(s) && t in s.pcs && s.pcs[t].RvTail?
    ensures t in s.batch && i < |s.batch[t]| && s.batch[t][i] == s.pcs[t].last && Chain(s.next, s.batch[t], None)
  {
    ThreadFacts(s, t);
    hide Inv, Chain;
    i :| i < |s.batch[t]| && s.batch[t][i] == s.pcs[t].last;
  }

  lemma TailEnds(s: State, t: Tid) returns (s': State)
    requires Inv(s) && t in s.pcs && s.pcs[t].RvTail?
    ensures Inv(s') && Reaches(s, t, s') && t in s'.pcs && s'.pcs[t].RvLoad?
  {
    var i := TailIndex(s, t);
    hide Inv, Chain;
    var list := s.batch[t];
    s' := At(s, t, RvLoad(s.pcs[t].pop, s.pcs[t].first, list[|list| - 1]));
    TailFrom(s, t, s.pcs[t].pop, s.pcs[t].first, i);
    var n: nat :| Alone(s, t, n) == s';
    AloneInv(s, t, n);
  }

  // ---- in every interleaving

  // What a step of a pop, or of the revisit inside it, may lead to.
  ghost predicate PopGoes(s: State, t: Tid, s': State)
    requires t in s.pcs
  {
    t in s'.pcs &&
    var pc' := s'.pcs[t];
    match s.pcs[t]
    case PopLook => (pc'.Idle? && s.vlist == []) || pc' == RvTake(true)
    case PopEnter => pc'.PopLoad?
    case PopLoad => pc'.PopRead? || (pc' == PopLeave(None) && s.alist == [])
    case PopRead(_) => pc'.PopCas?
    case PopCas(_, _) => pc'.PopRead? || (pc' == PopLeave(None) && s.alist == [])
      || (s.alist != [] && pc' == PopLeave(Some(s.alist[0])) && s'.alist == s.alist[1..])
    case PopLeave(got) => if got.Some? then pc' == PopClear(got.value) else pc'.Idle?
    case PopClear(x) => pc'.Idle? && Mine(s'.loc, t, x) && x in s'.next && s'.next[x].None?
    case RvTake(pop) => (pc'.Idle? && s.vlist == []) || (pc'.RvLook? && pc'.pop == pop)
    case RvLook(pop, _) => (pc'.RvSwap? || pc'.RvTail?) && pc'.pop == pop
    case RvSwap(pop, _, _) => pc' == Revisiting(pop) || (pc'.RvTail? && pc'.pop == pop)
    case RvTail(pop, _, _) => (pc'.RvTail? || pc'.RvLoad?) && pc'.pop == pop
    case RvLoad(pop, _, _) => pc'.RvStore? && pc'.pop == pop
    case RvStore(pop, _, _, _) => pc'.RvCas? && pc'.pop == pop
    case RvCas(pop, _, _, _) => pc' == Revisiting(pop) || (pc'.RvStore? && pc'.pop == pop)
    case _ => true
  }

  function Revisiting(pop: bool): Pc { if pop then PopEnter else Idle }

  lemma PopMoves(s: State, t: Tid, a: Act)
    requires Inv(s) && t in s.pcs
    ensures PopGoes(s, t, Step(s, t, a))
  {
    ListHeads(s);
    StepIs(s, t, a);
    hide Inv, Step, PopStep, RevisitStep, PushStep, AwaitStep, StartStep, PopGoes, Head, PcOk, BatchOk;
    var pc, fails := s.pcs[t], a.Spurious?;
    if pc.Idle? || IsPush(pc) || IsAwait(pc) { StaysKnown(s, t, a); }
    else if pc.PopRead? { ReadPtr(s, t); FrontMoves(s, t, fails); }
    else if pc.PopCas? { if s.abandoned == pc.ts { PopFacts(s, t); } CasMoves(s, t, fails); }
    else if pc.PopClear? { ClearMine(s, t); ClearMoves(s, t, fails); }
    else if IsPop(pc) { FrontMoves(s, t, fails); }
    else if pc.RvTake? || pc.RvLook? || pc.RvTail? { TakeMoves(s, t, fails); }
    else { BackMoves(s, t, fails); }
  }

  lemma ListHeads(s: State)
    requires Inv(s)
    ensures s.abandoned.ptr == Head(s.alist) && s.visited == Head(s.vlist)
  {}

  lemma ClearMine(s: State, t: Tid)
    requires Inv(s) && t in s.pcs && s.pcs[t].PopClear?
    ensures Mine(s.loc, t, s.pcs[t].seg)
  {
    ThreadFacts(s, t);
  }

  lemma StaysKnown(s: State, t: Tid, a: Act)
    requires t in s.pcs && (s.pcs[t].Idle? || IsPush(s.pcs[t]) || IsAwait(s.pcs[t]))
    ensures PopGoes(s, t, Step(s, t, a))
  {}

  lemma FrontMoves(s: State, t: Tid, fails: bool)
    requires t in s.pcs && s.abandoned.ptr == Head(s.alist) && s.visited == Head(s.vlist)
    requires s.pcs[t].PopLook? || s.pcs[t].PopEnter? || s.pcs[t].PopLoad? || s.pcs[t].PopRead? || s.pcs[t].PopLeave?
    requires s.pcs[t].PopRead? ==> s.pcs[t].ts.ptr.Some? && s.pcs[t].ts.ptr.value in s.next
    ensures PopGoes(s, t, PopStep(s, t, fails))
  {}

  lemma CasMoves(s: State, t: Tid, fails: bool)
    requires t in s.pcs && s.abandoned.ptr == Head(s.alist) && s.pcs[t].PopCas?
    requires s.abandoned == s.pcs[t].ts ==> s.alist != [] && s.pcs[t].ts.ptr == Some(s.alist[0])
    ensures PopGoes(s, t, PopStep(s, t, fails))
  {}

  lemma ClearMoves(s: State, t: Tid, fails: bool)
    requires t in s.pcs && s.pcs[t].PopClear? && Mine(s.loc, t, s.pcs[t].seg)
    ensures PopGoes(s, t, PopStep(s, t, fails))
  {}

  lemma TakeMoves(s: State, t: Tid, fails: bool)
    requires t in s.pcs && s.visited == Head(s.vlist) && (s.pcs[t].RvTake? || s.pcs[t].RvLook? || s.pcs[t].RvTail?)
    ensures PopGoes(s, t, RevisitStep(s, t, fails))
  {
    hide MoveAll;
  }

  lemma BackMoves(s: State, t: Tid, fails: bool)
    requires t in s.pcs && (s.pcs[t].RvSwap? || s.pcs[t].RvLoad? || s.pcs[t].RvStore? || s.pcs[t].RvCas?)
    ensures PopGoes(s, t, RevisitStep(s, t, fails))
  {
    hide MoveAll;
  }

  ghost predicate Same(s: State, s': State, t: Tid) { t in s.pcs && t in s'.pcs && s'.pcs[t] == s.pcs[t] }

  lemma OtherStays(s: State, u: Tid, a: Act, t: Tid)
    requires u in s.pcs && t in s.pcs && t != u
    ensures Same(s, Step(s, u, a), t)
  {
    hide StartStep, PushStep, PopStep, RevisitStep, AwaitStep;
    StartSame(s, u, a, t);
    PushSame(s, u, a.Spurious?, t);
    PopSame(s, u, a.Spurious?, t);
    RevisitSame(s, u, a.Spurious?, t);
  }

  lemma StartSame(s: State, u: Tid, a: Act, t: Tid)
    requires u in s.pcs && t in s.pcs && t != u
    ensures Same(s, StartStep(s, u, a), t)
  {}

  lemma PushSame(s: State, u: Tid, fails: bool, t: Tid)
    requires u in s.pcs && t in s.pcs && t != u
    ensures Same(s, PushStep(s, u, fails), t) && Same(s, AwaitStep(s, u), t)
  {}

  lemma PopSame(s: State, u: Tid, fails: bool, t: Tid)
    requires u in s.pcs && t in s.pcs && t != u
    ensures Same(s, PopStep(s, u, fails), t)
  {}

  lemma RevisitSame(s: State, u: Tid, fails: bool, t: Tid)
    requires u in s.pcs && t in s.pcs && t != u
    ensures Same(s, RevisitStep(s, u, fails), t)
  {
    hide MoveAll;
  }

  // The state before step m.
  ghost function Before(s: State, steps: Schedule, m: nat): State
    requires m <= |steps|
  {
    Run(s, steps[..m])
  }

  lemma BeforeNext(s: State, steps: Schedule, m: nat)
    requires m < |steps|
    ensures var r, (t, a) := Before(s, steps, m), steps[m];
      Before(s, steps, m + 1) == if t in r.pcs then Step(r, t, a) else r
  {
    assert steps[..m + 1][..m] == steps[..m];
  }

  // Thread t's own step m takes x off the front of the abandoned list.
  ghost predicate TakesFirst(s: State, steps: Schedule, m: nat, t: Tid, x: Seg)
    requires m < |steps|
  {
    var r := Before(s, steps, m);
    steps[m].0 == t && r.alist != [] && x == r.alist[0] && Before(s, steps, m + 1).alist == r.alist[1..]
  }

  ghost predicate Took(s: State, steps: Schedule, i: nat, j: nat, t: Tid, x: Seg)
    requires j <= |steps|
  {
    exists m: nat :: i < m < j && TakesFirst(s, steps, m, t, x)
  }

  // At a step of its own, t finds no abandoned segment.
  ghost predicate SawNone(s: State, steps: Schedule, i: nat, j: nat, t: Tid)
    requires j <= |steps|
  {
    exists m: nat :: i < m < j && steps[m].0 == t && Before(s, steps, m).alist == []
  }

  // When it begins there is no abandoned segment, and at a later step of its own no visited one.
  ghost predicate SawNeither(s: State, steps: Schedule, i: nat, j: nat, t: Tid)
    requires j <= |steps|
  {
    i < j && Before(s, steps, i).alist == []
    && exists m: nat :: i < m < j && steps[m].0 == t && Before(s, steps, m).vlist == []
  }

  // What has become of the pop that t began at step i.
  ghost predicate Story(s: State, steps: Schedule, i: nat, j: nat, t: Tid)
    requires i < j <= |steps|
  {
    var r := Before(s, steps, j);
    t in r.pcs &&
    match r.pcs[t]
    case Idle => Answered(s, steps, i, j, t)
    case PopLook => Before(s, steps, i).alist == []
    case RvTake(pop) => pop && Before(s, steps, i).alist == []
    case RvLook(pop, _) => pop
    case RvSwap(pop, _, _) => pop
    case RvTail(pop, _, _) => pop
    case RvLoad(pop, _, _) => pop
    case RvStore(pop, _, _, _) => pop
    case RvCas(pop, _, _, _) => pop
    case PopEnter => true
    case PopLoad => true
    case PopRead(_) => true
    case PopCas(_, _) => true
    case PopLeave(got) => if got.Some? then Took(s, steps, i, j, t, got.value) else SawNone(s, steps, i, j, t)
    case PopClear(x) => Took(s, steps, i, j, t, x)
    case _ => false
  }

  // A pop that is over has brought its thread a segment that was first on the abandoned list, or it has found that
  // list empty; and where it gave up without looking again, it has found the visited list empty, too.
  ghost predicate Answered(s: State, steps: Schedule, i: nat, j: nat, t: Tid)
    requires i < j <= |steps|
  {
    var r := Before(s, steps, j);
    || (exists x :: Took(s, steps, i, j, t, x) && Mine(r.loc, t, x) && x in r.next && r.next[x].None?)
    || SawNone(s, steps, i, j, t) || SawNeither(s, steps, i, j, t)
  }

  lemma {:induction false} PopStory(s: State, steps: Schedule, i: nat, j: nat, t: Tid)
    requires Init(s) && i < j <= |steps| && steps[i] == (t, StartPop)
    requires t in Before(s, steps, i).pcs && Before(s, steps, i).pcs[t].Idle?
    requires forall m: nat | i < m < j :: t in Before(s, steps, m).pcs && !Before(s, steps, m).pcs[t].Idle?
    ensures Story(s, steps, i, j, t)
    decreases j
  {
    hide Run, Inv, Init, Before, Step, PopGoes, Story;
    var r := Before(s, steps, j - 1);
    BeforeNext(s, steps, j - 1);
    BeforeInv(s, steps, j - 1);
    if j == i + 1 {
      StoryStart(s, steps, i, t);
    } else {
      PopStory(s, steps, i, j - 1, t);
      if steps[j - 1].0 == t {
        PopMoves(r, t, steps[j - 1].1);
        StoryOn(s, steps, i, j - 1, t);
      } else {
        if steps[j - 1].0 in r.pcs { OtherStays(r, steps[j - 1].0, steps[j - 1].1, t); }
        StorySame(s, steps, i, j - 1, t);
      }
    }
  }

  lemma BeforeInv(s: State, steps: Schedule, m: nat)
    requires Init(s) && m <= |steps|
    ensures Inv(Before(s, steps, m))
  {
    hide Run, Inv, Init;
    RunInv(s, steps[..m]);
  }

  lemma StoryStart(s: State, steps: Schedule, i: nat, t: Tid)
    requires i < |steps| && steps[i] == (t, StartPop) && Inv(Before(s, steps, i))
    requires t in Before(s, steps, i).pcs && Before(s, steps, i).pcs[t].Idle?
    ensures Story(s, steps, i, i + 1, t)
  {
    ListHeads(Before(s, steps, i));
    BeforeNext(s, steps, i);
    hide Before, Inv, Step;
    StartPops(Before(s, steps, i), t);
  }

  lemma StartPops(s: State, t: Tid)
    requires t in s.pcs && s.pcs[t].Idle?
    ensures Step(s, t, StartPop) == At(s, t, if s.abandoned.ptr.Some? then PopEnter else PopLook)
  {}

  lemma StoryOn(s: State, steps: Schedule, i: nat, j: nat, t: Tid)
    requires i < j < |steps| && steps[j].0 == t && Story(s, steps, i, j, t)
    requires !Before(s, steps, j).pcs[t].Idle? && PopGoes(Before(s, steps, j), t, Before(s, steps, j + 1))
    ensures Story(s, steps, i, j + 1, t)
  {
    hide Before;
    var r, r' := Before(s, steps, j), Before(s, steps, j + 1);
    match r.pcs[t]
    case PopCas(_, _) =>
      if r'.pcs[t].PopLeave? && r'.pcs[t].got.Some? { assert TakesFirst(s, steps, j, t, r'.pcs[t].got.value); }
    case PopLeave(got) =>
      if got.Some? { TookMore(s, steps, i, j, t, got.value); } else { SawMore(s, steps, i, j, t); }
    case PopClear(x) => TookMore(s, steps, i, j, t, x);
    case _ =>
  }

  lemma TookMore(s: State, steps: Schedule, i: nat, j: nat, t: Tid, x: Seg)
    requires j < |steps| && Took(s, steps, i, j, t, x)
    ensures Took(s, steps, i, j + 1, t, x)
  {
    var m: nat :| i < m < j && TakesFirst(s, steps, m, t, x);
  }

  lemma SawMore(s: State, steps: Schedule, i: nat, j: nat, t: Tid)
    requires j < |steps| && SawNone(s, steps, i, j, t)
    ensures SawNone(s, steps, i, j + 1, t)
  {
    hide Before;
    var m: nat :| i < m < j && steps[m].0 == t && Before(s, steps, m).alist == [];
  }

  lemma StorySame(s: State, steps: Schedule, i: nat, j: nat, t: Tid)
    requires i < j < |steps| && Story(s, steps, i, j, t) && !Before(s, steps, j).pcs[t].Idle?
    requires t in Before(s, steps, j + 1).pcs && Before(s, steps, j + 1).pcs[t] == Before(s, steps, j).pcs[t]
    ensures Story(s, steps, i, j + 1, t)
  {
    hide Before;
    match Before(s, steps, j).pcs[t]
    case PopLeave(got) =>
      if got.Some? { TookMore(s, steps, i, j, t, got.value); } else { SawMore(s, steps, i, j, t); }
    case PopClear(x) => TookMore(s, steps, i, j, t, x);
    case _ =>
  }

  lemma PopAnswers(s: State, steps: Schedule, i: nat, j: nat, t: Tid)
    requires Init(s) && i < j <= |steps| && steps[i] == (t, StartPop)
    requires t in Before(s, steps, i).pcs && Before(s, steps, i).pcs[t].Idle?
    requires forall m: nat | i < m < j :: t in Before(s, steps, m).pcs && !Before(s, steps, m).pcs[t].Idle?
    requires t in Before(s, steps, j).pcs && Before(s, steps, j).pcs[t].Idle?
    ensures Answered(s, steps, i, j, t)
  {
    hide Before, Answered;
    PopStory(s, steps, i, j, t);
  }

  // What the step that ends an operation leaves.
  ghost predicate Outcome(s: State, t: Tid, s': State)
    requires t in s.pcs && t in s.batch
  {
    match s.pcs[t]
    case PushCas(x, _) => s'.alist == [x] + s.alist && s'.vlist == s.vlist
    case VisitCas(x, _) => s'.vlist == [x] + s.vlist && s'.alist == s.alist
    case RvSwap(_, _, _) => s.alist == [] && s'.alist == s.batch[t] && s'.vlist == s.vlist
    case RvCas(_, _, _, _) => s'.alist == s.batch[t] + s.alist && s'.vlist == s.vlist
    case RvTake(_) => s.vlist == [] && s' == At(s, t, Idle)
    case PopLook => s.vlist == [] && s' == At(s, t, Idle)
    case PopLeave(_) => s'.alist == s.alist && s'.vlist == s.vlist
    case PopClear(x) => Mine(s'.loc, t, x) && s'.alist == s.alist && s'.vlist == s.vlist
    case Awaited(x) => s' == At(s, t, Idle).(loc := s.loc[x := Unmapped])
    case _ => false
  }

  // A push ends with its segment first on the list, a revisit with the detached list in front of the abandoned one,
  // whatever happened since the operation began.
  lemma Returned(s: State, t: Tid, a: Act)
    requires Inv(s) && t in s.pcs && !s.pcs[t].Idle?
    ensures t in s.batch && t in Step(s, t, a).pcs
    ensures Step(s, t, a).pcs[t].Idle? ==> Outcome(s, t, Step(s, t, a))
  {
    ListHeads(s);
    ThreadFacts(s, t);
    SwapNone(s, t);
    StepIs(s, t, a);
    hide Inv, Step, PushStep, PopStep, RevisitStep, AwaitStep, Outcome, BatchOk, PcOk, Head;
    var pc, fails := s.pcs[t], a.Spurious?;
    if IsPush(pc) || IsAwait(pc) { PushOutcome(s, t, fails); }
    else if IsPop(pc) { PopOutcome(s, t, fails); }
    else { RevisitOutcome(s, t, fails); }
  }

  lemma SwapNone(s: State, t: Tid)
    requires t in s.pcs && PcOk(t, s.pcs[t], s.abandoned, s.next, s.loc)
    ensures s.pcs[t].RvSwap? ==> s.pcs[t].ts.ptr.None?
  {}

  lemma PushOutcome(s: State, t: Tid, fails: bool)
    requires t in s.pcs && t in s.batch && (IsPush(s.pcs[t]) || IsAwait(s.pcs[t]))
    ensures var s' := if IsAwait(s.pcs[t]) then AwaitStep(s, t) else PushStep(s, t, fails);
      t in s'.pcs && (s'.pcs[t].Idle? ==> Outcome(s, t, s'))
  {}

  lemma PopOutcome(s: State, t: Tid, fails: bool)
    requires t in s.pcs && t in s.batch && IsPop(s.pcs[t])
    requires s.visited == Head(s.vlist) && PcOk(t, s.pcs[t], s.abandoned, s.next, s.loc)
    ensures var s' := PopStep(s, t, fails); t in s'.pcs && (s'.pcs[t].Idle? ==> Outcome(s, t, s'))
  {}

  lemma RevisitOutcome(s: State, t: Tid, fails: bool)
    requires t in s.pcs && t in s.batch && s.abandoned.ptr == Head(s.alist) && s.visited == Head(s.vlist)
    requires !s.pcs[t].Idle? && !IsPush(s.pcs[t]) && !IsAwait(s.pcs[t]) && !IsPop(s.pcs[t])
    requires s.pcs[t].RvSwap? ==> s.pcs[t].ts.ptr.None?
    ensures var s' := RevisitStep(s, t, fails); t in s'.pcs && (s'.pcs[t].Idle? ==> Outcome(s, t, s'))
  {
    hide MoveAll;
    assert s.batch[t] + [] == s.batch[t];
  }
}
