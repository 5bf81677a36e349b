// What one push, pop or purge of the segment cache comes to when the other threads stand still (segment-cache.c).
module SegmentCacheAlone {
  import opened Base
  import opened SegmentCache

  // Thread t takes n steps, all in the same circumstances `a`.
  ghost function Goes(s: State, t: Tid, a: Act, n: nat): State
    decreases n
  {
    if n == 0 || t !in s.pcs then s else Goes(Step(s, t, a), t, a, n - 1)
  }

  // Left alone, t gets from s to s'.
  ghost predicate Reaches(s: State, t: Tid, a: Act, s': State) { exists n: nat :: Goes(s, t, a, n) == s' }

  lemma ReachesSelf(s: State, t: Tid, a: Act)
    ensures Reaches(s, t, a, s)
  {
    assert Goes(s, t, a, 0) == s;
  }

  lemma ReachesStep(s: State, t: Tid, a: Act, s': State)
    requires t in s.pcs && Reaches(Step(s, t, a), t, a, s')
    ensures Reaches(s, t, a, s')
  {
    var n: nat :| Goes(Step(s, t, a), t, a, n) == s';
    assert Goes(s, t, a, n + 1) == s';
  }

  lemma {:induction false} GoesInv(s: State, t: Tid, a: Act, n: nat)
    requires Inv(s)
    ensures Inv(Goes(s, t, a, n))
    decreases n
  {
    hide Inv, Step;
    if n > 0 && t in s.pcs {
      StepInv(s, t, a);
      GoesInv(Step(s, t, a), t, a, n - 1);
    }
  }

  lemma ReachedInv(s: State, t: Tid, a: Act, s': State)
    requires Inv(s) && Reaches(s, t, a, s')
    ensures Inv(s')
  {
    hide Inv, Step;
    var n: nat :| Goes(s, t, a, n) == s';
    GoesInv(s, t, a, n);
  }

  lemma SameIdle(s: State, t: Tid)
    requires t in s.pcs && s.pcs[t].Idle?
    ensures s.pcs[t := Idle] == s.pcs
  {}

  // ---- pop

  // A pop may have the segment in the slot: it is available, or it is large and large pages will do.
  predicate Obtainable(slot: Slot, large: bool) { (large && !slot.availableLarge) || !slot.available }

  // The slot is free, and its segment with t.
  function Popped(s: State, t: Tid, i: nat): State
    requires i < |s.slots| && s.slots[i].p.Some?
  {
    s.(slots := s.slots[i := s.slots[i].(available := true, availableLarge := true, inuse := false, p := None,
                                         expires := false)],
       place := s.place[s.slots[i].p.value := With(t)])
  }

  lemma PopAlone(s: State, t: Tid, i: nat, large: bool, a: Act)
    requires Inv(s) && t in s.pcs && s.pcs[t].Idle? && i < |s.slots|
    ensures if Obtainable(s.slots[i], large)
            then s.slots[i].p.Some? && Reaches(Step(s, t, StartPop(i, large)), t, a, Popped(s, t, i))
            else Step(s, t, StartPop(i, large)) == s
  {
    if Obtainable(s.slots[i], large) {
      NobodyAt(s, i);
      hide Inv;
      PopFrom(s, t, i, large, a);
    }
  }

  lemma PopFrom(s: State, t: Tid, i: nat, large: bool, a: Act)
    requires t in s.pcs && s.pcs[t].Idle? && i < |s.slots| && Resting(s, i) && Obtainable(s.slots[i], large)
    ensures s.slots[i].p.Some? && Reaches(Step(s, t, StartPop(i, large)), t, a, Popped(s, t, i))
  {
    var slot, s' := s.slots[i], Popped(s, t, i);
    var item := Item(slot.p.value, slot.commit, slot.decommit);
    var s1 := SetSlot(s, t, i, slot.(available := true, availableLarge := true), PopRead(i));
    var s2 := s1.(place := s1.place[item.seg := With(t)], pcs := s1.pcs[t := PopClear(i, item)]);
    var s3 := SetSlot(s2, t, i, s2.slots[i].(p := None, expires := false), PopFree(i, item));
    assert Step(s, t, StartPop(i, large)) == s1;
    PopSteps(s1, t, i, a);
    PopLast(s, t, i, s3);
    hide Step, Popped;
    ReachesSelf(s', t, a);
    ReachesStep(s3, t, a, s');
    ReachesStep(s2, t, a, s');
    ReachesStep(s1, t, a, s');
  }

  lemma PopSteps(s1: State, t: Tid, i: nat, a: Act)
    requires t in s1.pcs && s1.pcs[t] == PopRead(i) && i < |s1.slots| && s1.slots[i].p.Some?
    ensures var item := Item(s1.slots[i].p.value, s1.slots[i].commit, s1.slots[i].decommit);
      var s2 := s1.(place := s1.place[item.seg := With(t)], pcs := s1.pcs[t := PopClear(i, item)]);
      var s3 := SetSlot(s2, t, i, s2.slots[i].(p := None, expires := false), PopFree(i, item));
      && Step(s1, t, a) == s2 && Step(s2, t, a) == s3
      && Step(s3, t, a) == SetSlot(s3, t, i, s3.slots[i].(inuse := false), Idle)
  {}

  lemma PopLast(s: State, t: Tid, i: nat, s3: State)
    requires t in s.pcs && s.pcs[t].Idle? && i < |s.slots| && s.slots[i].p.Some?
    requires var slot := s.slots[i]; var item := Item(slot.p.value, slot.commit, slot.decommit);
      var s1 := SetSlot(s, t, i, slot.(available := true, availableLarge := true), PopRead(i));
      var s2 := s1.(place := s1.place[item.seg := With(t)], pcs := s1.pcs[t := PopClear(i, item)]);
      s3 == SetSlot(s2, t, i, s2.slots[i].(p := None, expires := false), PopFree(i, item))
    ensures SetSlot(s3, t, i, s3.slots[i].(inuse := false), Idle) == Popped(s, t, i)
  {
    SameIdle(s, t);
  }

  // A pop comes back empty-handed only from a cache that holds nothing it may have.
  lemma PopFinds(s: State, t: Tid, large: bool)
    requires Inv(s) && t in s.pcs && s.pcs[t].Idle?
    ensures (exists i: nat :: i < |s.slots| && Obtainable(s.slots[i], large))
      <==> exists i: nat :: Step(s, t, StartPop(i, large)) != s
  {
    if i: nat :| i < |s.slots| && Obtainable(s.slots[i], large) {
      assert Step(s, t, StartPop(i, large)).pcs[t] == PopRead(i);
    }
    if i: nat :| Step(s, t, StartPop(i, large)) != s { assert Obtainable(s.slots[i], large); }
  }

  // ---- push

  predicate MayPush(s: State, t: Tid, i: nat, item: Item) {
    && i < |s.slots| && !s.slots[i].inuse && item.seg in s.place && s.place[item.seg] == With(t)
    && item.seg in s.memory && item.commit == s.memory[item.seg] && item.decommit <= item.commit
  }

  // The segment lies in the slot, on the side of the large ones or the others. Where decommitting is allowed it
  // has an expire time, or without a delay it is decommitted already; not so large or pinned ones.
  function Pushed(s: State, i: nat, item: Item, large: bool, pinned: bool, delayed: bool, allowDecommit: bool): State
    requires i < |s.slots|
  {
    var purged := item.commit != {} && !large && !pinned && allowDecommit;
    var slot := Slot(large, !large, true, Some(item.seg), if purged && !delayed then {} else item.commit,
                     if purged && !delayed then {} else item.decommit, purged && delayed);
    s.(slots := s.slots[i := slot], place := s.place[item.seg := InSlot(i)],
       memory := if purged && !delayed then s.memory[item.seg := {}] else s.memory)
  }

  lemma PushAlone(s: State, t: Tid, i: nat, item: Item, large: bool, pinned: bool, a: Act)
    requires Inv(s) && t in s.pcs && s.pcs[t].Idle? && MayPush(s, t, i, item) && a.Go?
    ensures Reaches(Step(s, t, StartPush(i, item, large, pinned)), t, a,
                    Pushed(s, i, item, large, pinned, a.delayed, a.allowDecommit))
  {
    FreeSlot(s, i);
    hide Inv;
    var s1 := SetSlot(s, t, i, s.slots[i].(inuse := true), PushWrite(i, item, large, pinned));
    assert Step(s, t, StartPush(i, item, large, pinned)) == s1;
    PushFrom(s, t, i, item, large, pinned, a, s1);
  }

  // The slot as it is written first.
  function Written(item: Item): Slot { Slot(true, true, true, Some(item.seg), item.commit, item.decommit, false) }

  lemma PushFrom(s: State, t: Tid, i: nat, item: Item, large: bool, pinned: bool, a: Act, s1: State)
    requires t in s.pcs && s.pcs[t].Idle? && MayPush(s, t, i, item) && a.Go?
    requires s.slots[i] == Slot(true, true, false, None, s.slots[i].commit, s.slots[i].decommit, false)
    requires s1 == SetSlot(s, t, i, s.slots[i].(inuse := true), PushWrite(i, item, large, pinned))
    ensures Reaches(s1, t, a, Pushed(s, i, item, large, pinned, a.delayed, a.allowDecommit))
  {
    var s' := Pushed(s, i, item, large, pinned, a.delayed, a.allowDecommit);
    var s2 := SetSlot(s.(place := s.place[item.seg := InSlot(i)]), t, i, Written(item), PushExpire(i, large, pinned));
    var s3 := SetSlot(s', t, i, s'.slots[i].(available := true, availableLarge := true), PushOpen(i, large));
    WriteStep(s, t, i, item, large, pinned, a, s1);
    ExpireStep(s, t, i, item, large, pinned, a);
    OpenStep(s', t, i, large, a);
    hide Step, Pushed;
    ReachesSelf(s', t, a);
    ReachesStep(s3, t, a, s');
    ReachesStep(s2, t, a, s');
    ReachesStep(s1, t, a, s');
  }

  lemma WriteStep(s: State, t: Tid, i: nat, item: Item, large: bool, pinned: bool, a: Act, s1: State)
    requires t in s.pcs && MayPush(s, t, i, item) && a.Go?
    requires s.slots[i] == Slot(true, true, false, None, s.slots[i].commit, s.slots[i].decommit, false)
    requires s1 == SetSlot(s, t, i, s.slots[i].(inuse := true), PushWrite(i, item, large, pinned))
    ensures Step(s1, t, a) == SetSlot(s.(place := s.place[item.seg := InSlot(i)]), t, i, Written(item),
                                      PushExpire(i, large, pinned))
  {}

  lemma ExpireStep(s: State, t: Tid, i: nat, item: Item, large: bool, pinned: bool, a: Act)
    requires t in s.pcs && MayPush(s, t, i, item) && a.Go?
    ensures var s' := Pushed(s, i, item, large, pinned, a.delayed, a.allowDecommit);
      Step(SetSlot(s.(place := s.place[item.seg := InSlot(i)]), t, i, Written(item), PushExpire(i, large, pinned)), t,
           a)
      == SetSlot(s', t, i, s'.slots[i].(available := true, availableLarge := true), PushOpen(i, large))
  {
    assert s.memory[item.seg] - item.commit == {};
  }

  lemma OpenStep(s': State, t: Tid, i: nat, large: bool, a: Act)
    requires t in s'.pcs && s'.pcs[t].Idle? && i < |s'.slots|
    requires s'.slots[i].available == large && s'.slots[i].availableLarge == !large
    ensures Step(SetSlot(s', t, i, s'.slots[i].(available := true, availableLarge := true), PushOpen(i, large)), t, a)
      == s'
  {
    SameIdle(s', t);
  }

  // A push fails only where all slots are in use.
  lemma PushFinds(s: State, t: Tid, item: Item, large: bool, pinned: bool)
    requires t in s.pcs && s.pcs[t].Idle? && item.seg in s.place && s.place[item.seg] == With(t)
    requires item.seg in s.memory && item.commit == s.memory[item.seg] && item.decommit <= item.commit
    ensures (exists i: nat :: i < |s.slots| && !s.slots[i].inuse)
      <==> exists i: nat :: Step(s, t, StartPush(i, item, large, pinned)) != s
  {
    if i: nat :| i < |s.slots| && !s.slots[i].inuse {
      assert Step(s, t, StartPush(i, item, large, pinned)).pcs[t] == PushWrite(i, item, large, pinned);
    }
    if i: nat :| Step(s, t, StartPush(i, item, large, pinned)) != s { assert !s.slots[i].inuse; }
  }

  // A slot that is not in use is available on neither side.
  lemma FreeSlot(s: State, i: nat)
    requires Inv(s) && i < |s.slots| && !s.slots[i].inuse
    ensures s.slots[i] == Slot(true, true, false, None, s.slots[i].commit, s.slots[i].decommit, false)
  {
    if Attended(s, i) {
      var u :| u in s.pcs && Accesses(s.pcs[u], i);
      AloneAt(s, u, i);
    }
  }

  // What one thread pushes another can pop: an ordinary segment in either case, a large one when large pages will do,
  // and only then.
  lemma PushedThenPopped(s: State, t: Tid, u: Tid, i: nat, item: Item, large: bool, pinned: bool, a: Act, ask: bool)
    requires Inv(s) && t in s.pcs && s.pcs[t].Idle? && u in s.pcs && s.pcs[u].Idle? && MayPush(s, t, i, item) && a.Go?
    ensures var s1 := Pushed(s, i, item, large, pinned, a.delayed, a.allowDecommit);
      && i < |s1.slots| && s1.slots[i].p == Some(item.seg)
      && if !large || ask then Reaches(Step(s1, u, StartPop(i, ask)), u, a, Popped(s1, u, i))
         else Step(s1, u, StartPop(i, ask)) == s1
  {
    var s1 := Pushed(s, i, item, large, pinned, a.delayed, a.allowDecommit);
    PushAlone(s, t, i, item, large, pinned, a);
    hide Inv, Reaches, Popped;
    StepInv(s, t, StartPush(i, item, large, pinned));
    ReachedInv(Step(s, t, StartPush(i, item, large, pinned)), t, a, s1);
    PopAlone(s1, u, i, ask, a);
  }

  // ---- purge

  // What a purge leaves in a slot: decommitted when its time has come, and untouched otherwise.
  function Purged(s: State, i: nat): State
    requires i < |s.slots| && s.slots[i].p.Some?
  {
    s.(slots := s.slots[i := s.slots[i].(commit := {}, decommit := {}, expires := false)],
       memory := s.memory[s.slots[i].p.value := {}])
  }

  // Run alone, a purge of slot i decommits the segment there exactly when it is available and has expired.
  lemma PurgeAlone(s: State, t: Tid, i: nat, a: Act)
    requires Inv(s) && t in s.pcs && s.pcs[t].Idle? && i < |s.slots| && a.Go?
    ensures if s.slots[i].expires && !s.slots[i].available && a.expired
            then s.slots[i].p.Some? && Reaches(Step(s, t, StartPurge(i)), t, a, Purged(s, i))
            else Reaches(Step(s, t, StartPurge(i)), t, a, s)
  {
    if !s.slots[i].expires {
      ReachesSelf(s, t, a);
    } else if s.slots[i].available {
      var s1 := s.(pcs := s.pcs[t := PurgeClaim(i)]);
      SameIdle(s, t);
      assert Step(s, t, StartPurge(i)) == s1;
      assert Step(s1, t, a) == s;
      ReachesSelf(s, t, a);
      ReachesStep(s1, t, a, s);
    } else {
      NobodyAt(s, i);
      hide Inv;
      PurgeFrom(s, t, i, a);
    }
  }

  lemma PurgeFrom(s: State, t: Tid, i: nat, a: Act)
    requires t in s.pcs && s.pcs[t].Idle? && i < |s.slots| && a.Go? && Resting(s, i)
    requires s.slots[i].expires && !s.slots[i].available
    ensures s.slots[i].p.Some?
    ensures Reaches(Step(s, t, StartPurge(i)), t, a, if a.expired then Purged(s, i) else s)
  {
    var slot, s' := s.slots[i], if a.expired then Purged(s, i) else s;
    var s1 := s.(pcs := s.pcs[t := PurgeClaim(i)]);
    var s2 := SetSlot(s, t, i, slot.(available := true), PurgeCheck(i));
    var s5 := SetSlot(s', t, i, s'.slots[i].(available := true), PurgeOpen(i));
    assert Step(s, t, StartPurge(i)) == s1;
    ClaimStep(s, t, i, a);
    CheckStep(s, t, i, a, s2, s5);
    ReopenStep(s', t, i, a);
    hide Step, Purged;
    ReachesSelf(s', t, a);
    ReachesStep(s5, t, a, s');
    if a.expired {
      var s3 := SetSlot(s, t, i, slot.(available := true), PurgeMark(i));
      var s4 := SetSlot(s, t, i, slot.(available := true, expires := false), PurgeDecommit(i));
      ReachesStep(s4, t, a, s');
      ReachesStep(s3, t, a, s');
    }
    ReachesStep(s2, t, a, s');
    ReachesStep(s1, t, a, s');
  }

  lemma ClaimStep(s: State, t: Tid, i: nat, a: Act)
    requires t in s.pcs && i < |s.slots| && !s.slots[i].available
    ensures Step(s.(pcs := s.pcs[t := PurgeClaim(i)]), t, a)
      == SetSlot(s, t, i, s.slots[i].(available := true), PurgeCheck(i))
  {}

  lemma ReopenStep(s': State, t: Tid, i: nat, a: Act)
    requires t in s'.pcs && s'.pcs[t].Idle? && i < |s'.slots| && !s'.slots[i].available
    ensures Step(SetSlot(s', t, i, s'.slots[i].(available := true), PurgeOpen(i)), t, a) == s'
  {
    SameIdle(s', t);
    assert s'.slots[i].(available := false) == s'.slots[i];
  }

  lemma CheckStep(s: State, t: Tid, i: nat, a: Act, s2: State, s5: State)
    requires t in s.pcs && i < |s.slots| && a.Go? && Resting(s, i) && s.slots[i].expires && !s.slots[i].available
    requires s2 == SetSlot(s, t, i, s.slots[i].(available := true), PurgeCheck(i))
    requires var s' := if a.expired then Purged(s, i) else s;
      s5 == SetSlot(s', t, i, s'.slots[i].(available := true), PurgeOpen(i))
    ensures var s3 := SetSlot(s, t, i, s.slots[i].(available := true), PurgeMark(i));
      var s4 := SetSlot(s, t, i, s.slots[i].(available := true, expires := false), PurgeDecommit(i));
      if a.expired then Step(s2, t, a) == s3 && Step(s3, t, a) == s4 && Step(s4, t, a) == s5
      else Step(s2, t, a) == s5
  {
    var seg := s.slots[i].p.value;
    assert s.memory[seg] - s.slots[i].commit == {};
  }

  // ---- every operation ends

  function Left(pc: Pc): nat {
    match pc
    case Idle => 0
    case PushWrite(_, _, _, _) => 3
    case PushExpire(_, _, _) => 2
    case PushOpen(_, _) => 1
    case PopRead(_) => 3
    case PopClear(_, _) => 2
    case PopFree(_, _) => 1
    case PurgeClaim(_) => 5
    case PurgeCheck(_) => 4
    case PurgeMark(_) => 3
    case PurgeDecommit(_) => 2
    case PurgeOpen(_) => 1
  }

  // Whatever others have done before, a thread left alone ends its operation within five steps.
  lemma {:induction false} Ends(s: State, t: Tid, a: Act)
    requires Inv(s) && t in s.pcs && a.Go?
    ensures exists n: nat :: n <= 5 && t in Goes(s, t, a, n).pcs && Goes(s, t, a, n).pcs[t].Idle?
  {
    hide Inv;
    var n := EndsIn(s, t, a);
  }

  lemma {:induction false} EndsIn(s: State, t: Tid, a: Act) returns (n: nat)
    requires Inv(s) && t in s.pcs && a.Go?
    ensures n <= Left(s.pcs[t]) && t in Goes(s, t, a, n).pcs && Goes(s, t, a, n).pcs[t].Idle?
    decreases Left(s.pcs[t])
  {
    if s.pcs[t].Idle? {
      n := 0;
    } else {
      StepInv(s, t, a);
      Nearer(s, t, a);
      hide Inv, Step, Left;
      var m := EndsIn(Step(s, t, a), t, a);
      n := m + 1;
      assert Goes(s, t, a, n) == Goes(Step(s, t, a), t, a, m);
    }
  }

  lemma Nearer(s: State, t: Tid, a: Act)
    requires Inv(s) && t in s.pcs && !s.pcs[t].Idle? && a.Go?
    ensures t in Step(s, t, a).pcs && Left(Step(s, t, a).pcs[t]) < Left(s.pcs[t])
  {
    assert PcOk(s, t, s.pcs[t]);
    hide Inv;
  }
}
