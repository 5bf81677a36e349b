// The segment cache: slots guarded by three bitmaps, pushed, popped and purged by any number of
// threads (segment-cache.c). One step for each atomic operation or access to a slot's fields.
module SegmentCache {
  import opened Base

  type Tid = nat
  // A segment's address.
  type Seg = nat

  // available, availableLarge, inuse: the slot's bits. A zero bit means available, and free.
  // expires: the expire time is not 0.
  datatype Slot = Slot(available: bool, availableLarge: bool, inuse: bool, p: Option<Seg>,
                       commit: set<nat>, decommit: set<nat>, expires: bool)

  // Where a segment is: the bookkeeping of the proof.
  datatype Place = With(t: Tid) | InSlot(i: nat)

  datatype Item = Item(seg: Seg, commit: set<nat>, decommit: set<nat>)

  datatype Pc =
    | Idle
    // _mi_segment_cache_push, after claiming an unused slot
    | PushWrite(i: nat, item: Item, large: bool, pinned: bool)
    | PushExpire(i: nat, large: bool, pinned: bool)
    | PushOpen(i: nat, large: bool)
    // _mi_segment_cache_pop, after claiming an available slot
    | PopRead(i: nat)
    | PopClear(i: nat, item: Item)
    | PopFree(i: nat, item: Item)
    // mi_segment_cache_purge
    | PurgeClaim(i: nat)
    | PurgeCheck(i: nat)
    | PurgeMark(i: nat)
    | PurgeDecommit(i: nat)
    | PurgeOpen(i: nat)

  // delayed: the decommit delay is not 0; expired: the clock has passed the expire time.
  datatype Act =
    | StartPush(i: nat, item: Item, large: bool, pinned: bool)
    | StartPop(i: nat, large: bool)
    | StartPurge(i: nat)
    | Use(seg: Seg, committed: set<nat>)
    | Go(delayed: bool, expired: bool, allowDecommit: bool)

  // memory: the committed parts of each segment.
  datatype State = State(slots: seq<Slot>, pcs: map<Tid, Pc>, place: map<Seg, Place>, memory: map<Seg, set<nat>>)

  function SetSlot(s: State, t: Tid, i: nat, slot: Slot, pc: Pc): State
    requires i < |s.slots|
  {
    s.(slots := s.slots[i := slot], pcs := s.pcs[t := pc])
  }

  function StartStep(s: State, t: Tid, a: Act): State
    requires t in s.pcs
  {
    match a
    // the search finds slot i with its inuse bit clear, and sets the bit
    case StartPush(i, item, large, pinned) =>
      if i < |s.slots| && !s.slots[i].inuse && item.seg in s.place && s.place[item.seg] == With(t)
        && item.seg in s.memory
        && item.commit == s.memory[item.seg] && item.decommit <= item.commit
      then SetSlot(s, t, i, s.slots[i].(inuse := true), PushWrite(i, item, large, pinned)) else s
    case StartPop(i, large) =>
      if i >= |s.slots| then s
      else if large && !s.slots[i].availableLarge then SetSlot(s, t, i, s.slots[i].(availableLarge := true), PopRead(i))
      else if !s.slots[i].available then SetSlot(s, t, i, s.slots[i].(available := true), PopRead(i))
      else s
    // a racy look at the expire time comes first
    case StartPurge(i) => if i < |s.slots| && s.slots[i].expires then s.(pcs := s.pcs[t := PurgeClaim(i)]) else s
    // the owner commits and decommits parts of its own segment
    case Use(seg, committed) =>
      if seg in s.place && s.place[seg] == With(t) then s.(memory := s.memory[seg := committed]) else s
    case Go(_, _, _) => s
  }

  function PushStep(s: State, t: Tid, a: Act): State
    requires t in s.pcs
  {
    match s.pcs[t]
    case PushWrite(i, item, large, pinned) =>
      if i >= |s.slots| then s
      else SetSlot(s.(place := s.place[item.seg := InSlot(i)]), t, i,
        s.slots[i].(p := Some(item.seg), commit := item.commit, decommit := item.decommit, expires := false),
            PushExpire(i, large, pinned))
    case PushExpire(i, large, pinned) =>
      if i >= |s.slots| || !a.Go? then s
      else if s.slots[i].commit != {} && !large && !pinned && a.allowDecommit then
        if a.delayed then SetSlot(s, t, i, s.slots[i].(expires := true), PushOpen(i, large))
        else Decommitted(s, t, i, PushOpen(i, large))
      else SetSlot(s, t, i, s.slots[i], PushOpen(i, large))
    case PushOpen(i, large) =>
      if i >= |s.slots| then s
      else SetSlot(s, t, i,
                   if large then s.slots[i].(availableLarge := false) else s.slots[i].(available := false), Idle)
    case _ => s
  }

  // mi_commit_mask_decommit gives all committed parts of the slot's segment back to the OS.
  function Decommitted(s: State, t: Tid, i: nat, pc: Pc): State
    requires i < |s.slots|
  {
    var slot := s.slots[i];
    var memory := if slot.p.Some? && slot.p.value in s.memory
      then s.memory[slot.p.value := s.memory[slot.p.value] - slot.commit] else s.memory;
    SetSlot(s.(memory := memory), t, i, slot.(commit := {}, decommit := {}), pc)
  }

  function PopStep(s: State, t: Tid): State
    requires t in s.pcs
  {
    match s.pcs[t]
    case PopRead(i) =>
      if i >= |s.slots| || s.slots[i].p.None? then s
      else
        var slot := s.slots[i];
        s.(place := s.place[slot.p.value := With(t)],
           pcs := s.pcs[t := PopClear(i, Item(slot.p.value, slot.commit, slot.decommit))])
    case PopClear(i, item) =>
      if i >= |s.slots| then s else SetSlot(s, t, i, s.slots[i].(p := None, expires := false), PopFree(i, item))
    case PopFree(i, item) => if i >= |s.slots| then s else SetSlot(s, t, i, s.slots[i].(inuse := false), Idle)
    case _ => s
  }

  function PurgeStep(s: State, t: Tid, a: Act): State
    requires t in s.pcs
  {
    match s.pcs[t]
    // _mi_bitmap_claim: true when the bit was clear
    case PurgeClaim(i) =>
      if i >= |s.slots| then s
      else SetSlot(s, t, i, s.slots[i].(available := true), if s.slots[i].available then Idle else PurgeCheck(i))
    case PurgeCheck(i) =>
      if i >= |s.slots| then s
      else s.(pcs := s.pcs[t := if s.slots[i].expires && a.Go? && a.expired then PurgeMark(i) else PurgeOpen(i)])
    case PurgeMark(i) => if i >= |s.slots| then s else SetSlot(s, t, i, s.slots[i].(expires := false), PurgeDecommit(i))
    case PurgeDecommit(i) => if i >= |s.slots| then s else Decommitted(s, t, i, PurgeOpen(i))
    case PurgeOpen(i) => if i >= |s.slots| then s else SetSlot(s, t, i, s.slots[i].(available := false), Idle)
    case _ => s
  }

  function Step(s: State, t: Tid, a: Act): State
    requires t in s.pcs
  {
    var pc := s.pcs[t];
    if pc.Idle? then StartStep(s, t, a)
    else if pc.PushWrite? || pc.PushExpire? || pc.PushOpen? then PushStep(s, t, a)
    else if pc.PopRead? || pc.PopClear? || pc.PopFree? then PopStep(s, t)
    else PurgeStep(s, t, a)
  }

  // ---- who may touch a slot's fields

  predicate Accesses(pc: Pc, i: nat) {
    match pc
    case Idle => false
    case PurgeClaim(_) => false
    case PushWrite(j, _, _, _) => i == j
    case PushExpire(j, _, _) => i == j
    case PushOpen(j, _) => i == j
    case PopRead(j) => i == j
    case PopClear(j, _) => i == j
    case PopFree(j, _) => i == j
    case PurgeCheck(j) => i == j
    case PurgeMark(j) => i == j
    case PurgeDecommit(j) => i == j
    case PurgeOpen(j) => i == j
  }

  ghost predicate Alone(s: State, t: Tid, u: Tid, i: nat)
    requires t in s.pcs && u in s.pcs
  {
    Accesses(s.pcs[t], i) && Accesses(s.pcs[u], i) ==> t == u
  }

  // ---- the invariant

  // A segment rests in the slot, with masks that tell what is committed.
  ghost predicate Filled(s: State, i: nat)
    requires i < |s.slots|
  {
    var slot := s.slots[i];
    && slot.p.Some? && slot.p.value in s.place && s.place[slot.p.value] == InSlot(i) && slot.p.value in s.memory
    && slot.commit == s.memory[slot.p.value] && slot.decommit <= slot.commit
  }

  // No thread is at the slot: it is free, or holds a segment that is available on one side.
  ghost predicate Resting(s: State, i: nat)
    requires i < |s.slots|
  {
    var slot := s.slots[i];
    if !slot.inuse then slot.available && slot.availableLarge && slot.p.None? && !slot.expires
    else
      && Filled(s, i) && (slot.available != slot.availableLarge)
      && (slot.expires ==> slot.commit != {} && slot.availableLarge)
  }

  ghost predicate Closed(slot: Slot) { slot.inuse && slot.available && slot.availableLarge }

  // What a thread at a slot knows about it.
  ghost predicate PcOk(s: State, t: Tid, pc: Pc) {
    match pc
    case Idle => true
    case PurgeClaim(i) => i < |s.slots|
    case PushWrite(i, item, large, pinned) =>
      && i < |s.slots| && Closed(s.slots[i]) && s.slots[i].p.None? && item.seg in s.place
      && s.place[item.seg] == With(t) && item.seg in s.memory
      && item.commit == s.memory[item.seg] && item.decommit <= item.commit && !s.slots[i].expires
    case PushExpire(i, large, pinned) => i < |s.slots| && Closed(s.slots[i]) && Filled(s, i) && !s.slots[i].expires
    case PushOpen(i, large) =>
      i < |s.slots| && Closed(s.slots[i]) && Filled(s, i) && (s.slots[i].expires ==> s.slots[i].commit != {} && !large)
    case PopRead(i) => i < |s.slots| && Closed(s.slots[i]) && Filled(s, i)
    case PopClear(i, item) => i < |s.slots| && Closed(s.slots[i]) && s.slots[i].p == Some(item.seg) && Taken(s, t, item)
    case PopFree(i, item) =>
      i < |s.slots| && Closed(s.slots[i]) && s.slots[i].p.None? && !s.slots[i].expires && Taken(s, t, item)
    case PurgeCheck(i) =>
      i < |s.slots| && Closed(s.slots[i]) && Filled(s, i) && (s.slots[i].expires ==> s.slots[i].commit != {})
    case PurgeMark(i) => i < |s.slots| && Closed(s.slots[i]) && Filled(s, i) && s.slots[i].commit != {}
    case PurgeDecommit(i) =>
      i < |s.slots| && Closed(s.slots[i]) && Filled(s, i) && s.slots[i].commit != {} && !s.slots[i].expires
    case PurgeOpen(i) =>
      i < |s.slots| && Closed(s.slots[i]) && Filled(s, i) && (s.slots[i].expires ==> s.slots[i].commit != {})
  }

  // The popped segment belongs to the thread, and its masks are right.
  ghost predicate Taken(s: State, t: Tid, item: Item) {
    && item.seg in s.place && s.place[item.seg] == With(t) && item.seg in s.memory
    && item.commit == s.memory[item.seg] && item.decommit <= item.commit
  }

  ghost predicate Inv(s: State) {
    && (forall t, u, i: nat | t in s.pcs && u in s.pcs :: Alone(s, t, u, i))
    && (forall t | t in s.pcs :: PcOk(s, t, s.pcs[t]))
    && (forall i: nat | i < |s.slots| :: Attended(s, i) || Resting(s, i))
  }

  ghost predicate Attended(s: State, i: nat) { exists t :: t in s.pcs && Accesses(s.pcs[t], i) }

  // ---- one thread's work on one slot leaves the others alone

  ghost predicate Local(s: State, s': State, t: Tid, i: nat) {
    && i < |s.slots| == |s'.slots| && (forall j | 0 <= j < |s.slots| && j != i :: s'.slots[j] == s.slots[j])
    && forall seg | seg in s.place && s.place[seg] != With(t) && s.place[seg] != InSlot(i) ::
      seg in s'.place && s'.place[seg] == s.place[seg]
        && (seg in s.memory ==> seg in s'.memory && s'.memory[seg] == s.memory[seg])
  }

  lemma OtherThread(s: State, s': State, t: Tid, i: nat, u: Tid, pc: Pc)
    requires PcOk(s, u, pc) && u != t && !Accesses(pc, i) && Local(s, s', t, i)
    ensures PcOk(s', u, pc)
  {}

  lemma OtherSlot(s: State, s': State, t: Tid, i: nat, j: nat)
    requires i < |s.slots| == |s'.slots| && j < |s.slots| && Resting(s, j) && j != i && Local(s, s', t, i)
    ensures Resting(s', j)
  {}

  // A slot whose bits are not all set has nobody at it.
  lemma OpenUnattended(s: State, i: nat, u: Tid)
    requires Inv(s) && i < |s.slots| && u in s.pcs && Accesses(s.pcs[u], i)
    ensures Closed(s.slots[i])
  {
    assert PcOk(s, u, s.pcs[u]);
  }

  lemma LocalInv(s: State, s': State, t: Tid, i: nat)
    requires Inv(s) && t in s.pcs && Local(s, s', t, i) && t in s'.pcs && s'.pcs == s.pcs[t := s'.pcs[t]]
    requires forall u | u in s.pcs && u != t :: !Accesses(s.pcs[u], i)
    requires forall j: nat | j != i :: !Accesses(s.pcs[t], j) && !Accesses(s'.pcs[t], j)
    requires PcOk(s', t, s'.pcs[t]) && (Accesses(s'.pcs[t], i) || Resting(s', i))
    ensures Inv(s')
  {
    hide Resting;
    forall u | u in s'.pcs ensures PcOk(s', u, s'.pcs[u]) {
      if u != t { assert PcOk(s, u, s.pcs[u]); OtherThread(s, s', t, i, u, s.pcs[u]); }
    }
    hide PcOk;
    forall u, w, j: nat | u in s'.pcs && w in s'.pcs
      ensures Alone(s', u, w, j)
    {
      assert u in s.pcs && w in s.pcs && Alone(s, u, w, j);
    }
    forall j: nat | j < |s'.slots| ensures Attended(s', j) || Resting(s', j) {
      if j == i {
        assert Accesses(s'.pcs[t], i) ==> Attended(s', i);
      } else if Attended(s, j) {
        var u :| u in s.pcs && Accesses(s.pcs[u], j);
        assert u in s'.pcs && Accesses(s'.pcs[u], j);
      } else {
        assert Resting(s, j);
        OtherSlot(s, s', t, i, j);
      }
    }
  }

  // The thread at a slot is there alone.
  lemma AloneAt(s: State, t: Tid, i: nat)
    requires Inv(s) && t in s.pcs && Accesses(s.pcs[t], i)
    ensures i < |s.slots| && PcOk(s, t, s.pcs[t]) && (forall u | u in s.pcs && u != t :: !Accesses(s.pcs[u], i))
    ensures forall j: nat | j != i :: !Accesses(s.pcs[t], j)
  {
    assert PcOk(s, t, s.pcs[t]);
    forall u | u in s.pcs && u != t ensures !Accesses(s.pcs[u], i) { assert Alone(s, t, u, i); }
  }

  lemma NobodyAt(s: State, i: nat)
    requires Inv(s) && i < |s.slots| && !Closed(s.slots[i])
    ensures Resting(s, i) && forall u | u in s.pcs :: !Accesses(s.pcs[u], i)
  {
    forall u | u in s.pcs ensures !Accesses(s.pcs[u], i) { if Accesses(s.pcs[u], i) { OpenUnattended(s, i, u); } }
    assert !Attended(s, i);
  }

  lemma StartInv(s: State, t: Tid, a: Act)
    requires Inv(s) && t in s.pcs && s.pcs[t].Idle?
    ensures Inv(StartStep(s, t, a))
  {
    var s' := StartStep(s, t, a);
    if s' != s {
      match a
      case StartPush(i, _, _, _) => NobodyAt(s, i); hide Inv; LocalInv(s, s', t, i);
      case StartPop(i, _) => NobodyAt(s, i); hide Inv; LocalInv(s, s', t, i);
      case StartPurge(i) => PurgeStart(s, t, i);
      case Use(seg, committed) => UseInv(s, t, seg, committed);
    }
  }

  lemma PurgeStart(s: State, t: Tid, i: nat)
    requires Inv(s) && t in s.pcs && s.pcs[t].Idle? && i < |s.slots|
    ensures Inv(s.(pcs := s.pcs[t := PurgeClaim(i)]))
  {
    var s' := s.(pcs := s.pcs[t := PurgeClaim(i)]);
    SameAccess(s, s', t);
  }

  // Threads may move on without touching anything.
  lemma SameAccess(s: State, s': State, t: Tid)
    requires Inv(s) && t in s.pcs && t in s'.pcs && s' == s.(pcs := s.pcs[t := s'.pcs[t]])
    requires (forall i: nat :: Accesses(s'.pcs[t], i) <==> Accesses(s.pcs[t], i)) && PcOk(s', t, s'.pcs[t])
    ensures Inv(s')
  {
    forall u | u in s'.pcs ensures PcOk(s', u, s'.pcs[u]) {
      if u != t { assert PcOk(s, u, s.pcs[u]); SamePc(s, s', u, s.pcs[u]); }
    }
    hide PcOk;
    forall u, w, j: nat | u in s'.pcs && w in s'.pcs
      ensures Alone(s', u, w, j)
    {
      assert u in s.pcs && w in s.pcs && Alone(s, u, w, j);
    }
    forall j: nat | j < |s'.slots| ensures Attended(s', j) || Resting(s', j) {
      if Attended(s, j) {
        var u :| u in s.pcs && Accesses(s.pcs[u], j);
        assert u in s'.pcs && Accesses(s'.pcs[u], j);
      } else {
        assert Resting(s, j);
      }
    }
  }

  lemma SamePc(s: State, s': State, u: Tid, pc: Pc)
    requires PcOk(s, u, pc) && s'.slots == s.slots && s'.place == s.place && s'.memory == s.memory
    ensures PcOk(s', u, pc)
  {}

  lemma UseInv(s: State, t: Tid, seg: Seg, committed: set<nat>)
    requires Inv(s) && t in s.pcs && s.pcs[t].Idle? && seg in s.place && s.place[seg] == With(t)
    ensures Inv(s.(memory := s.memory[seg := committed]))
  {
    var s' := s.(memory := s.memory[seg := committed]);
    forall u | u in s'.pcs ensures PcOk(s', u, s'.pcs[u]) {
      assert PcOk(s, u, s.pcs[u]);
      if u != t { UsePc(s, s', t, seg, committed, u, s.pcs[u]); }
    }
    hide PcOk;
    forall u, w, j: nat | u in s'.pcs && w in s'.pcs ensures Alone(s', u, w, j) { assert Alone(s, u, w, j); }
    forall j: nat | j < |s'.slots| ensures Attended(s', j) || Resting(s', j) {
      assert Attended(s, j) ==> Attended(s', j);
      assert Resting(s, j) ==> Resting(s', j);
    }
  }

  lemma UsePc(s: State, s': State, t: Tid, seg: Seg, committed: set<nat>, u: Tid, pc: Pc)
    requires PcOk(s, u, pc) && u != t && seg in s.place && s.place[seg] == With(t)
    requires s' == s.(memory := s.memory[seg := committed])
    ensures PcOk(s', u, pc)
  {}

  lemma PushInv(s: State, t: Tid, a: Act)
    requires Inv(s) && t in s.pcs && (s.pcs[t].PushWrite? || s.pcs[t].PushExpire? || s.pcs[t].PushOpen?)
    ensures Inv(PushStep(s, t, a))
  {
    var i, s' := s.pcs[t].i, PushStep(s, t, a);
    AloneAt(s, t, i);
    hide Inv;
    if s' != s { LocalInv(s, s', t, i); }
  }

  lemma PopInv(s: State, t: Tid)
    requires Inv(s) && t in s.pcs && (s.pcs[t].PopRead? || s.pcs[t].PopClear? || s.pcs[t].PopFree?)
    ensures Inv(PopStep(s, t))
  {
    var i, s' := s.pcs[t].i, PopStep(s, t);
    AloneAt(s, t, i);
    hide Inv;
    if s' != s { LocalInv(s, s', t, i); }
  }

  lemma PurgeInv(s: State, t: Tid, a: Act)
    requires Inv(s) && t in s.pcs
      && (s.pcs[t].PurgeCheck? || s.pcs[t].PurgeMark? || s.pcs[t].PurgeDecommit? || s.pcs[t].PurgeOpen?)
    ensures Inv(PurgeStep(s, t, a))
  {
    var i, s' := s.pcs[t].i, PurgeStep(s, t, a);
    AloneAt(s, t, i);
    hide Inv;
    if s' != s { LocalInv(s, s', t, i); }
  }

  lemma PurgeClaimInv(s: State, t: Tid, a: Act)
    requires Inv(s) && t in s.pcs && s.pcs[t].PurgeClaim?
    ensures Inv(PurgeStep(s, t, a))
  {
    var i, s' := s.pcs[t].i, PurgeStep(s, t, a);
    assert PcOk(s, t, s.pcs[t]);
    if s.slots[i].available {
      assert s'.slots == s.slots;
      SameAccess(s, s', t);
    } else {
      NobodyAt(s, i);
      hide Inv;
      LocalInv(s, s', t, i);
    }
  }

  lemma StepInv(s: State, t: Tid, a: Act)
    requires Inv(s) && t in s.pcs
    ensures Inv(Step(s, t, a))
  {
    hide Inv, StartStep, PushStep, PopStep, PurgeStep;
    var pc := s.pcs[t];
    if pc.Idle? { StartInv(s, t, a); }
    else if pc.PushWrite? || pc.PushExpire? || pc.PushOpen? { PushInv(s, t, a); }
    else if pc.PopRead? || pc.PopClear? || pc.PopFree? { PopInv(s, t); }
    else if pc.PurgeClaim? { PurgeClaimInv(s, t, a); }
    else { PurgeInv(s, t, a); }
  }

  // ---- runs

  // Every slot is free, every segment is with a thread, and nothing is going on.
  ghost predicate Init(s: State) {
    && (forall i | 0 <= i < |s.slots| :: s.slots[i] == Slot(true, true, false, None, {}, {}, false))
    && (forall t | t in s.pcs :: s.pcs[t].Idle?)
  }

  type Schedule = seq<(Tid, Act)>

  ghost function Run(s: State, steps: Schedule): State {
    if steps == [] then s
    else
      var before := Run(s, steps[..|steps| - 1]);
      var (t, a) := steps[|steps| - 1];
      if t in before.pcs then Step(before, t, a) else before
  }

  lemma {:induction false} RunInv(s: State, steps: Schedule)
    requires Init(s)
    ensures Inv(Run(s, steps))
    decreases |steps|
  {
    hide Step;
    if steps == [] {
      forall t | t in s.pcs ensures PcOk(s, t, s.pcs[t]) {}
    } else {
      hide Inv;
      RunInv(s, steps[..|steps| - 1]);
      var before := Run(s, steps[..|steps| - 1]);
      var (t, a) := steps[|steps| - 1];
      if t in before.pcs { StepInv(before, t, a); }
    }
  }

  // Two threads never touch the fields of one slot, and a slot free in `inuse` is not available.
  lemma SlotExclusive(s: State, steps: Schedule, r: State, i: nat)
    requires Init(s) && r == Run(s, steps) && i < |r.slots|
    ensures forall t, u | t in r.pcs && u in r.pcs && Accesses(r.pcs[t], i) && Accesses(r.pcs[u], i) :: t == u
    ensures !r.slots[i].inuse ==> r.slots[i].available && r.slots[i].availableLarge && r.slots[i].p.None?
    ensures !r.slots[i].available || !r.slots[i].availableLarge ==>
      r.slots[i].inuse && forall t | t in r.pcs :: !Accesses(r.pcs[t], i)
  {
    RunInv(s, steps);
    hide Run;
    forall t, u | t in r.pcs && u in r.pcs && Accesses(r.pcs[t], i) && Accesses(r.pcs[u], i)
      ensures t == u
    {
      assert Alone(r, t, u, i);
    }
    if !Closed(r.slots[i]) { NobodyAt(r, i); }
  }

  // A segment is popped from the one slot it rests in, into the hands of one thread; its commit mask tells
  // exactly what is committed. So a push is answered by at most one pop.
  lemma PopTakesOwn(s: State, steps: Schedule, r: State, t: Tid)
    requires Init(s) && r == Run(s, steps) && t in r.pcs && r.pcs[t].PopRead?
    ensures var i := r.pcs[t].i;
      i < |r.slots| && r.slots[i].p.Some? && r.slots[i].p.value in r.place && r.place[r.slots[i].p.value] == InSlot(i)
    ensures var i, r' := r.pcs[t].i, Step(r, t, Go(false, false, false));
      r'.pcs[t].PopClear? && r'.pcs[t].item.seg == r.slots[i].p.value && Taken(r', t, r'.pcs[t].item)
    ensures forall j | 0 <= j < |r.slots| && j != r.pcs[t].i && Filled(r, j) :: r.slots[j].p != r.slots[r.pcs[t].i].p
  {
    RunInv(s, steps);
    hide Run;
    assert PcOk(r, t, r.pcs[t]);
  }

  // A purge decommits only a segment resting in its slot, never one that a popper holds; what it gives back
  // to the OS was committed, and not large.
  lemma PurgeOnlyResting(s: State, steps: Schedule, r: State, t: Tid)
    requires Init(s) && r == Run(s, steps) && t in r.pcs && (r.pcs[t].PurgeMark? || r.pcs[t].PurgeDecommit?)
    ensures var i := r.pcs[t].i; i < |r.slots| && r.slots[i].availableLarge && r.slots[i].commit != {} && Filled(r, i)
    ensures forall u | u in r.pcs && (r.pcs[u].PopRead? || r.pcs[u].PopClear? || r.pcs[u].PopFree?) ::
      r.pcs[u].i != r.pcs[t].i
    ensures forall u | u in r.pcs && (r.pcs[u].PopClear? || r.pcs[u].PopFree?) ::
      r.slots[r.pcs[t].i].p != Some(r.pcs[u].item.seg)
  {
    RunInv(s, steps);
    hide Run;
    assert PcOk(r, t, r.pcs[t]);
    AloneAt(r, t, r.pcs[t].i);
    forall u | u in r.pcs && (r.pcs[u].PopClear? || r.pcs[u].PopFree?)
      ensures r.slots[r.pcs[t].i].p != Some(r.pcs[u].item.seg)
    {
      assert PcOk(r, u, r.pcs[u]);
    }
  }
}
