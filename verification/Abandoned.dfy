// The abandoned segment list: a tagged stack with a reader count, next to a list of visited
// segments that moves back onto it (segment.c). One step for each atomic operation.
module Abandoned {
  import opened Base

  type Tid = nat
  // A segment's address.
  type Seg = nat

  // A tagged segment pointer; tags grow without bound here.
  datatype Tagged = Tagged(ptr: Option<Seg>, tag: nat)

  // Where a segment is: the bookkeeping of the proof, not a field of the program.
  datatype Place = Unmapped | Owned(owner: Tid) | InAbandoned | InVisited | InBatch(mover: Tid)

  // Program counters, named after the atomic operation that comes next.
  datatype Pc =
    | Idle
    // mi_abandoned_push
    | PushStore(seg: Seg, ts: Tagged)
    | PushCas(seg: Seg, ts: Tagged)
    // mi_abandoned_visited_push
    | VisitStore(seg: Seg, anext: Option<Seg>)
    | VisitCas(seg: Seg, anext: Option<Seg>)
    // mi_abandoned_pop; PopLook when it saw no abandoned segment, and looks for visited ones
    | PopLook
    | PopEnter
    | PopLoad
    | PopRead(ts: Tagged)
    | PopCas(ts: Tagged, anext: Option<Seg>)
    | PopLeave(got: Option<Seg>)
    | PopClear(seg: Seg)
    // mi_abandoned_visited_revisit; `pop` when a pop goes on after it
    | RvTake(pop: bool)
    | RvLook(pop: bool, first: Seg)
    | RvSwap(pop: bool, first: Seg, ts: Tagged)
    | RvTail(pop: bool, first: Seg, last: Seg)
    | RvLoad(pop: bool, first: Seg, last: Seg)
    | RvStore(pop: bool, first: Seg, last: Seg, ts: Tagged)
    | RvCas(pop: bool, first: Seg, last: Seg, ts: Tagged)
    // _mi_abandoned_await_readers, before a segment's memory goes away
    | Await(seg: Seg)
    | Awaited(seg: Seg)

  // What a thread does next: start an operation, go on, or see its weak compare-and-swap fail.
  datatype Act =
    | StartPush(x: Seg)
    | StartVisit(x: Seg)
    | StartPop
    | StartRevisit
    | StartAwait(x: Seg)
    | Map(x: Seg)
    | Pass(x: Seg, to: Tid)
    | Go
    | Spurious

  datatype State = State(
    abandoned: Tagged,
    visited: Option<Seg>,
    readers: nat,
    next: map<Seg, Option<Seg>>,      // abandoned_next
    pcs: map<Tid, Pc>,
    loc: map<Seg, Place>,
    alist: seq<Seg>,                  // the abandoned list, the visited list and the lists that
    vlist: seq<Seg>,                  // revisiting threads have detached, from first to last
    batch: map<Tid, seq<Seg>>)

  function Head(s: seq<Seg>): Option<Seg> { if s == [] then None else Some(s[0]) }

  // ---- steps of a thread that is between operations

  function Owns(s: State, t: Tid, x: Seg): bool { x in s.loc && s.loc[x] == Owned(t) }

  function StartStep(s: State, t: Tid, a: Act): State
    requires t in s.pcs
  {
    match a
    case StartPush(x) => if Owns(s, t, x) then s.(pcs := s.pcs[t := PushStore(x, s.abandoned)]) else s
    case StartVisit(x) => if Owns(s, t, x) then s.(pcs := s.pcs[t := VisitStore(x, s.visited)]) else s
    case StartPop => s.(pcs := s.pcs[t := if s.abandoned.ptr.Some? then PopEnter else PopLook])
    case StartRevisit => if s.visited.None? then s else s.(pcs := s.pcs[t := RvTake(false)])
    case StartAwait(x) => if Owns(s, t, x) then s.(pcs := s.pcs[t := Await(x)]) else s
    // fresh memory for a segment, possibly at an address used before
    case Map(x) =>
      if x in s.loc && s.loc[x].Unmapped? then s.(loc := s.loc[x := Owned(t)], next := s.next[x := None]) else s
    // the segment goes to another thread, for instance through the segment cache
    case Pass(x, u) => if Owns(s, t, x) && u in s.pcs then s.(loc := s.loc[x := Owned(u)]) else s
    case _ => s
  }

  // ---- steps inside an operation; `fails` makes a weak compare-and-swap fail spuriously

  function PushStep(s: State, t: Tid, fails: bool): State
    requires t in s.pcs
  {
    match s.pcs[t]
    case PushStore(x, ts) => s.(next := s.next[x := ts.ptr], pcs := s.pcs[t := PushCas(x, ts)])
    case PushCas(x, ts) =>
      if s.abandoned == ts && !fails then
        s.(abandoned := Tagged(Some(x), ts.tag + 1), pcs := s.pcs[t := Idle],
           alist := [x] + s.alist, loc := s.loc[x := InAbandoned])
      else s.(pcs := s.pcs[t := PushStore(x, s.abandoned)])
    case VisitStore(x, a) => s.(next := s.next[x := a], pcs := s.pcs[t := VisitCas(x, a)])
    case VisitCas(x, a) =>
      if s.visited == a && !fails then
        s.(visited := Some(x), pcs := s.pcs[t := Idle], vlist := [x] + s.vlist, loc := s.loc[x := InVisited])
      else s.(pcs := s.pcs[t := VisitStore(x, s.visited)])
    case _ => s
  }

  function PopStep(s: State, t: Tid, fails: bool): State
    requires t in s.pcs
  {
    match s.pcs[t]
    case PopLook => s.(pcs := s.pcs[t := if s.visited.None? then Idle else RvTake(true)])
    case PopEnter => s.(readers := s.readers + 1, pcs := s.pcs[t := PopLoad])
    case PopLoad => s.(pcs := s.pcs[t := Loaded(s.abandoned)])
    case PopRead(ts) =>
      if ts.ptr.Some? && ts.ptr.value in s.next then s.(pcs := s.pcs[t := PopCas(ts, s.next[ts.ptr.value])]) else s
    case PopCas(ts, a) =>
      if s.abandoned == ts && !fails && ts.ptr.Some? && s.alist != [] then
        s.(abandoned := Tagged(a, ts.tag + 1), pcs := s.pcs[t := PopLeave(ts.ptr)],
           alist := s.alist[1..], loc := s.loc[ts.ptr.value := Owned(t)])
      else s.(pcs := s.pcs[t := Loaded(s.abandoned)])
    case PopLeave(got) =>
      s.(readers := if s.readers > 0 then s.readers - 1 else 0,
         pcs := s.pcs[t := if got.Some? then PopClear(got.value) else Idle])
    case PopClear(x) => s.(next := s.next[x := None], pcs := s.pcs[t := Idle])
    case _ => s
  }

  // After loading the head of the list: read its link, or leave empty-handed.
  function Loaded(ts: Tagged): Pc { if ts.ptr.Some? then PopRead(ts) else PopLeave(None) }

  function Revisited(pop: bool): Pc { if pop then PopEnter else Idle }

  function RevisitStep(s: State, t: Tid, fails: bool): State
    requires t in s.pcs
  {
    match s.pcs[t]
    case RvTake(pop) =>
      if s.visited.None? then s.(pcs := s.pcs[t := Idle])
      else s.(visited := None, pcs := s.pcs[t := RvLook(pop, s.visited.value)], vlist := [],
              batch := s.batch[t := s.vlist], loc := MoveAll(s.loc, s.vlist, InBatch(t)))
    case RvLook(pop, first) =>
      if s.abandoned.ptr.None? then s.(pcs := s.pcs[t := RvSwap(pop, first, s.abandoned)])
      else s.(pcs := s.pcs[t := RvTail(pop, first, first)])
    // a strong compare-and-swap
    case RvSwap(pop, first, ts) =>
      if s.abandoned == ts then Join(s, t, pop, first, ts)
      else s.(pcs := s.pcs[t := RvTail(pop, first, first)])
    case RvTail(pop, first, last) =>
      if last in s.next && s.next[last].Some? then s.(pcs := s.pcs[t := RvTail(pop, first, s.next[last].value)])
      else s.(pcs := s.pcs[t := RvLoad(pop, first, last)])
    case RvLoad(pop, first, last) => s.(pcs := s.pcs[t := RvStore(pop, first, last, s.abandoned)])
    case RvStore(pop, first, last, ts) =>
      s.(next := s.next[last := ts.ptr], pcs := s.pcs[t := RvCas(pop, first, last, ts)])
    case RvCas(pop, first, last, ts) =>
      if s.abandoned == ts && !fails then Join(s, t, pop, first, ts)
      else s.(pcs := s.pcs[t := RvStore(pop, first, last, s.abandoned)])
    case _ => s
  }

  // The detached list goes in front of the abandoned list.
  function Join(s: State, t: Tid, pop: bool, first: Seg, ts: Tagged): State {
    var moved := if t in s.batch then s.batch[t] else [];
    s.(abandoned := Tagged(Some(first), ts.tag + 1), pcs := s.pcs[t := Revisited(pop)],
       alist := moved + s.alist, batch := s.batch[t := []], loc := MoveAll(s.loc, moved, InAbandoned))
  }

  function MoveAll(loc: map<Seg, Place>, moved: seq<Seg>, p: Place): map<Seg, Place> {
    map x | x in loc :: if x in moved then p else loc[x]
  }

  function AwaitStep(s: State, t: Tid): State
    requires t in s.pcs
  {
    match s.pcs[t]
    case Await(x) => if s.readers == 0 then s.(pcs := s.pcs[t := Awaited(x)]) else s
    case Awaited(x) => s.(loc := s.loc[x := Unmapped], pcs := s.pcs[t := Idle])
    case _ => s
  }

  function Step(s: State, t: Tid, a: Act): State
    requires t in s.pcs
  {
    var fails := a.Spurious?;
    match s.pcs[t]
    case Idle => StartStep(s, t, a)
    case PushStore(_, _) => PushStep(s, t, fails)
    case PushCas(_, _) => PushStep(s, t, fails)
    case VisitStore(_, _) => PushStep(s, t, fails)
    case VisitCas(_, _) => PushStep(s, t, fails)
    case Await(_) => AwaitStep(s, t)
    case Awaited(_) => AwaitStep(s, t)
    case PopLook => PopStep(s, t, fails)
    case PopEnter => PopStep(s, t, fails)
    case PopLoad => PopStep(s, t, fails)
    case PopRead(_) => PopStep(s, t, fails)
    case PopCas(_, _) => PopStep(s, t, fails)
    case PopLeave(_) => PopStep(s, t, fails)
    case PopClear(_) => PopStep(s, t, fails)
    case _ => RevisitStep(s, t, fails)
  }

  // Every segment is unmapped or owned by some thread, and nothing is going on.
  ghost predicate Init(s: State) {
    && s.abandoned == Tagged(None, 0) && s.visited.None? && s.readers == 0
    && s.next.Keys == s.loc.Keys && s.batch.Keys == s.pcs.Keys && s.alist == [] && s.vlist == []
    && (forall t | t in s.pcs :: s.pcs[t].Idle? && s.batch[t] == [])
    && (forall x | x in s.loc ::
         s.next[x].None? && (s.loc[x].Unmapped? || (s.loc[x].Owned? && s.loc[x].owner in s.pcs)))
  }

  // ---- runs

  type Schedule = seq<(Tid, Act)>

  ghost function Run(s: State, steps: Schedule): State
    decreases |steps|
  {
    if steps == [] then s
    else
      var before := Run(s, steps[..|steps| - 1]);
      var (t, a) := steps[|steps| - 1];
      if t in before.pcs then Step(before, t, a) else before
  }
}
