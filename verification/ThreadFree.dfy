// The cross-thread free protocol of a mimalloc page, as a transition system.
//
// A thread that frees a block of a page it does not own runs the atomic operations of
// `_mi_free_block_mt`; the owner of the page allocates, frees locally, collects the
// thread-free list, drains its heap's delayed list and finally abandons its pages.
// Every action below is one atomic operation together with the thread-local work next to it.
module ThreadFree {
  import opened Base

  type Tid = nat

  datatype Block = Block(page: nat, idx: nat)

  // The two flag bits packed into `xthread_free`.
  datatype Flag = UseDelayed | DelayedFreeing | NoDelayed | NeverDelayed

  // The packed word itself: what a compare-and-swap compares.
  datatype Word = Word(head: Option<Block>, flag: Flag)

  datatype Page = Page(
    capacity: nat,
    reserved: nat,
    used: int,
    free: seq<Block>,
    localFree: seq<Block>,
    threadFree: seq<Block>,
    flag: Flag,
    heap: Option<Tid>,   // xheap; a heap is named by the thread that owns it
    owner: Option<Tid>)  // the thread with exclusive access to the plain fields

  // A thread inside `_mi_free_block_mt`, named by the next atomic operation.
  datatype Freer =
    | Idle
    | Start(block: Block)
    | Loaded(block: Block, w: Word)
    | Claimed(block: Block)
    | HeapRead(block: Block, h: Option<Tid>)
    | ListRead(block: Block, heap: Tid, d: Option<Block>)
    | Pushed(block: Block)
    | ResetLoaded(block: Block, w: Word)

  // A multi-step operation the owner is in.
  datatype Op =
    | NoOp
    | Take(d: Option<Block>)
    | SetFlag(p: nat, to: Flag, override: bool)
    | SetFlagLoaded(p: nat, to: Flag, override: bool, w: Word)
    | Collect(p: nat, w: Word)
    | Append(p: nat, list: seq<Block>)

  datatype Phase =
    | Running
    | Marking(marked: set<nat>)  // abandoning: pages already set to NEVER
    | Draining(taken: bool)      // abandoning: draining the delayed list
    | Abandoning

  // `delayed` is the heap's thread_delayed_free list, `walk` the list taken over from it;
  // `past` says that walk[0] has already reset the flag of its page.
  datatype Owner = Owner(phase: Phase, op: Op, delayed: seq<Block>, walk: seq<Block>, past: bool)

  datatype Place =
    | Program
    | InFree
    | InLocal
    | InThread
    | Hand(t: Tid)
    | OnDelayed(h: Tid)
    | Drained(t: Tid)
    | Detached(t: Tid)

  // `next` is the memory of the link words inside blocks; `loc` is auxiliary: it records where
  // each block is, and the invariant ties it to the lists.
  datatype State = State(
    pages: map<nat, Page>,
    freers: map<Tid, Freer>,
    owners: map<Tid, Owner>,
    next: map<Block, Option<Block>>,
    loc: map<Block, Place>)
  {
    function FreerOf(t: Tid): Freer { FreerAt(freers, t) }

    function OwnerOf(t: Tid): Owner { OwnerAt(owners, t) }

    function SetFreer(t: Tid, f: Freer): State { this.(freers := freers[t := f]) }

    function SetOwner(t: Tid, o: Owner): State { this.(owners := owners[t := o]) }

    function SetPage(p: nat, pg: Page): State { this.(pages := pages[p := pg]) }

    function Move(b: Block, pl: Place): State { this.(loc := loc[b := pl]) }

    function MoveAll(l: seq<Block>, pl: Place): State {
      this.(loc := map b | b in loc :: if b in l then pl else loc[b])
    }

    function Link(b: Block, n: Option<Block>): State { this.(next := next[b := n]) }
  }

  function FreerAt(freers: map<Tid, Freer>, t: Tid): Freer { if t in freers then freers[t] else Idle }

  function OwnerAt(owners: map<Tid, Owner>, t: Tid): Owner {
    if t in owners then owners[t] else Owner(Running, NoOp, [], [], false)
  }

  function HeadOf(l: seq<Block>): Option<Block> { if l == [] then None else Some(l[0]) }

  function WordOf(pg: Page): Word { Word(HeadOf(pg.threadFree), pg.flag) }

  // The blocks a page gains when its capacity grows by n.
  function Fresh(p: nat, from: nat, n: nat): (r: seq<Block>)
    ensures |r| == n && forall i | 0 <= i < n :: r[i] == Block(p, from + i)
  {
    seq(n, i requires 0 <= i < n => Block(p, from + i))
  }

  function AddFree(loc: map<Block, Place>, blocks: seq<Block>): (r: map<Block, Place>)
    ensures forall b :: b in r <==> b in loc || b in blocks
    ensures forall b | b in r :: r[b] == if b in blocks then InFree else loc[b]
  {
    loc + map b | b in blocks :: InFree
  }

  // Each block of a fresh sequential free list links to the one after it.
  function LinkFresh(next: map<Block, Option<Block>>, blocks: seq<Block>, end: nat): map<Block, Option<Block>> {
    next + map b: Block | b in blocks :: if b.idx + 1 < end then Some(Block(b.page, b.idx + 1)) else None
  }

  // ---- actions of a freeing thread (alloc.c, `_mi_free_block_mt`)

  datatype Action =
    | FreeStart(b: Block)
    | FreeLoad
    | FreeCas
    | FreeRetry
    | ReadHeap
    | ReadList
    | ListCas
    | ListRetry
    | ResetLoad
    | ResetCas
    | ResetRetry
    // ---- actions of an owner (alloc.c, page.c, heap.c)
    | NewPage(p: nat, reserved: nat)
    | Extend(p: nat, n: nat)
    | Malloc(p: nat)
    | LocalFree(b: Block)
    | CollectLocal(p: nat, force: bool)
    | CollectLoad(p: nat)
    | CollectCas
    | CollectAppend
    | TakeLoad
    | TakeCas
    | TakeRetry
    | WalkFlag
    | SetFlagLoad
    | SetFlagCas
    | SetFlagRetry
    | WalkFree
    | FreePage(p: nat)
    | BeginAbandon
    | Mark(p: nat)
    | EndMark
    | EndDrain
    | AbandonPage(p: nat)
    | EndAbandon
    | Adopt(p: nat)
    | Disown(p: nat)
    | Reclaim(p: nat)

  ghost predicate FreerStep(s: State, t: Tid, a: Action, s': State) {
    var f := s.FreerOf(t);
    match a
    case FreeStart(b) =>
      // any thread may free any block the program holds
      && f == Idle && b in s.loc && s.loc[b] == Program
      && s' == s.Move(b, Hand(t)).SetFreer(t, Start(b))
    case FreeLoad =>
      && f.Start? && f.block.page in s.pages
      && s' == s.SetFreer(t, Loaded(f.block, WordOf(s.pages[f.block.page])))
    case FreeCas =>
      && f.Loaded? && f.block.page in s.pages
      && var b, p := f.block, f.block.page;
      && var pg := s.pages[p];
      && f.w == WordOf(pg)
      && s' == if f.w.flag == UseDelayed
               then s.SetPage(p, pg.(flag := DelayedFreeing)).SetFreer(t, Claimed(b))
               else s.Link(b, f.w.head).SetPage(p, pg.(threadFree := [b] + pg.threadFree))
                    .Move(b, InThread).SetFreer(t, Idle)
    case FreeRetry =>
      // a weak compare-and-swap may fail for any reason; it reloads the word
      && f.Loaded? && f.block.page in s.pages
      && s' == s.SetFreer(t, Loaded(f.block, WordOf(s.pages[f.block.page])))
    case ReadHeap =>
      && f.Claimed? && f.block.page in s.pages
      && s' == s.SetFreer(t, HeapRead(f.block, s.pages[f.block.page].heap))
    case ReadList =>
      // with a null heap the push is skipped
      && f.HeapRead?
      && s' == if f.h == None then s.SetFreer(t, Pushed(f.block))
               else s.SetFreer(t, ListRead(f.block, f.h.value, HeadOf(s.OwnerOf(f.h.value).delayed)))
    case ListCas =>
      && f.ListRead?
      && var b, o := f.block, s.OwnerOf(f.heap);
      && f.d == HeadOf(o.delayed)
      && s' == s.Link(b, f.d).SetOwner(f.heap, o.(delayed := [b] + o.delayed))
               .Move(b, OnDelayed(f.heap)).SetFreer(t, Pushed(b))
    case ListRetry =>
      && f.ListRead?
      && s' == s.SetFreer(t, f.(d := HeadOf(s.OwnerOf(f.heap).delayed)))
    case ResetLoad =>
      && f.Pushed? && f.block.page in s.pages
      && s' == s.SetFreer(t, ResetLoaded(f.block, WordOf(s.pages[f.block.page])))
    case ResetCas =>
      && f.ResetLoaded? && f.block.page in s.pages
      && var p := f.block.page;
      && f.w == WordOf(s.pages[p])
      && s' == s.SetPage(p, s.pages[p].(flag := NoDelayed)).SetFreer(t, Idle)
    case ResetRetry =>
      && f.ResetLoaded? && f.block.page in s.pages
      && s' == s.SetFreer(t, ResetLoaded(f.block, WordOf(s.pages[f.block.page])))
    case _ => false
  }

  // ---- actions of an owner

  predicate Calm(o: Owner) { o.phase == Running && o.op == NoOp && o.walk == [] }

  predicate Owned(pages: map<nat, Page>, t: Tid, p: nat) {
    p in pages && pages[p].owner == Some(t) && pages[p].heap == Some(t)
  }

  // What happens when `_mi_page_use_delayed_free` returns for page p.
  function FlagDone(o: Owner, p: nat): Owner {
    var o1 := o.(op := NoOp, past := o.walk != []);
    if o.phase.Marking? then o1.(phase := Marking(o.phase.marked + {p})) else o1
  }

  // Allocation and local frees: plain fields of an owned page.
  ghost predicate LocalStep(s: State, t: Tid, a: Action, s': State) {
    var o := s.OwnerOf(t);
    match a
    case NewPage(p, reserved) =>
      && Calm(o) && p !in s.pages
      && s' == s.SetPage(p, Page(0, reserved, 0, [], [], [], UseDelayed, Some(t), Some(t)))
    case Extend(p, n) =>
      && Calm(o) && Owned(s.pages, t, p)
      && var pg := s.pages[p];
      && pg.free == [] && 0 < n && pg.capacity + n <= pg.reserved
      && var blocks := Fresh(p, pg.capacity, n);
      && s' == s.SetPage(p, pg.(capacity := pg.capacity + n, free := blocks))
               .(loc := AddFree(s.loc, blocks), next := LinkFresh(s.next, blocks, pg.capacity + n))
    case Malloc(p) =>
      && Calm(o) && Owned(s.pages, t, p)
      && var pg := s.pages[p];
      && pg.free != []
      && s' == s.SetPage(p, pg.(free := pg.free[1..], used := pg.used + 1)).Move(pg.free[0], Program)
    case LocalFree(b) =>
      && Calm(o) && b in s.loc && s.loc[b] == Program && Owned(s.pages, t, b.page)
      && s' == PushLocal(s, b)
    case CollectLocal(p, force) =>
      && o.op == NoOp && p in s.pages && s.pages[p].owner == Some(t)
      && var pg := s.pages[p];
      && pg.localFree != [] && (pg.free == [] || force)
      && s' == s.SetPage(p, pg.(free := pg.localFree + pg.free, localFree := []))
               .MoveAll(pg.localFree, InFree)
               .Link(pg.localFree[|pg.localFree| - 1], HeadOf(pg.free))
    case FreePage(p) =>
      && o.op == NoOp && !o.phase.Marking? && (o.walk == [] || !o.past)
      && p in s.pages && s.pages[p].owner == Some(t) && s.pages[p].used == 0
      && s' == s.(pages := s.pages - {p}, loc := map b | b in s.loc && b.page != p :: s.loc[b])
    case _ => false
  }

  // Taking over the thread-free list of a page and the delayed list of the heap.
  ghost predicate CollectStep(s: State, t: Tid, a: Action, s': State) {
    var o := s.OwnerOf(t);
    match a
    case CollectLoad(p) =>
      && o.op == NoOp && (o.walk == [] || o.past) && p in s.pages && s.pages[p].owner == Some(t)
      && s' == s.SetOwner(t, o.(op := Collect(p, WordOf(s.pages[p]))))
    case CollectCas =>
      && o.op.Collect? && o.op.p in s.pages
      && var p := o.op.p;
      && var pg := s.pages[p];
      && s' == if o.op.w != WordOf(pg) then s.SetOwner(t, o.(op := Collect(p, WordOf(pg))))
               else if pg.threadFree == [] then s.SetOwner(t, o.(op := NoOp))
               else s.SetPage(p, pg.(threadFree := [])).MoveAll(pg.threadFree, Detached(t))
                    .SetOwner(t, o.(op := Append(p, pg.threadFree)))
    case CollectAppend =>
      // the tail of the detached list is found by walking it; the count is the number of steps
      && o.op.Append? && o.op.p in s.pages && o.op.list != []
      && var p, list := o.op.p, o.op.list;
      && var pg := s.pages[p];
      && s' == s.SetPage(p, pg.(localFree := list + pg.localFree, used := pg.used - |list|))
               .MoveAll(list, InLocal)
               .Link(list[|list| - 1], HeadOf(pg.localFree))
               .SetOwner(t, o.(op := NoOp))
    case TakeLoad =>
      && o.op == NoOp && o.walk == [] && (o.phase == Running || o.phase == Draining(false))
      && s' == if o.delayed != [] then s.SetOwner(t, o.(op := Take(HeadOf(o.delayed))))
               else if o.phase == Running then s
               else s.SetOwner(t, o.(phase := Draining(true)))
    case TakeCas =>
      && o.op.Take? && o.op.d == HeadOf(o.delayed)
      && s' == s.MoveAll(o.delayed, Drained(t))
               .SetOwner(t, Owner(if o.phase == Running then Running else Draining(true), NoOp, [], o.delayed, false))
    case TakeRetry =>
      && o.op.Take?
      && s' == s.SetOwner(t, o.(op := Take(HeadOf(o.delayed))))
    case WalkFree =>
      && o.op == NoOp && o.walk != [] && o.past && o.walk[0].page in s.pages
      && s' == PushLocal(s, o.walk[0]).SetOwner(t, o.(walk := o.walk[1..], past := false))
    case _ => false
  }

  // `_mi_page_use_delayed_free`.
  ghost predicate FlagStep(s: State, t: Tid, a: Action, s': State) {
    var o := s.OwnerOf(t);
    match a
    case WalkFlag =>
      && o.op == NoOp && o.walk != [] && !o.past
      && s' == s.SetOwner(t, o.(op := SetFlag(o.walk[0].page, UseDelayed, false)))
    case SetFlagLoad =>
      && o.op.SetFlag? && o.op.p in s.pages
      && var p, flag := o.op.p, s.pages[o.op.p].flag;
      && s' == if flag == DelayedFreeing then s   // yield and try again
               else if o.op.to == flag || (!o.op.override && flag == NeverDelayed)
               then s.SetOwner(t, FlagDone(o, p))
               else s.SetOwner(t, o.(op := SetFlagLoaded(p, o.op.to, o.op.override, WordOf(s.pages[p]))))
    case SetFlagCas =>
      && o.op.SetFlagLoaded? && o.op.p in s.pages
      && var p := o.op.p;
      && o.op.w == WordOf(s.pages[p])
      && s' == s.SetPage(p, s.pages[p].(flag := o.op.to)).SetOwner(t, FlagDone(o, p))
    case SetFlagRetry =>
      && o.op.SetFlagLoaded?
      && s' == s.SetOwner(t, o.(op := SetFlag(o.op.p, o.op.to, o.op.override)))
    case _ => false
  }

  // Abandoning a heap, and handing abandoned pages over.
  ghost predicate PhaseStep(s: State, t: Tid, a: Action, s': State) {
    var o := s.OwnerOf(t);
    match a
    case BeginAbandon =>
      && Calm(o)
      && s' == s.SetOwner(t, o.(phase := Marking({})))
    case Mark(p) =>
      && o.phase.Marking? && o.op == NoOp && Owned(s.pages, t, p) && p !in o.phase.marked
      && s' == s.SetOwner(t, o.(op := SetFlag(p, NeverDelayed, false)))
    case EndMark =>
      && o.phase.Marking? && o.op == NoOp
      && (forall p | Owned(s.pages, t, p) :: p in o.phase.marked)
      && s' == s.SetOwner(t, o.(phase := Draining(false)))
    case EndDrain =>
      && o.phase == Draining(true) && o.op == NoOp && o.walk == []
      && s' == s.SetOwner(t, o.(phase := Abandoning))
    case AbandonPage(p) =>
      && o.phase == Abandoning && o.op == NoOp && Owned(s.pages, t, p)
      && s' == s.SetPage(p, s.pages[p].(heap := None, owner := None))
    case EndAbandon =>
      && o.phase == Abandoning && o.op == NoOp && (forall p :: !Owned(s.pages, t, p))
      && s' == s.SetOwner(t, o.(phase := Running))
    case Adopt(p) =>
      // the abandoned segment of this page was popped
      && Calm(o) && p in s.pages && s.pages[p].owner == None
      && s' == s.SetPage(p, s.pages[p].(owner := Some(t)))
    case Disown(p) =>
      && o.op == NoOp && p in s.pages && s.pages[p].owner == Some(t) && s.pages[p].heap == None
      && s' == s.SetPage(p, s.pages[p].(owner := None))
    case Reclaim(p) =>
      && Calm(o) && p in s.pages && s.pages[p].owner == Some(t) && s.pages[p].heap == None
      && s' == s.SetPage(p, s.pages[p].(heap := Some(t))).SetOwner(t, o.(op := SetFlag(p, UseDelayed, true)))
    case _ => false
  }

  ghost predicate OwnerStep(s: State, t: Tid, a: Action, s': State) {
    LocalStep(s, t, a, s') || CollectStep(s, t, a, s') || FlagStep(s, t, a, s') || PhaseStep(s, t, a, s')
  }

  // Push a block on the local free list of its page.
  function PushLocal(s: State, b: Block): State
    requires b.page in s.pages
  {
    var pg := s.pages[b.page];
    s.SetPage(b.page, pg.(localFree := [b] + pg.localFree, used := pg.used - 1))
     .Link(b, HeadOf(pg.localFree)).Move(b, InLocal)
  }

  ghost predicate Init(s: State) {
    s == State(map[], map[], map[], map[], map[])
  }

  ghost predicate Next(s: State, t: Tid, a: Action, s': State) {
    FreerStep(s, t, a, s') || OwnerStep(s, t, a, s')
  }
}
