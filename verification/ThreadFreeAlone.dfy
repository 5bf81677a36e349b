// What one operation of the cross-thread free protocol comes to when the other threads stand still (alloc.c, page.c).
module ThreadFreeAlone {
  import opened Base
  import opened ThreadFree
  import opened ThreadFreeInv
  import opened ThreadFreeRuns

  // Thread t gets from s to s' in n steps of its own.
  ghost predicate ReachesIn(s: State, t: Tid, s': State, n: nat)
    decreases n
  {
    if n == 0 then s == s' else exists a: Action, s1: State :: Next(s, t, a, s1) && ReachesIn(s1, t, s', n - 1)
  }

  ghost predicate Reaches(s: State, t: Tid, s': State) { exists n: nat :: ReachesIn(s, t, s', n) }

  lemma ReachesSelf(s: State, t: Tid)
    ensures Reaches(s, t, s)
  {
    assert ReachesIn(s, t, s, 0);
  }

  lemma ReachesNext(s: State, t: Tid, a: Action, s1: State, s': State)
    requires Next(s, t, a, s1) && Reaches(s1, t, s')
    ensures Reaches(s, t, s')
  {
    hide Next;
    var n: nat :| ReachesIn(s1, t, s', n);
    assert ReachesIn(s, t, s', n + 1);
  }

  lemma {:induction false} ReachesOn(s: State, t: Tid, s1: State, n: nat, s2: State)
    requires ReachesIn(s, t, s1, n) && Reaches(s1, t, s2)
    ensures Reaches(s, t, s2)
    decreases n
  {
    hide Next;
    if n > 0 {
      var a: Action, m: State :| Next(s, t, a, m) && ReachesIn(m, t, s1, n - 1);
      ReachesOn(m, t, s1, n - 1, s2);
      ReachesNext(s, t, a, m, s2);
    }
  }

  lemma ReachesTrans(s: State, t: Tid, s1: State, s2: State)
    requires Reaches(s, t, s1) && Reaches(s1, t, s2)
    ensures Reaches(s, t, s2)
  {
    var n: nat :| ReachesIn(s, t, s1, n);
    ReachesOn(s, t, s1, n, s2);
  }

  lemma {:induction false} ReachesGood(s: State, t: Tid, s': State, n: nat)
    requires Good(s) && ReachesIn(s, t, s', n)
    ensures Good(s')
    decreases n
  {
    hide Good, Next;
    if n > 0 {
      var a: Action, m: State :| Next(s, t, a, m) && ReachesIn(m, t, s', n - 1);
      StepLinks(s, t, a, m);
      ReachesGood(m, t, s', n - 1);
    }
  }

  lemma GoodOn(s: State, t: Tid, s': State)
    requires Good(s) && Reaches(s, t, s')
    ensures Good(s')
  {
    hide Good;
    var n: nat :| ReachesIn(s, t, s', n);
    ReachesGood(s, t, s', n);
  }

  lemma FreerNext(s: State, t: Tid, a: Action, s1: State, s': State)
    requires FreerStep(s, t, a, s1) && Reaches(s1, t, s')
    ensures Reaches(s, t, s')
  {
    hide FreerStep, OwnerStep;
    ReachesNext(s, t, a, s1, s');
  }

  // ---- a free from another thread

  // The block is first on the delayed list of the heap, and no other free of the page takes that path.
  function OnDelayedList(s: State, t: Tid, b: Block, h: Tid): State
    requires b.page in s.pages
  {
    var o := s.OwnerOf(h);
    s.Link(b, HeadOf(o.delayed)).SetOwner(h, o.(delayed := [b] + o.delayed)).Move(b, OnDelayed(h))
     .SetPage(b.page, s.pages[b.page].(flag := NoDelayed)).SetFreer(t, Idle)
  }

  // The block is first on the thread-free list of its page.
  function OnThreadList(s: State, t: Tid, b: Block): State
    requires b.page in s.pages
  {
    var pg := s.pages[b.page];
    s.Link(b, HeadOf(pg.threadFree)).SetPage(b.page, pg.(threadFree := [b] + pg.threadFree)).Move(b, InThread)
     .SetFreer(t, Idle)
  }

  lemma PushFrom(s: State, t: Tid, b: Block)
    requires s.FreerOf(t) == Idle && b in s.loc && s.loc[b] == Program && b.page in s.pages
    requires s.pages[b.page].flag != UseDelayed
    ensures Reaches(s, t, OnThreadList(s, t, b))
  {
    var pg := s.pages[b.page];
    var s1 := s.Move(b, Hand(t)).SetFreer(t, Start(b));
    var s2 := s.Move(b, Hand(t)).SetFreer(t, Loaded(b, WordOf(pg)));
    var s' := OnThreadList(s, t, b);
    assert FreerStep(s, t, FreeStart(b), s1);
    assert FreerStep(s1, t, FreeLoad, s2);
    assert FreerStep(s2, t, FreeCas, s');
    hide FreerStep, OnThreadList;
    ReachesSelf(s', t);
    FreerNext(s2, t, FreeCas, s', s');
    FreerNext(s1, t, FreeLoad, s2, s');
    FreerNext(s, t, FreeStart(b), s1, s');
  }

  lemma DelayFrom(s: State, t: Tid, b: Block, h: Tid)
    requires s.FreerOf(t) == Idle && b in s.loc && s.loc[b] == Program && b.page in s.pages
    requires s.pages[b.page].flag == UseDelayed && s.pages[b.page].heap == Some(h)
    ensures Reaches(s, t, OnDelayedList(s, t, b, h))
  {
    var pg := s.pages[b.page];
    var held := s.Move(b, Hand(t));
    var s1 := held.SetFreer(t, Start(b));
    var s2 := held.SetFreer(t, Loaded(b, WordOf(pg)));
    var s3 := held.SetPage(b.page, pg.(flag := DelayedFreeing)).SetFreer(t, Claimed(b));
    assert FreerStep(s, t, FreeStart(b), s1);
    assert FreerStep(s1, t, FreeLoad, s2);
    assert FreerStep(s2, t, FreeCas, s3);
    ClaimedFrom(s, t, b, h, s3);
    hide FreerStep, OnDelayedList;
    var s' := OnDelayedList(s, t, b, h);
    FreerNext(s2, t, FreeCas, s3, s');
    FreerNext(s1, t, FreeLoad, s2, s');
    FreerNext(s, t, FreeStart(b), s1, s');
  }

  lemma ClaimedFrom(s: State, t: Tid, b: Block, h: Tid, s3: State)
    requires b.page in s.pages && s.pages[b.page].heap == Some(h)
    requires s3 == s.Move(b, Hand(t)).SetPage(b.page, s.pages[b.page].(flag := DelayedFreeing)).SetFreer(t, Claimed(b))
    ensures Reaches(s3, t, OnDelayedList(s, t, b, h))
  {
    var o := s.OwnerOf(h);
    var s4 := s3.SetFreer(t, HeapRead(b, Some(h)));
    var s5 := s3.SetFreer(t, ListRead(b, h, HeadOf(o.delayed)));
    assert FreerStep(s3, t, ReadHeap, s4);
    assert FreerStep(s4, t, ReadList, s5);
    ListedFrom(s, t, b, h, s5);
    hide FreerStep, OnDelayedList;
    FreerNext(s4, t, ReadList, s5, OnDelayedList(s, t, b, h));
    FreerNext(s3, t, ReadHeap, s4, OnDelayedList(s, t, b, h));
  }

  lemma ListedFrom(s: State, t: Tid, b: Block, h: Tid, s5: State)
    requires b.page in s.pages && s.pages[b.page].heap == Some(h)
    requires s5 == s.Move(b, Hand(t)).SetPage(b.page, s.pages[b.page].(flag := DelayedFreeing))
                    .SetFreer(t, ListRead(b, h, HeadOf(s.OwnerOf(h).delayed)))
    ensures Reaches(s5, t, OnDelayedList(s, t, b, h))
  {
    var s' := OnDelayedList(s, t, b, h);
    var s6 := s'.SetPage(b.page, s.pages[b.page].(flag := DelayedFreeing)).SetFreer(t, Pushed(b));
    ListStep(s, t, b, h, s5, s6);
    IdleEnd(s, t, b, h);
    hide FreerStep, OnDelayedList;
    PushedFrom(s', t, b, s6);
    FreerNext(s5, t, ListCas, s6, s');
  }

  lemma IdleEnd(s: State, t: Tid, b: Block, h: Tid)
    requires b.page in s.pages
    ensures var s' := OnDelayedList(s, t, b, h);
      b.page in s'.pages && s'.pages[b.page].flag == NoDelayed && s' == s'.SetFreer(t, Idle)
  {}

  lemma ListStep(s: State, t: Tid, b: Block, h: Tid, s5: State, s6: State)
    requires b.page in s.pages
    requires s5 == s.Move(b, Hand(t)).SetPage(b.page, s.pages[b.page].(flag := DelayedFreeing))
                    .SetFreer(t, ListRead(b, h, HeadOf(s.OwnerOf(h).delayed)))
    requires s6 == OnDelayedList(s, t, b, h).SetPage(b.page, s.pages[b.page].(flag := DelayedFreeing))
                    .SetFreer(t, Pushed(b))
    ensures FreerStep(s5, t, ListCas, s6)
  {
    ListSame(s, t, b, h, s5, s6);
    hide OnDelayedList;
  }

  lemma ListSame(s: State, t: Tid, b: Block, h: Tid, s5: State, s6: State)
    requires b.page in s.pages
    requires s5 == s.Move(b, Hand(t)).SetPage(b.page, s.pages[b.page].(flag := DelayedFreeing))
                    .SetFreer(t, ListRead(b, h, HeadOf(s.OwnerOf(h).delayed)))
    requires s6 == OnDelayedList(s, t, b, h).SetPage(b.page, s.pages[b.page].(flag := DelayedFreeing))
                    .SetFreer(t, Pushed(b))
    ensures var o := s5.OwnerOf(h);
      s6 == s5.Link(b, HeadOf(o.delayed)).SetOwner(h, o.(delayed := [b] + o.delayed)).Move(b, OnDelayed(h))
               .SetFreer(t, Pushed(b))
    ensures s5.FreerOf(t) == ListRead(b, h, HeadOf(s5.OwnerOf(h).delayed))
  {
    var pg, d := s.pages[b.page], HeadOf(s.OwnerOf(h).delayed);
    SetTwice(s.loc, b, Hand(t), OnDelayed(h));
    SetTwice(s.pages, b.page, pg.(flag := NoDelayed), pg.(flag := DelayedFreeing));
    SetTwice(s.freers, t, ListRead(b, h, d), Pushed(b));
    SetTwice(s.freers, t, Idle, Pushed(b));
  }

  lemma SetTwice<K, V>(m: map<K, V>, k: K, a: V, b: V)
    ensures m[k := a][k := b] == m[k := b]
  {}

  // The flag is reset.
  lemma PushedFrom(s': State, t: Tid, b: Block, s6: State)
    requires b.page in s'.pages && s'.pages[b.page].flag == NoDelayed && s' == s'.SetFreer(t, Idle)
    requires s6 == s'.SetPage(b.page, s'.pages[b.page].(flag := DelayedFreeing)).SetFreer(t, Pushed(b))
    ensures Reaches(s6, t, s')
  {
    var pg := s6.pages[b.page];
    var s7 := s6.SetFreer(t, ResetLoaded(b, WordOf(pg)));
    assert FreerStep(s6, t, ResetLoad, s7);
    assert s'.pages == s6.pages[b.page := pg.(flag := NoDelayed)];
    assert FreerStep(s7, t, ResetCas, s');
    hide FreerStep;
    ReachesSelf(s', t);
    FreerNext(s7, t, ResetCas, s', s');
    FreerNext(s6, t, ResetLoad, s7, s');
  }

  // Run alone, a free of a block by another thread puts it first on its page's thread-free list; only where the flag
  // asks for it the block goes to the heap's delayed list, and the flag then says that one is there.
  lemma RemoteFree(s: State, t: Tid, b: Block)
    requires Inv(s) && s.FreerOf(t) == Idle && b in s.loc && s.loc[b] == Program
    ensures b.page in s.pages
    ensures if s.pages[b.page].flag == UseDelayed
            then s.pages[b.page].heap.Some? && Reaches(s, t, OnDelayedList(s, t, b, s.pages[b.page].heap.value))
            else Reaches(s, t, OnThreadList(s, t, b))
  {
    assert b.page in s.pages && (s.pages[b.page].heap == None ==> s.pages[b.page].flag == NeverDelayed);
    hide Inv;
    if s.pages[b.page].flag == UseDelayed {
      DelayFrom(s, t, b, s.pages[b.page].heap.value);
    } else {
      PushFrom(s, t, b);
    }
  }

  // ---- a free always ends

  // How far a freeing thread still has to go; a word read earlier may be out of date, and then it is read again.
  function FreerLeft(s: State, t: Tid): nat {
    match s.FreerOf(t)
    case Idle => 0
    case Start(_) => 10
    case Loaded(b, w) => if b.page in s.pages && w == WordOf(s.pages[b.page]) then 8 else 9
    case Claimed(_) => 7
    case HeapRead(_, _) => 6
    case ListRead(_, h, d) => if d == HeadOf(s.OwnerOf(h).delayed) then 4 else 5
    case Pushed(_) => 3
    case ResetLoaded(b, w) => if b.page in s.pages && w == WordOf(s.pages[b.page]) then 1 else 2
  }

  lemma FreerPage(s: State, t: Tid)
    requires Good(s) && s.FreerOf(t) != Idle
    ensures s.FreerOf(t).block.page in s.pages
  {
    if InDelayed(s.FreerOf(t)) { FreerBlockPage(s, t); } else { InHandAt(s, t); }
  }

  lemma FreerOnward(s: State, t: Tid) returns (a: Action, s1: State)
    requires s.FreerOf(t) != Idle && s.FreerOf(t).block.page in s.pages
    ensures FreerStep(s, t, a, s1) && FreerLeft(s1, t) < FreerLeft(s, t)
  {
    var f := s.FreerOf(t);
    var b, pg := f.block, s.pages[f.block.page];
    match f
    case Start(_) => a, s1 := FreeLoad, s.SetFreer(t, Loaded(b, WordOf(pg)));
    case Loaded(_, w) =>
      if w != WordOf(pg) {
        a, s1 := FreeRetry, s.SetFreer(t, Loaded(b, WordOf(pg)));
      } else if w.flag == UseDelayed {
        a, s1 := FreeCas, s.SetPage(b.page, pg.(flag := DelayedFreeing)).SetFreer(t, Claimed(b));
      } else {
        a := FreeCas;
        s1 := s.Link(b, w.head).SetPage(b.page, pg.(threadFree := [b] + pg.threadFree)).Move(b, InThread)
               .SetFreer(t, Idle);
      }
    case _ => a, s1 := DelayedOnward(s, t);
  }

  lemma DelayedOnward(s: State, t: Tid) returns (a: Action, s1: State)
    requires InDelayed(s.FreerOf(t)) && s.FreerOf(t).block.page in s.pages
    ensures FreerStep(s, t, a, s1) && FreerLeft(s1, t) < FreerLeft(s, t)
  {
    var f := s.FreerOf(t);
    var b, pg := f.block, s.pages[f.block.page];
    match f
    case Claimed(_) => a, s1 := ReadHeap, s.SetFreer(t, HeapRead(b, pg.heap));
    case HeapRead(_, h) =>
      a := ReadList;
      s1 := if h == None then s.SetFreer(t, Pushed(b))
            else s.SetFreer(t, ListRead(b, h.value, HeadOf(s.OwnerOf(h.value).delayed)));
    case ListRead(_, h, d) =>
      var o := s.OwnerOf(h);
      if d == HeadOf(o.delayed) {
        a := ListCas;
        s1 := s.Link(b, d).SetOwner(h, o.(delayed := [b] + o.delayed)).Move(b, OnDelayed(h)).SetFreer(t, Pushed(b));
      } else {
        a, s1 := ListRetry, s.SetFreer(t, f.(d := HeadOf(o.delayed)));
      }
    case Pushed(_) => a, s1 := ResetLoad, s.SetFreer(t, ResetLoaded(b, WordOf(pg)));
    case ResetLoaded(_, w) =>
      if w == WordOf(pg) {
        a, s1 := ResetCas, s.SetPage(b.page, pg.(flag := NoDelayed)).SetFreer(t, Idle);
      } else {
        a, s1 := ResetRetry, s.SetFreer(t, ResetLoaded(b, WordOf(pg)));
      }
  }

  // Whatever the others have done before, a thread that is freeing a block comes to the end if it is left alone.
  lemma {:induction false} FreeEnds(s: State, t: Tid) returns (s': State)
    requires Good(s)
    ensures Reaches(s, t, s') && s'.FreerOf(t) == Idle
    decreases FreerLeft(s, t)
  {
    if s.FreerOf(t) == Idle {
      s' := s;
      ReachesSelf(s, t);
    } else {
      FreerPage(s, t);
      var a, s1 := FreerOnward(s, t);
      hide Good, FreerStep, OwnerStep, FreerLeft;
      StepLinks(s, t, a, s1);
      s' := FreeEnds(s1, t);
      FreerNext(s, t, a, s1, s');
    }
  }

  // ---- collecting the thread-free list

  // The thread-free list of page p, in front of its local list.
  function Collected(s: State, t: Tid, p: nat): State
    requires p in s.pages
  {
    var pg, o := s.pages[p], s.OwnerOf(t);
    var l := pg.threadFree;
    var s1 := s.SetPage(p, pg.(threadFree := [], localFree := l + pg.localFree, used := pg.used - |l|))
               .MoveAll(l, InLocal).SetOwner(t, o.(op := NoOp));
    if l == [] then s1 else s1.Link(l[|l| - 1], HeadOf(pg.localFree))
  }

  predicate MayCollect(s: State, t: Tid, p: nat) {
    var o := s.OwnerOf(t);
    o.op == NoOp && (o.walk == [] || o.past) && p in s.pages && s.pages[p].owner == Some(t)
  }

  lemma CollectNext(s: State, t: Tid, a: Action, s1: State, s': State)
    requires CollectStep(s, t, a, s1) && Reaches(s1, t, s')
    ensures Reaches(s, t, s')
  {
    hide FreerStep, LocalStep, CollectStep, FlagStep, PhaseStep;
    ReachesNext(s, t, a, s1, s');
  }

  // Run alone, a collection moves the whole thread-free list to the front of the local list.
  lemma CollectAlone(s: State, t: Tid, p: nat)
    requires MayCollect(s, t, p)
    ensures Reaches(s, t, Collected(s, t, p))
  {
    var pg, o := s.pages[p], s.OwnerOf(t);
    var s1 := s.SetOwner(t, o.(op := Collect(p, WordOf(pg))));
    var s' := Collected(s, t, p);
    assert CollectStep(s, t, CollectLoad(p), s1);
    if pg.threadFree == [] {
      EmptyCollected(s, t, p);
      assert CollectStep(s1, t, CollectCas, s');
      hide CollectStep, Collected;
      ReachesSelf(s', t);
      CollectNext(s1, t, CollectCas, s', s');
    } else {
      DetachFrom(s, t, p, s1);
    }
    hide CollectStep, Collected;
    CollectNext(s, t, CollectLoad(p), s1, s');
  }

  lemma EmptyCollected(s: State, t: Tid, p: nat)
    requires p in s.pages && s.pages[p].threadFree == []
    ensures Collected(s, t, p) == s.SetOwner(t, s.OwnerOf(t).(op := NoOp))
  {
    var pg := s.pages[p];
    assert pg.(threadFree := [], localFree := [] + pg.localFree, used := pg.used - 0) == pg;
    assert s.MoveAll([], InLocal) == s;
  }

  lemma DetachFrom(s: State, t: Tid, p: nat, s1: State)
    requires MayCollect(s, t, p) && s.pages[p].threadFree != []
    requires s1 == s.SetOwner(t, s.OwnerOf(t).(op := Collect(p, WordOf(s.pages[p]))))
    ensures Reaches(s1, t, Collected(s, t, p))
  {
    var pg, o := s.pages[p], s.OwnerOf(t);
    var l := pg.threadFree;
    var s2 := s.SetPage(p, pg.(threadFree := [])).MoveAll(l, Detached(t)).SetOwner(t, o.(op := Append(p, l)));
    assert CollectStep(s1, t, CollectCas, s2);
    AppendStep(s, t, p, s2);
    hide CollectStep, Collected;
    ReachesSelf(Collected(s, t, p), t);
    CollectNext(s2, t, CollectAppend, Collected(s, t, p), Collected(s, t, p));
    CollectNext(s1, t, CollectCas, s2, Collected(s, t, p));
  }

  lemma AppendStep(s: State, t: Tid, p: nat, s2: State)
    requires MayCollect(s, t, p) && s.pages[p].threadFree != []
    requires var pg, l := s.pages[p], s.pages[p].threadFree;
      s2 == s.SetPage(p, pg.(threadFree := [])).MoveAll(l, Detached(t)).SetOwner(t, s.OwnerOf(t).(op := Append(p, l)))
    ensures CollectStep(s2, t, CollectAppend, Collected(s, t, p))
  {
    AppendSame(s, t, p, s2);
    hide Collected;
  }

  lemma AppendSame(s: State, t: Tid, p: nat, s2: State)
    requires MayCollect(s, t, p) && s.pages[p].threadFree != []
    requires var pg, l := s.pages[p], s.pages[p].threadFree;
      s2 == s.SetPage(p, pg.(threadFree := [])).MoveAll(l, Detached(t)).SetOwner(t, s.OwnerOf(t).(op := Append(p, l)))
    ensures var l, pg, o := s.pages[p].threadFree, s2.pages[p], s2.OwnerOf(t);
      && o.op == Append(p, l)
      && Collected(s, t, p) == s2.SetPage(p, pg.(localFree := l + pg.localFree, used := pg.used - |l|))
                                 .MoveAll(l, InLocal).Link(l[|l| - 1], HeadOf(pg.localFree)).SetOwner(t, o.(op := NoOp))
  {
    MovedTwice(s, s.pages[p].threadFree, Detached(t), InLocal);
  }

  lemma MovedTwice(s: State, l: seq<Block>, a: Place, b: Place)
    ensures s.MoveAll(l, a).MoveAll(l, b) == s.MoveAll(l, b)
  {}
}
