// Containers in remapped memory: allocation and resizing by splicing page frames (vcmalloc.h).
module Vcmalloc {
  import opened Base
  import opened Frames
  import opened Containers
  import opened Remap
  import opened FrameRuns
  import opened Layout
  import opened Passes
  import opened Search

  datatype Outcome = Done | NotFound | NoFrames

  class HyperContainer {
    const base: nat               // hypercontainer_address
    const page: nat               // page_size
    const stale: nat -> Frame     // what places of the storage hold that were never written
    var containers: seq<Container>
    var pfns: seq<Frame>          // pfns_storage_, pfns_max_ long
    var pfnsNum: nat
    var mapped: seq<Frame>        // the frames behind the addresses from base on
    var store: Store              // physical memory of the process

    ghost predicate Shape()
      reads this
    {
      page > 0 && base % page == 0 && |pfns| > 0 && pfnsNum <= |pfns|
    }

    ghost predicate Valid()
      reads this
    {
      && Shape() && Packed(containers, base) && pfnsNum == PagesBefore(containers, |containers|, page)
      && FramesOk(mapped, pfns, pfnsNum, store, page)
    }

    // As resizes may leave it: containers in order with gaps, all in mapped memory, and the frames on record mapped.
    ghost predicate Usable()
      reads this
    {
      && Shape() && Loose(containers, base) && FramesOk(mapped, pfns, pfnsNum, store, page)
      && AddressAt(containers, base, |containers|) - base <= |Memory()|
    }

    ghost function Memory(): seq<Byte>
      reads this
    {
      View(mapped, store)
    }

    // The pages a resize adds, or takes away.
    ghost function Pages(c: Container, newSize: nat): int
      requires page > 0
    {
      RequestedPages(c, newSize, page) - c.PageCount(page)
    }

    // Too few frames came: containers, mapping and bytes are as before, and the process has the frames that came,
    // mapped nowhere.
    ghost predicate Failed(cs: seq<Container>, num: nat, m: seq<Frame>, s: Store, v: seq<Byte>, grant: seq<Frame>,
                           contents: Store)
      reads this
    {
      && containers == cs && pfnsNum == num && mapped == m && Memory() == v
      && (forall f | f in grant :: f in contents) && store == Granted(s, grant, contents)
      && Backed(mapped, store, page) && (store.Keys == Elems(mapped) <==> grant == [])
    }

    // Too few frames came to resize the k-th container. The record still is that of the mapping exactly if no frame on
    // record is behind those of the container, or no frame came and none was moved onto another.
    ghost predicate Undone(cs: seq<Container>, num: nat, m: seq<Frame>, s: Store, v: seq<Byte>, k: nat, newSize: nat,
                           grant: seq<Frame>, contents: Store, valid: bool)
      reads this
    {
      && Shape() && k < |cs| && Failed(cs, num, m, s, v, grant, contents)
      && var start, pages := PagesBefore(cs, k, page), RequestedPages(cs[k], newSize, page);
      && (pfns[..num] == m <==> start + cs[k].PageCount(page) == num || (grant == [] && num <= start + pages))
      && (Usable() <==> grant == [] && num <= start + pages) && (valid ==> (Valid() <==> Usable()))
    }

    // The k-th container was resized. The frames are as many as the containers count exactly if it counts those it was
    // given; then also those behind it are found where they are. If everything was as it should be, it still is exactly
    // if moreover none follows or its pages are whole elements.
    ghost predicate Redone(cs: seq<Container>, num: nat, v: seq<Byte>, k: nat, newSize: nat, valid: bool)
      reads this
    {
      && Usable() && Reallocated(cs, containers, v, Memory(), base, k, newSize, page)
      && pfnsNum == num + Pages(cs[k], newSize)
      && var pages := RequestedPages(cs[k], newSize, page);
      && (num == PagesBefore(cs, |cs|, page) ==>
           (pfnsNum == PagesBefore(containers, |containers|, page) <==> CountKept(cs[k], pages, page)))
      && (PagesBefore(cs, |cs|, page) <= num ==> Covered())
      && (forall i: nat | i < |cs| && Placed(cs, base, i, page) ::
           Placed(containers, base, i, page) <==> i <= k || CountKept(cs[k], pages, page))
      && (valid ==>
           (Valid() <==> CountKept(cs[k], pages, page) && (k == |cs| - 1 || WholeChange(cs[k], pages, page))))
      && (valid && WholeChange(cs[k], pages, page) ==> Valid())
    }

    // Where everything is as it should be, every container can be resized, alone or with others.
    lemma ValidUsable()
      requires Valid()
      ensures Usable() && Covered() && forall k: nat | k < |containers| :: Placed(containers, base, k, page)
    {
      hide FramesOk, View, PagesBefore, Start;
      PackedLoose(containers, base);
      forall k: nat | k < |containers| ensures Placed(containers, base, k, page) {
        PackedPlaced(containers, base, k, page);
      }
      AllMapped(containers, base, page, mapped, pfns, pfnsNum, store);
      AllOnRecord(mapped, pfns, pfnsNum, store, page);
    }

    constructor (address: nat, pageSize: nat, capacity: nat, garbage: nat -> Frame)
      requires pageSize > 0 && address % pageSize == 0 && capacity > 0
      ensures Valid() && containers == [] && base == address && page == pageSize && |pfns| == capacity
    {
      base, page, stale := address, pageSize, garbage;
      containers, pfns, pfnsNum, mapped, store := [], seq(capacity, i requires 0 <= i => garbage(i)), 0, [], map[];
    }

    // getPFNsPosition from the first container to the k-th
    method GetPFNsPosition(k: nat) returns (position: nat)
      requires page > 0 && k <= |containers|
      ensures position == PagesBefore(containers, k, page)
    {
      position := 0;
      for i := 0 to k
        invariant position == PagesBefore(containers, i, page)
      {
        position := position + containers[i].PageCount(page);
      }
    }

    method AssertPfnsStorage(additional: nat)
      requires |pfns| > 0
      modifies `pfns
      ensures pfnsNum + additional <= |pfns| && |pfns| >= |old(pfns)| && pfns[..|old(pfns)|] == old(pfns)
      ensures forall i: nat | |old(pfns)| <= i < |pfns| :: pfns[i] == stale(i)
    {
      if |pfns| < pfnsNum + additional {
        var max := |pfns|;
        while max < pfnsNum + additional
          invariant max >= |pfns|
          decreases pfnsNum + additional - max
        {
          max := max * 2;
        }
        var n := |pfns|;
        pfns := pfns + seq(max - n, i requires 0 <= i => stale(n + i));
      }
    }

    // AssertPfnsStorage, of the frames on record
    method Reserve(additional: nat)
      requires |pfns| > 0 && FramesOk(mapped, pfns, pfnsNum, store, page)
      modifies `pfns
      ensures pfnsNum + additional <= |pfns| && |pfns| >= |old(pfns)| && FramesOk(mapped, pfns, pfnsNum, store, page)
      ensures pfns[..|old(pfns)|] == old(pfns)
    {
      hide FramesOk;
      ghost var was := pfns;
      AssertPfnsStorage(additional);
      MoreRoom(mapped, was, pfns, pfnsNum, store, page);
    }

    // memmove of bytes that run to the end of a page, i the page after the target and j the one after the source
    method MoveBytes(to: nat, from: nat, n: nat, ghost i: nat, ghost j: nat)
      requires Backed(mapped, store, page) && NoDup(mapped) && n < page && i <= |mapped| && j <= |mapped|
      requires to + n == Start(i, page) && from + n == Start(j, page)
      modifies `store
      ensures Backed(mapped, store, page) && store.Keys == old(store.Keys)
      ensures to + n <= |old(Memory())| && from + n <= |old(Memory())|
      ensures Memory() == old(Memory())[..to] + old(Memory())[from..from + n] + old(Memory())[to + n..]
    {
      hide Backed, Start, View, CopyIn, NoDup, Nr, Ofs;
      ViewCut(mapped, i, store, page);
      ViewCut(mapped, j, store, page);
      if n > 0 {
        TailMoved(mapped, store, to, from, n, i, j, page);
        var fd, fs, ofs := mapped[Nr(to, page)], mapped[Nr(from, page)], Ofs(from, page);
        store := store[fd := store[fd][..ofs] + store[fs][ofs..]];
      } else {
        NothingMoved(Memory(), to, from);
      }
    }

    // Let containers from the k-th on move by delta.
    method ShiftFrom(k: nat, delta: int)
      requires k <= |containers|
      modifies `containers
      ensures |containers| == |old(containers)|
      ensures forall i: nat | i < |containers| ::
        containers[i] == old(containers)[i].(ref := old(containers)[i].ref + if i < k then 0 else delta)
    {
      for i := k to |containers|
        invariant |containers| == |old(containers)|
        invariant forall j: nat | j < |containers| ::
          containers[j] == old(containers)[j].(ref := old(containers)[j].ref + if k <= j < i then delta else 0)
      {
        containers := containers[i := containers[i].(ref := containers[i].ref + delta)];
      }
    }

    // The new element count of the k-th container, and the move of those after it.
    method SetElements(k: nat, pages: nat)
      requires page > 0 && k < |containers| && containers[k].typeSize > 0 && BytesFor(containers[k], pages, page) >= 0
      modifies `containers
      ensures containers == Target(old(containers), k, pages, page)
    {
      hide Start, BytesFor, Container.PageCount;
      var c := containers[k];
      var bytes: nat := BytesFor(c, pages, page);
      var delta := Start(pages, page) - Start(c.PageCount(page), page);
      containers := containers[k := c.(elements := bytes / c.typeSize)];
      ShiftFrom(k + 1, delta);
    }

    // Free the frames between i and j, close the gap and map the rest again from address `at` on.
    method DropFrames(at: nat, i: nat, j: nat)
      requires page > 0 && FramesOk(mapped, pfns, pfnsNum, store, page) && at <= i <= j <= pfnsNum
      modifies `pfns, `mapped, `store
      ensures |pfns| == |old(pfns)| && FramesOk(mapped, pfns, pfnsNum - (j - i), store, page)
      ensures CutOut(old(mapped), mapped, i, j)
      ensures BytesOut(old(Memory()), Memory(), Start(i, page), Start(j, page))
    {
      hide FramesOk, Start, View, Freed, Moved, NoDup, Backed;
      Parts(mapped, pfns, pfnsNum, store, page);
      DropView(mapped, pfns, pfnsNum, store, i, j, page);
      DropPfns(pfns, pfnsNum, at, i, j);
      store := Freed(store, pfns[i..j]);
      pfns := Moved(pfns, i, j, pfnsNum - j);
      mapped := mapped[..at];
      mapped := mapped + pfns[at..pfnsNum - (j - i)];
      FramesMatch(mapped, pfns, pfnsNum - (j - i), store, page);
    }

    // The guests go to the end of the pages kept, and the pages between i and j out: the bytes between the two ends are
    // gone.
    method CutPages(at: nat, i: nat, j: nat, next: nat, guests: nat)
      requires page > 0 && FramesOk(mapped, pfns, pfnsNum, store, page) && at <= i <= j <= pfnsNum
      requires next + guests == Start(j, page) && guests < page && Start(j - i, page) <= next
      modifies `pfns, `mapped, `store
      ensures |pfns| == |old(pfns)| && FramesOk(mapped, pfns, pfnsNum - (j - i), store, page)
      ensures CutOut(old(mapped), mapped, i, j)
      ensures BytesOut(old(Memory()), Memory(), next - Start(j - i, page), next)
    {
      hide FramesOk, Start, View, BytesOut;
      Parts(mapped, pfns, pfnsNum, store, page);
      StartAdd(i, j - i, page);
      var to: nat := next - Start(j - i, page);
      ghost var v := Memory();
      MoveBytes(to, next, guests, i, j);
      ghost var v1 := Memory();
      FramesMatch(mapped, pfns, pfnsNum, store, page);
      DropFrames(at, i, j);
      CutBytes(v, v1, Memory(), to, next, guests, Start(i, page), Start(j, page));
    }

    // The shrinking half of ContainerRealloc.
    method Shrink(k: nat, start: nat, count: nat, pages: nat)
      requires Usable() && k < |containers| && Placed(containers, base, k, page)
        && start == PagesBefore(containers, k, page)
      requires containers[k].typeSize > 0 && count == containers[k].PageCount(page)
      requires pages < count && BytesFor(containers[k], pages, page) >= 0
      modifies `containers, `pfns, `pfnsNum, `mapped, `store
      ensures Shape() && FramesOk(mapped, pfns, pfnsNum, store, page)
      ensures pfnsNum == old(pfnsNum) - count + pages
      ensures containers == Target(old(containers), k, pages, page)
      ensures CutOut(old(mapped), mapped, start + pages, start + count)
      ensures BytesOut(old(Memory()), Memory(), old(CutAfter(containers[k], base, pages, page)),
        old(containers[k].NextAddress() - base))
    {
      hide Loose, Placed, FramesOk, Start, View, PagesBefore, BytesFor, CutAfter, Target, Nr, BytesOut, AddressAt;
      hide Container.PageCount, Container.MappingAddress, Container.GuestBytes;
      var c := containers[k];
      var steps := count - pages;
      Geometry(containers, base, k, page, pages);
      Reach(containers, base, k, page, mapped, pfns, pfnsNum, store);
      ShrinkCuts(c, base, start, pages, page);
      Parts(mapped, pfns, pfnsNum, store, page);
      CutPages(Nr(c.MappingAddress(page) - base, page), start + pages, start + count, c.NextAddress() - base,
               c.GuestBytes(page));
      SetElements(k, pages);
      pfnsNum := pfnsNum - steps;
    }

    // AllocateUserPhysicalPages: the operating system gives the frames it has left, up to n of them, and writes them at
    // i.
    method AllocateFrames(i: nat, n: nat, grant: seq<Frame>, contents: Store) returns (got: nat)
      requires i + n <= |pfns| && GrantOk(grant, contents, store, page)
      modifies `pfns, `store
      ensures got == Least(n, |grant|) && pfns == old(pfns)[..i] + grant[..got] + old(pfns)[i + got..]
      ensures (forall f | f in grant[..got] :: f in contents) && store == Granted(old(store), grant[..got], contents)
    {
      got := Least(n, |grant|);
      GrantHeld(grant, got, contents, store, page);
      pfns := pfns[..i] + grant[..got] + pfns[i + got..];
      store := Granted(store, grant[..got], contents);
    }

    // Make room for frames at i, take them from the operating system, and map from address `at` on. When too few come,
    // those that did are on record and nowhere mapped.
    method InsertFrames(at: nat, i: nat, steps: nat, grant: seq<Frame>, contents: Store) returns (ok: bool)
      requires page > 0 && FramesOk(mapped, pfns, pfnsNum, store, page) && at <= i <= pfnsNum
        && pfnsNum + steps <= |pfns|
      requires GrantOk(grant, contents, store, page)
      modifies `pfns, `mapped, `store
      ensures |pfns| == |old(pfns)| && (ok <==> steps <= |grant|)
      ensures ok ==> FramesOk(mapped, pfns, pfnsNum + steps, store, page) && PutIn(old(mapped), mapped, grant, i, steps)
      ensures ok ==>
        Inserted(old(Memory()), Memory(), View(grant[..steps], contents), Start(i, page), Start(steps, page))
      ensures !ok ==> Failed(containers, pfnsNum, old(mapped), old(store), old(Memory()), grant, contents)
      ensures !ok ==> pfns == Overwritten(old(pfns), pfnsNum, i, steps, grant)
      ensures !ok ==> (pfns[..pfnsNum] == mapped <==> i == pfnsNum || (grant == [] && pfnsNum <= i + steps))
    {
      hide FramesOk, Start, View, Granted, Moved, NoDup, Backed, GrantOk, Inserted, Elems;
      Parts(mapped, pfns, pfnsNum, store, page);
      ghost var was, s := pfns, store;
      pfns := Moved(pfns, i + steps, i, pfnsNum - i);
      var got := AllocateFrames(i, steps, grant, contents);
      if got != steps {
        assert grant[..got] == grant;
        GrantLost(mapped, s, grant, |grant|, contents, page);
        RecordLost(was, pfnsNum, i, steps, grant);
        return false;
      }
      AddAll(mapped, was, pfnsNum, s, at, i, grant, steps, contents, page);
      mapped := mapped[..at];
      mapped := mapped + pfns[at..pfnsNum + steps];
      ok := true;
    }

    // The guests go behind the new pages: the bytes of these come in where the container ended.
    method GuestsUp(next: nat, guests: nat, i: nat, steps: nat, ghost v: seq<Byte>, ghost more: seq<Byte>)
      requires page > 0 && FramesOk(mapped, pfns, pfnsNum + steps, store, page) && i + steps <= |mapped|
      requires next + guests == Start(i, page) && guests < page && guests <= Start(steps, page)
      requires Inserted(v, Memory(), more, Start(i, page), Start(steps, page))
      modifies `store
      ensures FramesOk(mapped, pfns, pfnsNum + steps, store, page)
      ensures BytesIn(v, Memory(), next, next + Start(steps, page))
    {
      hide FramesOk, Start, View, BytesIn, Inserted, NoDup, Backed;
      ghost var v1 := Memory();
      Parts(mapped, pfns, pfnsNum + steps, store, page);
      StartAdd(i, steps, page);
      MoveBytes(next + Start(steps, page), next, guests, i + steps, i);
      FramesMatch(mapped, pfns, pfnsNum + steps, store, page);
      PutBytes(v, v1, Memory(), more, next, guests, Start(i, page), Start(steps, page));
    }

    // The growing half of ContainerRealloc.
    method Grow(k: nat, start: nat, count: nat, pages: nat, grant: seq<Frame>, contents: Store) returns (ok: bool)
      requires Usable() && k < |containers| && Placed(containers, base, k, page)
        && start == PagesBefore(containers, k, page)
      requires containers[k].typeSize > 0 && count == containers[k].PageCount(page)
      requires pages > count && GrantOk(grant, contents, store, page) && BytesFor(containers[k], pages, page) >= 0
      modifies `containers, `pfns, `pfnsNum, `mapped, `store
      ensures Shape() && (ok <==> pages - count <= |grant|)
      ensures ok ==> FramesOk(mapped, pfns, pfnsNum, store, page) && pfnsNum == old(pfnsNum) - count + pages
      ensures ok ==> containers == Target(old(containers), k, pages, page)
      ensures ok ==> PutIn(old(mapped), mapped, grant, start + count, pages - count)
      ensures ok ==>
        BytesIn(old(Memory()), Memory(), old(containers[k].NextAddress() - base),
                old(CutAfter(containers[k], base, pages, page)))
      ensures !ok ==> Failed(old(containers), old(pfnsNum), old(mapped), old(store), old(Memory()), grant, contents)
      ensures !ok ==>
        (pfns[..pfnsNum] == mapped <==> start + count == pfnsNum || (grant == [] && pfnsNum <= start + pages))
    {
      hide Loose, Placed, FramesOk, Start, View, PagesBefore, BytesFor, CutAfter, Target, Nr, BytesIn, Inserted,
            GrantOk,
            NoDup, Backed, Delta, PutIn, Resized, Failed, AddressAt;
      hide Container.PageCount, Container.MappingAddress, Container.GuestBytes, Container.NextAddress;
      var c := containers[k];
      var steps := pages - count;
      Geometry(containers, base, k, page, pages);
      Reach(containers, base, k, page, mapped, pfns, pfnsNum, store);
      GrowCuts(c, base, start, pages, page);
      Reserve(steps);
      var next: nat := c.NextAddress() - base;
      ghost var v := Memory();
      ok := InsertFrames(Nr(c.MappingAddress(page) - base, page), start + count, steps, grant, contents);
      if !ok { return; }
      Parts(mapped, pfns, pfnsNum + steps, store, page);
      GuestsUp(next, c.GuestBytes(page), start + count, steps, v, View(grant[..steps], contents));
      SetElements(k, pages);
      pfnsNum := pfnsNum + steps;
    }

    method Find(user: nat) returns (r: Lookup)
      requires Loose(containers, base) && containers != [] && base <= user
      ensures !r.Fault? && (r.Found? ==> r.index < |containers| && containers[r.index].ref == user)
      ensures r.Missing? <==> forall i | 0 <= i < |containers| :: containers[i].ref != user
    {
      RefsSorted(containers, base);
      r := BinarySearch(Refs(containers), user);
      if r.Missing? { NotThere(containers, user); }
    }

    method ResizeAt(k: nat, newSize: nat, grant: seq<Frame>, contents: Store) returns (r: Outcome)
      requires Usable() && k < |containers| && Placed(containers, base, k, page)
        && GrantOk(grant, contents, store, page)
      modifies this
      ensures !r.NotFound? && (r.NoFrames? <==> Pages(old(containers[k]), newSize) > |grant|)
      ensures r.NoFrames? ==>
        Undone(old(containers), old(pfnsNum), old(mapped), old(store), old(Memory()), k, newSize, grant, contents,
               old(Valid()))
      ensures r.Done? ==> Redone(old(containers), old(pfnsNum), old(Memory()), k, newSize, old(Valid()))
    {
      hide FramesOk, Start, View, PagesBefore, BytesFor, CutAfter, Target, GrantOk, Delta, Reallocated, KeptPart,
           WholeChange, Loose, Placed, AddressAt;
      hide Container.PageCount, RequestedPages, Packed;
      var start := GetPFNsPosition(k);
      var c := containers[k];
      ghost var cs, v := containers, Memory();
      var requested, count := RequestedPages(c, newSize, page), c.PageCount(page);
      Prepared(cs, base, k, newSize, page, mapped, pfns, pfnsNum, store);
      if requested < count {
        Shrink(k, start, count, requested);
        KeptOut(v, Memory(), CutAfter(c, base, requested, page), c.NextAddress() - base);
      } else if requested == count {
        KeptAll(v, c.NextAddress() - base);
      } else {
        var ok := Grow(k, start, count, requested, grant, contents);
        if !ok {
          Spoilt(old(mapped), old(pfns), pfns, pfnsNum, old(store), store, page);
          return NoFrames;
        }
        KeptIn(v, Memory(), c.NextAddress() - base, CutAfter(c, base, requested, page));
      }
      ResizeDone(cs, v, Memory(), base, k, newSize, page);
      ResizeUsable(cs, containers, v, Memory(), base, k, newSize, page);
      AllOnRecord(mapped, pfns, pfnsNum, store, page);
      r := Done;
    }

    // ContainerRealloc: resize the container the user's pointer refers to, where its frames are found.
    method ContainerRealloc(user: nat, newSize: nat, grant: seq<Frame>, contents: Store)
      returns (r: Outcome, ghost k: nat)
      requires Usable() && containers != [] && base <= user && GrantOk(grant, contents, store, page)
      requires forall i: nat | i < |containers| && containers[i].ref == user :: Placed(containers, base, i, page)
      modifies this
      ensures r.NotFound? <==> forall i | 0 <= i < old(|containers|) :: old(containers)[i].ref != user
      ensures r.NotFound? ==> unchanged(this)
      ensures !r.NotFound? ==> k < old(|containers|) && old(containers)[k].ref == user
      ensures !r.NotFound? ==> (r.NoFrames? <==> Pages(old(containers)[k], newSize) > |grant|)
      ensures r.NoFrames? ==>
        Undone(old(containers), old(pfnsNum), old(mapped), old(store), old(Memory()), k, newSize, grant, contents,
               old(Valid()))
      ensures r.Done? ==> Redone(old(containers), old(pfnsNum), old(Memory()), k, newSize, old(Valid()))
    {
      hide FramesOk, GrantOk, RequestedPages, Container.PageCount, View, PagesBefore, Undone, Redone, Loose, Placed,
           AddressAt, Packed;
      var found := Find(user);
      k := 0;
      if found.Found? {
        k := found.index;
        r := ResizeAt(found.index, newSize, grant, contents);
      } else {
        r := NotFound;
      }
    }

    // ContainerAlloc: a new container behind the others. The container is on record even when no frames come.
    method ContainerAlloc(typeSize: nat, elements: nat, grant: seq<Frame>, contents: Store) returns (ok: bool)
      requires Valid() && typeSize > 0 && GrantOk(grant, contents, store, page)
      modifies this
      ensures containers == old(containers)
        + [Container(AddressAt(old(containers), base, |old(containers)|), typeSize, elements)]
      ensures ok <==> containers[|containers| - 1].PageCount(page) <= |grant|
      ensures ok <==> Valid()
      ensures ok ==> pfnsNum == old(pfnsNum) + containers[|containers| - 1].PageCount(page)
      ensures !ok ==> Failed(containers, old(pfnsNum), old(mapped), old(store), old(Memory()), grant, contents)
      ensures !ok ==> pfnsNum <= |pfns| && pfns[..pfnsNum] == mapped
      ensures |Memory()| >= |old(Memory())| && Memory()[..|old(Memory())|] == old(Memory())
    {
      hide FramesOk, GrantOk, View, PagesBefore, Ceil, Moved, Granted, Inserted, Start, Backed, NoDup;
      hide Container.PageCount, Container.MappingAddress, Container.NextMappingAddress, Container.GuestBytes,
            Container.PriorFreeBytes;
      var requested := typeSize * elements;
      var mapping, next, guest := base, base, 0;
      if |containers| > 0 {
        var last := containers[|containers| - 1];
        mapping, next, guest := last.NextMappingAddress(page), last.NextAddress(), last.GuestBytes(page);
      }
      ghost var cs := containers;
      var c := Container(next, typeSize, elements);
      NextPlace(cs, base, c, page);
      Appended(cs, base, c, page);
      AllocPages(c, page);
      containers := containers + [c];
      if requested <= guest { return true; }
      var pages := Ceil(requested - guest, page);
      ok := AddFrames(Nr(mapping - base, page), pages, grant, contents);
      if ok { pfnsNum := pfnsNum + pages; }
    }

    // Take frames from the operating system, behind those on record, and map them at address `at`.
    method AddFrames(at: nat, pages: nat, grant: seq<Frame>, contents: Store) returns (ok: bool)
      requires Shape() && FramesOk(mapped, pfns, pfnsNum, store, page) && GrantOk(grant, contents, store, page)
        && at == pfnsNum
      modifies `pfns, `mapped, `store
      ensures |pfns| >= |old(pfns)| && (ok <==> pages <= |grant|)
      ensures ok ==> FramesOk(mapped, pfns, pfnsNum + pages, store, page) && pfnsNum + pages <= |pfns|
      ensures !ok ==> Failed(containers, pfnsNum, old(mapped), old(store), old(Memory()), grant, contents)
      ensures !ok ==> pfnsNum <= |pfns| && pfns[..pfnsNum] == mapped
      ensures |Memory()| >= |old(Memory())| && Memory()[..|old(Memory())|] == old(Memory())
    {
      hide FramesOk, GrantOk, View, Moved, Granted, Start, Backed, NoDup, Elems;
      Reserve(pages);
      ghost var all, s := pfns, store;
      Parts(mapped, pfns, pfnsNum, store, page);
      var got := AllocateFrames(pfnsNum, pages, grant, contents);
      if got != pages {
        assert grant[..got] == grant;
        GrantLost(mapped, s, grant, |grant|, contents, page);
        return false;
      }
      AddAll(mapped, all, pfnsNum, s, at, pfnsNum, grant, pages, contents, page);
      Behind(mapped, all, pfnsNum, grant[..pages]);
      ViewLength(mapped, s, page);
      mapped := mapped[..at] + pfns[pfnsNum..pfnsNum + pages];
      ok := true;
    }

    // ---- several containers at once

    // The frames on record are those the containers count.
    ghost predicate Counted()
      reads this
    {
      page > 0 && pfnsNum <= |pfns| && pfnsNum == PagesBefore(containers, |containers|, page)
    }

    ghost function Frames(): seq<Frame>
      requires pfnsNum <= |pfns|
      reads this
    {
      pfns[..pfnsNum]
    }

    // As resizes may leave it: the containers count no more than the frames mapped, and these are the first on record.
    ghost predicate Covered()
      reads this
    {
      && page > 0 && PagesBefore(containers, |containers|, page) <= |mapped| <= pfnsNum <= |pfns|
      && mapped == Frames()[..|mapped|]
    }

    // One container of the first pass: the pages kept, the pages still to come, and the want left for the second pass.
    method ReleaseOne(m: nat, want: int, steps: nat, dataSize: nat) returns (keep: nat, more: nat, want': int)
      requires page > 0 && m < |containers| && containers[m].typeSize == dataSize > 0 && want >= -1
      modifies `containers
      ensures var c := old(containers)[m];
        && containers == old(containers)[m := ShiftBy(LeftOf(c, want, page), 0 - steps, page)]
        && keep == Least(c.PageCount(page), Wanted(c, want, page))
        && more == Excess(Wanted(c, want, page), c.PageCount(page)) && want' == LeftWant(c, want, page)
    {
      hide RequestedPages, BytesFor, Container.PageCount, NewElements;
      var c := containers[m];
      var count := c.PageCount(page);
      keep, more, want' := count, 0, want;
      if want == c.elements || want == -1 {
        containers := containers[m := ShiftBy(c, 0 - steps, page)];
      } else {
        var requested := RequestedPages(c, want, page);
        EnoughPages(c, want, page);
        if requested >= count {
          more := requested - count;
          containers := containers[m := ShiftBy(c, 0 - steps, page)];
        } else {
          keep, want' := requested, -1;
          containers := containers[m := ShiftBy(c.(elements := NewElements(c, requested, page)), 0 - steps, page)];
        }
      }
    }

    // The first pass: containers that shrink give up their last frames.
    method Release(k: nat, wants: array<int>, start: nat, dataSize: nat)
      returns (temp: seq<Frame>, spare: seq<Frame>, idx: nat, requested: nat, ghost was: seq<nat>, ghost now: seq<nat>,
               ghost goal: seq<nat>)
      requires Covered() && k + wants.Length <= |containers| && start == PagesBefore(containers, k, page)
      requires RunOf(containers, wants[..], k, dataSize)
      modifies `containers, `pfnsNum, wants
      ensures |was| == |now| == wants.Length
        && FirstPass(old(containers), old(wants[..]), containers, wants[..], k, page, was, now, goal)
      ensures idx == start + Sum(was) <= old(pfnsNum) && News(was, now) == 0
      ensures temp == Laid(pfns, start, was, now, [], 0) && spare == GivenUp(pfns, start, was, now)
      ensures |spare| + Sum(now) == Sum(was) && requested + Sum(now) == Sum(goal) && pfnsNum + |spare| == old(pfnsNum)
    {
      hide FirstPass, AskedAt, Laid, GivenUp, News, Sum, PagesBefore, Container.PageCount, Wanted, RunOf, LeftOf,
           LeftWant, Piece;
      temp, spare, idx, requested := [], [], start, 0;
      was, now, goal := [], [], [];
      ghost var cs0, w0 := containers, wants[..];
      Begin(cs0, w0, k, page, pfns, start, pfnsNum);
      for i := 0 to wants.Length
        invariant |was| == |now| == i && FirstPass(cs0, w0, containers, wants[..], k, page, was, now, goal)
        invariant idx == start + Sum(was) == PagesBefore(cs0, k + i, page) && idx <= old(pfnsNum) && News(was, now) == 0
        invariant temp == Laid(pfns, start, was, now, [], 0) && spare == GivenUp(pfns, start, was, now)
        invariant |spare| + Sum(now) == Sum(was) && requested + Sum(now) == Sum(goal)
          && pfnsNum + |spare| == old(pfnsNum)
      {
        ghost var cs, w := containers, wants[..];
        Untouched(cs0, w0, cs, w, k, page, was, now, goal, dataSize);
        RoomFor(cs0, k + i, page);
        var count := containers[k + i].PageCount(page);
        ghost var wanted := Wanted(containers[k + i], wants[i], page);
        var keep, more, want' := ReleaseOne(k + i, wants[i], |spare|, dataSize);
        AskedNow(cs0[k + i], w0[i], page);
        NextReleased(cs0, w0, cs, w, k, page, was, now, goal, count, wanted, containers[k + i]);
        wants[i] := want';
        KeepStep(pfns, start, was, now, count, keep, spare);
        SumNext(goal, wanted);
        temp := temp + pfns[idx..idx + keep];
        spare := spare + pfns[idx + keep..idx + count];
        pfnsNum := pfnsNum - (count - keep);
        idx := idx + count;
        requested := requested + more;
        was, now, goal := was + [count], now + [keep], goal + [wanted];
      }
    }

    // One container of the second pass: the pages it gets.
    method RegainOne(m: nat, want: int, steps: nat, dataSize: nat) returns (add: nat)
      requires page > 0 && m < |containers| && containers[m].typeSize == dataSize > 0 && want >= -1
      requires Wanted(containers[m], want, page) >= containers[m].PageCount(page)
      modifies `containers
      ensures add == Wanted(old(containers)[m], want, page) - old(containers)[m].PageCount(page)
      ensures var c := old(containers)[m];
        containers == old(containers)[m := ShiftBy(Fitted(c, want, page), if add > 0 then steps else 0 - steps, page)]
    {
      hide RequestedPages, BytesFor, Container.PageCount, NewElements;
      var c := containers[m];
      var count := c.PageCount(page);
      if want == c.elements || want == -1 {
        add := 0;
        containers := containers[m := ShiftBy(c, 0 - steps, page)];
      } else {
        var requested := RequestedPages(c, want, page);
        EnoughPages(c, want, page);
        add := requested - count;
        if requested == count {
          containers := containers[m := ShiftBy(c, 0 - steps, page)];
        } else {
          containers := containers[m := ShiftBy(c.(elements := NewElements(c, requested, page)), steps, page)];
        }
      }
    }

    // The second pass: containers that grow take frames from the end of the spare ones.
    method Regain(k: nat, wants: array<int>, start: nat, dataSize: nat, spare: seq<Frame>, requested: nat,
                  ghost cs0: seq<Container>, ghost w0: seq<int>, ghost was: seq<nat>, ghost now: seq<nat>,
                  ghost goal: seq<nat>, ghost cnt: seq<nat>)
      returns (temp: seq<Frame>, idx: nat)
      requires page > 0 && AllReleased(cs0, w0, containers, wants[..], k, page, was, now, goal)
      requires Asked(cs0, w0, k, page, was, goal) && RunOf(cs0, w0, k, dataSize) && now == Nows(was, goal)
      requires cnt == CountsLeft(cs0, w0, k, page, was, goal) && Counting(now, goal, cnt)
      requires requested == News(cnt, Grown(cnt, now, goal)) <= |spare| && start + Sum(cnt) <= |pfns|
      modifies `containers, `pfnsNum
      ensures SecondPass(cs0, w0, old(containers), containers, k, page, was, goal, |was|)
      ensures idx == start + Sum(cnt) && temp == Laid(pfns, start, cnt, Grown(cnt, now, goal), spare, requested)
      ensures pfnsNum == old(pfnsNum) + requested && |containers| == |old(containers)|
    {
      hide AllReleased, SecondPass, Laid, News, Sum, Container.PageCount, Wanted, RunOf, Grown, Asked, CountsLeft,
            Piece,
           Fitted, Counting;
      temp, idx := [], start;
      var left: nat, steps: nat := requested, 0;
      ghost var cs1 := containers;
      AllFits(cs0, w0, cs1, wants[..], k, page, was, now, goal);
      ghost var fin := Grown(cnt, now, goal);
      BeginSecond(cs0, w0, cs1, wants[..], k, page, was, now, goal);
      BeginLaid(pfns, start, cnt, fin, spare, requested);
      for i := 0 to wants.Length
        invariant steps + left == requested && pfnsNum == old(pfnsNum) + steps && steps == News(cnt[..i], fin[..i])
        invariant SecondPass(cs0, w0, cs1, containers, k, page, was, goal, i) && |containers| == |cs1|
        invariant idx == start + Sum(cnt[..i]) <= |pfns|
          && temp == Laid(pfns, start, cnt[..i], fin[..i], spare, requested)
      {
        ghost var cs := containers;
        Unseen(cs0, w0, cs1, wants[..], cs, k, page, was, now, goal, i, dataSize);
        var count := containers[k + i].PageCount(page);
        var add := RegainOne(k + i, wants[i], steps, dataSize);
        StepNews(now, goal, cnt, i);
        NextRegained(cs0, w0, cs1, wants[..], cs, k, page, was, now, goal, i, add, steps);
        LaidStep(pfns, start, cnt, fin, spare, requested, i);
        temp := temp + (pfns[idx..idx + count] + spare[left - add..left]);
        idx := idx + count;
        left := left - add;
        steps := steps + add;
        pfnsNum := pfnsNum + add;
      }
      assert cnt[..|cnt|] == cnt && fin[..|fin|] == fin;
    }

    // The containers behind those resized.
    method ShiftRest(m: nat, pages: int)
      requires m <= |containers| && page > 0
      modifies `containers
      ensures MovedRest(old(containers), containers, m, pages, page)
    {
      for i := m to |containers|
        invariant |containers| == |old(containers)|
        invariant forall j: nat | j < |containers| ::
          containers[j] == if m <= j < i then ShiftBy(old(containers)[j], pages, page) else old(containers)[j]
      {
        containers := containers[i := ShiftBy(containers[i], pages, page)];
      }
    }

    // The frames of temp, and behind them the `post` frames from idx on, put on record from start on and mapped.
    method Commit(start: nat, temp: seq<Frame>, idx: nat, post: nat)
      requires idx + post <= |pfns| && start + |temp| + post <= |pfns|
      requires start <= |mapped| <= |pfns| && mapped == pfns[..|mapped|]
      modifies `pfns, `mapped
      ensures pfns == Rewritten(old(pfns), start, temp, idx, post) && mapped == pfns[..start + |temp| + post]
    {
      Remapped(mapped, pfns, |mapped|, start, temp, idx, post);
      pfns := Rewritten(pfns, start, temp, idx, post);
      mapped := mapped[..start];
      mapped := mapped + pfns[start..start + |temp| + post];
    }

    // The first pass, and the frames it keeps put on record.
    method Shorten(k: nat, wants: array<int>, start: nat, dataSize: nat)
      returns (spare: seq<Frame>, requested: nat, post: nat, ghost was: seq<nat>, ghost goal: seq<nat>)
      requires Covered() && k + wants.Length <= |containers| && start == PagesBefore(containers, k, page)
      requires Shape() && RunOf(containers, wants[..], k, dataSize)
      modifies this, wants
      ensures |was| == |goal| == wants.Length && start + Sum(was) + post == old(pfnsNum) <= |old(pfns)|
      ensures AllReleased(old(containers), old(wants[..]), containers, wants[..], k, page, was, Nows(was, goal), goal)
      ensures pfns == AfterFirst(old(pfns), old(pfnsNum), start, was, goal)
        && pfnsNum == NumFirst(old(pfns), old(pfnsNum), start, was, goal)
      ensures spare == GivenUp(old(pfns), start, was, Nows(was, goal)) && |spare| + Sum(Nows(was, goal)) == Sum(was)
      ensures requested + Sum(Nows(was, goal)) == Sum(goal) && Shape() && mapped == Frames()
    {
      hide FirstPass, AllReleased, Laid, GivenUp, News, Sum, PagesBefore, RunOf, MovedRest, Asked, Rewritten;
      ghost var cs0, w0, p := containers, wants[..], pfns;
      var startNumber := pfnsNum;
      BeforeGrows(containers, k, |containers|, page);
      var kept, idx;
      ghost var now;
      kept, spare, idx, requested, was, now, goal := Release(k, wants, start, dataSize);
      ghost var cs1 := containers;
      FirstFits(cs0, w0, cs1, wants[..], k, page, was, now, goal);
      FirstAsked(cs0, w0, cs1, wants[..], k, page, was, now, goal);
      ShiftRest(k + wants.Length, 0 - |spare|);
      FirstDone(cs0, w0, cs1, containers, wants[..], k, page, was, now, goal);
      post := startNumber - idx;
      assert kept == KeptPart(p, start, was, now);
      Commit(start, kept, idx, post);
    }

    // The second pass, and the frames it adds put on record. It reads as many frames for each container as that counts
    // now, and behind them the `post` frames that were behind before.
    method Lengthen(k: nat, wants: array<int>, start: nat, dataSize: nat, spare: seq<Frame>, requested: nat, post: nat,
                    ghost cs0: seq<Container>, ghost w0: seq<int>, ghost was: seq<nat>, ghost goal: seq<nat>,
                    ghost cnt: seq<nat>)
      requires Shape() && |was| == |goal|
        && AllReleased(cs0, w0, containers, wants[..], k, page, was, Nows(was, goal), goal)
      requires Asked(cs0, w0, k, page, was, goal) && RunOf(cs0, w0, k, dataSize)
      requires cnt == CountsLeft(cs0, w0, k, page, was, goal) && Counting(Nows(was, goal), goal, cnt)
      requires start + Sum(Nows(was, goal)) + post == pfnsNum && requested + Sum(Nows(was, goal)) == Sum(goal)
      requires requested <= |spare| && start <= |mapped| <= pfnsNum && mapped == Frames()[..|mapped|]
      modifies this
      ensures pfnsNum == old(pfnsNum) + requested <= |pfns| && Settled(cs0, w0, containers, k, page, was, goal)
      ensures Frames() == Second(old(pfns), stale, old(pfnsNum), start, Nows(was, goal), goal, cnt, spare)
      ensures Short(was, goal, cnt) <= pfnsNum && mapped == Frames()[..pfnsNum - Short(was, goal, cnt)]
    {
      hide Rewritten, AllReleased, SecondPass, Laid, News, Sum, RunOf, Settled, Grown, Asked, CountsLeft, MovedRest,
           Second, Counting;
      ghost var cs1, p, now, num := containers, pfns, Nows(was, goal), pfnsNum;
      ghost var fin := Grown(cnt, now, goal);
      AllFits(cs0, w0, cs1, wants[..], k, page, was, now, goal);
      GrownNews(now, goal, cnt);
      AssertPfnsStorage(pfnsNum + requested);
      var more, idx := Regain(k, wants, start, dataSize, spare, requested, cs0, w0, was, now, goal, cnt);
      ghost var cs2 := containers;
      ShiftRest(k + wants.Length, requested);
      SecondDone(cs0, w0, cs1, wants[..], cs2, containers, k, page, was, now, goal);
      SecondWritten(p, pfns, stale, num, start, now, goal, cnt, spare, post, more);
      Shorter(p, pfns, |mapped|, |p|);
      Commit(start, more, idx, post);
    }

    // ContainerRealloc2: the containers, the frames on record, and those freed. When too few frames come, these and the
    // spare ones are lost.
    method ContainerRealloc2(k: nat, wants: array<int>, dataSize: nat, grant: seq<Frame>)
      returns (ok: bool, freed: seq<Frame>, lost: seq<Frame>, ghost was: seq<nat>, ghost goal: seq<nat>,
               ghost cnt: seq<nat>)
      requires Shape() && Covered() && RunOf(containers, wants[..], k, dataSize)
      modifies this, wants
      ensures Shape() && Covered() && Asked(old(containers), old(wants[..]), k, page, was, goal)
      ensures cnt == CountsLeft(old(containers), old(wants[..]), k, page, was, goal)
      ensures Call(old(pfns), old(pfnsNum), old(PagesBefore(containers, k, page)), was, goal, cnt)
      ensures ok <==> Sum(goal) <= Sum(was) + |grant|
      ensures ok ==> lost == [] && pfnsNum + Sum(was) == old(pfnsNum) + Sum(goal)
      ensures ok ==> Settled(old(containers), old(wants[..]), containers, k, page, was, goal)
      ensures ok && old(Packed(containers, base)) ==>
        (Packed(containers, base) <==> InLine(old(containers), old(wants[..]), k, page, was, goal))
      ensures ok && old(Counted()) ==> (Counted() <==> AllCan(old(containers), old(wants[..]), k, page))
      ensures ok ==>
        Recorded(old(pfns), Frames(), stale, old(pfnsNum), old(PagesBefore(containers, k, page)), was, goal, cnt,
                 grant, freed)
      ensures ok ==> Unmapped(was, goal, cnt) <= pfnsNum && mapped == Frames()[..pfnsNum - Unmapped(was, goal, cnt)]
      ensures ok && Aligned(old(containers), old(wants[..]), k, page) ==>
        && Conserved(old(Frames()), Frames(), freed, grant[..Excess(Sum(goal), Sum(was))])
        && Spliced(old(Frames()), Frames(), old(PagesBefore(containers, k, page)), was, goal)
      ensures !ok ==> freed == [] && Conserved(old(Frames()), Frames(), lost, grant) && mapped == Frames()
      ensures !ok ==> Spliced(old(Frames()), Frames(), old(PagesBefore(containers, k, page)), was, Nows(was, goal))
      ensures !ok ==>
        AllReleased(old(containers), old(wants[..]), containers, wants[..], k, page, was, Nows(was, goal), goal)
      ensures !ok && old(Counted()) ==> (Counted() <==> ShrunkCan(old(containers), old(wants[..]), k, page))
    {
      hide AllReleased, Sum, RunOf, PagesBefore, Asked, CountsLeft, Settled, Call, AllCan, ShrunkCan, Aligned, Nows,
           Conserved, Spliced, AfterFirst, NumFirst, GivenUp, Second, Counting, EndFreed, EndRecord, Pool, Recorded,
           Packed, InLine;
      ghost var cs0, w0, p, num := containers, wants[..], pfns, pfnsNum;
      RunInside(cs0, w0, k, dataSize);
      var start := GetPFNsPosition(k);
      var spare, requested, post;
      spare, requested, post, was, goal := Shorten(k, wants, start, dataSize);
      ReleasedAsked(cs0, w0, containers, wants[..], k, page, was, Nows(was, goal), goal);
      CallOf(cs0, w0, k, page, was, goal, p, num);
      cnt := CountsLeft(cs0, w0, k, page, was, goal);
      CallFacts(p, num, start, was, goal, cnt, grant);
      var remaining := |spare| - requested;
      freed, lost, ok := spare[if remaining > 0 then requested else |spare|..], [], true;
      if requested == 0 {
        NowsEqual(was, goal);
        OnlyFirst(cs0, w0, containers, wants[..], k, page, was, goal, goal);
        EndNone(p, stale, num, start, was, goal, cnt, grant);
      } else {
        var pool := spare;
        if remaining < 0 {
          if |grant| < -remaining {
            TooFew(p, num, start, was, goal, grant);
            CountedFirst(cs0, w0, containers, wants[..], k, page, was, Nows(was, goal), goal);
            return false, [], spare + grant, was, goal, cnt;
          }
          pool := spare + grant[..-remaining];
        }
        Lengthen(k, wants, start, dataSize, pool, requested, post, cs0, w0, was, goal, cnt);
        EndSame(p, stale, num, start, was, goal, cnt, grant, pool);
      }
      CountedEnd(cs0, w0, containers, k, page, was, goal);
      ShortEnd(cs0, w0, containers, k, page, was, goal);
      if Packed(cs0, base) { PackedEnd(cs0, w0, containers, k, page, was, goal, base); }
      EndRecorded(p, stale, num, start, was, goal, cnt, grant);
      if Aligned(cs0, w0, k, page) { AlignedEnd(cs0, w0, k, page, was, goal, p, stale, num, start, grant); }
    }
  }

  // A new container starts where the last one ends, and the pages it can share are all on record.
  lemma NextPlace(cs: seq<Container>, base: int, c: Container, page: nat)
    requires Packed(cs, base) && page > 0 && base % page == 0 && c.ref == AddressAt(cs, base, |cs|)
    ensures cs == [] ==> c.PriorFreeBytes(page) == 0
    ensures cs != [] ==> c.PriorFreeBytes(page) == cs[|cs| - 1].GuestBytes(page)
    ensures var mapping := if cs == [] then base else cs[|cs| - 1].NextMappingAddress(page);
      mapping >= base && Nr(mapping - base, page) == PagesBefore(cs, |cs|, page)
  {
    Position(cs, base, |cs|, page);
    ModMul(PagesBefore(cs, |cs|, page), page);
    if cs == [] { UpUnique(base, base, page); }
  }

  lemma Behind(m: seq<Frame>, pfns: seq<Frame>, num: nat, add: seq<Frame>)
    requires num + |add| <= |pfns| && m == pfns[..num]
    ensures Moved(pfns, num + |add|, num, 0) == pfns
    ensures (pfns[..num] + add + pfns[num + |add|..])[num..num + |add|] == add
    ensures m[..num] + add + m[num..] == m + add
  {}

  function Refs(cs: seq<Container>): (r: seq<int>)
    ensures |r| == |cs|
  {
    seq(|cs|, i requires 0 <= i < |cs| => cs[i].ref)
  }

  // Containers in order can be searched by address.
  lemma RefsSorted(cs: seq<Container>, base: int)
    requires Loose(cs, base)
    ensures Sorted(Refs(cs)) && (cs != [] ==> cs[0].ref == base)
  {
    if cs != [] { assert LooseAt(cs, base, 0); }
    forall i, j | 0 <= i <= j < |cs| ensures Refs(cs)[i] <= Refs(cs)[j] {
      if i < j { InOrder(cs, base, i, j); RefInside(cs, base, i); }
    }
  }

  lemma NotThere(cs: seq<Container>, user: int)
    requires user !in Refs(cs)
    ensures forall i | 0 <= i < |cs| :: cs[i].ref != user
  {
    forall i | 0 <= i < |cs| ensures cs[i].ref != user { assert Refs(cs)[i] in Refs(cs); }
  }

  lemma Prepared(cs: seq<Container>, base: int, k: nat, newSize: nat, page: nat, mapped: seq<Frame>, pfns: seq<Frame>,
                 pfnsNum: nat, store: Store)
    requires Loose(cs, base) && Placed(cs, base, k, page) && base % page == 0
    requires FramesOk(mapped, pfns, pfnsNum, store, page) && AddressAt(cs, base, |cs|) - base <= |View(mapped, store)|
    ensures cs[k].typeSize > 0 && BytesFor(cs[k], RequestedPages(cs[k], newSize, page), page) >= 0
    ensures 0 <= cs[k].NextAddress() - base <= |View(mapped, store)|
    ensures var pages := RequestedPages(cs[k], newSize, page); pages == cs[k].PageCount(page) ==>
      Target(cs, k, pages, page) == cs && CutAfter(cs[k], base, pages, page) == cs[k].NextAddress() - base
  {
    hide RequestedPages, Container.PageCount, BytesFor, FramesOk, View, Target, CutAfter, AddressAt;
    assert LooseAt(cs, base, k);
    EnoughPages(cs[k], newSize, page);
    TargetSame(cs, base, k, page);
    RefInside(cs, base, k);
  }

  // The pages of a container are on record.
  lemma Reach(cs: seq<Container>, base: int, k: nat, page: nat, mapped: seq<Frame>, pfns: seq<Frame>, pfnsNum: nat,
              store: Store)
    requires Loose(cs, base) && Placed(cs, base, k, page) && base % page == 0
    requires FramesOk(mapped, pfns, pfnsNum, store, page) && AddressAt(cs, base, |cs|) - base <= |View(mapped, store)|
    ensures PagesBefore(cs, k, page) + cs[k].PageCount(page) <= pfnsNum
  {
    hide Container.PageCount, FramesOk, View, AddressAt, PagesBefore, Start, CutAfter, BytesFor;
    var c := cs[k];
    Geometry(cs, base, k, page, 0);
    RefInside(cs, base, k);
    Parts(mapped, pfns, pfnsNum, store, page);
    ViewLength(mapped, store, page);
    PagesMapped(c.NextAddress() - base, c.GuestBytes(page), PagesBefore(cs, k, page) + c.PageCount(page), pfnsNum,
                page);
  }

  // Containers end to end whose pages are those mapped lie in mapped memory.
  lemma AllMapped(cs: seq<Container>, base: int, page: nat, mapped: seq<Frame>, pfns: seq<Frame>, pfnsNum: nat,
                  store: Store)
    requires Packed(cs, base) && page > 0 && base % page == 0 && pfnsNum == PagesBefore(cs, |cs|, page)
    requires FramesOk(mapped, pfns, pfnsNum, store, page)
    ensures AddressAt(cs, base, |cs|) - base <= |View(mapped, store)|
  {
    hide FramesOk, View, PagesBefore;
    Position(cs, base, |cs|, page);
    UpFacts(AddressAt(cs, base, |cs|), page);
    Parts(mapped, pfns, pfnsNum, store, page);
    ViewLength(mapped, store, page);
  }

  lemma Spoilt(mapped: seq<Frame>, was: seq<Frame>, pfns: seq<Frame>, pfnsNum: nat, s: Store, store: Store, page: nat)
    requires FramesOk(mapped, was, pfnsNum, s, page) && pfnsNum <= |pfns| && Backed(mapped, store, page)
    ensures FramesOk(mapped, pfns, pfnsNum, store, page) <==> pfns[..pfnsNum] == mapped && store.Keys == Elems(mapped)
  {}

  lemma ResizeUsable(cs: seq<Container>, cs': seq<Container>, v: seq<Byte>, v': seq<Byte>, base: int, k: nat,
                     newSize: nat, page: nat)
    requires Reallocated(cs, cs', v, v', base, k, newSize, page) && base % page == 0
    ensures |cs'| == |cs| && cs[k].typeSize > 0 && Loose(cs', base) && AddressAt(cs', base, |cs'|) - base <= |v'|
    ensures var pages := RequestedPages(cs[k], newSize, page);
      && (Packed(cs, base) ==> (Packed(cs', base) <==> k == |cs| - 1 || WholeChange(cs[k], pages, page)))
      && PagesBefore(cs', |cs'|, page) <= PagesBefore(cs, |cs|, page) + pages - cs[k].PageCount(page)
      && (PagesBefore(cs', |cs'|, page) == PagesBefore(cs, |cs|, page) + pages - cs[k].PageCount(page)
          <==> CountKept(cs[k], pages, page))
      && (WholeChange(cs[k], pages, page) ==> CountKept(cs[k], pages, page))
      && forall i: nat | i < |cs| && Placed(cs, base, i, page) ::
           Placed(cs', base, i, page) <==> i <= k || CountKept(cs[k], pages, page)
  {
    hide RequestedPages, BytesFor, WholeChange, CountKept, PagesBefore, Container.PageCount, Packed, Loose, Placed,
         AddressAt, Resize, Target;
    var pages := RequestedPages(cs[k], newSize, page);
    forall i: nat | i < |cs| && Placed(cs, base, i, page)
      ensures Placed(cs', base, i, page) <==> i <= k || CountKept(cs[k], pages, page)
    {
      PlacedAfter(cs, base, k, pages, page, i);
    }
    LastInside(cs, cs', v, v', base, k);
  }

  lemma AllOnRecord(mapped: seq<Frame>, pfns: seq<Frame>, pfnsNum: nat, store: Store, page: nat)
    requires FramesOk(mapped, pfns, pfnsNum, store, page)
    ensures |mapped| == pfnsNum <= |pfns| && mapped == pfns[..pfnsNum][..|mapped|]
  {}

  // The last container still ends in mapped memory.
  lemma LastInside(cs: seq<Container>, cs': seq<Container>, v: seq<Byte>, v': seq<Byte>, base: int, k: nat)
    requires Resize(cs, cs', v, v', base, k)
    ensures |cs'| == |cs| && AddressAt(cs', base, |cs'|) - base <= |v'|
  {
    hide Container.NextAddress;
    if k != |cs| - 1 { assert SameBytes(cs, v, cs', v', base, |cs| - 1); }
  }
}
