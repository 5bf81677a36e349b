// What splicing a list of page frames does to the bytes seen through it, and to containers packed in them (vcmalloc.h).
module Remap {
  import opened Base
  import opened Frames
  import opened Containers

  // memmove inside an array
  function Moved<T>(s: seq<T>, to: nat, from: nat, n: nat): (r: seq<T>)
    requires to + n <= |s| && from + n <= |s|
    ensures |r| == |s|
  {
    s[..to] + s[from..from + n] + s[to + n..]
  }

  // The page an offset is in, and where in the page it is.
  function Nr(a: nat, page: nat): nat
    requires page > 0
  {
    a / page
  }

  function Ofs(a: nat, page: nat): nat
    requires page > 0
  {
    a % page
  }

  // The frames on record are the mapped ones, each mapped once, and the process has no others.
  ghost predicate FramesOk(mapped: seq<Frame>, pfns: seq<Frame>, pfnsNum: nat, store: Store, page: nat) {
    && pfnsNum <= |pfns| && mapped == pfns[..pfnsNum]
    && NoDup(mapped) && Backed(mapped, store, page) && store.Keys == Elems(mapped)
  }

  // Frames the operating system has left to give, with what they happen to hold.
  ghost predicate GrantOk(grant: seq<Frame>, contents: Store, store: Store, page: nat) {
    NoDup(grant) && Backed(grant, contents, page) && forall f | f in grant :: f !in store
  }

  ghost function Bytes(v: seq<Byte>, c: Container, base: int): seq<Byte>
    requires base <= c.ref && c.NextAddress() - base <= |v|
  {
    v[c.ref - base..c.NextAddress() - base]
  }

  // Every container reads the same before and after.
  ghost predicate SameBytes(cs: seq<Container>, v: seq<Byte>, cs': seq<Container>, v': seq<Byte>, base: int, i: nat) {
    && i < |cs| && i < |cs'| && base <= cs[i].ref && cs[i].NextAddress() - base <= |v|
    && base <= cs'[i].ref && cs'[i].NextAddress() - base <= |v'|
    && Bytes(v', cs'[i], base) == Bytes(v, cs[i], base)
  }

  // ---- adding frames

  ghost predicate PutIn(m: seq<Frame>, m': seq<Frame>, grant: seq<Frame>, i: nat, steps: nat) {
    i <= |m| && steps <= |grant| && m' == m[..i] + grant[..steps] + m[i..]
  }

  ghost predicate Inserted(v: seq<Byte>, v': seq<Byte>, more: seq<Byte>, i: nat, n: nat) {
    i <= |v| && |more| == n && v' == v[..i] + more + v[i..]
  }

  // Everything before `from` stays, everything after it is now after `to`.
  ghost predicate BytesIn(v: seq<Byte>, v': seq<Byte>, from: int, to: int) {
    0 <= from <= to && from <= |v| && |v'| == |v| + (to - from) && v'[..from] == v[..from] && v'[to..] == v[from..]
  }

  function Granted(store: Store, add: seq<Frame>, contents: Store): Store
    requires forall f | f in add :: f in contents
  {
    store + (map f | f in add :: contents[f])
  }

  lemma PutBytes(v: seq<Byte>, v1: seq<Byte>, v2: seq<Byte>, more: seq<Byte>, from: nat, n: nat, j: nat, steps: nat)
    requires Inserted(v, v1, more, j, steps) && from + n == j && n <= steps
    requires v2 == v1[..from + steps] + v1[from..from + n] + v1[from + steps + n..]
    ensures BytesIn(v, v2, from, from + steps)
  {
    SpliceIn(v, more, v1, v2, from, j);
  }

  lemma MoreRoom(mapped: seq<Frame>, pfns: seq<Frame>, pfns': seq<Frame>, pfnsNum: nat, store: Store, page: nat)
    requires FramesOk(mapped, pfns, pfnsNum, store, page) && |pfns| <= |pfns'| && pfns'[..|pfns|] == pfns
    ensures FramesOk(mapped, pfns', pfnsNum, store, page)
  {
    assert pfns'[..pfnsNum] == pfns'[..|pfns|][..pfnsNum];
  }

  lemma GrowCuts(c: Container, base: int, start: nat, pages: nat, page: nat)
    requires page > 0 && base % page == 0 && pages > c.PageCount(page) && c.ref >= base && c.GuestBytes(page) < page
    requires c.NextAddress() - base + c.GuestBytes(page) == Start(start + c.PageCount(page), page)
    requires CutAfter(c, base, pages, page) + c.GuestBytes(page) == Start(start + pages, page)
    requires c.MappingAddress(page) - base == Start(start, page)
    ensures c.NextAddress() - base + Start(pages - c.PageCount(page), page) == CutAfter(c, base, pages, page)
    ensures c.NextAddress() >= base && c.GuestBytes(page) <= Start(pages - c.PageCount(page), page)
    ensures Nr(c.MappingAddress(page) - base, page) == start
  {
    StartAdd(start + c.PageCount(page), pages - c.PageCount(page), page);
    ModMul(start, page);
    MulLe(1, pages - c.PageCount(page), page);
  }

  lemma AddPfns(pfns: seq<Frame>, num: nat, at: nat, i: nat, add: seq<Frame>)
    requires at <= i <= num && num + |add| <= |pfns|
    ensures var moved, m := Moved(pfns, i + |add|, i, num - i), pfns[..num];
      var pfns' := moved[..i] + add + moved[i + |add|..];
      && |pfns'| == |pfns| && pfns'[..num + |add|] == m[..i] + add + m[i..]
      && m[..at] + pfns'[at..num + |add|] == m[..i] + add + m[i..]
  {
    var moved, m := Moved(pfns, i + |add|, i, num - i), pfns[..num];
    var pfns' := moved[..i] + add + moved[i + |add|..];
    assert pfns'[..num + |add|] == m[..i] + add + m[i..];
    assert m[..at] + pfns'[at..num + |add|] == pfns'[..num + |add|];
  }

  // The record after too few frames came: room made for `steps` of them at i, and those that came written there.
  function Overwritten(pfns: seq<Frame>, num: nat, i: nat, steps: nat, grant: seq<Frame>): (r: seq<Frame>)
    requires i <= num && num + steps <= |pfns| && |grant| < steps
    ensures |r| == |pfns|
  {
    var moved := Moved(pfns, i + steps, i, num - i);
    moved[..i] + grant + moved[i + |grant|..]
  }

  // It still is that of the mapping exactly if no frame on record was behind i, or none came and none was moved onto
  // another.
  lemma RecordLost(pfns: seq<Frame>, num: nat, i: nat, steps: nat, grant: seq<Frame>)
    requires i <= num && num + steps <= |pfns| && |grant| < steps
    requires NoDup(pfns[..num]) && forall f | f in grant :: f !in pfns[..num]
    ensures Overwritten(pfns, num, i, steps, grant)[..num] == pfns[..num] <==>
      i == num || (grant == [] && num <= i + steps)
  {
    var m, r := pfns[..num], Overwritten(pfns, num, i, steps, grant)[..num];
    if i < num && grant != [] {
      assert r[i] == grant[0] && grant[0] in grant && m[i] in m;
    } else if i + steps < num {
      assert r[i + steps] == m[i];
    } else {
      assert r == m;
    }
  }

  // Four frames on record of which the last is moved onto, and three of which one is written over.
  lemma RecordExample(g: Frame)
    requires g > 3
    ensures Overwritten([1, 2, 3, 4, 0], 4, 1, 1, []) == [1, 2, 2, 3, 4]
    ensures Overwritten([1, 2, 3, 0, 0], 3, 1, 2, [g]) == [1, g, 3, 2, 3]
  {
    assert Moved([1, 2, 3, 4, 0], 2, 1, 3) == [1, 2, 2, 3, 4];
    assert Moved([1, 2, 3, 0, 0], 3, 1, 2) == [1, 2, 3, 2, 3];
  }

  lemma GrantHeld(grant: seq<Frame>, n: nat, contents: Store, store: Store, page: nat)
    requires GrantOk(grant, contents, store, page) && n <= |grant|
    ensures forall f | f in grant[..n] :: f in contents
  {
    forall x | 0 <= x < n ensures grant[..n][x] in contents { assert HasPage(contents, grant[x], page); }
  }

  // Frames that came for nothing are the process's, and mapped nowhere.
  lemma GrantLost(m: seq<Frame>, store: Store, grant: seq<Frame>, n: nat, contents: Store, page: nat)
    requires Backed(m, store, page) && store.Keys == Elems(m) && GrantOk(grant, contents, store, page) && n <= |grant|
    ensures forall f | f in grant[..n] :: f in contents && f !in m
    ensures var store' := Granted(store, grant[..n], contents);
      && Backed(m, store', page) && View(m, store') == View(m, store)
      && (store'.Keys == Elems(m) <==> n == 0)
  {
    forall x | 0 <= x < n ensures grant[..n][x] in contents && grant[..n][x] !in m {
      assert HasPage(contents, grant[x], page) && grant[x] in grant;
    }
    var store' := Granted(store, grant[..n], contents);
    forall x | 0 <= x < |m| ensures HasPage(store', m[x], page) && Page(store', m[x]) == Page(store, m[x]) {
      assert HasPage(store, m[x], page) && m[x] in m;
    }
    ViewFrame(m, store, store');
    if n > 0 {
      assert grant[0] == grant[..n][0] && grant[0] in store'.Keys;
    } else {
      assert store' == store;
    }
  }

  // All of it: the record and the mapping after the new frames came in.
  lemma AddAll(m: seq<Frame>, pfns: seq<Frame>, num: nat, store: Store, at: nat, i: nat, grant: seq<Frame>, steps: nat,
               contents: Store, page: nat)
    requires FramesOk(m, pfns, num, store, page) && at <= i <= num && num + steps <= |pfns|
    requires GrantOk(grant, contents, store, page) && steps <= |grant|
    ensures forall f | f in grant[..steps] :: f in contents
    ensures var add, moved := grant[..steps], Moved(pfns, i + steps, i, num - i);
      var pfns', store' := moved[..i] + add + moved[i + steps..], Granted(store, add, contents);
      && |pfns'| == |pfns| && m[..at] + pfns'[at..num + steps] == m[..i] + add + m[i..]
      && FramesOk(m[..i] + add + m[i..], pfns', num + steps, store', page)
      && Inserted(View(m, store), View(m[..i] + add + m[i..], store'), View(add, contents), Start(i, page),
                  Start(steps, page))
  {
    hide NoDup, Backed, View, Granted, Start, Moved, GrantOk, Inserted, FramesOk;
    Parts(m, pfns, num, store, page);
    AddView(m, store, i, grant, steps, contents, page);
    AddPfns(pfns, num, at, i, grant[..steps]);
    var add, moved := grant[..steps], Moved(pfns, i + steps, i, num - i);
    FramesMatch(m[..i] + add + m[i..], moved[..i] + add + moved[i + steps..], num + steps,
                Granted(store, add, contents), page);
  }

  lemma AddView(m: seq<Frame>, store: Store, i: nat, grant: seq<Frame>, steps: nat, contents: Store, page: nat)
    requires NoDup(m) && Backed(m, store, page) && store.Keys == Elems(m) && i <= |m|
    requires GrantOk(grant, contents, store, page) && steps <= |grant|
    ensures forall f | f in grant[..steps] :: f in contents
    ensures var m', store' := m[..i] + grant[..steps] + m[i..], Granted(store, grant[..steps], contents);
      && NoDup(m') && Backed(m', store', page) && store'.Keys == Elems(m')
      && Inserted(View(m, store), View(m', store'), View(grant[..steps], contents), Start(i, page), Start(steps, page))
  {
    var add := grant[..steps];
    AddFacts(m, store, i, grant, steps, contents, page);
    hide NoDup, Backed, Start, View, Granted, GrantOk, Page;
    var m', store' := m[..i] + add + m[i..], Granted(store, add, contents);
    ViewCut(m, i, store, page);
    ViewLength(add, contents, page);
    ViewConcat(m[..i] + add, m[i..], store');
    ViewConcat(m[..i], add, store');
    ViewFrame(m[..i], store, store');
    ViewFrame(m[i..], store, store');
    ViewFrame(add, contents, store');
  }

  lemma AddFacts(m: seq<Frame>, store: Store, i: nat, grant: seq<Frame>, steps: nat, contents: Store, page: nat)
    requires NoDup(m) && Backed(m, store, page) && store.Keys == Elems(m) && i <= |m|
    requires GrantOk(grant, contents, store, page) && steps <= |grant|
    ensures forall f | f in grant[..steps] :: f in contents
    ensures var add := grant[..steps]; var m', store' := m[..i] + add + m[i..], Granted(store, add, contents);
      && NoDup(m') && Backed(m', store', page) && store'.Keys == Elems(m') && Backed(add, contents, page)
      && (forall x | 0 <= x < i :: Page(store', m[..i][x]) == Page(store, m[..i][x]))
      && (forall x | 0 <= x < |m| - i :: Page(store', m[i..][x]) == Page(store, m[i..][x]))
      && (forall x | 0 <= x < steps :: Page(store', add[x]) == Page(contents, add[x]))
  {
    var add := grant[..steps];
    forall x | 0 <= x < steps ensures add[x] in contents && HasPage(contents, add[x], page) && add[x] !in m {
      assert HasPage(contents, grant[x], page) && grant[x] in grant;
    }
    var m', store' := m[..i] + add + m[i..], Granted(store, add, contents);
    forall x | 0 <= x < |m'| ensures HasPage(store', m'[x], page) {
      if x < i { assert HasPage(store, m[x], page) && m[x] in m; }
      else if x >= i + steps { assert HasPage(store, m[x - steps], page) && m[x - steps] in m; }
    }
    Joined(m, i, add);
    forall f: nat ensures f in store' <==> f in m' { assert m == m[..i] + m[i..]; }
  }

  lemma Joined(m: seq<Frame>, i: nat, add: seq<Frame>)
    requires NoDup(m) && NoDup(add) && i <= |m| && forall f | f in add :: f !in m
    ensures NoDup(m[..i] + add + m[i..])
  {
    var m' := m[..i] + add + m[i..];
    forall x, y | 0 <= x < y < |m'| ensures m'[x] != m'[y] {
      assert x < i ==> m'[x] == m[x];
      assert i <= x < i + |add| ==> m'[x] in add;
      assert x >= i + |add| ==> m'[x] == m[x - |add|];
      assert i <= y < i + |add| ==> m'[y] in add;
      assert y >= i + |add| ==> m'[y] == m[y - |add|];
    }
  }


  // ---- specification of a resize

  function Delta(c: Container, pages: nat, page: nat): int
    requires page > 0
  {
    Start(pages, page) - Start(c.PageCount(page), page)
  }

  ghost function Target(cs: seq<Container>, k: nat, pages: nat, page: nat): seq<Container>
    requires page > 0 && k < |cs| && cs[k].typeSize > 0 && BytesFor(cs[k], pages, page) >= 0
  {
    Resized(cs, k, NewElements(cs[k], pages, page), Delta(cs[k], pages, page))
  }

  lemma ElementsFill(c: Container, pages: nat, page: nat)
    requires page > 0 && c.typeSize > 0 && BytesFor(c, pages, page) == c.Size() + Delta(c, pages, page) >= 0
    ensures c.typeSize * NewElements(c, pages, page) <= c.Size() + Delta(c, pages, page)
    ensures c.typeSize * NewElements(c, pages, page) == c.Size() + Delta(c, pages, page) <==>
      WholeChange(c, pages, page)
  {
    hide BytesFor, Delta;
    WholeElements(c, Delta(c, pages, page));
    Quotient(BytesFor(c, pages, page), c.typeSize, 0);
  }

  // Frames i to j are gone.
  ghost predicate CutOut(m: seq<Frame>, m': seq<Frame>, i: nat, j: nat) {
    i <= j <= |m| && m' == m[..i] + m[j..]
  }

  ghost predicate BytesOut(v: seq<Byte>, v': seq<Byte>, to: int, from: int) {
    0 <= to <= from <= |v| && v' == v[..to] + v[from..]
  }

  function Freed(store: Store, frames: seq<Frame>): Store { map f | f in store && f !in frames :: store[f] }

  lemma Parts(mapped: seq<Frame>, pfns: seq<Frame>, pfnsNum: nat, store: Store, page: nat)
    requires FramesOk(mapped, pfns, pfnsNum, store, page)
    ensures pfnsNum <= |pfns| && mapped == pfns[..pfnsNum] && NoDup(mapped) && Backed(mapped, store, page)
      && |mapped| == pfnsNum
    ensures store.Keys == Elems(mapped)
  {}

  lemma FramesMatch(mapped: seq<Frame>, pfns: seq<Frame>, pfnsNum: nat, store: Store, page: nat)
    requires pfnsNum <= |pfns| && mapped == pfns[..pfnsNum] && NoDup(mapped) && Backed(mapped, store, page)
      && store.Keys == Elems(mapped)
    ensures FramesOk(mapped, pfns, pfnsNum, store, page)
  {}

  // ---- dropping frames

  lemma DropView(m: seq<Frame>, pfns: seq<Frame>, num: nat, store: Store, i: nat, j: nat, page: nat)
    requires FramesOk(m, pfns, num, store, page) && i <= j <= num
    ensures var m', store' := m[..i] + m[j..], Freed(store, pfns[i..j]);
      && NoDup(m') && Backed(m', store', page) && store'.Keys == Elems(m')
      && BytesOut(View(m, store), View(m', store'), Start(i, page), Start(j, page))
  {
    hide NoDup, Backed, Start, View, Freed, FramesOk;
    Parts(m, pfns, num, store, page);
    var m', store' := m[..i] + m[j..], Freed(store, pfns[i..j]);
    SubSlice(pfns, num, i, j);
    Dropped(m, i, j);
    DropKeys(m, store, i, j, page);
    ViewCut(m, i, store, page);
    ViewCut(m, j, store, page);
    StartAdd(i, j - i, page);
    ViewConcat(m[..i], m[j..], store);
    ViewFrame(m', store, store');
  }

  lemma SubSlice(s: seq<Frame>, n: nat, i: nat, j: nat)
    requires i <= j <= n <= |s|
    ensures s[..n][i..j] == s[i..j]
  {}

  lemma Dropped(m: seq<Frame>, i: nat, j: nat)
    requires NoDup(m) && i <= j <= |m|
    ensures NoDup(m[..i] + m[j..]) && forall f :: f in m[..i] + m[j..] <==> f in m && f !in m[i..j]
  {
    var m' := m[..i] + m[j..];
    assert forall x | 0 <= x < |m'| :: m'[x] == m[if x < i then x else x + (j - i)];
    forall f | f in m' ensures f in m && f !in m[i..j] {
      var x :| 0 <= x < |m'| && m'[x] == f;
      forall y | 0 <= y < |m[i..j]| ensures m[i..j][y] != f { assert m[i..j][y] == m[i + y]; }
    }
    forall f | f in m && f !in m[i..j] ensures f in m' {
      var x :| 0 <= x < |m| && m[x] == f;
      assert m'[if x < i then x else x - (j - i)] == f;
    }
  }

  lemma DropKeys(m: seq<Frame>, store: Store, i: nat, j: nat, page: nat)
    requires NoDup(m) && Backed(m, store, page) && store.Keys == Elems(m) && i <= j <= |m|
    requires forall f :: f in m[..i] + m[j..] <==> f in m && f !in m[i..j]
    ensures var m', store' := m[..i] + m[j..], Freed(store, m[i..j]);
      && Backed(m', store', page) && store'.Keys == Elems(m')
      && forall x | 0 <= x < |m'| :: Page(store', m'[x]) == Page(store, m'[x])
  {
    var m', store' := m[..i] + m[j..], Freed(store, m[i..j]);
    forall x | 0 <= x < |m'| ensures HasPage(store', m'[x], page) && Page(store', m'[x]) == Page(store, m'[x]) {
      assert m'[x] in m';
      assert HasPage(store, m'[x], page) by { assert m'[x] == m[if x < i then x else x + (j - i)]; }
    }
    forall f: nat ensures f in store' <==> f in m' { assert f in store <==> f in m; }
  }

  lemma DropPfns(pfns: seq<Frame>, num: nat, at: nat, i: nat, j: nat)
    requires at <= i <= j <= num <= |pfns|
    ensures var pfns', num', m := Moved(pfns, i, j, num - j), num - (j - i), pfns[..num];
      && |pfns'| == |pfns| && pfns'[..num'] == m[..i] + m[j..] && m[..at] + pfns'[at..num'] == m[..i] + m[j..]
  {
    var pfns', num', m := Moved(pfns, i, j, num - j), num - (j - i), pfns[..num];
    assert pfns'[..num'] == m[..i] + m[j..];
    assert m[..at] + pfns'[at..num'] == pfns'[..num'];
  }

  lemma ShrinkCuts(c: Container, base: int, start: nat, pages: nat, page: nat)
    requires page > 0 && base % page == 0 && pages <= c.PageCount(page) && c.ref >= base
      && BytesFor(c, pages, page) >= 0
    requires c.NextAddress() - base + c.GuestBytes(page) == Start(start + c.PageCount(page), page)
    requires CutAfter(c, base, pages, page) + c.GuestBytes(page) == Start(start + pages, page)
    requires c.MappingAddress(page) - base == Start(start, page)
    ensures c.NextAddress() - base - Start(c.PageCount(page) - pages, page) == CutAfter(c, base, pages, page) >= 0
    ensures Nr(c.MappingAddress(page) - base, page) == start
  {
    StartAdd(start + pages, c.PageCount(page) - pages, page);
    ModMul(start, page);
  }

  // The guests moved down, the pages between the ends cut out: what is left are the bytes before and after.
  lemma CutBytes(v: seq<Byte>, v1: seq<Byte>, v2: seq<Byte>, to: int, from: nat, n: nat, i: nat, j: nat)
    requires 0 <= to <= from && to + n == i && from + n == j <= |v|
    requires v1 == v[..to] + v[from..from + n] + v[to + n..] && BytesOut(v1, v2, i, j)
    ensures BytesOut(v, v2, to, from)
  {
    SpliceOut(v, v1, v2, to, from, i, j);
  }

  lemma NothingMoved(v: seq<Byte>, to: nat, from: nat)
    requires to <= |v| && from <= |v|
    ensures v == v[..to] + v[from..from + 0] + v[to + 0..]
  {}

  lemma TailMoved(mapped: seq<Frame>, store: Store, to: nat, from: nat, n: nat, i: nat, j: nat, page: nat)
    requires Backed(mapped, store, page) && NoDup(mapped) && 0 < n < page && i <= |mapped| && j <= |mapped|
    requires to + n == Start(i, page) && from + n == Start(j, page)
    ensures Nr(to, page) < |mapped| && Nr(from, page) < |mapped|
    ensures var fd, fs, ofs := mapped[Nr(to, page)], mapped[Nr(from, page)], Ofs(from, page);
      && fd in store && fs in store && ofs <= |store[fd]| && ofs <= |store[fs]|
      && Backed(mapped, store[fd := store[fd][..ofs] + store[fs][ofs..]], page)
      && to + n <= |View(mapped, store)| && from + n <= |View(mapped, store)|
      && View(mapped, store[fd := store[fd][..ofs] + store[fs][ofs..]]) ==
        View(mapped, store)[..to] + View(mapped, store)[from..from + n] + View(mapped, store)[to + n..]
  {
    hide Backed, Start, View, NoDup, Nr, Ofs;
    LastPage(to, n, i, page);
    LastPage(from, n, j, page);
    ViewCopy(mapped, i - 1, j - 1, Ofs(from, page), store, page);
  }

  lemma LastPage(a: nat, n: nat, i: nat, page: nat)
    requires 0 < n < page && a + n == Start(i, page)
    ensures i > 0 && Nr(a, page) == i - 1 && Ofs(a, page) == page - n && a == Start(i - 1, page) + (page - n)
    ensures Start(i, page) == Start(i - 1, page) + page
  {
    assert i == 0 ==> Start(i, page) == 0;
    StartNext(i - 1, page);
    DivUnique(i - 1, page - n, page);
  }

  // Where the bytes of a container end if it has so many pages.
  ghost function CutAfter(c: Container, base: int, pages: nat, page: nat): int
    requires page > 0
  {
    c.ref - base + BytesFor(c, pages, page)
  }

  // How the bytes of a container lie in its pages.
  lemma Geometry(cs: seq<Container>, base: int, k: nat, page: nat, pages: nat)
    requires Loose(cs, base) && Placed(cs, base, k, page) && base % page == 0
    ensures var c, start := cs[k], PagesBefore(cs, k, page);
      && c.typeSize > 0 && c.ref >= base && c.GuestBytes(page) < page
      && c.MappingAddress(page) - base == Start(start, page)
      && c.NextAddress() - base + c.GuestBytes(page) == Start(start + c.PageCount(page), page)
      && CutAfter(c, base, pages, page) + c.GuestBytes(page) == Start(start + pages, page)
      && CutAfter(c, base, c.PageCount(page), page) == c.NextAddress() - base
      && BytesFor(c, pages, page) - c.Size() == Start(pages, page) - Start(c.PageCount(page), page)
  {
    hide Container.PageCount, PagesBefore, PageIndex, Up;
    var c, start := cs[k], PagesBefore(cs, k, page);
    assert LooseAt(cs, base, k);
    Ordered(cs, base, 0, k);
    Boundary(c.ref, base, page);
    Boundary(c.NextAddress(), base, page);
    CountIndex(c, base, page);
    Edges(c, page);
    UpFacts(c.NextAddress(), page);
    UpFacts(c.ref, page);
    StartAdd(start, c.PageCount(page), page);
    StartAdd(start, pages, page);
  }

  // The pages of a container whose bytes are mapped are on record.
  lemma PagesMapped(end: int, guests: nat, pages: nat, num: nat, page: nat)
    requires page > 0 && guests < page && end + guests == Start(pages, page) && end <= Start(num, page)
    ensures pages <= num
  {
    if pages > num { MulLe(num + 1, pages, page); }
  }

  // ---- the outcome of a resize

  // Pages come and go in whole elements.
  predicate WholeChange(c: Container, pages: nat, page: nat)
    requires page > 0 && c.typeSize > 0
  {
    Delta(c, pages, page) % c.typeSize == 0
  }

  function Min(a: int, b: int): int { if a <= b then a else b }

  // The bytes before the end of the container stay where they are, up to its new end; those after it move along.
  ghost predicate Kept(v: seq<Byte>, v': seq<Byte>, from: int, to: int) {
    0 <= from <= |v| && 0 <= to <= |v'| && Min(from, to) <= |v| && v'[..Min(from, to)] == v[..Min(from, to)]
      && v'[to..] == v[from..]
  }

  lemma KeptOut(v: seq<Byte>, v': seq<Byte>, to: int, from: int)
    requires BytesOut(v, v', to, from)
    ensures Kept(v, v', from, to)
  {}

  lemma KeptIn(v: seq<Byte>, v': seq<Byte>, from: int, to: int)
    requires BytesIn(v, v', from, to)
    ensures Kept(v, v', from, to)
  {}

  lemma KeptAll(v: seq<Byte>, end: int)
    requires 0 <= end <= |v|
    ensures Kept(v, v, end, end)
  {}

  ghost predicate FirstBytes(c: Container, v: seq<Byte>, c': Container, v': seq<Byte>, base: int) {
    && c'.ref == c.ref && c'.typeSize == c.typeSize && base <= c.ref && c.NextAddress() - base <= |v|
    && c'.NextAddress() - base <= |v'|
    && v'[c.ref - base..c.ref - base + Min(c.Size(), c'.Size())] ==
         v[c.ref - base..c.ref - base + Min(c.Size(), c'.Size())]
  }

  // All other containers read as before, and the resized one keeps the bytes that fit.
  ghost predicate Resize(cs: seq<Container>, cs': seq<Container>, v: seq<Byte>, v': seq<Byte>, base: int, k: nat) {
    && |cs| == |cs'| && k < |cs|
    && (forall i: nat | i < |cs| && i != k :: SameBytes(cs, v, cs', v', base, i))
    && FirstBytes(cs[k], v, cs'[k], v', base)
  }

  lemma ResizeKeeps(cs: seq<Container>, v: seq<Byte>, v': seq<Byte>, base: int, k: nat, elements: nat, delta: int)
    requires Loose(cs, base) && k < |cs| && AddressAt(cs, base, |cs|) - base <= |v|
      && cs[k].typeSize * elements <= cs[k].Size() + delta
    requires Kept(v, v', cs[k].NextAddress() - base, cs[k].NextAddress() - base + delta)
    ensures Resize(cs, Resized(cs, k, elements, delta), v, v', base, k)
  {
    hide Container.Size, Kept;
    var cs' := Resized(cs, k, elements, delta);
    RefInside(cs, base, k);
    assert cs'[k].Size() == cs[k].typeSize * elements by { ResizedSize(cs, k, elements, delta); }
    FirstKept(cs[k], v, cs'[k], v', base, cs[k].NextAddress() - base, cs[k].NextAddress() - base + delta);
    forall i: nat | i < |cs| && i != k ensures SameBytes(cs, v, cs', v', base, i) {
      RefInside(cs, base, i);
      if i < k { InOrder(cs, base, i, k); } else { InOrder(cs, base, k, i); }
      ByteWise(v, v', cs[i], cs'[i], base, cs[k].NextAddress() - base, cs[k].NextAddress() - base + delta, i < k);
    }
  }

  lemma ResizedSize(cs: seq<Container>, k: nat, elements: nat, delta: int)
    requires k < |cs|
    ensures Resized(cs, k, elements, delta)[k].Size() == cs[k].typeSize * elements
  {}

  lemma RefInside(cs: seq<Container>, base: int, i: nat)
    requires Loose(cs, base) && i < |cs|
    ensures base <= cs[i].ref <= cs[i].NextAddress() <= AddressAt(cs, base, |cs|)
  {
    assert LooseAt(cs, base, i);
    Ordered(cs, base, 0, i);
    Ordered(cs, base, i + 1, |cs|);
  }

  lemma InOrder(cs: seq<Container>, base: int, i: nat, j: nat)
    requires Loose(cs, base) && i < j < |cs|
    ensures cs[i].NextAddress() <= cs[j].ref <= cs[j].NextAddress()
  {
    assert LooseAt(cs, base, j);
    Ordered(cs, base, i + 1, j);
  }

  lemma ByteWise(v: seq<Byte>, v': seq<Byte>, c: Container, c': Container, base: int, from: int, to: int, before: bool)
    requires Kept(v, v', from, to) && base <= c.ref && c.NextAddress() - base <= |v| && c'.typeSize == c.typeSize
      && c'.elements == c.elements
    requires if before then c'.ref == c.ref && c.NextAddress() - base <= from && c.NextAddress() - base <= to
             else c'.ref == c.ref + (to - from) && c.ref - base >= from
    ensures base <= c'.ref && c'.NextAddress() - base <= |v'| && Bytes(v', c', base) == Bytes(v, c, base)
  {
    SameSize(c, c');
    hide Container.Size;
    var a, n := c.ref - base, c.Size();
    if before {
      SubSlices(v, v', Min(from, to), a, a + n);
    } else {
      TailSlices(v, v', from, to, a - from, a - from + n);
    }
  }

  lemma SameSize(c: Container, c': Container)
    requires c'.typeSize == c.typeSize && c'.elements == c.elements
    ensures c'.Size() == c.Size()
  {}

  lemma FirstKept(c: Container, v: seq<Byte>, c': Container, v': seq<Byte>, base: int, from: int, to: int)
    requires Kept(v, v', from, to) && from == c.NextAddress() - base && c'.NextAddress() - base <= to
    requires c'.ref == c.ref && c'.typeSize == c.typeSize && base <= c.ref
    ensures FirstBytes(c, v, c', v', base)
  {
    SubSlices(v, v', Min(from, to), c.ref - base, c.ref - base + Min(c.Size(), c'.Size()));
  }

  lemma SubSlices(v: seq<Byte>, v': seq<Byte>, m: int, a: int, b: int)
    requires 0 <= a <= b <= m <= |v| && m <= |v'| && v'[..m] == v[..m]
    ensures v'[a..b] == v[a..b]
  {
    assert v'[..m][a..b] == v'[a..b] && v[..m][a..b] == v[a..b];
  }

  lemma TailSlices(v: seq<Byte>, v': seq<Byte>, from: int, to: int, a: int, b: int)
    requires 0 <= from <= |v| && 0 <= to <= |v'| && v'[to..] == v[from..] && 0 <= a <= b <= |v| - from
    ensures to + b <= |v'| && v'[to + a..to + b] == v[from + a..from + b]
  {
    assert |v'[to..]| == |v[from..]|;
    assert v'[to..][a..b] == v'[to + a..to + b] && v[from..][a..b] == v[from + a..from + b];
  }

  // The containers after one got so many pages: still end to end exactly if these are whole elements or no container
  // follows, and their pages as many as the frames exactly if the container counts those it was given.
  ghost predicate NewPages(cs: seq<Container>, cs': seq<Container>, base: int, k: nat, pages: nat, page: nat)
    requires page > 0 && k < |cs| && cs[k].typeSize > 0
  {
    && BytesFor(cs[k], pages, page) >= 0 && cs' == Target(cs, k, pages, page)
    && Loose(cs', base)
    && (Packed(cs, base) ==> (Packed(cs', base) <==> k == |cs| - 1 || WholeChange(cs[k], pages, page)))
    && PagesBefore(cs', |cs|, page) <= PagesBefore(cs, |cs|, page) + pages - cs[k].PageCount(page)
    && (PagesBefore(cs', |cs|, page) == PagesBefore(cs, |cs|, page) + pages - cs[k].PageCount(page)
        <==> CountKept(cs[k], pages, page))
    && (WholeChange(cs[k], pages, page) ==> CountKept(cs[k], pages, page))
  }

  // What the code promises of a resize.
  ghost predicate Reallocated(cs: seq<Container>, cs': seq<Container>, v: seq<Byte>, v': seq<Byte>, base: int, k: nat,
                              newSize: nat, page: nat) {
    && page > 0 && k < |cs| && cs[k].typeSize > 0
    && NewPages(cs, cs', base, k, RequestedPages(cs[k], newSize, page), page)
    && cs'[k].elements >= newSize && Resize(cs, cs', v, v', base, k)
  }

  lemma ResizeDone(cs: seq<Container>, v: seq<Byte>, v': seq<Byte>, base: int, k: nat, newSize: nat, page: nat)
    requires Loose(cs, base) && k < |cs| && page > 0 && base % page == 0 && AddressAt(cs, base, |cs|) - base <= |v|
    requires Kept(v, v', cs[k].NextAddress() - base, CutAfter(cs[k], base, RequestedPages(cs[k], newSize, page), page))
    requires cs[k].typeSize > 0 && BytesFor(cs[k], RequestedPages(cs[k], newSize, page), page) >= 0
    ensures Reallocated(cs, Target(cs, k, RequestedPages(cs[k], newSize, page), page), v, v', base, k, newSize, page)
  {
    var c, pages := cs[k], RequestedPages(cs[k], newSize, page);
    hide BytesFor, Loose, Delta, Start, NewElements, WholeChange, PagesBefore, AddressAt, Container.PageCount;
    hide Resize, RequestedPages, Kept, CountKept, NewPages;
    EnoughPages(c, newSize, page);
    DeltaBytes(c, base, pages, page);
    ElementsFill(c, pages, page);
    EnoughElements(c, newSize, pages, page);
    ResizeKeeps(cs, v, v', base, k, NewElements(c, pages, page), Delta(c, pages, page));
    PagesDone(cs, base, k, pages, page);
  }

  lemma PagesDone(cs: seq<Container>, base: int, k: nat, pages: nat, page: nat)
    requires Loose(cs, base) && k < |cs| && page > 0 && base % page == 0
    requires cs[k].typeSize > 0 && BytesFor(cs[k], pages, page) >= 0
    ensures NewPages(cs, Target(cs, k, pages, page), base, k, pages, page)
  {
    var c := cs[k];
    hide BytesFor, Packed, Loose, Delta, NewElements, WholeChange, PagesBefore, Container.PageCount, CountKept;
    DeltaBytes(c, base, pages, page);
    ElementsFill(c, pages, page);
    ResizedLoose(cs, base, k, NewElements(c, pages, page), Delta(c, pages, page));
    if Packed(cs, base) { ResizedPacked(cs, base, k, NewElements(c, pages, page), Delta(c, pages, page)); }
    TargetCount(cs, k, pages, page);
    if WholeChange(c, pages, page) { WholeKept(c, pages, page); }
  }

  lemma EnoughElements(c: Container, newSize: nat, pages: nat, page: nat)
    requires page > 0 && c.typeSize > 0 && BytesFor(c, pages, page) >= newSize * c.typeSize
    ensures BytesFor(c, pages, page) >= 0 && NewElements(c, pages, page) >= newSize
  {
    hide BytesFor;
    Quotient(BytesFor(c, pages, page), c.typeSize, newSize);
  }

  lemma Quotient(n: nat, d: nat, q: nat)
    requires d > 0 && n >= q * d
    ensures n / d >= q && d * (n / d) <= n
  {
    if n / d < q { MulLe(n / d + 1, q, d); }
  }

  lemma DeltaPages(c: Container, pages: nat, page: nat)
    requires page > 0
    ensures Delta(c, pages, page) == (pages - c.PageCount(page)) * page
  {
    hide Container.PageCount;
  }

  lemma TargetCount(cs: seq<Container>, k: nat, pages: nat, page: nat)
    requires k < |cs| && page > 0 && cs[k].typeSize > 0 && BytesFor(cs[k], pages, page) >= 0
    ensures PagesBefore(Target(cs, k, pages, page), |cs|, page) + cs[k].PageCount(page)
      <= PagesBefore(cs, |cs|, page) + pages
    ensures CountKept(cs[k], pages, page) <==>
      PagesBefore(Target(cs, k, pages, page), |cs|, page) + cs[k].PageCount(page) == PagesBefore(cs, |cs|, page) + pages
  {
    var c, t := cs[k], Target(cs, k, pages, page);
    hide BytesFor, Delta, NewElements, CountKept, PagesBefore, Container.PageCount;
    DeltaPages(c, pages, page);
    forall m: nat | m < |cs| && m != k ensures t[m].PageCount(page) == cs[m].PageCount(page) {
      CountShift(cs[m], pages - c.PageCount(page), page);
    }
    CountAfter(c, pages, page);
    OneCount(cs, t, k, page);
  }

  lemma WholeKept(c: Container, pages: nat, page: nat)
    requires page > 0 && c.typeSize > 0 && BytesFor(c, pages, page) >= 0 && WholeChange(c, pages, page)
    ensures CountKept(c, pages, page)
  {
    DeltaBytes(c, 0, pages, page);
    ModShift(Delta(c, pages, page), c.elements, c.typeSize);
    UpFacts(c.NextAddress(), page);
    hide BytesFor, Delta;
    assert c.elements * c.typeSize == c.Size();
    CountIndex(c, 0, page);
  }

  lemma DeltaBytes(c: Container, base: int, pages: nat, page: nat)
    requires page > 0 && base % page == 0
    ensures BytesFor(c, pages, page) == c.Size() + Delta(c, pages, page)
  {
    BytesChange(c, pages, base, page);
    DeltaPages(c, pages, page);
  }

  // A resize to the pages there are changes nothing.
  lemma TargetSame(cs: seq<Container>, base: int, k: nat, page: nat)
    requires k < |cs| && cs[k].typeSize > 0 && page > 0 && base % page == 0
    ensures BytesFor(cs[k], cs[k].PageCount(page), page) == cs[k].Size()
    ensures Target(cs, k, cs[k].PageCount(page), page) == cs
    ensures CutAfter(cs[k], base, cs[k].PageCount(page), page) == cs[k].NextAddress() - base
  {
    var c := cs[k];
    hide BytesFor, Container.PageCount, Start;
    BytesChange(c, c.PageCount(page), base, page);
    ModMul(c.elements, c.typeSize);
    assert c.Size() == c.elements * c.typeSize;
  }

  // Which containers are found where they are, after one got so many pages: those before it as they were, and those
  // behind it exactly if it counts the pages it was given.
  lemma PlacedAfter(cs: seq<Container>, base: int, k: nat, pages: nat, page: nat, i: nat)
    requires k < |cs| && i < |cs| && page > 0 && base % page == 0
    requires cs[k].typeSize > 0 && BytesFor(cs[k], pages, page) >= 0
    ensures |Target(cs, k, pages, page)| == |cs|
    ensures i <= k ==> (Placed(Target(cs, k, pages, page), base, i, page) <==> Placed(cs, base, i, page))
    ensures i > k && CountKept(cs[k], pages, page) ==>
      (Placed(Target(cs, k, pages, page), base, i, page) <==> Placed(cs, base, i, page))
    ensures i > k && Placed(cs, base, i, page) ==>
      (Placed(Target(cs, k, pages, page), base, i, page) <==> CountKept(cs[k], pages, page))
  {
    hide BytesFor, Delta, NewElements, CountKept, PagesBefore, Container.PageCount, PageIndex;
    var c, t := cs[k], Target(cs, k, pages, page);
    if i <= k {
      SamePages(cs, t, i, page);
    } else {
      DeltaPages(c, pages, page);
      IndexShift(cs[i].ref, pages - c.PageCount(page), base, page);
      CountAfter(c, pages, page);
      BeforeTarget(cs, k, pages, page, i);
    }
  }

  lemma IndexShift(a: int, n: int, base: int, page: nat)
    requires page > 0
    ensures PageIndex(a + n * page, base, page) == PageIndex(a, base, page) + n
  {
    UpShift(a, n, page);
    ModShift(Up(a, page) - base, n, page);
  }

  lemma BeforeTarget(cs: seq<Container>, k: nat, pages: nat, page: nat, i: nat)
    requires k < i <= |cs| && page > 0 && cs[k].typeSize > 0 && BytesFor(cs[k], pages, page) >= 0
    ensures PagesBefore(Target(cs, k, pages, page), i, page) - PagesBefore(cs, i, page)
      == Target(cs, k, pages, page)[k].PageCount(page) - cs[k].PageCount(page)
  {
    hide BytesFor, Delta, NewElements, Container.PageCount;
    var c, t := cs[k], Target(cs, k, pages, page);
    DeltaPages(c, pages, page);
    forall m: nat | k < m < i ensures t[m].PageCount(page) == cs[m].PageCount(page) {
      CountShift(cs[m], pages - c.PageCount(page), page);
    }
    SamePages(cs, t, k, page);
    SameCounts(cs, t, k + 1, i, page);
  }

  // Containers of 12-byte elements lose their place: two pages of 4096 are not a whole number of them.
  lemma GapExample() returns (first: Container, second: Container)
    ensures first == Container(0, 12, 1) && second == Container(12, 12, 1)
    ensures RequestedPages(first, 2, 4096) == 2 && BytesFor(first, 2, 4096) >= 0
    ensures Packed([first, second], 0) && !Packed(Target([first, second], 0, 2, 4096), 0)
    ensures !WholeChange(first, 2, 4096)
  {
    hide Packed, BytesFor, RequestedPages, Target, Delta;
    first, second := Container(0, 12, 1), Container(12, 12, 1);
    GapBytes(first);
    GapPlaces(first, second);
  }

  lemma GapBytes(first: Container)
    requires first == Container(0, 12, 1)
    ensures RequestedPages(first, 2, 4096) == 2 && BytesFor(first, 2, 4096) == 4108
    ensures NewElements(first, 2, 4096) == 342 && Delta(first, 2, 4096) == 4096
  {
    hide Container.GuestBytes, Container.PriorFreeBytes, Container.PageCount, Container.MappingAddress,
         Container.NextMappingAddress;
    Edges(first, 4096);
    assert Up(0, 4096) == 0 && Up(12, 4096) == 4096;
    assert RequestedBytes(first, 2, 4096) == 4108;
  }

  lemma GapPlaces(first: Container, second: Container)
    requires first == Container(0, 12, 1) && second == Container(12, 12, 1) && BytesFor(first, 2, 4096) >= 0
    requires NewElements(first, 2, 4096) == 342 && Delta(first, 2, 4096) == 4096
    ensures Packed([first, second], 0) && !Packed(Target([first, second], 0, 2, 4096), 0)
  {
    hide BytesFor, NewElements, Delta, Resized;
    assert PackedAt([first, second], 0, 0) && PackedAt([first, second], 0, 1);
    ResizedPacked([first, second], 0, 0, 342, 4096);
  }
}
