// Memory as a list of mapped page frames and the bytes of each frame (vcmalloc.h).
module Frames {
  import opened Base

  type Frame = nat
  type Byte = bv8

  // Contents of the physical frames.
  type Store = map<Frame, seq<Byte>>

  ghost predicate Backed(frames: seq<Frame>, store: Store, page: nat) {
    forall i | 0 <= i < |frames| :: HasPage(store, frames[i], page)
  }

  ghost predicate HasPage(store: Store, f: Frame, page: nat) { f in store && |store[f]| == page }

  // What a program sees through the mapping.
  ghost function View(frames: seq<Frame>, store: Store): seq<Byte> {
    if frames == [] then [] else View(frames[..|frames| - 1], store) + Page(store, frames[|frames| - 1])
  }

  ghost function Page(store: Store, f: Frame): seq<Byte> { if f in store then store[f] else [] }

  lemma {:induction false} ViewLength(frames: seq<Frame>, store: Store, page: nat)
    requires Backed(frames, store, page)
    ensures |View(frames, store)| == Start(|frames|, page)
  {
    if frames != [] {
      var n := |frames| - 1;
      assert HasPage(store, frames[n], page);
      assert Backed(frames[..n], store, page) by {
        forall i | 0 <= i < n ensures HasPage(store, frames[..n][i], page) { assert HasPage(store, frames[i], page); }
      }
      ViewLength(frames[..n], store, page);
      StartNext(n, page);
    }
  }

  lemma {:induction false} ViewConcat(a: seq<Frame>, b: seq<Frame>, store: Store)
    ensures View(a + b, store) == View(a, store) + View(b, store)
    decreases |b|
  {
    if b == [] {
      assert a + b == a;
    } else {
      var n := |b| - 1;
      ViewConcat(a, b[..n], store);
      assert (a + b)[..|a + b| - 1] == a + b[..n];
      assert (a + b)[|a + b| - 1] == b[n];
    }
  }

  // Only the frames in the mapping matter.
  lemma {:induction false} ViewFrame(frames: seq<Frame>, store: Store, store': Store)
    requires forall i | 0 <= i < |frames| :: Page(store', frames[i]) == Page(store, frames[i])
    ensures View(frames, store') == View(frames, store)
  {
    if frames != [] { ViewFrame(frames[..|frames| - 1], store, store'); }
  }

  lemma BackedParts(a: seq<Frame>, b: seq<Frame>, store: Store, page: nat)
    ensures Backed(a + b, store, page) <==> Backed(a, store, page) && Backed(b, store, page)
  {
    if Backed(a + b, store, page) {
      forall i | 0 <= i < |a| ensures HasPage(store, a[i], page) { assert HasPage(store, (a + b)[i], page); }
      forall i | 0 <= i < |b| ensures HasPage(store, b[i], page) { assert HasPage(store, (a + b)[|a| + i], page); }
    }
  }

  // Where page i starts in a view.
  function Start(i: nat, page: nat): nat { i * page }

  lemma StartNext(i: nat, page: nat)
    ensures Start(i + 1, page) == Start(i, page) + page && Start(0, page) == 0
  {}

  lemma StartAdd(i: nat, j: nat, page: nat)
    ensures Start(i + j, page) == Start(i, page) + Start(j, page)
  {}

  // A view cut at a page boundary.
  lemma ViewCut(frames: seq<Frame>, i: nat, store: Store, page: nat)
    requires Backed(frames, store, page) && i <= |frames|
    ensures Backed(frames[..i], store, page) && Backed(frames[i..], store, page)
    ensures Start(i, page) <= Start(|frames|, page) == |View(frames, store)|
    ensures View(frames[..i], store) == View(frames, store)[..Start(i, page)]
      && View(frames[i..], store) == View(frames, store)[Start(i, page)..]
  {
    hide Start, View;
    assert frames == frames[..i] + frames[i..];
    BackedParts(frames[..i], frames[i..], store, page);
    ViewConcat(frames[..i], frames[i..], store);
    ViewLength(frames[..i], store, page);
    ViewLength(frames, store, page);
    ViewLength(frames[i..], store, page);
    StartAdd(i, |frames| - i, page);
  }

  // One page rewritten, where no frame is mapped twice.
  lemma ViewWrite(frames: seq<Frame>, i: nat, store: Store, bytes: seq<Byte>, page: nat)
    requires Backed(frames, store, page) && i < |frames| && NoDup(frames) && |bytes| == page
    ensures Backed(frames, store[frames[i] := bytes], page)
    ensures View(frames, store[frames[i] := bytes]) == View(frames[..i], store) + bytes + View(frames[i + 1..], store)
  {
    var store' := store[frames[i] := bytes];
    forall k | 0 <= k < |frames| ensures HasPage(store', frames[k], page) { assert HasPage(store, frames[k], page); }
    assert frames == frames[..i] + [frames[i]] + frames[i + 1..];
    ViewConcat(frames[..i] + [frames[i]], frames[i + 1..], store');
    ViewConcat(frames[..i], [frames[i]], store');
    OnePage(frames[i], store');
    ViewFrame(frames[..i], store, store');
    ViewFrame(frames[i + 1..], store, store');
  }

  // The bytes of one page.
  lemma ViewPage(frames: seq<Frame>, i: nat, store: Store, page: nat)
    requires Backed(frames, store, page) && i < |frames|
    ensures |Page(store, frames[i])| == page
    ensures Start(i, page) + page <= |View(frames, store)|
    ensures View(frames, store)[Start(i, page)..Start(i, page) + page] == Page(store, frames[i])
  {
    assert HasPage(store, frames[i], page);
    hide Start, View, Backed, HasPage, Page;
    ViewNext(frames, i, store);
    ViewFront(frames, i, store, page);
    ViewFront(frames, i + 1, store, page);
    StartNext(i, page);
    Middle(View(frames, store), View(frames[..i], store), Page(store, frames[i]), Start(i, page), page);
  }

  lemma ViewFront(frames: seq<Frame>, i: nat, store: Store, page: nat)
    requires Backed(frames, store, page) && i <= |frames|
    ensures Start(i, page) <= |View(frames, store)| && View(frames[..i], store) == View(frames, store)[..Start(i, page)]
  {
    ViewCut(frames, i, store, page);
  }

  lemma ViewNext(frames: seq<Frame>, i: nat, store: Store)
    requires i < |frames|
    ensures View(frames[..i + 1], store) == View(frames[..i], store) + Page(store, frames[i])
  {
    assert frames[..i + 1] == frames[..i] + [frames[i]];
    hide Start, View;
    ViewConcat(frames[..i], [frames[i]], store);
    OnePage(frames[i], store);
  }

  lemma Middle(v: seq<Byte>, front: seq<Byte>, p: seq<Byte>, a: nat, n: nat)
    requires a + n <= |v| && v[..a + n] == front + p && |front| == a && |p| == n
    ensures v[a..a + n] == p
  {
    assert v[..a + n][a..] == v[a..a + n];
  }

  lemma OnePage(f: Frame, store: Store)
    ensures View([f], store) == Page(store, f)
  {
    assert View([], store) == [];
  }

  // Copying n bytes at the same offset of two pages.
  ghost function CopyIn(store: Store, to: Frame, from: Frame, ofs: nat): Store
    requires to in store && from in store && ofs <= |store[to]| && ofs <= |store[from]|
  {
    store[to := store[to][..ofs] + store[from][ofs..]]
  }

  // The tail of page j goes to the tail of page i.
  lemma ViewCopy(frames: seq<Frame>, i: nat, j: nat, ofs: nat, store: Store, page: nat)
    requires Backed(frames, store, page) && i < |frames| && j < |frames| && NoDup(frames) && ofs <= page
    ensures HasPage(store, frames[i], page) && HasPage(store, frames[j], page)
    ensures Backed(frames, CopyIn(store, frames[i], frames[j], ofs), page)
    ensures Start(i, page) + page <= |View(frames, store)| && Start(j, page) + page <= |View(frames, store)|
    ensures View(frames, CopyIn(store, frames[i], frames[j], ofs)) ==
      View(frames, store)[..Start(i, page) + ofs] + View(frames, store)[Start(j, page) + ofs..Start(j, page) + page]
        + View(frames, store)[Start(i, page) + page..]
  {
    hide View, Start, Backed;
    PageOf(frames, i, store, page);
    PageOf(frames, j, store, page);
    ViewMerge(frames, i, j, ofs, store, page, store[frames[i]], store[frames[j]]);
  }

  lemma PageOf(frames: seq<Frame>, i: nat, store: Store, page: nat)
    requires Backed(frames, store, page) && i < |frames|
    ensures HasPage(store, frames[i], page)
  {}

  lemma ViewMerge(frames: seq<Frame>, i: nat, j: nat, ofs: nat, store: Store, page: nat, x: seq<Byte>, y: seq<Byte>)
    requires Backed(frames, store, page) && i < |frames| && j < |frames| && NoDup(frames) && ofs <= page == |x| == |y|
    requires x == Page(store, frames[i]) && y == Page(store, frames[j])
    ensures Backed(frames, store[frames[i] := x[..ofs] + y[ofs..]], page)
    ensures Start(i, page) + page <= |View(frames, store)| && Start(j, page) + page <= |View(frames, store)|
    ensures View(frames, store[frames[i] := x[..ofs] + y[ofs..]]) ==
      View(frames, store)[..Start(i, page) + ofs] + View(frames, store)[Start(j, page) + ofs..Start(j, page) + page]
        + View(frames, store)[Start(i, page) + page..]
  {
    hide View, Start, Backed, Page;
    var bytes := x[..ofs] + y[ofs..];
    ViewWrite(frames, i, store, bytes, page);
    ViewPage(frames, i, store, page);
    ViewPage(frames, j, store, page);
    ViewFront(frames, i, store, page);
    ViewBack(frames, i, store, page);
    Tails(View(frames, store), View(frames, store[frames[i] := bytes]), View(frames[..i], store),
          View(frames[i + 1..], store),
          x, y, Start(i, page), Start(j, page), ofs, page);
  }

  lemma ViewBack(frames: seq<Frame>, i: nat, store: Store, page: nat)
    requires Backed(frames, store, page) && i < |frames|
    ensures Start(i, page) + page <= |View(frames, store)|
      && View(frames[i + 1..], store) == View(frames, store)[Start(i, page) + page..]
  {
    StartNext(i, page);
    ViewCut(frames, i + 1, store, page);
  }

  lemma Tails(v: seq<Byte>, r: seq<Byte>, front: seq<Byte>, back: seq<Byte>, x: seq<Byte>, y: seq<Byte>, a: nat, b: nat,
              ofs: nat, page: nat)
    requires a + page <= |v| && b + page <= |v| && ofs <= page && v[a..a + page] == x && v[b..b + page] == y
    requires front == v[..a] && back == v[a + page..] && r == front + (x[..ofs] + y[ofs..]) + back
    ensures r == v[..a + ofs] + v[b + ofs..b + page] + v[a + page..]
  {
    assert v[a..a + page][..ofs] == v[a..a + ofs];
    assert v[b..b + page][ofs..] == v[b + ofs..b + page];
    assert v[..a] + v[a..a + ofs] == v[..a + ofs];
  }

  // ---- what a splice of the frame list does to the bytes, guests moved along

  // Pages i to j are dropped after the bytes from `from` to the end of page j were moved down to `to`.
  lemma SpliceOut(v: seq<Byte>, v1: seq<Byte>, v2: seq<Byte>, to: nat, from: nat, i: nat, j: nat)
    requires to <= i && from <= j <= |v| && i <= j && i - to == j - from
    requires v1 == v[..to] + v[from..j] + v[i..] && v2 == v1[..i] + v1[j..]
    ensures v2 == v[..to] + v[from..]
  {
    assert v1[..i] == v[..to] + v[from..j];
    assert v1[j..] == v[j..];
    assert v[from..] == v[from..j] + v[j..];
  }

  // New pages come in at j, and the bytes from `from` to j are copied up to the end of the new ones.
  lemma SpliceIn(v: seq<Byte>, more: seq<Byte>, v1: seq<Byte>, v2: seq<Byte>, from: nat, j: nat)
    requires from <= j <= |v| && v1 == v[..j] + more + v[j..] && j - from <= |more|
    requires v2 == v1[..from + |more|] + v1[from..j] + v1[j + |more|..]
    ensures |v2| == |v| + |more| && v2[..from] == v[..from] && v2[from + |more|..] == v[from..]
  {
    assert v1[from..j] == v[from..j];
    assert v1[j + |more|..] == v[j..];
    assert v[from..] == v[from..j] + v[j..];
    assert v2[..from] == v1[..from] == v[..from];
  }
}
