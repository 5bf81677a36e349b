// Containers packed end to end, and the pages their bytes reach into (vcmalloc.h, ContainerContext).
module Containers {

  // ref is the user's pointer; page sizes are powers of two, so masking with page - 1 is the remainder.
  datatype Container = Container(ref: int, typeSize: nat, elements: nat) {
    function Size(): nat { typeSize * elements }

    function Offset(page: nat): nat
      requires page > 0
    {
      ref % page
    }

    function MappingAddress(page: nat): int
      requires page > 0
    {
      if Offset(page) != 0 then ref - ref % page + page else ref
    }

    function NextAddress(): int { ref + Size() }

    function LastPageOffset(page: nat): nat
      requires page > 0
    {
      NextAddress() % page
    }

    function NextMappingAddress(page: nat): int
      requires page > 0
    {
      if LastPageOffset(page) != 0 then NextAddress() - NextAddress() % page + page else NextAddress()
    }

    // nbrOfPages
    function PageCount(page: nat): nat
      requires page > 0
    {
      UpMono(ref, NextAddress(), page);
      (NextMappingAddress(page) - MappingAddress(page)) / page
    }

    function GuestBytes(page: nat): nat
      requires page > 0
    {
      UpFacts(NextAddress(), page);
      NextMappingAddress(page) - NextAddress()
    }

    function PriorFreeBytes(page: nat): nat
      requires page > 0
    {
      UpFacts(ref, page);
      MappingAddress(page) - ref
    }
  }

  // The least multiple of the page size that is not below a.
  ghost function Up(a: int, page: nat): int
    requires page > 0
  {
    if a % page != 0 then a - a % page + page else a
  }

  lemma UpFacts(a: int, page: nat)
    requires page > 0
    ensures a <= Up(a, page) < a + page && Up(a, page) % page == 0
  {
    if a % page != 0 {
      var q := a / page;
      assert a - a % page + page == (q + 1) * page;
      ModMul(q + 1, page);
    }
  }

  lemma ModMul(q: int, page: nat)
    requires page > 0
    ensures q * page % page == 0 && q * page / page == q
  {
    DivUnique(q, 0, page);
  }

  lemma MulLe(a: int, b: int, page: nat)
    requires a <= b
    ensures a * page <= b * page
  {}

  lemma NoGap(d: int, page: nat)
    requires d * page < page && -(d * page) < page
    ensures d == 0
  {
    if d >= 1 { MulLe(1, d, page); }
    if d <= -1 { MulLe(d, -1, page); }
  }

  lemma UpMono(a: int, b: int, page: nat)
    requires page > 0 && a <= b
    ensures Up(a, page) <= Up(b, page)
  {
    UpFacts(a, page);
    UpFacts(b, page);
    Multiples(Up(a, page), Up(b, page), page);
  }

  lemma Multiples(a: int, b: int, page: nat)
    requires page > 0 && a % page == 0 && b % page == 0 && a < b + page
    ensures a <= b
  {
    var p, q := a / page, b / page;
    assert a == p * page && b == q * page;
    if p > q { MulLe(q + 1, p, page); }
  }

  // Moving by whole pages moves the boundary along.
  lemma UpShift(a: int, n: int, page: nat)
    requires page > 0
    ensures Up(a + n * page, page) == Up(a, page) + n * page && (a + n * page) % page == a % page
  {
    ModShift(a, n, page);
  }

  lemma ModShift(a: int, n: int, page: nat)
    requires page > 0
    ensures (a + n * page) % page == a % page && (a + n * page) / page == a / page + n
  {
    var q, r := a / page, a % page;
    assert a + n * page == (q + n) * page + r;
    DivUnique(q + n, r, page);
  }

  lemma DivUnique(q: int, r: nat, page: nat)
    requires r < page
    ensures (q * page + r) / page == q && (q * page + r) % page == r
  {
    var a := q * page + r;
    var q', r' := a / page, a % page;
    assert (q - q') * page == q * page - q' * page == r' - r;
    NoGap(q - q', page);
  }

  // ---- page boundaries counted from the base address

  ghost function PageIndex(a: int, base: int, page: nat): int
    requires page > 0
  {
    (Up(a, page) - base) / page
  }

  lemma Boundary(a: int, base: int, page: nat)
    requires page > 0 && base % page == 0
    ensures Up(a, page) == base + PageIndex(a, base, page) * page
    ensures a >= base ==> PageIndex(a, base, page) >= 0
  {
    UpFacts(a, page);
    var p, q := Up(a, page) / page, base / page;
    assert Up(a, page) == p * page && base == q * page;
    assert Up(a, page) - base == (p - q) * page;
    ModMul(p - q, page);
    if a >= base {
      Multiples(base, Up(a, page), page);
      if p < q { MulLe(p + 1, q, page); }
    }
  }

  // Mapping addresses, page count and the bytes shared at either end, in terms of the page boundaries.
  lemma Edges(c: Container, page: nat)
    requires page > 0
    ensures c.MappingAddress(page) == Up(c.ref, page) && c.NextMappingAddress(page) == Up(c.NextAddress(), page)
    ensures c.PageCount(page) == (Up(c.NextAddress(), page) - Up(c.ref, page)) / page
    ensures c.PriorFreeBytes(page) == Up(c.ref, page) - c.ref
    ensures c.GuestBytes(page) == Up(c.NextAddress(), page) - c.NextAddress()
  {
    hide Container.Size;
  }

  lemma Between(i: int, j: int, base: int, page: nat)
    requires page > 0
    ensures (base + j * page - (base + i * page)) / page == j - i
    ensures (j - i) * page == j * page - i * page
  {
    assert (j - i) * page == j * page - i * page;
    ModMul(j - i, page);
  }

  // nbrOfPages is the step from one boundary to the next.
  lemma CountIndex(c: Container, base: int, page: nat)
    requires page > 0 && base % page == 0
    ensures c.MappingAddress(page) == Up(c.ref, page) && c.NextMappingAddress(page) == Up(c.NextAddress(), page)
    ensures PageIndex(c.ref, base, page) + c.PageCount(page) == PageIndex(c.NextAddress(), base, page)
    ensures c.Size() == c.PageCount(page) * page + c.PriorFreeBytes(page) - c.GuestBytes(page)
  {
    hide Up, PageIndex, Container.MappingAddress, Container.NextMappingAddress, Container.PageCount,
         Container.PriorFreeBytes, Container.GuestBytes, Container.Size;
    Edges(c, page);
    Boundary(c.ref, base, page);
    Boundary(c.NextAddress(), base, page);
    Between(PageIndex(c.ref, base, page), PageIndex(c.NextAddress(), base, page), base, page);
  }

  // ---- containers end to end

  ghost function AddressAt(cs: seq<Container>, base: int, k: nat): int
    requires k <= |cs|
  {
    if k == 0 then base else cs[k - 1].NextAddress()
  }

  ghost predicate PackedAt(cs: seq<Container>, base: int, k: nat)
    requires k < |cs|
  {
    cs[k].ref == AddressAt(cs, base, k) && cs[k].typeSize > 0
  }

  ghost predicate Packed(cs: seq<Container>, base: int) { forall k: nat | k < |cs| :: PackedAt(cs, base, k) }

  // In order from the base address on, with gaps where whole elements leave some bytes.
  ghost predicate LooseAt(cs: seq<Container>, base: int, k: nat)
    requires k < |cs|
  {
    cs[k].typeSize > 0 && if k == 0 then cs[k].ref == base else cs[k].ref >= AddressAt(cs, base, k)
  }

  ghost predicate Loose(cs: seq<Container>, base: int) { forall k: nat | k < |cs| :: LooseAt(cs, base, k) }

  lemma PackedLoose(cs: seq<Container>, base: int)
    requires Packed(cs, base)
    ensures Loose(cs, base)
  {
    forall k: nat | k < |cs| ensures LooseAt(cs, base, k) { assert PackedAt(cs, base, k); }
  }

  // getPFNsPosition of the k-th container
  ghost function PagesBefore(cs: seq<Container>, k: nat, page: nat): nat
    requires k <= |cs| && page > 0
  {
    if k == 0 then 0 else PagesBefore(cs, k - 1, page) + cs[k - 1].PageCount(page)
  }

  // The position counts the page boundaries before the container.
  lemma {:induction false} Position(cs: seq<Container>, base: int, k: nat, page: nat)
    requires Packed(cs, base) && k <= |cs| && page > 0 && base % page == 0
    ensures PagesBefore(cs, k, page) == PageIndex(AddressAt(cs, base, k), base, page) && AddressAt(cs, base, k) >= base
    ensures Up(AddressAt(cs, base, k), page) == base + PagesBefore(cs, k, page) * page
  {
    Boundary(AddressAt(cs, base, k), base, page);
    if k > 0 {
      Position(cs, base, k - 1, page);
      assert PackedAt(cs, base, k - 1);
      CountIndex(cs[k - 1], base, page);
    } else {
      ModMul(0, page);
    }
  }

  lemma {:induction false} BeforeGrows(cs: seq<Container>, i: nat, j: nat, page: nat)
    requires i <= j <= |cs| && page > 0
    ensures PagesBefore(cs, i, page) <= PagesBefore(cs, j, page)
    decreases j
  {
    if i < j { BeforeGrows(cs, i, j - 1, page); }
  }

  lemma {:induction false} Ordered(cs: seq<Container>, base: int, i: nat, j: nat)
    requires Loose(cs, base) && i <= j <= |cs|
    ensures AddressAt(cs, base, i) <= AddressAt(cs, base, j)
    decreases j
  {
    if i < j {
      Ordered(cs, base, i, j - 1);
      assert LooseAt(cs, base, j - 1);
    }
  }

  // The frames found for a container by counting pages are those at its address.
  ghost predicate Placed(cs: seq<Container>, base: int, k: nat, page: nat) {
    page > 0 && k < |cs| && PagesBefore(cs, k, page) == PageIndex(cs[k].ref, base, page)
  }

  lemma PackedPlaced(cs: seq<Container>, base: int, k: nat, page: nat)
    requires Packed(cs, base) && k < |cs| && page > 0 && base % page == 0
    ensures Placed(cs, base, k, page)
  {
    assert PackedAt(cs, base, k);
    Position(cs, base, k, page);
  }

  // ---- a new size for one of them

  function RequestedBytes(c: Container, newSize: nat, page: nat): nat
    requires page > 0
  {
    var bytes := newSize * c.typeSize - c.PriorFreeBytes(page) + c.GuestBytes(page);
    if bytes < 0 then 0 else bytes
  }

  // The pages a size takes, rounding up.
  function Ceil(bytes: nat, page: nat): nat
    requires page > 0
  {
    (bytes + page - 1) / page
  }

  lemma CeilLeast(bytes: nat, page: nat)
    requires page > 0
    ensures bytes <= Ceil(bytes, page) * page < bytes + page
  {
    var n := bytes + page - 1;
    assert n == n / page * page + n % page;
  }

  function RequestedPages(c: Container, newSize: nat, page: nat): nat
    requires page > 0
  {
    Ceil(RequestedBytes(c, newSize, page), page)
  }

  // The bytes a container ends up with once it has so many pages.
  function BytesFor(c: Container, pages: nat, page: nat): int
    requires page > 0
  {
    pages * page + c.PriorFreeBytes(page) - c.GuestBytes(page)
  }

  // They are enough for the size asked for, with as few pages as possible.
  lemma EnoughPages(c: Container, newSize: nat, page: nat)
    requires page > 0
    ensures var pages := RequestedPages(c, newSize, page);
      BytesFor(c, pages, page) >= newSize * c.typeSize
        && (pages > 0 ==> BytesFor(c, pages - 1, page) < newSize * c.typeSize)
  {
    var bytes := RequestedBytes(c, newSize, page);
    var pages := RequestedPages(c, newSize, page);
    CeilLeast(bytes, page);
    assert pages > 0 ==> (pages - 1) * page == pages * page - page;
    if pages > 0 { MulLe(1, pages, page); }
  }

  // Bytes change with pages.
  lemma BytesChange(c: Container, pages: nat, base: int, page: nat)
    requires page > 0 && base % page == 0
    ensures BytesFor(c, pages, page) == c.Size() + (pages - c.PageCount(page)) * page
  {
    CountIndex(c, base, page);
    assert (pages - c.PageCount(page)) * page == pages * page - c.PageCount(page) * page;
  }

  // The containers after the k-th got `elements` and the later ones moved by delta.
  ghost function Resized(cs: seq<Container>, k: nat, elements: nat, delta: int): (r: seq<Container>)
    requires k < |cs|
    ensures |r| == |cs|
  {
    seq(|cs|, i requires 0 <= i < |cs| =>
      if i < k then cs[i] else if i == k then cs[i].(elements := elements) else cs[i].(ref := cs[i].ref + delta))
  }

  // They stay end to end exactly if the new elements fill the bytes, or no container follows.
  lemma ResizedPacked(cs: seq<Container>, base: int, k: nat, elements: nat, delta: int)
    requires Packed(cs, base) && k < |cs|
    ensures Packed(Resized(cs, k, elements, delta), base) <==>
      k == |cs| - 1 || cs[k].typeSize * elements == cs[k].Size() + delta
    ensures cs[k].typeSize * elements == cs[k].Size() + delta ==>
      AddressAt(Resized(cs, k, elements, delta), base, |cs|) == AddressAt(cs, base, |cs|) + delta
  {
    var r := Resized(cs, k, elements, delta);
    var full := cs[k].typeSize * elements == cs[k].Size() + delta;
    assert PackedAt(cs, base, k);
    if k + 1 < |cs| {
      assert PackedAt(cs, base, k + 1);
      assert PackedAt(r, base, k + 1) <==> full;
    }
    if full || k == |cs| - 1 {
      forall i: nat | i < |r| ensures PackedAt(r, base, i) { assert PackedAt(cs, base, i); }
    }
  }

  // They stay in order if the new elements fit the bytes.
  lemma ResizedLoose(cs: seq<Container>, base: int, k: nat, elements: nat, delta: int)
    requires Loose(cs, base) && k < |cs| && cs[k].typeSize * elements <= cs[k].Size() + delta
    ensures Loose(Resized(cs, k, elements, delta), base)
  {
    var r := Resized(cs, k, elements, delta);
    forall i: nat | i < |r| ensures LooseAt(r, base, i) {
      assert LooseAt(cs, base, i);
      if i > 0 { NextResized(cs, k, elements, delta, i - 1); }
    }
  }

  lemma NextResized(cs: seq<Container>, k: nat, elements: nat, delta: int, i: nat)
    requires k < |cs| && i < |cs| && cs[k].typeSize * elements <= cs[k].Size() + delta
    ensures Resized(cs, k, elements, delta)[i].NextAddress() <= cs[i].NextAddress() + if i < k then 0 else delta
  {}

  // Filling the bytes is a matter of whole elements: the change in pages must be one in elements.
  lemma WholeElements(c: Container, delta: int)
    requires c.typeSize > 0 && c.Size() + delta >= 0
    ensures c.typeSize * ((c.Size() + delta) / c.typeSize) == c.Size() + delta <==> delta % c.typeSize == 0
  {
    var t, n := c.typeSize, c.Size() + delta;
    ModShift(delta, c.elements, t);
    assert c.elements * t == c.Size();
    assert n % t == delta % t;
    assert n == n / t * t + n % t;
  }

  // As many whole elements as the new bytes hold.
  function NewElements(c: Container, pages: nat, page: nat): nat
    requires page > 0 && c.typeSize > 0 && BytesFor(c, pages, page) >= 0
  {
    BytesFor(c, pages, page) / c.typeSize
  }

  // The bytes that hold no whole element still leave the new end in the last page.
  predicate CountKept(c: Container, pages: nat, page: nat)
    requires page > 0 && c.typeSize > 0
  {
    c.GuestBytes(page) + BytesFor(c, pages, page) % c.typeSize < page
  }

  // Of pages from a boundary on, g bytes short of their end, all are reached exactly if g is less than a page.
  lemma BoundaryCount(up: int, pages: nat, g: nat, page: nat)
    requires page > 0 && up % page == 0
    ensures (Up(up + pages * page - g, page) - up) / page <= pages
    ensures (Up(up + pages * page - g, page) - up) / page == pages <==> g < page
  {
    var n := pages * page;
    ModShift(up, pages, page);
    ModMul(pages, page);
    if g < page {
      UpUnique(up + n - g, up + n, page);
    } else {
      var x := Up(up + n - g, page) - up;
      UpFacts(up + n - g, page);
      assert x == x / page * page + x % page;
      if x / page >= pages { MulLe(pages, x / page, page); }
    }
  }

  // Given so many pages, a container counts as many afterwards exactly then.
  lemma CountAfter(c: Container, pages: nat, page: nat)
    requires page > 0 && c.typeSize > 0 && BytesFor(c, pages, page) >= 0
    ensures c.(elements := NewElements(c, pages, page)).PageCount(page) == pages <==> CountKept(c, pages, page)
    ensures c.(elements := NewElements(c, pages, page)).PageCount(page) <= pages
  {
    var c', left := c.(elements := NewElements(c, pages, page)), BytesFor(c, pages, page) % c.typeSize;
    var up := Up(c.ref, page);
    UpFacts(c.ref, page);
    assert c'.Size() == BytesFor(c, pages, page) - left;
    assert c'.NextAddress() == up + pages * page - (c.GuestBytes(page) + left);
    BoundaryCount(up, pages, c.GuestBytes(page) + left, page);
  }

  // 1024 elements of 12 bytes fit in three pages of 4096, so the fourth page they were given is not counted.
  lemma CountExample()
    ensures var c := Container(0, 12, 683);
      c.PageCount(4096) == 3 && RequestedPages(c, 1024, 4096) == 4 && !CountKept(c, 4, 4096)
    ensures var c := Container(0, 12, 683);
      NewElements(c, 4, 4096) == 1024 && c.(elements := 1024).PageCount(4096) == 3
  {
  }

  // Moved by whole pages.
  function ShiftBy(c: Container, n: int, page: nat): Container { c.(ref := c.ref + n * page) }

  lemma CountShift(c: Container, n: int, page: nat)
    requires page > 0
    ensures ShiftBy(c, n, page).PageCount(page) == c.PageCount(page)
    ensures ShiftBy(c, n, page).PriorFreeBytes(page) == c.PriorFreeBytes(page)
    ensures ShiftBy(c, n, page).GuestBytes(page) == c.GuestBytes(page)
  {
    hide Up, Container.PageCount, Container.PriorFreeBytes, Container.GuestBytes, Container.NextAddress;
    UpShift(c.ref, n, page);
    UpShift(c.NextAddress(), n, page);
    NextShift(c, n, page);
    CountMoved(c, ShiftBy(c, n, page), n * page, page);
  }

  lemma CountMoved(c: Container, c': Container, d: int, page: nat)
    requires page > 0 && c'.ref == c.ref + d && c'.NextAddress() == c.NextAddress() + d
    requires Up(c.ref + d, page) == Up(c.ref, page) + d
      && Up(c.NextAddress() + d, page) == Up(c.NextAddress(), page) + d
    ensures c'.PageCount(page) == c.PageCount(page) && c'.PriorFreeBytes(page) == c.PriorFreeBytes(page)
    ensures c'.GuestBytes(page) == c.GuestBytes(page)
  {
    hide Up, Container.MappingAddress, Container.NextMappingAddress, Container.PageCount, Container.PriorFreeBytes,
         Container.GuestBytes, Container.NextAddress;
    Edges(c, page);
    Edges(c', page);
  }

  lemma NextShift(c: Container, n: int, page: nat)
    ensures ShiftBy(c, n, page).NextAddress() == c.NextAddress() + n * page
  {}

  lemma {:induction false} SameCounts(cs: seq<Container>, cs': seq<Container>, i: nat, j: nat, page: nat)
    requires page > 0 && |cs| == |cs'| && i <= j <= |cs|
    requires forall m: nat | i <= m < j :: cs'[m].PageCount(page) == cs[m].PageCount(page)
    ensures PagesBefore(cs', j, page) - PagesBefore(cs', i, page) == PagesBefore(cs, j, page) - PagesBefore(cs, i, page)
    decreases j
  {
    if i < j { SameCounts(cs, cs', i, j - 1, page); }
  }

  // One container alone changed its count.
  lemma OneCount(cs: seq<Container>, cs': seq<Container>, k: nat, page: nat)
    requires page > 0 && k < |cs| == |cs'|
    requires forall m: nat | m < |cs| && m != k :: cs'[m].PageCount(page) == cs[m].PageCount(page)
    ensures PagesBefore(cs', |cs|, page) - cs'[k].PageCount(page) == PagesBefore(cs, |cs|, page) - cs[k].PageCount(page)
  {
    hide Container.PageCount;
    SameCounts(cs, cs', 0, k, page);
    SameCounts(cs, cs', k + 1, |cs|, page);
  }

  // ---- one more container

  lemma UpUnique(a: int, m: int, page: nat)
    requires page > 0 && a <= m < a + page && m % page == 0
    ensures Up(a, page) == m
  {
    UpFacts(a, page);
    Multiples(m, Up(a, page), page);
    Multiples(Up(a, page), m, page);
  }

  // The pages ContainerAlloc asks for are those the new container reaches into.
  lemma AllocPages(c: Container, page: nat)
    requires page > 0
    ensures c.PageCount(page) ==
      if c.Size() <= c.PriorFreeBytes(page) then 0 else Ceil(c.Size() - c.PriorFreeBytes(page), page)
  {
    var u, x := Up(c.ref, page), c.Size() - c.PriorFreeBytes(page);
    UpFacts(c.ref, page);
    assert c.NextAddress() == u + x;
    if x <= 0 {
      UpUnique(c.NextAddress(), u, page);
      ModMul(0, page);
    } else {
      CeilLeast(x, page);
      ModShift(u, Ceil(x, page), page);
      UpUnique(c.NextAddress(), u + Ceil(x, page) * page, page);
      ModMul(Ceil(x, page), page);
    }
  }

  lemma Appended(cs: seq<Container>, base: int, c: Container, page: nat)
    requires Packed(cs, base) && c.ref == AddressAt(cs, base, |cs|) && c.typeSize > 0 && page > 0
    ensures Packed(cs + [c], base)
    ensures PagesBefore(cs + [c], |cs| + 1, page) == PagesBefore(cs, |cs|, page) + c.PageCount(page)
  {
    forall k: nat | k < |cs + [c]| ensures PackedAt(cs + [c], base, k) { if k < |cs| { assert PackedAt(cs, base, k); } }
    SamePages(cs, cs + [c], |cs|, page);
  }

  lemma {:induction false} SamePages(cs: seq<Container>, cs': seq<Container>, k: nat, page: nat)
    requires k <= |cs| && k <= |cs'| && page > 0 && forall i: nat | i < k :: cs'[i] == cs[i]
    ensures PagesBefore(cs', k, page) == PagesBefore(cs, k, page)
  {
    if k > 0 { SamePages(cs, cs', k - 1, page); }
  }
}
