// Frame lists cut into runs of pages, one run to a container, and containers resized one after the other
// (vcmalloc.h, ContainerRealloc2).
module FrameRuns {
  import opened Base
  import opened Frames
  import opened Containers

  function Least(a: nat, b: nat): nat { if a <= b then a else b }

  function Excess(a: nat, b: nat): nat { if a > b then a - b else 0 }

  ghost function Sum(s: seq<nat>): nat { if s == [] then 0 else Sum(s[..|s| - 1]) + s[|s| - 1] }

  lemma SumNext(s: seq<nat>, x: nat)
    ensures Sum(s + [x]) == Sum(s) + x
  {
    assert (s + [x])[..|s|] == s;
  }

  lemma SumUpTo(s: seq<nat>, i: nat)
    requires i < |s|
    ensures Sum(s[..i + 1]) == Sum(s[..i]) + s[i]
  {
    assert s[..i + 1] == s[..i] + [s[i]];
    SumNext(s[..i], s[i]);
  }

  // ---- the pages each run keeps

  ghost predicate KeptRun(was: seq<nat>, now: seq<nat>, frames: seq<Frame>, start: nat, temp: seq<Frame>, j: nat)
    requires j < |was| == |now|
  {
    var a, b, n := start + Sum(was[..j]), Sum(now[..j]), Least(was[j], now[j]);
    a + n <= |frames| && b + n <= |temp| && temp[b..b + n] == frames[a..a + n]
  }

  // temp is made of one run for each of frames, from start on, and each begins with the frames of its run.
  ghost predicate Runs(was: seq<nat>, now: seq<nat>, frames: seq<Frame>, start: nat, temp: seq<Frame>) {
    && |was| == |now| && start + Sum(was) <= |frames| && |temp| == Sum(now)
    && forall j: nat | j < |was| :: KeptRun(was, now, frames, start, temp, j)
  }

  lemma NextRun(was: seq<nat>, now: seq<nat>, frames: seq<Frame>, start: nat, temp: seq<Frame>, count: nat,
                piece: seq<Frame>)
    requires Runs(was, now, frames, start, temp) && start + Sum(was) + count <= |frames|
    requires var n := Least(count, |piece|); piece[..n] == frames[start + Sum(was)..start + Sum(was) + n]
    ensures Runs(was + [count], now + [|piece|], frames, start, temp + piece)
  {
    var was', now', temp' := was + [count], now + [|piece|], temp + piece;
    SumNext(was, count);
    SumNext(now, |piece|);
    hide Sum, KeptRun;
    forall j: nat | j < |was'| ensures KeptRun(was', now', frames, start, temp', j) {
      if j < |was| {
        OldRun(was, now, frames, start, temp, count, piece, j);
      } else {
        LastRun(was, now, frames, start, temp, count, piece);
      }
    }
  }

  lemma OldRun(was: seq<nat>, now: seq<nat>, frames: seq<Frame>, start: nat, temp: seq<Frame>, count: nat,
               piece: seq<Frame>, j: nat)
    requires |was| == |now| && j < |was| && KeptRun(was, now, frames, start, temp, j)
    ensures KeptRun(was + [count], now + [|piece|], frames, start, temp + piece, j)
  {
    hide Sum;
    assert (was + [count])[..j] == was[..j] && (now + [|piece|])[..j] == now[..j];
    var b, n := Sum(now[..j]), Least(was[j], now[j]);
    assert (temp + piece)[b..b + n] == temp[b..b + n];
  }

  lemma LastRun(was: seq<nat>, now: seq<nat>, frames: seq<Frame>, start: nat, temp: seq<Frame>, count: nat,
                piece: seq<Frame>)
    requires |was| == |now| && |temp| == Sum(now) && start + Sum(was) + count <= |frames|
    requires var n := Least(count, |piece|); piece[..n] == frames[start + Sum(was)..start + Sum(was) + n]
    ensures KeptRun(was + [count], now + [|piece|], frames, start, temp + piece, |was|)
  {
    hide Sum;
    Before(was, count);
    Before(now, |piece|);
    Follows(temp, piece, Least(count, |piece|));
  }

  lemma Before(s: seq<nat>, x: nat)
    ensures (s + [x])[..|s|] == s && (s + [x])[|s|] == x
  {}

  lemma Follows(temp: seq<Frame>, piece: seq<Frame>, n: nat)
    requires n <= |piece|
    ensures (temp + piece)[|temp|..|temp| + n] == piece[..n]
  {}

  // Two passes, the first of which only shortens runs and the second only lengthens them: the runs begin with the
  // frames they had exactly if the second pass keeps those that the first left.
  lemma TwoPasses(was: seq<nat>, now: seq<nat>, fin: seq<nat>, f: seq<Frame>, g: seq<Frame>, start: nat, t: seq<Frame>,
                  u: seq<Frame>)
    requires Runs(was, now, f, start, t) && start + |t| <= |g| && g[start..start + |t|] == t
    requires |fin| == |was| && forall j | 0 <= j < |was| :: now[j] == Least(was[j], fin[j])
    ensures Runs(was, fin, f, start, u) <==> Runs(now, fin, g, start, u)
  {
    hide Sum, KeptRun;
    forall j: nat | j < |was| ensures KeptRun(was, fin, f, start, u, j) <==> KeptRun(now, fin, g, start, u, j) {
      assert KeptRun(was, now, f, start, t, j);
      SameRun(was, now, fin, f, g, start, t, u, j);
    }
  }

  lemma SameRun(was: seq<nat>, now: seq<nat>, fin: seq<nat>, f: seq<Frame>, g: seq<Frame>, start: nat, t: seq<Frame>,
                u: seq<Frame>, j: nat)
    requires j < |was| == |now| == |fin| && KeptRun(was, now, f, start, t, j) && now[j] == Least(was[j], fin[j])
    requires start + |t| <= |g| && g[start..start + |t|] == t
    ensures KeptRun(was, fin, f, start, u, j) <==> KeptRun(now, fin, g, start, u, j)
  {
    hide Sum;
    SubRun(g, t, start, Sum(now[..j]), now[j]);
  }

  lemma SubRun(g: seq<Frame>, t: seq<Frame>, start: nat, b: nat, n: nat)
    requires start + |t| <= |g| && g[start..start + |t|] == t && b + n <= |t|
    ensures g[start + b..start + b + n] == t[b..b + n]
  {
    var x, y := g[start + b..start + b + n], t[b..b + n];
    forall i | 0 <= i < n ensures x[i] == y[i] { assert g[start..start + |t|][b + i] == t[b + i]; }
  }

  // ---- one container

  // The pages a container is to have; -1 leaves it as it is.
  function Wanted(c: Container, want: int, page: nat): nat
    requires page > 0 && want >= -1
  {
    if want == -1 || want == c.elements then c.PageCount(page) else RequestedPages(c, want, page)
  }

  lemma ShiftSame(c: Container, n: int, want: int, page: nat)
    requires page > 0 && want >= -1
    ensures ShiftBy(c, n, page).PageCount(page) == c.PageCount(page)
    ensures Wanted(ShiftBy(c, n, page), want, page) == Wanted(c, want, page)
    ensures CanCount(ShiftBy(c, n, page), want, page) <==> CanCount(c, want, page)
    ensures forall pages: nat :: BytesFor(ShiftBy(c, n, page), pages, page) == BytesFor(c, pages, page)
  {
    CountShift(c, n, page);
  }

  lemma ShiftTwice(c: Container, m: int, n: int, page: nat)
    ensures ShiftBy(ShiftBy(c, m, page), n, page) == ShiftBy(c, m + n, page)
    ensures ShiftBy(c, 0, page) == c
  {
    assert m * page + n * page == (m + n) * page;
  }

  // A container to get or lose pages counts just as many afterwards.
  ghost predicate CanCount(c: Container, want: int, page: nat) {
    && page > 0 && want >= -1 && c.typeSize > 0
    && (Wanted(c, want, page) == c.PageCount(page) || CountKept(c, Wanted(c, want, page), page))
  }

  // With the pages it is to have, as many whole elements as they hold.
  ghost function Fitted(c: Container, want: int, page: nat): (r: Container)
    requires page > 0 && want >= -1 && c.typeSize > 0
  {
    var pages := Wanted(c, want, page);
    if pages == c.PageCount(page) then c
    else
      EnoughPages(c, want, page);
      c.(elements := NewElements(c, pages, page))
  }

  ghost predicate Enough(c: Container, want: int) { want == -1 || c.elements >= want }

  // It has room for what was asked for, and no more pages than it was given: just as many exactly if it can count them.
  lemma FitFacts(c: Container, want: int, page: nat)
    requires page > 0 && want >= -1 && c.typeSize > 0
    ensures var r := Fitted(c, want, page);
      && r.typeSize == c.typeSize && r.ref == c.ref && Enough(r, want) && r.PageCount(page) <= Wanted(c, want, page)
      && (r.PageCount(page) == Wanted(c, want, page) <==> CanCount(c, want, page))
  {
    hide Container.PageCount, CountKept, NewElements, RequestedPages, BytesFor;
    if want != -1 {
      EnoughPages(c, want, page);
      var pages := RequestedPages(c, want, page);
      FitsWant(c, want, page);
      FitsMore(c, want, pages, page);
      CountAfter(c, pages, page);
    }
  }

  // A container that already has the pages asked for has room for the elements.
  lemma FitsWant(c: Container, want: nat, page: nat)
    requires page > 0 && c.typeSize > 0
    ensures RequestedPages(c, want, page) == c.PageCount(page) ==> c.elements >= want
  {
    hide RequestedPages, BytesFor, Container.PageCount;
    EnoughPages(c, want, page);
    ModMul(0, page);
    BytesChange(c, c.PageCount(page), 0, page);
    if RequestedPages(c, want, page) == c.PageCount(page) { Cancel(c.elements, want, c.typeSize); }
  }

  lemma Cancel(a: nat, b: nat, d: nat)
    requires d > 0 && d * a >= b * d
    ensures a >= b
  {
    if a < b { MulLe(a + 1, b, d); }
  }

  lemma FitsMore(c: Container, want: nat, pages: nat, page: nat)
    requires page > 0 && c.typeSize > 0 && BytesFor(c, pages, page) >= want * c.typeSize
    ensures BytesFor(c, pages, page) >= 0 && NewElements(c, pages, page) >= want
  {
    hide BytesFor;
    var n, d := BytesFor(c, pages, page), c.typeSize;
    if n / d < want { MulLe(n / d + 1, want, d); }
  }

  lemma FittedShift(c: Container, n: int, want: int, page: nat)
    requires page > 0 && want >= -1 && c.typeSize > 0
    ensures Fitted(ShiftBy(c, n, page), want, page) == ShiftBy(Fitted(c, want, page), n, page)
  {
    hide Container.PageCount, Wanted, BytesFor, CanCount;
    ShiftSame(c, n, want, page);
  }

  // What the first pass leaves of it, before it is moved: smaller, or as it was; and what is then still wanted.
  ghost function LeftOf(c: Container, want: int, page: nat): Container
    requires page > 0 && want >= -1 && c.typeSize > 0
  {
    if Wanted(c, want, page) < c.PageCount(page) then Fitted(c, want, page) else c
  }

  ghost function LeftWant(c: Container, want: int, page: nat): (r: int)
    requires page > 0 && want >= -1
    ensures r >= -1
  {
    if Wanted(c, want, page) < c.PageCount(page) then -1 else want
  }

  // The pages it then counts.
  ghost function CountLeft(c: Container, want: int, page: nat): nat
    requires page > 0 && want >= -1 && c.typeSize > 0
  {
    LeftOf(c, want, page).PageCount(page)
  }

  lemma LeftFacts(c: Container, want: int, page: nat)
    requires page > 0 && want >= -1 && c.typeSize > 0
    ensures var left, keep := CountLeft(c, want, page), Least(c.PageCount(page), Wanted(c, want, page));
      && left <= keep && (left == keep <==> Wanted(c, want, page) > c.PageCount(page) || CanCount(c, want, page))
      && Wanted(LeftOf(c, want, page), LeftWant(c, want, page), page)
         == left + Excess(Wanted(c, want, page), c.PageCount(page))
    ensures Fitted(LeftOf(c, want, page), LeftWant(c, want, page), page) == Fitted(c, want, page)
    ensures LeftOf(c, want, page).typeSize == c.typeSize
  {
    hide Container.PageCount, CountKept;
    FitFacts(c, want, page);
  }

  // ---- runs of containers

  ghost predicate CountsOf(cs: seq<Container>, k: nat, counts: seq<nat>, page: nat) {
    page > 0 && k + |counts| <= |cs| && forall j: nat | j < |counts| :: CountAt(cs, k, counts, page, j)
  }

  ghost predicate CountAt(cs: seq<Container>, k: nat, counts: seq<nat>, page: nat, j: nat)
    requires page > 0 && j < |counts| && k + |counts| <= |cs|
  {
    cs[k + j].PageCount(page) == counts[j]
  }

  lemma {:induction false} PagesOfRun(cs: seq<Container>, k: nat, counts: seq<nat>, page: nat, i: nat)
    requires CountsOf(cs, k, counts, page) && i <= |counts|
    ensures PagesBefore(cs, k + i, page) == PagesBefore(cs, k, page) + Sum(counts[..i])
    decreases i
  {
    if i > 0 {
      PagesOfRun(cs, k, counts, page, i - 1);
      SumUpTo(counts, i - 1);
      assert CountAt(cs, k, counts, page, i - 1);
    }
  }

  lemma NoneBefore(cs: seq<Container>, page: nat)
    requires page > 0
    ensures PagesBefore(cs, 0, page) == 0
  {}

  lemma CountsFit(cs: seq<Container>, k: nat, counts: seq<nat>, page: nat)
    requires CountsOf(cs, k, counts, page)
    ensures page > 0 && k + |counts| <= |cs|
  {}

  lemma RunEnd(cs: seq<Container>, k: nat, counts: seq<nat>, page: nat)
    requires CountsOf(cs, k, counts, page)
    ensures PagesBefore(cs, k + |counts|, page) == PagesBefore(cs, k, page) + Sum(counts)
  {
    hide CountsOf;
    assert counts[..|counts|] == counts;
    PagesOfRun(cs, k, counts, page, |counts|);
  }

  // New counts in a run change the position of what follows by their difference.
  lemma CountsChange(cs: seq<Container>, cs': seq<Container>, k: nat, was: seq<nat>, now: seq<nat>, page: nat)
    requires CountsOf(cs, k, was, page) && CountsOf(cs', k, now, page) && |cs| == |cs'| && |was| == |now|
    requires forall m: nat | m < |cs| && (m < k || k + |was| <= m) :: cs'[m].PageCount(page) == cs[m].PageCount(page)
    ensures PagesBefore(cs', |cs|, page) + Sum(was) == PagesBefore(cs, |cs|, page) + Sum(now)
  {
    hide Container.PageCount, PagesBefore, Sum, CountsOf;
    CountsFit(cs, k, was, page);
    NoneBefore(cs, page);
    NoneBefore(cs', page);
    RunEnd(cs, k, was, page);
    RunEnd(cs', k, now, page);
    SameCounts(cs, cs', 0, k, page);
    SameCounts(cs, cs', k + |was|, |cs|, page);
  }

  lemma {:induction false} SumTail(a: seq<nat>, b: seq<nat>, i: nat)
    requires |a| == |b| && i <= |a| && forall j | i <= j < |a| :: a[j] <= b[j]
    ensures Sum(a) - Sum(a[..i]) <= Sum(b) - Sum(b[..i])
    decreases |a| - i
  {
    if i == |a| {
      assert a[..i] == a && b[..i] == b;
    } else {
      SumTail(a, b, i + 1);
      SumUpTo(a, i);
      SumUpTo(b, i);
    }
  }

  lemma EqualSums(a: seq<nat>, b: seq<nat>)
    requires |a| == |b| && Sum(a) == Sum(b) && forall j | 0 <= j < |a| :: a[j] <= b[j]
    ensures a == b
  {
    hide Sum;
    forall j | 0 <= j < |a| ensures a[j] == b[j] {
      SumTail(a, b, j + 1);
      SumUpTo(a, j);
      SumUpTo(b, j);
      SumLess(a[..j], b[..j]);
    }
  }

  lemma {:induction false} SumLess(a: seq<nat>, b: seq<nat>)
    requires |a| == |b| && forall j | 0 <= j < |a| :: a[j] <= b[j]
    ensures Sum(a) <= Sum(b)
  {
    if a != [] { SumLess(a[..|a| - 1], b[..|b| - 1]); }
  }

  lemma SumPrefix(s: seq<nat>, i: nat)
    requires i <= |s|
    ensures Sum(s[..i]) <= Sum(s)
    decreases |s|
  {
    if i == |s| {
      assert s[..i] == s;
    } else {
      SumPrefix(s[..|s| - 1], i);
      assert s[..|s| - 1][..i] == s[..i];
    }
  }

  // The page counts of n containers from the k-th on.
  ghost function Counts(cs: seq<Container>, k: nat, n: nat, page: nat): (r: seq<nat>)
    requires page > 0 && k + n <= |cs|
    ensures |r| == n && CountsOf(cs, k, r, page)
  {
    var r := seq<nat>(n, j requires 0 <= j < n => cs[k + j].PageCount(page));
    assert forall j: nat | j < n :: CountAt(cs, k, r, page, j);
    r
  }

  lemma CountsTo(cs: seq<Container>, k: nat, counts: seq<nat>, page: nat)
    requires CountsOf(cs, k, counts, page)
    ensures forall j: nat | j < |counts| :: counts[j] == cs[k + j].PageCount(page)
  {
    forall j: nat | j < |counts|
      ensures counts[j] == cs[k + j].PageCount(page)
    {
      assert CountAt(cs, k, counts, page, j);
    }
  }

  // Each count with what one number is above another.
  ghost function Grown(cnt: seq<nat>, now: seq<nat>, goal: seq<nat>): (r: seq<nat>)
    requires |cnt| == |now| == |goal|
    ensures |r| == |cnt|
  {
    seq(|cnt|, j requires 0 <= j < |cnt| => cnt[j] + Excess(goal[j], now[j]))
  }

  lemma {:induction false} SumGrown(cnt: seq<nat>, now: seq<nat>, goal: seq<nat>)
    requires |cnt| == |now| == |goal| && forall j | 0 <= j < |now| :: now[j] <= goal[j]
    ensures Sum(Grown(cnt, now, goal)) + Sum(now) == Sum(cnt) + Sum(goal)
  {
    if cnt != [] {
      var n := |cnt| - 1;
      SumGrown(cnt[..n], now[..n], goal[..n]);
      assert Grown(cnt, now, goal)[..n] == Grown(cnt[..n], now[..n], goal[..n]);
    }
  }
}
