// The frame record that the two passes over several containers leave, as a function of the one before
// (vcmalloc.h, ContainerRealloc2).
module Layout {
  import opened Base
  import opened Frames
  import opened FrameRuns

  // ---- one pass

  // The frames a pass adds.
  ghost function News(was: seq<nat>, fin: seq<nat>): nat
    requires |was| == |fin|
  {
    if was == [] then 0
    else News(was[..|was| - 1], fin[..|was| - 1]) + Excess(fin[|was| - 1], was[|was| - 1])
  }

  // One run: the frames it keeps, and then those added, from the end of the ones left.
  ghost function Piece(f: seq<Frame>, idx: nat, w: nat, g: nat, pool: seq<Frame>, left: nat): (r: seq<Frame>)
    requires idx + w <= |f| && Excess(g, w) <= left <= |pool|
    ensures |r| == g
  {
    f[idx..idx + Least(w, g)] + pool[left - Excess(g, w)..left]
  }

  // All runs: the frames are read from start on, as many for each run as it has.
  ghost function Laid(f: seq<Frame>, start: nat, was: seq<nat>, fin: seq<nat>, pool: seq<Frame>, left: nat): seq<Frame>
    requires |was| == |fin| && start + Sum(was) <= |f| && News(was, fin) <= left <= |pool|
  {
    if was == [] then []
    else
      var n := |was| - 1;
      Laid(f, start, was[..n], fin[..n], pool, left)
        + Piece(f, start + Sum(was[..n]), was[n], fin[n], pool, left - News(was[..n], fin[..n]))
  }

  // The frames a pass takes out of the runs.
  ghost function GivenUp(f: seq<Frame>, start: nat, was: seq<nat>, fin: seq<nat>): seq<Frame>
    requires |was| == |fin| && start + Sum(was) <= |f|
  {
    if was == [] then []
    else
      var n, idx := |was| - 1, start + Sum(was[..|was| - 1]);
      GivenUp(f, start, was[..n], fin[..n]) + f[idx + Least(was[n], fin[n])..idx + was[n]]
  }

  lemma NewsNext(was: seq<nat>, fin: seq<nat>, w: nat, g: nat)
    requires |was| == |fin|
    ensures News(was + [w], fin + [g]) == News(was, fin) + Excess(g, w)
  {
    assert (was + [w])[..|was|] == was && (fin + [g])[..|was|] == fin;
  }

  lemma LaidNext(f: seq<Frame>, start: nat, was: seq<nat>, fin: seq<nat>, pool: seq<Frame>, left: nat, w: nat, g: nat)
    requires |was| == |fin| && start + Sum(was) + w <= |f| && News(was, fin) + Excess(g, w) <= left <= |pool|
    ensures News(was + [w], fin + [g]) == News(was, fin) + Excess(g, w) && Sum(was + [w]) == Sum(was) + w
    ensures Laid(f, start, was + [w], fin + [g], pool, left)
      == Laid(f, start, was, fin, pool, left) + Piece(f, start + Sum(was), w, g, pool, left - News(was, fin))
  {
    hide Piece, Sum, News;
    NewsNext(was, fin, w, g);
    SumNext(was, w);
    assert (was + [w])[..|was|] == was && (fin + [g])[..|was|] == fin;
  }

  lemma GivenUpNext(f: seq<Frame>, start: nat, was: seq<nat>, fin: seq<nat>, w: nat, g: nat)
    requires |was| == |fin| && start + Sum(was) + w <= |f|
    ensures Sum(was + [w]) == Sum(was) + w
    ensures var idx := start + Sum(was);
      GivenUp(f, start, was + [w], fin + [g]) == GivenUp(f, start, was, fin) + f[idx + Least(w, g)..idx + w]
  {
    hide Sum;
    SumNext(was, w);
    assert (was + [w])[..|was|] == was && (fin + [g])[..|was|] == fin;
  }

  // Taking the last run off.
  lemma Last(was: seq<nat>, fin: seq<nat>) returns (n: nat, w: nat, g: nat)
    requires |was| == |fin| && was != []
    ensures n == |was| - 1 && w == was[n] && g == fin[n] && was == was[..n] + [w] && fin == fin[..n] + [g]
    ensures Sum(was) == Sum(was[..n]) + w && Sum(fin) == Sum(fin[..n]) + g
    ensures News(was, fin) == News(was[..n], fin[..n]) + Excess(g, w)
  {
    n := |was| - 1;
    w, g := was[n], fin[n];
  }

  lemma {:induction false} LaidRuns(f: seq<Frame>, start: nat, was: seq<nat>, fin: seq<nat>, pool: seq<Frame>,
                                    left: nat)
    requires |was| == |fin| && start + Sum(was) <= |f| && News(was, fin) <= left <= |pool|
    ensures Runs(was, fin, f, start, Laid(f, start, was, fin, pool, left))
    decreases |was|
  {
    hide Piece, KeptRun;
    if was != [] {
      hide Laid, Sum, News, Runs;
      var n, w, g := Last(was, fin);
      var idx, l := start + Sum(was[..n]), left - News(was[..n], fin[..n]);
      LaidRuns(f, start, was[..n], fin[..n], pool, left);
      LaidNext(f, start, was[..n], fin[..n], pool, left, w, g);
      PieceFront(f, idx, w, g, pool, l);
      NextRun(was[..n], fin[..n], f, start, Laid(f, start, was[..n], fin[..n], pool, left), w,
              Piece(f, idx, w, g, pool, l));
    }
  }

  lemma PieceFront(f: seq<Frame>, idx: nat, w: nat, g: nat, pool: seq<Frame>, left: nat)
    requires idx + w <= |f| && Excess(g, w) <= left <= |pool|
    ensures Piece(f, idx, w, g, pool, left)[..Least(w, g)] == f[idx..idx + Least(w, g)]
  {}

  lemma LaidSize(f: seq<Frame>, start: nat, was: seq<nat>, fin: seq<nat>, pool: seq<Frame>, left: nat)
    requires |was| == |fin| && start + Sum(was) <= |f| && News(was, fin) <= left <= |pool|
    ensures |Laid(f, start, was, fin, pool, left)| == Sum(fin)
  {
    hide Laid, Sum, News;
    LaidRuns(f, start, was, fin, pool, left);
  }

  // The frames between start and idx are kept or taken out.
  ghost predicate Dealt(temp: seq<Frame>, spare: seq<Frame>, frames: seq<Frame>, start: nat, idx: nat) {
    start <= idx <= |frames| && multiset(temp) + multiset(spare) == multiset(frames[start..idx])
  }

  lemma DealMore(temp: seq<Frame>, spare: seq<Frame>, frames: seq<Frame>, start: nat, idx: nat, keep: nat, count: nat)
    requires Dealt(temp, spare, frames, start, idx) && keep <= count && idx + count <= |frames|
    ensures Dealt(temp + frames[idx..idx + keep], spare + frames[idx + keep..idx + count], frames, start, idx + count)
  {
    assert frames[start..idx + count] == frames[start..idx] + frames[idx..idx + keep] + frames[idx + keep..idx + count];
  }

  lemma NoRuns(f: seq<Frame>, start: nat, pool: seq<Frame>, left: nat)
    requires start <= |f| && left <= |pool|
    ensures Sum([]) == 0 && News([], []) == 0 && |GivenUp(f, start, [], [])| == 0
    ensures Dealt(Laid(f, start, [], [], pool, left), GivenUp(f, start, [], []), f, start, start)
    ensures Drawn(Laid(f, start, [], [], pool, left), f, start, start, pool, left, left)
  {}

  // A pass that only takes frames out.
  lemma {:induction false} FirstBag(f: seq<Frame>, start: nat, was: seq<nat>, now: seq<nat>)
    requires |was| == |now| && start + Sum(was) <= |f| && forall j | 0 <= j < |was| :: now[j] <= was[j]
    ensures News(was, now) == 0
    ensures Dealt(Laid(f, start, was, now, [], 0), GivenUp(f, start, was, now), f, start, start + Sum(was))
    ensures |GivenUp(f, start, was, now)| + Sum(now) == Sum(was)
    decreases |was|
  {
    hide Laid, Sum, News, GivenUp, Dealt, Piece;
    if was == [] {
      assert now == [];
      NoRuns(f, start, [], 0);
    } else {
      var n, w, g := Last(was, now);
      var idx := start + Sum(was[..n]);
      FirstBag(f, start, was[..n], now[..n]);
      LaidNext(f, start, was[..n], now[..n], [], 0, w, g);
      GivenUpNext(f, start, was[..n], now[..n], w, g);
      PieceKept(f, idx, w, g);
      DealMore(Laid(f, start, was[..n], now[..n], [], 0), GivenUp(f, start, was[..n], now[..n]), f, start, idx, g, w);
    }
  }

  lemma PieceKept(f: seq<Frame>, idx: nat, w: nat, g: nat)
    requires g <= w && idx + w <= |f|
    ensures Piece(f, idx, w, g, [], 0) == f[idx..idx + g]
  {}

  // One more run of a pass that only takes frames out.
  lemma KeepStep(f: seq<Frame>, start: nat, was: seq<nat>, now: seq<nat>, count: nat, keep: nat, spare: seq<Frame>)
    requires |was| == |now| && start + Sum(was) + count <= |f| && News(was, now) == 0 && keep <= count
    requires spare == GivenUp(f, start, was, now) && |spare| + Sum(now) == Sum(was)
    ensures Sum(was + [count]) == Sum(was) + count && Sum(now + [keep]) == Sum(now) + keep
    ensures News(was + [count], now + [keep]) == 0
    ensures var idx := start + Sum(was);
      && Laid(f, start, was + [count], now + [keep], [], 0) == Laid(f, start, was, now, [], 0) + f[idx..idx + keep]
      && GivenUp(f, start, was + [count], now + [keep]) == spare + f[idx + keep..idx + count]
  {
    hide Sum, News, Laid, GivenUp, Piece;
    LaidNext(f, start, was, now, [], 0, count, keep);
    GivenUpNext(f, start, was, now, count, keep);
    PieceKept(f, start + Sum(was), count, keep);
    SumNext(now, keep);
  }

  // The frames between start and idx are kept, and those of the spare ones from left on are added.
  ghost predicate Drawn(temp: seq<Frame>, frames: seq<Frame>, start: nat, idx: nat, spare: seq<Frame>, left: nat,
                        requested: nat) {
    start <= idx <= |frames| && left <= requested <= |spare|
      && multiset(temp) == multiset(frames[start..idx]) + multiset(spare[left..requested])
  }

  lemma DrawMore(temp: seq<Frame>, frames: seq<Frame>, start: nat, idx: nat, spare: seq<Frame>, left: nat,
                 requested: nat, count: nat, add: nat)
    requires Drawn(temp, frames, start, idx, spare, left, requested) && idx + count <= |frames| && add <= left
    ensures Drawn(temp + (frames[idx..idx + count] + spare[left - add..left]), frames, start, idx + count, spare,
                  left - add, requested)
  {
    assert frames[start..idx + count] == frames[start..idx] + frames[idx..idx + count];
    assert spare[left - add..requested] == spare[left - add..left] + spare[left..requested];
  }

  // A pass that only adds frames.
  lemma {:induction false} SecondBag(f: seq<Frame>, start: nat, was: seq<nat>, fin: seq<nat>, pool: seq<Frame>,
                                     left: nat)
    requires |was| == |fin| && start + Sum(was) <= |f| && forall j | 0 <= j < |was| :: was[j] <= fin[j]
    requires News(was, fin) <= left <= |pool|
    ensures Drawn(Laid(f, start, was, fin, pool, left), f, start, start + Sum(was), pool, left - News(was, fin), left)
    decreases |was|
  {
    hide Laid, Sum, News, Drawn;
    if was == [] {
      assert fin == [];
      NoRuns(f, start, pool, left);
    } else {
      var n, w, g := Last(was, fin);
      SecondBag(f, start, was[..n], fin[..n], pool, left);
      AddedRun(f, start, was[..n], fin[..n], pool, left, w, g);
    }
  }

  lemma AddedRun(f: seq<Frame>, start: nat, was: seq<nat>, fin: seq<nat>, pool: seq<Frame>, left: nat, w: nat, g: nat)
    requires |was| == |fin| && start + Sum(was) + w <= |f| && w <= g && News(was, fin) + (g - w) <= left <= |pool|
    requires Drawn(Laid(f, start, was, fin, pool, left), f, start, start + Sum(was), pool, left - News(was, fin), left)
    ensures Sum(was + [w]) == Sum(was) + w && News(was + [w], fin + [g]) == News(was, fin) + (g - w)
    ensures Drawn(Laid(f, start, was + [w], fin + [g], pool, left), f, start, start + Sum(was) + w, pool,
                  left - News(was, fin) - (g - w), left)
  {
    hide Laid, Sum, News, Drawn, Piece;
    LaidNext(f, start, was, fin, pool, left, w, g);
    PieceMore(f, start + Sum(was), w, g, pool, left - News(was, fin));
    DrawMore(Laid(f, start, was, fin, pool, left), f, start, start + Sum(was), pool, left - News(was, fin), left, w,
             g - w);
  }

  lemma PieceMore(f: seq<Frame>, idx: nat, w: nat, g: nat, pool: seq<Frame>, left: nat)
    requires w <= g && idx + w <= |f| && g - w <= left <= |pool|
    ensures Piece(f, idx, w, g, pool, left) == f[idx..idx + w] + pool[left - (g - w)..left]
  {}

  lemma {:induction false} NewsMore(was: seq<nat>, fin: seq<nat>)
    requires |was| == |fin| && forall j | 0 <= j < |was| :: was[j] <= fin[j]
    ensures News(was, fin) + Sum(was) == Sum(fin)
  {
    if was != [] { NewsMore(was[..|was| - 1], fin[..|was| - 1]); }
  }

  // Only the frames that are read matter.
  lemma {:induction false} LaidSame(f: seq<Frame>, g: seq<Frame>, start: nat, was: seq<nat>, fin: seq<nat>,
                                    pool: seq<Frame>, pool': seq<Frame>, left: nat)
    requires |was| == |fin| && start + Sum(was) <= |f| && start + Sum(was) <= |g|
    requires News(was, fin) <= left <= |pool| && left <= |pool'| && pool[..left] == pool'[..left]
    requires f[..start + Sum(was)] == g[..start + Sum(was)]
    ensures Laid(g, start, was, fin, pool', left) == Laid(f, start, was, fin, pool, left)
    decreases |was|
  {
    hide Piece;
    if was != [] {
      hide Laid, Sum, News;
      var n, w, x := Last(was, fin);
      Shorter(f, g, start + Sum(was[..n]), start + Sum(was));
      LaidSame(f, g, start, was[..n], fin[..n], pool, pool', left);
      PieceSame(f, g, start + Sum(was[..n]), w, x, pool, pool', left, left - News(was[..n], fin[..n]));
      LaidNext(f, start, was[..n], fin[..n], pool, left, w, x);
      LaidNext(g, start, was[..n], fin[..n], pool', left, w, x);
    }
  }

  lemma Shorter(f: seq<Frame>, g: seq<Frame>, i: nat, j: nat)
    requires i <= j <= |f| && j <= |g| && f[..j] == g[..j]
    ensures f[..i] == g[..i] && f[i..j] == g[i..j]
  {
    assert f[..i] == f[..j][..i] && g[..i] == g[..j][..i] && f[i..j] == f[..j][i..j] && g[i..j] == g[..j][i..j];
  }

  lemma PieceSame(f: seq<Frame>, g: seq<Frame>, idx: nat, w: nat, n: nat, pool: seq<Frame>, pool': seq<Frame>,
                  left: nat, l: nat)
    requires idx + w <= |f| && idx + w <= |g| && f[idx..idx + w] == g[idx..idx + w] && Excess(n, w) <= l <= left
    requires left <= |pool| && left <= |pool'| && pool[..left] == pool'[..left]
    ensures Piece(g, idx, w, n, pool', l) == Piece(f, idx, w, n, pool, l)
  {
    Shorter(pool, pool', l, left);
    Shorter(pool, pool', l - Excess(n, w), l);
    assert f[idx..idx + Least(w, n)] == f[idx..idx + w][..Least(w, n)];
    assert g[idx..idx + Least(w, n)] == g[idx..idx + w][..Least(w, n)];
  }

  // Runs at the end that stay as long as they are.
  lemma {:induction false} LaidTail(f: seq<Frame>, start: nat, was: seq<nat>, fin: seq<nat>, pool: seq<Frame>,
                                    left: nat, m: nat)
    requires |was| == |fin| && start + Sum(was) <= |f| && News(was, fin) <= left <= |pool|
    requires m <= |was| && forall j | m <= j < |was| :: fin[j] == was[j]
    ensures News(was[..m], fin[..m]) == News(was, fin) && Sum(was[..m]) <= Sum(was)
    ensures Laid(f, start, was, fin, pool, left)
      == Laid(f, start, was[..m], fin[..m], pool, left) + f[start + Sum(was[..m])..start + Sum(was)]
    decreases |was|
  {
    hide Laid, Sum, News, Piece;
    if m == |was| {
      assert was[..m] == was && fin[..m] == fin;
    } else {
      var n, w, g := Last(was, fin);
      LaidTail(f, start, was[..n], fin[..n], pool, left, m);
      assert was[..n][..m] == was[..m] && fin[..n][..m] == fin[..m];
      LaidNext(f, start, was[..n], fin[..n], pool, left, w, g);
      PieceMore(f, start + Sum(was[..n]), w, g, pool, left - News(was[..n], fin[..n]));
      Joined(f, start + Sum(was[..m]), start + Sum(was[..n]), start + Sum(was));
    }
  }

  lemma Joined(f: seq<Frame>, a: nat, b: nat, c: nat)
    requires a <= b <= c <= |f|
    ensures f[a..b] + f[b..c] == f[a..c]
  {}

  // ---- the record after each pass

  // Places of the storage; beyond its end they hold what they will when the storage is made larger.
  ghost function Held(p: seq<Frame>, stale: nat -> Frame, a: nat, n: nat): (r: seq<Frame>)
    ensures |r| == n
  {
    seq(n, i requires 0 <= i < n => if a + i < |p| then p[a + i] else stale(a + i))
  }

  // The record once the frames of temp, and behind them the `post` frames from idx on, were written from start on.
  function Rewritten(p: seq<Frame>, start: nat, temp: seq<Frame>, idx: nat, post: nat): (r: seq<Frame>)
    requires idx + post <= |p| && start + |temp| + post <= |p|
    ensures |r| == |p|
  {
    p[..start] + (temp + p[idx..idx + post]) + p[start + |temp| + post..]
  }

  // The frames the runs keep in a pass that only takes frames out.
  ghost function KeptPart(p: seq<Frame>, start: nat, was: seq<nat>, now: seq<nat>): (r: seq<Frame>)
    requires |was| == |now| && start + Sum(was) <= |p| && forall j | 0 <= j < |was| :: now[j] <= was[j]
    ensures |r| == Sum(now) <= Sum(was)
  {
    FirstBag(p, start, was, now);
    LaidSize(p, start, was, now, [], 0);
    Laid(p, start, was, now, [], 0)
  }

  // The storage after a pass that only takes frames out.
  ghost function FirstStorage(p: seq<Frame>, num: nat, start: nat, was: seq<nat>, now: seq<nat>): (r: seq<Frame>)
    requires |was| == |now| && start + Sum(was) <= num <= |p| && forall j | 0 <= j < |was| :: now[j] <= was[j]
    ensures |r| == |p|
  {
    Rewritten(p, start, KeptPart(p, start, was, now), start + Sum(was), num - start - Sum(was))
  }

  // The record after a pass that only adds frames, and that reads d frames fewer than are there.
  ghost function SecondRecord(p: seq<Frame>, stale: nat -> Frame, num: nat, start: nat, cnt: seq<nat>, fin: seq<nat>,
                              pool: seq<Frame>, d: nat): seq<Frame>
    requires |cnt| == |fin| && start + Sum(cnt) + d <= num <= |p| && News(cnt, fin) <= |pool|
  {
    var more := News(cnt, fin);
    p[..start] + Laid(p, start, cnt, fin, pool, more) + p[start + Sum(cnt)..num - d] + Held(p, stale, num - d + more, d)
  }

  lemma SecondRewritten(p: seq<Frame>, p': seq<Frame>, stale: nat -> Frame, num: nat, start: nat, cnt: seq<nat>,
                        fin: seq<nat>, pool: seq<Frame>, d: nat)
    requires |cnt| == |fin| && start + Sum(cnt) + d <= num <= |p| <= |p'| && News(cnt, fin) <= |pool|
    requires num + News(cnt, fin) <= |p'| && p'[..|p|] == p && forall i: nat | |p| <= i < |p'| :: p'[i] == stale(i)
    requires News(cnt, fin) + Sum(cnt) == Sum(fin)
    ensures var more, temp := News(cnt, fin), Laid(p', start, cnt, fin, pool, News(cnt, fin));
      && |temp| == Sum(fin)
      && Rewritten(p', start, temp, start + Sum(cnt), num - d - start - Sum(cnt))[..num + more]
         == SecondRecord(p, stale, num, start, cnt, fin, pool, d)
  {
    hide Laid, News, Sum;
    var more, end := News(cnt, fin), start + Sum(cnt);
    Shorter(p, p', end, |p|);
    LaidSame(p, p', start, cnt, fin, pool, pool, more);
    LaidSize(p, start, cnt, fin, pool, more);
    Written(p, p', stale, num, start, Laid(p, start, cnt, fin, pool, more), end, d, more);
  }

  lemma Written(p: seq<Frame>, p': seq<Frame>, stale: nat -> Frame, num: nat, start: nat, temp: seq<Frame>, end: nat,
                d: nat, more: nat)
    requires start + |temp| == end + more && start <= end && end + d <= num <= |p| <= |p'| && num + more <= |p'|
    requires p'[..|p|] == p && forall i: nat | |p| <= i < |p'| :: p'[i] == stale(i)
    ensures Rewritten(p', start, temp, end, num - d - end)[..num + more]
      == p[..start] + temp + p[end..num - d] + Held(p, stale, num - d + more, d)
  {
    var x := Rewritten(p', start, temp, end, num - d - end)[..num + more];
    Shorter(p, p', start, |p|);
    Shorter(p, p', num - d, |p|);
    Shorter(p, p', end, num - d);
    assert p'[num - d + more..num + more] == Held(p, stale, num - d + more, d);
    assert x == p'[..start] + temp + p'[end..num - d] + p'[num - d + more..num + more];
  }

  // What is mapped from start on is what was written.
  lemma Remapped(m: seq<Frame>, p: seq<Frame>, num: nat, start: nat, temp: seq<Frame>, idx: nat, post: nat)
    requires start <= |m| <= num <= |p| && m == p[..|m|] && idx + post <= |p| && start + |temp| + post <= |p|
    ensures var p' := Rewritten(p, start, temp, idx, post);
      m[..start] + p'[start..start + |temp| + post] == p'[..start + |temp| + post]
  {}

  // ---- which frames are on record

  // Each frame on record before is still so, or left over.
  ghost predicate LeftOver(f0: seq<Frame>, f1: seq<Frame>, spare: seq<Frame>) {
    multiset(f1) + multiset(spare) == multiset(f0)
  }

  ghost predicate Added(f1: seq<Frame>, f2: seq<Frame>, more: seq<Frame>) {
    multiset(f2) == multiset(f1) + multiset(more)
  }

  // Each old frame is kept once or freed once, and each new frame is inserted once.
  ghost predicate Conserved(f0: seq<Frame>, f2: seq<Frame>, freed: seq<Frame>, granted: seq<Frame>) {
    multiset(f2) + multiset(freed) == multiset(f0) + multiset(granted)
  }

  ghost predicate SameBag(a: seq<Frame>, b: seq<Frame>) { multiset(a) == multiset(b) }

  lemma KeptBag(p: seq<Frame>, start: nat, was: seq<nat>, now: seq<nat>)
    requires |was| == |now| && start + Sum(was) <= |p| && forall j | 0 <= j < |was| :: now[j] <= was[j]
    ensures Dealt(KeptPart(p, start, was, now), GivenUp(p, start, was, now), p, start, start + Sum(was))
    ensures |GivenUp(p, start, was, now)| + Sum(now) == Sum(was)
  {
    hide Sum, GivenUp, Dealt, Laid;
    FirstBag(p, start, was, now);
  }

  // The first pass leaves over what it takes out.
  lemma FirstLeft(p: seq<Frame>, num: nat, start: nat, was: seq<nat>, now: seq<nat>)
    requires |was| == |now| && start + Sum(was) <= num <= |p| && forall j | 0 <= j < |was| :: now[j] <= was[j]
    ensures |GivenUp(p, start, was, now)| + Sum(now) == Sum(was)
    ensures var num', p' := num - (Sum(was) - Sum(now)), FirstStorage(p, num, start, was, now);
      && p'[..num'] == p[..start] + KeptPart(p, start, was, now) + p[start + Sum(was)..num] && p'[num'..] == p[num'..]
      && LeftOver(p[..num], p'[..num'], GivenUp(p, start, was, now))
  {
    hide Sum, GivenUp, KeptPart, Dealt, LeftOver, Rewritten;
    KeptBag(p, start, was, now);
    LeftBag(p, num, start, KeptPart(p, start, was, now), GivenUp(p, start, was, now), start + Sum(was));
    FrontRewritten(p, num, start, KeptPart(p, start, was, now), start + Sum(was));
  }

  lemma FrontRewritten(p: seq<Frame>, num: nat, start: nat, temp: seq<Frame>, end: nat)
    requires start + |temp| <= end <= num <= |p| && start <= end
    ensures var p', num' := Rewritten(p, start, temp, end, num - end), start + |temp| + (num - end);
      p'[..num'] == p[..start] + temp + p[end..num] && p'[num'..] == p[num'..]
  {}

  lemma LeftBag(p: seq<Frame>, num: nat, start: nat, temp: seq<Frame>, out: seq<Frame>, end: nat)
    requires Dealt(temp, out, p, start, end) && end <= num <= |p| && |temp| + |out| == end - start
    ensures LeftOver(p[..num], p[..start] + temp + p[end..num], out)
  {
    assert p[..num] == p[..start] + p[start..end] + p[end..num];
  }

  // A second pass adds just the frames it is to, exactly if the frames it does not read are found again at the end.
  lemma SecondAdds(p: seq<Frame>, stale: nat -> Frame, num: nat, start: nat, cnt: seq<nat>, fin: seq<nat>,
                   pool: seq<Frame>, d: nat)
    requires |cnt| == |fin| && start + Sum(cnt) + d <= num <= |p| && News(cnt, fin) <= |pool|
    requires forall j | 0 <= j < |cnt| :: cnt[j] <= fin[j]
    ensures Added(p[..num], SecondRecord(p, stale, num, start, cnt, fin, pool, d), pool[..News(cnt, fin)])
      <==> SameBag(Held(p, stale, num - d + News(cnt, fin), d), p[num - d..num])
  {
    hide Laid, News, Sum, Drawn, Added, SameBag, Held;
    var more, end := News(cnt, fin), start + Sum(cnt);
    SecondBag(p, start, cnt, fin, pool, more);
    AddsBag(p, num, start, Laid(p, start, cnt, fin, pool, more), end, pool, more, d, Held(p, stale, num - d + more, d));
  }

  lemma AddsBag(p: seq<Frame>, num: nat, start: nat, temp: seq<Frame>, end: nat, pool: seq<Frame>, more: nat, d: nat,
                found: seq<Frame>)
    requires Drawn(temp, p, start, end, pool, 0, more) && end + d <= num <= |p|
    ensures Added(p[..num], p[..start] + temp + p[end..num - d] + found, pool[..more])
      <==> SameBag(found, p[num - d..num])
  {
    var a, b, c, l := p[..start], p[start..end], p[end..num - d], p[num - d..num];
    assert p[..num] == a + b + c + l;
    assert pool[0..more] == pool[..more];
    CancelBags(multiset(a), multiset(b), multiset(c), multiset(l), multiset(pool[..more]), multiset(temp),
               multiset(found));
  }

  lemma CancelBags(a: multiset<Frame>, b: multiset<Frame>, c: multiset<Frame>, l: multiset<Frame>, m: multiset<Frame>,
                   t: multiset<Frame>, h: multiset<Frame>)
    requires t == b + m
    ensures a + t + c + h == a + b + c + l + m <==> h == l
  {
    if a + t + c + h == a + b + c + l + m {
      forall x ensures h[x] == l[x] { assert (a + t + c + h)[x] == (a + b + c + l + m)[x]; }
    }
  }

  // ---- where the frames are

  // The frames before and behind are where they were, and each run in between begins with the frames it had.
  ghost predicate Spliced(f: seq<Frame>, f': seq<Frame>, start: nat, was: seq<nat>, goal: seq<nat>) {
    && start + Sum(was) <= |f| && start + Sum(goal) <= |f'|
    && f'[..start] == f[..start] && f'[start + Sum(goal)..] == f[start + Sum(was)..]
    && Runs(was, goal, f, start, f'[start..start + Sum(goal)])
  }

  // Runs from m to j that stay as long as they are lie behind each other as before.
  lemma {:induction false} Region(f: seq<Frame>, start: nat, now: seq<nat>, goal: seq<nat>, t: seq<Frame>, m: nat,
                                  j: nat)
    requires Runs(now, goal, f, start, t) && m <= j <= |now| && forall i | m <= i < j :: goal[i] == now[i]
    ensures Sum(goal[..m]) <= Sum(goal[..j]) <= |t| && Sum(now[..m]) <= Sum(now[..j]) <= Sum(now) <= |f| - start
    ensures t[Sum(goal[..m])..Sum(goal[..j])] == f[start + Sum(now[..m])..start + Sum(now[..j])]
    decreases j
  {
    hide Runs, Sum, KeptRun;
    RunFits(f, start, now, goal, t, j);
    if m < j {
      Region(f, start, now, goal, t, m, j - 1);
      SumUpTo(now, j - 1);
      SumUpTo(goal, j - 1);
      RunAt(f, start, now, goal, t, j - 1);
      Joined(t, Sum(goal[..m]), Sum(goal[..j - 1]), Sum(goal[..j]));
      Joined(f, start + Sum(now[..m]), start + Sum(now[..j - 1]), start + Sum(now[..j]));
    }
  }

  lemma RunFits(f: seq<Frame>, start: nat, now: seq<nat>, goal: seq<nat>, t: seq<Frame>, j: nat)
    requires Runs(now, goal, f, start, t) && j <= |now|
    ensures |t| == Sum(goal) && |goal| == |now| && start + Sum(now) <= |f|
    ensures Sum(goal[..j]) <= Sum(goal) && Sum(now[..j]) <= Sum(now)
  {
    SumPrefix(goal, j);
    SumPrefix(now, j);
  }

  lemma RunAt(f: seq<Frame>, start: nat, now: seq<nat>, goal: seq<nat>, t: seq<Frame>, j: nat)
    requires Runs(now, goal, f, start, t) && j < |now|
    ensures var a, b, n := start + Sum(now[..j]), Sum(goal[..j]), Least(now[j], goal[j]);
      a + n <= |f| && b + n <= |t| && t[b..b + n] == f[a..a + n]
  {
    assert KeptRun(now, goal, f, start, t, j);
  }

  // How runs end, when from m on all stay as long as they are.
  lemma RunsTail(f: seq<Frame>, start: nat, now: seq<nat>, goal: seq<nat>, t: seq<Frame>, m: nat)
    requires |now| == |goal| && m <= |now| && forall i | m <= i < |now| :: goal[i] == now[i]
    requires start + Sum(now) <= |f| && |t| == Sum(goal)
    ensures Sum(goal[..m]) <= Sum(goal) && Sum(now[..m]) <= Sum(now)
    ensures Runs(now[..m], goal[..m], f, start, t[..Sum(goal[..m])]) ==>
      (Runs(now, goal, f, start, t) <==> TailRead(f, t, start + Sum(now[..m]), start + Sum(now), Sum(goal[..m])))
  {
    hide Runs, Sum, TailRead;
    SumPrefix(goal, m);
    SumPrefix(now, m);
    if Runs(now, goal, f, start, t) { TailOf(f, start, now, goal, t, m); }
    if Runs(now[..m], goal[..m], f, start, t[..Sum(goal[..m])])
      && TailRead(f, t, start + Sum(now[..m]), start + Sum(now), Sum(goal[..m]))
    {
      RunsOn(f, start, now, goal, t, m);
    }
  }

  lemma TailOf(f: seq<Frame>, start: nat, now: seq<nat>, goal: seq<nat>, t: seq<Frame>, m: nat)
    requires Runs(now, goal, f, start, t) && m <= |now| && forall i | m <= i < |now| :: goal[i] == now[i]
    ensures Sum(goal[..m]) <= |t| == Sum(goal) && Sum(now[..m]) <= Sum(now) <= |f| - start
    ensures TailRead(f, t, start + Sum(now[..m]), start + Sum(now), Sum(goal[..m]))
  {
    hide Runs, Sum;
    RunFits(f, start, now, goal, t, m);
    Region(f, start, now, goal, t, m, |now|);
    AllOf(now);
    AllOf(goal);
  }

  lemma RunsOn(f: seq<Frame>, start: nat, now: seq<nat>, goal: seq<nat>, t: seq<Frame>, m: nat)
    requires |now| == |goal| && m <= |now| && forall i | m <= i < |now| :: goal[i] == now[i]
    requires start + Sum(now) <= |f| && |t| == Sum(goal) && Sum(goal[..m]) <= Sum(goal) && Sum(now[..m]) <= Sum(now)
    requires Runs(now[..m], goal[..m], f, start, t[..Sum(goal[..m])])
    requires TailRead(f, t, start + Sum(now[..m]), start + Sum(now), Sum(goal[..m]))
    ensures Runs(now, goal, f, start, t)
  {
    hide Runs, Sum;
    RunsMore(f, start, now, goal, t, m, |now|);
    AllOf(now);
    AllOf(goal);
    assert t[..Sum(goal)] == t;
  }

  lemma AllOf(s: seq<nat>)
    ensures s[..|s|] == s
  {}

  lemma {:induction false} RunsMore(f: seq<Frame>, start: nat, now: seq<nat>, goal: seq<nat>, t: seq<Frame>, m: nat,
                                    j: nat)
    requires |now| == |goal| && m <= j <= |now| && forall i | m <= i < |now| :: goal[i] == now[i]
    requires start + Sum(now) <= |f| && |t| == Sum(goal) && Sum(goal[..m]) <= Sum(goal) && Sum(now[..m]) <= Sum(now)
    requires Runs(now[..m], goal[..m], f, start, t[..Sum(goal[..m])])
    requires t[Sum(goal[..m])..] == f[start + Sum(now[..m])..start + Sum(now)]
    ensures Sum(goal[..j]) <= Sum(goal) && Sum(goal[..j]) - Sum(goal[..m]) == Sum(now[..j]) - Sum(now[..m]) >= 0
    ensures Runs(now[..j], goal[..j], f, start, t[..Sum(goal[..j])])
    decreases j
  {
    hide Runs, Sum;
    SumPrefix(goal, j);
    if m < j {
      RunsMore(f, start, now, goal, t, m, j - 1);
      SumUpTo(now, j - 1);
      SumUpTo(goal, j - 1);
      SumPrefix(now, j);
      var n, a, b := now[j - 1], start + Sum(now[..j - 1]), Sum(goal[..j - 1]);
      TailPart(t, f, Sum(goal[..m]), start + Sum(now[..m]), start + Sum(now), b, n);
      NextRun(now[..j - 1], goal[..j - 1], f, start, t[..b], n, t[b..b + n]);
      assert now[..j - 1] + [n] == now[..j] && goal[..j - 1] + [n] == goal[..j] && t[..b] + t[b..b + n] == t[..b + n];
    }
  }

  lemma TailPart(t: seq<Frame>, f: seq<Frame>, x: nat, y: nat, end: nat, b: nat, n: nat)
    requires x <= b && b + n <= |t| && y <= end <= |f| && t[x..] == f[y..end]
    ensures b - x + n <= end - y && t[b..b + n] == f[y + (b - x)..y + (b - x) + n]
  {
    SliceOf(t, x, |t|, b - x, b - x + n);
    SliceOf(f, y, end, b - x, b - x + n);
    assert t[x..|t|] == t[x..];
  }

  lemma SliceOf(f: seq<Frame>, y: nat, end: nat, u: nat, v: nat)
    requires y <= end <= |f| && u <= v <= end - y
    ensures f[y..end][u..v] == f[y + u..y + v]
  {
    var g, h := f[y..end][u..v], f[y + u..y + v];
    forall i | 0 <= i < v - u ensures g[i] == h[i] { assert f[y..end][u + i] == f[y + (u + i)]; }
  }

  lemma RunsFront(was: seq<nat>, now: seq<nat>, pfns: seq<Frame>, num: nat, start: nat, temp: seq<Frame>)
    requires Runs(was, now, pfns, start, temp) && start + Sum(was) <= num <= |pfns|
    ensures Runs(was, now, pfns[..num], start, temp)
  {
    hide Sum, KeptRun;
    forall j: nat | j < |was|
      ensures KeptRun(was, now, pfns[..num], start, temp, j)
    {
      FrontRun(was, now, pfns, num, start, temp, j);
    }
  }

  lemma FrontRun(was: seq<nat>, now: seq<nat>, pfns: seq<Frame>, num: nat, start: nat, temp: seq<Frame>, j: nat)
    requires |was| == |now| && j < |was| && start + Sum(was) <= num <= |pfns| && KeptRun(was, now, pfns, start, temp, j)
    ensures KeptRun(was, now, pfns[..num], start, temp, j)
  {
    SumPrefix(was, j + 1);
    SumUpTo(was, j);
    hide Sum;
    var a, n := start + Sum(was[..j]), Least(was[j], now[j]);
    assert pfns[..num][a..a + n] == pfns[a..a + n];
  }

  // ---- a second pass that reads too few frames

  // What each run still counts is at most what it has, and that itself if it is to get more.
  ghost predicate Counting(now: seq<nat>, goal: seq<nat>, cnt: seq<nat>) {
    && |now| == |goal| == |cnt|
    && forall j | 0 <= j < |now| :: cnt[j] <= now[j] <= goal[j] && (goal[j] > now[j] ==> cnt[j] == now[j])
  }

  ghost predicate LateAt(now: seq<nat>, cnt: seq<nat>, j: nat)
    requires j <= |now| == |cnt|
  {
    Sum(cnt[..j]) == Sum(now[..j])
  }

  // Runs that count too few are all behind those that get more.
  ghost predicate Late(now: seq<nat>, goal: seq<nat>, cnt: seq<nat>) {
    && |now| == |goal| == |cnt|
    && forall j: nat | j < |now| && goal[j] > now[j] :: LateAt(now, cnt, j)
  }

  // The runs up to the last that gets more.
  ghost function LastMore(now: seq<nat>, goal: seq<nat>): (m: nat)
    requires |now| == |goal| && forall j | 0 <= j < |now| :: now[j] <= goal[j]
    ensures m <= |now| && (m > 0 ==> goal[m - 1] > now[m - 1]) && forall i | m <= i < |now| :: goal[i] == now[i]
  {
    var n := |now| - 1;
    if now == [] then 0 else if goal[n] > now[n] then |now| else LastMore(now[..n], goal[..n])
  }

  lemma PrefixCounts(now: seq<nat>, goal: seq<nat>, cnt: seq<nat>, m: nat)
    requires Counting(now, goal, cnt) && m <= |now|
    requires m > 0 ==> goal[m - 1] > now[m - 1] && LateAt(now, cnt, m - 1)
    ensures cnt[..m] == now[..m]
  {
    hide Sum;
    if m > 0 {
      EqualSums(cnt[..m - 1], now[..m - 1]);
      assert cnt[..m] == cnt[..m - 1] + [cnt[m - 1]] && now[..m] == now[..m - 1] + [now[m - 1]];
    }
  }

  lemma GrownParts(now: seq<nat>, goal: seq<nat>, cnt: seq<nat>, m: nat)
    requires Counting(now, goal, cnt) && m <= |now| && cnt[..m] == now[..m]
    requires forall i | m <= i < |now| :: goal[i] == now[i]
    ensures var fin := Grown(cnt, now, goal);
      fin[..m] == goal[..m] && (forall i | m <= i < |now| :: fin[i] == cnt[i])
  {
    var fin := Grown(cnt, now, goal);
    forall i | 0 <= i < m ensures fin[i] == goal[i] { assert cnt[i] == cnt[..m][i] == now[..m][i] == now[i]; }
  }

  // What the second pass adds, and does not read.
  lemma GrownNews(now: seq<nat>, goal: seq<nat>, cnt: seq<nat>)
    requires Counting(now, goal, cnt)
    ensures var fin := Grown(cnt, now, goal);
      && News(cnt, fin) + Sum(now) == Sum(goal) && News(cnt, fin) + Sum(cnt) == Sum(fin)
      && forall j | 0 <= j < |cnt| :: cnt[j] <= fin[j]
    ensures Sum(cnt) <= Sum(now)
  {
    hide Sum, News;
    SumGrown(cnt, now, goal);
    NewsMore(cnt, Grown(cnt, now, goal));
    SumLess(cnt, now);
  }

  lemma NewsGrow(cnt: seq<nat>, fin: seq<nat>, i: nat)
    requires i < |cnt| == |fin| && forall j | 0 <= j < |cnt| :: cnt[j] <= fin[j]
    ensures News(cnt[..i + 1], fin[..i + 1]) == News(cnt[..i], fin[..i]) + Excess(fin[i], cnt[i]) <= News(cnt, fin)
    ensures Sum(cnt[..i + 1]) == Sum(cnt[..i]) + cnt[i] <= Sum(cnt)
  {
    hide News, Sum;
    Prefixes(cnt, fin, i);
    NewsNext(cnt[..i], fin[..i], cnt[i], fin[i]);
    NewsMore(cnt[..i + 1], fin[..i + 1]);
    NewsMore(cnt, fin);
    SumTail(cnt, fin, i + 1);
    SumUpTo(cnt, i);
    SumPrefix(cnt, i + 1);
  }

  lemma Prefixes(a: seq<nat>, b: seq<nat>, i: nat)
    requires i < |a| == |b|
    ensures a[..i] + [a[i]] == a[..i + 1] && b[..i] + [b[i]] == b[..i + 1]
  {}

  // The i-th run of a pass that only adds frames.
  lemma LaidStep(f: seq<Frame>, start: nat, cnt: seq<nat>, fin: seq<nat>, pool: seq<Frame>, left: nat, i: nat)
    requires i < |cnt| == |fin| && forall j | 0 <= j < |cnt| :: cnt[j] <= fin[j]
    requires start + Sum(cnt) <= |f| && News(cnt, fin) <= left <= |pool|
    ensures var s, l := Sum(cnt[..i]), left - News(cnt[..i], fin[..i]);
      && Sum(cnt[..i + 1]) == s + cnt[i] <= Sum(cnt) && fin[i] - cnt[i] <= l
      && News(cnt[..i + 1], fin[..i + 1]) == News(cnt[..i], fin[..i]) + (fin[i] - cnt[i]) <= left
      && Laid(f, start, cnt[..i + 1], fin[..i + 1], pool, left) == Laid(f, start, cnt[..i], fin[..i], pool, left)
         + (f[start + s..start + s + cnt[i]] + pool[l - (fin[i] - cnt[i])..l])
  {
    hide News, Sum, Laid, Piece;
    NewsGrow(cnt, fin, i);
    Prefixes(cnt, fin, i);
    LaidNext(f, start, cnt[..i], fin[..i], pool, left, cnt[i], fin[i]);
    PieceMore(f, start + Sum(cnt[..i]), cnt[i], fin[i], pool, left - News(cnt[..i], fin[..i]));
  }

  lemma BeginLaid(f: seq<Frame>, start: nat, cnt: seq<nat>, fin: seq<nat>, pool: seq<Frame>, left: nat)
    requires |cnt| == |fin| && start + Sum(cnt) <= |f| && left <= |pool|
    ensures News(cnt[..0], fin[..0]) == 0 && Sum(cnt[..0]) == 0 && start <= |f|
    ensures Laid(f, start, cnt[..0], fin[..0], pool, left) == []
  {}

  // What the second pass has added before the i-th run.
  lemma StepNews(now: seq<nat>, goal: seq<nat>, cnt: seq<nat>, i: nat)
    requires Counting(now, goal, cnt) && i < |now|
    ensures var fin := Grown(cnt, now, goal);
      && fin[i] == cnt[i] + Excess(goal[i], now[i])
      && News(cnt[..i], fin[..i]) == Sum(goal[..i]) - Sum(now[..i])
      && forall j | 0 <= j < |cnt| :: cnt[j] <= fin[j]
  {
    hide Sum, News;
    assert Grown(cnt, now, goal)[..i] == Grown(cnt[..i], now[..i], goal[..i]);
    GrownNews(now[..i], goal[..i], cnt[..i]);
  }

  // The record after the second pass, where the storage was as after the first.
  ghost function Second(p: seq<Frame>, stale: nat -> Frame, num: nat, start: nat, now: seq<nat>, goal: seq<nat>,
                        cnt: seq<nat>, pool: seq<Frame>): seq<Frame>
    requires Counting(now, goal, cnt) && start + Sum(now) <= num <= |p| && Sum(goal) - Sum(now) <= |pool|
  {
    GrownNews(now, goal, cnt);
    SecondRecord(p, stale, num, start, cnt, Grown(cnt, now, goal), pool, Sum(now) - Sum(cnt))
  }

  lemma SecondWritten(p: seq<Frame>, p': seq<Frame>, stale: nat -> Frame, num: nat, start: nat, now: seq<nat>,
                      goal: seq<nat>, cnt: seq<nat>, pool: seq<Frame>, post: nat, temp: seq<Frame>)
    requires Counting(now, goal, cnt) && start + Sum(now) + post == num <= |p| <= |p'| && Sum(goal) - Sum(now) <= |pool|
    requires num + Sum(goal) <= |p'| + Sum(now)
    requires p'[..|p|] == p && forall i: nat | |p| <= i < |p'| :: p'[i] == stale(i)
    requires var fin := Grown(cnt, now, goal);
      |cnt| == |fin| && start + Sum(cnt) <= |p'| && News(cnt, fin) + Sum(now) == Sum(goal)
        && temp == Laid(p', start, cnt, fin, pool, News(cnt, fin))
    ensures Sum(cnt) <= Sum(now) && |temp| + Sum(now) == Sum(cnt) + Sum(goal)
    ensures Rewritten(p', start, temp, start + Sum(cnt), post)[..num + Sum(goal) - Sum(now)]
      == Second(p, stale, num, start, now, goal, cnt, pool)
  {
    hide Sum, News, Laid, Grown, SecondRecord, Rewritten;
    GrownNews(now, goal, cnt);
    SecondRewritten(p, p', stale, num, start, cnt, Grown(cnt, now, goal), pool, Sum(now) - Sum(cnt));
  }

  // The frames at its end: those that are there, and those that were not read.
  ghost function Found(p: seq<Frame>, stale: nat -> Frame, num: nat, now: seq<nat>, goal: seq<nat>, cnt: seq<nat>)
    : seq<Frame>
    requires Counting(now, goal, cnt) && Sum(now) <= num
  {
    GrownNews(now, goal, cnt);
    Held(p, stale, num - (Sum(now) - Sum(cnt)) + (Sum(goal) - Sum(now)), Sum(now) - Sum(cnt))
  }

  ghost function Unread(p: seq<Frame>, num: nat, now: seq<nat>, cnt: seq<nat>): seq<Frame>
    requires Sum(cnt) <= Sum(now) <= num <= |p|
  {
    p[num - (Sum(now) - Sum(cnt))..num]
  }

  lemma SecondForm(p: seq<Frame>, stale: nat -> Frame, num: nat, start: nat, now: seq<nat>, goal: seq<nat>,
                   cnt: seq<nat>, pool: seq<Frame>)
    requires Counting(now, goal, cnt) && start + Sum(now) <= num <= |p| && Sum(goal) - Sum(now) <= |pool|
    ensures Sum(cnt) <= Sum(now) && |Found(p, stale, num, now, goal, cnt)| == Sum(now) - Sum(cnt)
    ensures var fin, d := Grown(cnt, now, goal), Sum(now) - Sum(cnt);
      && News(cnt, fin) == Sum(goal) - Sum(now) && News(cnt, fin) + Sum(cnt) == Sum(fin)
      && Second(p, stale, num, start, now, goal, cnt, pool)
         == p[..start] + Laid(p, start, cnt, fin, pool, News(cnt, fin)) + p[start + Sum(cnt)..num - d]
            + Found(p, stale, num, now, goal, cnt)
  {
    hide Sum, News, Laid, Held, Grown, Counting;
    GrownNews(now, goal, cnt);
  }

  // Up to the last run that gets more all is counted; behind it nothing is added.
  lemma LateParts(now: seq<nat>, goal: seq<nat>, cnt: seq<nat>) returns (m: nat)
    requires Counting(now, goal, cnt) && Late(now, goal, cnt)
    ensures m <= |now| == |goal| == |cnt| && cnt[..m] == now[..m] && Grown(cnt, now, goal)[..m] == goal[..m]
    ensures forall i | m <= i < |now| :: goal[i] == now[i] && Grown(cnt, now, goal)[i] == cnt[i]
  {
    hide LateAt, Grown;
    m := LastMore(now, goal);
    PrefixCounts(now, goal, cnt, m);
    GrownParts(now, goal, cnt, m);
  }

  // Where the frames lie when runs that count too few are behind those that get more.
  lemma SplicedLate(p: seq<Frame>, stale: nat -> Frame, num: nat, start: nat, now: seq<nat>, goal: seq<nat>,
                    cnt: seq<nat>, pool: seq<Frame>)
    requires Counting(now, goal, cnt) && start + Sum(now) <= num <= |p| && Sum(goal) - Sum(now) <= |pool|
    requires Late(now, goal, cnt)
    ensures Sum(cnt) <= Sum(now)
    ensures Spliced(p[..num], Second(p, stale, num, start, now, goal, cnt, pool), start, now, goal)
      <==> Found(p, stale, num, now, goal, cnt) == Unread(p, num, now, cnt)
  {
    hide Sum, News, Laid, Late, Grown, Spliced, Second, Found, Counting;
    SecondForm(p, stale, num, start, now, goal, cnt, pool);
    var m := LateParts(now, goal, cnt);
    var fin, d := Grown(cnt, now, goal), Sum(now) - Sum(cnt);
    var more := News(cnt, fin);
    LaidTail(p, start, cnt, fin, pool, more, m);
    LateLayout(p, num, start, now, goal, pool, more, m, start + Sum(cnt), d, Laid(p, start, cnt, fin, pool, more),
               Second(p, stale, num, start, now, goal, cnt, pool), Found(p, stale, num, now, goal, cnt));
  }

  lemma LateLayout(p: seq<Frame>, num: nat, start: nat, now: seq<nat>, goal: seq<nat>, pool: seq<Frame>, more: nat,
                   m: nat, end: nat, d: nat, laid: seq<Frame>, f2: seq<Frame>, found: seq<Frame>)
    requires |now| == |goal| && m <= |now| && (forall i | m <= i < |now| :: goal[i] == now[i]) && |found| == d
    requires start + Sum(now[..m]) <= end && end + d == start + Sum(now) <= num <= |p|
    requires News(now[..m], goal[..m]) <= more <= |pool|
    requires laid == Laid(p, start, now[..m], goal[..m], pool, more) + p[start + Sum(now[..m])..end]
    requires f2 == p[..start] + laid + p[end..num - d] + found
    ensures Spliced(p[..num], f2, start, now, goal) <==> found == p[num - d..num]
  {
    hide Sum, News, Laid, Runs, Spliced;
    var x, a := Laid(p, start, now[..m], goal[..m], pool, more), start + Sum(now[..m]);
    LaidRuns(p, start, now[..m], goal[..m], pool, more);
    LaidSize(p, start, now[..m], goal[..m], pool, more);
    RunsFront(now[..m], goal[..m], p, num, start, x);
    Regroup(p[..start], x, p[a..end], p[end..num - d], found);
    Joined(p, a, end, num - d);
    SplicedEnd(p, num, start, now, goal, x, m, d, found, f2);
  }

  lemma Regroup(a: seq<Frame>, x: seq<Frame>, b: seq<Frame>, c: seq<Frame>, e: seq<Frame>)
    ensures a + (x + b) + c + e == a + x + ((b + c) + e)
  {}

  lemma SplicedEnd(p: seq<Frame>, num: nat, start: nat, now: seq<nat>, goal: seq<nat>, x: seq<Frame>, m: nat, d: nat,
                   found: seq<Frame>, f2: seq<Frame>)
    requires |now| == |goal| && m <= |now| && (forall i | m <= i < |now| :: goal[i] == now[i])
    requires start + Sum(now) <= num <= |p| && start + Sum(now[..m]) + d <= num && |found| == d
    requires Runs(now[..m], goal[..m], p[..num], start, x) && |x| == Sum(goal[..m])
    requires f2 == p[..start] + x + (p[start + Sum(now[..m])..num - d] + found)
    ensures Spliced(p[..num], f2, start, now, goal) <==> found == p[num - d..num]
  {
    hide Sum, Runs, Spliced, TailRead, SameBehind;
    var a, b := start + Sum(now[..m]), start + Sum(now);
    TailSums(now, goal, m);
    var t := ReadOn(p, num, start, x, a, b, start + Sum(goal), d, found, f2);
    RunsTail(p[..num], start, now, goal, t, m);
    SplicedParts(p[..num], f2, start, now, goal, t);
  }

  // What t holds from n on is what f holds between a and b.
  ghost predicate TailRead(f: seq<Frame>, t: seq<Frame>, a: nat, b: nat, n: nat)
    requires a <= b <= |f| && n <= |t|
  {
    t[n..] == f[a..b]
  }

  ghost predicate SameBehind(f: seq<Frame>, f2: seq<Frame>, b: nat, y: nat)
    requires b <= |f| && y <= |f2|
  {
    f2[y..] == f[b..]
  }

  lemma SplicedParts(f: seq<Frame>, f2: seq<Frame>, start: nat, now: seq<nat>, goal: seq<nat>, t: seq<Frame>)
    requires start + Sum(now) <= |f| && start + Sum(goal) <= |f2| && f2[..start] == f[..start]
    requires t == f2[start..start + Sum(goal)]
    ensures Spliced(f, f2, start, now, goal)
      <==> SameBehind(f, f2, start + Sum(now), start + Sum(goal)) && Runs(now, goal, f, start, t)
  {
    hide Sum, Runs;
  }

  lemma {:induction false} TailSums(now: seq<nat>, goal: seq<nat>, m: nat)
    requires |now| == |goal| && m <= |now| && forall i | m <= i < |now| :: goal[i] == now[i]
    ensures Sum(goal) - Sum(goal[..m]) == Sum(now) - Sum(now[..m]) >= 0
  {
    if m == |now| {
      assert now[..m] == now && goal[..m] == goal;
    } else {
      var n := |now| - 1;
      TailSums(now[..n], goal[..n], m);
      assert now[..n][..m] == now[..m] && goal[..n][..m] == goal[..m];
    }
  }

  lemma ReadOn(p: seq<Frame>, num: nat, start: nat, x: seq<Frame>, a: nat, b: nat, y: nat, d: nat, found: seq<Frame>,
               f2: seq<Frame>) returns (t: seq<Frame>)
    requires start <= a <= b <= num <= |p| && a + d <= num && |found| == d && y == start + |x| + (b - a)
    requires f2 == p[..start] + x + (p[a..num - d] + found)
    ensures y <= |f2| && t == f2[start..y] && f2[..start] == p[..num][..start] && |x| <= |t| && t[..|x|] == x
    ensures TailRead(p[..num], t, a, b, |x|) && SameBehind(p[..num], f2, b, y) <==> found == p[num - d..num]
  {
    var z, rest := start + |x|, p[a..num - d] + found;
    assert f2[z..] == rest && f2[..z] == p[..start] + x;
    t := f2[start..y];
    SliceOf(f2, start, y, 0, |x|);
    SliceOf(f2, start, y, |x|, y - start);
    CutEqual(f2, z, y, p[..num], a, b);
    EndEqual(p, num, a, d, found);
  }

  lemma EndEqual(p: seq<Frame>, num: nat, a: nat, d: nat, found: seq<Frame>)
    requires a + d <= num <= |p| && |found| == d
    ensures p[a..num - d] + found == p[..num][a..] <==> found == p[num - d..num]
  {
    assert p[..num][a..] == p[a..num - d] + p[num - d..num];
    if p[a..num - d] + found == p[..num][a..] {
      assert (p[a..num - d] + found)[num - d - a..] == found;
      assert (p[a..num - d] + p[num - d..num])[num - d - a..] == p[num - d..num];
    }
  }

  lemma CutEqual(f: seq<Frame>, z: nat, y: nat, g: seq<Frame>, a: nat, b: nat)
    requires z <= y <= |f| && a <= b <= |g| && y - z == b - a
    ensures f[z..y] == g[a..b] && f[y..] == g[b..] <==> f[z..] == g[a..]
  {
    assert f[z..] == f[z..y] + f[y..] && g[a..] == g[a..b] + g[b..];
    if f[z..] == g[a..] {
      assert f[z..][..y - z] == f[z..y] && g[a..][..b - a] == g[a..b];
      assert f[z..][y - z..] == f[y..] && g[a..][b - a..] == g[b..];
    }
  }

  // ---- and otherwise

  // The first of the frames a run gets.
  lemma {:induction false} NewAt(f: seq<Frame>, start: nat, was: seq<nat>, fin: seq<nat>, pool: seq<Frame>, left: nat,
                                 j: nat)
    requires |was| == |fin| && start + Sum(was) <= |f| && News(was, fin) <= left <= |pool|
    requires j < |was| && was[j] < fin[j]
    ensures |Laid(f, start, was, fin, pool, left)| == Sum(fin) && Sum(fin[..j]) + was[j] < Sum(fin)
    ensures Laid(f, start, was, fin, pool, left)[Sum(fin[..j]) + was[j]] in pool[..left]
    decreases |was|
  {
    hide Laid, Sum, News, Piece;
    LaidSize(f, start, was, fin, pool, left);
    var n, w, g := Last(was, fin);
    LaidNext(f, start, was[..n], fin[..n], pool, left, w, g);
    LaidSize(f, start, was[..n], fin[..n], pool, left);
    if j == n {
      NewPiece(f, start + Sum(was[..n]), w, g, pool, left - News(was[..n], fin[..n]), left);
    } else {
      NewAt(f, start, was[..n], fin[..n], pool, left, j);
      assert fin[..n][..j] == fin[..j];
    }
  }

  lemma NewPiece(f: seq<Frame>, idx: nat, w: nat, g: nat, pool: seq<Frame>, l: nat, left: nat)
    requires idx + w <= |f| && w < g && g - w <= l <= left <= |pool|
    ensures Piece(f, idx, w, g, pool, l)[w] in pool[..left]
  {
    assert Piece(f, idx, w, g, pool, l)[w] == pool[..left][l - (g - w)];
  }

  lemma Offsets(now: seq<nat>, goal: seq<nat>, cnt: seq<nat>, j: nat, m: nat)
    requires Counting(now, goal, cnt) && m <= j < |now| && cnt[..m] == now[..m] && now[j] < goal[j]
    requires forall i | m <= i < j :: goal[i] == now[i]
    ensures Sum(cnt[..j]) <= Sum(now[..j])
    ensures var o := Sum(Grown(cnt, now, goal)[..j]) + cnt[j];
      o == Sum(goal[..j]) - Sum(now[..j]) + Sum(cnt[..j]) + now[j] && o >= Sum(goal[..m])
  {
    hide Sum;
    assert Grown(cnt, now, goal)[..j] == Grown(cnt[..j], now[..j], goal[..j]);
    SumGrown(cnt[..j], now[..j], goal[..j]);
    SumLess(cnt[..j], now[..j]);
    TailSums(now[..j], goal[..j], m);
    SumPrefix(cnt[..j], m);
    assert now[..j][..m] == now[..m] && goal[..j][..m] == goal[..m] && cnt[..j][..m] == cnt[..m];
  }

  // The first new frame of a run, in the record.
  lemma NewFrame(p: seq<Frame>, stale: nat -> Frame, num: nat, start: nat, now: seq<nat>, goal: seq<nat>,
                 cnt: seq<nat>, pool: seq<Frame>, j: nat)
    requires Counting(now, goal, cnt) && start + Sum(now) <= num <= |p| && Sum(goal) - Sum(now) <= |pool|
    requires j < |now| && now[j] < goal[j]
    ensures var o, f2 := Sum(Grown(cnt, now, goal)[..j]) + cnt[j], Second(p, stale, num, start, now, goal, cnt, pool);
      start + o < |f2| && f2[start + o] in pool
  {
    hide Sum, News, Laid, Second, Found, Grown;
    GrownNews(now, goal, cnt);
    SecondForm(p, stale, num, start, now, goal, cnt, pool);
    var fin := Grown(cnt, now, goal);
    assert fin[j] == cnt[j] + Excess(goal[j], now[j]) by { GrownAt(cnt, now, goal, j); }
    NewAt(p, start, cnt, fin, pool, News(cnt, fin), j);
  }

  lemma GrownAt(cnt: seq<nat>, now: seq<nat>, goal: seq<nat>, j: nat)
    requires |cnt| == |now| == |goal| && j < |cnt|
    ensures Grown(cnt, now, goal)[j] == cnt[j] + Excess(goal[j], now[j])
  {}

  lemma InRegion(t: seq<Frame>, f: seq<Frame>, lo: nat, a: nat, hi: nat, b: nat, n: nat, o: nat)
    requires lo <= hi && a <= b && hi + n <= |t| && b + n <= |f| && t[lo..hi] == f[a..b] && t[hi..hi + n] == f[b..b + n]
    requires lo <= o < hi + n
    ensures t[o] in f
  {
    if o < hi {
      assert t[o] == t[lo..hi][o - lo] == f[a..b][o - lo];
    } else {
      assert t[o] == t[hi..hi + n][o - hi] == f[b..b + n][o - hi];
    }
  }

  // A run that gets more behind one that counts too few: its first new frame lies where an old one was to be.
  lemma Misplaced(p: seq<Frame>, stale: nat -> Frame, num: nat, start: nat, now: seq<nat>, goal: seq<nat>,
                  cnt: seq<nat>, pool: seq<Frame>, j: nat)
    requires Counting(now, goal, cnt) && start + Sum(now) <= num <= |p| && Sum(goal) - Sum(now) <= |pool|
    requires j < |now| && now[j] < goal[j] && forall i: nat | i < j && goal[i] > now[i] :: LateAt(now, cnt, i)
    requires Spliced(p[..num], Second(p, stale, num, start, now, goal, cnt, pool), start, now, goal)
    requires forall x | x in pool :: x !in p[..num]
    ensures LateAt(now, cnt, j)
  {
    hide Sum, Runs, Grown, Second, Counting;
    var m := PrefixLate(now, goal, cnt, j);
    Offsets(now, goal, cnt, j, m);
    NewFrame(p, stale, num, start, now, goal, cnt, pool, j);
    var o: nat := Sum(Grown(cnt, now, goal)[..j]) + cnt[j];
    if Sum(cnt[..j]) < Sum(now[..j]) {
      OldPlace(p[..num], Second(p, stale, num, start, now, goal, cnt, pool), start, now, goal, j, m, o);
    }
  }

  // The runs up to the last one before j that gets more count all they have.
  lemma PrefixLate(now: seq<nat>, goal: seq<nat>, cnt: seq<nat>, j: nat) returns (m: nat)
    requires Counting(now, goal, cnt) && j < |now| && forall i: nat | i < j && goal[i] > now[i] :: LateAt(now, cnt, i)
    ensures m <= j && cnt[..m] == now[..m] && forall i | m <= i < j :: goal[i] == now[i]
    ensures |now| == |goal| == |cnt| && cnt[j] <= now[j] <= goal[j]
  {
    hide LateAt;
    m := LastMore(now[..j], goal[..j]);
    if m > 0 { assert goal[..j][m - 1] > now[..j][m - 1]; }
    PrefixCounts(now, goal, cnt, m);
    forall i | m <= i < j ensures goal[i] == now[i] { assert goal[..j][i] == now[..j][i]; }
  }

  // Where nothing gets more, and in what is kept of the run behind, lie old frames.
  lemma OldPlace(f: seq<Frame>, f2: seq<Frame>, start: nat, now: seq<nat>, goal: seq<nat>, j: nat, m: nat, o: nat)
    requires |now| == |goal| && m <= j < |now| && now[j] <= goal[j] && forall i | m <= i < j :: goal[i] == now[i]
    requires Spliced(f, f2, start, now, goal) && Sum(goal[..m]) <= o < Sum(goal[..j]) + now[j]
    ensures start + o < |f2| && f2[start + o] in f
  {
    hide Sum, Runs;
    var t := f2[start..start + Sum(goal)];
    Region(f, start, now, goal, t, m, j);
    RunAt(f, start, now, goal, t, j);
    InRegion(t, f, Sum(goal[..m]), start + Sum(now[..m]), Sum(goal[..j]), start + Sum(now[..j]), now[j], o);
  }

  lemma {:induction false} LateBefore(p: seq<Frame>, stale: nat -> Frame, num: nat, start: nat, now: seq<nat>,
                                      goal: seq<nat>, cnt: seq<nat>, pool: seq<Frame>, j: nat)
    requires Counting(now, goal, cnt) && start + Sum(now) <= num <= |p| && Sum(goal) - Sum(now) <= |pool|
    requires Spliced(p[..num], Second(p, stale, num, start, now, goal, cnt, pool), start, now, goal)
    requires (forall x | x in pool :: x !in p[..num]) && j <= |now|
    ensures forall i: nat | i < j && goal[i] > now[i] :: LateAt(now, cnt, i)
    decreases j
  {
    hide LateAt, Spliced, Second, Sum;
    if j > 0 {
      LateBefore(p, stale, num, start, now, goal, cnt, pool, j - 1);
      if goal[j - 1] > now[j - 1] { Misplaced(p, stale, num, start, now, goal, cnt, pool, j - 1); }
    }
  }

  // The frames are in their places exactly if runs that count too few are behind those that get more, and the frames
  // not read are found again at the end.
  lemma SplicedExactly(p: seq<Frame>, stale: nat -> Frame, num: nat, start: nat, now: seq<nat>, goal: seq<nat>,
                       cnt: seq<nat>, pool: seq<Frame>)
    requires Counting(now, goal, cnt) && start + Sum(now) <= num <= |p| && Sum(goal) - Sum(now) <= |pool|
    requires forall x | x in pool :: x !in p[..num]
    ensures Sum(cnt) <= Sum(now)
    ensures Spliced(p[..num], Second(p, stale, num, start, now, goal, cnt, pool), start, now, goal)
      <==> Late(now, goal, cnt) && Found(p, stale, num, now, goal, cnt) == Unread(p, num, now, cnt)
  {
    hide LateAt, Spliced, Second, Sum, Found, Unread;
    GrownNews(now, goal, cnt);
    if Spliced(p[..num], Second(p, stale, num, start, now, goal, cnt, pool), start, now, goal) {
      LateBefore(p, stale, num, start, now, goal, cnt, pool, |now|);
    }
    if Late(now, goal, cnt) { SplicedLate(p, stale, num, start, now, goal, cnt, pool); }
  }

  // The frames on record are the right ones exactly if those not read are found again at the end.
  lemma SecondExactly(p: seq<Frame>, stale: nat -> Frame, num: nat, start: nat, now: seq<nat>, goal: seq<nat>,
                      cnt: seq<nat>, pool: seq<Frame>)
    requires Counting(now, goal, cnt) && start + Sum(now) <= num <= |p| && Sum(goal) - Sum(now) <= |pool|
    ensures Sum(cnt) <= Sum(now) <= Sum(goal)
    ensures Added(p[..num], Second(p, stale, num, start, now, goal, cnt, pool), pool[..Sum(goal) - Sum(now)])
      <==> SameBag(Found(p, stale, num, now, goal, cnt), Unread(p, num, now, cnt))
  {
    hide Sum, News, SameBag, Added, SecondRecord, Held, Grown;
    GrownNews(now, goal, cnt);
    SecondAdds(p, stale, num, start, cnt, Grown(cnt, now, goal), pool, Sum(now) - Sum(cnt));
  }

  // ---- both passes

  // The pages the runs keep in the first pass.
  ghost function Nows(was: seq<nat>, goal: seq<nat>): (now: seq<nat>)
    requires |was| == |goal|
    ensures |now| == |was| && forall j | 0 <= j < |was| :: now[j] == Least(was[j], goal[j])
  {
    seq<nat>(|was|, j requires 0 <= j < |was| => Least(was[j], goal[j]))
  }

  // A call: the storage, the frames on record, where the runs start, the pages they have and are to have, and those
  // they count in between.
  ghost predicate Call(p: seq<Frame>, num: nat, start: nat, was: seq<nat>, goal: seq<nat>, cnt: seq<nat>) {
    |was| == |goal| && start + Sum(was) <= num <= |p| && Counting(Nows(was, goal), goal, cnt)
  }

  // Pages kept but not counted.
  ghost function Short(was: seq<nat>, goal: seq<nat>, cnt: seq<nat>): nat
    requires |was| == |goal| && Counting(Nows(was, goal), goal, cnt)
  {
    GrownNews(Nows(was, goal), goal, cnt);
    Sum(Nows(was, goal)) - Sum(cnt)
  }

  // Pages on record in the end that are not mapped.
  ghost function Unmapped(was: seq<nat>, goal: seq<nat>, cnt: seq<nat>): nat
    requires |was| == |goal| && Counting(Nows(was, goal), goal, cnt)
  {
    if Nows(was, goal) == goal then 0 else Short(was, goal, cnt)
  }

  // The frames on record after the first pass, and the storage.
  ghost function NumFirst(p: seq<Frame>, num: nat, start: nat, was: seq<nat>, goal: seq<nat>): (r: nat)
    requires |was| == |goal| && start + Sum(was) <= num <= |p|
    ensures start + Sum(Nows(was, goal)) <= r <= num && r + Sum(was) == num + Sum(Nows(was, goal))
  {
    SumLess(Nows(was, goal), was);
    num - (Sum(was) - Sum(Nows(was, goal)))
  }

  ghost function AfterFirst(p: seq<Frame>, num: nat, start: nat, was: seq<nat>, goal: seq<nat>): (r: seq<Frame>)
    requires |was| == |goal| && start + Sum(was) <= num <= |p|
    ensures |r| == |p|
  {
    FirstStorage(p, num, start, was, Nows(was, goal))
  }

  // The spare frames, and those that come.
  ghost function Pool(p: seq<Frame>, start: nat, was: seq<nat>, goal: seq<nat>, grant: seq<Frame>): (r: seq<Frame>)
    requires |was| == |goal| && start + Sum(was) <= |p|
    ensures |r| + Sum(Nows(was, goal)) == Sum(was) + |grant|
  {
    KeptBag(p, start, was, Nows(was, goal));
    GivenUp(p, start, was, Nows(was, goal)) + grant
  }

  // The record at the end.
  ghost function EndRecord(p: seq<Frame>, stale: nat -> Frame, num: nat, start: nat, was: seq<nat>, goal: seq<nat>,
                           cnt: seq<nat>, grant: seq<Frame>): seq<Frame>
    requires Call(p, num, start, was, goal, cnt) && Sum(goal) <= Sum(was) + |grant|
  {
    Second(AfterFirst(p, num, start, was, goal), stale, NumFirst(p, num, start, was, goal), start, Nows(was, goal),
           goal,
           cnt, Pool(p, start, was, goal, grant))
  }

  // Its last frames, and those that the second pass did not read.
  ghost function EndFound(p: seq<Frame>, stale: nat -> Frame, num: nat, start: nat, was: seq<nat>, goal: seq<nat>,
                          cnt: seq<nat>): seq<Frame>
    requires Call(p, num, start, was, goal, cnt)
  {
    Found(AfterFirst(p, num, start, was, goal), stale, NumFirst(p, num, start, was, goal), Nows(was, goal), goal, cnt)
  }

  ghost function EndUnread(p: seq<Frame>, num: nat, start: nat, was: seq<nat>, goal: seq<nat>,
                           cnt: seq<nat>): seq<Frame>
    requires Call(p, num, start, was, goal, cnt)
  {
    GrownNews(Nows(was, goal), goal, cnt);
    Unread(AfterFirst(p, num, start, was, goal), NumFirst(p, num, start, was, goal), Nows(was, goal), cnt)
  }

  ghost function EndFreed(p: seq<Frame>, start: nat, was: seq<nat>, goal: seq<nat>): (r: seq<Frame>)
    requires |was| == |goal| && start + Sum(was) <= |p|
    ensures |r| == Excess(Sum(was), Sum(goal))
  {
    KeptBag(p, start, was, Nows(was, goal));
    SumLess(Nows(was, goal), goal);
    var spare, more := GivenUp(p, start, was, Nows(was, goal)), Sum(goal) - Sum(Nows(was, goal));
    spare[Least(more, |spare|)..]
  }

  // Each frame is kept once or freed once, and each new one inserted once, exactly if the frames not read are the last
  // on record.
  lemma EndConserved(p: seq<Frame>, stale: nat -> Frame, num: nat, start: nat, was: seq<nat>, goal: seq<nat>,
                     cnt: seq<nat>, grant: seq<Frame>)
    requires Call(p, num, start, was, goal, cnt) && Sum(goal) <= Sum(was) + |grant|
    ensures Excess(Sum(goal), Sum(was)) <= |grant|
    ensures Conserved(p[..num], EndRecord(p, stale, num, start, was, goal, cnt, grant), EndFreed(p, start, was, goal),
                      grant[..Excess(Sum(goal), Sum(was))])
      <==> SameBag(EndFound(p, stale, num, start, was, goal, cnt), EndUnread(p, num, start, was, goal, cnt))
  {
    hide Sum, Conserved, SameBag, Added, LeftOver, Second, Found, Unread, GivenUp, Counting, AfterFirst, NumFirst, Pool,
         EndFreed, Nows;
    var now, num1 := Nows(was, goal), NumFirst(p, num, start, was, goal);
    FirstOver(p, num, start, was, goal, grant);
    SecondExactly(AfterFirst(p, num, start, was, goal), stale, num1, start, now, goal, cnt,
                  Pool(p, start, was, goal, grant));
    ConservedAdds(p[..num], AfterFirst(p, num, start, was, goal)[..num1],
                  EndRecord(p, stale, num, start, was, goal, cnt, grant), GivenUp(p, start, was, now), grant,
                  Sum(goal) - Sum(now));
  }

  lemma FirstOver(p: seq<Frame>, num: nat, start: nat, was: seq<nat>, goal: seq<nat>, grant: seq<Frame>)
    requires |was| == |goal| && start + Sum(was) <= num <= |p| && Sum(goal) <= Sum(was) + |grant|
    ensures var now, spare := Nows(was, goal), GivenUp(p, start, was, Nows(was, goal));
      && NumFirst(p, num, start, was, goal) <= |p| && |spare| + Sum(now) == Sum(was) && Sum(now) <= Sum(goal)
      && LeftOver(p[..num], AfterFirst(p, num, start, was, goal)[..NumFirst(p, num, start, was, goal)], spare)
      && Pool(p, start, was, goal, grant) == spare + grant
      && EndFreed(p, start, was, goal) == spare[Least(Sum(goal) - Sum(now), |spare|)..]
      && Excess(Sum(goal), Sum(was)) == Excess(Sum(goal) - Sum(now), |spare|)
  {
    hide Sum, LeftOver, FirstStorage, GivenUp, KeptPart;
    FirstLeft(p, num, start, was, Nows(was, goal));
    SumLess(Nows(was, goal), goal);
  }

  lemma ConservedAdds(f0: seq<Frame>, f1: seq<Frame>, f2: seq<Frame>, spare: seq<Frame>, grant: seq<Frame>, more: nat)
    requires LeftOver(f0, f1, spare) && more <= |spare| + |grant|
    ensures Conserved(f0, f2, spare[Least(more, |spare|)..], grant[..Excess(more, |spare|)])
      <==> Added(f1, f2, (spare + grant)[..more])
  {
    var x, y := spare[..Least(more, |spare|)], spare[Least(more, |spare|)..];
    assert spare == x + y;
    assert (spare + grant)[..more] == x + grant[..Excess(more, |spare|)];
    AddedBags(multiset(f1), multiset(f2), multiset(x), multiset(y), multiset(grant[..Excess(more, |spare|)]));
    if more < |spare| { assert grant[..Excess(more, |spare|)] == []; } else { assert y == []; }
  }

  lemma AddedBags(f1: multiset<Frame>, f2: multiset<Frame>, x: multiset<Frame>, y: multiset<Frame>, g: multiset<Frame>)
    ensures f2 + y == f1 + (x + y) + g <==> f2 == f1 + (x + g)
  {
    if f2 + y == f1 + (x + y) + g {
      forall e ensures f2[e] == (f1 + (x + g))[e] { assert (f2 + y)[e] == (f1 + (x + y) + g)[e]; }
    }
  }

  // Frames in their places after both passes are those in their places after the second.
  lemma ThroughFirst(p: seq<Frame>, num: nat, start: nat, was: seq<nat>, goal: seq<nat>, f2: seq<Frame>)
    requires |was| == |goal| && start + Sum(was) <= num <= |p|
    ensures NumFirst(p, num, start, was, goal) <= |p|
    ensures Spliced(p[..num], f2, start, was, goal)
      <==> Spliced(AfterFirst(p, num, start, was, goal)[..NumFirst(p, num, start, was, goal)], f2, start,
                   Nows(was, goal), goal)
  {
    hide Sum, Runs, KeptPart, FirstStorage, GivenUp, LeftOver;
    var now := Nows(was, goal);
    FirstLeft(p, num, start, was, now);
    KeptRuns(p, num, start, was, now);
    var f1 := AfterFirst(p, num, start, was, goal)[..NumFirst(p, num, start, was, goal)];
    KeptParts(p, num, start, start + Sum(was), KeptPart(p, start, was, now), f1);
    if start + Sum(goal) <= |f2| {
      TwoPasses(was, now, goal, p[..num], f1, start, KeptPart(p, start, was, now), f2[start..start + Sum(goal)]);
    }
  }

  lemma KeptRuns(p: seq<Frame>, num: nat, start: nat, was: seq<nat>, now: seq<nat>)
    requires |was| == |now| && start + Sum(was) <= num <= |p| && forall j | 0 <= j < |was| :: now[j] <= was[j]
    ensures Runs(was, now, p[..num], start, KeptPart(p, start, was, now))
  {
    hide Sum, Runs, Laid, Dealt, GivenUp;
    FirstBag(p, start, was, now);
    LaidRuns(p, start, was, now, [], 0);
    RunsFront(was, now, p, num, start, Laid(p, start, was, now, [], 0));
  }

  lemma KeptParts(p: seq<Frame>, num: nat, start: nat, end: nat, kept: seq<Frame>, f1: seq<Frame>)
    requires start <= end <= num <= |p| && f1 == p[..start] + kept + p[end..num]
    ensures start + |kept| <= |f1| && f1[start..start + |kept|] == kept
    ensures f1[..start] == p[..num][..start] && f1[start + |kept|..] == p[..num][end..]
  {}

  ghost predicate InPlace(p: seq<Frame>, stale: nat -> Frame, num: nat, start: nat, was: seq<nat>, goal: seq<nat>,
                          cnt: seq<nat>)
    requires Call(p, num, start, was, goal, cnt)
  {
    && Late(Nows(was, goal), goal, cnt)
    && EndFound(p, stale, num, start, was, goal, cnt) == EndUnread(p, num, start, was, goal, cnt)
  }

  // The frames before and behind, and those each run keeps, are in their places exactly if the runs that count too few
  // are behind those that get more, and the frames not read are the last on record in their order.
  lemma EndSpliced(p: seq<Frame>, stale: nat -> Frame, num: nat, start: nat, was: seq<nat>, goal: seq<nat>,
                   cnt: seq<nat>, grant: seq<Frame>)
    requires Call(p, num, start, was, goal, cnt) && Sum(goal) <= Sum(was) + |grant|
    ensures NoDup(p[..num] + grant) ==>
      (Spliced(p[..num], EndRecord(p, stale, num, start, was, goal, cnt, grant), start, was, goal)
       <==> InPlace(p, stale, num, start, was, goal, cnt))
    ensures InPlace(p, stale, num, start, was, goal, cnt) ==>
      Spliced(p[..num], EndRecord(p, stale, num, start, was, goal, cnt, grant), start, was, goal)
  {
    hide Sum, Spliced, Second, Found, Unread, Late, Counting, FirstStorage, GivenUp, KeptPart;
    var now, num1 := Nows(was, goal), NumFirst(p, num, start, was, goal);
    var p1, pool := AfterFirst(p, num, start, was, goal), Pool(p, start, was, goal, grant);
    GrownNews(now, goal, cnt);
    ThroughFirst(p, num, start, was, goal, EndRecord(p, stale, num, start, was, goal, cnt, grant));
    if NoDup(p[..num] + grant) {
      PoolApart(p, num, start, was, goal, grant);
      SplicedExactly(p1, stale, num1, start, now, goal, cnt, pool);
    } else if Late(now, goal, cnt) {
      SplicedLate(p1, stale, num1, start, now, goal, cnt, pool);
    }
  }

  // Where no frame occurs twice, the spare ones are no longer on record, and those that come never were.
  lemma PoolApart(p: seq<Frame>, num: nat, start: nat, was: seq<nat>, goal: seq<nat>, grant: seq<Frame>)
    requires |was| == |goal| && start + Sum(was) <= num <= |p| && NoDup(p[..num] + grant)
    ensures NumFirst(p, num, start, was, goal) <= |p|
    ensures forall x | x in Pool(p, start, was, goal, grant) ::
      x !in AfterFirst(p, num, start, was, goal)[..NumFirst(p, num, start, was, goal)]
  {
    hide Sum, KeptPart, FirstStorage, GivenUp, NoDup, LeftOver;
    FirstLeft(p, num, start, was, Nows(was, goal));
    ApartBags(p[..num], AfterFirst(p, num, start, was, goal)[..NumFirst(p, num, start, was, goal)],
              GivenUp(p, start, was, Nows(was, goal)), grant);
  }

  lemma ApartBags(f0: seq<Frame>, f1: seq<Frame>, spare: seq<Frame>, grant: seq<Frame>)
    requires LeftOver(f0, f1, spare) && NoDup(f0 + grant)
    ensures forall x | x in spare + grant :: x !in f1
  {
    forall x | x in spare + grant ensures x !in f1 {
      Once(f0 + grant, x);
      assert multiset(f0 + grant)[x] == multiset(f1)[x] + multiset(spare)[x] + multiset(grant)[x];
      assert multiset(spare + grant)[x] >= 1;
    }
  }

  lemma {:induction false} Once(s: seq<Frame>, x: Frame)
    requires NoDup(s)
    ensures multiset(s)[x] <= 1
  {
    if s != [] {
      var n := |s| - 1;
      Once(s[..n], x);
      assert s == s[..n] + [s[n]];
      if x == s[n] { assert x !in s[..n]; }
    }
  }

  // When all that is kept is counted, or nothing gets more, all is as it should be.
  lemma EndAligned(p: seq<Frame>, stale: nat -> Frame, num: nat, start: nat, was: seq<nat>, goal: seq<nat>,
                   cnt: seq<nat>)
    requires Call(p, num, start, was, goal, cnt) && (cnt == Nows(was, goal) || Nows(was, goal) == goal)
    ensures InPlace(p, stale, num, start, was, goal, cnt)
    ensures SameBag(EndFound(p, stale, num, start, was, goal, cnt), EndUnread(p, num, start, was, goal, cnt))
  {
    hide Sum, FirstStorage, Found, Unread;
    GrownNews(Nows(was, goal), goal, cnt);
    FoundHere(AfterFirst(p, num, start, was, goal), stale, NumFirst(p, num, start, was, goal), Nows(was, goal), goal,
              cnt);
  }

  lemma FoundHere(p: seq<Frame>, stale: nat -> Frame, num: nat, now: seq<nat>, goal: seq<nat>, cnt: seq<nat>)
    requires Counting(now, goal, cnt) && Sum(now) <= num <= |p| && Sum(cnt) <= Sum(now)
    requires Sum(cnt) == Sum(now) || Sum(goal) == Sum(now)
    ensures Found(p, stale, num, now, goal, cnt) == Unread(p, num, now, cnt)
  {
    hide Sum, Counting;
    GrownNews(now, goal, cnt);
  }

  // Only the first frames of the pool are used.
  lemma SamePool(p: seq<Frame>, stale: nat -> Frame, num: nat, start: nat, now: seq<nat>, goal: seq<nat>, cnt: seq<nat>,
                 pool: seq<Frame>, pool': seq<Frame>)
    requires Counting(now, goal, cnt) && start + Sum(now) <= num <= |p| && Sum(goal) - Sum(now) <= |pool| <= |pool'|
    requires pool == pool'[..|pool|]
    ensures Second(p, stale, num, start, now, goal, cnt, pool') == Second(p, stale, num, start, now, goal, cnt, pool)
  {
    hide Sum, News, Laid, Found, Grown;
    GrownNews(now, goal, cnt);
    SecondForm(p, stale, num, start, now, goal, cnt, pool);
    SecondForm(p, stale, num, start, now, goal, cnt, pool');
    var fin := Grown(cnt, now, goal);
    LaidSame(p, p, start, cnt, fin, pool, pool', News(cnt, fin));
  }

  // Where nothing gets more the record is as after the first pass.
  lemma NoneMore(p: seq<Frame>, stale: nat -> Frame, num: nat, start: nat, now: seq<nat>, cnt: seq<nat>,
                 pool: seq<Frame>)
    requires Counting(now, now, cnt) && start + Sum(now) <= num <= |p|
    ensures Second(p, stale, num, start, now, now, cnt, pool) == p[..num]
  {
    hide Sum, News, Laid, Grown;
    var fin, d := Grown(cnt, now, now), Sum(now) - Sum(cnt);
    SecondForm(p, stale, num, start, now, now, cnt, pool);
    FoundHere(p, stale, num, now, now, cnt);
    NothingGrown(cnt, now);
    LaidTail(p, start, cnt, fin, pool, News(cnt, fin), 0);
    assert cnt[..0] == [];
    NoneLaid(p, start, pool, News(cnt, fin));
    AllParts(p, start, start + Sum(cnt), num - d, num);
  }

  lemma NothingGrown(cnt: seq<nat>, now: seq<nat>)
    requires |cnt| == |now|
    ensures Grown(cnt, now, now) == cnt
  {}

  lemma NoneLaid(p: seq<Frame>, start: nat, pool: seq<Frame>, left: nat)
    requires start <= |p| && left <= |pool|
    ensures Sum([]) == 0 && News([], []) == 0
    ensures Laid(p, start, [], [], pool, left) == []
  {}

  lemma AllParts(p: seq<Frame>, a: nat, b: nat, c: nat, d: nat)
    requires a <= b <= c <= d <= |p|
    ensures p[..a] + ([] + p[a..b]) + p[b..c] + p[c..d] == p[..d]
  {}

  // Where too few frames come, the record is as after the first pass, each run with the first frames it had; the spare
  // frames and those that came are lost.
  lemma TooFew(p: seq<Frame>, num: nat, start: nat, was: seq<nat>, goal: seq<nat>, grant: seq<Frame>)
    requires |was| == |goal| && start + Sum(was) <= num <= |p|
    ensures NumFirst(p, num, start, was, goal) <= |p|
    ensures Conserved(p[..num], AfterFirst(p, num, start, was, goal)[..NumFirst(p, num, start, was, goal)],
                      Pool(p, start, was, goal, grant), grant)
    ensures Spliced(p[..num], AfterFirst(p, num, start, was, goal)[..NumFirst(p, num, start, was, goal)], start, was,
                    Nows(was, goal))
  {
    hide Sum, FirstStorage, GivenUp, KeptPart, LeftOver, Conserved, Spliced;
    var now, f1 := Nows(was, goal), AfterFirst(p, num, start, was, goal)[..NumFirst(p, num, start, was, goal)];
    FirstLeft(p, num, start, was, now);
    Nothing(p[..num], f1, GivenUp(p, start, was, now), grant);
    KeptSpliced(p, num, start, was, now, f1);
  }

  lemma KeptSpliced(p: seq<Frame>, num: nat, start: nat, was: seq<nat>, now: seq<nat>, f1: seq<Frame>)
    requires |was| == |now| && start + Sum(was) <= num <= |p| && forall j | 0 <= j < |was| :: now[j] <= was[j]
    requires f1 == p[..start] + KeptPart(p, start, was, now) + p[start + Sum(was)..num]
    ensures Spliced(p[..num], f1, start, was, now)
  {
    hide Sum, KeptPart, Runs, SameBehind;
    KeptRuns(p, num, start, was, now);
    KeptParts(p, num, start, start + Sum(was), KeptPart(p, start, was, now), f1);
  }

  lemma Nothing(f0: seq<Frame>, f1: seq<Frame>, spare: seq<Frame>, grant: seq<Frame>)
    requires LeftOver(f0, f1, spare)
    ensures Conserved(f0, f1, spare + grant, grant)
  {}

  // What the call leaves on record. Each frame is kept once or freed once and each new one inserted once, exactly if
  // the frames not read are the last on record; and where none occurs twice all are in their places exactly if
  // `InPlace` holds.
  ghost predicate Recorded(p: seq<Frame>, f2: seq<Frame>, stale: nat -> Frame, num: nat, start: nat, was: seq<nat>,
                           goal: seq<nat>, cnt: seq<nat>, grant: seq<Frame>, freed: seq<Frame>)
  {
    && Call(p, num, start, was, goal, cnt) && Sum(goal) <= Sum(was) + |grant|
    && f2 == EndRecord(p, stale, num, start, was, goal, cnt, grant) && freed == EndFreed(p, start, was, goal)
    && (Conserved(p[..num], f2, freed, grant[..Excess(Sum(goal), Sum(was))])
        <==> SameBag(EndFound(p, stale, num, start, was, goal, cnt), EndUnread(p, num, start, was, goal, cnt)))
    && (InPlace(p, stale, num, start, was, goal, cnt) ==> Spliced(p[..num], f2, start, was, goal))
    && (NoDup(p[..num] + grant) && Spliced(p[..num], f2, start, was, goal) ==>
         InPlace(p, stale, num, start, was, goal, cnt))
  }

  lemma EndRecorded(p: seq<Frame>, stale: nat -> Frame, num: nat, start: nat, was: seq<nat>, goal: seq<nat>,
                    cnt: seq<nat>, grant: seq<Frame>)
    requires Call(p, num, start, was, goal, cnt) && Sum(goal) <= Sum(was) + |grant|
    ensures Recorded(p, EndRecord(p, stale, num, start, was, goal, cnt, grant), stale, num, start, was, goal, cnt,
      grant,
                     EndFreed(p, start, was, goal))
  {
    hide Sum, Call, EndRecord, EndFreed, Conserved, Spliced, InPlace, SameBag, EndFound, EndUnread;
    EndConserved(p, stale, num, start, was, goal, cnt, grant);
    EndSpliced(p, stale, num, start, was, goal, cnt, grant);
  }

  lemma CallFacts(p: seq<Frame>, num: nat, start: nat, was: seq<nat>, goal: seq<nat>, cnt: seq<nat>, grant: seq<Frame>)
    requires Call(p, num, start, was, goal, cnt)
    ensures |was| == |goal| && start + Sum(was) <= num <= |p| && Counting(Nows(was, goal), goal, cnt)
    ensures var spare, more := GivenUp(p, start, was, Nows(was, goal)), Sum(goal) - Sum(Nows(was, goal));
      && |spare| + Sum(Nows(was, goal)) == Sum(was) && Pool(p, start, was, goal, grant) == spare + grant && more >= 0
      && EndFreed(p, start, was, goal) == spare[Least(more, |spare|)..]
    ensures NumFirst(p, num, start, was, goal) + Sum(was) == num + Sum(Nows(was, goal))
      && NumFirst(p, num, start, was, goal) <= |p|
  {
    hide Sum, GivenUp, Counting, Nows;
    KeptBag(p, start, was, Nows(was, goal));
    GrownNews(Nows(was, goal), goal, cnt);
  }

  // Pages kept and those to come are equally many only if every run keeps all it is to have.
  lemma NowsEqual(was: seq<nat>, goal: seq<nat>)
    requires |was| == |goal| && Sum(Nows(was, goal)) == Sum(goal)
    ensures Nows(was, goal) == goal
  {
    hide Sum;
    EqualSums(Nows(was, goal), goal);
  }

  // The record after the second pass, when it took its frames from as many of the pool as it needs.
  lemma EndSame(p: seq<Frame>, stale: nat -> Frame, num: nat, start: nat, was: seq<nat>, goal: seq<nat>, cnt: seq<nat>,
                grant: seq<Frame>, pool: seq<Frame>)
    requires Call(p, num, start, was, goal, cnt) && Sum(goal) <= Sum(was) + |grant|
    requires |pool| <= |Pool(p, start, was, goal, grant)| && pool == Pool(p, start, was, goal, grant)[..|pool|]
    requires Sum(goal) - Sum(Nows(was, goal)) <= |pool|
    ensures Second(AfterFirst(p, num, start, was, goal), stale, NumFirst(p, num, start, was, goal), start,
                   Nows(was, goal), goal, cnt, pool)
      == EndRecord(p, stale, num, start, was, goal, cnt, grant)
  {
    hide Sum, AfterFirst, NumFirst, Pool, Second, Counting;
    SamePool(AfterFirst(p, num, start, was, goal), stale, NumFirst(p, num, start, was, goal), start, Nows(was, goal),
             goal,
             cnt, pool, Pool(p, start, was, goal, grant));
  }

  lemma EndNone(p: seq<Frame>, stale: nat -> Frame, num: nat, start: nat, was: seq<nat>, goal: seq<nat>, cnt: seq<nat>,
                grant: seq<Frame>)
    requires Call(p, num, start, was, goal, cnt) && Nows(was, goal) == goal && Sum(goal) <= Sum(was) + |grant|
    ensures AfterFirst(p, num, start, was, goal)[..NumFirst(p, num, start, was, goal)]
      == EndRecord(p, stale, num, start, was, goal, cnt, grant)
  {
    hide Sum, AfterFirst, NumFirst, Pool, Second, Counting;
    NoneMore(AfterFirst(p, num, start, was, goal), stale, NumFirst(p, num, start, was, goal), start, Nows(was, goal),
             cnt,
             Pool(p, start, was, goal, grant));
  }

  // Where no frame occurs twice, no more frames are asked for than are spare, and those not read are behind the runs.
  lemma DistinctEnd(p: seq<Frame>, stale: nat -> Frame, num: nat, start: nat, was: seq<nat>, goal: seq<nat>,
                    cnt: seq<nat>)
    requires Call(p, num, start, was, goal, cnt) && NoDup(p[..num]) && Sum(goal) <= Sum(was)
    requires Short(was, goal, cnt) <= num - start - Sum(was)
    ensures var d, more, spare := Short(was, goal, cnt), Sum(goal) - Sum(Nows(was, goal)),
      Sum(was) - Sum(Nows(was, goal));
      && (EndFound(p, stale, num, start, was, goal, cnt) == EndUnread(p, num, start, was, goal, cnt)
          <==> d == 0 || more == 0 || (more >= d && more == spare))
      && (SameBag(EndFound(p, stale, num, start, was, goal, cnt), EndUnread(p, num, start, was, goal, cnt))
          <==> d == 0 || more == 0 || (more >= d && more == spare) || (more < d && spare == d))
  {
    hide Sum, FirstStorage, GivenUp, KeptPart, LeftOver, NoDup, SameBag, AfterFirst, NumFirst, Found, Counting;
    var now, num1, d := Nows(was, goal), NumFirst(p, num, start, was, goal), Short(was, goal, cnt);
    var p1, more := AfterFirst(p, num, start, was, goal), Sum(goal) - Sum(now);
    GrownNews(now, goal, cnt);
    FirstParts(p, num, start, was, goal);
    FoundAt(p1, stale, num1, now, goal, cnt);
    DistinctParts(p, p1, num, num1, start, start + Sum(was), KeptPart(p, start, was, now), d, more,
                  EndFound(p, stale, num, start, was, goal, cnt));
  }

  lemma FirstParts(p: seq<Frame>, num: nat, start: nat, was: seq<nat>, goal: seq<nat>)
    requires |was| == |goal| && start + Sum(was) <= num <= |p|
    ensures var p1, num1 := AfterFirst(p, num, start, was, goal), NumFirst(p, num, start, was, goal);
      && num1 <= num && p1[num1..] == p[num1..]
      && p1[..num1] == p[..start] + KeptPart(p, start, was, Nows(was, goal)) + p[start + Sum(was)..num]
  {
    hide Sum, FirstStorage, GivenUp, KeptPart, LeftOver;
    FirstLeft(p, num, start, was, Nows(was, goal));
  }

  lemma FoundAt(p: seq<Frame>, stale: nat -> Frame, num: nat, now: seq<nat>, goal: seq<nat>, cnt: seq<nat>)
    requires Counting(now, goal, cnt) && Sum(now) <= num && num + Sum(goal) <= |p| + Sum(now)
    ensures Sum(cnt) <= Sum(now) <= Sum(goal)
    ensures var d, found := Sum(now) - Sum(cnt), Found(p, stale, num, now, goal, cnt);
      |found| == d && forall i | 0 <= i < d :: found[i] == p[num - d + (Sum(goal) - Sum(now)) + i]
  {
    hide Sum, Counting;
    GrownNews(now, goal, cnt);
  }

  lemma DistinctParts(p: seq<Frame>, p1: seq<Frame>, num: nat, num1: nat, start: nat, end: nat, kept: seq<Frame>,
                      d: nat,
                      more: nat, found: seq<Frame>)
    requires start <= end && end + d <= num <= |p| == |p1| && num1 + more <= num && d <= num1 <= num
    requires p1[..num1] == p[..start] + kept + p[end..num] && p1[num1..] == p[num1..] && NoDup(p[..num])
    requires |found| == d && forall i | 0 <= i < d :: found[i] == p1[num1 - d + more + i]
    ensures found == p1[num1 - d..num1] <==> d == 0 || more == 0 || (more >= d && num1 + more == num)
    ensures SameBag(found, p1[num1 - d..num1])
      <==> d == 0 || more == 0 || (more >= d && num1 + more == num) || (more < d && num1 + d == num)
  {
    hide NoDup, SameBag;
    EndParts(p, p1, num, num1, start, end, kept, d, more, found);
    if more >= d { Shifted(p, num, num1, d, more, found); } else { Rotated(p, num, num1, d, more, found); }
  }

  // The last frames after the second pass, in terms of the record before the first.
  lemma EndParts(p: seq<Frame>, p1: seq<Frame>, num: nat, num1: nat, start: nat, end: nat, kept: seq<Frame>, d: nat,
                 more: nat, found: seq<Frame>)
    requires start <= end && end + d <= num <= |p| == |p1| && num1 + more <= num && d <= num1 <= num
    requires p1[..num1] == p[..start] + kept + p[end..num] && p1[num1..] == p[num1..]
    requires |found| == d && forall i | 0 <= i < d :: found[i] == p1[num1 - d + more + i]
    ensures p1[num1 - d..num1] == p[num - d..num]
    ensures found == if more >= d then p[num1 + more - d..num1 + more]
      else p[num - d + more..num] + p[num1..num1 + more]
  {
    BackOf(p1, num1, p, start, end, num, kept, d);
    forall i | num1 <= i < |p| ensures p1[i] == p[i] { assert p1[num1..][i - num1] == p[num1..][i - num1]; }
    if more < d {
      BackOf(p1, num1, p, start, end, num, kept, d - more);
      forall i | 0 <= i < d - more ensures found[i] == p[num - d + more..num][i] {
        assert found[i] == p1[num1 - (d - more)..num1][i];
      }
    }
  }

  lemma BackOf(p1: seq<Frame>, num1: nat, p: seq<Frame>, start: nat, end: nat, num: nat, kept: seq<Frame>, d: nat)
    requires start <= end && end + d <= num <= |p| && d <= num1 <= |p1| && p1[..num1] == p[..start] + kept + p[end..num]
    ensures p1[num1 - d..num1] == p[num - d..num]
  {
    assert p1[num1 - d..num1] == p1[..num1][num1 - d..];
    assert p[num - d..num] == p[end..num][num - d - end..];
  }

  lemma DistinctSlices(f: seq<Frame>, x: nat, y: nat, n: nat)
    requires NoDup(f) && x + n <= |f| && y + n <= |f|
    ensures SameBag(f[x..x + n], f[y..y + n]) <==> n == 0 || x == y
    ensures f[x..x + n] == f[y..y + n] <==> n == 0 || x == y
  {
    hide NoDup;
    if n > 0 && x != y {
      if x < y { OtherSlice(f, x, y, n); } else { OtherSlice(f, y, x, n); }
    }
  }

  lemma OtherSlice(f: seq<Frame>, x: nat, y: nat, n: nat)
    requires NoDup(f) && x < y && y + n <= |f| && n > 0
    ensures !SameBag(f[x..x + n], f[y..y + n])
  {
    var g := f[y..y + n];
    assert forall i | 0 <= i < n :: g[i] == f[y + i];
    NotSame(f[x..x + n], f[y..y + n], 0);
  }

  lemma NotSame(a: seq<Frame>, b: seq<Frame>, i: nat)
    requires i < |a| && a[i] !in b
    ensures !SameBag(a, b)
  {
    assert a[i] in multiset(a) && a[i] !in multiset(b);
  }

  lemma Shifted(p: seq<Frame>, num: nat, num1: nat, d: nat, more: nat, found: seq<Frame>)
    requires num <= |p| && NoDup(p[..num]) && d <= more && num1 + more <= num
      && found == p[num1 + more - d..num1 + more]
    ensures SameBag(found, p[num - d..num]) <==> d == 0 || num1 + more == num
    ensures found == p[num - d..num] <==> d == 0 || num1 + more == num
  {
    hide NoDup, SameBag;
    DistinctSlices(p[..num], num1 + more - d, num - d, d);
    SliceOf(p, 0, num, num1 + more - d, num1 + more);
    SliceOf(p, 0, num, num - d, num);
    assert p[0..num] == p[..num];
  }

  // The frames at the end are those that were there, cut at another place.
  lemma Rotated(p: seq<Frame>, num: nat, num1: nat, d: nat, more: nat, found: seq<Frame>)
    requires num <= |p| && NoDup(p[..num]) && more < d <= num && num1 + more <= num
    requires found == p[num - d + more..num] + p[num1..num1 + more]
    ensures SameBag(found, p[num - d..num]) <==> more == 0 || num1 == num - d
    ensures found == p[num - d..num] <==> more == 0
  {
    hide NoDup, SameBag;
    var a, b, c := p[num - d + more..num], p[num1..num1 + more], p[num - d..num - d + more];
    assert p[num - d..num] == c + a;
    DistinctSlices(p[..num], num1, num - d, more);
    SliceOf(p, 0, num, num1, num1 + more);
    SliceOf(p, 0, num, num - d, num - d + more);
    assert p[0..num] == p[..num];
    SwapBags(a, b, c);
    if more > 0 {
      TwoPlaces(p[..num], num - d, num - d + more);
      assert found[0] == p[num - d + more] && p[num - d..num][0] == p[num - d];
    }
  }

  lemma TwoPlaces(f: seq<Frame>, i: nat, j: nat)
    requires NoDup(f) && i < j < |f|
    ensures f[i] != f[j]
  {}

  lemma SwapBags(a: seq<Frame>, b: seq<Frame>, c: seq<Frame>)
    ensures SameBag(a + b, c + a) <==> SameBag(b, c)
  {
    if SameBag(a + b, c + a) {
      forall x ensures multiset(b)[x] == multiset(c)[x] { assert multiset(a + b)[x] == multiset(c + a)[x]; }
    }
  }
}
