// The two passes over the containers when several containers are resized at once (vcmalloc.h, ContainerRealloc2).
module Passes {
  import opened Base
  import opened Frames
  import opened Containers
  import opened FrameRuns
  import opened Layout

  // The containers of one type a call is about.
  ghost predicate RunOf(cs: seq<Container>, wants: seq<int>, k: nat, dataSize: nat) {
    && k + |wants| <= |cs| && dataSize > 0
    && forall j: nat | j < |wants| :: wants[j] >= -1 && cs[k + j].typeSize == dataSize
  }

  lemma RunInside(cs: seq<Container>, wants: seq<int>, k: nat, dataSize: nat)
    requires RunOf(cs, wants, k, dataSize)
    ensures k + |wants| <= |cs|
  {}

  // The pages each container had and is to have.
  ghost predicate AskedAt(c: Container, want: int, page: nat, was: nat, goal: nat) {
    page > 0 && want >= -1 && c.typeSize > 0 && was == c.PageCount(page) && goal == Wanted(c, want, page)
  }

  ghost predicate Asked(cs: seq<Container>, wants: seq<int>, k: nat, page: nat, was: seq<nat>, goal: seq<nat>) {
    && k + |was| <= |cs| && |was| == |goal| <= |wants|
    && forall j: nat | j < |was| :: AskedAt(cs[k + j], wants[j], page, was[j], goal[j])
  }

  // ---- the first pass

  // The pages taken out before the j-th container of the run.
  ghost function TakenBefore(was: seq<nat>, now: seq<nat>, j: nat): int
    requires j <= |was| == |now|
  {
    Sum(was[..j]) - Sum(now[..j])
  }

  ghost predicate ReleasedAt(cs0: seq<Container>, w0: seq<int>, cs: seq<Container>, w: seq<int>, k: nat, page: nat,
                             was: seq<nat>, now: seq<nat>, goal: seq<nat>, j: nat)
    requires j < |was| == |now| == |goal| <= |w0| == |w| && k + |w0| <= |cs0| == |cs|
  {
    && AskedAt(cs0[k + j], w0[j], page, was[j], goal[j]) && now[j] == Least(was[j], goal[j])
    && w[j] == LeftWant(cs0[k + j], w0[j], page)
    && cs[k + j] == ShiftBy(LeftOf(cs0[k + j], w0[j], page), 0 - TakenBefore(was, now, j), page)
  }

  // After the first |was| containers of the run.
  ghost predicate FirstPass(cs0: seq<Container>, w0: seq<int>, cs: seq<Container>, w: seq<int>, k: nat, page: nat,
                            was: seq<nat>, now: seq<nat>, goal: seq<nat>)
  {
    && |was| == |now| == |goal| <= |w0| == |w| && k + |w0| <= |cs0| == |cs|
    && (forall j: nat | j < |was| :: ReleasedAt(cs0, w0, cs, w, k, page, was, now, goal, j))
    && (forall m: nat | m < |cs| && (m < k || k + |was| <= m) :: cs[m] == cs0[m])
    && (forall j: nat | |was| <= j < |w| :: w[j] == w0[j])
  }

  lemma FirstFits(cs0: seq<Container>, w0: seq<int>, cs: seq<Container>, w: seq<int>, k: nat, page: nat,
                  was: seq<nat>, now: seq<nat>, goal: seq<nat>)
    requires FirstPass(cs0, w0, cs, w, k, page, was, now, goal)
    ensures |was| == |now| == |goal| <= |w0| == |w| && k + |w0| <= |cs0| == |cs|
    ensures forall j | 0 <= j < |was| :: now[j] == Least(was[j], goal[j])
  {
    forall j: nat | j < |was| ensures now[j] == Least(was[j], goal[j]) {
      assert ReleasedAt(cs0, w0, cs, w, k, page, was, now, goal, j);
    }
  }

  // The next container of the run is as it was.
  lemma Untouched(cs0: seq<Container>, w0: seq<int>, cs: seq<Container>, w: seq<int>, k: nat, page: nat,
                  was: seq<nat>, now: seq<nat>, goal: seq<nat>, dataSize: nat)
    requires FirstPass(cs0, w0, cs, w, k, page, was, now, goal) && |was| < |w0| && RunOf(cs0, w0, k, dataSize)
    ensures k + |was| < |cs| == |cs0| && |w| == |w0| && cs[k + |was|] == cs0[k + |was|] && w[|was|] == w0[|was|] >= -1
    ensures cs[k + |was|].typeSize == dataSize > 0
  {}

  lemma NextReleased(cs0: seq<Container>, w0: seq<int>, cs: seq<Container>, w: seq<int>, k: nat, page: nat,
                     was: seq<nat>, now: seq<nat>, goal: seq<nat>, count: nat, wanted: nat, c': Container)
    requires FirstPass(cs0, w0, cs, w, k, page, was, now, goal) && |was| < |w0|
    requires k + |was| < |cs| == |cs0| && AskedAt(cs0[k + |was|], w0[|was|], page, count, wanted)
    requires c' == ShiftBy(LeftOf(cs0[k + |was|], w0[|was|], page), 0 - (Sum(was) - Sum(now)), page)
    ensures FirstPass(cs0, w0, cs[k + |was| := c'], w[|was| := LeftWant(cs0[k + |was|], w0[|was|], page)], k, page,
                      was + [count], now + [Least(count, wanted)], goal + [wanted])
  {
    hide ReleasedAt;
    var want' := LeftWant(cs0[k + |was|], w0[|was|], page);
    var cs', w' := cs[k + |was| := c'], w[|was| := want'];
    var was', now', goal' := was + [count], now + [Least(count, wanted)], goal + [wanted];
    forall j: nat | j < |was'| ensures ReleasedAt(cs0, w0, cs', w', k, page, was', now', goal', j) {
      if j < |was| {
        StillReleased(cs0, w0, cs, w, k, page, was, now, goal, count, wanted, c', want', j);
      } else {
        LastReleased(cs0, w0, cs, w, k, page, was, now, goal, count, wanted, c', want');
      }
    }
  }

  lemma StillReleased(cs0: seq<Container>, w0: seq<int>, cs: seq<Container>, w: seq<int>, k: nat, page: nat,
                      was: seq<nat>, now: seq<nat>, goal: seq<nat>, count: nat, wanted: nat, c': Container, want': int,
                      j: nat)
    requires j < |was| == |now| == |goal| < |w0| == |w| && k + |w0| <= |cs0| == |cs|
    requires ReleasedAt(cs0, w0, cs, w, k, page, was, now, goal, j)
    ensures ReleasedAt(cs0, w0, cs[k + |was| := c'], w[|was| := want'], k, page, was + [count],
                       now + [Least(count, wanted)], goal + [wanted], j)
  {
    hide Sum, AskedAt, LeftOf, LeftWant;
    assert (was + [count])[..j] == was[..j] && (now + [Least(count, wanted)])[..j] == now[..j];
  }

  lemma LastReleased(cs0: seq<Container>, w0: seq<int>, cs: seq<Container>, w: seq<int>, k: nat, page: nat,
                     was: seq<nat>, now: seq<nat>, goal: seq<nat>, count: nat, wanted: nat, c': Container, want': int)
    requires |was| == |now| == |goal| < |w0| == |w| && k + |w0| <= |cs0| == |cs|
    requires AskedAt(cs0[k + |was|], w0[|was|], page, count, wanted)
    requires c' == ShiftBy(LeftOf(cs0[k + |was|], w0[|was|], page), 0 - (Sum(was) - Sum(now)), page)
    requires want' == LeftWant(cs0[k + |was|], w0[|was|], page)
    ensures ReleasedAt(cs0, w0, cs[k + |was| := c'], w[|was| := want'], k, page, was + [count],
                       now + [Least(count, wanted)], goal + [wanted], |was|)
  {
    hide Sum, LeftOf, LeftWant;
    assert (was + [count])[..|was|] == was && (now + [Least(count, wanted)])[..|was|] == now;
  }

  lemma Begin(cs0: seq<Container>, w0: seq<int>, k: nat, page: nat, pfns: seq<Frame>, start: nat, num: nat)
    requires page > 0 && k + |w0| <= |cs0| && start == PagesBefore(cs0, k, page)
      && PagesBefore(cs0, |cs0|, page) <= num <= |pfns|
    ensures FirstPass(cs0, w0, cs0, w0, k, page, [], [], []) && start <= num
    ensures Sum([]) == 0 && News([], []) == 0
    ensures Laid(pfns, start, [], [], [], 0) == [] && GivenUp(pfns, start, [], []) == []
  {
    BeforeGrows(cs0, k, |cs0|, page);
    assert News([], []) == 0;
  }

  lemma AskedNow(c: Container, want: int, page: nat)
    requires page > 0 && want >= -1 && c.typeSize > 0
    ensures AskedAt(c, want, page, c.PageCount(page), Wanted(c, want, page))
  {}

  lemma RoomFor(cs: seq<Container>, m: nat, page: nat)
    requires page > 0 && m < |cs|
    ensures PagesBefore(cs, m + 1, page) == PagesBefore(cs, m, page) + cs[m].PageCount(page)
    ensures PagesBefore(cs, m + 1, page) <= PagesBefore(cs, |cs|, page)
  {
    BeforeGrows(cs, m + 1, |cs|, page);
  }

  lemma FirstAsked(cs0: seq<Container>, w0: seq<int>, cs: seq<Container>, w: seq<int>, k: nat, page: nat,
                   was: seq<nat>, now: seq<nat>, goal: seq<nat>)
    requires FirstPass(cs0, w0, cs, w, k, page, was, now, goal)
    ensures Asked(cs0, w0, k, page, was, goal) && now == Nows(was, goal)
  {
    hide AskedAt;
    forall j: nat | j < |was|
      ensures AskedAt(cs0[k + j], w0[j], page, was[j], goal[j]) && now[j] == Nows(was, goal)[j]
    {
      assert ReleasedAt(cs0, w0, cs, w, k, page, was, now, goal, j);
    }
  }

  // ---- the pages counted in between

  // Of each container of a run: the pages it counts after the first pass.
  ghost function CountsLeft(cs: seq<Container>, wants: seq<int>, k: nat, page: nat, was: seq<nat>, goal: seq<nat>)
    : (cnt: seq<nat>)
    requires Asked(cs, wants, k, page, was, goal)
    ensures |cnt| == |was|
  {
    seq<nat>(|was|, j requires 0 <= j < |was| =>
      assert AskedAt(cs[k + j], wants[j], page, was[j], goal[j]); CountLeft(cs[k + j], wants[j], page))
  }

  // They are at most those it keeps, and those themselves if it is to get more or can count them.
  lemma CountsShort(cs: seq<Container>, wants: seq<int>, k: nat, page: nat, was: seq<nat>, goal: seq<nat>)
    requires Asked(cs, wants, k, page, was, goal)
    ensures Counting(Nows(was, goal), goal, CountsLeft(cs, wants, k, page, was, goal))
    ensures forall j: nat | j < |was| ::
      CountsLeft(cs, wants, k, page, was, goal)[j] == Nows(was, goal)[j] <==> GrowsOrCan(cs[k + j], wants[j], page)
  {
    hide Container.PageCount, Wanted, CanCount, CountLeft;
    var cnt, now := CountsLeft(cs, wants, k, page, was, goal), Nows(was, goal);
    forall j: nat | j < |was|
      ensures cnt[j] <= now[j] <= goal[j] && (goal[j] > now[j] ==> cnt[j] == now[j])
      ensures cnt[j] == now[j] <==> GrowsOrCan(cs[k + j], wants[j], page)
    {
      assert AskedAt(cs[k + j], wants[j], page, was[j], goal[j]);
      LeftFacts(cs[k + j], wants[j], page);
    }
  }

  ghost predicate Grows(c: Container, want: int, page: nat) {
    page > 0 && want >= -1 && Wanted(c, want, page) > c.PageCount(page)
  }

  ghost predicate GrowsOrCan(c: Container, want: int, page: nat) { Grows(c, want, page) || CanCount(c, want, page) }

  // Of the containers a call is about: all count the pages they are to have; those do that lose any; none gets more.
  ghost predicate AllCan(cs: seq<Container>, wants: seq<int>, k: nat, page: nat) {
    k + |wants| <= |cs| && forall j: nat | j < |wants| :: CanCount(cs[k + j], wants[j], page)
  }

  ghost predicate ShrunkCan(cs: seq<Container>, wants: seq<int>, k: nat, page: nat) {
    k + |wants| <= |cs| && forall j: nat | j < |wants| :: GrowsOrCan(cs[k + j], wants[j], page)
  }

  ghost predicate NoneGrow(cs: seq<Container>, wants: seq<int>, k: nat, page: nat) {
    k + |wants| <= |cs| && forall j: nat | j < |wants| :: !Grows(cs[k + j], wants[j], page)
  }

  // The second pass has nothing to do, or finds the frames where it looks for them.
  ghost predicate Aligned(cs: seq<Container>, wants: seq<int>, k: nat, page: nat) {
    NoneGrow(cs, wants, k, page) || ShrunkCan(cs, wants, k, page)
  }

  lemma AlignedCounts(cs: seq<Container>, wants: seq<int>, k: nat, page: nat, was: seq<nat>, goal: seq<nat>)
    requires Asked(cs, wants, k, page, was, goal) && |was| == |wants|
    ensures ShrunkCan(cs, wants, k, page) <==> CountsLeft(cs, wants, k, page, was, goal) == Nows(was, goal)
    ensures NoneGrow(cs, wants, k, page) <==> Nows(was, goal) == goal
  {
    hide Container.PageCount, Wanted, GrowsOrCan, CountLeft;
    CountsShort(cs, wants, k, page, was, goal);
    var cnt, now := CountsLeft(cs, wants, k, page, was, goal), Nows(was, goal);
    forall j: nat | j < |was| ensures Grows(cs[k + j], wants[j], page) <==> now[j] != goal[j] {
      assert AskedAt(cs[k + j], wants[j], page, was[j], goal[j]);
    }
  }

  // The containers behind those resized, moved by whole pages.
  ghost predicate MovedRest(cs: seq<Container>, cs': seq<Container>, m: nat, n: int, page: nat) {
    && |cs'| == |cs| && (forall j: nat | j < m && j < |cs| :: cs'[j] == cs[j])
    && forall j: nat | m <= j < |cs| :: cs'[j] == ShiftBy(cs[j], n, page)
  }

  // All containers after the first pass.
  ghost predicate AllReleased(cs0: seq<Container>, w0: seq<int>, cs: seq<Container>, w: seq<int>, k: nat, page: nat,
                              was: seq<nat>, now: seq<nat>, goal: seq<nat>)
  {
    && |was| == |now| == |goal| == |w0| == |w| && k + |w0| <= |cs0| == |cs|
    && (forall j: nat | j < |was| :: ReleasedAt(cs0, w0, cs, w, k, page, was, now, goal, j))
    && (forall m: nat | m < k :: cs[m] == cs0[m])
    && (forall m: nat | k + |was| <= m < |cs| :: cs[m] == ShiftBy(cs0[m], 0 - (Sum(was) - Sum(now)), page))
  }

  lemma AllFits(cs0: seq<Container>, w0: seq<int>, cs: seq<Container>, w: seq<int>, k: nat, page: nat,
                was: seq<nat>, now: seq<nat>, goal: seq<nat>)
    requires AllReleased(cs0, w0, cs, w, k, page, was, now, goal)
    ensures |was| == |now| == |goal| == |w0| == |w| && k + |w0| <= |cs0| == |cs|
  {}

  lemma FirstDone(cs0: seq<Container>, w0: seq<int>, cs1: seq<Container>, cs: seq<Container>, w: seq<int>, k: nat,
                  page: nat, was: seq<nat>, now: seq<nat>, goal: seq<nat>)
    requires FirstPass(cs0, w0, cs1, w, k, page, was, now, goal) && |was| == |w0|
    requires MovedRest(cs1, cs, k + |w0|, 0 - (Sum(was) - Sum(now)), page)
    ensures AllReleased(cs0, w0, cs, w, k, page, was, now, goal)
  {
    hide Sum, AskedAt, ReleasedAt;
    forall j: nat | j < |was| ensures ReleasedAt(cs0, w0, cs, w, k, page, was, now, goal, j) {
      SameReleased(cs0, w0, cs1, cs, w, k, page, was, now, goal, j);
    }
  }

  lemma SameReleased(cs0: seq<Container>, w0: seq<int>, cs1: seq<Container>, cs: seq<Container>, w: seq<int>, k: nat,
                     page: nat, was: seq<nat>, now: seq<nat>, goal: seq<nat>, j: nat)
    requires j < |was| == |now| == |goal| <= |w0| == |w| && k + |w0| <= |cs0| == |cs1| == |cs|
    requires ReleasedAt(cs0, w0, cs1, w, k, page, was, now, goal, j) && cs[k + j] == cs1[k + j]
    ensures ReleasedAt(cs0, w0, cs, w, k, page, was, now, goal, j)
  {}

  lemma ReleasedAsked(cs0: seq<Container>, w0: seq<int>, cs: seq<Container>, w: seq<int>, k: nat, page: nat,
                      was: seq<nat>, now: seq<nat>, goal: seq<nat>)
    requires AllReleased(cs0, w0, cs, w, k, page, was, now, goal)
    ensures Asked(cs0, w0, k, page, was, goal) && now == Nows(was, goal)
  {
    hide AskedAt;
    forall j: nat | j < |was|
      ensures AskedAt(cs0[k + j], w0[j], page, was[j], goal[j]) && now[j] == Nows(was, goal)[j]
    {
      assert ReleasedAt(cs0, w0, cs, w, k, page, was, now, goal, j);
    }
  }

  // ---- the second pass

  // How far the j-th container of the run is moved in the end: for those that grow the second pass adds its shift, for
  // the others it subtracts it.
  ghost function EndShift(was: seq<nat>, goal: seq<nat>, j: nat): int
    requires j < |was| == |goal|
  {
    var now := Nows(was, goal);
    if goal[j] > was[j] then Sum(goal[..j]) - Sum(now[..j]) - TakenBefore(was, now, j)
    else 0 - (Sum(goal[..j]) - Sum(now[..j])) - TakenBefore(was, now, j)
  }

  ghost predicate GotAt(cs: seq<Container>, wants: seq<int>, cs': seq<Container>, k: nat, page: nat, was: seq<nat>,
                        goal: seq<nat>, j: nat)
    requires j < |was| == |goal| <= |wants| && k + |wants| <= |cs| == |cs'|
  {
    && AskedAt(cs[k + j], wants[j], page, was[j], goal[j])
    && cs'[k + j] == ShiftBy(Fitted(cs[k + j], wants[j], page), EndShift(was, goal, j), page)
  }

  // The second pass has come to i.
  ghost predicate SecondPass(cs0: seq<Container>, w0: seq<int>, cs1: seq<Container>, cs: seq<Container>, k: nat,
                             page: nat, was: seq<nat>, goal: seq<nat>, i: nat)
  {
    && i <= |was| == |goal| == |w0| && k + |w0| <= |cs0| == |cs1| == |cs|
    && (forall j: nat | j < i :: GotAt(cs0, w0, cs, k, page, was, goal, j))
    && (forall m: nat | m < |cs| && (m < k || k + i <= m) :: cs[m] == cs1[m])
  }

  // Every container has the elements its pages hold; the ones behind are moved along.
  ghost predicate Settled(cs: seq<Container>, wants: seq<int>, cs': seq<Container>, k: nat, page: nat, was: seq<nat>,
                          goal: seq<nat>)
  {
    && |was| == |goal| == |wants| && k + |wants| <= |cs| == |cs'|
    && (forall m: nat | m < k :: cs'[m] == cs[m])
    && (forall j: nat | j < |wants| :: GotAt(cs, wants, cs', k, page, was, goal, j))
    && (forall m: nat | k + |wants| <= m < |cs| :: cs'[m] == ShiftBy(cs[m], Sum(goal) - Sum(was), page))
  }

  lemma BeginSecond(cs0: seq<Container>, w0: seq<int>, cs1: seq<Container>, w: seq<int>, k: nat, page: nat,
                    was: seq<nat>, now: seq<nat>, goal: seq<nat>)
    requires AllReleased(cs0, w0, cs1, w, k, page, was, now, goal)
    ensures SecondPass(cs0, w0, cs1, cs1, k, page, was, goal, 0)
  {
    hide Sum;
  }

  // The container the second pass comes to is as the first left it.
  lemma Unseen(cs0: seq<Container>, w0: seq<int>, cs1: seq<Container>, w: seq<int>, cs: seq<Container>, k: nat,
               page: nat, was: seq<nat>, now: seq<nat>, goal: seq<nat>, i: nat, dataSize: nat)
    requires AllReleased(cs0, w0, cs1, w, k, page, was, now, goal) && i < |was| && RunOf(cs0, w0, k, dataSize)
    requires SecondPass(cs0, w0, cs1, cs, k, page, was, goal, i) && Asked(cs0, w0, k, page, was, goal)
    ensures k + i < |cs| && page > 0 && w[i] >= -1 && cs[k + i].typeSize == dataSize > 0
    ensures var cnt := CountsLeft(cs0, w0, k, page, was, goal);
      && cs[k + i].PageCount(page) == cnt[i]
      && Wanted(cs[k + i], w[i], page) == cnt[i] + Excess(goal[i], now[i])
  {
    hide Sum, Wanted, Container.PageCount, LeftOf, LeftWant, CanCount;
    assert ReleasedAt(cs0, w0, cs1, w, k, page, was, now, goal, i);
    var c, want := cs0[k + i], w0[i];
    assert c.typeSize == dataSize;
    LeftFacts(c, want, page);
    ShiftSame(LeftOf(c, want, page), 0 - TakenBefore(was, now, i), w[i], page);
  }

  lemma NextRegained(cs0: seq<Container>, w0: seq<int>, cs1: seq<Container>, w: seq<int>, cs: seq<Container>, k: nat,
                     page: nat, was: seq<nat>, now: seq<nat>, goal: seq<nat>, i: nat, add: nat, steps: nat)
    requires AllReleased(cs0, w0, cs1, w, k, page, was, now, goal) && i < |was| && now == Nows(was, goal)
    requires SecondPass(cs0, w0, cs1, cs, k, page, was, goal, i) && k + i < |cs| && page > 0 && w[i] >= -1
    requires cs[k + i].typeSize > 0 && add == Excess(goal[i], now[i]) && steps == Sum(goal[..i]) - Sum(now[..i])
    ensures var c' := ShiftBy(Fitted(cs[k + i], w[i], page), if add > 0 then steps else 0 - steps, page);
      SecondPass(cs0, w0, cs1, cs[k + i := c'], k, page, was, goal, i + 1)
  {
    hide Sum, AskedAt, Fitted, LeftOf, LeftWant;
    var c' := ShiftBy(Fitted(cs[k + i], w[i], page), if add > 0 then steps else 0 - steps, page);
    var cs' := cs[k + i := c'];
    assert ReleasedAt(cs0, w0, cs1, w, k, page, was, now, goal, i);
    Regained(cs0[k + i], w0[i], page, TakenBefore(was, now, i), was[i], goal[i], steps);
    forall j: nat | j < i + 1 ensures GotAt(cs0, w0, cs', k, page, was, goal, j) {
      if j < i { assert GotAt(cs0, w0, cs, k, page, was, goal, j); }
    }
  }

  lemma Regained(c: Container, want: int, page: nat, taken: int, was: nat, goal: nat, steps: nat)
    requires AskedAt(c, want, page, was, goal)
    ensures LeftOf(c, want, page).typeSize == c.typeSize > 0
    ensures var n := if goal > was then steps else 0 - steps;
      ShiftBy(Fitted(ShiftBy(LeftOf(c, want, page), 0 - taken, page), LeftWant(c, want, page), page), n, page)
      == ShiftBy(Fitted(c, want, page), n - taken, page)
  {
    hide Wanted, Container.PageCount, Fitted, LeftOf, LeftWant, CanCount;
    LeftFacts(c, want, page);
    FittedShift(LeftOf(c, want, page), 0 - taken, LeftWant(c, want, page), page);
    ShiftTwice(Fitted(c, want, page), 0 - taken, if goal > was then steps else 0 - steps, page);
  }

  lemma SecondDone(cs0: seq<Container>, w0: seq<int>, cs1: seq<Container>, w: seq<int>, cs2: seq<Container>,
                   cs: seq<Container>, k: nat, page: nat, was: seq<nat>, now: seq<nat>, goal: seq<nat>)
    requires AllReleased(cs0, w0, cs1, w, k, page, was, now, goal)
    requires SecondPass(cs0, w0, cs1, cs2, k, page, was, goal, |was|)
    requires MovedRest(cs2, cs, k + |w0|, Sum(goal) - Sum(now), page)
    ensures Settled(cs0, w0, cs, k, page, was, goal)
  {
    hide Sum, AskedAt, Fitted, EndShift;
    forall j: nat | j < |was| ensures GotAt(cs0, w0, cs, k, page, was, goal, j) {
      assert GotAt(cs0, w0, cs2, k, page, was, goal, j);
    }
    forall m: nat | k + |w0| <= m < |cs| ensures cs[m] == ShiftBy(cs0[m], Sum(goal) - Sum(was), page) {
      ShiftTwice(cs0[m], 0 - (Sum(was) - Sum(now)), Sum(goal) - Sum(now), page);
    }
  }

  // Nothing asked for beyond what there was: the first pass is all.
  lemma OnlyFirst(cs0: seq<Container>, w0: seq<int>, cs: seq<Container>, w: seq<int>, k: nat, page: nat,
                  was: seq<nat>, now: seq<nat>, goal: seq<nat>)
    requires AllReleased(cs0, w0, cs, w, k, page, was, now, goal) && now == goal == Nows(was, goal)
    ensures Settled(cs0, w0, cs, k, page, was, goal)
  {
    hide Sum, AskedAt;
    forall j: nat | j < |was| ensures GotAt(cs0, w0, cs, k, page, was, goal, j) {
      assert ReleasedAt(cs0, w0, cs, w, k, page, was, now, goal, j);
      NotGrown(cs0[k + j], w0[j], page, was[j], goal[j]);
    }
  }

  lemma NotGrown(c: Container, want: int, page: nat, was: nat, goal: nat)
    requires AskedAt(c, want, page, was, goal) && goal <= was
    ensures LeftOf(c, want, page) == Fitted(c, want, page)
  {
    hide Container.PageCount, Wanted;
  }

  // ---- the pages counted in the end

  // Sums of counts none of which is too large agree exactly if all do.
  lemma AllEqual(a: seq<nat>, b: seq<nat>)
    requires |a| == |b| && forall j | 0 <= j < |a| :: a[j] <= b[j]
    ensures Sum(a) <= Sum(b) && (Sum(a) == Sum(b) <==> a == b)
  {
    SumLess(a, b);
    if Sum(a) == Sum(b) { EqualSums(a, b); }
  }

  lemma WasCounts(cs: seq<Container>, wants: seq<int>, k: nat, page: nat, was: seq<nat>, goal: seq<nat>)
    requires Asked(cs, wants, k, page, was, goal) && page > 0
    ensures CountsOf(cs, k, was, page)
  {
    hide Wanted, Container.PageCount;
    forall j: nat | j < |was| ensures CountAt(cs, k, was, page, j) {
      assert AskedAt(cs[k + j], wants[j], page, was[j], goal[j]);
    }
  }

  // After the first pass the frames are counted exactly if the containers that lost pages count those they kept.
  lemma CountedFirst(cs0: seq<Container>, w0: seq<int>, cs: seq<Container>, w: seq<int>, k: nat, page: nat,
                     was: seq<nat>, now: seq<nat>, goal: seq<nat>)
    requires AllReleased(cs0, w0, cs, w, k, page, was, now, goal) && page > 0
    ensures PagesBefore(cs, |cs|, page) + Sum(was) <= PagesBefore(cs0, |cs0|, page) + Sum(now)
    ensures PagesBefore(cs, |cs|, page) + Sum(was) == PagesBefore(cs0, |cs0|, page) + Sum(now)
      <==> ShrunkCan(cs0, w0, k, page)
  {
    hide Sum, Container.PageCount, PagesBefore, ReleasedAt, CountLeft, ShrunkCan, Asked, Counting, CountsOf;
    ReleasedAsked(cs0, w0, cs, w, k, page, was, now, goal);
    var cnt := CountsLeft(cs0, w0, k, page, was, goal);
    WasCounts(cs0, w0, k, page, was, goal);
    CountsNow(cs0, w0, cs, w, k, page, was, now, goal);
    CountsChange(cs0, cs, k, was, cnt, page);
    CountsShort(cs0, w0, k, page, was, goal);
    CountsBelow(now, goal, cnt);
    AllEqual(cnt, now);
    AlignedCounts(cs0, w0, k, page, was, goal);
  }

  lemma CountsBelow(now: seq<nat>, goal: seq<nat>, cnt: seq<nat>)
    requires Counting(now, goal, cnt)
    ensures |cnt| == |now| && forall j | 0 <= j < |cnt| :: cnt[j] <= now[j]
  {}

  lemma CountsNow(cs0: seq<Container>, w0: seq<int>, cs: seq<Container>, w: seq<int>, k: nat, page: nat,
                  was: seq<nat>, now: seq<nat>, goal: seq<nat>)
    requires AllReleased(cs0, w0, cs, w, k, page, was, now, goal) && Asked(cs0, w0, k, page, was, goal) && page > 0
    ensures CountsOf(cs, k, CountsLeft(cs0, w0, k, page, was, goal), page)
    ensures forall m: nat | m < |cs| && (m < k || k + |was| <= m) :: cs[m].PageCount(page) == cs0[m].PageCount(page)
  {
    hide Sum, Container.PageCount, Wanted, LeftOf, LeftWant;
    var cnt := CountsLeft(cs0, w0, k, page, was, goal);
    forall j: nat | j < |cnt| ensures CountAt(cs, k, cnt, page, j) {
      assert ReleasedAt(cs0, w0, cs, w, k, page, was, now, goal, j);
      CountShift(LeftOf(cs0[k + j], w0[j], page), 0 - TakenBefore(was, now, j), page);
    }
    forall m: nat | k + |was| <= m < |cs| ensures cs[m].PageCount(page) == cs0[m].PageCount(page) {
      CountShift(cs0[m], 0 - (Sum(was) - Sum(now)), page);
    }
  }

  // In the end they are exactly if every container counts the pages it was given.
  lemma CountedEnd(cs: seq<Container>, wants: seq<int>, cs': seq<Container>, k: nat, page: nat, was: seq<nat>,
                   goal: seq<nat>)
    requires Settled(cs, wants, cs', k, page, was, goal) && Asked(cs, wants, k, page, was, goal) && page > 0
    ensures PagesBefore(cs', |cs'|, page) + Sum(was) <= PagesBefore(cs, |cs|, page) + Sum(goal)
    ensures PagesBefore(cs', |cs'|, page) + Sum(was) == PagesBefore(cs, |cs|, page) + Sum(goal)
      <==> AllCan(cs, wants, k, page)
  {
    hide Sum, Container.PageCount, PagesBefore, Asked, CountsOf, GotAt, CanCount;
    WasCounts(cs, wants, k, page, was, goal);
    var end := EndCounts(cs, wants, cs', k, page, was, goal);
    CountsChange(cs, cs', k, was, end, page);
    AllEqual(end, goal);
  }

  lemma EndCounts(cs: seq<Container>, wants: seq<int>, cs': seq<Container>, k: nat, page: nat, was: seq<nat>,
                  goal: seq<nat>) returns (end: seq<nat>)
    requires Settled(cs, wants, cs', k, page, was, goal) && page > 0
    ensures |end| == |goal| == |was| && CountsOf(cs', k, end, page)
    ensures forall j: nat | j < |end| ::
      end[j] <= goal[j] && (end[j] == goal[j] <==> CanCount(cs[k + j], wants[j], page))
    ensures forall m: nat | m < |cs| && (m < k || k + |was| <= m) :: cs'[m].PageCount(page) == cs[m].PageCount(page)
  {
    hide Sum, Container.PageCount, Wanted, Fitted, CanCount, EndShift;
    end := Counts(cs', k, |was|, page);
    CountsTo(cs', k, end, page);
    forall j: nat | j < |end|
      ensures end[j] <= goal[j] && (end[j] == goal[j] <==> CanCount(cs[k + j], wants[j], page))
    {
      assert GotAt(cs, wants, cs', k, page, was, goal, j);
      FitFacts(cs[k + j], wants[j], page);
      CountShift(Fitted(cs[k + j], wants[j], page), EndShift(was, goal, j), page);
    }
    forall m: nat | k + |was| <= m < |cs| ensures cs'[m].PageCount(page) == cs[m].PageCount(page) {
      CountShift(cs[m], Sum(goal) - Sum(was), page);
    }
  }

  lemma {:induction false} SumsLess(a: seq<nat>, b: seq<nat>, c: seq<nat>, d: seq<nat>)
    requires |a| == |b| == |c| == |d| && forall j | 0 <= j < |a| :: a[j] + b[j] <= c[j] + d[j]
    ensures Sum(a) + Sum(b) <= Sum(c) + Sum(d)
  {
    if a != [] {
      var n := |a| - 1;
      SumsLess(a[..n], b[..n], c[..n], d[..n]);
    }
  }

  // Pages kept and not counted in between are not counted in the end either.
  lemma ShortEnd(cs: seq<Container>, wants: seq<int>, cs': seq<Container>, k: nat, page: nat, was: seq<nat>,
                 goal: seq<nat>)
    requires Settled(cs, wants, cs', k, page, was, goal) && Asked(cs, wants, k, page, was, goal) && page > 0
    ensures PagesBefore(cs', |cs'|, page) + Sum(was) + Sum(Nows(was, goal))
      <= PagesBefore(cs, |cs|, page) + Sum(goal) + Sum(CountsLeft(cs, wants, k, page, was, goal))
  {
    hide Sum, Container.PageCount, PagesBefore, Asked, CountsOf, GotAt, CanCount, CountLeft, Nows, CountsLeft;
    WasCounts(cs, wants, k, page, was, goal);
    var end := EndCounts(cs, wants, cs', k, page, was, goal);
    CountsChange(cs, cs', k, was, end, page);
    var cnt, now := CountsLeft(cs, wants, k, page, was, goal), Nows(was, goal);
    forall j | 0 <= j < |end| ensures end[j] + now[j] <= goal[j] + cnt[j] {
      ShortAt(cs, wants, cs', k, page, was, goal, j);
      CountsTo(cs', k, end, page);
    }
    SumsLess(end, now, goal, cnt);
  }

  lemma ShortAt(cs: seq<Container>, wants: seq<int>, cs': seq<Container>, k: nat, page: nat, was: seq<nat>,
                goal: seq<nat>, j: nat)
    requires Settled(cs, wants, cs', k, page, was, goal) && Asked(cs, wants, k, page, was, goal) && page > 0
    requires j < |was|
    ensures cs'[k + j].PageCount(page) + Nows(was, goal)[j]
      <= goal[j] + CountsLeft(cs, wants, k, page, was, goal)[j]
  {
    hide Sum, Container.PageCount, Wanted, Fitted, CanCount, EndShift;
    assert GotAt(cs, wants, cs', k, page, was, goal, j);
    FitFacts(cs[k + j], wants[j], page);
    LeftFacts(cs[k + j], wants[j], page);
    CountShift(Fitted(cs[k + j], wants[j], page), EndShift(was, goal, j), page);
  }

  // What a call is to the frame record.
  lemma CallOf(cs: seq<Container>, wants: seq<int>, k: nat, page: nat, was: seq<nat>, goal: seq<nat>, p: seq<Frame>,
               num: nat)
    requires Asked(cs, wants, k, page, was, goal) && page > 0
    requires PagesBefore(cs, |cs|, page) <= num <= |p|
    ensures k <= |cs| && Call(p, num, PagesBefore(cs, k, page), was, goal, CountsLeft(cs, wants, k, page, was, goal))
  {
    hide Sum, PagesBefore, Container.PageCount, CountsOf, Counting;
    WasCounts(cs, wants, k, page, was, goal);
    CountsShort(cs, wants, k, page, was, goal);
    CountsFit(cs, k, was, page);
    RunEnd(cs, k, was, page);
    BeforeGrows(cs, k + |was|, |cs|, page);
  }

  // When no container grows, or those that shrink count what they keep, all frames are where they should be.
  lemma AlignedEnd(cs: seq<Container>, wants: seq<int>, k: nat, page: nat, was: seq<nat>, goal: seq<nat>, p: seq<Frame>,
                   stale: nat -> Frame, num: nat, start: nat, grant: seq<Frame>)
    requires Asked(cs, wants, k, page, was, goal) && |was| == |wants| && Aligned(cs, wants, k, page)
    requires Call(p, num, start, was, goal, CountsLeft(cs, wants, k, page, was, goal))
      && Sum(goal) <= Sum(was) + |grant|
    ensures var cnt := CountsLeft(cs, wants, k, page, was, goal);
      var f2 := EndRecord(p, stale, num, start, was, goal, cnt, grant);
      && Conserved(p[..num], f2, EndFreed(p, start, was, goal), grant[..Excess(Sum(goal), Sum(was))])
      && Spliced(p[..num], f2, start, was, goal)
  {
    hide Sum, Asked, CountsLeft, Call, NoneGrow, ShrunkCan, EndRecord, EndFreed, Conserved, Spliced, SameBag, InPlace,
         EndFound, EndUnread, Nows;
    AlignedCounts(cs, wants, k, page, was, goal);
    EndAligned(p, stale, num, start, was, goal, CountsLeft(cs, wants, k, page, was, goal));
    EndRecorded(p, stale, num, start, was, goal, CountsLeft(cs, wants, k, page, was, goal), grant);
  }

  // ---- where the containers are

  // The bytes behind the last element.
  ghost function Unfilled(c: Container, want: int, page: nat): int
    requires page > 0 && want >= -1 && c.typeSize > 0
  {
    if Wanted(c, want, page) == c.PageCount(page) then 0
    else BytesFor(c, Wanted(c, want, page), page) % c.typeSize
  }

  // The pages by which the j-th container comes to lie before its place: twice those added before it, unless it grows.
  ghost function Astray(was: seq<nat>, goal: seq<nat>, j: nat): int
    requires j <= |was| == |goal|
  {
    if j == |was| || goal[j] > was[j] then 0 else 2 * (Sum(goal[..j]) - Sum(Nows(was, goal)[..j]))
  }

  // The container behind the j-th starts where that ends: the bytes it leaves are the pages its neighbour is further
  // astray.
  ghost predicate Meets(cs: seq<Container>, wants: seq<int>, k: nat, page: nat, was: seq<nat>, goal: seq<nat>, j: nat)
    requires j < |was| == |goal| == |wants| && k + |wants| <= |cs|
  {
    && AskedAt(cs[k + j], wants[j], page, was[j], goal[j])
    && Unfilled(cs[k + j], wants[j], page) == (Astray(was, goal, j + 1) - Astray(was, goal, j)) * page
  }

  ghost predicate InLine(cs: seq<Container>, wants: seq<int>, k: nat, page: nat, was: seq<nat>, goal: seq<nat>) {
    && |was| == |goal| == |wants| && k + |wants| <= |cs|
    && forall j: nat | j < |wants| && k + j + 1 < |cs| :: Meets(cs, wants, k, page, was, goal, j)
  }

  lemma FittedSize(c: Container, want: int, page: nat)
    requires page > 0 && want >= -1 && c.typeSize > 0
    ensures Fitted(c, want, page).Size()
      == c.Size() + (Wanted(c, want, page) - c.PageCount(page)) * page - Unfilled(c, want, page)
  {
    hide Container.PageCount, RequestedPages, Wanted, BytesFor;
    var pages := Wanted(c, want, page);
    if pages != c.PageCount(page) {
      RoomWanted(c, want, page);
      ModMul(0, page);
      BytesChange(c, pages, 0, page);
      var n := BytesFor(c, pages, page);
      assert n == n / c.typeSize * c.typeSize + n % c.typeSize;
    }
  }

  lemma RoomWanted(c: Container, want: int, page: nat)
    requires page > 0 && want >= -1 && Wanted(c, want, page) != c.PageCount(page)
    ensures BytesFor(c, Wanted(c, want, page), page) >= 0
  {
    hide Container.PageCount, RequestedPages, BytesFor;
    EnoughPages(c, want, page);
  }

  // How far each container is moved.
  ghost function MovedBy(was: seq<nat>, goal: seq<nat>, k: nat, m: nat): int
    requires |was| == |goal|
  {
    if m < k then 0 else if m < k + |was| then EndShift(was, goal, m - k) else Sum(goal) - Sum(was)
  }

  // A container of the run, and the one behind it.
  lemma ShiftStep(was: seq<nat>, goal: seq<nat>, k: nat, j: nat)
    requires j < |was| == |goal|
    ensures MovedBy(was, goal, k, k + j + 1) - MovedBy(was, goal, k, k + j)
      == goal[j] - was[j] - (Astray(was, goal, j + 1) - Astray(was, goal, j))
  {
    hide Sum;
    SumUpTo(was, j);
    SumUpTo(goal, j);
    assert was[..|was|] == was && goal[..|was|] == goal;
  }

  lemma Next(c: Container, d: Container, n: int, m: int, page: nat, x: Container, y: Container)
    requires d.ref == c.NextAddress() && x.ref == c.ref + n * page && y.ref == d.ref + m * page
    ensures y.ref == x.NextAddress() <==> x.Size() == c.Size() + (m - n) * page
  {
    assert (m - n) * page == m * page - n * page;
  }

  // The containers stay end to end exactly if each one of the run that has one behind meets it.
  lemma PackedEnd(cs: seq<Container>, wants: seq<int>, cs': seq<Container>, k: nat, page: nat, was: seq<nat>,
                  goal: seq<nat>, base: int)
    requires Settled(cs, wants, cs', k, page, was, goal) && Packed(cs, base) && page > 0
    ensures Packed(cs', base) <==> InLine(cs, wants, k, page, was, goal)
  {
    hide Meets, PackedAt, GotAt, EndShift, Sum;
    forall m: nat | 0 < m < |cs|
      ensures PackedAt(cs', base, m) <==> k < m <= k + |wants| ==> Meets(cs, wants, k, page, was, goal, m - 1 - k)
    {
      PlaceAt(cs, wants, cs', k, page, was, goal, base, m);
    }
    if cs != [] { StartPlace(cs, wants, cs', k, page, was, goal, base); }
    if Packed(cs', base) {
      forall j: nat | j < |wants| && k + j + 1 < |cs| ensures Meets(cs, wants, k, page, was, goal, j) {
        assert PackedAt(cs', base, k + j + 1);
      }
    }
  }

  // Where elements are no larger than a page: the pages are whole elements, and both are equally far astray.
  lemma SmallElements(cs: seq<Container>, wants: seq<int>, k: nat, page: nat, was: seq<nat>, goal: seq<nat>, j: nat)
    requires j < |was| == |goal| == |wants| && k + |wants| <= |cs| && Asked(cs, wants, k, page, was, goal)
    requires cs[k + j].typeSize <= page
    ensures AskedAt(cs[k + j], wants[j], page, was[j], goal[j])
    ensures Meets(cs, wants, k, page, was, goal, j)
      <==> Unfilled(cs[k + j], wants[j], page) == 0 && Astray(was, goal, j + 1) == Astray(was, goal, j)
  {
    hide Astray, Wanted, Container.PageCount, BytesFor;
    assert AskedAt(cs[k + j], wants[j], page, was[j], goal[j]);
    if Meets(cs, wants, k, page, was, goal, j) { NoGap(Astray(was, goal, j + 1) - Astray(was, goal, j), page); }
  }

  lemma MovedTo(cs: seq<Container>, wants: seq<int>, cs': seq<Container>, k: nat, page: nat, was: seq<nat>,
                goal: seq<nat>, m: nat)
    requires Settled(cs, wants, cs', k, page, was, goal) && m < |cs|
    ensures cs'[m].ref == cs[m].ref + MovedBy(was, goal, k, m) * page && cs'[m].typeSize == cs[m].typeSize
    ensures k <= m < k + |wants| ==> AskedAt(cs[m], wants[m - k], page, was[m - k], goal[m - k])
    ensures k <= m < k + |wants| ==> cs'[m].Size() == Fitted(cs[m], wants[m - k], page).Size()
    ensures !(k <= m < k + |wants|) ==> cs'[m].Size() == cs[m].Size()
  {
    hide Sum, EndShift, Wanted, Container.PageCount, BytesFor;
    if k <= m < k + |wants| { assert GotAt(cs, wants, cs', k, page, was, goal, m - k); }
  }

  lemma StartPlace(cs: seq<Container>, wants: seq<int>, cs': seq<Container>, k: nat, page: nat, was: seq<nat>,
                   goal: seq<nat>, base: int)
    requires Settled(cs, wants, cs', k, page, was, goal) && Packed(cs, base) && cs != []
    ensures PackedAt(cs', base, 0)
  {
    hide Settled, EndShift;
    MovedTo(cs, wants, cs', k, page, was, goal, 0);
    assert PackedAt(cs, base, 0);
    SettledFits(cs, wants, cs', k, page, was, goal);
    StartShift(was, goal, k);
  }

  lemma SettledFits(cs: seq<Container>, wants: seq<int>, cs': seq<Container>, k: nat, page: nat, was: seq<nat>,
                    goal: seq<nat>)
    requires Settled(cs, wants, cs', k, page, was, goal)
    ensures |was| == |goal| == |wants| && k + |wants| <= |cs| == |cs'|
  {}

  lemma StartShift(was: seq<nat>, goal: seq<nat>, k: nat)
    requires |was| == |goal|
    ensures MovedBy(was, goal, k, 0) == 0
  {}

  lemma PlaceAt(cs: seq<Container>, wants: seq<int>, cs': seq<Container>, k: nat, page: nat, was: seq<nat>,
                goal: seq<nat>, base: int, m: nat)
    requires Settled(cs, wants, cs', k, page, was, goal) && Packed(cs, base) && page > 0 && 0 < m < |cs|
    ensures |was| == |goal| == |wants| && k + |wants| <= |cs| == |cs'|
    ensures PackedAt(cs', base, m) <==> k < m <= k + |wants| ==> Meets(cs, wants, k, page, was, goal, m - 1 - k)
  {
    hide Settled, MovedBy, Sum, Astray, Wanted, Container.PageCount, BytesFor, Fitted, Unfilled;
    SettledFits(cs, wants, cs', k, page, was, goal);
    MovedTo(cs, wants, cs', k, page, was, goal, m - 1);
    MovedTo(cs, wants, cs', k, page, was, goal, m);
    assert PackedAt(cs, base, m);
    Next(cs[m - 1], cs[m], MovedBy(was, goal, k, m - 1), MovedBy(was, goal, k, m), page, cs'[m - 1], cs'[m]);
    if k < m <= k + |wants| {
      var j: nat := m - 1 - k;
      FittedSize(cs[k + j], wants[j], page);
      ShiftStep(was, goal, k, j);
      Spread(goal[j], was[j], Astray(was, goal, j + 1) - Astray(was, goal, j), page);
    } else {
      Alike(was, goal, k, m);
    }
  }

  lemma Spread(a: int, b: int, c: int, page: nat)
    ensures (a - b - c) * page == (a - b) * page - c * page
  {}

  lemma Alike(was: seq<nat>, goal: seq<nat>, k: nat, m: nat)
    requires |was| == |goal| && m > 0 && !(k < m <= k + |was|)
    ensures MovedBy(was, goal, k, m) == MovedBy(was, goal, k, m - 1)
  {}
}
