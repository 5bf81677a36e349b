// A call that resizes two of three containers, of which the first keeps two pages and counts one (vcmalloc.h,
// ContainerRealloc2).
module Misread {
  import opened Base
  import opened Frames
  import opened Containers
  import opened FrameRuns
  import opened Layout
  import opened Passes

  // Elements of 60 bytes: 205, 100 and 100.
  ghost predicate Three(cs: seq<Container>) {
    cs == [Container(0, 60, 205), Container(12300, 60, 100), Container(18300, 60, 100)]
  }

  // The frames on record are 1, 2, 5 and 6 of the first, 3 of the second and 4 of the third. The first is to shrink to
  // 68 elements, for which it keeps two pages and counts one; the second is to grow to 120, for which it gets one more.
  // The second pass reads one frame for each, so that it takes frame 2 for that of the second. Frame 4 is lost, frame 3
  // is there twice.
  lemma FrameLost(cs: seq<Container>, stale: nat -> Frame)
    requires Three(cs)
    ensures Packed(cs, 0) && PagesBefore(cs, 3, 4096) == 6 && RunOf(cs, [68, 120], 0, 60)
    ensures Asked(cs, [68, 120], 0, 4096, [4, 1], [2, 2])
    ensures CountsLeft(cs, [68, 120], 0, 4096, [4, 1], [2, 2]) == [1, 1]
    ensures Call([1, 2, 5, 6, 3, 4], 6, 0, [4, 1], [2, 2], [1, 1]) && Sum([2, 2]) <= Sum([4, 1]) + 0
    ensures EndRecord([1, 2, 5, 6, 3, 4], stale, 6, 0, [4, 1], [2, 2], [1, 1], []) == [1, 2, 5, 3, 3]
    ensures EndFreed([1, 2, 5, 6, 3, 4], 0, [4, 1], [2, 2]) == [6]
    ensures !Conserved([1, 2, 5, 6, 3, 4], [1, 2, 5, 3, 3], [6], [])
  {
    hide Asked, RunOf, Packed, PagesBefore, CountsLeft, Call, EndRecord, EndFreed, Conserved;
    Places(cs);
    Answers(cs, 120, 2);
    RecordOf(stale, 2);
    Missing([1, 2, 5, 6, 3, 4], [1, 2, 5, 3, 3], [6], [], 5);
  }

  // To grow to 188 it takes two more, just as many as are spare. All frames are on record, but that of the second
  // container is now behind the new ones.
  lemma FramesMixed(cs: seq<Container>, stale: nat -> Frame)
    requires Three(cs)
    ensures Packed(cs, 0) && PagesBefore(cs, 3, 4096) == 6 && RunOf(cs, [68, 188], 0, 60)
    ensures Asked(cs, [68, 188], 0, 4096, [4, 1], [2, 3])
    ensures CountsLeft(cs, [68, 188], 0, 4096, [4, 1], [2, 3]) == [1, 1]
    ensures Call([1, 2, 5, 6, 3, 4], 6, 0, [4, 1], [2, 3], [1, 1]) && Sum([2, 3]) <= Sum([4, 1]) + 0
    ensures EndRecord([1, 2, 5, 6, 3, 4], stale, 6, 0, [4, 1], [2, 3], [1, 1], []) == [1, 2, 5, 6, 3, 4]
    ensures EndFreed([1, 2, 5, 6, 3, 4], 0, [4, 1], [2, 3]) == []
    ensures !Spliced([1, 2, 5, 6, 3, 4], [1, 2, 5, 6, 3, 4], 0, [4, 1], [2, 3])
  {
    hide Asked, RunOf, Packed, PagesBefore, CountsLeft, Call, EndRecord, EndFreed, Spliced;
    Places(cs);
    Answers(cs, 188, 3);
    RecordOf(stale, 3);
    Elsewhere([1, 2, 5, 6, 3, 4]);
  }

  // ---- the containers

  lemma FirstFacts(a: Container)
    requires a == Container(0, 60, 205)
    ensures a.PageCount(4096) == 4 && Wanted(a, 68, 4096) == 2 && CountLeft(a, 68, 4096) == 1
  {
    hide Container.GuestBytes, Container.PriorFreeBytes, Container.PageCount, Container.MappingAddress,
         Container.NextMappingAddress;
    Edges(a, 4096);
    Edges(a.(elements := 68), 4096);
    assert Up(0, 4096) == 0 && Up(12300, 4096) == 16384 && Up(4080, 4096) == 4096;
    assert RequestedBytes(a, 68, 4096) == 8164 && BytesFor(a, 2, 4096) == 4108;
  }

  lemma SecondFacts(b: Container)
    requires b == Container(12300, 60, 100)
    ensures b.PageCount(4096) == 1 && Wanted(b, 120, 4096) == 2 && Wanted(b, 188, 4096) == 3
    ensures CountLeft(b, 120, 4096) == 1 && CountLeft(b, 188, 4096) == 1
  {
    hide Container.GuestBytes, Container.PriorFreeBytes, Container.PageCount, Container.MappingAddress,
         Container.NextMappingAddress;
    Edges(b, 4096);
    assert Up(12300, 4096) == 16384 && Up(18300, 4096) == 20480;
    assert RequestedBytes(b, 120, 4096) == 5296 && RequestedBytes(b, 188, 4096) == 9376;
  }

  lemma Places(cs: seq<Container>)
    requires Three(cs)
    ensures Packed(cs, 0) && PagesBefore(cs, 0, 4096) == 0 && PagesBefore(cs, 3, 4096) == 6
  {
    FirstFacts(cs[0]);
    SecondFacts(cs[1]);
    ThirdFacts(cs[2]);
    hide Container.PageCount;
    assert PagesBefore(cs, 1, 4096) == 4;
    assert PagesBefore(cs, 2, 4096) == 5;
  }

  lemma ThirdFacts(c: Container)
    requires c == Container(18300, 60, 100)
    ensures c.PageCount(4096) == 1
  {
    hide Container.GuestBytes, Container.PriorFreeBytes, Container.PageCount, Container.MappingAddress,
         Container.NextMappingAddress;
    Edges(c, 4096);
    assert Up(18300, 4096) == 20480 && Up(24300, 4096) == 24576;
  }

  lemma Answers(cs: seq<Container>, want: nat, g: nat)
    requires Three(cs) && (want, g) in {(120, 2), (188, 3)}
    ensures RunOf(cs, [68, want], 0, 60) && Asked(cs, [68, want], 0, 4096, [4, 1], [2, g])
    ensures CountsLeft(cs, [68, want], 0, 4096, [4, 1], [2, g]) == [1, 1]
  {
    FirstFacts(cs[0]);
    SecondFacts(cs[1]);
    hide Container.PageCount, Wanted, CountLeft;
    assert cs[0 + 0] == cs[0] && cs[0 + 1] == cs[1];
    assert forall j: nat | j < 2 :: AskedAt(cs[0 + j], [68, want][j], 4096, [4, 1][j], [2, g][j]);
  }

  // ---- the frames

  lemma OneSum(s: seq<nat>)
    requires |s| == 1
    ensures Sum(s) == s[0] && Sum([]) == 0
  {
    assert s[..0] == [];
  }

  lemma TwoSums(s: seq<nat>)
    requires |s| == 2
    ensures Sum(s[..1]) == s[0] && Sum(s) == s[0] + s[1]
  {
    OneSum(s[..1]);
  }

  lemma OneNews(was: seq<nat>, fin: seq<nat>)
    requires |was| == |fin| == 1
    ensures News(was, fin) == Excess(fin[0], was[0])
  {
    assert was[..0] == [] && fin[..0] == [];
  }

  lemma TwoNews(was: seq<nat>, fin: seq<nat>)
    requires |was| == |fin| == 2
    ensures News(was[..1], fin[..1]) == Excess(fin[0], was[0])
    ensures News(was, fin) == Excess(fin[0], was[0]) + Excess(fin[1], was[1])
  {
    OneNews(was[..1], fin[..1]);
  }

  lemma OneLaid(f: seq<Frame>, was: seq<nat>, fin: seq<nat>, pool: seq<Frame>, left: nat)
    requires |was| == |fin| == 1 && was[0] <= |f| && Excess(fin[0], was[0]) <= left <= |pool|
    ensures Sum(was) == was[0] && News(was, fin) == Excess(fin[0], was[0])
    ensures Laid(f, 0, was, fin, pool, left) == Piece(f, 0, was[0], fin[0], pool, left)
  {
    hide Piece;
    OneSum(was);
    OneNews(was, fin);
    NoneLaid(f, 0, pool, left);
    assert was[..0] == [] && fin[..0] == [];
  }

  lemma TwoLaid(f: seq<Frame>, was: seq<nat>, fin: seq<nat>, pool: seq<Frame>)
    requires |was| == |fin| == 2 && was[0] + was[1] <= |f|
    requires Excess(fin[0], was[0]) + Excess(fin[1], was[1]) <= |pool|
    ensures Sum(was) == was[0] + was[1] && News(was, fin) == Excess(fin[0], was[0]) + Excess(fin[1], was[1])
    ensures Laid(f, 0, was, fin, pool, News(was, fin)) == Piece(f, 0, was[0], fin[0], pool, News(was, fin))
      + Piece(f, was[0], was[1], fin[1], pool, Excess(fin[1], was[1]))
  {
    hide Piece, Sum, News;
    TwoSums(was);
    TwoNews(was, fin);
    OneLaid(f, was[..1], fin[..1], pool, News(was, fin));
  }

  lemma TwoGivenUp(f: seq<Frame>, was: seq<nat>, fin: seq<nat>)
    requires |was| == |fin| == 2 && was[0] + was[1] <= |f|
    ensures Sum(was) == was[0] + was[1]
    ensures GivenUp(f, 0, was, fin)
      == f[Least(was[0], fin[0])..was[0]] + f[was[0] + Least(was[1], fin[1])..was[0] + was[1]]
  {
    hide Sum, GivenUp;
    TwoSums(was);
    OneGivenUp(f, was[..1], fin[..1]);
    GivenUpNext(f, 0, was[..1], fin[..1], was[1], fin[1]);
    Ends(was);
    Ends(fin);
  }

  lemma Ends(s: seq<nat>)
    requires |s| == 2
    ensures s[..1] + [s[1]] == s
  {}

  lemma OneGivenUp(f: seq<Frame>, was: seq<nat>, fin: seq<nat>)
    requires |was| == |fin| == 1 && was[0] <= |f|
    ensures Sum(was) == was[0] && GivenUp(f, 0, was, fin) == f[Least(was[0], fin[0])..was[0]]
  {
    OneSum(was);
    assert was[..0] == [] && fin[..0] == [];
  }

  lemma KeptNow(g: nat)
    requires g >= 2
    ensures Nows([4, 1], [2, g]) == [2, 1] && Grown([1, 1], [2, 1], [2, g]) == [1, g]
    ensures Counting([2, 1], [2, g], [1, 1])
  {}

  lemma AfterRelease(g: nat)
    requires g >= 2
    ensures Sum([4, 1]) == 5 && Sum([2, 1]) == 3
    ensures AfterFirst([1, 2, 5, 6, 3, 4], 6, 0, [4, 1], [2, g]) == [1, 2, 3, 4, 3, 4]
    ensures NumFirst([1, 2, 5, 6, 3, 4], 6, 0, [4, 1], [2, g]) == 4
    ensures GivenUp([1, 2, 5, 6, 3, 4], 0, [4, 1], [2, 1]) == [5, 6]
  {
    hide Sum, News, Laid, GivenUp, Nows;
    var f := [1, 2, 5, 6, 3, 4];
    KeptNow(g);
    TwoSums([4, 1]);
    TwoSums([2, 1]);
    TwoLaid(f, [4, 1], [2, 1], []);
    TwoGivenUp(f, [4, 1], [2, 1]);
    assert Piece(f, 0, 4, 2, [], 0) == [1, 2] && Piece(f, 4, 1, 1, [], 0) == [3];
    assert KeptPart(f, 0, [4, 1], [2, 1]) == [1, 2, 3];
  }

  lemma RecordOf(stale: nat -> Frame, g: nat)
    requires g == 2 || g == 3
    ensures Call([1, 2, 5, 6, 3, 4], 6, 0, [4, 1], [2, g], [1, 1]) && Sum([2, g]) <= Sum([4, 1])
    ensures EndRecord([1, 2, 5, 6, 3, 4], stale, 6, 0, [4, 1], [2, g], [1, 1], [])
      == if g == 2 then [1, 2, 5, 3, 3] else [1, 2, 5, 6, 3, 4]
    ensures EndFreed([1, 2, 5, 6, 3, 4], 0, [4, 1], [2, g]) == if g == 2 then [6] else []
  {
    hide Sum, News, Laid, GivenUp, Nows, AfterFirst, NumFirst, Second, Counting;
    KeptNow(g);
    TwoSums([2, g]);
    TwoSums([1, 1]);
    AfterRelease(g);
    assert [5, 6] + [] == [5, 6];
    SecondOf(stale, g);
  }

  lemma SecondOf(stale: nat -> Frame, g: nat)
    requires g == 2 || g == 3
    ensures Counting([2, 1], [2, g], [1, 1]) && Sum([2, 1]) == 3 && Sum([2, g]) == 2 + g
    ensures Second([1, 2, 3, 4, 3, 4], stale, 4, 0, [2, 1], [2, g], [1, 1], [5, 6])
      == if g == 2 then [1, 2, 5, 3, 3] else [1, 2, 5, 6, 3, 4]
  {
    hide Sum, News, Laid, Grown, Counting, Piece, Found;
    var p := [1, 2, 3, 4, 3, 4];
    KeptNow(g);
    TwoSums([2, 1]);
    TwoSums([2, g]);
    TwoSums([1, 1]);
    TwoLaid(p, [1, 1], [1, g], [5, 6]);
    SecondForm(p, stale, 4, 0, [2, 1], [2, g], [1, 1], [5, 6]);
    TwoPieces(p, g);
    FoundAt(p, stale, 4, [2, 1], [2, g], [1, 1]);
    assert p[g + 2] == if g == 2 then 3 else 4;
  }

  lemma TwoPieces(p: seq<Frame>, g: nat)
    requires p == [1, 2, 3, 4, 3, 4] && (g == 2 || g == 3)
    ensures Piece(p, 0, 1, 1, [5, 6], g - 1) == [1]
    ensures Piece(p, 1, 1, g, [5, 6], g - 1) == if g == 2 then [2, 5] else [2, 5, 6]
  {
    assert p[0..1] == [1] && p[1..2] == [2];
  }

  lemma Missing(f0: seq<Frame>, f2: seq<Frame>, freed: seq<Frame>, granted: seq<Frame>, i: nat)
    requires i < |f0| && f0[i] !in f2 && f0[i] !in freed
    ensures !Conserved(f0, f2, freed, granted)
  {
    assert (multiset(f2) + multiset(freed))[f0[i]] == 0 < (multiset(f0) + multiset(granted))[f0[i]];
  }

  lemma Elsewhere(f: seq<Frame>)
    requires f == [1, 2, 5, 6, 3, 4]
    ensures !Spliced(f, f, 0, [4, 1], [2, 3])
  {
    hide Sum, Runs;
    TwoSums([4, 1]);
    TwoSums([2, 3]);
    var t := f[0..5];
    assert t[2..3][0] == 5 && f[4..5][0] == 3;
    if Spliced(f, f, 0, [4, 1], [2, 3]) { RunAt(f, 0, [4, 1], [2, 3], t, 1); }
  }
}
