// Ranges of blocks claimed and freed by many threads at once (arena.c, over bitmap.c).
module ArenaRuns {
  import opened Base
  import opened Words
  import opened Bitmap
  import opened BitmapShared
  import opened BitmapSharedInv
  import opened Arena

  // A range of blocks allocated and not yet freed, and the thread that has it.
  datatype Alloc = Alloc(r: Range, t: Tid)
  type Lives = set<Alloc>

  // The range that a step claims.
  ghost function ClaimedBy(s: State, t: Tid, a: Act): Option<Range>
    requires t in s.pcs
  {
    match s.pcs[t]
    case FieldCas(idx, count, b, word) =>
      if idx < |s.fields| && s.fields[idx] == word
        && !a.Spurious? then Some(Range(IndexCreate(idx, b), count)) else None
    case FinalCas(c, word) =>
      if c.last < |s.fields| && s.fields[c.last] == word then Some(Range(c.p, c.count)) else None
    case _ => None
  }

  // The range that an idle thread begins to free, or hands over.
  ghost function GivenBy(s: State, t: Tid, a: Act): Option<Range>
    requires t in s.pcs
  {
    if !s.pcs[t].Idle? then None else
      match a
      case StartUnclaim(bit, count) =>
        if 0 < count && bit + count <= |s.fields| * FIELD_BITS && Owns(s.own, bit, bit + count, Held(t))
        then Some(Range(bit, count)) else None
      case Pass(bit, count, u) =>
        if 0 < count && bit + count <= |s.fields| * FIELD_BITS && u in s.pcs && Owns(s.own, bit, bit + count, Held(t))
        then Some(Range(bit, count)) else None
      case _ => None
  }

  // What a holder keeps of a range when g is given away out of it: the blocks before g, and those after it.
  ghost predicate Before(r: Range, g: Range) { !Apart(r, g) && r.bit < g.bit }
  ghost predicate After(r: Range, g: Range) { !Apart(r, g) && r.bit + r.count > g.bit + g.count }

  ghost function Head(a: Alloc, g: Range): Alloc
    requires Before(a.r, g)
  {
    a.(r := Range(a.r.bit, g.bit - a.r.bit))
  }

  ghost function Tail(a: Alloc, g: Range): Alloc
    requires After(a.r, g)
  {
    a.(r := Range(g.bit + g.count, a.r.bit + a.r.count - (g.bit + g.count)))
  }

  ghost function Without(live: Lives, g: Range): Lives {
    (set a | a in live && Apart(a.r, g)) + (set a | a in live && Before(a.r, g) :: Head(a, g))
      + (set a | a in live && After(a.r, g) :: Tail(a, g))
  }

  // A claimed range is a new allocation; a range given away leaves its holder, and goes to the one it is handed to.
  ghost function NextLives(s: State, t: Tid, a: Act, live: Lives): Lives
    requires t in s.pcs
  {
    var claimed, given := ClaimedBy(s, t, a), GivenBy(s, t, a);
    if claimed.Some? then live + {Alloc(claimed.value, t)}
    else if given.Some? then Without(live, given.value) + if a.Pass? then {Alloc(given.value, a.to)} else {}
    else live
  }

  // ---- the invariant

  // What a thread that is freeing a range has not given back yet.
  ghost function Rest(pc: Pc): Range
    requires pc.UnclaimAnd?
  {
    var from: nat := if pc.bit > pc.field * FIELD_BITS then pc.bit else pc.field * FIELD_BITS;
    Range(from, if pc.bit + pc.count > from then pc.bit + pc.count - from else 0)
  }

  ghost predicate NotFreeing(pc: Pc, r: Range) { pc.UnclaimAnd? ==> Apart(r, Rest(pc)) }

  ghost predicate HeldWhole(own: Owners, n: nat, r: Range, t: Tid) {
    r.count > 0 && r.bit + r.count <= n && Owns(own, r.bit, r.bit + r.count, Held(t))
  }

  // Allocations are held by their owners, lie below block n, and overlap neither each other nor what is being freed.
  ghost predicate LivesOk(s: State, live: Lives, n: nat) {
    && (forall a | a in live :: HeldWhole(s.own, n, a.r, a.t))
    && (forall a, b | a in live && b in live && a != b :: Apart(a.r, b.r))
    && (forall t, a | t in s.pcs && a in live :: NotFreeing(s.pcs[t], a.r))
  }

  // The bits from n on do not belong to any block.
  ghost predicate LeftFrom(own: Owners, n: nat) {
    forall f: nat, k: nat {:trigger own[f][k]} | f < |own| && k < |own[f]| && n <= f * FIELD_BITS + k ::
      own[f][k] == Some(Leftover)
  }

  // ---- one bit in one step

  // What a step may take from a holder: the range given away, or the rest of the range being freed.
  ghost predicate Taking(s: State, t: Tid, a: Act, i: nat)
    requires t in s.pcs
  {
    var pc, given := s.pcs[t], GivenBy(s, t, a);
    if pc.UnclaimAnd? then Rest(pc).bit <= i < Rest(pc).bit + Rest(pc).count
    else a.Pass? && given.Some? && given.value.bit <= i < given.value.bit + given.value.count
  }

  lemma HeldStays(s: State, t: Tid, a: Act, f: nat, k: nat, u: Tid)
    requires Inv(s) && t in s.pcs && f < |s.own| && k < |s.own[f]| && s.own[f][k] == Some(Held(u))
    requires !Taking(s, t, a, f * FIELD_BITS + k)
    ensures |s.own| == |s.fields| && HeldAt(Step(s, t, a).own, f, k, u)
  {
    hide Inv, ClaimStep, BackStep, StartStep, PcOk, Tries;
    HeldFacts(s, t, f, k, u);
    var pc := s.pcs[t];
    if pc.Idle? { StartStays(s, t, a, f, k, u); }
    else if pc.MidStore? || pc.BackLoad? || pc.BackCas? || pc.UnclaimAnd? { BackStays(s, t, a, f, k, u); }
    else { ClaimStays(s, t, a.Spurious?, f, k, u); }
  }

  ghost predicate HeldAt(own: Owners, f: nat, k: nat, u: Tid) {
    f < |own| && k < |own[f]| && own[f][k] == Some(Held(u))
  }

  lemma HeldFacts(s: State, t: Tid, f: nat, k: nat, u: Tid)
    requires Inv(s) && t in s.pcs && HeldAt(s.own, f, k, u)
    ensures |s.own| == |s.fields| && |s.own[f]| == FIELD_BITS && s.fields[f][k]
    ensures PcOk(|s.fields|, s.own, t, s.pcs[t]) && !(Lo(s.pcs[t]) <= f * FIELD_BITS + k < Hi(s.pcs[t]))
  {
    ThreadFacts(s, t);
    assert s.own[f][k] != Some(Trying(t));
  }

  lemma StartStays(s: State, t: Tid, a: Act, f: nat, k: nat, u: Tid)
    requires t in s.pcs && s.pcs[t].Idle? && HeldAt(s.own, f, k, u) && !Taking(s, t, a, f * FIELD_BITS + k)
    ensures HeldAt(StartStep(s, t, a).own, f, k, u)
  {
    hide Owns;
  }

  lemma BackStays(s: State, t: Tid, a: Act, f: nat, k: nat, u: Tid)
    requires t in s.pcs && HeldAt(s.own, f, k, u) && |s.own| == |s.fields| && |s.own[f]| == FIELD_BITS
    requires PcOk(|s.fields|, s.own, t, s.pcs[t]) && !(Lo(s.pcs[t]) <= f * FIELD_BITS + k < Hi(s.pcs[t]))
    requires !s.pcs[t].Idle? && !Taking(s, t, a, f * FIELD_BITS + k)
    ensures HeldAt(BackStep(s, t).own, f, k, u)
  {
    hide Owns;
    match s.pcs[t]
    case BackCas(c, _) => ClaimParts(|s.fields|, c);
    case _ =>
  }

  lemma ClaimStays(s: State, t: Tid, fails: bool, f: nat, k: nat, u: Tid)
    requires t in s.pcs && HeldAt(s.own, f, k, u) && |s.own| == |s.fields| && |s.own[f]| == FIELD_BITS && s.fields[f][k]
    requires PcOk(|s.fields|, s.own, t, s.pcs[t]) && !(Lo(s.pcs[t]) <= f * FIELD_BITS + k < Hi(s.pcs[t]))
    ensures HeldAt(ClaimStep(s, t, fails).own, f, k, u)
  {
    hide Owns, Part, FieldNext, AcrossNext, InitNext, FinalNext, Claimed, Rollback;
    match s.pcs[t]
    case InitCas(c, word) =>
      assert f == c.idx && s.fields[f] == word ==> !InitPart(c)[k] by { Disjoint(word, InitPart(c), k); }
    case FinalCas(c, word) =>
      ClaimParts(|s.fields|, c);
      assert f == c.last && s.fields[f] == word ==> !LastPart(c)[k] by { Disjoint(word, LastPart(c), k); }
    case _ =>
  }

  lemma Disjoint(word: Word, part: Word, k: nat)
    requires And(word, part) == Zero() && k < FIELD_BITS
    ensures !word[k] || !part[k]
  {
    assert !And(word, part)[k];
  }

  // ---- whole ranges in one step

  // A range that the step takes nothing of stays with its holder.
  lemma RangeStays(s: State, t: Tid, a: Act, n: nat, r: Range, u: Tid)
    requires Inv(s) && t in s.pcs && HeldWhole(s.own, n, r, u)
    requires forall i: nat | r.bit <= i < r.bit + r.count :: !Taking(s, t, a, i)
    ensures |s.own| == |s.fields| && HeldWhole(Step(s, t, a).own, n, r, u)
  {
    ThreadFacts(s, t);
    StepInv(s, t, a);
    hide Inv, Step, Taking;
    var own' := Step(s, t, a).own;
    forall f: nat, k: nat | f < |own'| && k < |own'[f]| && r.bit <= f * FIELD_BITS + k < r.bit + r.count
      ensures own'[f][k] == Some(Held(u))
    {
      HeldStays(s, t, a, f, k, u);
      assert HeldAt(own', f, k, u);
    }
  }

  // A range held whole and a range with nobody's bits have no bit in common.
  lemma HeldApart(own: Owners, n: nat, r: Range, u: Tid, q: Range, t: Tid)
    requires HeldWhole(own, n, r, u) && Unowned(own, q.bit, q.bit + q.count, t) && q.count > 0
    requires q.bit + q.count <= |own| * FIELD_BITS && forall f | 0 <= f < |own| :: |own[f]| == FIELD_BITS
    ensures Apart(r, q)
  {
    hide Owns, Unowned;
    if !Apart(r, q) {
      var i := if r.bit > q.bit then r.bit else q.bit;
      HeldBit(own, r.bit, r.bit + r.count, u, i);
      UnownedBit(own, q.bit, q.bit + q.count, t, i);
    }
  }

  lemma HeldBit(own: Owners, lo: nat, hi: nat, u: Tid, i: nat)
    requires Owns(own, lo, hi, Held(u)) && lo <= i < hi && i < |own| * FIELD_BITS
    requires forall f | 0 <= f < |own| :: |own[f]| == FIELD_BITS
    ensures i / FIELD_BITS < |own| && own[i / FIELD_BITS][i % FIELD_BITS] == Some(Held(u))
  {
    BitSplit(|own|, i);
  }

  lemma UnownedBit(own: Owners, lo: nat, hi: nat, t: Tid, i: nat)
    requires Unowned(own, lo, hi, t) && lo <= i < hi && i < |own| * FIELD_BITS
    requires forall f | 0 <= f < |own| :: |own[f]| == FIELD_BITS
    ensures i / FIELD_BITS < |own|
    ensures own[i / FIELD_BITS][i % FIELD_BITS] == None || own[i / FIELD_BITS][i % FIELD_BITS] == Some(Trying(t))
  {
    BitSplit(|own|, i);
  }

  lemma UnownedInside(own: Owners, n: nat, q: Range, t: Tid)
    requires Unowned(own, q.bit, q.bit + q.count, t) && LeftFrom(own, n) && q.count > 0
    requires q.bit + q.count <= |own| * FIELD_BITS && forall f | 0 <= f < |own| :: |own[f]| == FIELD_BITS
    ensures q.bit + q.count <= n
  {
    var i := q.bit + q.count - 1;
    BitSplit(|own|, i);
    assert own[i / FIELD_BITS][i % FIELD_BITS] != Some(Leftover);
  }

  // What a claim finds and leaves.
  lemma ClaimFacts(s: State, t: Tid, a: Act)
    requires Inv(s) && t in s.pcs && ClaimedBy(s, t, a).Some?
    ensures |s.own| == |s.fields| && forall f | 0 <= f < |s.own| :: |s.own[f]| == FIELD_BITS
    ensures var r := ClaimedBy(s, t, a).value;
      && r.count > 0 && r.bit + r.count <= |s.own| * FIELD_BITS && Unowned(s.own, r.bit, r.bit + r.count, t)
      && Owns(Step(s, t, a).own, r.bit, r.bit + r.count, Held(t)) && Step(s, t, a).pcs == s.pcs[t := Idle]
  {
    ThreadFacts(s, t);
    var pc := s.pcs[t];
    assert ClaimStep(s, t, a.Spurious?) == ClaimStep(s, t, false);
    assert Step(s, t, a) == ClaimStep(s, t, false);
    assert ClaimStep(s, t, false).pcs == s.pcs[t := Idle];
    hide Inv, ClaimStep, Step;
    if pc.FieldCas? { FieldFree(s, t); } else { AcrossFree(s, t); }
  }

  lemma StepClaim(s: State, t: Tid, a: Act, live: Lives, n: nat)
    requires Inv(s) && t in s.pcs && LivesOk(s, live, n) && LeftFrom(s.own, n) && ClaimedBy(s, t, a).Some?
    ensures |s.own| == |s.fields| && LivesOk(Step(s, t, a), NextLives(s, t, a, live), n)
    ensures var r := ClaimedBy(s, t, a).value; r.bit + r.count <= n && forall b | b in live :: Apart(b.r, r)
  {
    ClaimFacts(s, t, a);
    var s', live', r := Step(s, t, a), NextLives(s, t, a, live), ClaimedBy(s, t, a).value;
    UnownedInside(s.own, n, r, t);
    forall b | b in live ensures Apart(b.r, r) { HeldApart(s.own, n, b.r, b.t, r, t); }
    forall b | b in live' ensures HeldWhole(s'.own, n, b.r, b.t) {
      if b in live { RangeStays(s, t, a, n, b.r, b.t); }
    }
    forall u | u in s.pcs && u != t ensures NotFreeing(s.pcs[u], r) {
      if s.pcs[u].UnclaimAnd? {
        ThreadFacts(s, u);
        HeldApart(s.own, |s.own| * FIELD_BITS, Rest(s.pcs[u]), u, r, t);
      }
    }
    hide Inv, Step, HeldWhole, Apart, Owns, Unowned;
  }

  // What is left after g is given away: parts of the allocations that were there, all of them apart from g.
  lemma WithoutParts(live: Lives, g: Range)
    requires forall a, b | a in live && b in live && a != b :: Apart(a.r, b.r)
    ensures forall b | b in Without(live, g) :: Apart(b.r, g) && exists a :: a in live && PartOf(b, a)
    ensures forall b, c | b in Without(live, g) && c in Without(live, g) && b != c :: Apart(b.r, c.r)
  {
    hide Without, Apart, Leaves, PartOf;
    forall b | b in Without(live, g) ensures Apart(b.r, g) && exists a :: a in live && PartOf(b, a) {
      var a := Whole(live, g, b);
      LeavesPart(a, g, b);
    }
    forall b, c | b in Without(live, g) && c in Without(live, g) && b != c ensures Apart(b.r, c.r) {
      var a := Whole(live, g, b);
      var d := Whole(live, g, c);
      LeavesApart(a, d, g, b, c);
    }
  }

  ghost predicate PartOf(b: Alloc, a: Alloc) {
    b.t == a.t && a.r.bit <= b.r.bit && b.r.bit + b.r.count <= a.r.bit + a.r.count && (a.r.count > 0 ==> b.r.count > 0)
  }

  // b is what a keeps when g is given away.
  ghost predicate Leaves(a: Alloc, g: Range, b: Alloc) {
    (Apart(a.r, g) && b == a) || (Before(a.r, g) && b == Head(a, g)) || (After(a.r, g) && b == Tail(a, g))
  }

  lemma Whole(live: Lives, g: Range, b: Alloc) returns (a: Alloc)
    requires b in Without(live, g)
    ensures a in live && Leaves(a, g, b)
  {
    hide Apart, Before, After;
    if b in live && Apart(b.r, g) { a := b; }
    else if h :| h in live && Before(h.r, g) && b == Head(h, g) { a := h; }
    else { a :| a in live && After(a.r, g) && b == Tail(a, g); }
  }

  lemma LeavesPart(a: Alloc, g: Range, b: Alloc)
    requires Leaves(a, g, b)
    ensures PartOf(b, a) && Apart(b.r, g)
  {}

  lemma LeavesApart(a: Alloc, d: Alloc, g: Range, b: Alloc, c: Alloc)
    requires Leaves(a, g, b) && Leaves(d, g, c) && b != c && (a == d || Apart(a.r, d.r))
    ensures Apart(b.r, c.r)
  {}

  lemma PartHeld(own: Owners, n: nat, b: Alloc, a: Alloc)
    requires HeldWhole(own, n, a.r, a.t) && PartOf(b, a)
    ensures HeldWhole(own, n, b.r, b.t)
  {}

  // A range held by t lies inside the arena, apart from what other threads are freeing.
  lemma GivenInside(s: State, t: Tid, n: nat, g: Range)
    requires Inv(s) && t in s.pcs && s.pcs[t].Idle? && LeftFrom(s.own, n)
    requires g.count > 0 && g.bit + g.count <= |s.fields| * FIELD_BITS && Owns(s.own, g.bit, g.bit + g.count, Held(t))
    ensures HeldWhole(s.own, n, g, t) && forall u | u in s.pcs :: NotFreeing(s.pcs[u], g)
  {
    ThreadFacts(s, t);
    hide Inv, Owns, Tries, LeftFrom;
    var last := g.bit + g.count - 1;
    HeldBit(s.own, g.bit, g.bit + g.count, t, last);
    NotLeft(s.own, n, last);
    forall u | u in s.pcs ensures NotFreeing(s.pcs[u], g) {
      ThreadFacts(s, u);
      if s.pcs[u].UnclaimAnd? && !Apart(g, Rest(s.pcs[u])) {
        var r := Rest(s.pcs[u]);
        var i := if r.bit > g.bit then r.bit else g.bit;
        HeldBit(s.own, g.bit, g.bit + g.count, t, i);
        HeldBit(s.own, r.bit, r.bit + r.count, u, i);
      }
    }
  }

  lemma NotLeft(own: Owners, n: nat, i: nat)
    requires LeftFrom(own, n) && i / FIELD_BITS < |own| && i % FIELD_BITS < |own[i / FIELD_BITS]|
    requires own[i / FIELD_BITS][i % FIELD_BITS] != Some(Leftover)
    ensures i < n
  {}

  // A thread that begins to free a range, or hands one over.
  lemma StepGive(s: State, t: Tid, a: Act, live: Lives, n: nat)
    requires Inv(s) && t in s.pcs && LivesOk(s, live, n) && LeftFrom(s.own, n) && GivenBy(s, t, a).Some?
    ensures |s.own| == |s.fields| && LivesOk(Step(s, t, a), NextLives(s, t, a, live), n)
  {
    ThreadFacts(s, t);
    var s', g := Step(s, t, a), GivenBy(s, t, a).value;
    WithoutParts(live, g);
    GivenInside(s, t, n, g);
    GivenStep(s, t, a);
    hide Without, GivenBy, Step, HeldWhole, Owns, Inv, Apart;
    forall b | b in Without(live, g)
      ensures HeldWhole(s'.own, n, b.r, b.t) && forall u | u in s.pcs :: NotFreeing(s.pcs[u], b.r)
    {
      var d :| d in live && PartOf(b, d);
      PartHeld(s.own, n, b, d);
      GivenStays(s, t, a, n, b);
      forall u | u in s.pcs ensures NotFreeing(s.pcs[u], b.r) {
        assert NotFreeing(s.pcs[u], d.r);
        PartApart(s.pcs[u], d, b);
      }
    }
    if a.Pass? {
      RenamedWhole(s.own, n, g, t, a.to);
      GaveLives(s, s', Without(live, g), n, Alloc(g, a.to));
      assert NextLives(s, t, a, live) == Without(live, g) + {Alloc(g, a.to)} by { hide ClaimedBy; IdleClaims(s, t, a); }
    } else {
      FreeLives(s, s', t, Without(live, g), n);
      assert NextLives(s, t, a, live) == Without(live, g) by { IdleClaims(s, t, a); }
    }
  }

  lemma IdleClaims(s: State, t: Tid, a: Act)
    requires t in s.pcs && s.pcs[t].Idle?
    ensures ClaimedBy(s, t, a).None?
  {}

  lemma PartApart(pc: Pc, d: Alloc, b: Alloc)
    requires NotFreeing(pc, d.r) && PartOf(b, d)
    ensures NotFreeing(pc, b.r)
  {}

  lemma RenamedWhole(own: Owners, n: nat, g: Range, t: Tid, u: Tid)
    requires HeldWhole(own, n, g, t)
    ensures HeldWhole(Rename(own, g.bit, g.bit + g.count, Held(u)), n, g, u)
  {}

  lemma GaveLives(s: State, s': State, rest: Lives, n: nat, added: Alloc)
    requires s'.pcs == s.pcs && HeldWhole(s'.own, n, added.r, added.t)
    requires forall b | b in rest :: HeldWhole(s'.own, n, b.r, b.t) && Apart(b.r, added.r)
    requires forall b, c | b in rest && c in rest && b != c :: Apart(b.r, c.r)
    requires forall u, b | u in s.pcs && b in rest :: NotFreeing(s.pcs[u], b.r)
    requires forall u | u in s.pcs :: NotFreeing(s.pcs[u], added.r)
    ensures LivesOk(s', rest + {added}, n)
  {
    hide HeldWhole, NotFreeing;
  }

  lemma FreeLives(s: State, s': State, t: Tid, rest: Lives, n: nat)
    requires t in s'.pcs && s'.pcs == s.pcs[t := s'.pcs[t]] && s'.pcs[t].UnclaimAnd?
    requires forall b | b in rest :: HeldWhole(s'.own, n, b.r, b.t) && Apart(b.r, Rest(s'.pcs[t]))
    requires forall b, c | b in rest && c in rest && b != c :: Apart(b.r, c.r)
    requires forall u, b | u in s.pcs && b in rest :: NotFreeing(s.pcs[u], b.r)
    ensures LivesOk(s', rest, n)
  {
    hide HeldWhole, Apart, Rest;
  }

  lemma GivenStays(s: State, t: Tid, a: Act, n: nat, b: Alloc)
    requires Inv(s) && t in s.pcs && HeldWhole(s.own, n, b.r, b.t) && GivenBy(s, t, a).Some?
    requires Apart(b.r, GivenBy(s, t, a).value)
    ensures |s.own| == |s.fields| && HeldWhole(Step(s, t, a).own, n, b.r, b.t)
  {
    hide Inv, HeldWhole, Step;
    RangeStays(s, t, a, n, b.r, b.t);
  }

  // What such a step does.
  lemma GivenStep(s: State, t: Tid, a: Act)
    requires t in s.pcs && |s.own| == |s.fields| && GivenBy(s, t, a).Some?
    ensures var g, s' := GivenBy(s, t, a).value, Step(s, t, a);
      && g.count > 0 && g.bit + g.count <= |s.fields| * FIELD_BITS && Owns(s.own, g.bit, g.bit + g.count, Held(t))
      && s.pcs[t].Idle? && s'.fields == s.fields
      && if a.Pass? then a.to in s.pcs && s'.pcs == s.pcs && s'.own == Rename(s.own, g.bit, g.bit + g.count, Held(a.to))
         else s'.own == s.own && s'.pcs == s.pcs[t := UnclaimAnd(g.bit, g.count, IndexField(g.bit))]
              && Rest(s'.pcs[t]) == g
  {
    hide Owns, Rename;
    if a.StartUnclaim? { IndexStart(a.bit); }
  }

  lemma IndexStart(bit: nat)
    ensures IndexField(bit) * FIELD_BITS <= bit
  {}

  lemma StepOther(s: State, t: Tid, a: Act, live: Lives, n: nat)
    requires Inv(s) && t in s.pcs && LivesOk(s, live, n) && ClaimedBy(s, t, a).None? && GivenBy(s, t, a).None?
    ensures |s.own| == |s.fields| && LivesOk(Step(s, t, a), live, n)
  {
    ThreadFacts(s, t);
    var s' := Step(s, t, a);
    forall b | b in live ensures HeldWhole(s'.own, n, b.r, b.t) {
      assert NotFreeing(s.pcs[t], b.r);
      RangeStays(s, t, a, n, b.r, b.t);
    }
    RestShrinks(s, t, a);
    hide Inv, Step, HeldWhole, Owns;
  }

  // Nobody else's place changes, and a thread that goes on freeing has less of its range left.
  lemma RestShrinks(s: State, t: Tid, a: Act)
    requires Inv(s) && t in s.pcs && GivenBy(s, t, a).None?
    ensures |s.own| == |s.fields| && Step(s, t, a).pcs.Keys == s.pcs.Keys
    ensures forall u | u in s.pcs && u != t :: Step(s, t, a).pcs[u] == s.pcs[u]
    ensures forall r: Range :: NotFreeing(s.pcs[t], r) ==> NotFreeing(Step(s, t, a).pcs[t], r)
  {
    ThreadFacts(s, t);
    var pc := s.pcs[t];
    hide Inv, Owns, Tries, PcOk, ClaimStep, BackStep, StartStep, NotFreeing;
    StartPc(s, t, a);
    ClaimPc(s, t, a.Spurious?);
    BackPc(s, t);
    forall r: Range | NotFreeing(pc, r) ensures NotFreeing(Step(s, t, a).pcs[t], r) {
      RestLess(pc, Step(s, t, a).pcs[t], r);
    }
  }

  // Where a thread may be next, as far as freeing goes.
  ghost predicate Onward(pc: Pc, pc': Pc) {
    pc'.UnclaimAnd? ==> pc == pc' || (pc.UnclaimAnd? && pc' == UnclaimNext(pc.bit, pc.count, pc.field))
  }

  ghost predicate OnlyPc(s: State, s': State, t: Tid) {
    t in s.pcs && t in s'.pcs && s'.pcs == s.pcs[t := s'.pcs[t]] && Onward(s.pcs[t], s'.pcs[t])
  }

  lemma RestLess(pc: Pc, pc': Pc, r: Range)
    requires Onward(pc, pc') && NotFreeing(pc, r)
    ensures NotFreeing(pc', r)
  {}

  lemma StartPc(s: State, t: Tid, a: Act)
    requires t in s.pcs && GivenBy(s, t, a).None?
    ensures s.pcs[t].Idle? ==> OnlyPc(s, StartStep(s, t, a), t)
  {
    hide Owns;
  }

  lemma ClaimPc(s: State, t: Tid, fails: bool)
    requires t in s.pcs && |s.own| == |s.fields|
    ensures OnlyPc(s, ClaimStep(s, t, fails), t)
  {
    hide Rename, Part, Mask, And, NextFit, MarkRow;
    match s.pcs[t]
    case FieldCas(idx, count, b, word) =>
    case FinalCas(c, word) =>
    case AcrossLoad(idx, count, retries) =>
    case _ =>
  }

  lemma BackPc(s: State, t: Tid)
    requires t in s.pcs && |s.own| == |s.fields|
    ensures OnlyPc(s, BackStep(s, t), t)
  {
    hide Part;
  }

  lemma StepLives(s: State, t: Tid, a: Act, live: Lives, n: nat)
    requires Inv(s) && t in s.pcs && LivesOk(s, live, n) && LeftFrom(s.own, n)
    ensures |s.own| == |s.fields| && LivesOk(Step(s, t, a), NextLives(s, t, a, live), n)
  {
    hide Inv, Step, LivesOk, LeftFrom;
    if ClaimedBy(s, t, a).Some? { StepClaim(s, t, a, live, n); }
    else if GivenBy(s, t, a).Some? { StepGive(s, t, a, live, n); }
    else { StepOther(s, t, a, live, n); }
  }

  // ---- nothing is lost

  ghost predicate Inside(r: Range, i: nat) { r.bit <= i < r.bit + r.count }

  // Bit i of u lies in an allocation of u, or in what u has still to give back.
  ghost predicate Covered(live: Lives, pcs: map<Tid, Pc>, u: Tid, i: nat) {
    (exists a :: a in live && a.t == u && Inside(a.r, i))
    || (u in pcs && pcs[u].UnclaimAnd? && Inside(Rest(pcs[u]), i))
  }

  ghost predicate AllCovered(s: State, live: Lives) {
    forall f: nat, k: nat, u {:trigger HeldAt(s.own, f, k, u)} | HeldAt(s.own, f, k, u) ::
      Covered(live, s.pcs, u, f * FIELD_BITS + k)
  }

  // A bit that the claim left held was held before, or belongs to the claimed range.
  lemma ClaimedHeld(s: State, t: Tid, a: Act, f: nat, k: nat, u: Tid)
    requires t in s.pcs && |s.own| == |s.fields| && (forall g | 0 <= g < |s.own| :: |s.own[g]| == FIELD_BITS)
    requires PcOk(|s.fields|, s.own, t, s.pcs[t]) && !(s.pcs[t].FieldCas? && a.Spurious?)
    requires ClaimedBy(s, t, a).Some? && HeldAt(ClaimStep(s, t, false).own, f, k, u)
    ensures (u == t && Inside(ClaimedBy(s, t, a).value, f * FIELD_BITS + k)) || HeldAt(s.own, f, k, u)
  {
    hide Part, Owns;
  }

  lemma UnclaimedHeld(s: State, t: Tid, fails: bool, f: nat, k: nat, u: Tid)
    requires t in s.pcs && |s.own| == |s.fields| && (forall g | 0 <= g < |s.own| :: |s.own[g]| == FIELD_BITS)
    requires PcOk(|s.fields|, s.own, t, s.pcs[t]) && !s.pcs[t].FinalCas? && !s.pcs[t].FieldCas?
    requires HeldAt(ClaimStep(s, t, fails).own, f, k, u)
    ensures HeldAt(s.own, f, k, u)
  {
    hide Part, Owns, FieldNext, AcrossNext, InitNext, FinalNext, Claimed, Rollback;
  }

  // What is given back is not held any more.
  lemma BackHeld(s: State, t: Tid, f: nat, k: nat, u: Tid)
    requires t in s.pcs && |s.own| == |s.fields| && (forall g | 0 <= g < |s.own| :: |s.own[g]| == FIELD_BITS)
    requires PcOk(|s.fields|, s.own, t, s.pcs[t]) && HeldAt(BackStep(s, t).own, f, k, u)
    ensures HeldAt(s.own, f, k, u)
    ensures var pc := s.pcs[t]; pc.UnclaimAnd? && f == pc.field ==> !(pc.bit <= f * FIELD_BITS + k < pc.bit + pc.count)
  {
    hide Owns, Rollback, Retry, UnclaimNext;
  }

  // What remains of a range that is being freed after one more field.
  lemma RestNext(pc: Pc, f: nat, k: nat)
    requires pc.UnclaimAnd? && k < FIELD_BITS && Inside(Rest(pc), f * FIELD_BITS + k)
    requires f == pc.field ==> !(pc.bit <= f * FIELD_BITS + k < pc.bit + pc.count)
    ensures var pc' := UnclaimNext(pc.bit, pc.count, pc.field); pc'.UnclaimAnd? && Inside(Rest(pc'), f * FIELD_BITS + k)
  {}

  // What stays held by u at a bit where the step leaves things as they were.
  lemma CoveredStill(s: State, live: Lives, live': Lives, pcs': map<Tid, Pc>, f: nat, k: nat, u: Tid)
    requires AllCovered(s, live) && HeldAt(s.own, f, k, u) && live <= live'
    requires u in s.pcs && u in pcs'
    requires pcs'[u] == s.pcs[u] || !s.pcs[u].UnclaimAnd?
    ensures Covered(live', pcs', u, f * FIELD_BITS + k)
  {
    var i := f * FIELD_BITS + k;
    assert Covered(live, s.pcs, u, i);
    if a :| a in live && a.t == u && Inside(a.r, i) { assert a in live'; }
  }

  lemma HolderKnown(s: State, f: nat, k: nat, u: Tid)
    requires Inv(s) && HeldAt(s.own, f, k, u)
    ensures u in s.pcs
  {
    assert KnownOwner(s.own[f][k], s.pcs);
  }

  lemma CoverClaim(s: State, t: Tid, a: Act, live: Lives)
    requires Inv(s) && t in s.pcs && AllCovered(s, live) && ClaimedBy(s, t, a).Some?
    ensures |s.own| == |s.fields| && AllCovered(Step(s, t, a), NextLives(s, t, a, live))
  {
    ThreadFacts(s, t);
    ClaimFacts(s, t, a);
    assert Step(s, t, a) == ClaimStep(s, t, false) && !s.pcs[t].UnclaimAnd? by {
      assert ClaimStep(s, t, a.Spurious?) == ClaimStep(s, t, false);
    }
    hide Inv, Step, ClaimStep, AllCovered, Owns, Unowned, PcOk;
    var s', live', r := Step(s, t, a), NextLives(s, t, a, live), ClaimedBy(s, t, a).value;
    var added := Alloc(r, t);
    assert added in live' && live <= live' by { hide ClaimedBy, GivenBy; }
    forall f: nat, k: nat, u | HeldAt(s'.own, f, k, u) ensures Covered(live', s'.pcs, u, f * FIELD_BITS + k) {
      ClaimedHeld(s, t, a, f, k, u);
      if HeldAt(s.own, f, k, u) {
        HolderKnown(s, f, k, u);
        CoveredStill(s, live, live', s'.pcs, f, k, u);
      } else {
        assert added.t == u && Inside(added.r, f * FIELD_BITS + k);
      }
    }
    AllCoveredBy(s', live');
  }

  lemma AllCoveredBy(s: State, live: Lives)
    requires forall f: nat, k: nat, u {:trigger HeldAt(s.own, f, k, u)} | HeldAt(s.own, f, k, u) ::
      Covered(live, s.pcs, u, f * FIELD_BITS + k)
    ensures AllCovered(s, live)
  {}

  // An allocation keeps every block that is not given away.
  lemma KeptBlocks(live: Lives, g: Range, a: Alloc, i: nat)
    requires a in live && Inside(a.r, i) && !Inside(g, i)
    ensures exists b :: b in Without(live, g) && b.t == a.t && Inside(b.r, i)
  {
    if Apart(a.r, g) {
      assert a in Without(live, g);
    } else if i < g.bit {
      assert Head(a, g) in Without(live, g);
    } else {
      assert Tail(a, g) in Without(live, g);
    }
  }

  lemma CoverGive(s: State, t: Tid, a: Act, live: Lives)
    requires Inv(s) && t in s.pcs && AllCovered(s, live) && GivenBy(s, t, a).Some? && ClaimedBy(s, t, a).None?
    ensures |s.own| == |s.fields| && AllCovered(Step(s, t, a), NextLives(s, t, a, live))
  {
    ThreadFacts(s, t);
    GivenStep(s, t, a);
    hide Inv, Step, AllCovered, Owns, PcOk, Without;
    var s', live', g := Step(s, t, a), NextLives(s, t, a, live), GivenBy(s, t, a).value;
    forall f: nat, k: nat, u | HeldAt(s'.own, f, k, u) ensures Covered(live', s'.pcs, u, f * FIELD_BITS + k) {
      if Inside(g, f * FIELD_BITS + k) {
        GivenCovered(s, t, a, live, f, k, u);
      } else {
        assert HeldAt(s.own, f, k, u);
        KeptCovered(s, live, g, f, k, u);
        assert Covered(Without(live, g), s.pcs, u, f * FIELD_BITS + k);
      }
    }
    AllCoveredBy(s', live');
  }

  lemma KeptCovered(s: State, live: Lives, g: Range, f: nat, k: nat, u: Tid)
    requires AllCovered(s, live) && HeldAt(s.own, f, k, u) && !Inside(g, f * FIELD_BITS + k)
    ensures Covered(Without(live, g), s.pcs, u, f * FIELD_BITS + k)
  {
    hide Without;
    var i := f * FIELD_BITS + k;
    assert Covered(live, s.pcs, u, i);
    if a :| a in live && a.t == u && Inside(a.r, i) { KeptBlocks(live, g, a, i); }
  }

  // The range given away: with the thread it was handed to, or still to be given back.
  lemma GivenCovered(s: State, t: Tid, a: Act, live: Lives, f: nat, k: nat, u: Tid)
    requires t in s.pcs && |s.own| == |s.fields| && GivenBy(s, t, a).Some? && ClaimedBy(s, t, a).None?
    requires HeldAt(Step(s, t, a).own, f, k, u) && Inside(GivenBy(s, t, a).value, f * FIELD_BITS + k)
    ensures Covered(NextLives(s, t, a, live), Step(s, t, a).pcs, u, f * FIELD_BITS + k)
  {
    var s', g, live' := Step(s, t, a), GivenBy(s, t, a).value, NextLives(s, t, a, live);
    GivenStep(s, t, a);
    hide Step, Without;
    if a.Pass? {
      assert u == a.to && Alloc(g, a.to) in live';
    } else {
      assert s.own[f][k] == Some(Held(t));
    }
  }

  lemma CoverOther(s: State, t: Tid, a: Act, live: Lives)
    requires Inv(s) && t in s.pcs && AllCovered(s, live) && ClaimedBy(s, t, a).None? && GivenBy(s, t, a).None?
    ensures |s.own| == |s.fields| && AllCovered(Step(s, t, a), live)
  {
    ThreadFacts(s, t);
    RestShrinks(s, t, a);
    var s', pc := Step(s, t, a), s.pcs[t];
    hide Inv, Step, AllCovered;
    forall f: nat, k: nat, u | HeldAt(s'.own, f, k, u) ensures Covered(live, s'.pcs, u, f * FIELD_BITS + k) {
      OtherHeld(s, t, a, f, k, u);
      HolderKnown(s, f, k, u);
      if u == t && pc.UnclaimAnd? {
        RestCovered(s, t, a, live, f, k);
      } else {
        CoveredStill(s, live, live, s'.pcs, f, k, u);
      }
    }
    AllCoveredBy(s', live);
  }

  lemma RestCovered(s: State, t: Tid, a: Act, live: Lives, f: nat, k: nat)
    requires Inv(s) && t in s.pcs && AllCovered(s, live) && s.pcs[t].UnclaimAnd? && |s.own| == |s.fields|
    requires HeldAt(s.own, f, k, t) && HeldAt(Step(s, t, a).own, f, k, t)
    ensures Covered(live, Step(s, t, a).pcs, t, f * FIELD_BITS + k)
  {
    var pc, i := s.pcs[t], f * FIELD_BITS + k;
    ThreadFacts(s, t);
    BackHeld(s, t, f, k, t);
    assert Step(s, t, a).pcs[t] == UnclaimNext(pc.bit, pc.count, pc.field);
    hide Inv, Step, BackStep, UnclaimNext;
    assert Covered(live, s.pcs, t, i);
    if Inside(Rest(pc), i) { RestNext(pc, f, k); }
  }

  lemma OtherHeld(s: State, t: Tid, a: Act, f: nat, k: nat, u: Tid)
    requires Inv(s) && t in s.pcs && ClaimedBy(s, t, a).None? && GivenBy(s, t, a).None? && |s.own| == |s.fields|
    requires HeldAt(Step(s, t, a).own, f, k, u)
    ensures HeldAt(s.own, f, k, u)
  {
    ThreadFacts(s, t);
    hide Inv, Owns, Part;
    var pc := s.pcs[t];
    if pc.Idle? { StartHeld(s, t, a, f, k, u); }
    else if pc.FieldCas? || pc.FinalCas? { assert Step(s, t, a).own == s.own; }
    else if pc.MidStore? || pc.BackLoad? || pc.BackCas? || pc.UnclaimAnd? { BackHeld(s, t, f, k, u); }
    else { UnclaimedHeld(s, t, a.Spurious?, f, k, u); }
  }

  lemma StartHeld(s: State, t: Tid, a: Act, f: nat, k: nat, u: Tid)
    requires t in s.pcs && s.pcs[t].Idle? && GivenBy(s, t, a).None? && HeldAt(StartStep(s, t, a).own, f, k, u)
    ensures HeldAt(s.own, f, k, u)
  {
    hide Owns;
  }

  lemma StepCovered(s: State, t: Tid, a: Act, live: Lives)
    requires Inv(s) && t in s.pcs && AllCovered(s, live)
    ensures |s.own| == |s.fields| && AllCovered(Step(s, t, a), NextLives(s, t, a, live))
  {
    hide Inv, Step, AllCovered, Without;
    if ClaimedBy(s, t, a).Some? { CoverClaim(s, t, a, live); }
    else if GivenBy(s, t, a).Some? { CoverGive(s, t, a, live); }
    else { CoverOther(s, t, a, live); }
  }

  // ---- runs

  // The allocations along a run that starts with none.
  ghost predicate LivesOf(states: seq<State>, steps: Schedule, lives: seq<Lives>) {
    && IsRun(states, steps) && |lives| == |states| && lives[0] == {}
    && forall i: nat | i < |steps| :: NextOf(states[i], steps[i], lives[i], lives[i + 1])
  }

  ghost predicate NextOf(s: State, step: (Tid, Act), live: Lives, live': Lives) {
    step.0 in s.pcs && live' == NextLives(s, step.0, step.1, live)
  }

  lemma LeftAlong(states: seq<State>, steps: Schedule, n: nat, i: nat)
    requires IsRun(states, steps) && i < |states| && LeftFrom(states[0].own, n)
    ensures LeftFrom(states[i].own, n)
  {
    LeftoverStays(states, steps, i);
    var own, own' := states[0].own, states[i].own;
    hide IsRun;
    forall f: nat, k: nat | f < |own'| && k < |own'[f]| && n <= f * FIELD_BITS + k
      ensures own'[f][k] == Some(Leftover)
    {
      assert own[f][k] == Some(Leftover);
    }
  }

  // In every reachable state of any number of threads, allocations are held whole by their owners, lie inside
  // the arena, and overlap neither each other nor what a thread is still giving back.
  lemma {:induction false} AllocationsApart(states: seq<State>, steps: Schedule, lives: seq<Lives>, n: nat, i: nat)
    requires LivesOf(states, steps, lives) && i < |states| && LeftFrom(states[0].own, n)
    ensures LivesOk(states[i], lives[i], n)
  {
    hide Step, Inv, Init, LeftFrom;
    if i > 0 {
      AllocationsApart(states, steps, lives, n, i - 1);
      RunInv(states, steps, i - 1);
      LeftAlong(states, steps, n, i - 1);
      assert Stepped(states[i - 1], steps[i - 1], states[i]);
      assert NextOf(states[i - 1], steps[i - 1], lives[i - 1], lives[i]);
      hide LivesOk, NextLives;
      StepLives(states[i - 1], steps[i - 1].0, steps[i - 1].1, lives[i - 1], n);
    }
  }

  // So a claim gets existing blocks that no live allocation has.
  lemma ClaimApart(states: seq<State>, steps: Schedule, lives: seq<Lives>, n: nat, i: nat, t: Tid, a: Act)
    requires LivesOf(states, steps, lives) && i < |states| && LeftFrom(states[0].own, n)
    requires t in states[i].pcs && ClaimedBy(states[i], t, a).Some?
    ensures var r := ClaimedBy(states[i], t, a).value;
      r.count > 0 && r.bit + r.count <= n && forall b | b in lives[i] :: Apart(b.r, r)
  {
    hide Step, Inv, Init, LeftFrom;
    AllocationsApart(states, steps, lives, n, i);
    RunInv(states, steps, i);
    LeftAlong(states, steps, n, i);
    ClaimFacts(states[i], t, a);
    StepClaim(states[i], t, a, lives[i], n);
  }

  ghost predicate NothingHeld(own: Owners) { forall f: nat, k: nat, u :: !HeldAt(own, f, k, u) }

  // Blocks never get lost: where a run begins with none held, each block held is part of an allocation of its
  // holder or of a range its holder is still giving back, and each block of either is held. So freeing ends with
  // every block of the range free.
  lemma {:induction false} NothingLost(states: seq<State>, steps: Schedule, lives: seq<Lives>, n: nat, i: nat)
    requires LivesOf(states, steps, lives) && i < |states| && LeftFrom(states[0].own, n) && NothingHeld(states[0].own)
    ensures forall f: nat, k: nat, u {:trigger HeldAt(states[i].own, f, k, u)} |
      f < |states[i].own| && k < |states[i].own[f]| && u in states[i].pcs ::
        HeldAt(states[i].own, f, k, u) <==> Covered(lives[i], states[i].pcs, u, f * FIELD_BITS + k)
  {
    CoveredAlong(states, steps, lives, i);
    AllocationsApart(states, steps, lives, n, i);
    RunInv(states, steps, i);
    var s, live := states[i], lives[i];
    hide Inv, LivesOf, NothingHeld;
    forall f: nat, k: nat, u | f < |s.own| && k < |s.own[f]| && u in s.pcs
      ensures HeldAt(s.own, f, k, u) <==> Covered(live, s.pcs, u, f * FIELD_BITS + k)
    {
      if Covered(live, s.pcs, u, f * FIELD_BITS + k) { CoveredHeld(s, live, n, f, k, u); }
    }
  }

  lemma CoveredHeld(s: State, live: Lives, n: nat, f: nat, k: nat, u: Tid)
    requires Inv(s) && LivesOk(s, live, n) && f < |s.own| && k < |s.own[f]| && u in s.pcs
    requires Covered(live, s.pcs, u, f * FIELD_BITS + k)
    ensures HeldAt(s.own, f, k, u)
  {
    ThreadFacts(s, u);
    if a :| a in live && a.t == u && Inside(a.r, f * FIELD_BITS + k) { assert HeldWhole(s.own, n, a.r, a.t); }
  }

  lemma {:induction false} CoveredAlong(states: seq<State>, steps: Schedule, lives: seq<Lives>, i: nat)
    requires LivesOf(states, steps, lives) && i < |states| && NothingHeld(states[0].own)
    ensures AllCovered(states[i], lives[i])
  {
    hide Step, Inv, Init;
    if i > 0 {
      CoveredAlong(states, steps, lives, i - 1);
      RunInv(states, steps, i - 1);
      assert Stepped(states[i - 1], steps[i - 1], states[i]);
      assert NextOf(states[i - 1], steps[i - 1], lives[i - 1], lives[i]);
      hide AllCovered, NextLives;
      StepCovered(states[i - 1], steps[i - 1].0, steps[i - 1].1, lives[i - 1]);
    }
  }
}
