// What one claim or unclaim comes to when the other threads stand still, and that it ends (bitmap.c).
module BitmapAlone {
  import opened Base
  import opened Words
  import opened Bitmap
  import opened BitmapShared
  import opened BitmapSharedInv
  import opened Arena
  import opened ArenaRuns

  // Thread t takes n steps.
  ghost function Alone(s: State, t: Tid, n: nat): State
    decreases n
  {
    if n == 0 || t !in s.pcs || |s.own| != |s.fields| then s else Alone(Step(s, t, Go), t, n - 1)
  }

  // Left alone, t gets from s to s'.
  ghost predicate Reaches(s: State, t: Tid, s': State) { exists n: nat :: Alone(s, t, n) == s' }

  lemma ReachesSelf(s: State, t: Tid)
    ensures Reaches(s, t, s)
  {
    assert Alone(s, t, 0) == s;
  }

  lemma ReachesStep(s: State, t: Tid, s': State)
    requires t in s.pcs && |s.own| == |s.fields| && Reaches(Step(s, t, Go), t, s')
    ensures Reaches(s, t, s')
  {
    var n: nat :| Alone(Step(s, t, Go), t, n) == s';
    assert Alone(s, t, n + 1) == s';
  }

  lemma ReachesNext(s: State, t: Tid, s1: State)
    requires t in s.pcs && |s.own| == |s.fields| && Step(s, t, Go) == s1
    ensures Reaches(s, t, s1)
  {
    ReachesSelf(s1, t);
    ReachesStep(s, t, s1);
  }

  lemma {:induction false} ReachesOn(s: State, t: Tid, n: nat, s': State)
    requires Reaches(Alone(s, t, n), t, s')
    ensures Reaches(s, t, s')
    decreases n
  {
    if n > 0 && t in s.pcs && |s.own| == |s.fields| {
      ReachesOn(Step(s, t, Go), t, n - 1, s');
      ReachesStep(s, t, s');
    }
  }

  lemma ReachesTrans(s: State, t: Tid, s1: State, s2: State)
    requires Reaches(s, t, s1) && Reaches(s1, t, s2)
    ensures Reaches(s, t, s2)
  {
    var n: nat :| Alone(s, t, n) == s1;
    ReachesOn(s, t, n, s2);
  }

  // ---- unclaiming

  // Nobody owns the bits of r any more.
  ghost function Disowned(own: Owners, r: Range): Owners {
    seq(|own|, f requires 0 <= f < |own| =>
      seq(|own[f]|, k requires 0 <= k < |own[f]| => if Inside(r, f * FIELD_BITS + k) then None else own[f][k]))
  }

  ghost function Unclaimed(s: State, t: Tid, r: Range): State {
    State(ClearRange(s.fields, r.bit, r.count), Disowned(s.own, r), s.pcs[t := Idle])
  }

  // Run alone, an unclaim clears exactly its range, and nothing else is different afterwards.
  lemma UnclaimAlone(s: State, t: Tid, bit: nat, count: nat)
    requires Inv(s) && t in s.pcs && GivenBy(s, t, StartUnclaim(bit, count)).Some?
    ensures Reaches(Step(s, t, StartUnclaim(bit, count)), t, Unclaimed(s, t, Range(bit, count)))
  {
    ThreadFacts(s, t);
    var s1 := Step(s, t, StartUnclaim(bit, count));
    GivenStep(s, t, StartUnclaim(bit, count));
    hide Inv, Step, Owns;
    UnclaimFrom(s1, t);
    assert Unclaimed(s1, t, Range(bit, count)) == Unclaimed(s, t, Range(bit, count));
  }

  lemma {:induction false} UnclaimFrom(s: State, t: Tid)
    requires t in s.pcs && |s.own| == |s.fields| && s.pcs[t].UnclaimAnd?
    requires forall f | 0 <= f < |s.own| :: |s.own[f]| == FIELD_BITS
    requires Rest(s.pcs[t]).count > 0 && s.pcs[t].bit + s.pcs[t].count <= |s.fields| * FIELD_BITS
    requires s.pcs[t].bit < (s.pcs[t].field + 1) * FIELD_BITS
    ensures Reaches(s, t, Unclaimed(s, t, Rest(s.pcs[t])))
    decreases |s.fields| - s.pcs[t].field
  {
    var pc := s.pcs[t];
    var s1 := Step(s, t, Go);
    UnclaimStep(s, t);
    if s1.pcs[t].UnclaimAnd? {
      UnclaimFrom(s1, t);
      UnclaimRest2(s, t, s1);
      ReachesStep(s, t, Unclaimed(s, t, Rest(pc)));
    } else {
      UnclaimLast(s, t, s1);
      ReachesNext(s, t, s1);
    }
  }

  lemma SameRows(a: Owners, b: Owners)
    requires |a| == |b| && forall f | 0 <= f < |a| :: |a[f]| == |b[f]|
    requires forall f: nat, k: nat {:trigger a[f][k]} | f < |a| && k < |a[f]| :: a[f][k] == b[f][k]
    ensures a == b
  {
    forall f: nat | f < |a| ensures a[f] == b[f] {}
  }

  lemma UnclaimStep(s: State, t: Tid)
    requires t in s.pcs && |s.own| == |s.fields| && s.pcs[t].UnclaimAnd?
    requires Rest(s.pcs[t]).count > 0 && s.pcs[t].bit + s.pcs[t].count <= |s.fields| * FIELD_BITS
    ensures s.pcs[t].field < |s.fields|
    ensures var (bit, count, field) := (s.pcs[t].bit, s.pcs[t].count, s.pcs[t].field);
      Step(s, t, Go) == Put(s, t, field, Part(bit, count, field), None, UnclaimNext(bit, count, field))
  {}

  lemma UnclaimRest2(s: State, t: Tid, s1: State)
    requires t in s.pcs && |s.own| == |s.fields| && s.pcs[t].UnclaimAnd? && s.pcs[t].field < |s.fields|
    requires s.pcs[t].bit < (s.pcs[t].field + 1) * FIELD_BITS < s.pcs[t].bit + s.pcs[t].count
    requires var (bit, count, field) := (s.pcs[t].bit, s.pcs[t].count, s.pcs[t].field);
      s1 == Put(s, t, field, Part(bit, count, field), None, UnclaimAnd(bit, count, field + 1))
    requires forall f | 0 <= f < |s.own| :: |s.own[f]| == FIELD_BITS
    ensures Unclaimed(s1, t, Rest(s1.pcs[t])) == Unclaimed(s, t, Rest(s.pcs[t]))
  {
    var pc := s.pcs[t];
    var r, r1 := Rest(pc), Rest(s1.pcs[t]);
    forall f: nat | f < |s.fields|
      ensures AndNot(s1.fields[f], Part(r1.bit, r1.count, f)) == AndNot(s.fields[f], Part(r.bit, r.count, f))
    {}
    var a: Owners, b: Owners := Disowned(s1.own, r1), Disowned(s.own, r);
    forall f: nat, k: nat | f < |a| && k < |a[f]| ensures a[f][k] == b[f][k] {
      var part := Part(pc.bit, pc.count, pc.field);
      assert s1.own[f][k] == if f == pc.field && part[k] then None else s.own[f][k];
      assert b[f][k] == if Inside(r, f * FIELD_BITS + k) then None else s.own[f][k];
      assert a[f][k] == if Inside(r1, f * FIELD_BITS + k) then None else s1.own[f][k];
    }
    SameRows(a, b);
  }

  lemma UnclaimLast(s: State, t: Tid, s1: State)
    requires t in s.pcs && |s.own| == |s.fields| && s.pcs[t].UnclaimAnd? && s.pcs[t].field < |s.fields|
    requires Rest(s.pcs[t]).count > 0 && s.pcs[t].bit + s.pcs[t].count <= (s.pcs[t].field + 1) * FIELD_BITS
    requires var (bit, count, field) := (s.pcs[t].bit, s.pcs[t].count, s.pcs[t].field);
      s1 == Put(s, t, field, Part(bit, count, field), None, Idle)
    requires forall f | 0 <= f < |s.own| :: |s.own[f]| == FIELD_BITS
    ensures s1 == Unclaimed(s, t, Rest(s.pcs[t]))
  {
    var pc := s.pcs[t];
    var r := Rest(pc);
    forall f: nat | f < |s.fields| ensures s1.fields[f] == AndNot(s.fields[f], Part(r.bit, r.count, f)) {}
    var b: Owners := Disowned(s.own, r);
    forall f: nat, k: nat | f < |b| && k < |b[f]| ensures s1.own[f][k] == b[f][k] {
      var part := Part(pc.bit, pc.count, pc.field);
      assert s1.own[f][k] == if f == pc.field && part[k] then None else s.own[f][k];
      assert b[f][k] == if Inside(r, f * FIELD_BITS + k) then None else s.own[f][k];
    }
    SameRows(s1.own, b);
  }

  // ---- claiming

  ghost function Took(s: State, t: Tid, r: Range): State {
    State(SetRange(s.fields, r.bit, r.count), Rename(s.own, r.bit, r.bit + r.count, Held(t)), s.pcs[t := Idle])
  }

  // Marking bits of the range first makes no difference to what it is once it is held.
  lemma MarkRenamed(own: Owners, f: nat, part: Word, v: Option<Owner>, lo: nat, hi: nat, w: Owner)
    requires f < |own| && forall g | 0 <= g < |own| :: |own[g]| == FIELD_BITS
    requires forall k: nat | k < FIELD_BITS && part[k] :: lo <= f * FIELD_BITS + k < hi
    ensures Rename(own[f := MarkRow(own[f], part, v)], lo, hi, w) == Rename(own, lo, hi, w)
  {
    var own1 := own[f := MarkRow(own[f], part, v)];
    var a: Owners, b: Owners := Rename(own1, lo, hi, w), Rename(own, lo, hi, w);
    forall g: nat, k: nat | g < |a| && k < |a[g]| ensures a[g][k] == b[g][k] {
      assert own1[g][k] == if g == f && part[k] then v else own[g][k];
      assert a[g][k] == if lo <= g * FIELD_BITS + k < hi then Some(w) else own1[g][k];
      assert b[g][k] == if lo <= g * FIELD_BITS + k < hi then Some(w) else own[g][k];
    }
    SameRows(a, b);
  }

  lemma MarkHeld(own: Owners, f: nat, b: nat, count: nat, w: Owner)
    requires f < |own| && b + count <= FIELD_BITS && forall g | 0 <= g < |own| :: |own[g]| == FIELD_BITS
    ensures own[f := MarkRow(own[f], Mask(count, b), Some(w))]
      == Rename(own, IndexCreate(f, b), IndexCreate(f, b) + count, w)
  {
    var lo, part := IndexCreate(f, b), Mask(count, b);
    var a: Owners, b: Owners := own[f := MarkRow(own[f], part, Some(w))], Rename(own, lo, lo + count, w);
    forall g: nat, k: nat | g < |a| && k < |a[g]| ensures a[g][k] == b[g][k] {
      assert a[g][k] == if g == f && part[k] then Some(w) else own[g][k];
      assert b[g][k] == if lo <= g * FIELD_BITS + k < lo + count then Some(w) else own[g][k];
    }
    SameRows(a, b);
  }

  // Run alone, a claim in a field takes the lowest fit, and changes nothing if there is none.
  lemma FieldAlone(s: State, t: Tid, idx: nat, count: nat)
    requires Inv(s) && t in s.pcs && s.pcs[t].Idle? && idx < |s.fields| && 0 < count <= FIELD_BITS
    ensures forall b | LowestFit(s.fields[idx], count, b) ::
      Reaches(Step(s, t, StartField(idx, count)), t, Took(s, t, Range(IndexCreate(idx, b), count)))
    ensures (forall b: nat :: !Free(s.fields[idx], b, count)) ==> Reaches(Step(s, t, StartField(idx, count)), t, s)
  {
    ThreadFacts(s, t);
    hide Inv, LowestFit, Reaches, Took;
    FieldFrom(s, t, idx, count);
  }

  lemma FieldFrom(s: State, t: Tid, idx: nat, count: nat)
    requires t in s.pcs && |s.own| == |s.fields| && idx < |s.fields| && 0 < count <= FIELD_BITS
    requires forall f | 0 <= f < |s.own| :: |s.own[f]| == FIELD_BITS
    ensures forall b | LowestFit(s.fields[idx], count, b) ::
      Reaches(Jump(s, t, FieldLoad(idx, count)), t, Took(s, t, Range(IndexCreate(idx, b), count)))
    ensures (forall b: nat :: !Free(s.fields[idx], b, count)) ==>
      Reaches(Jump(s, t, FieldLoad(idx, count)), t, Jump(s, t, Idle))
  {
    var s1, word := Jump(s, t, FieldLoad(idx, count)), s.fields[idx];
    var s2 := Jump(s, t, FieldNext(idx, count, 0, word));
    assert Step(s1, t, Go) == s2;
    FitFree(idx, count, 0, word);
    hide Free, Reaches, Took, FieldNext;
    if s2.pcs[t].Idle? {
      NoFit(word, idx, count);
      ReachesNext(s1, t, s2);
    } else {
      var b := s2.pcs[t].b;
      FitLowest(word, idx, count, b);
      FreeFits(word, b, count);
      FieldTakes(s, t, s2, idx, count, b);
      ReachesNext(s2, t, Took(s, t, Range(IndexCreate(idx, b), count)));
      ReachesStep(s1, t, Took(s, t, Range(IndexCreate(idx, b), count)));
    }
  }

  lemma NoFit(word: Word, idx: nat, count: nat)
    requires FieldNext(idx, count, 0, word).Idle?
    ensures forall b: nat :: !Free(word, b, count)
    ensures forall b: nat :: !LowestFit(word, count, b)
  {
    forall b: nat ensures !Free(word, b, count) { if Free(word, b, count) { FirstFit(word, count, b); } }
  }

  // Where something fits there is a lowest fit.
  lemma {:induction false} FirstFit(word: Word, count: nat, b: nat)
    requires Free(word, b, count)
    ensures exists s: nat :: FitFrom(word, count, 0, s)
  {
    if r: nat :| r < b && Free(word, r, count) { FirstFit(word, count, r); } else { assert FitFrom(word, count, 0, b); }
  }

  lemma FitLowest(word: Word, idx: nat, count: nat, b: nat)
    requires FieldNext(idx, count, 0, word) == FieldCas(idx, count, b, word)
    ensures LowestFit(word, count, b) && forall r: nat | LowestFit(word, count, r) :: r == b
  {
    assert FitFrom(word, count, 0, b);
    forall r: nat | LowestFit(word, count, r) ensures r == b {}
  }

  lemma FieldTakes(s: State, t: Tid, s2: State, idx: nat, count: nat, b: nat)
    requires t in s.pcs && |s.own| == |s.fields| && idx < |s.fields| && 0 < count && b + count <= FIELD_BITS
    requires forall f | 0 <= f < |s.own| :: |s.own[f]| == FIELD_BITS
    requires s2 == Jump(s, t, FieldCas(idx, count, b, s.fields[idx]))
    ensures Step(s2, t, Go) == Took(s, t, Range(IndexCreate(idx, b), count))
  {
    var p := IndexCreate(idx, b);
    FieldRange(s.fields, idx, b, count);
    MarkHeld(s.own, idx, b, count, Held(t));
  }

  // ---- claiming across fields

  // The scan finds fields `field` to `last` free, or ends the claim.
  lemma {:induction false} ScanFrom(s: State, t: Tid, c: Claim, field: nat)
    requires t in s.pcs && |s.own| == |s.fields| && s.pcs[t] == ScanLoad(c, field)
    requires c.idx < field <= c.last < |s.fields|
    ensures ScanClear(s.fields, c, field) ==> Reaches(s, t, Jump(s, t, InitLoad(c)))
    ensures !ScanClear(s.fields, c, field) ==> Reaches(s, t, Jump(s, t, Idle))
    decreases c.last - field
  {
    hide Part, And;
    var s1 := Step(s, t, Go);
    if And(s.fields[field], Part(c.p, c.count, field)) != Zero() {
      assert !ScanClear(s.fields, c, field);
      ReachesNext(s, t, Jump(s, t, Idle));
    } else if field < c.last {
      assert s1 == Jump(s, t, ScanLoad(c, field + 1));
      ScanFrom(s1, t, c, field + 1);
      assert ScanClear(s.fields, c, field) <==> ScanClear(s.fields, c, field + 1);
      assert Jump(s1, t, InitLoad(c)) == Jump(s, t, InitLoad(c)) && Jump(s1, t, Idle) == Jump(s, t, Idle);
      if ScanClear(s.fields, c, field) {
        ReachesStep(s, t, Jump(s, t, InitLoad(c)));
      } else {
        ReachesStep(s, t, Jump(s, t, Idle));
      }
    } else {
      ReachesNext(s, t, Jump(s, t, InitLoad(c)));
    }
  }

  ghost predicate ScanClear(fields: seq<Word>, c: Claim, field: nat) {
    forall f: nat | field <= f <= c.last && f < |fields| :: And(fields[f], Part(c.p, c.count, f)) == Zero()
  }

  // What the claim still has to take, from field `field` on.
  ghost function TailOf(c: Claim, field: nat): Range
    requires field * FIELD_BITS <= c.p + c.count
  {
    Range(field * FIELD_BITS, c.p + c.count - field * FIELD_BITS)
  }

  ghost function TookTail(s: State, t: Tid, c: Claim, field: nat): State
    requires field * FIELD_BITS <= c.p + c.count
  {
    State(SetRange(s.fields, TailOf(c, field).bit, TailOf(c, field).count),
          Rename(s.own, c.p, c.p + c.count, Held(t)), s.pcs[t := Idle])
  }

  ghost predicate Shaped(s: State) {
    |s.own| == |s.fields| && forall f | 0 <= f < |s.own| :: |s.own[f]| == FIELD_BITS
  }

  // The middle fields and the last one.
  lemma {:induction false} MidFrom(s: State, t: Tid, c: Claim, field: nat)
    requires t in s.pcs && Shaped(s) && ClaimOk(|s.fields|, c) && c.idx < field <= c.last
    requires s.pcs[t] == if field < c.last then MidCas(c, field) else FinalLoad(c)
    requires forall f: nat | field <= f < c.last :: s.fields[f] == Zero()
    requires And(s.fields[c.last], LastPart(c)) == Zero()
    ensures Reaches(s, t, TookTail(s, t, c, field))
    decreases c.last - field
  {
    if field < c.last {
      var s1 := Put(s, t, field, Ones(), Some(Trying(t)), Claimed(c, field));
      assert Step(s, t, Go) == s1;
      MidFrom(s1, t, c, field + 1);
      MidTook(s, t, c, field);
      ReachesStep(s, t, TookTail(s, t, c, field));
    } else {
      var s1 := Jump(s, t, FinalCas(c, s.fields[c.last]));
      assert Step(s, t, Go) == s1;
      FinalTook(s, t, c);
      ReachesNext(s1, t, TookTail(s, t, c, field));
      ReachesStep(s, t, TookTail(s, t, c, field));
    }
  }

  lemma MidTook(s: State, t: Tid, c: Claim, field: nat)
    requires t in s.pcs && Shaped(s) && ClaimOk(|s.fields|, c) && c.idx < field < c.last
    ensures TookTail(Put(s, t, field, Ones(), Some(Trying(t)), Claimed(c, field)), t, c, field + 1)
      == TookTail(s, t, c, field)
  {
    var s1 := Put(s, t, field, Ones(), Some(Trying(t)), Claimed(c, field));
    var r, r1 := TailOf(c, field), TailOf(c, field + 1);
    MarkRenamed(s.own, field, Ones(), Some(Trying(t)), c.p, c.p + c.count, Held(t));
    forall f: nat | f < |s.fields|
      ensures Or(s1.fields[f], Part(r1.bit, r1.count, f)) == Or(s.fields[f], Part(r.bit, r.count, f))
    {
      forall k: nat | k < FIELD_BITS
        ensures (s1.fields[f][k] || Part(r1.bit, r1.count, f)[k]) == (s.fields[f][k] || Part(r.bit, r.count, f)[k])
      {
        assert s1.fields[f][k] == (s.fields[f][k] || f == field);
      }
    }
  }

  lemma FinalTook(s: State, t: Tid, c: Claim)
    requires t in s.pcs && Shaped(s) && ClaimOk(|s.fields|, c)
    ensures Step(Jump(s, t, FinalCas(c, s.fields[c.last])), t, Go) == TookTail(s, t, c, c.last)
  {
    var r := TailOf(c, c.last);
    var s1 := Jump(s, t, FinalCas(c, s.fields[c.last]));
    ClaimParts(|s.fields|, c);
    MarkRenamed(s.own, c.last, LastPart(c), Some(Trying(t)), c.p, c.p + c.count, Held(t));
    forall f: nat | f < |s.fields|
      ensures Or(s.fields[f], Part(r.bit, r.count, f)) ==
        if f == c.last then Or(s.fields[f], LastPart(c)) else s.fields[f]
    {
      forall k: nat | k < FIELD_BITS
        ensures (s.fields[f][k] || Part(r.bit, r.count, f)[k]) == (s.fields[f][k] || (f == c.last && LastPart(c)[k]))
      {}
    }
  }

  // A claim whose range is clear gets it.
  lemma TakeFrom(s: State, t: Tid, c: Claim)
    requires t in s.pcs && Shaped(s) && ClaimOk(|s.fields|, c) && s.pcs[t] == InitLoad(c)
    requires Clear(s.fields, c.p, c.count)
    ensures Reaches(s, t, Took(s, t, Range(c.p, c.count)))
  {
    var s1 := Jump(s, t, InitCas(c, s.fields[c.idx]));
    var s2 := Put(s, t, c.idx, InitPart(c), Some(Trying(t)), Claimed(c, c.idx));
    assert Step(s, t, Go) == s1 && Step(s1, t, Go) == s2;
    MiddleZero(s.fields, c);
    hide Part, And, Clear;
    MidFrom(s2, t, c, c.idx + 1);
    InitTook(s, t, c);
    ReachesStep(s1, t, Took(s, t, Range(c.p, c.count)));
    ReachesStep(s, t, Took(s, t, Range(c.p, c.count)));
  }

  lemma MiddleZero(m: seq<Word>, c: Claim)
    requires ClaimOk(|m|, c) && Clear(m, c.p, c.count)
    ensures forall f: nat | c.idx < f < c.last :: m[f] == Zero()
    ensures And(m[c.last], LastPart(c)) == Zero()
  {
    forall f: nat | c.idx < f < c.last ensures m[f] == Zero() {
      assert And(m[f], Part(c.p, c.count, f)) == Zero();
      forall k: nat | k < FIELD_BITS ensures !m[f][k] { assert !And(m[f], Part(c.p, c.count, f))[k]; }
    }
  }

  lemma InitTook(s: State, t: Tid, c: Claim)
    requires t in s.pcs && Shaped(s) && ClaimOk(|s.fields|, c)
    ensures TookTail(Put(s, t, c.idx, InitPart(c), Some(Trying(t)), Claimed(c, c.idx)), t, c, c.idx + 1)
      == Took(s, t, Range(c.p, c.count))
  {
    var s1, r := Put(s, t, c.idx, InitPart(c), Some(Trying(t)), Claimed(c, c.idx)), TailOf(c, c.idx + 1);
    ClaimParts(|s.fields|, c);
    MarkRenamed(s.own, c.idx, InitPart(c), Some(Trying(t)), c.p, c.p + c.count, Held(t));
    forall f: nat | f < |s.fields|
      ensures Or(s1.fields[f], Part(r.bit, r.count, f)) == Or(s.fields[f], Part(c.p, c.count, f))
    {
      forall k: nat | k < FIELD_BITS
        ensures (s1.fields[f][k] || Part(r.bit, r.count, f)[k]) == (s.fields[f][k] || Part(c.p, c.count, f)[k])
      {
        assert s1.fields[f][k] == (s.fields[f][k] || (f == c.idx && InitPart(c)[k]));
      }
    }
  }

  ghost function AcrossEnd(s: State, t: Tid, idx: nat, count: nat): State
    requires idx < |s.fields|
  {
    var zeros := Clz(s.fields[idx]);
    var p := IndexCreate(idx, FIELD_BITS - zeros);
    if zeros > 0 && Clear(s.fields, p, count) then Took(s, t, Range(p, count)) else s
  }

  // Run alone, a claim across fields takes the run that begins with the zeros at the end of its first field, if all
  // of that run is clear, and changes nothing otherwise; where those zeros are enough it is a claim in the field.
  lemma AcrossAlone(s: State, t: Tid, idx: nat, count: nat)
    requires Inv(s) && t in s.pcs && s.pcs[t].Idle? && idx < |s.fields| && 0 < count
    ensures Clz(s.fields[idx]) < count ==> Reaches(Step(s, t, StartAcross(idx, count)), t, AcrossEnd(s, t, idx, count))
    ensures Clz(s.fields[idx]) >= count ==>
      forall b | LowestFit(s.fields[idx], count, b) ::
        Reaches(Step(s, t, StartAcross(idx, count)), t, Took(s, t, Range(IndexCreate(idx, b), count)))
  {
    ThreadFacts(s, t);
    var s1, zeros := Step(s, t, StartAcross(idx, count)), Clz(s.fields[idx]);
    var s2 := Jump(s, t, AcrossNext(|s.fields|, idx, count, 0, s.fields[idx]));
    assert Step(s1, t, Go) == s2;
    hide Inv, Reaches, Took, Clear, LowestFit, Part, Step, Clz;
    if zeros >= count {
      forall b | LowestFit(s.fields[idx], count, b)
        ensures Reaches(s1, t, Took(s, t, Range(IndexCreate(idx, b), count)))
      {
        AcrossField(s, t, s2, idx, count, b);
        ReachesStep(s1, t, Took(s, t, Range(IndexCreate(idx, b), count)));
      }
    } else {
      var s' := AcrossEnd(s, t, idx, count);
      AcrossRun(s, t, s2, idx, count, s');
      ReachesStep(s1, t, s');
    }
  }

  lemma AcrossField(s: State, t: Tid, s2: State, idx: nat, count: nat, b: nat)
    requires t in s.pcs && Shaped(s) && idx < |s.fields| && 0 < count <= Clz(s.fields[idx])
    requires s2 == Jump(s, t, AcrossNext(|s.fields|, idx, count, 0, s.fields[idx]))
    requires LowestFit(s.fields[idx], count, b)
    ensures Reaches(s2, t, Took(s, t, Range(IndexCreate(idx, b), count)))
  {
    TailFree(s.fields[idx], Clz(s.fields[idx]), count);
    hide LowestFit, Reaches, Took;
    FieldFrom(s, t, idx, count);
  }

  lemma AcrossRun(s: State, t: Tid, s2: State, idx: nat, count: nat, s': State)
    requires t in s.pcs && Shaped(s) && s.pcs[t].Idle? && idx < |s.fields| && count > Clz(s.fields[idx])
    requires s2 == Jump(s, t, AcrossNext(|s.fields|, idx, count, 0, s.fields[idx])) && s' == AcrossEnd(s, t, idx, count)
    ensures Reaches(s2, t, s')
  {
    hide Clear, Took, Reaches;
    var zeros := Clz(s.fields[idx]);
    if zeros == 0 {
      assert s2 == s;
      ReachesSelf(s, t);
    } else if DivideUp(count - zeros, FIELD_BITS) >= |s.fields| - idx {
      NoRoom(s.fields, IndexCreate(idx, FIELD_BITS - zeros), count, idx, zeros);
      assert s2 == s;
      ReachesSelf(s, t);
    } else {
      AcrossScans(s, t, s2, idx, count, zeros);
    }
  }

  lemma AcrossScans(s: State, t: Tid, s2: State, idx: nat, count: nat, zeros: nat)
    requires t in s.pcs && Shaped(s) && s.pcs[t].Idle? && idx < |s.fields| && zeros == Clz(s.fields[idx])
    requires 0 < zeros < count && DivideUp(count - zeros, FIELD_BITS) < |s.fields| - idx
    requires s2 == Jump(s, t, AcrossNext(|s.fields|, idx, count, 0, s.fields[idx]))
    ensures var p := IndexCreate(idx, FIELD_BITS - zeros);
      Reaches(s2, t, if Clear(s.fields, p, count) then Took(s, t, Range(p, count)) else s)
  {
    var p := IndexCreate(idx, FIELD_BITS - zeros);
    var c := Claim(idx, p, count, idx + DivideUp(count - zeros, FIELD_BITS), 0);
    DivideUpBound(count - zeros);
    assert s2.pcs[t] == ScanLoad(c, idx + 1) && ClaimOk(|s.fields|, c);
    ScanMeans(s.fields, c, zeros);
    hide Reaches, Took, Clear, Part, And, ScanClear, AcrossNext;
    ScanFrom(s2, t, c, idx + 1);
    assert Jump(s2, t, Idle) == s;
    if ScanClear(s.fields, c, idx + 1) {
      var s3 := Jump(s2, t, InitLoad(c));
      TakeFrom(s3, t, c);
      assert Took(s3, t, Range(p, count)) == Took(s, t, Range(p, count)) by { TookSame(s, s3, t, Range(p, count)); }
      ReachesTrans(s2, t, s3, Took(s, t, Range(p, count)));
    }
  }

  lemma TookSame(s: State, s3: State, t: Tid, r: Range)
    requires s3.fields == s.fields && s3.own == s.own && s3.pcs[t := Idle] == s.pcs[t := Idle]
    ensures Took(s3, t, r) == Took(s, t, r)
  {}

  // The scan and the zeros it starts from cover the range.
  lemma ScanMeans(m: seq<Word>, c: Claim, zeros: nat)
    requires ClaimOk(|m|, c) && zeros == Clz(m[c.idx]) && c.p == IndexCreate(c.idx, FIELD_BITS - zeros)
    ensures ScanClear(m, c, c.idx + 1) <==> Clear(m, c.p, c.count)
  {
    if ScanClear(m, c, c.idx + 1) {
      forall f: nat | f < |m| ensures And(m[f], Part(c.p, c.count, f)) == Zero() {
        if f < c.idx || f > c.last {
          assert Part(c.p, c.count, f) == Zero();
          NoPart(m[f]);
        } else if f == c.idx {
          forall k: nat | k < FIELD_BITS ensures !(m[f][k] && Part(c.p, c.count, f)[k]) {}
        }
      }
    }
  }

  // ---- every operation ends

  // A word read earlier may be out of date, and then a compare-and-swap reads it again.
  ghost function Stale(word: Word, now: Word): nat { if word == now then 0 else 1 }

  // What the attempts after this one may cost.
  ghost function Later(n: nat, retries: nat): nat { 400 + (if retries < 4 then 4 - retries else 0) * (6 * n + 40) }

  // How far t still has to go alone.
  ghost function Left(fields: seq<Word>, pc: Pc): nat
    requires PcIn(|fields|, pc)
  {
    var n := |fields|;
    match pc
    case Idle => 0
    case UnclaimAnd(_, _, field) => n - field
    case FieldCas(idx, _, b, word) => 2 * (FIELD_BITS - b) + 1 + Stale(word, fields[idx])
    case FieldLoad(_, _) => 200
    case BackCas(c, word) => Later(n, c.retries) + 1 + Stale(word, fields[c.idx])
    case BackLoad(c) => Later(n, c.retries) + 3
    case MidStore(c, field) => Later(n, c.retries) + 4 + (field - c.idx)
    case FinalCas(c, word) => Later(n, c.retries) + 5 + n + Stale(word, fields[c.last])
    case FinalLoad(c) => Later(n, c.retries) + 8 + n
    case MidCas(c, field) => Later(n, c.retries) + 8 + n + (c.last - field)
    case InitCas(c, word) => Later(n, c.retries) + 10 + 3 * n + Stale(word, fields[c.idx])
    case InitLoad(c) => Later(n, c.retries) + 12 + 3 * n
    case ScanLoad(c, field) => Later(n, c.retries) + 13 + 3 * n + (c.last - field)
    case AcrossLoad(_, _, retries) => Later(n, retries) + 20 + 5 * n
  }

  ghost predicate PcIn(n: nat, pc: Pc) {
    match pc
    case UnclaimAnd(_, _, field) => field < n
    case FieldCas(idx, _, b, _) => idx < n && b <= FIELD_BITS
    case BackCas(c, _) => ClaimOk(n, c)
    case MidStore(c, field) => ClaimOk(n, c) && c.idx < field < c.last
    case FinalCas(c, _) => ClaimOk(n, c)
    case MidCas(c, field) => ClaimOk(n, c) && c.idx < field < c.last
    case InitCas(c, _) => ClaimOk(n, c)
    case ScanLoad(c, field) => ClaimOk(n, c) && c.idx < field <= c.last
    case _ => true
  }

  lemma PcWithin(s: State, t: Tid)
    requires Inv(s) && t in s.pcs
    ensures PcIn(|s.fields|, s.pcs[t]) && |s.own| == |s.fields| && PcOk(|s.fields|, s.own, t, s.pcs[t])
  {
    ThreadFacts(s, t);
  }

  // Every step of a thread that is left alone, whatever the others have done before, brings it nearer the end.
  lemma Nearer(s: State, t: Tid)
    requires Inv(s) && t in s.pcs && !s.pcs[t].Idle?
    ensures |s.own| == |s.fields| && PcIn(|s.fields|, s.pcs[t]) && t in Step(s, t, Go).pcs
    ensures var s' := Step(s, t, Go);
      |s'.fields| == |s.fields| && PcIn(|s'.fields|, s'.pcs[t]) && Left(s'.fields, s'.pcs[t]) < Left(s.fields, s.pcs[t])
  {
    PcWithin(s, t);
    StepInv(s, t, Go);
    PcWithin(Step(s, t, Go), t);
    hide Inv, Owns, PcOk, Part, And, Or, AndNot, MarkRow, Rename, AcrossNext, FieldNext;
    var pc := s.pcs[t];
    if pc.FieldLoad? || pc.FieldCas? { FieldNearer(s, t); }
    else if pc.AcrossLoad? || pc.ScanLoad? { ScanNearer(s, t); }
    else if pc.InitLoad? || pc.InitCas? { InitNearer(s, t); }
    else if pc.MidCas? || pc.FinalLoad? || pc.FinalCas? { TakeNearer(s, t); }
    else { BackNearer(s, t); }
  }

  lemma FieldNearer(s: State, t: Tid)
    requires t in s.pcs && |s.own| == |s.fields| && PcIn(|s.fields|, s.pcs[t]) && PcOk(|s.fields|, s.own, t, s.pcs[t])
    requires s.pcs[t].FieldLoad? || s.pcs[t].FieldCas?
    ensures var s' := Step(s, t, Go);
      |s'.fields| == |s.fields| && PcIn(|s'.fields|, s'.pcs[t]) && Left(s'.fields, s'.pcs[t]) < Left(s.fields, s.pcs[t])
  {
    var idx, count := s.pcs[t].idx, s.pcs[t].count;
    var b := if s.pcs[t].FieldCas? then s.pcs[t].b else 0;
    if s.pcs[t].FieldCas? { FreeFits(s.pcs[t].word, b, count); }
    NextFitFrom(idx, count, b, s.fields[idx]);
    hide FieldNext, Free, MarkRow, Mask, Or;
  }

  lemma NextFitFrom(idx: nat, count: nat, b: nat, word: Word)
    ensures var pc := FieldNext(idx, count, b, word);
      pc.Idle? || (pc.FieldCas? && pc == FieldCas(idx, count, pc.b, word) && b <= pc.b <= FIELD_BITS)
  {
    var fit := NextFit(word, count, b);
    if fit.Some? { assert FitFrom(word, count, b, fit.value); }
  }

  lemma ScanNearer(s: State, t: Tid)
    requires t in s.pcs && |s.own| == |s.fields| && PcIn(|s.fields|, s.pcs[t]) && PcOk(|s.fields|, s.own, t, s.pcs[t])
    requires s.pcs[t].AcrossLoad? || s.pcs[t].ScanLoad?
    ensures var s' := Step(s, t, Go);
      |s'.fields| == |s.fields| && PcIn(|s'.fields|, s'.pcs[t]) && Left(s'.fields, s'.pcs[t]) < Left(s.fields, s.pcs[t])
  {
    hide Part, And, Later;
    match s.pcs[t]
    case AcrossLoad(idx, count, retries) =>
      AcrossClaim(|s.fields|, idx, count, retries, s.fields[idx]);
      AcrossRetries(|s.fields|, idx, count, retries, s.fields[idx]);
      LaterBase(|s.fields|, retries);
      hide AcrossNext;
    case ScanLoad(c, field) =>
  }

  lemma AcrossRetries(n: nat, idx: nat, count: nat, retries: nat, word: Word)
    requires idx < n
    ensures var pc := AcrossNext(n, idx, count, retries, word); pc.ScanLoad? ==> pc.c.retries == retries
  {}

  lemma LaterBase(n: nat, retries: nat)
    ensures Later(n, retries) >= 400
    ensures retries < 4 ==> Later(n, retries + 1) + 6 * n + 40 == Later(n, retries)
  {}

  lemma InitNearer(s: State, t: Tid)
    requires t in s.pcs && |s.own| == |s.fields| && PcIn(|s.fields|, s.pcs[t]) && PcOk(|s.fields|, s.own, t, s.pcs[t])
    requires s.pcs[t].InitLoad? || s.pcs[t].InitCas?
    ensures var s' := Step(s, t, Go);
      |s'.fields| == |s.fields| && PcIn(|s'.fields|, s'.pcs[t]) && Left(s'.fields, s'.pcs[t]) < Left(s.fields, s.pcs[t])
  {
    hide Part, And, Later, MarkRow, Or, Rename;
    LaterBase(|s.fields|, s.pcs[t].c.retries);
  }

  lemma TakeNearer(s: State, t: Tid)
    requires t in s.pcs && |s.own| == |s.fields| && PcIn(|s.fields|, s.pcs[t]) && PcOk(|s.fields|, s.own, t, s.pcs[t])
    requires s.pcs[t].MidCas? || s.pcs[t].FinalLoad? || s.pcs[t].FinalCas?
    ensures var s' := Step(s, t, Go);
      |s'.fields| == |s.fields| && PcIn(|s'.fields|, s'.pcs[t]) && Left(s'.fields, s'.pcs[t]) < Left(s.fields, s.pcs[t])
  {
    hide Part, And, Later, MarkRow, Or, Rename;
    LaterBase(|s.fields|, s.pcs[t].c.retries);
  }

  lemma BackNearer(s: State, t: Tid)
    requires t in s.pcs && |s.own| == |s.fields| && PcIn(|s.fields|, s.pcs[t]) && PcOk(|s.fields|, s.own, t, s.pcs[t])
    requires var pc := s.pcs[t]; pc.MidStore? || pc.BackLoad? || pc.BackCas? || pc.UnclaimAnd?
    ensures var s' := Step(s, t, Go);
      |s'.fields| == |s.fields| && PcIn(|s'.fields|, s'.pcs[t]) && Left(s'.fields, s'.pcs[t]) < Left(s.fields, s.pcs[t])
  {
    hide Part, And, Later, MarkRow, AndNot, Owns;
    if !s.pcs[t].UnclaimAnd? { LaterBase(|s.fields|, s.pcs[t].c.retries); }
  }

  ghost predicate Finishes(s: State, t: Tid) {
    exists n: nat :: t in Alone(s, t, n).pcs && Alone(s, t, n).pcs[t].Idle?
  }

  // So a claim or unclaim, in whatever state other threads have left it, ends once its thread runs undisturbed.
  lemma Ends(s: State, t: Tid)
    requires Inv(s) && t in s.pcs
    ensures Finishes(s, t)
  {
    PcWithin(s, t);
    hide Inv, Left, PcIn, Finishes;
    EndsIn(s, t, Left(s.fields, s.pcs[t]));
  }

  lemma {:induction false} EndsIn(s: State, t: Tid, k: nat)
    requires Inv(s) && t in s.pcs && PcIn(|s.fields|, s.pcs[t]) && Left(s.fields, s.pcs[t]) <= k
    ensures Finishes(s, t)
    decreases k
  {
    hide Inv, PcIn, Step;
    if s.pcs[t].Idle? {
      assert Alone(s, t, 0) == s;
    } else {
      hide Left;
      StepInv(s, t, Go);
      Nearer(s, t);
      var s' := Step(s, t, Go);
      EndsIn(s', t, k - 1);
      var n: nat :| t in Alone(s', t, n).pcs && Alone(s', t, n).pcs[t].Idle?;
      assert Alone(s, t, n + 1) == Alone(s', t, n);
    }
  }

  // ---- in every interleaving

  // Why a claim may come back empty-handed: nothing fitted in its field from where it was, no run of zeros led out
  // of its field, its scan met a set bit, or it has lost to other threads five times.
  ghost predicate Reason(fields: seq<Word>, pc: Pc) {
    match pc
    case FieldLoad(idx, count) => idx < |fields| && forall b: nat :: !Free(fields[idx], b, count)
    case FieldCas(idx, count, from, _) => idx < |fields| && forall b: nat | from <= b :: !Free(fields[idx], b, count)
    case AcrossLoad(idx, count, _) => idx < |fields| && forall b: nat :: !Crossing(fields, idx, b, count)
    case ScanLoad(c, _) => !Clear(fields, c.p, c.count)
    case InitLoad(c) => c.retries >= 4 && !Clear(fields, c.p, c.count)
    case InitCas(c, _) => c.retries >= 4 && !Clear(fields, c.p, c.count)
    case BackCas(c, _) => c.retries >= 4
    case _ => false
  }

  lemma GivesUp(s: State, t: Tid, a: Act)
    requires Inv(s) && t in s.pcs && !s.pcs[t].Idle? && !s.pcs[t].UnclaimAnd? && ClaimedBy(s, t, a).None?
    ensures |s.own| == |s.fields| && t in Step(s, t, a).pcs
    ensures Step(s, t, a).pcs[t].Idle? ==> Reason(s.fields, s.pcs[t])
  {
    PcWithin(s, t);
    hide Inv, Owns, MarkRow, Rename, Tries, Sync, Threads, Known;
    if s.pcs[t].FieldLoad? || s.pcs[t].FieldCas? || s.pcs[t].AcrossLoad? { EarlyReason(s, t, a); }
    else { LateReason(s, t, a); }
  }

  lemma EarlyReason(s: State, t: Tid, a: Act)
    requires t in s.pcs && |s.own| == |s.fields| && PcOk(|s.fields|, s.own, t, s.pcs[t])
    requires (s.pcs[t].FieldLoad? || s.pcs[t].FieldCas? || s.pcs[t].AcrossLoad?) && ClaimedBy(s, t, a).None?
    ensures t in Step(s, t, a).pcs && (Step(s, t, a).pcs[t].Idle? ==> Reason(s.fields, s.pcs[t]))
  {
    hide Owns, MarkRow, Rename, FieldNext, AcrossNext;
    match s.pcs[t]
    case FieldLoad(idx, count) => NoFitFrom(s.fields[idx], idx, count, 0);
    case FieldCas(idx, count, from, word) => FreeFits(word, from, count); NoFitFrom(s.fields[idx], idx, count, from);
    case AcrossLoad(idx, count, retries) => NoCrossing(s.fields, idx, count, retries);
  }

  lemma LateReason(s: State, t: Tid, a: Act)
    requires t in s.pcs && |s.own| == |s.fields| && PcIn(|s.fields|, s.pcs[t]) && ClaimedBy(s, t, a).None?
    requires PcOk(|s.fields|, s.own, t, s.pcs[t])
    requires !s.pcs[t].Idle? && !s.pcs[t].FieldLoad? && !s.pcs[t].FieldCas? && !s.pcs[t].AcrossLoad?
      && !s.pcs[t].UnclaimAnd?
    ensures t in Step(s, t, a).pcs && (Step(s, t, a).pcs[t].Idle? ==> Reason(s.fields, s.pcs[t]))
  {
    hide Owns, MarkRow, Rename, Part, And, Clear;
    if Step(s, t, a).pcs[t].Idle? {
      match s.pcs[t]
      case ScanLoad(c, field) => NotClear(s.fields, c.p, c.count, field);
      case InitLoad(c) => NotClear(s.fields, c.p, c.count, c.idx);
      case InitCas(c, _) => NotClear(s.fields, c.p, c.count, c.idx);
      case _ =>
    }
  }

  lemma NoFitFrom(word: Word, idx: nat, count: nat, from: nat)
    ensures FieldNext(idx, count, from, word).Idle? ==> forall b: nat | from <= b :: !Free(word, b, count)
  {
    forall b: nat | from <= b && FieldNext(idx, count, from, word).Idle? ensures !Free(word, b, count) {
      if Free(word, b, count) { FitAfter(word, count, from, b); }
    }
  }

  lemma {:induction false} FitAfter(word: Word, count: nat, from: nat, b: nat)
    requires Free(word, b, count) && from <= b
    ensures exists s: nat :: FitFrom(word, count, from, s)
    decreases b
  {
    if r: nat :| from <= r < b && Free(word, r, count) { FitAfter(word, count, from, r); }
    else { assert FitFrom(word, count, from, b); }
  }

  lemma NoCrossing(m: seq<Word>, idx: nat, count: nat, retries: nat)
    requires idx < |m| && count > 0
    ensures AcrossNext(|m|, idx, count, retries, m[idx]).Idle? ==> forall b: nat :: !Crossing(m, idx, b, count)
  {
    var zeros := Clz(m[idx]);
    if AcrossNext(|m|, idx, count, retries, m[idx]).Idle? {
      CrossingNeeds(m, idx, count, zeros);
      if zeros > 0 { NoRoom(m, IndexCreate(idx, FIELD_BITS - zeros), count, idx, zeros); }
    }
  }

  // Thread t's own step gives bit i back.
  ghost predicate GivesBack(s: State, step: (Tid, Act), s': State, t: Tid, i: nat) {
    && step.0 == t && i / FIELD_BITS < |s.fields| == |s'.fields|
    && HeldAt(s.own, i / FIELD_BITS, i % FIELD_BITS, t) && s.fields[i / FIELD_BITS][i % FIELD_BITS]
    && !s'.fields[i / FIELD_BITS][i % FIELD_BITS]
  }

  // It does so somewhere between states i and j.
  ghost predicate GaveBack(states: seq<State>, steps: Schedule, i: nat, j: nat, t: Tid, b: nat)
    requires |states| == |steps| + 1 && j < |states|
  {
    exists m: nat :: i < m < j && GivesBack(states[m], steps[m], states[m + 1], t, b)
  }

  lemma GaveMore(states: seq<State>, steps: Schedule, i: nat, j: nat, t: Tid, b: nat)
    requires |states| == |steps| + 1 && j + 1 < |states| && GaveBack(states, steps, i, j, t, b)
    ensures GaveBack(states, steps, i, j + 1, t, b)
  {
    var m: nat :| i < m < j && GivesBack(states[m], steps[m], states[m + 1], t, b);
  }

  // How far a thread has got that began to unclaim [bit, bit + count).
  ghost function Done(pc: Pc, bit: nat, count: nat): nat {
    if pc.UnclaimAnd? then pc.field * FIELD_BITS else bit + count
  }

  // In every interleaving: once an unclaim has come to its end, its thread has itself given back every bit of the
  // range, each of them set until then.
  lemma {:induction false} UnclaimClears(states: seq<State>, steps: Schedule, i: nat, j: nat, t: Tid, bit: nat,
                                         count: nat)
    requires IsRun(states, steps) && i < j < |states| && t in states[i].pcs
    requires steps[i] == (t, StartUnclaim(bit, count)) && GivenBy(states[i], t, steps[i].1).Some?
    requires forall m: nat | i < m < j :: t in states[m].pcs && !states[m].pcs[t].Idle?
    ensures t in states[j].pcs
    ensures var pc := states[j].pcs[t]; pc.Idle? || (pc.UnclaimAnd? && pc.bit == bit && pc.count == count)
    ensures forall b: nat | bit <= b < bit + count && b < Done(states[j].pcs[t], bit, count) ::
      GaveBack(states, steps, i, j, t, b)
    decreases j
  {
    hide Step, Inv, Init;
    var s := states[j - 1];
    RunInv(states, steps, j - 1);
    assert Stepped(s, steps[j - 1], states[j]);
    ThreadFacts(s, steps[j - 1].0);
    if j == i + 1 {
      GivenStep(s, t, steps[i].1);
      IndexStart(bit);
    } else {
      UnclaimClears(states, steps, i, j - 1, t, bit, count);
      if steps[j - 1].0 == t {
        ThreadFacts(s, t);
        FieldGoes(s, steps[j - 1].1, t, bit, count);
        forall b: nat | bit <= b < bit + count && b < Done(states[j].pcs[t], bit, count)
          ensures GaveBack(states, steps, i, j, t, b)
        {
          if b >= Done(s.pcs[t], bit, count) {
            assert GivesBack(states[j - 1], steps[j - 1], states[j], t, b);
          } else {
            GaveMore(states, steps, i, j - 1, t, b);
          }
        }
      } else {
        OthersStay(s, steps[j - 1].0, steps[j - 1].1, t);
        forall b: nat | bit <= b < bit + count && b < Done(states[j].pcs[t], bit, count)
          ensures GaveBack(states, steps, i, j, t, b)
        {
          GaveMore(states, steps, i, j - 1, t, b);
        }
      }
    }
  }

  lemma OthersStay(s: State, u: Tid, a: Act, t: Tid)
    requires Inv(s) && u in s.pcs && t in s.pcs && t != u
    ensures |s.own| == |s.fields| && t in Step(s, u, a).pcs && Step(s, u, a).pcs[t] == s.pcs[t]
  {
    ThreadFacts(s, u);
    hide Inv, Owns;
    if GivenBy(s, u, a).Some? { GivenStep(s, u, a); } else { RestShrinks(s, u, a); }
  }

  // One field of the range.
  lemma FieldGoes(s: State, a: Act, t: Tid, bit: nat, count: nat)
    requires Inv(s) && t in s.pcs && s.pcs[t].UnclaimAnd? && s.pcs[t].bit == bit && s.pcs[t].count == count
    ensures |s.own| == |s.fields| && t in Step(s, t, a).pcs
    ensures var pc := Step(s, t, a).pcs[t]; pc.Idle? || (pc.UnclaimAnd? && pc.bit == bit && pc.count == count)
    ensures forall b: nat | bit <= b < bit + count
      && Done(s.pcs[t], bit, count) <= b < Done(Step(s, t, a).pcs[t], bit, count) ::
      GivesBack(s, (t, a), Step(s, t, a), t, b)
  {
    ThreadFacts(s, t);
    var pc, s' := s.pcs[t], Step(s, t, a);
    forall b: nat | bit <= b < bit + count && Done(pc, bit, count) <= b < Done(s'.pcs[t], bit, count)
      ensures GivesBack(s, (t, a), s', t, b)
    {
      BitSplit(|s.fields|, b);
      var f, k := b / FIELD_BITS, b % FIELD_BITS;
      assert f == pc.field && s.own[f][k] == Some(Held(t));
      assert s.fields[f][k] && Part(bit, count, f)[k];
    }
  }
}
