// Every set bit has exactly one owner, in every interleaving of claims and unclaims (bitmap.c).
module BitmapSharedInv {
  import opened Base
  import opened Words
  import opened Bitmap
  import opened BitmapShared

  // ---- frames

  ghost predicate SameShape(own: Owners, own': Owners) {
    |own| == |own'| && forall f | 0 <= f < |own| :: |own[f]| == |own'[f]|
  }

  // The bits of u are the same before and after.
  ghost predicate Keeps(own: Owners, own': Owners, u: Tid) {
    && SameShape(own, own')
    && forall f: nat, k: nat {:trigger own'[f][k]} | f < |own| && k < |own[f]| ::
      (own[f][k] == Some(Trying(u)) <==> own'[f][k] == Some(Trying(u)))
        && (own[f][k] == Some(Held(u)) <==> own'[f][k] == Some(Held(u)))
  }

  // Leftover bits are the same before and after.
  ghost predicate LeftKept(own: Owners, own': Owners) {
    && SameShape(own, own')
    && forall f: nat, k: nat {:trigger own'[f][k]} | f < |own| && k < |own[f]| ::
         own[f][k] == Some(Leftover) <==> own'[f][k] == Some(Leftover)
  }

  lemma OtherOk(n: nat, own: Owners, own': Owners, u: Tid, pc: Pc)
    requires ThreadOk(n, own, u, pc) && Keeps(own, own', u)
    ensures ThreadOk(n, own', u, pc)
  {
    forall f: nat, k: nat | f < |own'| && k < |own'[f]|
      ensures own'[f][k] == Some(Trying(u)) <==> Lo(pc) <= f * FIELD_BITS + k < Hi(pc)
    {
      assert own[f][k] == Some(Trying(u)) <==> Lo(pc) <= f * FIELD_BITS + k < Hi(pc);
    }
    match pc
    case UnclaimAnd(bit, count, field) =>
      var lo := if bit > field * FIELD_BITS then bit else field * FIELD_BITS;
      forall f: nat, k: nat | f < |own'| && k < |own'[f]| && lo <= f * FIELD_BITS + k < bit + count
        ensures own'[f][k] == Some(Held(u))
      {
        assert own[f][k] == Some(Held(u));
      }
    case _ =>
  }

  lemma ThreadsStep(n: nat, own: Owners, own': Owners, pcs: map<Tid, Pc>, t: Tid, pc: Pc)
    requires Threads(n, own, pcs) && t in pcs && ThreadOk(n, own', t, pc)
    requires forall u | u in pcs && u != t :: Keeps(own, own', u)
    ensures Threads(n, own', pcs[t := pc])
  {
    hide ThreadOk, Keeps;
    var pcs' := pcs[t := pc];
    forall u | u in pcs' ensures ThreadOk(n, own', u, pcs'[u]) {
      if u != t { assert ThreadOk(n, own, u, pcs[u]); OtherOk(n, own, own', u, pcs[u]); }
    }
  }

  lemma KeepsSelf(own: Owners, u: Tid)
    ensures Keeps(own, own, u)
  {}

  lemma JumpInv(s: State, t: Tid, pc: Pc)
    requires Inv(s) && t in s.pcs && PcOk(|s.fields|, s.own, t, pc)
    requires (Lo(pc) == Lo(s.pcs[t]) && Hi(pc) == Hi(s.pcs[t])) || (Lo(pc) >= Hi(pc) && Lo(s.pcs[t]) >= Hi(s.pcs[t]))
    ensures Inv(Jump(s, t, pc))
    ensures LeftKept(s.own, Jump(s, t, pc).own)
  {
    assert ThreadOk(|s.fields|, s.own, t, s.pcs[t]);
    assert ThreadOk(|s.fields|, s.own, t, pc);
    hide ThreadOk, Sync;
    forall u | u in s.pcs && u != t ensures Keeps(s.own, s.own, u) { KeepsSelf(s.own, u); }
    ThreadsStep(|s.fields|, s.own, s.own, s.pcs, t, pc);
    hide Threads;
  }

  // The bits of `part` belong to nobody, or to t.
  ghost predicate Free2(row: seq<Option<Owner>>, part: Word, t: Tid) {
    |row| == FIELD_BITS && forall k | 0 <= k < FIELD_BITS && part[k] :: row[k] in {None, Some(Trying(t)), Some(Held(t))}
  }

  lemma PutInv(s: State, t: Tid, f: nat, part: Word, v: Option<Owner>, pc: Pc)
    requires Inv(s) && t in s.pcs && f < |s.fields| && Free2(s.own[f], part, t)
      && v in {None, Some(Trying(t)), Some(Held(t))}
    requires ThreadOk(|s.fields|, s.own[f := MarkRow(s.own[f], part, v)], t, pc)
    ensures Inv(Put(s, t, f, part, v, pc))
    ensures LeftKept(s.own, Put(s, t, f, part, v, pc).own)
  {
    var own' := s.own[f := MarkRow(s.own[f], part, v)];
    PutSync(s, t, f, part, v, pc);
    PutLeft(s, t, f, part, v);
    hide ThreadOk;
    forall u | u in s.pcs && u != t ensures Keeps(s.own, own', u) { PutKeeps(s, t, f, part, v, u); }
    ThreadsStep(|s.fields|, s.own, own', s.pcs, t, pc);
    hide Threads, Sync;
    PutKnown(s.own, s.pcs, t, f, part, v, pc);
    hide Known, LeftKept;
  }

  lemma PutSync(s: State, t: Tid, f: nat, part: Word, v: Option<Owner>, pc: Pc)
    requires Sync(s.fields, s.own) && t in s.pcs && f < |s.fields|
    ensures Sync(Put(s, t, f, part, v, pc).fields, Put(s, t, f, part, v, pc).own)
  {
    var s' := Put(s, t, f, part, v, pc);
    forall g: nat, k: nat | g < |s'.fields| && k < FIELD_BITS ensures s'.fields[g][k] <==> s'.own[g][k].Some? {
      assert s.fields[g][k] <==> s.own[g][k].Some?;
    }
  }

  lemma PutKeeps(s: State, t: Tid, f: nat, part: Word, v: Option<Owner>, u: Tid)
    requires Sync(s.fields, s.own) && f < |s.fields| && Free2(s.own[f], part, t)
      && v in {None, Some(Trying(t)), Some(Held(t))} && u != t
    ensures Keeps(s.own, s.own[f := MarkRow(s.own[f], part, v)], u)
  {}

  lemma PutLeft(s: State, t: Tid, f: nat, part: Word, v: Option<Owner>)
    requires Sync(s.fields, s.own) && f < |s.fields| && Free2(s.own[f], part, t)
      && v in {None, Some(Trying(t)), Some(Held(t))}
    ensures LeftKept(s.own, s.own[f := MarkRow(s.own[f], part, v)])
  {}

  lemma PutKnown(own: Owners, pcs: map<Tid, Pc>, t: Tid, f: nat, part: Word, v: Option<Owner>, pc: Pc)
    requires Known(own, pcs) && t in pcs && f < |own| && |own[f]| == FIELD_BITS
      && v in {None, Some(Trying(t)), Some(Held(t))}
    ensures Known(own[f := MarkRow(own[f], part, v)], pcs[t := pc])
  {
    var own' := own[f := MarkRow(own[f], part, v)];
    forall g: nat, k: nat | g < |own'| && k < |own'[g]| ensures KnownOwner(own'[g][k], pcs[t := pc]) {
      assert KnownOwner(own[g][k], pcs);
    }
  }

  // Bits that read as zero have no owner.
  lemma ZeroFree(s: State, t: Tid, f: nat, part: Word)
    requires Inv(s) && f < |s.fields| && And(s.fields[f], part) == Zero()
    ensures Free2(s.own[f], part, t)
  {
    forall k: nat | k < FIELD_BITS && part[k] ensures s.own[f][k] == None {
      assert !And(s.fields[f], part)[k];
      assert !s.fields[f][k];
    }
  }

  ghost predicate In(lo: nat, hi: nat, i: nat) { lo <= i < hi }

  // Marking a part of field f moves the bits a thread is trying from [lo, hi) to [lo', hi').
  lemma TriesMark(own: Owners, t: Tid, f: nat, part: Word, v: Option<Owner>, lo: nat, hi: nat, lo': nat, hi': nat)
    requires Tries(own, t, lo, hi) && f < |own| && (forall g | 0 <= g < |own| :: |own[g]| == FIELD_BITS)
    requires forall k: nat | k < FIELD_BITS ::
      (if part[k] then v == Some(Trying(t)) else lo <= f * FIELD_BITS + k < hi) <==> lo' <= f * FIELD_BITS + k < hi'
    requires forall i: nat :: In(f * FIELD_BITS, (f + 1) * FIELD_BITS, i) || (In(lo, hi, i) <==> In(lo', hi', i))
    ensures Tries(own[f := MarkRow(own[f], part, v)], t, lo', hi')
  {
    var own' := own[f := MarkRow(own[f], part, v)];
    forall g: nat, k: nat | g < |own'| && k < |own'[g]|
      ensures own'[g][k] == Some(Trying(t)) <==> lo' <= g * FIELD_BITS + k < hi'
    {
      assert own[g][k] == Some(Trying(t)) <==> lo <= g * FIELD_BITS + k < hi;
      if g != f {
        var i: nat := g * FIELD_BITS + k;
        assert In(lo, hi, i) <==> In(lo', hi', i);
      }
    }
  }

  // ---- steps that only move on

  lemma FitFree(idx: nat, count: nat, b: nat, word: Word)
    ensures var pc := FieldNext(idx, count, b, word);
      pc.Idle? || (pc.FieldCas? && pc == FieldCas(idx, count, pc.b, word) && Free(word, pc.b, count))
  {
    var fit := NextFit(word, count, b);
    if fit.Some? { assert FitFrom(word, count, b, fit.value); }
  }

  lemma AcrossClaim(n: nat, idx: nat, count: nat, retries: nat, word: Word)
    requires idx < n && count > 0
    ensures var pc := AcrossNext(n, idx, count, retries, word);
      pc.Idle? || (pc.FieldLoad? && pc.idx == idx && pc.count == count <= FIELD_BITS)
        || (pc.ScanLoad? && ClaimOk(n, pc.c) && pc.field == pc.c.idx + 1)
  {
    var initial := Clz(word);
    if 0 < initial < count {
      DivideUpBound(count - initial);
    }
  }

  lemma MoveInv(s: State, t: Tid, fails: bool)
    requires Inv(s) && t in s.pcs
    requires var pc := s.pcs[t];
      pc.FieldLoad? || pc.AcrossLoad? || pc.ScanLoad? || pc.InitLoad? || pc.FinalLoad?
        || (pc.FieldCas? && (s.fields[pc.idx] != pc.word || fails))
      || (pc.InitCas? && s.fields[pc.c.idx] != pc.word) || (pc.MidCas? && s.fields[pc.field] != Zero())
      || (pc.FinalCas? && s.fields[pc.c.last] != pc.word)
    ensures Inv(ClaimStep(s, t, fails))
    ensures LeftKept(s.own, ClaimStep(s, t, fails).own)
  {
    hide Inv, LeftKept, Tries, ClaimStep, PcOk;
    ThreadFacts(s, t);
    var pc' := MoveOk(s, t, fails);
    JumpInv(s, t, pc');
  }

  // The step goes on to pc' and concerns no bits.
  ghost predicate MovesTo(s: State, t: Tid, fails: bool, pc': Pc) {
    && t in s.pcs && |s.own| == |s.fields| && ClaimStep(s, t, fails) == Jump(s, t, pc')
    && PcOk(|s.fields|, s.own, t, pc')
    && ((Lo(pc') == Lo(s.pcs[t]) && Hi(pc') == Hi(s.pcs[t])) || (Lo(pc') >= Hi(pc') && Lo(s.pcs[t]) >= Hi(s.pcs[t])))
  }

  lemma MoveOk(s: State, t: Tid, fails: bool) returns (pc': Pc)
    requires t in s.pcs && |s.own| == |s.fields| && PcOk(|s.fields|, s.own, t, s.pcs[t])
    requires var pc := s.pcs[t];
      pc.FieldLoad? || pc.AcrossLoad? || pc.ScanLoad? || pc.InitLoad? || pc.FinalLoad?
        || (pc.FieldCas? && (s.fields[pc.idx] != pc.word || fails))
      || (pc.InitCas? && s.fields[pc.c.idx] != pc.word) || (pc.MidCas? && s.fields[pc.field] != Zero())
      || (pc.FinalCas? && s.fields[pc.c.last] != pc.word)
    ensures MovesTo(s, t, fails, pc')
  {
    hide MovesTo, ClaimStep;
    var pc := s.pcs[t];
    if pc.FieldLoad? || pc.FieldCas? { pc' := FieldMove(s, t, fails); }
    else if pc.AcrossLoad? || pc.ScanLoad? { pc' := LookMove(s, t, fails); }
    else if pc.InitLoad? || pc.InitCas? { pc' := InitMove(s, t, fails); }
    else { pc' := LastMove(s, t, fails); }
  }

  lemma FieldMove(s: State, t: Tid, fails: bool) returns (pc': Pc)
    requires t in s.pcs && |s.own| == |s.fields| && PcOk(|s.fields|, s.own, t, s.pcs[t])
    requires s.pcs[t].FieldLoad? || (s.pcs[t].FieldCas? && (s.fields[s.pcs[t].idx] != s.pcs[t].word || fails))
    ensures MovesTo(s, t, fails, pc')
  {
    hide Part, And, Free, Owns, Rename, MarkRow, Mask, Or, FieldNext, AcrossNext;
    var idx, count := s.pcs[t].idx, s.pcs[t].count;
    var b := if s.pcs[t].FieldCas? then s.pcs[t].b else 0;
    if s.pcs[t].FieldCas? { FreeFits(s.pcs[t].word, b, count); }
    FitFree(idx, count, b, s.fields[idx]);
    pc' := FieldNext(idx, count, b, s.fields[idx]);
  }

  lemma FreeFits(word: Word, b: nat, count: nat)
    requires Free(word, b, count)
    ensures b + count <= FIELD_BITS
  {}

  lemma LookMove(s: State, t: Tid, fails: bool) returns (pc': Pc)
    requires t in s.pcs && |s.own| == |s.fields| && PcOk(|s.fields|, s.own, t, s.pcs[t])
    requires s.pcs[t].AcrossLoad? || s.pcs[t].ScanLoad?
    ensures MovesTo(s, t, fails, pc')
  {
    hide Part, And, Free, Owns, Rename, MarkRow, Mask, Or, FieldNext, AcrossNext;
    pc' := ClaimStep(s, t, fails).pcs[t];
    match s.pcs[t]
    case AcrossLoad(idx, count, retries) => AcrossClaim(|s.fields|, idx, count, retries, s.fields[idx]);
    case ScanLoad(_, _) =>
  }

  lemma InitMove(s: State, t: Tid, fails: bool) returns (pc': Pc)
    requires t in s.pcs && |s.own| == |s.fields| && PcOk(|s.fields|, s.own, t, s.pcs[t])
    requires s.pcs[t].InitLoad? || (s.pcs[t].InitCas? && s.fields[s.pcs[t].c.idx] != s.pcs[t].word)
    ensures MovesTo(s, t, fails, pc')
  {
    hide Part, And, Free, Owns, Rename, MarkRow, Mask, Or, FieldNext, AcrossNext;
    pc' := ClaimStep(s, t, fails).pcs[t];
    assert s.pcs[t].c.idx < |s.fields|;
  }

  lemma LastMove(s: State, t: Tid, fails: bool) returns (pc': Pc)
    requires t in s.pcs && |s.own| == |s.fields| && PcOk(|s.fields|, s.own, t, s.pcs[t])
    requires s.pcs[t].FinalLoad? || (s.pcs[t].MidCas? && s.fields[s.pcs[t].field] != Zero())
      || (s.pcs[t].FinalCas? && s.fields[s.pcs[t].c.last] != s.pcs[t].word)
    ensures MovesTo(s, t, fails, pc')
  {
    hide Part, And, Free, Owns, Rename, MarkRow, Mask, Or, FieldNext, AcrossNext;
    pc' := ClaimStep(s, t, fails).pcs[t];
    match s.pcs[t]
    case MidCas(_, _) =>
    case FinalLoad(_) =>
    case FinalCas(_, _) =>
  }

  // ---- steps that claim bits

  lemma ThreadFacts(s: State, t: Tid)
    requires Inv(s) && t in s.pcs
    ensures PcOk(|s.fields|, s.own, t, s.pcs[t]) && Tries(s.own, t, Lo(s.pcs[t]), Hi(s.pcs[t]))
    ensures |s.own| == |s.fields| && forall f | 0 <= f < |s.own| :: |s.own[f]| == FIELD_BITS
  {
    assert ThreadOk(|s.fields|, s.own, t, s.pcs[t]);
  }

  lemma FieldInv(s: State, t: Tid)
    requires Inv(s) && t in s.pcs && s.pcs[t].FieldCas? && s.fields[s.pcs[t].idx] == s.pcs[t].word
    ensures Inv(ClaimStep(s, t, false))
    ensures LeftKept(s.own, ClaimStep(s, t, false).own)
  {
    var idx, count, b, word := s.pcs[t].idx, s.pcs[t].count, s.pcs[t].b, s.pcs[t].word;
    ThreadFacts(s, t);
    var part, v := Mask(count, b), Some(Held(t));
    MaskedZero(word, count, b);
    ZeroFree(s, t, idx, part);
    TriesMark(s.own, t, idx, part, v, 0, 0, 0, 0);
    hide Inv, Tries;
    PutInv(s, t, idx, part, v, Idle);
  }

  // The part of a claim in its first field, in a field in between, and in its last field.
  lemma ClaimParts(n: nat, c: Claim)
    requires ClaimOk(n, c)
    ensures forall k: nat | k < FIELD_BITS :: InitPart(c)[k] <==> c.p <= c.idx * FIELD_BITS + k
    ensures forall k: nat | k < FIELD_BITS :: LastPart(c)[k] <==> c.last * FIELD_BITS + k < c.p + c.count
  {}

  lemma InitInv(s: State, t: Tid)
    requires Inv(s) && t in s.pcs && s.pcs[t].InitCas? && s.fields[s.pcs[t].c.idx] == s.pcs[t].word
    ensures Inv(ClaimStep(s, t, false))
    ensures LeftKept(s.own, ClaimStep(s, t, false).own)
  {
    var c, n := s.pcs[t].c, |s.fields|;
    ThreadFacts(s, t);
    ClaimParts(n, c);
    var part, v, pc := InitPart(c), Some(Trying(t)), Claimed(c, c.idx);
    ZeroFree(s, t, c.idx, part);
    assert Lo(pc) == c.p && Hi(pc) == (c.idx + 1) * FIELD_BITS && PcOk(n, s.own, t, pc);
    hide Inv, Part, Free2, And;
    TriesMark(s.own, t, c.idx, part, v, 0, 0, c.p, (c.idx + 1) * FIELD_BITS);
    PcKept(n, s.own, s.own[c.idx := MarkRow(s.own[c.idx], part, v)], t, pc);
    PutInv(s, t, c.idx, part, v, pc);
  }

  // Only unclaiming threads know something about owners.
  lemma PcKept(n: nat, own: Owners, own': Owners, t: Tid, pc: Pc)
    requires PcOk(n, own, t, pc) && !pc.UnclaimAnd?
    ensures PcOk(n, own', t, pc)
  {}

  lemma MidInv(s: State, t: Tid)
    requires Inv(s) && t in s.pcs && s.pcs[t].MidCas? && s.fields[s.pcs[t].field] == Zero()
    ensures Inv(ClaimStep(s, t, false))
    ensures LeftKept(s.own, ClaimStep(s, t, false).own)
  {
    var c, field, n := s.pcs[t].c, s.pcs[t].field, |s.fields|;
    ThreadFacts(s, t);
    var part, v, pc := Ones(), Some(Trying(t)), Claimed(c, field);
    assert And(s.fields[field], part) == Zero();
    ZeroFree(s, t, field, part);
    assert Lo(pc) == c.p && Hi(pc) == (field + 1) * FIELD_BITS && PcOk(n, s.own, t, pc);
    hide Inv, Part, Free2, And;
    TriesMark(s.own, t, field, part, v, c.p, field * FIELD_BITS, c.p, (field + 1) * FIELD_BITS);
    PcKept(n, s.own, s.own[field := MarkRow(s.own[field], part, v)], t, pc);
    PutInv(s, t, field, part, v, pc);
  }

  // The claim is complete: what the thread was trying becomes its own.
  lemma FinalInv(s: State, t: Tid)
    requires Inv(s) && t in s.pcs && s.pcs[t].FinalCas? && s.fields[s.pcs[t].c.last] == s.pcs[t].word
    ensures Inv(ClaimStep(s, t, false))
    ensures LeftKept(s.own, ClaimStep(s, t, false).own)
    ensures Owns(ClaimStep(s, t, false).own, s.pcs[t].c.p, s.pcs[t].c.p + s.pcs[t].c.count, Held(t))
  {
    hide Inv, Sync, Threads, Known, Keeps, Free2, Tries, LeftKept, Rename, Part, MarkRow, Or, Owns, ThreadOk;
    var c, n := s.pcs[t].c, |s.fields|;
    ThreadFacts(s, t);
    var part, v := LastPart(c), Some(Trying(t));
    ZeroFree(s, t, c.last, part);
    FinalTries(s.own, t, n, c);
    var own1 := s.own[c.last := MarkRow(s.own[c.last], part, v)];
    var own2 := Rename(own1, c.p, c.p + c.count, Held(t));
    FinalRest(s, t, c, own1, own2);
    RenameTried(own1, t, c.p, c.p + c.count);
    assert ClaimStep(s, t, false) == State(s.fields[c.last := Or(s.fields[c.last], part)], own2, s.pcs[t := Idle]);
    IdleOk(n, own2, t);
    FinalThreads(s, t, n, own2);
    InvParts(ClaimStep(s, t, false));
  }

  lemma FinalThreads(s: State, t: Tid, n: nat, own2: Owners)
    requires Inv(s) && t in s.pcs && n == |s.fields| && ThreadOk(n, own2, t, Idle)
      && forall u | u in s.pcs && u != t :: Keeps(s.own, own2, u)
    ensures Threads(n, own2, s.pcs[t := Idle])
  {
    ThreadsStep(n, s.own, own2, s.pcs, t, Idle);
  }

  lemma InvParts(s: State)
    ensures Inv(s) <==> Sync(s.fields, s.own) && Threads(|s.fields|, s.own, s.pcs) && Known(s.own, s.pcs)
  {
    hide Sync, Threads, Known;
  }

  lemma IdleOk(n: nat, own: Owners, t: Tid)
    requires Tries(own, t, 0, 0)
    ensures ThreadOk(n, own, t, Idle)
  {}

  lemma FinalRest(s: State, t: Tid, c: Claim, own1: Owners, own2: Owners)
    requires Inv(s) && t in s.pcs && c.last < |s.fields| && |s.own| == |s.fields|
      && Free2(s.own[c.last], LastPart(c), t)
    requires own1 == s.own[c.last := MarkRow(s.own[c.last], LastPart(c), Some(Trying(t)))]
      && Tries(own1, t, c.p, c.p + c.count)
    requires own2 == Rename(own1, c.p, c.p + c.count, Held(t))
    ensures Sync(s.fields[c.last := Or(s.fields[c.last], LastPart(c))], own2) && Known(own2, s.pcs[t := Idle])
    ensures (forall u | u in s.pcs && u != t :: Keeps(s.own, own2, u)) && LeftKept(s.own, own2)
  {
    hide Inv, Sync, Threads, Known, Keeps, Free2, Tries, LeftKept, Rename, Part, MarkRow, Or;
    InvParts(s);
    var part, v := LastPart(c), Some(Trying(t));
    PutLeft(s, t, c.last, part, v);
    RenameLeft(own1, t, c.p, c.p + c.count);
    LeftTrans(s.own, own1, own2);
    PutSync(s, t, c.last, part, v, Idle);
    RowSize(s, c.last);
    PutKnown(s.own, s.pcs, t, c.last, part, v, Idle);
    forall u | u in s.pcs && u != t ensures Keeps(s.own, own2, u) {
      PutKeeps(s, t, c.last, part, v, u);
      RenameKeeps(own1, t, c.p, c.p + c.count, u);
      KeepsTrans(s.own, own1, own2, u);
    }
    RenameSync(s.fields[c.last := Or(s.fields[c.last], part)], own1, t, c.p, c.p + c.count);
    RenameKnown(own1, s.pcs[t := Idle], t, c.p, c.p + c.count);
  }

  lemma RowSize(s: State, f: nat)
    requires Sync(s.fields, s.own) && f < |s.own|
    ensures |s.own[f]| == FIELD_BITS
  {}

  lemma FinalTries(own: Owners, t: Tid, n: nat, c: Claim)
    requires ClaimOk(n, c) && |own| == n && (forall f | 0 <= f < |own| :: |own[f]| == FIELD_BITS)
    requires Tries(own, t, c.p, c.last * FIELD_BITS)
    ensures Tries(own[c.last := MarkRow(own[c.last], LastPart(c), Some(Trying(t)))], t, c.p, c.p + c.count)
  {
    ClaimParts(n, c);
    hide Part;
    TriesMark(own, t, c.last, LastPart(c), Some(Trying(t)), c.p, c.last * FIELD_BITS, c.p, c.p + c.count);
  }

  lemma RenameTried(own: Owners, t: Tid, lo: nat, hi: nat)
    requires Tries(own, t, lo, hi)
    ensures Tries(Rename(own, lo, hi, Held(t)), t, 0, 0) && Owns(Rename(own, lo, hi, Held(t)), lo, hi, Held(t))
  {
    var own' := Rename(own, lo, hi, Held(t));
    forall f: nat, k: nat | f < |own'| && k < |own'[f]| ensures own'[f][k] != Some(Trying(t)) {
      assert own[f][k] == Some(Trying(t)) <==> lo <= f * FIELD_BITS + k < hi;
    }
  }

  lemma RenameSync(fields: seq<Word>, own: Owners, t: Tid, lo: nat, hi: nat)
    requires Sync(fields, own) && Tries(own, t, lo, hi)
    ensures Sync(fields, Rename(own, lo, hi, Held(t)))
  {
    var own': Owners := Rename(own, lo, hi, Held(t));
    forall f: nat, k: nat | f < |fields| && k < FIELD_BITS ensures fields[f][k] <==> own'[f][k].Some? {
      assert own[f][k] == Some(Trying(t)) <==> lo <= f * FIELD_BITS + k < hi;
    }
  }

  lemma RenameKeeps(own: Owners, t: Tid, lo: nat, hi: nat, u: Tid)
    requires Tries(own, t, lo, hi) && u != t
    ensures Keeps(own, Rename(own, lo, hi, Held(t)), u)
  {
    var own' := Rename(own, lo, hi, Held(t));
    forall f: nat, k: nat | f < |own| && k < |own[f]|
      ensures (own[f][k] == Some(Trying(u)) <==> own'[f][k] == Some(Trying(u)))
        && (own[f][k] == Some(Held(u)) <==> own'[f][k] == Some(Held(u)))
    {
      assert own[f][k] == Some(Trying(t)) <==> lo <= f * FIELD_BITS + k < hi;
    }
  }

  lemma KeepsTrans(own: Owners, own1: Owners, own2: Owners, u: Tid)
    requires Keeps(own, own1, u) && Keeps(own1, own2, u)
    ensures Keeps(own, own2, u)
  {
    forall f: nat, k: nat | f < |own| && k < |own[f]|
      ensures (own[f][k] == Some(Trying(u)) <==> own2[f][k] == Some(Trying(u)))
        && (own[f][k] == Some(Held(u)) <==> own2[f][k] == Some(Held(u)))
    {
      assert (own[f][k] == Some(Trying(u)) <==> own1[f][k] == Some(Trying(u)))
        && (own[f][k] == Some(Held(u)) <==> own1[f][k] == Some(Held(u)));
    }
  }

  lemma RenameLeft(own: Owners, t: Tid, lo: nat, hi: nat)
    requires Tries(own, t, lo, hi)
    ensures LeftKept(own, Rename(own, lo, hi, Held(t)))
  {
    var own': Owners := Rename(own, lo, hi, Held(t));
    forall f: nat, k: nat | f < |own| && k < |own[f]|
      ensures own[f][k] == Some(Leftover) <==> own'[f][k] == Some(Leftover)
    {
      assert own[f][k] == Some(Trying(t)) <==> lo <= f * FIELD_BITS + k < hi;
    }
  }

  lemma LeftTrans(own: Owners, own1: Owners, own2: Owners)
    requires LeftKept(own, own1) && LeftKept(own1, own2)
    ensures LeftKept(own, own2)
  {
    forall f: nat, k: nat | f < |own| && k < |own[f]|
      ensures own[f][k] == Some(Leftover) <==> own2[f][k] == Some(Leftover)
    {
      assert own[f][k] == Some(Leftover) <==> own1[f][k] == Some(Leftover);
    }
  }

  lemma RenameKnown(own: Owners, pcs: map<Tid, Pc>, t: Tid, lo: nat, hi: nat)
    requires Known(own, pcs) && t in pcs
    ensures Known(Rename(own, lo, hi, Held(t)), pcs)
  {
    var own' := Rename(own, lo, hi, Held(t));
    forall g: nat, k: nat | g < |own'| && k < |own'[g]|
      ensures KnownOwner(own'[g][k], pcs)
    {
      assert KnownOwner(own[g][k], pcs);
    }
  }

  // ---- steps that give bits back

  // The bits of field f in [lo, hi) belong to the thread that tries them.
  lemma TriedFree(own: Owners, t: Tid, f: nat, part: Word, lo: nat, hi: nat)
    requires Tries(own, t, lo, hi) && f < |own| && |own[f]| == FIELD_BITS
    requires forall k: nat | k < FIELD_BITS && part[k] :: lo <= f * FIELD_BITS + k < hi
    ensures Free2(own[f], part, t) && forall k: nat | k < FIELD_BITS && part[k] :: own[f][k] == Some(Trying(t))
  {
    forall k: nat | k < FIELD_BITS && part[k] ensures own[f][k] == Some(Trying(t)) {
      assert own[f][k] == Some(Trying(t)) <==> lo <= f * FIELD_BITS + k < hi;
    }
  }

  lemma StoreInv(s: State, t: Tid)
    requires Inv(s) && t in s.pcs && s.pcs[t].MidStore?
    ensures Inv(BackStep(s, t))
    ensures LeftKept(s.own, BackStep(s, t).own)
    ensures s.pcs[t].field < |s.fields| && s.fields[s.pcs[t].field] == Ones()
  {
    var c, field, n := s.pcs[t].c, s.pcs[t].field, |s.fields|;
    ThreadFacts(s, t);
    var pc, own' := Rollback(c, field), s.own[field := MarkRow(s.own[field], Ones(), None)];
    TriedFree(s.own, t, field, Ones(), c.p, (field + 1) * FIELD_BITS);
    assert AndNot(s.fields[field], Ones()) == Zero();
    assert s.fields[field] == Ones() by {
      forall k: nat | k < FIELD_BITS ensures s.fields[field][k] { assert s.own[field][k].Some?; }
    }
    assert Lo(pc) == c.p && Hi(pc) == field * FIELD_BITS && PcOk(n, s.own, t, pc);
    hide Inv, Part, Free2;
    TriesMark(s.own, t, field, Ones(), None, c.p, (field + 1) * FIELD_BITS, c.p, field * FIELD_BITS);
    PcKept(n, s.own, own', t, pc);
    PutInv(s, t, field, Ones(), None, pc);
  }

  lemma BackInv(s: State, t: Tid)
    requires Inv(s) && t in s.pcs && (s.pcs[t].BackLoad? || s.pcs[t].BackCas?)
    ensures Inv(BackStep(s, t))
    ensures LeftKept(s.own, BackStep(s, t).own)
  {
    var c, n := s.pcs[t].c, |s.fields|;
    ThreadFacts(s, t);
    if s.pcs[t].BackCas? && s.fields[c.idx] == s.pcs[t].word {
      BackDone(s, t);
    } else {
      hide Inv, Tries;
      JumpInv(s, t, BackCas(c, s.fields[c.idx]));
    }
  }

  lemma BackDone(s: State, t: Tid)
    requires Inv(s) && t in s.pcs && s.pcs[t].BackCas? && s.pcs[t].c.idx < |s.fields|
      && s.fields[s.pcs[t].c.idx] == s.pcs[t].word
    ensures Inv(BackStep(s, t))
    ensures LeftKept(s.own, BackStep(s, t).own)
  {
    var c, n := s.pcs[t].c, |s.fields|;
    ThreadFacts(s, t);
    ClaimParts(n, c);
    var part, pc := InitPart(c), Retry(c);
    TriedFree(s.own, t, c.idx, part, c.p, (c.idx + 1) * FIELD_BITS);
    assert Lo(pc) == 0 && Hi(pc) == 0 && PcOk(n, s.own, t, pc);
    hide Inv, Part, Free2;
    TriesMark(s.own, t, c.idx, part, None, c.p, (c.idx + 1) * FIELD_BITS, 0, 0);
    PcKept(n, s.own, s.own[c.idx := MarkRow(s.own[c.idx], part, None)], t, pc);
    PutInv(s, t, c.idx, part, None, pc);
  }

  // The bits a thread unclaims in this field were all set, and its own.
  lemma UnclaimInv(s: State, t: Tid)
    requires Inv(s) && t in s.pcs && s.pcs[t].UnclaimAnd?
    ensures Inv(BackStep(s, t))
    ensures LeftKept(s.own, BackStep(s, t).own)
    ensures s.pcs[t].field < |s.fields|
    ensures var part := Part(s.pcs[t].bit, s.pcs[t].count, s.pcs[t].field); And(s.fields[s.pcs[t].field], part) == part
  {
    var bit, count, field, n := s.pcs[t].bit, s.pcs[t].count, s.pcs[t].field, |s.fields|;
    ThreadFacts(s, t);
    var part, pc := Part(bit, count, field), UnclaimNext(bit, count, field);
    forall k: nat | k < FIELD_BITS && part[k] ensures s.own[field][k] == Some(Held(t)) && s.fields[field][k] {}
    var own' := s.own[field := MarkRow(s.own[field], part, None)];
    UnclaimRest(n, s.own, t, bit, count, field);
    TriesMark(s.own, t, field, part, None, 0, 0, 0, 0);
    hide Inv, Tries, Part;
    PutInv(s, t, field, part, None, pc);
  }

  lemma UnclaimRest(n: nat, own: Owners, t: Tid, bit: nat, count: nat, field: nat)
    requires PcOk(n, own, t, UnclaimAnd(bit, count, field)) && |own| == n
      && (forall f | 0 <= f < |own| :: |own[f]| == FIELD_BITS)
    ensures PcOk(n, own[field := MarkRow(own[field], Part(bit, count, field), None)], t, UnclaimNext(bit, count, field))
    ensures Lo(UnclaimNext(bit, count, field)) == Hi(UnclaimNext(bit, count, field)) == 0
  {
    var own' := own[field := MarkRow(own[field], Part(bit, count, field), None)];
    if (field + 1) * FIELD_BITS < bit + count {
      forall f: nat, k: nat | f < |own'| && k < |own'[f]|
        && (field + 1) * FIELD_BITS <= f * FIELD_BITS + k < bit + count
        ensures own'[f][k] == Some(Held(t))
      {
        assert f > field && own[f][k] == Some(Held(t));
      }
    }
  }

  // ---- starting, and handing a range over

  lemma StartInv(s: State, t: Tid, a: Act)
    requires Inv(s) && t in s.pcs && s.pcs[t].Idle?
    ensures Inv(StartStep(s, t, a))
    ensures LeftKept(s.own, StartStep(s, t, a).own)
  {
    hide Inv, PcOk, Tries, Owns, LeftKept, Rename;
    ThreadFacts(s, t);
    LeftSelf(s.own);
    match a
    case Pass(bit, count, u) =>
      if u in s.pcs && bit + count <= |s.fields| * FIELD_BITS && Owns(s.own, bit, bit + count, Held(t)) {
        PassInv(s, t, bit, bit + count, u);
      }
    case StartUnclaim(bit, count) =>
      if 0 < count && bit + count <= |s.fields| * FIELD_BITS && Owns(s.own, bit, bit + count, Held(t)) {
        BitSplit(|s.fields|, bit);
        UnclaimStart(|s.fields|, s.own, t, bit, count);
        JumpInv(s, t, UnclaimAnd(bit, count, IndexField(bit)));
      }
    case StartField(idx, count) =>
      if idx < |s.fields| && 0 < count <= FIELD_BITS { LoadOk(s, t, FieldLoad(idx, count)); }
    case StartAcross(idx, count) =>
      if idx < |s.fields| && 0 < count { LoadOk(s, t, AcrossLoad(idx, count, 0)); }
    case _ =>
  }

  lemma LeftSelf(own: Owners)
    ensures LeftKept(own, own)
  {}

  lemma LoadOk(s: State, t: Tid, pc: Pc)
    requires Inv(s) && t in s.pcs && s.pcs[t].Idle? && (pc.FieldLoad? || pc.AcrossLoad?)
    requires pc.idx < |s.fields| && 0 < pc.count && (pc.FieldLoad? ==> pc.count <= FIELD_BITS)
    ensures Inv(Jump(s, t, pc)) && LeftKept(s.own, Jump(s, t, pc).own)
  {
    hide Inv, LeftKept;
    JumpInv(s, t, pc);
  }

  lemma UnclaimStart(n: nat, own: Owners, t: Tid, bit: nat, count: nat)
    requires 0 < count && bit + count <= n * FIELD_BITS && Owns(own, bit, bit + count, Held(t)) && |own| == n
    ensures PcOk(n, own, t, UnclaimAnd(bit, count, IndexField(bit)))
  {
    BitSplit(n, bit);
  }

  lemma PassInv(s: State, t: Tid, lo: nat, hi: nat, u: Tid)
    requires Inv(s) && t in s.pcs && s.pcs[t].Idle? && u in s.pcs && Owns(s.own, lo, hi, Held(t))
    ensures Inv(s.(own := Rename(s.own, lo, hi, Held(u))))
    ensures LeftKept(s.own, (s.(own := Rename(s.own, lo, hi, Held(u)))).own)
  {
    var own', n := Rename(s.own, lo, hi, Held(u)), |s.fields|;
    PassSync(s.fields, s.own, t, lo, hi, u);
    PassLeft(s.own, t, lo, hi, u);
    hide LeftKept;
    RenameKnown(s.own, s.pcs, u, lo, hi);
    forall w | w in s.pcs ensures ThreadOk(n, own', w, s.pcs[w]) {
      assert ThreadOk(n, s.own, w, s.pcs[w]);
      PassThread(n, s.own, t, lo, hi, u, w, s.pcs[w]);
    }
    hide Sync, Known, ThreadOk;
  }

  lemma PassSync(fields: seq<Word>, own: Owners, t: Tid, lo: nat, hi: nat, u: Tid)
    requires Sync(fields, own) && Owns(own, lo, hi, Held(t))
    ensures Sync(fields, Rename(own, lo, hi, Held(u)))
  {
    var own': Owners := Rename(own, lo, hi, Held(u));
    forall f: nat, k: nat | f < |fields| && k < FIELD_BITS ensures fields[f][k] <==> own'[f][k].Some? {
      assert lo <= f * FIELD_BITS + k < hi ==> own[f][k] == Some(Held(t));
    }
  }

  lemma PassLeft(own: Owners, t: Tid, lo: nat, hi: nat, u: Tid)
    requires Owns(own, lo, hi, Held(t))
    ensures LeftKept(own, Rename(own, lo, hi, Held(u)))
  {
    var own': Owners := Rename(own, lo, hi, Held(u));
    forall f: nat, k: nat | f < |own| && k < |own[f]|
      ensures own[f][k] == Some(Leftover) <==> own'[f][k] == Some(Leftover)
    {
      assert lo <= f * FIELD_BITS + k < hi ==> own[f][k] == Some(Held(t));
    }
  }

  // An idle thread's range changes hands: nobody else's knowledge is touched.
  lemma PassThread(n: nat, own: Owners, t: Tid, lo: nat, hi: nat, u: Tid, w: Tid, pc: Pc)
    requires ThreadOk(n, own, w, pc) && Owns(own, lo, hi, Held(t)) && (w == t ==> pc.Idle?)
    ensures ThreadOk(n, Rename(own, lo, hi, Held(u)), w, pc)
  {
    var own' := Rename(own, lo, hi, Held(u));
    forall f: nat, k: nat | f < |own'| && k < |own'[f]|
      ensures own'[f][k] == Some(Trying(w)) <==> Lo(pc) <= f * FIELD_BITS + k < Hi(pc)
    {
      assert own[f][k] == Some(Trying(w)) <==> Lo(pc) <= f * FIELD_BITS + k < Hi(pc);
      assert lo <= f * FIELD_BITS + k < hi ==> own[f][k] == Some(Held(t));
    }
    match pc
    case UnclaimAnd(bit, count, field) =>
      var from := if bit > field * FIELD_BITS then bit else field * FIELD_BITS;
      forall f: nat, k: nat | f < |own'| && k < |own'[f]| && from <= f * FIELD_BITS + k < bit + count
        ensures own'[f][k] == Some(Held(w))
      {
        assert w != t && own[f][k] == Some(Held(w));
      }
    case _ =>
  }

  // ---- every step, every run

  lemma StepInv(s: State, t: Tid, a: Act)
    requires Inv(s) && t in s.pcs
    ensures |s.own| == |s.fields| && Inv(Step(s, t, a))
    ensures |s.own| == |s.fields| && LeftKept(s.own, Step(s, t, a).own)
  {
    ThreadFacts(s, t);
    var pc, fails := s.pcs[t], a.Spurious?;
    assert PcFields(s, pc);
    hide Inv, StartStep, ClaimStep, BackStep, PcOk, Tries;
    if pc.Idle? { StartInv(s, t, a); }
    else if pc.MidStore? { StoreInv(s, t); }
    else if pc.BackLoad? || pc.BackCas? { BackInv(s, t); }
    else if pc.UnclaimAnd? { UnclaimInv(s, t); }
    else { ClaimInv(s, t, fails); }
  }

  // The fields a thread is about to look at exist.
  ghost predicate PcFields(s: State, pc: Pc) {
    && (pc.FieldCas? ==> pc.idx < |s.fields|) && (pc.InitCas? ==> pc.c.idx < |s.fields|)
    && (pc.MidCas? ==> pc.field < |s.fields|) && (pc.FinalCas? ==> pc.c.last < |s.fields|)
  }

  lemma ClaimInv(s: State, t: Tid, fails: bool)
    requires Inv(s) && t in s.pcs && |s.own| == |s.fields| && PcFields(s, s.pcs[t])
    requires var pc := s.pcs[t]; !(pc.Idle? || pc.MidStore? || pc.BackLoad? || pc.BackCas? || pc.UnclaimAnd?)
    ensures Inv(ClaimStep(s, t, fails))
    ensures LeftKept(s.own, ClaimStep(s, t, fails).own)
  {
    var pc := s.pcs[t];
    assert !pc.FieldCas? ==> ClaimStep(s, t, fails) == ClaimStep(s, t, false);
    hide Inv, ClaimStep;
    if pc.FieldCas? && s.fields[pc.idx] == pc.word && !fails { FieldInv(s, t); }
    else if pc.InitCas? && s.fields[pc.c.idx] == pc.word { InitInv(s, t); }
    else if pc.MidCas? && s.fields[pc.field] == Zero() { MidInv(s, t); }
    else if pc.FinalCas? && s.fields[pc.c.last] == pc.word { FinalInv(s, t); }
    else { MoveInv(s, t, fails); }
  }

  // ---- runs

  // Nobody is doing anything; the set bits are leftover bits or held.
  ghost predicate Init(s: State) {
    && Sync(s.fields, s.own) && Known(s.own, s.pcs) && (forall t | t in s.pcs :: s.pcs[t].Idle?)
    && forall t: Tid :: Tries(s.own, t, 0, 0)
  }

  type Schedule = seq<(Tid, Act)>

  ghost predicate IsRun(states: seq<State>, steps: Schedule) {
    |states| == |steps| + 1 && Init(states[0])
      && forall i: nat | i < |steps| :: Stepped(states[i], steps[i], states[i + 1])
  }

  ghost predicate Stepped(s: State, step: (Tid, Act), s': State) {
    step.0 in s.pcs && |s.own| == |s.fields| && s' == Step(s, step.0, step.1)
  }

  lemma {:induction false} RunInv(states: seq<State>, steps: Schedule, i: nat)
    requires IsRun(states, steps) && i < |states|
    ensures Inv(states[i])
  {
    hide Step;
    if i == 0 {
      forall t | t in states[0].pcs ensures ThreadOk(|states[0].fields|, states[0].own, t, states[0].pcs[t]) {
        IdleOk(|states[0].fields|, states[0].own, t);
      }
    } else {
      hide Inv, Init;
      RunInv(states, steps, i - 1);
      assert Stepped(states[i - 1], steps[i - 1], states[i]);
      StepInv(states[i - 1], steps[i - 1].0, steps[i - 1].1);
    }
  }

  // In every reachable state a bit is set exactly when it has an owner, and a thread between operations
  // holds no bit of an unfinished claim: a claim that failed has given everything back.
  lemma OneOwner(states: seq<State>, steps: Schedule, i: nat)
    requires IsRun(states, steps) && i < |states|
    ensures Sync(states[i].fields, states[i].own)
    ensures forall t, f: nat, k: nat {:trigger Trying(t), states[i].own[f][k]} |
      t in states[i].pcs && states[i].pcs[t].Idle? && f < |states[i].own| && k < |states[i].own[f]| ::
        states[i].own[f][k] != Some(Trying(t))
  {
    RunInv(states, steps, i);
    var s := states[i];
    forall t, f: nat, k: nat | t in s.pcs && s.pcs[t].Idle? && f < |s.own| && k < |s.own[f]|
      ensures s.own[f][k] != Some(Trying(t))
    {
      ThreadFacts(s, t);
    }
  }

  // Bits with no owner, or of an attempt of t's own.
  ghost predicate Unowned(own: Owners, lo: nat, hi: nat, t: Tid) {
    forall f: nat, k: nat {:trigger own[f][k]} | f < |own| && k < |own[f]| && lo <= f * FIELD_BITS + k < hi ::
      own[f][k] == None || own[f][k] == Some(Trying(t))
  }

  // A claim that succeeds takes bits that nobody owned, and owns all of them afterwards.
  lemma ClaimTakesFree(states: seq<State>, steps: Schedule, i: nat, t: Tid)
    requires IsRun(states, steps) && i < |states| && t in states[i].pcs
    requires var pc := states[i].pcs[t];
      pc.FieldCas? && pc.idx < |states[i].fields| && states[i].fields[pc.idx] == pc.word
    ensures var s, pc := states[i], states[i].pcs[t]; var p := IndexCreate(pc.idx, pc.b);
      && |s.own| == |s.fields| && Step(s, t, Go).pcs[t].Idle? && Owns(Step(s, t, Go).own, p, p + pc.count, Held(t))
      && (forall f: nat, k: nat {:trigger s.own[f][k]} |
            f < |s.own| && k < |s.own[f]| && p <= f * FIELD_BITS + k < p + pc.count :: s.own[f][k] == None)
  {
    RunInv(states, steps, i);
    FieldFree(states[i], t);
  }

  lemma FieldFree(s: State, t: Tid)
    requires Inv(s) && t in s.pcs
    requires var pc := s.pcs[t]; pc.FieldCas? && pc.idx < |s.fields| && s.fields[pc.idx] == pc.word
    ensures var pc := s.pcs[t]; var p := IndexCreate(pc.idx, pc.b);
      && |s.own| == |s.fields| && ClaimStep(s, t, false).pcs[t].Idle?
      && Owns(ClaimStep(s, t, false).own, p, p + pc.count, Held(t))
      && (forall f: nat, k: nat {:trigger s.own[f][k]} |
            f < |s.own| && k < |s.own[f]| && p <= f * FIELD_BITS + k < p + pc.count :: s.own[f][k] == None)
  {
    var pc := s.pcs[t];
    ThreadFacts(s, t);
    MaskedZero(pc.word, pc.count, pc.b);
    ZeroFree(s, t, pc.idx, Mask(pc.count, pc.b));
    FreshBits(s, pc.idx, pc.b, pc.count, t);
  }

  lemma FreshBits(s: State, idx: nat, b: nat, count: nat, t: Tid)
    requires Inv(s) && idx < |s.fields| && Free(s.fields[idx], b, count) && |s.own| == |s.fields| && t in s.pcs
    ensures var p := IndexCreate(idx, b);
      && (forall f: nat, k: nat {:trigger s.own[f][k]} |
            f < |s.own| && k < |s.own[f]| && p <= f * FIELD_BITS + k < p + count :: s.own[f][k] == None)
      && Owns(Put(s, t, idx, Mask(count, b), Some(Held(t)), Idle).own, p, p + count, Held(t))
  {
    var p := IndexCreate(idx, b);
    forall f: nat, k: nat | f < |s.own| && k < |s.own[f]| && p <= f * FIELD_BITS + k < p + count
      ensures f == idx && s.own[f][k] == None
    {
      assert f == idx && !s.fields[f][k];
    }
  }

  // Across fields: the last step of a claim leaves the whole range with the thread, and its bits were the
  // thread's own attempt or nobody's.
  lemma AcrossTakesFree(states: seq<State>, steps: Schedule, i: nat, t: Tid)
    requires IsRun(states, steps) && i < |states| && t in states[i].pcs
    requires var pc := states[i].pcs[t];
      pc.FinalCas? && pc.c.last < |states[i].fields| && states[i].fields[pc.c.last] == pc.word
    ensures var s, c := states[i], states[i].pcs[t].c;
      && |s.own| == |s.fields| && Step(s, t, Go).pcs[t].Idle? && Owns(Step(s, t, Go).own, c.p, c.p + c.count, Held(t))
      && Unowned(s.own, c.p, c.p + c.count, t)
  {
    RunInv(states, steps, i);
    AcrossFree(states[i], t);
  }

  lemma AcrossFree(s: State, t: Tid)
    requires Inv(s) && t in s.pcs
    requires var pc := s.pcs[t]; pc.FinalCas? && pc.c.last < |s.fields| && s.fields[pc.c.last] == pc.word
    ensures var c := s.pcs[t].c;
      && |s.own| == |s.fields| && ClaimStep(s, t, false).pcs[t].Idle?
      && Owns(ClaimStep(s, t, false).own, c.p, c.p + c.count, Held(t)) && Unowned(s.own, c.p, c.p + c.count, t)
  {
    var c := s.pcs[t].c;
    ThreadFacts(s, t);
    FinalInv(s, t);
    ClaimParts(|s.fields|, c);
    ZeroFree(s, t, c.last, LastPart(c));
    hide Inv, Part, InitPart;
    forall f: nat, k: nat | f < |s.own| && k < |s.own[f]| && c.p <= f * FIELD_BITS + k < c.p + c.count
      ensures s.own[f][k] == None || s.own[f][k] == Some(Trying(t))
    {
      if f < c.last { assert s.own[f][k] == Some(Trying(t)); } else { LastBits(s, t, c, k); }
    }
  }

  lemma LastBits(s: State, t: Tid, c: Claim, k: nat)
    requires Inv(s) && ClaimOk(|s.fields|, c) && And(s.fields[c.last], LastPart(c)) == Zero() && k < FIELD_BITS
      && LastPart(c)[k]
    ensures |s.own| == |s.fields| && k < |s.own[c.last]| && s.own[c.last][k] == None
  {
    assert !And(s.fields[c.last], LastPart(c))[k];
    assert !s.fields[c.last][k];
  }

  // Whoever holds a range finds all its bits set when unclaiming it, field by field, so the result is true.
  lemma UnclaimFindsAll(states: seq<State>, steps: Schedule, i: nat, t: Tid)
    requires IsRun(states, steps) && i < |states| && t in states[i].pcs && states[i].pcs[t].UnclaimAnd?
    ensures states[i].pcs[t].field < |states[i].fields|
    ensures var pc := states[i].pcs[t]; var part := Part(pc.bit, pc.count, pc.field);
      And(states[i].fields[pc.field], part) == part
  {
    RunInv(states, steps, i);
    UnclaimInv(states[i], t);
  }

  // Giving back a middle field is safe although it is a plain store: the thread owns the whole field.
  lemma RollbackOwnsField(states: seq<State>, steps: Schedule, i: nat, t: Tid)
    requires IsRun(states, steps) && i < |states| && t in states[i].pcs && states[i].pcs[t].MidStore?
    ensures states[i].pcs[t].field < |states[i].fields| && states[i].fields[states[i].pcs[t].field] == Ones()
  {
    RunInv(states, steps, i);
    StoreInv(states[i], t);
  }

  // Leftover bits stay set and leftover for good, so no claim ever gets one.
  lemma {:induction false} LeftoverStays(states: seq<State>, steps: Schedule, i: nat)
    requires IsRun(states, steps) && i < |states|
    ensures LeftKept(states[0].own, states[i].own)
  {
    if i > 0 {
      hide Step, Inv, Init;
      LeftoverStays(states, steps, i - 1);
      RunInv(states, steps, i - 1);
      assert Stepped(states[i - 1], steps[i - 1], states[i]);
      StepInv(states[i - 1], steps[i - 1].0, steps[i - 1].1);
      hide LeftKept;
      LeftTrans(states[0].own, states[i - 1].own, states[i].own);
    }
  }
}
