// Many threads claiming and unclaiming bits of one bitmap, a step for each atomic operation (bitmap.c).
module BitmapShared {
  import opened Base
  import opened Words
  import opened Bitmap

  type Tid = nat

  // Who a set bit belongs to: the bookkeeping of the proof, not a field of the program.
  // Trying: part of a claim that may still be rolled back. Leftover: claimed for good at setup.
  datatype Owner = Held(t: Tid) | Trying(t: Tid) | Leftover

  // A claim across fields: `count` bits from bit p in field idx to field last.
  datatype Claim = Claim(idx: nat, p: nat, count: nat, last: nat, retries: nat)

  // Program counters, named after the atomic operation that comes next.
  datatype Pc =
    | Idle
    // _mi_bitmap_try_find_claim_field
    | FieldLoad(idx: nat, count: nat)
    | FieldCas(idx: nat, count: nat, b: nat, word: Word)
    // mi_bitmap_try_find_claim_field_across
    | AcrossLoad(idx: nat, count: nat, retries: nat)
    | ScanLoad(c: Claim, field: nat)
    | InitLoad(c: Claim)
    | InitCas(c: Claim, word: Word)
    | MidCas(c: Claim, field: nat)
    | FinalLoad(c: Claim)
    | FinalCas(c: Claim, word: Word)
    | MidStore(c: Claim, field: nat)     // rollback
    | BackLoad(c: Claim)
    | BackCas(c: Claim, word: Word)
    // _mi_bitmap_unclaim_across
    | UnclaimAnd(bit: nat, count: nat, field: nat)

  datatype Act =
    | StartField(idx: nat, count: nat)
    | StartAcross(idx: nat, count: nat)
    | StartUnclaim(bit: nat, count: nat)
    | Pass(bit: nat, count: nat, to: Tid)
    | Go
    | Spurious

  type Owners = seq<seq<Option<Owner>>>

  datatype State = State(fields: seq<Word>, own: Owners, pcs: map<Tid, Pc>)

  // ---- changing one field

  ghost function MarkRow(row: seq<Option<Owner>>, part: Word, v: Option<Owner>): seq<Option<Owner>> {
    seq(|row|, k requires 0 <= k < |row| => if k < FIELD_BITS && part[k] then v else row[k])
  }

  // The bits of `part` in field f get the value and the owner v.
  ghost function Put(s: State, t: Tid, f: nat, part: Word, v: Option<Owner>, pc: Pc): State
    requires f < |s.fields| == |s.own| && t in s.pcs
  {
    State(s.fields[f := if v.Some? then Or(s.fields[f], part) else AndNot(s.fields[f], part)],
          s.own[f := MarkRow(s.own[f], part, v)], s.pcs[t := pc])
  }

  ghost function Jump(s: State, t: Tid, pc: Pc): State { s.(pcs := s.pcs[t := pc]) }

  // All bits of [lo, hi) change owner; the bits themselves stay set.
  ghost function Rename(own: Owners, lo: nat, hi: nat, v: Owner): Owners {
    seq(|own|, f requires 0 <= f < |own| =>
      seq(|own[f]|, k requires 0 <= k < |own[f]| => if lo <= f * FIELD_BITS + k < hi then Some(v) else own[f][k]))
  }

  ghost predicate Owns(own: Owners, lo: nat, hi: nat, v: Owner) {
    forall f: nat, k: nat {:trigger own[f][k]} | f < |own| && k < |own[f]| && lo <= f * FIELD_BITS + k < hi ::
      own[f][k] == Some(v)
  }

  // ---- where the scans lead

  // The lowest fit at or after b.
  ghost function NextFit(word: Word, count: nat, b: nat): Option<nat> {
    if exists s: nat :: FitFrom(word, count, b, s) then (var s: nat :| FitFrom(word, count, b, s); Some(s)) else None
  }

  ghost predicate FitFrom(word: Word, count: nat, b: nat, s: nat) {
    b <= s && Free(word, s, count) && forall r: nat | b <= r < s :: !Free(word, r, count)
  }

  ghost function FieldNext(idx: nat, count: nat, b: nat, word: Word): Pc {
    var fit := NextFit(word, count, b);
    if fit.Some? then FieldCas(idx, count, fit.value, word) else Idle
  }

  ghost function InitPart(c: Claim): Word { Part(c.p, c.count, c.idx) }
  ghost function LastPart(c: Claim): Word { Part(c.p, c.count, c.last) }

  // After the first look at field idx.
  ghost function AcrossNext(n: nat, idx: nat, count: nat, retries: nat, word: Word): Pc
    requires idx < n
  {
    var initial := Clz(word);
    if initial == 0 then Idle
    else if initial >= count then FieldLoad(idx, count)
    else if DivideUp(count - initial, FIELD_BITS) >= n - idx then Idle
    else
      var p := IndexCreate(idx, FIELD_BITS - initial);
      ScanLoad(Claim(idx, p, count, idx + DivideUp(count - initial, FIELD_BITS), retries), idx + 1)
  }

  ghost function InitNext(c: Claim, word: Word): Pc {
    if And(word, InitPart(c)) != Zero() then Retry(c) else InitCas(c, word)
  }
  ghost function FinalNext(c: Claim, word: Word): Pc {
    if And(word, LastPart(c)) != Zero() then Rollback(c, c.last) else FinalCas(c, word)
  }

  // Fields idx + 1 .. field - 1 are to be given back, then the initial field.
  ghost function Rollback(c: Claim, field: nat): Pc {
    if field > c.idx + 1 then MidStore(c, field - 1) else BackLoad(c)
  }

  ghost function Retry(c: Claim): Pc { if c.retries < 4 then AcrossLoad(c.idx, c.count, c.retries + 1) else Idle }

  ghost function Claimed(c: Claim, field: nat): Pc { if field + 1 < c.last then MidCas(c, field + 1) else FinalLoad(c) }

  ghost function UnclaimNext(bit: nat, count: nat, field: nat): Pc {
    if (field + 1) * FIELD_BITS < bit + count then UnclaimAnd(bit, count, field + 1) else Idle
  }

  // ---- steps

  ghost function StartStep(s: State, t: Tid, a: Act): State
    requires t in s.pcs
  {
    var n := |s.fields|;
    match a
    case StartField(idx, count) => if idx < n && 0 < count <= FIELD_BITS then Jump(s, t, FieldLoad(idx, count)) else s
    case StartAcross(idx, count) => if idx < n && 0 < count then Jump(s, t, AcrossLoad(idx, count, 0)) else s
    // only the holder of a range unclaims it or hands it over
    case StartUnclaim(bit, count) =>
      if 0 < count && bit + count <= n * FIELD_BITS && Owns(s.own, bit, bit + count, Held(t))
      then Jump(s, t, UnclaimAnd(bit, count, IndexField(bit))) else s
    case Pass(bit, count, u) =>
      if u in s.pcs && bit + count <= n * FIELD_BITS && Owns(s.own, bit, bit + count, Held(t))
      then s.(own := Rename(s.own, bit, bit + count, Held(u))) else s
    case _ => s
  }

  ghost function ClaimStep(s: State, t: Tid, fails: bool): State
    requires t in s.pcs && |s.own| == |s.fields|
  {
    match s.pcs[t]
    case FieldLoad(idx, count) => if idx < |s.fields| then Jump(s, t, FieldNext(idx, count, 0, s.fields[idx])) else s
    case FieldCas(idx, count, b, word) =>
      if idx >= |s.fields| || b + count > FIELD_BITS then s
      else if s.fields[idx] == word && !fails then Put(s, t, idx, Mask(count, b), Some(Held(t)), Idle)
      else Jump(s, t, FieldNext(idx, count, b, s.fields[idx]))
    case AcrossLoad(idx, count, retries) =>
      if idx < |s.fields| then Jump(s, t, AcrossNext(|s.fields|, idx, count, retries, s.fields[idx])) else s
    case ScanLoad(c, field) =>
      if field >= |s.fields| then s
      else if And(s.fields[field], Part(c.p, c.count, field)) != Zero() then Jump(s, t, Idle)
      else Jump(s, t, if field < c.last then ScanLoad(c, field + 1) else InitLoad(c))
    case InitLoad(c) => if c.idx < |s.fields| then Jump(s, t, InitNext(c, s.fields[c.idx])) else s
    // strong compare-and-swap from here on
    case InitCas(c, word) =>
      if c.idx >= |s.fields| then s
      else if s.fields[c.idx] == word then Put(s, t, c.idx, InitPart(c), Some(Trying(t)), Claimed(c, c.idx))
      else Jump(s, t, InitNext(c, s.fields[c.idx]))
    case MidCas(c, field) =>
      if field >= |s.fields| then s
      else if s.fields[field] == Zero() then Put(s, t, field, Ones(), Some(Trying(t)), Claimed(c, field))
      else Jump(s, t, Rollback(c, field))
    case FinalLoad(c) => if c.last < |s.fields| then Jump(s, t, FinalNext(c, s.fields[c.last])) else s
    case FinalCas(c, word) =>
      if c.last >= |s.fields| then s
      else if s.fields[c.last] == word then
        var s1 := Put(s, t, c.last, LastPart(c), Some(Trying(t)), Idle);
        s1.(own := Rename(s1.own, c.p, c.p + c.count, Held(t)))
      else Jump(s, t, FinalNext(c, s.fields[c.last]))
    case _ => s
  }

  ghost function BackStep(s: State, t: Tid): State
    requires t in s.pcs && |s.own| == |s.fields|
  {
    match s.pcs[t]
    // a plain store of 0
    case MidStore(c, field) =>
      if field >= |s.fields| then s
      else State(s.fields[field := Zero()], s.own[field := MarkRow(s.own[field], Ones(), None)],
                 s.pcs[t := Rollback(c, field)])
    case BackLoad(c) => if c.idx < |s.fields| then Jump(s, t, BackCas(c, s.fields[c.idx])) else s
    case BackCas(c, word) =>
      if c.idx >= |s.fields| then s
      else if s.fields[c.idx] == word then Put(s, t, c.idx, InitPart(c), None, Retry(c))
      else Jump(s, t, BackCas(c, s.fields[c.idx]))
    case UnclaimAnd(bit, count, field) =>
      if field >= |s.fields| then s
      else Put(s, t, field, Part(bit, count, field), None, UnclaimNext(bit, count, field))
    case _ => s
  }

  ghost function Step(s: State, t: Tid, a: Act): State
    requires t in s.pcs && |s.own| == |s.fields|
  {
    var pc := s.pcs[t];
    if pc.Idle? then StartStep(s, t, a)
    else if pc.MidStore? || pc.BackLoad? || pc.BackCas? || pc.UnclaimAnd? then BackStep(s, t)
    else ClaimStep(s, t, a.Spurious?)
  }

  // ---- the invariant

  ghost predicate Sync(fields: seq<Word>, own: Owners) {
    && |own| == |fields| && (forall f | 0 <= f < |own| :: |own[f]| == FIELD_BITS)
    && forall f: nat, k: nat {:trigger own[f][k]} {:trigger fields[f][k]} | f < |fields| && k < FIELD_BITS ::
         fields[f][k] <==> own[f][k].Some?
  }

  // The bits a thread has set on the way to a claim across fields: [Lo, Hi).
  ghost function Lo(pc: Pc): nat {
    match pc
    case MidCas(c, _) => c.p
    case FinalLoad(c) => c.p
    case FinalCas(c, _) => c.p
    case MidStore(c, _) => c.p
    case BackLoad(c) => c.p
    case BackCas(c, _) => c.p
    case _ => 0
  }

  ghost function Hi(pc: Pc): nat {
    match pc
    case MidCas(_, field) => field * FIELD_BITS
    case FinalLoad(c) => c.last * FIELD_BITS
    case FinalCas(c, _) => c.last * FIELD_BITS
    case MidStore(_, field) => (field + 1) * FIELD_BITS
    case BackLoad(c) => (c.idx + 1) * FIELD_BITS
    case BackCas(c, _) => (c.idx + 1) * FIELD_BITS
    case _ => 0
  }

  ghost predicate Tries(own: Owners, t: Tid, lo: nat, hi: nat) {
    forall f: nat, k: nat {:trigger own[f][k]} | f < |own| && k < |own[f]| ::
      own[f][k] == Some(Trying(t)) <==> lo <= f * FIELD_BITS + k < hi
  }

  ghost predicate ClaimOk(n: nat, c: Claim) {
    && c.idx < c.last < n && c.idx * FIELD_BITS <= c.p < (c.idx + 1) * FIELD_BITS && 0 < c.count
    && c.last * FIELD_BITS < c.p + c.count <= (c.last + 1) * FIELD_BITS
  }

  // What a thread knows.
  ghost predicate PcOk(n: nat, own: Owners, t: Tid, pc: Pc) {
    match pc
    case Idle => true
    case FieldLoad(idx, count) => idx < n && 0 < count <= FIELD_BITS
    case FieldCas(idx, count, b, word) => idx < n && 0 < count && Free(word, b, count)
    case AcrossLoad(idx, count, _) => idx < n && 0 < count
    case ScanLoad(c, field) => ClaimOk(n, c) && c.idx < field <= c.last
    case InitLoad(c) => ClaimOk(n, c)
    case InitCas(c, word) => ClaimOk(n, c) && And(word, InitPart(c)) == Zero()
    case MidCas(c, field) => ClaimOk(n, c) && c.idx < field < c.last
    case FinalLoad(c) => ClaimOk(n, c)
    case FinalCas(c, word) => ClaimOk(n, c) && And(word, LastPart(c)) == Zero()
    case MidStore(c, field) => ClaimOk(n, c) && c.idx < field < c.last
    case BackLoad(c) => ClaimOk(n, c)
    case BackCas(c, _) => ClaimOk(n, c)
    case UnclaimAnd(bit, count, field) =>
      && 0 < count && bit + count <= n * FIELD_BITS && field < n && field * FIELD_BITS < bit + count
      && bit < (field + 1) * FIELD_BITS
      && Owns(own, if bit > field * FIELD_BITS then bit else field * FIELD_BITS, bit + count, Held(t))
  }

  ghost predicate ThreadOk(n: nat, own: Owners, t: Tid, pc: Pc) { PcOk(n, own, t, pc) && Tries(own, t, Lo(pc), Hi(pc)) }

  ghost predicate Threads(n: nat, own: Owners, pcs: map<Tid, Pc>) { forall t | t in pcs :: ThreadOk(n, own, t, pcs[t]) }

  // The owners are threads of the program.
  ghost predicate KnownOwner(o: Option<Owner>, pcs: map<Tid, Pc>) { o.Some? && !o.value.Leftover? ==> o.value.t in pcs }

  ghost predicate Known(own: Owners, pcs: map<Tid, Pc>) {
    forall f: nat, k: nat {:trigger own[f][k]} | f < |own| && k < |own[f]| :: KnownOwner(own[f][k], pcs)
  }

  ghost predicate Inv(s: State) {
    Sync(s.fields, s.own) && Threads(|s.fields|, s.own, s.pcs) && Known(s.own, s.pcs)
  }
}
