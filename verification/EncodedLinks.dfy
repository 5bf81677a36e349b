// Links of a secure free list are stored under two random keys (mimalloc-internal.h).
module EncodedLinks {
  import opened Base
  import opened Words

  function Xor(a: Word, b: Word): Word { seq(FIELD_BITS, k requires 0 <= k < FIELD_BITS => a[k] != b[k]) }

  ghost function Rotation(w: Word): nat { Value(w) % FIELD_BITS }

  // mi_rotl, mi_rotr
  function RotL(x: Word, n: nat): Word
    requires n < FIELD_BITS
  {
    if n == 0 then x else Or(Shl(x, n), Shr(x, FIELD_BITS - n))
  }

  function RotR(x: Word, n: nat): Word
    requires n < FIELD_BITS
  {
    if n == 0 then x else Or(Shr(x, n), Shl(x, FIELD_BITS - n))
  }

  // The low bits of a number.
  ghost function LowBits(n: nat, bits: nat): (w: seq<bool>)
    ensures |w| == bits
  {
    if bits == 0 then [] else [n % 2 == 1] + LowBits(n / 2, bits - 1)
  }

  // Wrapping sum and difference.
  ghost function Plus(a: Word, b: Word): Word { LowBits(Value(a) + Value(b), FIELD_BITS) }

  ghost function Minus(a: Word, b: Word): Word
  {
    ValueBound(b);
    LowBits(Value(a) + (Pow2(FIELD_BITS) - Value(b)), FIELD_BITS)
  }

  // mi_ptr_encode: `nil`, the page's own address, stands for the null pointer.
  ghost function Encode(nil: Word, p: Word, k0: Word, k1: Word): Word {
    Plus(RotL(Xor(if p == Zero() then nil else p, k1), Rotation(k0)), k0)
  }

  // mi_ptr_decode
  ghost function Decode(nil: Word, x: Word, k0: Word, k1: Word): Word {
    var p := Xor(RotR(Minus(x, k0), Rotation(k0)), k1);
    if p == nil then Zero() else p
  }

  lemma {:induction false} ValueBound(w: seq<bool>)
    ensures Value(w) < Pow2(|w|)
  {
    if w != [] { ValueBound(w[1..]); }
  }

  lemma {:induction false} LowBitsOfValue(w: seq<bool>)
    ensures LowBits(Value(w), |w|) == w
  {
    if w != [] {
      LowBitsOfValue(w[1..]);
      assert Value(w) / 2 == Value(w[1..]);
      assert w == [w[0]] + w[1..];
    }
  }

  // Higher multiples of the word size do not show.
  lemma {:induction false} LowBitsWrap(n: nat, k: nat, bits: nat)
    ensures LowBits(n + k * Pow2(bits), bits) == LowBits(n, bits)
    decreases bits
  {
    if bits > 0 {
      var half := k * Pow2(bits - 1);
      assert k * Pow2(bits) == 2 * half by { assert Pow2(bits) == 2 * Pow2(bits - 1); MulSwap(k, Pow2(bits - 1)); }
      assert (n + 2 * half) / 2 == n / 2 + half && (n + 2 * half) % 2 == n % 2;
      LowBitsWrap(n / 2, k, bits - 1);
    }
  }

  lemma MulSwap(k: nat, p: nat)
    ensures k * (2 * p) == 2 * (k * p)
  {}

  lemma {:induction false} ValueOfLowBits(n: nat, bits: nat)
    ensures Value(LowBits(n, bits)) < Pow2(bits) && exists k: nat :: n == Value(LowBits(n, bits)) + k * Pow2(bits)
    decreases bits
  {
    if bits == 0 {
      assert n == 0 + n * Pow2(0);
    } else {
      ValueOfLowBits(n / 2, bits - 1);
      var k: nat :| n / 2 == Value(LowBits(n / 2, bits - 1)) + k * Pow2(bits - 1);
      assert LowBits(n, bits)[1..] == LowBits(n / 2, bits - 1);
      MulSwap(k, Pow2(bits - 1));
      assert Pow2(bits) == 2 * Pow2(bits - 1);
      assert n == Value(LowBits(n, bits)) + k * Pow2(bits);
    }
  }

  lemma PlusMinus(a: Word, b: Word)
    ensures Minus(Plus(a, b), b) == a
  {
    hide LowBits, Value, Pow2;
    var n, p := Value(a) + Value(b), Pow2(FIELD_BITS);
    ValueOfLowBits(n, FIELD_BITS);
    var k: nat :| n == Value(LowBits(n, FIELD_BITS)) + k * p;
    ValueBound(a);
    ValueBound(b);
    var m := Value(LowBits(n, FIELD_BITS)) + (p - Value(b));
    assert m + k * p == Value(a) + 1 * p;
    LowBitsWrap(m, k, FIELD_BITS);
    LowBitsWrap(Value(a), 1, FIELD_BITS);
    LowBitsOfValue(a);
  }

  lemma RotateBack(x: Word, n: nat)
    requires n < FIELD_BITS
    ensures RotR(RotL(x, n), n) == x
  {}

  // A stored link reads back just as it was, unless it is the address that stands for null.
  lemma LinkRoundTrip(nil: Word, p: Word, k0: Word, k1: Word)
    ensures Decode(nil, Encode(nil, p, k0, k1), k0, k1) == p <==> p != nil || p == Zero()
  {
    hide RotL, RotR, Plus, Minus, Rotation;
    var q := if p == Zero() then nil else p;
    RotationSmall(k0);
    PlusMinus(RotL(Xor(q, k1), Rotation(k0)), k0);
    RotateBack(Xor(q, k1), Rotation(k0));
    assert Xor(Xor(q, k1), k1) == q;
  }

  lemma RotationSmall(w: Word)
    ensures Rotation(w) < FIELD_BITS
  {}
}
