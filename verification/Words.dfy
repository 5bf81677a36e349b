// Machine words as rows of bits, and the numbers they stand for.
module Words {
  import opened Base

  const FIELD_BITS: nat := 64

  // A machine word, least significant bit first.
  type Word = w: seq<bool> | |w| == FIELD_BITS witness seq(FIELD_BITS, _ => false)

  function Zero(): Word { seq(FIELD_BITS, _ => false) }
  function Ones(): Word { seq(FIELD_BITS, _ => true) }

  function Shr(w: Word, n: nat): (r: Word)
    ensures forall k | 0 <= k < FIELD_BITS :: r[k] == (k + n < FIELD_BITS && w[k + n])
  {
    seq(FIELD_BITS, k requires 0 <= k < FIELD_BITS => k + n < FIELD_BITS && w[k + n])
  }

  // A left shift drops what leaves the word.
  function Shl(w: Word, n: nat): (r: Word)
    ensures forall k | 0 <= k < FIELD_BITS :: r[k] == (k >= n && w[k - n])
  {
    seq(FIELD_BITS, k requires 0 <= k < FIELD_BITS => k >= n && w[k - n])
  }

  function And(a: Word, b: Word): Word { seq(FIELD_BITS, k requires 0 <= k < FIELD_BITS => a[k] && b[k]) }
  function Or(a: Word, b: Word): Word { seq(FIELD_BITS, k requires 0 <= k < FIELD_BITS => a[k] || b[k]) }
  function AndNot(a: Word, b: Word): Word { seq(FIELD_BITS, k requires 0 <= k < FIELD_BITS => a[k] && !b[k]) }

  // `count` ones from bit `ofs`: the word ((1 << count) - 1) << ofs.
  function Block(ofs: nat, count: nat): Word
    requires ofs + count <= FIELD_BITS
  {
    seq(FIELD_BITS, k requires 0 <= k < FIELD_BITS => ofs <= k < ofs + count)
  }

  // ---- the number a word stands for

  ghost function Value(w: seq<bool>): nat {
    if w == [] then 0 else (if w[0] then 1 else 0) + 2 * Value(w[1..])
  }

  lemma {:induction false} ValueBlock(w: seq<bool>, ofs: nat, count: nat)
    requires ofs + count <= |w| && forall k | 0 <= k < |w| :: w[k] <==> ofs <= k < ofs + count
    ensures Value(w) == (Pow2(count) - 1) * Pow2(ofs)
    decreases |w|
  {
    if w == [] {
    } else if ofs > 0 {
      ValueBlock(w[1..], ofs - 1, count);
      assert 2 * ((Pow2(count) - 1) * Pow2(ofs - 1)) == (Pow2(count) - 1) * Pow2(ofs);
    } else if count > 0 {
      ValueBlock(w[1..], 0, count - 1);
    } else {
      ValueBlock(w[1..], 0, 0);
    }
  }

  lemma BlockValue(ofs: nat, count: nat)
    requires ofs + count <= FIELD_BITS
    ensures Value(Block(ofs, count)) == (Pow2(count) - 1) * Pow2(ofs)
  {
    ValueBlock(Block(ofs, count), ofs, count);
  }

  // ---- a row of words as one row of bits

  predicate Bit(m: seq<Word>, i: nat)
    requires i < |m| * FIELD_BITS
  {
    m[i / FIELD_BITS][i % FIELD_BITS]
  }

  lemma BitAt(m: seq<Word>, f: nat, k: nat)
    requires f < |m| && k < FIELD_BITS
    ensures f * FIELD_BITS + k < |m| * FIELD_BITS && Bit(m, f * FIELD_BITS + k) == m[f][k]
  {
    assert (f * FIELD_BITS + k) / FIELD_BITS == f && (f * FIELD_BITS + k) % FIELD_BITS == k;
  }

  lemma BitSplit(n: nat, i: nat)
    requires i < n * FIELD_BITS
    ensures i / FIELD_BITS < n && i % FIELD_BITS < FIELD_BITS && i == i / FIELD_BITS * FIELD_BITS + i % FIELD_BITS
  {}
}
