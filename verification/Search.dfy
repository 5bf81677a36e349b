// The binary search over container addresses (vcmalloc.h).
module Search {

  // Where a lookup ends; Fault is a read outside the array.
  datatype Lookup = Found(index: nat) | Missing | Fault

  ghost predicate Sorted(a: seq<int>) { forall i, j | 0 <= i <= j < |a| :: a[i] <= a[j] }

  ghost predicate PowerOfTwo(m: nat) { m > 0 && (m == 1 || (m % 2 == 0 && PowerOfTwo(m / 2))) }

  // Zero or a power of two.
  ghost predicate Step(m: nat) { m == 0 || PowerOfTwo(m) }

  // Search::MSB
  method Msb(n: nat) returns (msb: nat)
    ensures if n == 0 then msb == 0 else PowerOfTwo(msb) && msb <= n < 2 * msb
  {
    msb := 1;
    while msb <= n
      invariant PowerOfTwo(msb) && (msb == 1 || msb / 2 <= n)
      decreases n + 1 - msb
    {
      msb := msb * 2;
    }
    msb := msb / 2;
  }

  // All places where elem may be lie between lo and hi.
  ghost predicate Between(a: seq<int>, elem: int, lo: int, hi: int) {
    forall i | 0 <= i < |a| && a[i] == elem :: lo < i < hi
  }

  function Max(a: nat, b: nat): nat { if a >= b then a else b }

  // The search goes below the first of three or more addresses.
  ghost predicate BelowAll(a: seq<int>, elem: int) { |a| >= 3 && elem < a[0] }

  lemma BelowExample()
    ensures Sorted([10, 20, 30]) && BelowAll([10, 20, 30], 5)
  {
  }

  // Search::binarySearch finds an address whenever it is there, and stays inside the array except when
  // the address is below the first of three or more.
  method BinarySearch(a: seq<int>, elem: int) returns (r: Lookup)
    requires |a| > 0 && Sorted(a)
    ensures r.Fault? <==> BelowAll(a, elem)
    ensures r.Found? ==> r.index < |a| && a[r.index] == elem
    ensures r.Missing? ==> elem !in a
  {
    var max := |a| - 1;
    var msb := Msb(max);
    var index: int := msb;
    ghost var prev := 0;
    while a[index] < elem
      invariant 0 <= prev <= index <= max && index - prev == msb && Step(msb)
      invariant Between(a, elem, prev - 1, |a|) && (prev == 0 || a[prev] < elem)
      invariant prev == 0 && elem < a[0] ==> max < 2 * msb || max == 0
      decreases max - index
    {
      prev := index;
      msb := Msb(max - index);
      if msb == 0 { return Missing; }
      index := index + msb;
    }
    r := Bisect(a, elem, prev, index, msb);
  }

  // The middle of a stretch with elem strictly inside, halved at each step.
  ghost predicate Stretch(a: seq<int>, elem: int, lo: int, index: int, hi: int, msb: nat) {
    && 0 <= lo < index < hi < |a| && a[lo] < elem < a[hi]
    && hi - index == index - lo == Max(1, 2 * msb)
  }

  // elem is not before place k.
  ghost predicate Below(a: seq<int>, elem: int, k: nat) { forall i | 0 <= i < k && i < |a| :: a[i] < elem }

  // The second loop, from the end of a stretch of msb places after prev.
  method Bisect(a: seq<int>, elem: int, ghost prev: nat, start: nat, step: nat) returns (r: Lookup)
    requires |a| > 0 && Sorted(a) && Step(step) && prev + step == start < |a| && a[start] >= elem
    requires prev == 0 || a[prev] < elem
    requires elem < a[0] ==> prev == 0 && (step >= 2 <==> |a| >= 3)
    ensures r.Fault? <==> BelowAll(a, elem)
    ensures r.Found? ==> r.index < |a| && a[r.index] == elem
    ensures r.Missing? ==> elem !in a
  {
    var index: int := start;
    var msb: nat := step;
    ghost var stage, lo, hi := 0, prev - 1, |a|;
    while true
      invariant Step(msb) && 0 <= stage <= 2
      invariant stage == 0 ==> index == start && msb == step
      invariant stage == 1 ==> index == prev && msb == step / 2 && a[start] > elem
      invariant stage == 2 ==>
        msb < step && (if elem >= a[0] then Stretch(a, elem, lo, index, hi, msb) else index < 0 && |a| >= 3)
      invariant stage == 2 || Below(a, elem, prev)
      decreases msb
    {
      if index < 0 || index >= |a| { return Fault; }
      var diff := a[index] - elem;
      if diff == 0 { return Found(index); }
      if diff < 0 {
        lo, hi := index, if stage == 1 then start else hi;
        index := index + msb;
      } else {
        hi := if stage == 2 then index else hi;
        index := index - msb;
      }
      if msb == 0 { return Missing; }
      msb := msb / 2;
      stage := if stage == 0 then 1 else 2;
    }
  }
}
