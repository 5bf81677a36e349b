// Doubly linked lists of array indices: -1 is the null link.
module DList {
  import opened Base

  type Links = seq<int>

  ghost function At(q: seq<nat>, k: int): int { if 0 <= k < |q| then q[k] else -1 }

  ghost predicate LinkedAt(q: seq<nat>, prev: Links, next: Links, k: nat)
    requires k < |q|
  {
    q[k] < |prev| == |next| && prev[q[k]] == At(q, k - 1) && next[q[k]] == At(q, k + 1)
  }

  // q is the list from first to last.
  ghost predicate IsList(q: seq<nat>, prev: Links, next: Links, first: int, last: int) {
    && NoDup(q) && first == At(q, 0) && last == At(q, |q| - 1)
    && forall k: nat | k < |q| :: LinkedAt(q, prev, next, k)
  }

  lemma Member(q: seq<nat>, prev: Links, next: Links, first: int, last: int, x: nat) returns (k: nat)
    requires IsList(q, prev, next, first, last) && x in q
    ensures k < |q| && q[k] == x && x < |prev| == |next| && prev[x] == At(q, k - 1) && next[x] == At(q, k + 1)
  {
    k :| k < |q| && q[k] == x;
    assert LinkedAt(q, prev, next, k);
  }

  // Changing links outside the list keeps it.
  lemma Frame(q: seq<nat>, prev: Links, next: Links, prev': Links, next': Links, first: int, last: int)
    requires IsList(q, prev, next, first, last) && |prev'| == |next'| == |prev| == |next|
    requires forall x | x in q && x < |prev| :: prev'[x] == prev[x] && next'[x] == next[x]
    ensures IsList(q, prev', next', first, last)
  {
    forall k: nat | k < |q| ensures LinkedAt(q, prev', next', k) {
      assert LinkedAt(q, prev, next, k);
    }
  }

  // ---- the links after each operation

  ghost function PutNext(next: Links, i: int, v: int): Links {
    if 0 <= i < |next| then next[i := v] else next
  }

  lemma PushFront(q: seq<nat>, prev: Links, next: Links, first: int, last: int, x: nat)
    requires IsList(q, prev, next, first, last) && x !in q && x < |prev| == |next|
    ensures IsList([x] + q, PutNext(prev[x := -1], first, x), next[x := first], x, if first == -1 then x else last)
  {
    var q', prev', next' := [x] + q, PutNext(prev[x := -1], first, x), next[x := first];
    if q != [] { assert LinkedAt(q, prev, next, 0); }
    forall k: nat | k < |q'| ensures LinkedAt(q', prev', next', k) {
      if k > 0 {
        assert LinkedAt(q, prev, next, k - 1);
        if k > 1 { assert q[k - 1] != q[0]; }
      }
    }
  }

  lemma PushBack(q: seq<nat>, prev: Links, next: Links, first: int, last: int, x: nat)
    requires IsList(q, prev, next, first, last) && x !in q && x < |prev| == |next|
    ensures IsList(q + [x], prev[x := last], PutNext(next[x := -1], last, x), if last == -1 then x else first, x)
  {
    var q', prev', next' := q + [x], prev[x := last], PutNext(next[x := -1], last, x);
    if q != [] { assert LinkedAt(q, prev, next, |q| - 1); }
    forall k: nat | k < |q'| ensures LinkedAt(q', prev', next', k) {
      if k < |q| {
        assert LinkedAt(q, prev, next, k);
        if k < |q| - 1 { assert q[k] != q[|q| - 1]; }
      }
    }
  }

  // Join two lists end to end.
  lemma Join(a: seq<nat>, b: seq<nat>, prev: Links, next: Links, fa: int, la: int, fb: int, lb: int)
    requires IsList(a, prev, next, fa, la) && IsList(b, prev, next, fb, lb) && a != [] && b != []
    requires forall x | x in b :: x !in a
    ensures IsList(a + b, PutNext(prev, fb, la), PutNext(next, la, fb), fa, lb)
  {
    var q, prev', next' := a + b, PutNext(prev, fb, la), PutNext(next, la, fb);
    NoDupConcat(a, b);
    assert LinkedAt(a, prev, next, |a| - 1) && LinkedAt(b, prev, next, 0);
    forall k: nat | k < |q| ensures LinkedAt(q, prev', next', k) {
      if k < |a| {
        assert LinkedAt(a, prev, next, k) && q[k] == a[k];
        assert (k < |a| - 1 ==> a[k] != a[|a| - 1]) && a[k] in a && b[0] in b;
      } else {
        assert LinkedAt(b, prev, next, k - |a|) && q[k] == b[k - |a|];
        assert (k > |a| ==> b[k - |a|] != b[0]) && b[k - |a|] in b && a[|a| - 1] in a;
      }
    }
  }

  ghost function Without(q: seq<nat>, k: nat): seq<nat>
    requires k < |q|
  {
    q[..k] + q[k + 1..]
  }

  lemma WithoutMembers(q: seq<nat>, k: nat)
    requires k < |q| && NoDup(q)
    ensures NoDup(Without(q, k))
    ensures forall x :: x in Without(q, k) <==> x in q && x != q[k]
  {
    var w := Without(q, k);
    forall x | x in q && x != q[k] ensures x in w {
      var i :| 0 <= i < |q| && q[i] == x;
      assert w[if i < k then i else i - 1] == x;
    }
  }

  // Unlink the k-th element; its own links are cleared.
  lemma Remove(q: seq<nat>, prev: Links, next: Links, first: int, last: int, k: nat)
    requires IsList(q, prev, next, first, last) && k < |q|
    ensures q[k] < |prev| == |next|
    ensures var x, p, n := q[k], prev[q[k]], next[q[k]];
      IsList(Without(q, k), PutNext(prev, n, p)[x := -1], PutNext(next, p, n)[x := -1],
             if first == x then n else first, if last == x then p else last)
  {
    var x := q[k];
    assert LinkedAt(q, prev, next, k);
    var p, n := prev[x], next[x];
    var prev', next' := PutNext(prev, n, p)[x := -1], PutNext(next, p, n)[x := -1];
    var w := Without(q, k);
    WithoutMembers(q, k);
    if k > 0 { assert LinkedAt(q, prev, next, k - 1); }
    if k + 1 < |q| { assert LinkedAt(q, prev, next, k + 1); }
    forall j: nat | j < |w| ensures LinkedAt(w, prev', next', j) {
      var i := if j < k then j else j + 1;
      assert w[j] == q[i] && LinkedAt(q, prev, next, i);
      assert i != k - 1 ==> q[i] != p;
      assert i != k + 1 ==> q[i] != n;
    }
  }
}
