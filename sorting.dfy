/**
 * A stable sort by key, the behaviour Rust's `slice::sort_by` and
 * `slice::sort_by_key` promise: the result is ordered by the key, is a
 * permutation of the input, and elements with equal keys keep their
 * relative order.  The specification is insertion from the left; the
 * in-place method is proved equal to it.
 */
module Sorting {
  import opened Text

  /** `le` is total and transitive, as an `Ord` comparison's "not greater" is. */
  ghost predicate TotalPreorder<K(!new)>(le: (K, K) -> bool)
  {
    && (forall a, b :: le(a, b) || le(b, a))
    && (forall a, b, c :: le(a, b) && le(b, c) ==> le(a, c))
  }

  ghost predicate SortedBy<T, K>(s: seq<T>, key: T -> K, le: (K, K) -> bool)
  {
    forall i, j :: 0 <= i < j < |s| ==> le(key(s[i]), key(s[j]))
  }

  /**
   * Where `x` goes in `s`: after every element whose key is not greater
   * than its key, found by scanning from the back.
   */
  function InsertPos<T, K>(s: seq<T>, x: T, key: T -> K, le: (K, K) -> bool): (p: nat)
    ensures p <= |s|
    ensures forall i :: p <= i < |s| ==> !le(key(s[i]), key(x))
    ensures p > 0 ==> le(key(s[p - 1]), key(x))
  {
    if s == [] || le(key(s[|s| - 1]), key(x)) then |s|
    else InsertPos(s[..|s| - 1], x, key, le)
  }

  function Insert<T, K>(s: seq<T>, x: T, key: T -> K, le: (K, K) -> bool): (r: seq<T>)
    ensures |r| == |s| + 1
  {
    var p := InsertPos(s, x, key, le);
    s[..p] + [x] + s[p..]
  }

  /** The stable sort of `xs`: each element inserted, in input order, after its equals. */
  function SortBy<T, K>(xs: seq<T>, key: T -> K, le: (K, K) -> bool): (r: seq<T>)
    ensures |r| == |xs|
  {
    if xs == [] then []
    else Insert(SortBy(xs[..|xs| - 1], key, le), xs[|xs| - 1], key, le)
  }

  /** The elements of `s` whose key is `k`, in order. */
  function WithKey<T, K(==)>(s: seq<T>, key: T -> K, k: K): (r: seq<T>)
    ensures |r| <= |s|
  {
    if s == [] then []
    else WithKey(s[..|s| - 1], key, k) + (if key(s[|s| - 1]) == k then [s[|s| - 1]] else [])
  }

  lemma {:induction false} WithKeyAppend<T, K>(a: seq<T>, b: seq<T>, key: T -> K, k: K)
    ensures WithKey(a + b, key, k) == WithKey(a, key, k) + WithKey(b, key, k)
    decreases |b|
  {
    if b == [] {
      assert a + b == a;
    } else {
      assert (a + b)[..|a + b| - 1] == a + b[..|b| - 1];
      WithKeyAppend(a, b[..|b| - 1], key, k);
    }
  }

  lemma {:induction false} WithKeyNone<T, K>(s: seq<T>, key: T -> K, k: K)
    requires forall i :: 0 <= i < |s| ==> key(s[i]) != k
    ensures WithKey(s, key, k) == []
  {
    if s != [] {
      WithKeyNone(s[..|s| - 1], key, k);
    }
  }

  lemma InsertWithKey<T, K(!new)>(s: seq<T>, x: T, key: T -> K, le: (K, K) -> bool, k: K)
    requires TotalPreorder(le)
    ensures WithKey(Insert(s, x, key, le), key, k)
         == WithKey(s, key, k) + (if key(x) == k then [x] else [])
  {
    var p := InsertPos(s, x, key, le);
    assert s == s[..p] + s[p..];
    WithKeyAppend(s[..p], s[p..], key, k);
    WithKeyAppend(s[..p] + [x], s[p..], key, k);
    WithKeyAppend(s[..p], [x], key, k);
    assert [x][..0] == [];
    if key(x) == k {
      assert le(key(x), key(x));
      WithKeyNone(s[p..], key, k);
    }
  }

  lemma {:induction false} InsertSorted<T, K(!new)>(s: seq<T>, x: T, key: T -> K, le: (K, K) -> bool)
    requires TotalPreorder(le) && SortedBy(s, key, le)
    ensures SortedBy(Insert(s, x, key, le), key, le)
  {
    var p := InsertPos(s, x, key, le);
    var r := Insert(s, x, key, le);
    forall i, j | 0 <= i < j < |r| ensures le(key(r[i]), key(r[j])) {
      if j == p {
        assert le(key(s[p - 1]), key(x));
        if i < p - 1 {
          assert le(key(s[i]), key(s[p - 1]));
        }
      } else if i == p {
        assert !le(key(s[j - 1]), key(x));
      } else {
        var i' := if i < p then i else i - 1;
        var j' := if j < p then j else j - 1;
        assert r[i] == s[i'] && r[j] == s[j'];
      }
    }
  }

  /** The stable sort is ordered by the key. */
  lemma {:induction false} SortBySorted<T, K(!new)>(xs: seq<T>, key: T -> K, le: (K, K) -> bool)
    requires TotalPreorder(le)
    ensures SortedBy(SortBy(xs, key, le), key, le)
  {
    if xs != [] {
      SortBySorted(xs[..|xs| - 1], key, le);
      InsertSorted(SortBy(xs[..|xs| - 1], key, le), xs[|xs| - 1], key, le);
    }
  }

  /** The stable sort is a permutation of its input. */
  lemma {:induction false} SortByPermutation<T, K>(xs: seq<T>, key: T -> K, le: (K, K) -> bool)
    ensures multiset(SortBy(xs, key, le)) == multiset(xs)
  {
    if xs != [] {
      var init := xs[..|xs| - 1];
      var x := xs[|xs| - 1];
      SortByPermutation(init, key, le);
      InsertPermutation(SortBy(init, key, le), x, key, le);
      assert xs == init + [x];
    }
  }

  /** Inserting adds exactly the inserted element. */
  lemma InsertPermutation<T, K>(s: seq<T>, x: T, key: T -> K, le: (K, K) -> bool)
    ensures multiset(Insert(s, x, key, le)) == multiset(s) + multiset{x}
  {
    var p := InsertPos(s, x, key, le);
    assert s == s[..p] + s[p..];
    assert multiset(s) == multiset(s[..p]) + multiset(s[p..]);
  }

  /** The stable sort keeps the input order among elements with equal keys. */
  lemma {:induction false} SortByStable<T, K(!new)>(xs: seq<T>, key: T -> K, le: (K, K) -> bool, k: K)
    requires TotalPreorder(le)
    ensures WithKey(SortBy(xs, key, le), key, k) == WithKey(xs, key, k)
  {
    if xs != [] {
      SortByStable(xs[..|xs| - 1], key, le, k);
      InsertWithKey(SortBy(xs[..|xs| - 1], key, le), xs[|xs| - 1], key, le, k);
    }
  }

  /** `x` goes at `j` when the key before `j` is not greater and every key from `j` on is greater. */
  lemma {:induction false} InsertPosAt<T, K>(s: seq<T>, x: T, key: T -> K, le: (K, K) -> bool, j: nat)
    requires j <= |s| && (j == 0 || le(key(s[j - 1]), key(x)))
    requires forall k :: j <= k < |s| ==> !le(key(s[k]), key(x))
    ensures InsertPos(s, x, key, le) == j
    decreases |s|
  {
    if |s| > j {
      var init := s[..|s| - 1];
      assert forall k :: j <= k < |init| ==> init[k] == s[k];
      InsertPosAt(init, x, key, le, j);
    }
  }

  /** A sequence laid out as `s` with `x` at position `InsertPos` is the insertion of `x` into `s`. */
  lemma InsertLayout<T, K>(s: seq<T>, x: T, key: T -> K, le: (K, K) -> bool, t: seq<T>)
    requires |t| == |s| + 1
    requires var j := InsertPos(s, x, key, le);
      && (forall k :: 0 <= k < j ==> t[k] == s[k])
      && t[j] == x
      && (forall k :: j < k < |t| ==> t[k] == s[k - 1])
    ensures t == Insert(s, x, key, le)
  {
    var j := InsertPos(s, x, key, le);
    var r := Insert(s, x, key, le);
    forall k | 0 <= k < |t| ensures t[k] == r[k] {
      if k < j {
        assert r[k] == s[k];
      } else if k > j {
        assert r[k] == s[k - 1];
      }
    }
  }

  /**
   * The inner loop of insertion sort: shifts every element of `a[..i]`
   * whose key is greater than `x`'s one place right, scanning from the
   * back, and returns the gap it leaves.
   */
  method ShiftGreater<T, K>(a: array<T>, i: nat, x: T, key: T -> K, le: (K, K) -> bool) returns (j: nat)
    requires i < a.Length
    modifies a
    ensures j <= i && j == InsertPos(old(a[..i]), x, key, le)
    ensures forall k :: 0 <= k < j ==> a[k] == old(a[k])
    ensures forall k :: j < k <= i ==> a[k] == old(a[k - 1])
    ensures forall k :: i < k < a.Length ==> a[k] == old(a[k])
  {
    ghost var s := a[..i];
    j := i;
    while j > 0 && !le(key(a[j - 1]), key(x))
      invariant 0 <= j <= i
      invariant forall k :: 0 <= k < j ==> a[k] == s[k]
      invariant forall k :: j < k <= i ==> a[k] == s[k - 1]
      invariant forall k :: i < k < a.Length ==> a[k] == old(a[k])
      invariant forall k :: j <= k < i ==> !le(key(s[k]), key(x))
    {
      a[j] := a[j - 1];
      j := j - 1;
    }
    InsertPosAt(s, x, key, le, j);
  }

  /** Moves `a[i]` down into the sorted prefix `a[..i]`, as one step of insertion sort. */
  method InsertLast<T, K>(a: array<T>, i: nat, key: T -> K, le: (K, K) -> bool)
    requires i < a.Length
    modifies a
    ensures a[..i + 1] == Insert(old(a[..i]), old(a[i]), key, le)
    ensures forall k :: i < k < a.Length ==> a[k] == old(a[k])
  {
    ghost var s := a[..i];
    var x := a[i];
    var j := ShiftGreater(a, i, x, key, le);
    a[j] := x;
    InsertLayout(s, x, key, le, a[..i + 1]);
  }

  /** Insertion sort in place; the array ends as the stable sort of its old contents. */
  method SortInPlace<T, K>(a: array<T>, key: T -> K, le: (K, K) -> bool)
    modifies a
    ensures a[..] == SortBy(old(a[..]), key, le)
  {
    ghost var input := a[..];
    for i := 0 to a.Length
      invariant forall k :: i <= k < a.Length ==> a[k] == input[k]
      invariant a[..i] == SortBy(input[..i], key, le)
    {
      InsertLast(a, i, key, le);
      assert input[..i + 1][..i] == input[..i];
    }
    assert input[..a.Length] == input;
  }

  // The two orders the sorts use: strings by code point, indices numerically.

  predicate NatLe(a: nat, b: nat)
  {
    a <= b
  }

  lemma LexLeTotalPreorder()
    ensures TotalPreorder(LexLe)
  {
    forall a: string, b: string ensures LexLe(a, b) || LexLe(b, a) {
      LexLeTotal(a, b);
    }
    forall a: string, b: string, c: string | LexLe(a, b) && LexLe(b, c) ensures LexLe(a, c) {
      LexLeTransitive(a, b, c);
    }
  }

  lemma NatLeTotalPreorder()
    ensures TotalPreorder(NatLe)
  {
  }
}
