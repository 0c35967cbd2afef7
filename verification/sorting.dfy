/** Sorting a prefix of an array in place, standing in for the C library's `qsort`
    (main.c:451-452). `qsort` promises only that the result is ordered by the
    comparison and is a rearrangement of the input; nothing about equal elements. */
module Sorting {

  /** `le` orders any two elements one way or the other. */
  ghost predicate Total<T(!new)>(le: (T, T) -> bool) {
    forall x: T, y: T :: le(x, y) || le(y, x)
  }

  ghost predicate Transitive<T(!new)>(le: (T, T) -> bool) {
    forall x: T, y: T, z: T :: le(x, y) && le(y, z) ==> le(x, z)
  }

  /** Every element of `s` is `le` every later one. */
  ghost predicate SortedBy<T>(s: seq<T>, le: (T, T) -> bool) {
    forall p, q :: 0 <= p < q < |s| ==> le(s[p], s[q])
  }

  /** Sorts `a[..n]` by `le` and leaves the rest of `a` alone. */
  method SortPrefix<T(!new)>(a: array<T>, n: nat, le: (T, T) -> bool)
    requires n <= a.Length && Total(le) && Transitive(le)
    modifies a
    ensures SortedBy(a[..n], le)
    ensures multiset(a[..n]) == multiset(old(a[..n]))
    ensures a[n..] == old(a[n..])
  {
    if n == 0 {
      return;
    }
    var i := 1;
    while i < n
      invariant 1 <= i <= n
      invariant forall p, q :: 0 <= p < q < i ==> le(a[p], a[q])
      invariant multiset(a[..n]) == multiset(old(a[..n]))
      invariant a[n..] == old(a[n..])
    {
      Insert(a, n, i, le);
      i := i + 1;
    }
    assert forall p, q :: 0 <= p < q < n ==> le(a[..n][p], a[..n][q]);
  }

  /** One insertion step: `a[..i]` is sorted, and `a[i]` is moved left into place by
      swaps. */
  method Insert<T(!new)>(a: array<T>, n: nat, i: nat, le: (T, T) -> bool)
    requires 1 <= i < n <= a.Length && Total(le) && Transitive(le)
    requires forall p, q :: 0 <= p < q < i ==> le(a[p], a[q])
    modifies a
    ensures forall p, q :: 0 <= p < q <= i ==> le(a[p], a[q])
    ensures multiset(a[..n]) == multiset(old(a[..n]))
    ensures a[n..] == old(a[n..])
  {
    var j := i;
    while j > 0 && !le(a[j - 1], a[j])
      invariant 0 <= j <= i
      invariant forall p, q :: 0 <= p < q <= i && p != j && q != j ==> le(a[p], a[q])
      invariant forall q :: j < q <= i ==> le(a[j], a[q])
      invariant multiset(a[..n]) == multiset(old(a[..n]))
      invariant a[n..] == old(a[n..])
    {
      Swap(a, n, j - 1, j);
      j := j - 1;
    }
  }

  /** Exchanges two elements of `a[..n]`. */
  method Swap<T>(a: array<T>, n: nat, p: nat, q: nat)
    requires p < q < n <= a.Length
    modifies a
    ensures a[..] == old(a[..])[p := old(a[q])][q := old(a[p])]
    ensures multiset(a[..n]) == multiset(old(a[..n]))
    ensures a[n..] == old(a[n..])
  {
    ghost var s := a[..n];
    a[p], a[q] := a[q], a[p];
    assert a[..n] == s[p := s[q]][q := s[p]];
  }

  // ---------------------------------------------------------------------------
  // Rearranging keeps distinct keys distinct
  // ---------------------------------------------------------------------------

  /** No two elements of `s` share a key. */
  ghost predicate UniqueBy<T, K>(s: seq<T>, key: T -> K) {
    forall p, q :: 0 <= p < q < |s| ==> key(s[p]) != key(s[q])
  }

  /** `s` without its element at `p`. */
  function RemoveAt<T>(s: seq<T>, p: nat): (r: seq<T>)
    requires p < |s|
    ensures |r| == |s| - 1
    ensures forall r' :: 0 <= r' < |r| ==> r[r'] == s[if r' < p then r' else r' + 1]
    ensures multiset(r) == multiset(s) - multiset{s[p]}
  {
    assert s == s[..p] + [s[p]] + s[p + 1..];
    s[..p] + s[p + 1..]
  }

  lemma RemoveAtUnique<T, K>(s: seq<T>, p: nat, key: T -> K)
    requires p < |s| && UniqueBy(s, key)
    ensures UniqueBy(RemoveAt(s, p), key)
    ensures forall r :: 0 <= r < |RemoveAt(s, p)| ==> key(RemoveAt(s, p)[r]) != key(s[p])
  {
    var t := RemoveAt(s, p);
    forall r, u | 0 <= r < u < |t| ensures key(t[r]) != key(t[u]) {
      var r', u' := if r < p then r else r + 1, if u < p then u else u + 1;
      assert t[r] == s[r'] && t[u] == s[u'];
    }
    forall r | 0 <= r < |t| ensures key(t[r]) != key(s[p]) {
      var r' := if r < p then r else r + 1;
      assert t[r] == s[r'];
    }
  }

  /** Sorting cannot create a duplicate key. */
  lemma {:induction false} PermutationUnique<T, K>(a: seq<T>, b: seq<T>, key: T -> K)
    requires multiset(a) == multiset(b) && UniqueBy(a, key)
    ensures UniqueBy(b, key)
    decreases |b|
  {
    if b != [] {
      var x := b[|b| - 1];
      var b' := b[..|b| - 1];
      assert b == b' + [x];
      assert multiset(b') == multiset(b) - multiset{x};
      assert x in multiset(a);
      var p :| 0 <= p < |a| && a[p] == x;
      var a' := RemoveAt(a, p);
      RemoveAtUnique(a, p, key);
      PermutationUnique(a', b', key);
      forall q | 0 <= q < |b'| ensures key(b'[q]) != key(x) {
        assert b'[q] in multiset(a');
        var r :| 0 <= r < |a'| && a'[r] == b'[q];
      }
    }
  }
}
