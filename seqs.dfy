/** Sequence helpers shared by the column bookkeeping: distinctness, an
    order-preserving filter (a Python list comprehension with a condition),
    subsequences, and selection of elements by an index sequence. */
module Seqs {

  datatype Option<+T> = None | Some(value: T)

  datatype Result<+R, +E> = Ok(value: R) | Err(error: E)

  /** No element occurs twice. */
  predicate Distinct<T(==)>(s: seq<T>) {
    forall i, j :: 0 <= i < j < |s| ==> s[i] != s[j]
  }

  /** `a` can be obtained from `b` by deleting elements: `a` keeps `b`'s order. */
  predicate Subseq<T(==)>(a: seq<T>, b: seq<T>)
    decreases |b|
  {
    a == [] || (b != [] && ((a[0] == b[0] && Subseq(a[1..], b[1..])) || Subseq(a, b[1..])))
  }

  /** `[x for x in s if keep(x)]`: the elements of `s` that satisfy `keep`,
      in the order of `s` and with their multiplicity. */
  function Filter<T(==,!new)>(s: seq<T>, keep: T -> bool): (r: seq<T>)
    ensures forall x :: x in r <==> x in s && keep(x)
    ensures forall x :: multiset(r)[x] == if keep(x) then multiset(s)[x] else 0
    ensures Subseq(r, s)
    ensures |r| <= |s|
  {
    if s == [] then []
    else
      assert s == [s[0]] + s[1..];
      var rest := Filter(s[1..], keep);
      if keep(s[0]) then [s[0]] + rest else rest
  }

  lemma {:induction false} FilterDistinct<T(!new)>(s: seq<T>, keep: T -> bool)
    requires Distinct(s)
    ensures Distinct(Filter(s, keep))
  {
    if s != [] {
      assert Distinct(s[1..]);
      FilterDistinct(s[1..], keep);
      assert s[0] !in s[1..];
    }
  }

  /** Filtering with a condition every element meets changes nothing. */
  lemma {:induction false} FilterAll<T(!new)>(s: seq<T>, keep: T -> bool)
    requires forall x :: x in s ==> keep(x)
    ensures Filter(s, keep) == s
  {
    if s != [] {
      FilterAll(s[1..], keep);
    }
  }

  /** `s` without any occurrence of `x`, the rest in order. */
  function Remove<T(==,!new)>(s: seq<T>, x: T): (r: seq<T>)
    ensures forall y :: y in r <==> y in s && y != x
    ensures x !in s ==> r == s
    ensures Subseq(r, s)
  {
    if s == [] then []
    else if s[0] == x then Remove(s[1..], x)
    else [s[0]] + Remove(s[1..], x)
  }

  /** Removing the only occurrence of a value deletes exactly its position. */
  lemma {:induction false} RemoveAt<T(!new)>(s: seq<T>, i: nat)
    requires Distinct(s) && i < |s|
    ensures Remove(s, s[i]) == s[..i] + s[i+1..]
  {
    if i == 0 {
      assert forall j :: 0 <= j < |s[1..]| ==> s[1..][j] == s[j + 1] != s[0];
    } else {
      assert s[1..][i-1] == s[i] && s[0] != s[i];
      assert Distinct(s[1..]);
      RemoveAt(s[1..], i - 1);
      assert s[1..][..i-1] == s[1..i];
      assert s[1..][i..] == s[i+1..];
      assert s[..i] == [s[0]] + s[1..i];
    }
  }

  lemma {:induction false} RemoveDistinct<T(!new)>(s: seq<T>, x: T)
    requires Distinct(s)
    ensures Distinct(Remove(s, x))
  {
    if s != [] {
      assert Distinct(s[1..]);
      RemoveDistinct(s[1..], x);
      assert forall j :: 0 <= j < |s[1..]| ==> s[1..][j] == s[j + 1] != s[0];
      DistinctConcat([s[0]], Remove(s[1..], x));
    }
  }

  lemma DistinctConcat<T>(a: seq<T>, b: seq<T>)
    requires Distinct(a) && Distinct(b)
    requires forall x :: x in a ==> x !in b
    ensures Distinct(a + b)
  {
    forall i, j | 0 <= i < j < |a + b|
      ensures (a + b)[i] != (a + b)[j]
    {
      if j < |a| {
      } else if i < |a| {
        assert (a + b)[i] in a && (a + b)[j] in b;
      } else {
        assert (a + b)[i] == b[i - |a|] && (a + b)[j] == b[j - |a|];
      }
    }
  }

  lemma DistinctParts<T>(a: seq<T>, b: seq<T>)
    requires Distinct(a + b)
    ensures Distinct(a) && Distinct(b)
    ensures forall x :: x in a ==> x !in b
  {
    forall i, j | 0 <= i < j < |a| ensures a[i] != a[j] {
      assert (a + b)[i] == a[i] && (a + b)[j] == a[j];
    }
    forall i, j | 0 <= i < j < |b| ensures b[i] != b[j] {
      assert (a + b)[|a| + i] == b[i] && (a + b)[|a| + j] == b[j];
    }
    forall i, j | 0 <= i < |a| && 0 <= j < |b| ensures a[i] != b[j] {
      assert (a + b)[i] == a[i] && (a + b)[|a| + j] == b[j];
    }
  }

  /** `[0, 1, ..., n-1]`. */
  function Range(n: nat): (r: seq<nat>)
    ensures |r| == n && forall i :: 0 <= i < n ==> r[i] == i
  {
    seq(n, i => i)
  }

  predicate InBounds(idx: seq<nat>, n: nat) {
    forall k :: 0 <= k < |idx| ==> idx[k] < n
  }

  /** The elements of `s` at the positions `idx`, in the order of `idx`. */
  function Select<T>(s: seq<T>, idx: seq<nat>): (r: seq<T>)
    requires InBounds(idx, |s|)
    ensures |r| == |idx| && forall k :: 0 <= k < |idx| ==> r[k] == s[idx[k]]
  {
    seq(|idx|, k requires 0 <= k < |idx| => s[idx[k]])
  }

  /** Taking out the position that holds the largest index of a
      rearrangement of `[0, ..., n]` leaves a rearrangement of `[0, ..., n-1]`. */
  lemma WithoutLargest(idx: seq<nat>, k: nat, n: nat)
    requires multiset(idx) == multiset(Range(n + 1))
    requires k < |idx| && idx[k] == n
    ensures multiset(idx[..k] + idx[k+1..]) == multiset(Range(n))
  {
    var rest := idx[..k] + idx[k+1..];
    assert idx == idx[..k] + [n] + idx[k+1..];
    assert Range(n + 1) == Range(n) + [n];
    assert multiset(idx) == multiset(idx[..k]) + multiset{n} + multiset(idx[k+1..]);
    assert multiset(Range(n + 1)) == multiset(Range(n)) + multiset{n};
    assert multiset(rest) == multiset(idx[..k]) + multiset(idx[k+1..]);
    assert multiset(rest) + multiset{n} == multiset(Range(n)) + multiset{n};
    assert multiset(rest) == (multiset(rest) + multiset{n}) - multiset{n};
    assert multiset(Range(n)) == (multiset(Range(n)) + multiset{n}) - multiset{n};
  }

  lemma SelectAround<T>(s: seq<T>, idx: seq<nat>, k: nat)
    requires |s| > 0 && k < |idx| && idx[k] == |s| - 1
    requires InBounds(idx[..k] + idx[k+1..], |s| - 1)
    ensures InBounds(idx, |s|)
    ensures multiset(Select(s, idx))
         == multiset(Select(s[..|s| - 1], idx[..k] + idx[k+1..])) + multiset{s[|s| - 1]}
  {
    var n := |s| - 1;
    var rest := idx[..k] + idx[k+1..];
    forall j | 0 <= j < |idx| ensures idx[j] < |s| {
      if j < k { assert rest[j] == idx[j]; }
      else if j > k { assert rest[j - 1] == idx[j]; }
    }
    var a := Select(s[..n], rest);
    forall j | 0 <= j < |idx|
      ensures Select(s, idx)[j] == (a[..k] + [s[n]] + a[k..])[j]
    {
      if j < k {
        assert rest[j] == idx[j];
      } else if j > k {
        assert rest[j - 1] == idx[j];
      }
    }
    assert Select(s, idx) == a[..k] + [s[n]] + a[k..];
    assert a == a[..k] + a[k..];
  }

  /** Selecting by a rearrangement of all positions rearranges the elements:
      every element is taken exactly as often as it occurs. */
  lemma {:induction false} SelectPermutation<T>(s: seq<T>, idx: seq<nat>)
    requires multiset(idx) == multiset(Range(|s|))
    ensures InBounds(idx, |s|)
    ensures multiset(Select(s, idx)) == multiset(s)
    decreases |s|
  {
    forall k | 0 <= k < |idx| ensures idx[k] < |s| {
      assert idx[k] in multiset(idx);
      assert idx[k] in Range(|s|);
    }
    if s == [] {
      assert |idx| == |multiset(idx)| == 0;
    } else {
      var n := |s| - 1;
      assert Range(|s|)[n] == n;
      assert n in multiset(idx);
      var k :| 0 <= k < |idx| && idx[k] == n;
      WithoutLargest(idx, k, n);
      SelectPermutation(s[..n], idx[..k] + idx[k+1..]);
      SelectAround(s, idx, k);
      assert s == s[..n] + [s[n]];
    }
  }
}
