/** Vocabulary shared by the modules: optional values, results, duplicate-free sequences. */
module Common {
  datatype Option<+T> = None | Some(value: T)

  datatype Result<+T, +E> = Success(value: T) | Failure(error: E) {
    predicate IsFailure() { Failure? }

    function PropagateFailure<U>(): Result<U, E>
      requires Failure?
    {
      Failure(error)
    }

    function Extract(): T
      requires Success?
    {
      value
    }
  }

  /** No value occurs twice. */
  ghost predicate Distinct<T>(s: seq<T>) {
    forall i, j :: 0 <= i < j < |s| ==> s[i] != s[j]
  }

  /** s without its element at position i. */
  function RemoveAt<T>(s: seq<T>, i: nat): (r: seq<T>)
    requires i < |s|
    ensures |r| == |s| - 1
  {
    s[..i] + s[i + 1..]
  }

  /** s without its first occurrence of x, if there is one. */
  function Without<T(==)>(s: seq<T>, x: T): (r: seq<T>)
    ensures |r| <= |s|
  {
    if s == [] then []
    else if s[0] == x then s[1..]
    else [s[0]] + Without(s[1..], x)
  }

  lemma {:induction false} WithoutSubset<T>(s: seq<T>, x: T)
    ensures forall y :: y in Without(s, x) ==> y in s
    ensures forall y :: y in s && y != x ==> y in Without(s, x)
  {
    if s != [] {
      assert s == [s[0]] + s[1..];
      if s[0] != x {
        WithoutSubset(s[1..], x);
      }
    }
  }

  /** In a duplicate-free list, Without takes away exactly one element. */
  lemma {:induction false} WithoutMembers<T>(s: seq<T>, x: T)
    requires Distinct(s)
    ensures Distinct(Without(s, x))
    ensures forall y :: y in Without(s, x) <==> y in s && y != x
    ensures x !in s ==> Without(s, x) == s
  {
    WithoutSubset(s, x);
    if s != [] {
      assert s == [s[0]] + s[1..];
      if s[0] != x {
        WithoutMembers(s[1..], x);
        assert s[0] !in s[1..];
        DistinctCons(s[0], Without(s[1..], x));
      }
    }
  }

  lemma DistinctCons<T>(x: T, s: seq<T>)
    requires Distinct(s) && x !in s
    ensures Distinct([x] + s)
  {
  }

  /** Where Without cuts: at the position of x. */
  lemma {:induction false} WithoutAt<T>(s: seq<T>, i: nat)
    requires Distinct(s) && i < |s|
    ensures Without(s, s[i]) == RemoveAt(s, i)
  {
    if i > 0 {
      var t := s[1..];
      assert Distinct(t) && t[i - 1] == s[i] && s[0] != s[i];
      hide Distinct;
      WithoutAt(t, i - 1);
      assert RemoveAt(s, i) == [s[0]] + RemoveAt(t, i - 1) by {
        hide Without;
      }
    }
  }

  ghost function Below(n: nat): (r: set<nat>)
    ensures |r| == n && forall x: nat :: x in r <==> x < n
  {
    if n == 0 then {} else Below(n - 1) + {n - 1}
  }

  lemma SubsetSize<T>(a: set<T>, b: set<T>)
    requires a <= b
    ensures |a| <= |b| && (|a| == |b| ==> a == b)
  {
    assert b == a + (b - a);
  }

  /** As many different values as there are positions. */
  lemma {:induction false} DistinctSize<T>(s: seq<T>)
    requires Distinct(s)
    ensures |(set x | x in s)| == |s|
  {
    if s != [] {
      DistinctSize(s[1..]);
      assert (set x | x in s) == (set x | x in s[1..]) + {s[0]} && s[0] !in s[1..];
    }
  }

  /** A duplicate-free list of numbers below n has at most n of them. */
  lemma DistinctBounded(s: seq<nat>, n: nat)
    requires Distinct(s) && forall x :: x in s ==> x < n
    ensures |s| <= n
  {
    DistinctSize(s);
    SubsetSize((set x | x in s), Below(n));
  }
}
