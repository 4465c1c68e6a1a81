/** Small shared vocabulary: optional values, results with an error, sums. */
module Base {

  /** Python's `None` next to a value. */
  datatype Option<+T> = None | Some(value: T)

  /** A computation that either returns a value or raises. */
  datatype Result<+T, +E> = Ok(value: T) | Err(error: E)

  /** The empty sequence is the identity of concatenation. */
  lemma AppendEmpty<T>(s: seq<T>)
    ensures [] + s == s && s + [] == s
  {
  }

  /** The first `j` items are the first `j - 1` followed by item `j - 1`. */
  lemma TakeSnoc<T>(s: seq<T>, j: nat)
    requires 0 < j <= |s|
    ensures s[..j] == s[..j - 1] + [s[j - 1]]
  {
  }

  /** What occurs among the first `j` items occurs among the first `j - 1`
      or is item `j - 1`. */
  lemma InTakeSnoc<T>(s: seq<T>, j: nat)
    requires 0 < j <= |s|
    ensures forall x :: x in s[..j] <==> x in s[..j - 1] || x == s[j - 1]
  {
    TakeSnoc(s, j);
  }

  /** No element occurs twice. */
  predicate Distinct<T(==)>(s: seq<T>)
  {
    forall i, j :: 0 <= i < j < |s| ==> s[i] != s[j]
  }

  /** A permutation of a sequence without repeats has none either. */
  lemma DistinctPermutation<T>(s: seq<T>, t: seq<T>)
    requires Distinct(s) && multiset(s) == multiset(t)
    ensures Distinct(t)
  {
    forall i, j | 0 <= i < j < |t| ensures t[i] != t[j] {
      if t[i] == t[j] {
        assert t == t[..i] + [t[i]] + t[i + 1..j] + [t[j]] + t[j + 1..];
        assert multiset(t)[t[i]] >= 2;
        DistinctOnce(s, t[i]);
        assert false;
      }
    }
  }

  lemma {:induction false} DistinctOnce<T>(s: seq<T>, x: T)
    requires Distinct(s)
    ensures multiset(s)[x] <= 1
  {
    if s != [] {
      var init := s[..|s| - 1];
      assert Distinct(init);
      DistinctOnce(init, x);
      assert s == init + [s[|s| - 1]];
      assert s[|s| - 1] !in init;
    }
  }

  /** Sequences with the same elements, counted with repeats, have the same
      members. */
  lemma SameElements<T>(a: seq<T>, b: seq<T>)
    requires multiset(a) == multiset(b)
    ensures forall x :: x in a <==> x in b
  {
    forall x ensures x in a <==> x in b {
      assert x in a <==> x in multiset(a);
      assert x in b <==> x in multiset(b);
    }
  }

  /** The sum of a sequence of integers, accumulated from the left. */
  function Sum(xs: seq<int>): int
  {
    if xs == [] then 0 else Sum(xs[..|xs| - 1]) + xs[|xs| - 1]
  }

  lemma {:induction false} SumAppend(xs: seq<int>, ys: seq<int>)
    ensures Sum(xs + ys) == Sum(xs) + Sum(ys)
  {
    if ys != [] {
      assert (xs + ys)[..|xs + ys| - 1] == xs + ys[..|ys| - 1];
      SumAppend(xs, ys[..|ys| - 1]);
    } else {
      assert xs + ys == xs;
    }
  }

  lemma {:induction false} SumNonNegative(xs: seq<int>)
    requires forall i :: 0 <= i < |xs| ==> xs[i] >= 0
    ensures Sum(xs) >= 0
  {
    if xs != [] {
      SumNonNegative(xs[..|xs| - 1]);
    }
  }
}
