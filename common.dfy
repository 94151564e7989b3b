/** Small value types and sequence helpers shared by every other module. */
module Common {

  /** A value that may be absent (Python's `None`, or an empty `{}` result). */
  datatype Option<T> = None | Some(value: T)

  /** The outcome of an operation that can fail with a `ValueError`-style message. */
  datatype Outcome = Pass | Fail(message: string)

  function MinReal(a: real, b: real): real
  {
    if a <= b then a else b
  }

  function MaxInt(a: int, b: int): int
  {
    if a >= b then a else b
  }

  /** Python's `min` over a non-empty list. */
  function MinOf(s: seq<int>): (r: int)
    requires s != []
    ensures r in s && forall x :: x in s ==> r <= x
  {
    if |s| == 1 then s[0]
    else
      var m := MinOf(s[1..]);
      assert forall x :: x in s ==> x == s[0] || x in s[1..];
      if s[0] <= m then s[0] else m
  }

  /** Python's `max` over a non-empty list. */
  function MaxOf(s: seq<int>): (r: int)
    requires s != []
    ensures r in s && forall x :: x in s ==> x <= r
  {
    if |s| == 1 then s[0]
    else
      var m := MaxOf(s[1..]);
      assert forall x :: x in s ==> x == s[0] || x in s[1..];
      if s[0] >= m then s[0] else m
  }

  /** No element occurs twice. */
  predicate Distinct<T(==)>(s: seq<T>)
  {
    forall i, j :: 0 <= i < j < |s| ==> s[i] != s[j]
  }

  /** The set of elements of a sequence. */
  function Elems<T(==)>(s: seq<T>): set<T>
  {
    set x | x in s
  }

  /** A sequence without repetitions has as many elements as its element set. */
  lemma {:induction false} DistinctCard<T>(s: seq<T>)
    requires Distinct(s)
    ensures |Elems(s)| == |s|
  {
    if s != [] {
      assert Distinct(s[1..]);
      DistinctCard(s[1..]);
      assert Elems(s) == {s[0]} + Elems(s[1..]);
      assert s[0] !in Elems(s[1..]);
    }
  }

  /** A subset is no larger than its superset. */
  lemma SubsetCard<T>(A: set<T>, B: set<T>)
    requires A <= B
    ensures |A| <= |B|
  {
    assert B == A + (B - A);
    assert A * (B - A) == {};
  }

  /** The elements of `xs` that belong to `S`, in the order of `xs`: how the model
      enumerates a Python set whose members all appear in `xs`. */
  function Select<T(==,!new)>(xs: seq<T>, S: set<T>): (r: seq<T>)
    ensures forall x :: x in r <==> x in xs && x in S
    ensures |r| <= |xs|
  {
    if xs == [] then []
    else if xs[0] in S then [xs[0]] + Select(xs[1..], S)
    else Select(xs[1..], S)
  }

  lemma {:induction false} SelectDistinct<T(!new)>(xs: seq<T>, S: set<T>)
    requires Distinct(xs)
    ensures Distinct(Select(xs, S))
  {
    if xs != [] {
      assert Distinct(xs[1..]);
      SelectDistinct(xs[1..], S);
      assert xs[0] !in xs[1..];
    }
  }

  /** Enumerating a set through a repetition-free sequence that covers it keeps its size. */
  lemma SelectCard<T(!new)>(xs: seq<T>, S: set<T>)
    requires Distinct(xs)
    requires S <= Elems(xs)
    ensures Elems(Select(xs, S)) == S
    ensures |Select(xs, S)| == |S|
  {
    SelectDistinct(xs, S);
    DistinctCard(Select(xs, S));
    assert Elems(Select(xs, S)) == S;
  }
}
