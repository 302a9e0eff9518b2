/** The `java.util` collection behaviour several parts of PMAT rely on: a `LinkedHashSet`
    keeps the first occurrence of each element, in insertion order. */
module Collections {

  /** No element occurs twice. */
  predicate Distinct<T(==)>(xs: seq<T>) {
    forall i, j :: 0 <= i < j < |xs| ==> xs[i] != xs[j]
  }

  /** The elements of `xs` in first-seen order, each once: what adding them one by one to
      a `LinkedHashSet` (or a `HashSet` iterated in insertion order) holds. */
  function Dedup<T(==,!new)>(xs: seq<T>): (r: seq<T>)
    ensures Distinct(r)
    ensures forall x :: x in r <==> x in xs
    decreases |xs|
  {
    if xs == [] then []
    else
      var p := Dedup(xs[..|xs| - 1]);
      assert xs == xs[..|xs| - 1] + [xs[|xs| - 1]];
      if xs[|xs| - 1] in p then p else p + [xs[|xs| - 1]]
  }

  /** A list without repeats is its own de-duplication. */
  lemma {:induction false} DedupOfDistinct<T(!new)>(xs: seq<T>)
    requires Distinct(xs)
    ensures Dedup(xs) == xs
    decreases |xs|
  {
    if xs != [] {
      DedupOfDistinct(xs[..|xs| - 1]);
    }
  }

  /** A list whose every element is `x` keeps just one `x`. */
  lemma {:induction false} DedupConstant<T(!new)>(xs: seq<T>, x: T)
    requires x in xs
    requires forall i :: 0 <= i < |xs| ==> xs[i] == x
    ensures Dedup(xs) == [x]
    decreases |xs|
  {
    var p := xs[..|xs| - 1];
    if p == [] {
      assert xs == [x];
    } else {
      assert p[0] == x;
      DedupConstant(p, x);
    }
  }

  /** Adding an element at the end adds it to the de-duplication unless it is already
      there. */
  lemma DedupSnoc<T(!new)>(xs: seq<T>, x: T)
    ensures Dedup(xs + [x]) == if x in Dedup(xs) then Dedup(xs) else Dedup(xs) + [x]
  {
    assert (xs + [x])[..|xs|] == xs;
  }

  /** The position of the first occurrence of `x`. */
  function IndexOf<T(==)>(xs: seq<T>, x: T): (r: nat)
    requires x in xs
    ensures r < |xs| && xs[r] == x
    ensures forall j :: 0 <= j < r ==> xs[j] != x
  {
    if xs[0] == x then 0 else 1 + IndexOf(xs[1..], x)
  }

  /** Appending does not move the elements already present, and a new element lands at
      the end. */
  lemma IndexOfSnoc<T>(xs: seq<T>, y: T, x: T)
    requires x in xs + [y]
    ensures x in xs ==> IndexOf(xs + [y], x) == IndexOf(xs, x)
    ensures x !in xs ==> IndexOf(xs + [y], x) == |xs|
  {
    if x in xs {
      var q := IndexOf(xs, x);
      assert (xs + [y])[q] == x;
    }
  }
}
