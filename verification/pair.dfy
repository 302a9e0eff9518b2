/** PMAT's immutable `Pair`: two possibly-null items, compared item by item. */
module Pair {
  import opened Wrappers
  import JavaText

  /** A pair whose items may each be `null` (`None`). */
  datatype Pair<T, U> = Pair(first: Option<T>, second: Option<U>)

  /** `new Pair(first, second)` followed by `getFirst()` and `getSecond()` gives the
      arguments back. */
  lemma GettersReturnArguments<T, U>(first: Option<T>, second: Option<U>)
    ensures Pair(first, second).first == first && Pair(first, second).second == second
  {
  }

  /** `equals`: for each item, either both are the same reference or this one is non-null
      and equal to the other; `null` equals only `null`. */
  predicate Equals<T(==), U(==)>(a: Pair<T, U>, b: Pair<T, U>) {
    ItemEquals(a.first, b.first) && ItemEquals(a.second, b.second)
  }

  /** One item of `equals`: `x == y || (x != null && x.equals(y))`. */
  predicate ItemEquals<X(==)>(x: Option<X>, y: Option<X>) {
    (x.None? && y.None?) || (x.Some? && y.Some? && x.value == y.value)
  }

  /** `equals` is item-by-item equality, `null` included, and so an equivalence. */
  lemma EqualsIsComponentwise<T, U>(a: Pair<T, U>, b: Pair<T, U>)
    ensures Equals(a, b) <==> a.first == b.first && a.second == b.second
    ensures Equals(a, b) <==> Equals(b, a)
  {
  }

  /** `hashCode`: `7`, then `61 * hash + h` for each item, with `0` for `null`, in 32-bit
      arithmetic. The items' own hash codes are parameters. */
  function HashCode<T, U>(p: Pair<T, U>, hashFirst: T -> int, hashSecond: U -> int): (h: int)
    ensures JavaText.IsInt32(h)
  {
    var h1 := JavaText.Wrap32(61 * 7 + (if p.first.Some? then JavaText.Wrap32(hashFirst(p.first.value)) else 0));
    JavaText.Wrap32(61 * h1 + (if p.second.Some? then JavaText.Wrap32(hashSecond(p.second.value)) else 0))
  }

  /** Equal pairs have equal hash codes. */
  lemma HashCodeConsistent<T, U>(a: Pair<T, U>, b: Pair<T, U>, hashFirst: T -> int, hashSecond: U -> int)
    requires Equals(a, b)
    ensures HashCode(a, hashFirst, hashSecond) == HashCode(b, hashFirst, hashSecond)
  {
  }

  /** `toString`: `"(first, second)"`, each item as `%s` prints it (`"null"` for `null`). */
  function ToString(p: Pair<string, string>): (r: string)
    ensures JavaText.StartsWith(r, "(") && JavaText.EndsWith(r, ")")
    ensures |r| == |JavaText.NullText(p.first)| + |JavaText.NullText(p.second)| + 4
  {
    "(" + JavaText.NullText(p.first) + ", " + JavaText.NullText(p.second) + ")"
  }

  /** The text is the two items between the brackets, so a first item free of `", "` can
      be read back. */
  lemma ToStringItems(p: Pair<string, string>)
    ensures var r := ToString(p);
            var n := |JavaText.NullText(p.first)|;
            r[1..1 + n] == JavaText.NullText(p.first) && r[1 + n..3 + n] == ", "
            && r[3 + n..|r| - 1] == JavaText.NullText(p.second)
  {
  }
}
