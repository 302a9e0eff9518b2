/** The loaders' read loop: a body applied to each line in turn, threading a state and
    stopping at the first error. */
module LineLoop {
  import opened Wrappers

  /** Every line in order, stopping at the first error. */
  function Loop<S>(step: (S, string) -> Result<S>, s: S, lines: seq<string>): (r: Result<S>)
    ensures lines == [] ==> r == Success(s)
    ensures lines != [] && step(s, lines[0]).Failure? ==> r == Failure(step(s, lines[0]).error)
    decreases |lines|
  {
    if lines == [] then Success(s)
    else
      match step(s, lines[0])
      case Failure(e) => Failure(e)
      case Success(u) => Loop(step, u, lines[1..])
  }

  /** Reading two blocks of lines is reading the first and then, from where it left off,
      the second. */
  lemma {:induction false} LoopAppend<S>(step: (S, string) -> Result<S>, s: S, a: seq<string>, b: seq<string>)
    ensures Loop(step, s, a + b) ==
      match Loop(step, s, a)
      case Failure(e) => Failure(e)
      case Success(u) => Loop(step, u, b)
    decreases |a|
  {
    if a == [] {
      assert a + b == b;
    } else {
      assert (a + b)[0] == a[0] && (a + b)[1..] == a[1..] + b;
      match step(s, a[0])
      case Failure(_) =>
      case Success(u) => LoopAppend(step, u, a[1..], b);
    }
  }

  /** Three blocks read one after another, each from where the previous one left off. */
  lemma LoopThree<S>(step: (S, string) -> Result<S>, s: S, a: seq<string>, b: seq<string>,
                     c: seq<string>, u: S, v: S, w: S)
    requires Loop(step, s, a) == Success(u) && Loop(step, u, b) == Success(v)
    requires Loop(step, v, c) == Success(w)
    ensures Loop(step, s, a + b + c) == Success(w)
  {
    LoopAppend(step, u, b, c);
    LoopAppend(step, s, a, b + c);
    assert a + b + c == a + (b + c);
  }

  /** Reading a single line is one pass of the body. */
  lemma LoopOne<S>(step: (S, string) -> Result<S>, s: S, x: string)
    ensures Loop(step, s, [x]) == step(s, x)
  {
    assert [x][1..] == [];
  }

  /** A line the body passes over unchanged can be dropped. */
  lemma LoopSkip<S>(step: (S, string) -> Result<S>, s: S, a: seq<string>, x: string, b: seq<string>)
    requires forall u :: step(u, x) == Success(u)
    ensures Loop(step, s, a + [x] + b) == Loop(step, s, a + b)
  {
    LoopAppend(step, s, a + [x], b);
    LoopAppend(step, s, a, [x]);
    LoopAppend(step, s, a, b);
    if Loop(step, s, a).Success? {
      var u := Loop(step, s, a).value;
      assert Loop(step, u, [x]) == Success(u) by {
        assert [x][1..] == [];
      }
    }
  }

  /** The state after adding `items` one by one with `add`. */
  function FoldItems<S, D>(add: (S, D) -> S, s: S, items: seq<D>): (r: S)
    decreases |items|
  {
    if items == [] then s else FoldItems(add, add(s, items[0]), items[1..])
  }

  /** While an invariant holds and line `i` always succeeds by adding item `i`, the loop
      is the addition of all items in order. */
  lemma {:induction false} LoopCollect<S, D>(step: (S, string) -> Result<S>, inv: S -> bool,
                                             add: (S, D) -> S, s: S, lines: seq<string>, items: seq<D>)
    requires |items| == |lines| && inv(s)
    requires forall u, i :: 0 <= i < |lines| && inv(u) ==>
               step(u, lines[i]) == Success(add(u, items[i])) && inv(add(u, items[i]))
    ensures Loop(step, s, lines) == Success(FoldItems(add, s, items))
    decreases |lines|
  {
    if lines != [] {
      assert step(s, lines[0]) == Success(add(s, items[0]));
      forall u, i | 0 <= i < |lines[1..]| && inv(u)
        ensures step(u, lines[1..][i]) == Success(add(u, items[1..][i])) && inv(add(u, items[1..][i]))
      {
        assert lines[1..][i] == lines[i + 1] && items[1..][i] == items[i + 1];
      }
      LoopCollect(step, inv, add, add(s, items[0]), lines[1..], items[1..]);
    }
  }
}
