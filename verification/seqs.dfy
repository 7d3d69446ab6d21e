/**
 * Array idioms over sequences: `slice(0, n)`, `filter`, `findIndex` and
 * counting the elements that pass a test.
 */
module Seqs {
  import opened Wrappers

  /** `xs.slice(0, n)`: the first `n` elements, or all of them when there are fewer. */
  function FirstN<T>(xs: seq<T>, n: nat): (r: seq<T>)
    ensures |r| == if |xs| <= n then |xs| else n
    ensures r == xs[..|r|]
  {
    if |xs| <= n then xs else xs[..n]
  }

  /** `xs.filter(p)`: the elements passing `p`, in their original order. */
  function Filter<T>(xs: seq<T>, p: T -> bool): (r: seq<T>)
    ensures |r| <= |xs|
    ensures forall k :: 0 <= k < |r| ==> p(r[k])
    ensures forall k :: 0 <= k < |r| ==> r[k] in xs
    ensures forall k :: 0 <= k < |xs| && p(xs[k]) ==> xs[k] in r
  {
    if |xs| == 0 then []
    else (if p(xs[0]) then [xs[0]] else []) + Filter(xs[1..], p)
  }

  /** Filtering distributes over concatenation. */
  lemma {:induction false} FilterAppend<T>(a: seq<T>, b: seq<T>, p: T -> bool)
    ensures Filter(a + b, p) == Filter(a, p) + Filter(b, p)
    decreases |a|
  {
    if |a| > 0 {
      assert (a + b)[1..] == a[1..] + b;
      FilterAppend(a[1..], b, p);
    } else {
      assert a + b == b;
    }
  }

  /** Appending each element's piece in turn, as a `forEach` that extends a string does. */
  function FlatMap<T, U>(xs: seq<T>, f: T -> seq<U>): seq<U> {
    if |xs| == 0 then [] else f(xs[0]) + FlatMap(xs[1..], f)
  }

  /** Each element's piece stands in place: the pieces before it, its own piece, then the pieces after it. */
  lemma {:induction false} FlatMapSplit<T, U>(xs: seq<T>, f: T -> seq<U>, k: nat)
    requires k < |xs|
    ensures FlatMap(xs, f) == FlatMap(xs[..k], f) + f(xs[k]) + FlatMap(xs[k + 1..], f)
    decreases k
  {
    if k == 0 {
      assert xs[..0] == [];
    } else {
      var l, a, m, b := f(xs[0]), FlatMap(xs[1..k], f), f(xs[k]), FlatMap(xs[k + 1..], f);
      assert xs[1..][..k - 1] == xs[1..k];
      assert xs[1..][k - 1] == xs[k];
      assert xs[1..][k..] == xs[k + 1..];
      assert FlatMap(xs[1..], f) == a + m + b by { FlatMapSplit(xs[1..], f, k - 1); }
      assert FlatMap(xs[..k], f) == l + a by { assert xs[..k][1..] == xs[1..k]; }
      assert l + (a + m + b) == l + a + m + b;
    }
  }

  /** `xs.findIndex(p)`, as an option: the position of the first element passing `p`. */
  function FindIndex<T>(xs: seq<T>, p: T -> bool): (r: Option<nat>)
    ensures r.Some? ==> r.value < |xs| && p(xs[r.value])
    ensures r.Some? ==> forall k :: 0 <= k < r.value ==> !p(xs[k])
    ensures r.None? ==> forall k :: 0 <= k < |xs| ==> !p(xs[k])
  {
    if |xs| == 0 then None
    else if p(xs[0]) then Some(0)
    else match FindIndex(xs[1..], p)
      case None => None
      case Some(i) => Some(i + 1)
  }

  /** The number of elements passing `p`. */
  function Count<T>(xs: seq<T>, p: T -> bool): nat {
    |Filter(xs, p)|
  }
}
