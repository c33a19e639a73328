/**
 Joining a sequence of strings with a separator, as JavaScript's
 `Array.prototype.join` does for an array of strings: the empty array gives
 the empty string, one element gives that element, and otherwise the elements
 appear in order with one copy of the separator between each neighbouring pair.
 */
module Joining {

  /** The sum of the lengths of the strings in `xs`. */
  function TotalLength(xs: seq<string>): nat
  {
    if xs == [] then 0 else |xs[0]| + TotalLength(xs[1..])
  }

  /** The elements of `xs` in order, separated by `sep`. */
  function Join(xs: seq<string>, sep: string): string
  {
    if |xs| == 0 then ""
    else if |xs| == 1 then xs[0]
    else xs[0] + sep + Join(xs[1..], sep)
  }

  /** The joined string is as long as all the elements together plus one separator between each pair of neighbours. */
  lemma {:induction false} JoinLength(xs: seq<string>, sep: string)
    ensures |Join(xs, sep)| == TotalLength(xs) + (if xs == [] then 0 else |sep| * (|xs| - 1))
  {
    if |xs| > 1 {
      JoinLength(xs[1..], sep);
      assert |sep| * (|xs| - 1) == |sep| + |sep| * (|xs| - 2);
    }
  }

  /** Where the element `xs[i]` starts in `Join(xs, sep)`: every earlier element and its separator come first. */
  function Offset(xs: seq<string>, sep: string, i: nat): nat
    requires i <= |xs|
  {
    if i == 0 then 0 else |xs[0]| + |sep| + Offset(xs[1..], sep, i - 1)
  }

  /** Joining is a left fold as well: appending one element appends the separator and that element. */
  lemma {:induction false} JoinSnoc(xs: seq<string>, x: string, sep: string)
    requires xs != []
    ensures Join(xs + [x], sep) == Join(xs, sep) + sep + x
  {
    if |xs| == 1 {
      assert (xs + [x])[1..] == [x];
    } else {
      assert (xs + [x])[1..] == xs[1..] + [x];
      JoinSnoc(xs[1..], x, sep);
    }
  }

  /** Each step from one element's start to the next skips that element and one separator. */
  lemma {:induction false} OffsetStep(xs: seq<string>, sep: string, i: nat)
    requires i < |xs|
    ensures Offset(xs, sep, i + 1) == Offset(xs, sep, i) + |xs[i]| + |sep|
  {
    if i > 0 {
      OffsetStep(xs[1..], sep, i - 1);
    }
  }

  // SliceAfter and SliceBefore hold without their bodies; the pointwise steps and the
  // explicit calls to them elsewhere keep slicing proofs cheap for the solver.

  /** Slicing after a prefix `a` is slicing the rest `b`, shifted by `|a|`. */
  lemma SliceAfter(a: string, b: string, k: nat, l: nat)
    requires k <= l <= |b|
    ensures (a + b)[|a| + k..|a| + l] == b[k..l]
  {
    assert forall n :: 0 <= n < l - k ==> (a + b)[|a| + k..|a| + l][n] == b[k..l][n];
  }

  /** Slicing inside a prefix `a` is slicing `a` itself, whatever follows it. */
  lemma SliceBefore(a: string, b: string, k: nat, l: nat)
    requires k <= l <= |a|
    ensures (a + b)[k..l] == a[k..l]
  {
    assert forall n :: 0 <= n < l - k ==> (a + b)[k..l][n] == a[k..l][n];
  }

  /** Element `xs[i]` occurs in `Join(xs, sep)` exactly at `Offset(xs, sep, i)`; the last element ends the result. */
  lemma {:induction false} JoinAt(xs: seq<string>, sep: string, i: nat)
    requires i < |xs|
    ensures Offset(xs, sep, i) + |xs[i]| <= |Join(xs, sep)|
    ensures Join(xs, sep)[Offset(xs, sep, i)..Offset(xs, sep, i) + |xs[i]|] == xs[i]
    ensures i + 1 == |xs| ==> Offset(xs, sep, i) + |xs[i]| == |Join(xs, sep)|
  {
    if i > 0 {
      var head, tail := xs[0] + sep, xs[1..];
      JoinAt(tail, sep, i - 1);
      var k := Offset(tail, sep, i - 1);
      assert Join(xs, sep) == head + Join(tail, sep);
      SliceAfter(head, Join(tail, sep), k, k + |xs[i]|);
    }
  }

  /** Between element `xs[i]` and the next one, `Join(xs, sep)` holds exactly one separator. */
  lemma {:induction false} SeparatorAt(xs: seq<string>, sep: string, i: nat)
    requires i + 1 < |xs|
    ensures Offset(xs, sep, i) + |xs[i]| + |sep| == Offset(xs, sep, i + 1) <= |Join(xs, sep)|
    ensures Join(xs, sep)[Offset(xs, sep, i) + |xs[i]|..Offset(xs, sep, i + 1)] == sep
  {
    OffsetStep(xs, sep, i);
    JoinAt(xs, sep, i + 1);
    var head, tail := xs[0] + sep, xs[1..];
    assert Join(xs, sep) == head + Join(tail, sep);
    if i > 0 {
      SeparatorAt(tail, sep, i - 1);
      var k := Offset(tail, sep, i - 1);
      SliceAfter(head, Join(tail, sep), k + |xs[i]|, k + |xs[i]| + |sep|);
    }
  }

  /** Joining keeps the order of the elements: an earlier element ends, with a separator after it, before a later one starts. */
  lemma {:induction false} JoinOrder(xs: seq<string>, sep: string, i: nat, j: nat)
    requires i < j < |xs|
    ensures Offset(xs, sep, i) + |xs[i]| + |sep| <= Offset(xs, sep, j)
    decreases j - i
  {
    OffsetStep(xs, sep, i);
    if i + 1 < j {
      JoinOrder(xs, sep, i + 1, j);
    }
  }
}
