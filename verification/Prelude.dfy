/** Small definitions shared by every model in the project. */
module Prelude {

  datatype Option<+T> = None | Some(value: T)

  function Max(a: int, b: int): int {
    if a >= b then a else b
  }

  function Min(a: int, b: int): int {
    if a <= b then a else b
  }

  /** What Python's str.strip removes. */
  predicate IsWhite(c: int) {
    9 <= c <= 13 || 0x1C <= c <= 0x20 || c == 0x85 || c == 0xA0 || c == 0x1680 || 0x2000 <= c <= 0x200A
    || c == 0x2028 || c == 0x2029 || c == 0x202F || c == 0x205F || c == 0x3000
  }

  ghost predicate NoDuplicates<T>(xs: seq<T>) {
    forall i, j :: 0 <= i < j < |xs| ==> xs[i] != xs[j]
  }

  /** The elements of `xs` that satisfy `p`, in order. */
  function Filter<T>(xs: seq<T>, p: T -> bool): seq<T> {
    if xs == [] then [] else (if p(xs[0]) then [xs[0]] else []) + Filter(xs[1..], p)
  }

  lemma {:induction false} FilterMembers<T>(xs: seq<T>, p: T -> bool, x: T)
    ensures x in Filter(xs, p) <==> x in xs && p(x)
  {
    if xs != [] {
      FilterMembers(xs[1..], p, x);
    }
  }

  lemma {:induction false} FilterConcat<T>(xs: seq<T>, ys: seq<T>, p: T -> bool)
    ensures Filter(xs + ys, p) == Filter(xs, p) + Filter(ys, p)
  {
    if xs == [] {
      assert xs + ys == ys;
    } else {
      var head := if p(xs[0]) then [xs[0]] else [];
      assert (xs + ys)[1..] == xs[1..] + ys;
      FilterConcat(xs[1..], ys, p);
      assert head + (Filter(xs[1..], p) + Filter(ys, p)) == head + Filter(xs[1..], p) + Filter(ys, p);
    }
  }

  /** Python's any() and all() over a list. */
  predicate Any<T>(xs: seq<T>, p: T -> bool) {
    xs != [] && (p(xs[0]) || Any(xs[1..], p))
  }

  predicate All<T>(xs: seq<T>, p: T -> bool) {
    xs == [] || (p(xs[0]) && All(xs[1..], p))
  }

  lemma {:induction false} AnyMember<T>(xs: seq<T>, p: T -> bool)
    ensures Any(xs, p) <==> exists x :: x in xs && p(x)
  {
    if xs != [] {
      AnyMember(xs[1..], p);
      assert forall x :: x in xs <==> x == xs[0] || x in xs[1..];
    }
  }

  lemma {:induction false} AllMembers<T>(xs: seq<T>, p: T -> bool)
    ensures All(xs, p) <==> forall x :: x in xs ==> p(x)
  {
    if xs != [] {
      AllMembers(xs[1..], p);
      assert forall x :: x in xs <==> x == xs[0] || x in xs[1..];
    }
  }

  /** Counting the elements that satisfy `p` one by one gives the size of the set they form. */
  lemma {:induction false} FilterCardinality<T>(xs: seq<T>, p: T -> bool, s: set<T>)
    requires NoDuplicates(xs)
    requires forall x :: x in s <==> x in xs && p(x)
    ensures |Filter(xs, p)| == |s|
  {
    if xs == [] {
      assert s == {};
    } else {
      var rest := if p(xs[0]) then s - {xs[0]} else s;
      assert forall x :: x in xs <==> x == xs[0] || x in xs[1..];
      FilterCardinality(xs[1..], p, rest);
    }
  }

  /** Some listing of a set, as a directory listing or a SELECT without ORDER BY gives it. */
  method Listing<T(==)>(s: set<T>) returns (xs: seq<T>)
    ensures NoDuplicates(xs) && forall x :: x in xs <==> x in s
  {
    xs := [];
    var rest := s;
    while rest != {}
      invariant rest <= s && NoDuplicates(xs)
      invariant forall x :: x in xs <==> x in s && x !in rest
      decreases rest
    {
      var x :| x in rest;
      xs, rest := xs + [x], rest - {x};
    }
  }
}
