/**
 The higher-order layer: map, zipWith and reduce. In the original each takes
 its combining function (and, for reduce, a start value) and returns an inner
 function that walks a list in a loop; here that curried call `map(fn)(ls)`
 is the method call `Map(fn, ls)`. Each method is proved equal to a pure
 recursive definition of the same combinator.
 */
module Combinators {

  function Min(a: int, b: int): (m: int)
    ensures m <= a && m <= b
    ensures m == a || m == b
  {
    if a < b then a else b
  }

  // ---------------------------------------------------------------------
  // map

  /** fn applied to every element of ls, defined by recursion on the head. */
  function Mapped(fn: real -> real, ls: seq<real>): (r: seq<real>)
    ensures |r| == |ls|
    ensures forall i :: 0 <= i < |ls| ==> r[i] == fn(ls[i])
  {
    if ls == [] then [] else [fn(ls[0])] + Mapped(fn, ls[1..])
  }

  /** Mapping a list extended at the end extends the mapped list at the end. */
  lemma {:induction false} MappedSnoc(fn: real -> real, ls: seq<real>, x: real)
    ensures Mapped(fn, ls + [x]) == Mapped(fn, ls) + [fn(x)]
  {
    if ls != [] {
      calc {
        Mapped(fn, ls + [x]);
      ==  { assert (ls + [x])[1..] == ls[1..] + [x]; }
        [fn(ls[0])] + Mapped(fn, ls[1..] + [x]);
      ==  { MappedSnoc(fn, ls[1..], x); }
        [fn(ls[0])] + Mapped(fn, ls[1..]) + [fn(x)];
      }
    }
  }

  /** Mapping distributes over concatenation. */
  lemma {:induction false} MappedAppend(fn: real -> real, a: seq<real>, b: seq<real>)
    ensures Mapped(fn, a + b) == Mapped(fn, a) + Mapped(fn, b)
  {
    if a != [] {
      calc {
        Mapped(fn, a + b);
      ==  { assert (a + b)[1..] == a[1..] + b; }
        [fn(a[0])] + Mapped(fn, a[1..] + b);
      ==  { MappedAppend(fn, a[1..], b); }
        [fn(a[0])] + Mapped(fn, a[1..]) + Mapped(fn, b);
      }
    } else {
      assert a + b == b;
    }
  }

  /**
   map(fn)(ls): a new list, built by appending fn(x) for each x of ls in
   order, of the same length as ls and with fn(ls[i]) at position i.
   */
  method Map(fn: real -> real, ls: seq<real>) returns (ret: seq<real>)
    ensures ret == Mapped(fn, ls)
  {
    ret := [];
    for k := 0 to |ls|
      invariant ret == Mapped(fn, ls[..k])
    {
      assert ls[..k + 1] == ls[..k] + [ls[k]];
      MappedSnoc(fn, ls[..k], ls[k]);
      ret := ret + [fn(ls[k])];
    }
    assert ls[..|ls|] == ls;
  }

  // ---------------------------------------------------------------------
  // zip and zipWith

  /** Python's zip of two lists: pairs by position, stopping at the shorter. */
  function Zip(l1: seq<real>, l2: seq<real>): (r: seq<(real, real)>)
    ensures |r| == Min(|l1|, |l2|)
    ensures forall i :: 0 <= i < |r| ==> r[i] == (l1[i], l2[i])
  {
    if l1 == [] || l2 == [] then [] else [(l1[0], l2[0])] + Zip(l1[1..], l2[1..])
  }

  /** fn applied positionwise to two lists, defined by recursion on both heads. */
  function ZippedWith(fn: (real, real) -> real, l1: seq<real>, l2: seq<real>): (r: seq<real>)
    ensures |r| == Min(|l1|, |l2|)
    ensures forall i :: 0 <= i < |r| ==> r[i] == fn(l1[i], l2[i])
  {
    if l1 == [] || l2 == [] then [] else [fn(l1[0], l2[0])] + ZippedWith(fn, l1[1..], l2[1..])
  }

  /** ZippedWith of prefixes grows by one element per position. */
  lemma {:induction false} ZippedWithPrefix(fn: (real, real) -> real, l1: seq<real>, l2: seq<real>, k: nat)
    requires k < Min(|l1|, |l2|)
    ensures ZippedWith(fn, l1[..k + 1], l2[..k + 1])
         == ZippedWith(fn, l1[..k], l2[..k]) + [fn(l1[k], l2[k])]
  {
    var lhs := ZippedWith(fn, l1[..k + 1], l2[..k + 1]);
    var rhs := ZippedWith(fn, l1[..k], l2[..k]) + [fn(l1[k], l2[k])];
    assert |lhs| == |rhs| == k + 1;
    forall i | 0 <= i < k + 1
      ensures lhs[i] == rhs[i]
    {
      assert l1[..k + 1][i] == l1[i] && l2[..k + 1][i] == l2[i];
      if i < k {
        assert l1[..k][i] == l1[i] && l2[..k][i] == l2[i];
      }
    }
  }

  /**
   zipWith(fn)(l1, l2): a new list built by appending fn(x, y) for each pair
   of zip(l1, l2). Because zip truncates, its length is the smaller of the
   two lengths; position i holds fn(l1[i], l2[i]).
   */
  method ZipWith(fn: (real, real) -> real, l1: seq<real>, l2: seq<real>) returns (ret: seq<real>)
    ensures ret == ZippedWith(fn, l1, l2)
  {
    var pairs := Zip(l1, l2);
    ret := [];
    for k := 0 to |pairs|
      invariant ret == ZippedWith(fn, l1[..k], l2[..k])
    {
      var (x, y) := pairs[k];
      ZippedWithPrefix(fn, l1, l2, k);
      ret := ret + [fn(x, y)];
    }
    var n := |pairs|;
    if n == |l1| {
      assert l1[..n] == l1;
      assert ZippedWith(fn, l1, l2[..n]) == ZippedWith(fn, l1, l2);
    } else {
      assert l2[..n] == l2;
      assert ZippedWith(fn, l1[..n], l2) == ZippedWith(fn, l1, l2);
    }
  }

  // ---------------------------------------------------------------------
  // reduce

  /**
   reduce(fn, start)(ls) as a recursive definition: start for the empty list,
   and fn(x, <reduction of ls>) for ls + [x], so that [x1, x2, x3] reduces to
   fn(x3, fn(x2, fn(x1, start))), the accumulator always the second argument.
   */
  function Reduced(fn: (real, real) -> real, start: real, ls: seq<real>): (r: real)
    decreases |ls|
  {
    if ls == [] then start else fn(ls[|ls| - 1], Reduced(fn, start, ls[..|ls| - 1]))
  }

  /** Reduced extends by one application of fn per element added at the end. */
  lemma ReducedSnoc(fn: (real, real) -> real, start: real, ls: seq<real>, x: real)
    ensures Reduced(fn, start, []) == start
    ensures Reduced(fn, start, ls + [x]) == fn(x, Reduced(fn, start, ls))
  {
    assert (ls + [x])[..|ls|] == ls;
  }

  /** Reducing a concatenation reduces the second part from the first's result. */
  lemma {:induction false} ReducedAppend(fn: (real, real) -> real, start: real, a: seq<real>, b: seq<real>)
    ensures Reduced(fn, start, a + b) == Reduced(fn, Reduced(fn, start, a), b)
    decreases |b|
  {
    if b == [] {
      assert a + b == a;
    } else {
      var b' := b[..|b| - 1];
      var x := b[|b| - 1];
      assert b == b' + [x];
      assert a + b == (a + b') + [x];
      calc {
        Reduced(fn, start, a + b);
      ==  { ReducedSnoc(fn, start, a + b', x); }
        fn(x, Reduced(fn, start, a + b'));
      ==  { ReducedAppend(fn, start, a, b'); }
        fn(x, Reduced(fn, Reduced(fn, start, a), b'));
      ==  { ReducedSnoc(fn, Reduced(fn, start, a), b', x); }
        Reduced(fn, Reduced(fn, start, a), b);
      }
    }
  }

  /** A left fold from the head that passes the accumulator second. */
  function FoldFromHead(fn: (real, real) -> real, acc: real, ls: seq<real>): (r: real)
    decreases |ls|
  {
    if ls == [] then acc else FoldFromHead(fn, fn(ls[0], acc), ls[1..])
  }

  /**
   The two readings of reduce agree: folding from the head, feeding each
   element with the accumulator so far, gives the nested form Reduced.
   */
  lemma {:induction false} ReducedIsFoldFromHead(fn: (real, real) -> real, start: real, ls: seq<real>)
    ensures Reduced(fn, start, ls) == FoldFromHead(fn, start, ls)
    decreases |ls|
  {
    if ls != [] {
      calc {
        Reduced(fn, start, ls);
      ==  { assert ls == [ls[0]] + ls[1..]; ReducedAppend(fn, start, [ls[0]], ls[1..]); }
        Reduced(fn, Reduced(fn, start, [ls[0]]), ls[1..]);
      ==  { ReducedSnoc(fn, start, [], ls[0]); assert [] + [ls[0]] == [ls[0]]; }
        Reduced(fn, fn(ls[0], start), ls[1..]);
      ==  { ReducedIsFoldFromHead(fn, fn(ls[0], start), ls[1..]); }
        FoldFromHead(fn, start, ls);
      }
    }
  }

  /** The exact order on two elements: fn(x2, fn(x1, start)). */
  lemma ReducedPairOrder(fn: (real, real) -> real, start: real, x1: real, x2: real)
    ensures Reduced(fn, start, [x1, x2]) == fn(x2, fn(x1, start))
  {
    ReducedSnoc(fn, start, [], x1);
    assert [] + [x1] == [x1] && [x1] + [x2] == [x1, x2];
    ReducedSnoc(fn, start, [x1], x2);
  }

  /**
   reduce(fn, start)(ls): the accumulator starts at start and becomes
   fn(w, accumulator) for each w of ls in order.
   */
  method Reduce(fn: (real, real) -> real, start: real, ls: seq<real>) returns (ori: real)
    ensures ori == Reduced(fn, start, ls)
    ensures ls == [] ==> ori == start
  {
    ori := start;
    for k := 0 to |ls|
      invariant ori == Reduced(fn, start, ls[..k])
    {
      assert ls[..k + 1][..k] == ls[..k];
      ori := fn(ls[k], ori);
    }
    assert ls[..|ls|] == ls;
  }
}
