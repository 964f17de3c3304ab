/**
 The convenience functions of the prelude, each a scalar operator passed
 through a combinator: negList is map(neg), addLists is zipWith(add), sum is
 reduce(add, 0) and prod is reduce(mul, 1).
 */
module ListOps {
  import opened ScalarOps
  import opened Combinators

  /** The ordinary sum of a list, by recursion on the head. */
  function SumOf(ls: seq<real>): (r: real)
  {
    if ls == [] then 0.0 else ls[0] + SumOf(ls[1..])
  }

  /** The ordinary product of a list, by recursion on the head. */
  function ProductOf(ls: seq<real>): (r: real)
  {
    if ls == [] then 1.0 else ls[0] * ProductOf(ls[1..])
  }

  lemma {:induction false} SumOfSnoc(ls: seq<real>, x: real)
    ensures SumOf(ls + [x]) == SumOf(ls) + x
  {
    if ls != [] {
      assert (ls + [x])[1..] == ls[1..] + [x];
      SumOfSnoc(ls[1..], x);
    }
  }

  lemma {:induction false} ProductOfSnoc(ls: seq<real>, x: real)
    ensures ProductOf(ls + [x]) == ProductOf(ls) * x
  {
    if ls != [] {
      assert (ls + [x])[1..] == ls[1..] + [x];
      ProductOfSnoc(ls[1..], x);
      calc {
        ProductOf(ls + [x]);
      ==  ls[0] * ProductOf(ls[1..] + [x]);
      ==  ls[0] * (ProductOf(ls[1..]) * x);
      ==  (ls[0] * ProductOf(ls[1..])) * x;
      }
    }
  }

  /** reduce(add, 0) computes the ordinary sum, so it is 0 on the empty list. */
  lemma {:induction false} ReducedAddIsSum(ls: seq<real>)
    ensures Reduced(Add, 0.0, ls) == SumOf(ls)
    decreases |ls|
  {
    if ls != [] {
      var init, x := ls[..|ls| - 1], ls[|ls| - 1];
      assert ls == init + [x];
      ReducedAddIsSum(init);
      SumOfSnoc(init, x);
    }
  }

  /** reduce(mul, 1) computes the ordinary product, so it is 1 on the empty list. */
  lemma {:induction false} ReducedMulIsProduct(ls: seq<real>)
    ensures Reduced(Mul, 1.0, ls) == ProductOf(ls)
    decreases |ls|
  {
    if ls != [] {
      var init, x := ls[..|ls| - 1], ls[|ls| - 1];
      assert ls == init + [x];
      ReducedMulIsProduct(init);
      ProductOfSnoc(init, x);
    }
  }

  /** negList(ls): map(neg) applied to ls. */
  method NegList(ls: seq<real>) returns (r: seq<real>)
    ensures |r| == |ls|
    ensures forall i :: 0 <= i < |ls| ==> r[i] == -ls[i]
  {
    r := Map(Neg, ls);
  }

  /**
   addLists(ls1, ls2): zipWith(add) applied to the two lists. On lists of
   equal length the result has that length and holds the positionwise sums;
   otherwise it silently stops at the shorter list.
   */
  method AddLists(ls1: seq<real>, ls2: seq<real>) returns (r: seq<real>)
    ensures |r| == Min(|ls1|, |ls2|)
    ensures |ls1| == |ls2| ==> |r| == |ls1|
    ensures forall i :: 0 <= i < |r| ==> r[i] == ls1[i] + ls2[i]
  {
    r := ZipWith(Add, ls1, ls2);
  }

  /** sum(ls): reduce(add, 0) applied to ls; the ordinary sum, 0 when empty. */
  method Sum(ls: seq<real>) returns (r: real)
    ensures r == SumOf(ls)
    ensures ls == [] ==> r == 0.0
  {
    r := Reduce(Add, 0.0, ls);
    ReducedAddIsSum(ls);
  }

  /** prod(ls): reduce(mul, 1) applied to ls; the ordinary product, 1 when empty. */
  method Prod(ls: seq<real>) returns (r: real)
    ensures r == ProductOf(ls)
    ensures ls == [] ==> r == 1.0
  {
    r := Reduce(Mul, 1.0, ls);
    ReducedMulIsProduct(ls);
  }

  // ---------------------------------------------------------------------
  // How the wrappers relate to each other

  /** map(id) returns a list equal to its input. */
  lemma MappedIdIsIdentity(ls: seq<real>)
    ensures Mapped(Id, ls) == ls
  {
  }

  /** Adding a list to its negation gives zeros, one per element. */
  lemma {:induction false} AddListsNegListCancel(ls: seq<real>)
    ensures ZippedWith(Add, ls, Mapped(Neg, ls)) == seq(|ls|, _ => 0.0)
  {
    var r := ZippedWith(Add, ls, Mapped(Neg, ls));
    forall i | 0 <= i < |ls|
      ensures r[i] == 0.0
    {
      NegLaws(ls[i]);
    }
  }

  /** Negating every element negates the sum. */
  lemma {:induction false} SumOfNegList(ls: seq<real>)
    ensures SumOf(Mapped(Neg, ls)) == -SumOf(ls)
  {
    if ls != [] {
      assert Mapped(Neg, ls)[1..] == Mapped(Neg, ls[1..]);
      SumOfNegList(ls[1..]);
    }
  }

  /** The sum of the positionwise sums of two equal-length lists is the sum of both sums. */
  lemma {:induction false} SumOfAddLists(a: seq<real>, b: seq<real>)
    requires |a| == |b|
    ensures SumOf(ZippedWith(Add, a, b)) == SumOf(a) + SumOf(b)
  {
    if a != [] {
      assert ZippedWith(Add, a, b)[1..] == ZippedWith(Add, a[1..], b[1..]);
      SumOfAddLists(a[1..], b[1..]);
    }
  }

  /** Lists of unequal length: zipWith(add)([1, 2, 3], [10, 20]) is [11, 22]. */
  lemma AddListsTruncatesExample()
    ensures ZippedWith(Add, [1.0, 2.0, 3.0], [10.0, 20.0]) == [11.0, 22.0]
  {
  }
}
