/**
 * zip2_iterator / zip3_iterator (zip_iterator.h): several cursors moved in
 * lockstep. A cursor is modelled as an integer position into the array it
 * walks. Movement changes every cursor by the same amount; comparison and
 * difference look at the first cursor only, since zipped ranges are
 * assumed to have the same length.
 */
module Zip {

  class Zip2 {
    var iter1: int
    var iter2: int

    /** The explicit constructor: exactly the given cursors. */
    constructor (iter1: int, iter2: int)
      ensures this.iter1 == iter1 && this.iter2 == iter2
    {
      this.iter1 := iter1;
      this.iter2 := iter2;
    }

    /** operator+=: every cursor advances by n. */
    method AddAssign(n: int)
      modifies this
      ensures iter1 == old(iter1) + n && iter2 == old(iter2) + n
    {
      iter1 := iter1 + n;
      iter2 := iter2 + n;
    }

    /** operator-=, defined as += -n. */
    method SubAssign(n: int)
      modifies this
      ensures iter1 == old(iter1) - n && iter2 == old(iter2) - n
    {
      AddAssign(-n);
    }

    /** Prefix operator++, defined as += 1. */
    method Increment()
      modifies this
      ensures iter1 == old(iter1) + 1 && iter2 == old(iter2) + 1
    {
      AddAssign(1);
    }

    /** Prefix operator--, defined as += -1. */
    method Decrement()
      modifies this
      ensures iter1 == old(iter1) - 1 && iter2 == old(iter2) - 1
    {
      AddAssign(-1);
    }

    /** A copy of the iterator: the same cursors in a new object. */
    method Clone() returns (r: Zip2)
      ensures fresh(r) && r.iter1 == iter1 && r.iter2 == iter2
    {
      r := new Zip2(iter1, iter2);
    }

    /** Postfix operator++: returns the iterator as it was and advances this one. */
    method PostIncrement() returns (prev: Zip2)
      modifies this
      ensures fresh(prev) && prev.iter1 == old(iter1) && prev.iter2 == old(iter2)
      ensures iter1 == old(iter1) + 1 && iter2 == old(iter2) + 1
    {
      prev := Clone();
      Increment();
    }

    /** Postfix operator--: returns the iterator as it was and moves this one back. */
    method PostDecrement() returns (prev: Zip2)
      modifies this
      ensures fresh(prev) && prev.iter1 == old(iter1) && prev.iter2 == old(iter2)
      ensures iter1 == old(iter1) - 1 && iter2 == old(iter2) - 1
    {
      prev := Clone();
      Decrement();
    }

    /** it + n: a copy advanced by n; the difference from `it` is n. */
    method Plus(n: int) returns (r: Zip2)
      ensures fresh(r) && r.iter1 == iter1 + n && r.iter2 == iter2 + n
      ensures Difference(r, this) == n
    {
      r := Clone();
      r.AddAssign(n);
    }

    /** it - n: a copy moved back by n. */
    method Minus(n: int) returns (r: Zip2)
      ensures fresh(r) && r.iter1 == iter1 - n && r.iter2 == iter2 - n
      ensures Difference(this, r) == n
    {
      r := Clone();
      r.SubAssign(n);
    }
  }

  /** n + it: the same iterator as it + n. */
  method PlusRev2(n: int, it: Zip2) returns (r: Zip2)
    ensures fresh(r) && r.iter1 == it.iter1 + n && r.iter2 == it.iter2 + n
  {
    r := it.Clone();
    r.AddAssign(n);
  }

  /** n - it as written: the same iterator as it - n, not a reflection of it. */
  method MinusRev2(n: int, it: Zip2) returns (r: Zip2)
    ensures fresh(r) && r.iter1 == it.iter1 - n && r.iter2 == it.iter2 - n
  {
    r := it.Clone();
    r.SubAssign(n);
  }

  // The six comparisons look at the first cursor only.

  /** lhs == rhs: the first cursors are at the same position. */
  predicate Eq(lhs: Zip2, rhs: Zip2)
    reads lhs, rhs
    ensures Eq(lhs, rhs) <==> Difference(lhs, rhs) == 0
  {
    lhs.iter1 == rhs.iter1
  }

  /** lhs != rhs: the first cursors are at different positions. */
  predicate Ne(lhs: Zip2, rhs: Zip2)
    reads lhs, rhs
    ensures Ne(lhs, rhs) <==> Difference(lhs, rhs) != 0
  {
    lhs.iter1 != rhs.iter1
  }

  /** lhs < rhs: lhs's first cursor is before rhs's. */
  predicate Lt(lhs: Zip2, rhs: Zip2)
    reads lhs, rhs
    ensures Lt(lhs, rhs) <==> Difference(lhs, rhs) < 0
  {
    lhs.iter1 < rhs.iter1
  }

  /** lhs > rhs: lhs's first cursor is after rhs's. */
  predicate Gt(lhs: Zip2, rhs: Zip2)
    reads lhs, rhs
    ensures Gt(lhs, rhs) <==> Difference(lhs, rhs) > 0
  {
    lhs.iter1 > rhs.iter1
  }

  /** lhs <= rhs: lhs's first cursor is not after rhs's. */
  predicate Le(lhs: Zip2, rhs: Zip2)
    reads lhs, rhs
    ensures Le(lhs, rhs) <==> Difference(lhs, rhs) <= 0
  {
    lhs.iter1 <= rhs.iter1
  }

  /** lhs >= rhs: lhs's first cursor is not before rhs's. */
  predicate Ge(lhs: Zip2, rhs: Zip2)
    reads lhs, rhs
    ensures Ge(lhs, rhs) <==> Difference(lhs, rhs) >= 0
  {
    lhs.iter1 >= rhs.iter1
  }

  /** lhs - rhs: the distance between the first cursors. */
  function Difference(lhs: Zip2, rhs: Zip2): (r: int)
    reads lhs, rhs
    ensures rhs.iter1 + r == lhs.iter1
  {
    lhs.iter1 - rhs.iter1
  }

  /**
   * Iterators whose first cursors agree are interchangeable in every
   * comparison and difference, whatever their second cursors.
   */
  lemma FirstCursorDecides2(a: Zip2, b: Zip2, c: Zip2)
    requires a.iter1 == b.iter1
    ensures Eq(a, b)
    ensures Eq(a, c) == Eq(b, c) && Ne(a, c) == Ne(b, c)
    ensures Lt(a, c) == Lt(b, c) && Gt(a, c) == Gt(b, c)
    ensures Le(a, c) == Le(b, c) && Ge(a, c) == Ge(b, c)
    ensures Difference(a, c) == Difference(b, c) && Difference(c, a) == Difference(c, b)
  {
  }

  /**
   * The comparisons are one consistent total order, and agree with the
   * sign of the difference.
   */
  lemma ComparisonsAgree2(a: Zip2, b: Zip2)
    ensures Ne(a, b) == !Eq(a, b)
    ensures Gt(a, b) == Lt(b, a) && Le(a, b) == !Gt(a, b) && Ge(a, b) == !Lt(a, b)
    ensures Eq(a, b) <==> Difference(a, b) == 0
    ensures Lt(a, b) <==> Difference(a, b) < 0
    ensures Difference(a, b) == -Difference(b, a)
  {
  }

  /** *it: the elements under the two cursors. */
  function Deref2<A, B>(it: Zip2, s1: array<A>, s2: array<B>): (r: (A, B))
    requires 0 <= it.iter1 < s1.Length && 0 <= it.iter2 < s2.Length
    reads it, s1, s2
    ensures r.0 == s1[it.iter1] && r.1 == s2[it.iter2]
  {
    (s1[it.iter1], s2[it.iter2])
  }

  /** it[i]: *(it + i), the elements i positions past each cursor. */
  function Index2<A, B>(it: Zip2, i: int, s1: array<A>, s2: array<B>): (r: (A, B))
    requires 0 <= it.iter1 + i < s1.Length && 0 <= it.iter2 + i < s2.Length
    reads it, s1, s2
    ensures r.0 == s1[it.iter1 + i] && r.1 == s2[it.iter2 + i]
    ensures i == 0 ==> r == Deref2(it, s1, s2)
  {
    (s1[it.iter1 + i], s2[it.iter2 + i])
  }

  /** it[i] is *(it + i): indexing reads what dereferencing the advanced iterator reads. */
  method IndexIsDerefOfPlus2<A, B>(it: Zip2, i: int, s1: array<A>, s2: array<B>) returns (r: (A, B))
    requires 0 <= it.iter1 + i < s1.Length && 0 <= it.iter2 + i < s2.Length
    ensures r == Index2(it, i, s1, s2)
  {
    var moved := it.Plus(i);
    r := Deref2(moved, s1, s2);
  }

  /** ++ then -- puts every cursor back where it was. */
  method IncrementDecrementRestores2(it: Zip2)
    modifies it
    ensures it.iter1 == old(it.iter1) && it.iter2 == old(it.iter2)
  {
    it.Increment();
    it.Decrement();
  }

  /** make_zip_iterator(iter1, iter2). */
  method MakeZip2(iter1: int, iter2: int) returns (r: Zip2)
    ensures fresh(r) && r.iter1 == iter1 && r.iter2 == iter2
  {
    r := new Zip2(iter1, iter2);
  }

  class Zip3 {
    var iter1: int
    var iter2: int
    var iter3: int

    /** The explicit constructor: exactly the given cursors. */
    constructor (iter1: int, iter2: int, iter3: int)
      ensures this.iter1 == iter1 && this.iter2 == iter2 && this.iter3 == iter3
    {
      this.iter1 := iter1;
      this.iter2 := iter2;
      this.iter3 := iter3;
    }

    /** operator+=: every cursor advances by n. */
    method AddAssign(n: int)
      modifies this
      ensures iter1 == old(iter1) + n && iter2 == old(iter2) + n && iter3 == old(iter3) + n
    {
      iter1 := iter1 + n;
      iter2 := iter2 + n;
      iter3 := iter3 + n;
    }

    /** operator-=, defined as += -n. */
    method SubAssign(n: int)
      modifies this
      ensures iter1 == old(iter1) - n && iter2 == old(iter2) - n && iter3 == old(iter3) - n
    {
      AddAssign(-n);
    }

    /** Prefix operator++, defined as += 1. */
    method Increment()
      modifies this
      ensures iter1 == old(iter1) + 1 && iter2 == old(iter2) + 1 && iter3 == old(iter3) + 1
    {
      AddAssign(1);
    }

    /** Prefix operator--, defined as += -1. */
    method Decrement()
      modifies this
      ensures iter1 == old(iter1) - 1 && iter2 == old(iter2) - 1 && iter3 == old(iter3) - 1
    {
      AddAssign(-1);
    }

    /** A copy of the iterator: the same cursors in a new object. */
    method Clone() returns (r: Zip3)
      ensures fresh(r) && r.iter1 == iter1 && r.iter2 == iter2 && r.iter3 == iter3
    {
      r := new Zip3(iter1, iter2, iter3);
    }

    /** Postfix operator++: returns the iterator as it was and advances this one. */
    method PostIncrement() returns (prev: Zip3)
      modifies this
      ensures fresh(prev) && prev.iter1 == old(iter1) && prev.iter2 == old(iter2) && prev.iter3 == old(iter3)
      ensures iter1 == old(iter1) + 1 && iter2 == old(iter2) + 1 && iter3 == old(iter3) + 1
    {
      prev := Clone();
      Increment();
    }

    /** Postfix operator--: returns the iterator as it was and moves this one back. */
    method PostDecrement() returns (prev: Zip3)
      modifies this
      ensures fresh(prev) && prev.iter1 == old(iter1) && prev.iter2 == old(iter2) && prev.iter3 == old(iter3)
      ensures iter1 == old(iter1) - 1 && iter2 == old(iter2) - 1 && iter3 == old(iter3) - 1
    {
      prev := Clone();
      Decrement();
    }

    /** it + n: a copy advanced by n; the difference from `it` is n. */
    method Plus(n: int) returns (r: Zip3)
      ensures fresh(r) && r.iter1 == iter1 + n && r.iter2 == iter2 + n && r.iter3 == iter3 + n
      ensures Difference3(r, this) == n
    {
      r := Clone();
      r.AddAssign(n);
    }

    /** it - n: a copy moved back by n. */
    method Minus(n: int) returns (r: Zip3)
      ensures fresh(r) && r.iter1 == iter1 - n && r.iter2 == iter2 - n && r.iter3 == iter3 - n
      ensures Difference3(this, r) == n
    {
      r := Clone();
      r.SubAssign(n);
    }
  }

  /** n + it: the same iterator as it + n. */
  method PlusRev3(n: int, it: Zip3) returns (r: Zip3)
    ensures fresh(r) && r.iter1 == it.iter1 + n && r.iter2 == it.iter2 + n && r.iter3 == it.iter3 + n
  {
    r := it.Clone();
    r.AddAssign(n);
  }

  /** n - it as written: the same iterator as it - n. */
  method MinusRev3(n: int, it: Zip3) returns (r: Zip3)
    ensures fresh(r) && r.iter1 == it.iter1 - n && r.iter2 == it.iter2 - n && r.iter3 == it.iter3 - n
  {
    r := it.Clone();
    r.SubAssign(n);
  }

  // The six comparisons look at the first cursor only.

  /** lhs == rhs: the first cursors are at the same position. */
  predicate Eq3(lhs: Zip3, rhs: Zip3)
    reads lhs, rhs
    ensures Eq3(lhs, rhs) <==> Difference3(lhs, rhs) == 0
  {
    lhs.iter1 == rhs.iter1
  }

  /** lhs != rhs: the first cursors are at different positions. */
  predicate Ne3(lhs: Zip3, rhs: Zip3)
    reads lhs, rhs
    ensures Ne3(lhs, rhs) <==> Difference3(lhs, rhs) != 0
  {
    lhs.iter1 != rhs.iter1
  }

  /** lhs < rhs: lhs's first cursor is before rhs's. */
  predicate Lt3(lhs: Zip3, rhs: Zip3)
    reads lhs, rhs
    ensures Lt3(lhs, rhs) <==> Difference3(lhs, rhs) < 0
  {
    lhs.iter1 < rhs.iter1
  }

  /** lhs > rhs: lhs's first cursor is after rhs's. */
  predicate Gt3(lhs: Zip3, rhs: Zip3)
    reads lhs, rhs
    ensures Gt3(lhs, rhs) <==> Difference3(lhs, rhs) > 0
  {
    lhs.iter1 > rhs.iter1
  }

  /** lhs <= rhs: lhs's first cursor is not after rhs's. */
  predicate Le3(lhs: Zip3, rhs: Zip3)
    reads lhs, rhs
    ensures Le3(lhs, rhs) <==> Difference3(lhs, rhs) <= 0
  {
    lhs.iter1 <= rhs.iter1
  }

  /** lhs >= rhs: lhs's first cursor is not before rhs's. */
  predicate Ge3(lhs: Zip3, rhs: Zip3)
    reads lhs, rhs
    ensures Ge3(lhs, rhs) <==> Difference3(lhs, rhs) >= 0
  {
    lhs.iter1 >= rhs.iter1
  }

  /** lhs - rhs: the distance between the first cursors. */
  function Difference3(lhs: Zip3, rhs: Zip3): (r: int)
    reads lhs, rhs
    ensures rhs.iter1 + r == lhs.iter1
  {
    lhs.iter1 - rhs.iter1
  }

  /**
   * Iterators whose first cursors agree are interchangeable in every
   * comparison and difference, whatever their other cursors.
   */
  lemma FirstCursorDecides3(a: Zip3, b: Zip3, c: Zip3)
    requires a.iter1 == b.iter1
    ensures Eq3(a, b)
    ensures Eq3(a, c) == Eq3(b, c) && Ne3(a, c) == Ne3(b, c)
    ensures Lt3(a, c) == Lt3(b, c) && Gt3(a, c) == Gt3(b, c)
    ensures Le3(a, c) == Le3(b, c) && Ge3(a, c) == Ge3(b, c)
    ensures Difference3(a, c) == Difference3(b, c) && Difference3(c, a) == Difference3(c, b)
  {
  }

  /** The comparisons are one consistent total order, and agree with the sign of the difference. */
  lemma ComparisonsAgree3(a: Zip3, b: Zip3)
    ensures Ne3(a, b) == !Eq3(a, b)
    ensures Gt3(a, b) == Lt3(b, a) && Le3(a, b) == !Gt3(a, b) && Ge3(a, b) == !Lt3(a, b)
    ensures Eq3(a, b) <==> Difference3(a, b) == 0
    ensures Lt3(a, b) <==> Difference3(a, b) < 0
    ensures Difference3(a, b) == -Difference3(b, a)
  {
  }

  /** *it: the elements under the three cursors. */
  function Deref3<A, B, C>(it: Zip3, s1: array<A>, s2: array<B>, s3: array<C>): (r: (A, B, C))
    requires 0 <= it.iter1 < s1.Length && 0 <= it.iter2 < s2.Length && 0 <= it.iter3 < s3.Length
    reads it, s1, s2, s3
    ensures r.0 == s1[it.iter1] && r.1 == s2[it.iter2] && r.2 == s3[it.iter3]
  {
    (s1[it.iter1], s2[it.iter2], s3[it.iter3])
  }

  /** it[i]: *(it + i), the elements i positions past each cursor. */
  function Index3<A, B, C>(it: Zip3, i: int, s1: array<A>, s2: array<B>, s3: array<C>): (r: (A, B, C))
    requires 0 <= it.iter1 + i < s1.Length && 0 <= it.iter2 + i < s2.Length && 0 <= it.iter3 + i < s3.Length
    reads it, s1, s2, s3
    ensures r.0 == s1[it.iter1 + i] && r.1 == s2[it.iter2 + i] && r.2 == s3[it.iter3 + i]
    ensures i == 0 ==> r == Deref3(it, s1, s2, s3)
  {
    (s1[it.iter1 + i], s2[it.iter2 + i], s3[it.iter3 + i])
  }

  /** it[i] is *(it + i). */
  method IndexIsDerefOfPlus3<A, B, C>(it: Zip3, i: int, s1: array<A>, s2: array<B>, s3: array<C>)
    returns (r: (A, B, C))
    requires 0 <= it.iter1 + i < s1.Length && 0 <= it.iter2 + i < s2.Length && 0 <= it.iter3 + i < s3.Length
    ensures r == Index3(it, i, s1, s2, s3)
  {
    var moved := it.Plus(i);
    r := Deref3(moved, s1, s2, s3);
  }

  /** ++ then -- puts every cursor back where it was. */
  method IncrementDecrementRestores3(it: Zip3)
    modifies it
    ensures it.iter1 == old(it.iter1) && it.iter2 == old(it.iter2) && it.iter3 == old(it.iter3)
  {
    it.Increment();
    it.Decrement();
  }

  /** make_zip_iterator(iter1, iter2, iter3). */
  method MakeZip3(iter1: int, iter2: int, iter3: int) returns (r: Zip3)
    ensures fresh(r) && r.iter1 == iter1 && r.iter2 == iter2 && r.iter3 == iter3
  {
    r := new Zip3(iter1, iter2, iter3);
  }
}
