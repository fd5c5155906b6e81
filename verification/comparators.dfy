/** `java.util.Comparator` as a function to `int`: `Integer.compare`,
    `reversed()`, and the general contract that `List.sort` relies on. */
module Comparators {

  /** `Integer.compare(x, y)`. */
  function IntegerCompare(x: int, y: int): (r: int)
    ensures r == -1 || r == 0 || r == 1
    ensures r < 0 <==> x < y
    ensures r == 0 <==> x == y
    ensures r > 0 <==> x > y
  {
    if x < y then -1 else if x == y then 0 else 1
  }

  /** `Integer.signum(x)`. */
  function Sign(x: int): int {
    if x < 0 then -1 else if x == 0 then 0 else 1
  }

  /** `comparator.reversed()`: compares its arguments the other way round. */
  function Reversed<T>(c: (T, T) -> int): (T, T) -> int {
    (a: T, b: T) => c(b, a)
  }

  /** sgn(compare(x, y)) == -sgn(compare(y, x)) for all x, y in `S`. */
  ghost predicate Antisymmetric<T>(c: (T, T) -> int, S: set<T>) {
    forall a, b | a in S && b in S :: Sign(c(a, b)) == -Sign(c(b, a))
  }

  /** compare(x, y) > 0 and compare(y, z) > 0 imply compare(x, z) > 0 in `S`. */
  ghost predicate Transitive<T>(c: (T, T) -> int, S: set<T>) {
    forall a, b, e {:trigger a in S, b in S, e in S} | a in S && b in S && e in S ::
      c(a, b) > 0 && c(b, e) > 0 ==> c(a, e) > 0
  }

  /** compare(x, y) == 0 implies sgn(compare(x, z)) == sgn(compare(y, z)) in `S`. */
  ghost predicate ConsistentTies<T>(c: (T, T) -> int, S: set<T>) {
    forall a, b, e {:trigger a in S, b in S, e in S} | a in S && b in S && e in S ::
      c(a, b) == 0 ==> Sign(c(a, e)) == Sign(c(b, e))
  }

  /** The general contract of `Comparator.compare`, on the values in `S`. */
  ghost predicate IsComparator<T>(c: (T, T) -> int, S: set<T>) {
    Antisymmetric(c, S) && Transitive(c, S) && ConsistentTies(c, S)
  }

  /** A comparator that meets the contract orders `S` as a total preorder:
      "not greater" is transitive. */
  lemma NotGreaterTransitive<T>(c: (T, T) -> int, S: set<T>, a: T, b: T, e: T)
    requires IsComparator(c, S) && a in S && b in S && e in S
    requires c(a, b) <= 0 && c(b, e) <= 0
    ensures c(a, e) <= 0
  {
    if c(a, b) == 0 {
      assert Sign(c(a, e)) == Sign(c(b, e));
    } else if c(b, e) == 0 {
      assert Sign(c(b, a)) == -Sign(c(a, b));
      assert Sign(c(b, a)) == Sign(c(e, a));
      assert Sign(c(a, e)) == -Sign(c(e, a));
    } else {
      assert Sign(c(b, a)) == -Sign(c(a, b)) && Sign(c(e, b)) == -Sign(c(b, e));
      assert c(e, a) > 0;
      assert Sign(c(a, e)) == -Sign(c(e, a));
    }
  }

  /** "Less" followed by "not greater" is "less". */
  lemma LessTransitive<T>(c: (T, T) -> int, S: set<T>, a: T, b: T, e: T)
    requires IsComparator(c, S) && a in S && b in S && e in S
    requires c(a, b) < 0 && c(b, e) <= 0
    ensures c(a, e) < 0
  {
    NotGreaterTransitive(c, S, a, b, e);
    assert c(a, e) == 0 ==> Sign(c(a, b)) == Sign(c(e, b));
    assert Sign(c(b, e)) == -Sign(c(e, b));
  }

  /** Reversing a comparator keeps the contract. */
  lemma ReversedIsComparator<T>(c: (T, T) -> int, S: set<T>)
    requires IsComparator(c, S)
    ensures IsComparator(Reversed(c), S)
  {
    var rc := Reversed(c);
    forall a, b, e | a in S && b in S && e in S && rc(a, b) > 0 && rc(b, e) > 0
      ensures rc(a, e) > 0
    {
      assert c(e, b) > 0 && c(b, a) > 0;
    }
    forall a, b, e | a in S && b in S && e in S && rc(a, b) == 0
      ensures Sign(rc(a, e)) == Sign(rc(b, e))
    {
      assert Sign(c(b, e)) == Sign(c(a, e));
      assert Sign(c(e, b)) == -Sign(c(b, e)) && Sign(c(e, a)) == -Sign(c(a, e));
    }
  }
}
