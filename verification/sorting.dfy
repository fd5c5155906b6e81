/** `List.sort(comparator)`: a stable sort, modelled as insertion sort. For a
    comparator that meets its contract the result is ordered and keeps the
    input order of elements that compare equal. */
module Sorting {
  import opened Comparators

  /** The set of values that occur in `s`. */
  function Elements<T>(s: seq<T>): set<T> {
    set x | x in s
  }

  /** Every neighbouring pair, and hence every pair, is in order under `c`. */
  ghost predicate SortedBy<T>(s: seq<T>, c: (T, T) -> int) {
    forall i, j :: 0 <= i < j < |s| ==> c(s[i], s[j]) <= 0
  }

  /** Inserts `x` in front of the first element it compares less than, so it
      lands after every element it ties with. */
  function Insert<T>(x: T, s: seq<T>, c: (T, T) -> int): (r: seq<T>)
    ensures multiset(r) == multiset(s) + multiset{x}
  {
    if s == [] then [x]
    else if c(x, s[0]) < 0 then [x] + s
    else
      assert s == [s[0]] + s[1..];
      [s[0]] + Insert(x, s[1..], c)
  }

  /** Sorts `xs` ascending under `c` by inserting its elements one by one,
      last element last. */
  function StableSort<T>(xs: seq<T>, c: (T, T) -> int): (r: seq<T>)
    ensures multiset(r) == multiset(xs)
  {
    if xs == [] then []
    else
      assert xs == xs[..|xs| - 1] + [xs[|xs| - 1]];
      Insert(xs[|xs| - 1], StableSort(xs[..|xs| - 1], c), c)
  }

  /** Two elements, the second less than the first, swap places. */
  lemma SortPair<T>(x: T, y: T, c: (T, T) -> int)
    requires c(y, x) < 0
    ensures StableSort([x, y], c) == [y, x]
  {
    assert [x, y][..1] == [x];
    assert StableSort([x], c) == [x];
  }

  /** The elements of `s` that compare equal to `k`, in the order of `s`. */
  function Ties<T>(s: seq<T>, c: (T, T) -> int, k: T): seq<T> {
    if s == [] then []
    else (if c(s[0], k) == 0 then [s[0]] else []) + Ties(s[1..], c, k)
  }

  lemma {:induction false} TiesAppend<T>(a: seq<T>, b: seq<T>, c: (T, T) -> int, k: T)
    ensures Ties(a + b, c, k) == Ties(a, c, k) + Ties(b, c, k)
  {
    if a != [] {
      assert (a + b)[0] == a[0];
      assert (a + b)[1..] == a[1..] + b;
      TiesAppend(a[1..], b, c, k);
    } else {
      assert a + b == b;
    }
  }

  lemma {:induction false} NoTies<T>(s: seq<T>, c: (T, T) -> int, k: T)
    requires forall i :: 0 <= i < |s| ==> c(s[i], k) != 0
    ensures Ties(s, c, k) == []
  {
    if s != [] {
      NoTies(s[1..], c, k);
    }
  }

  /** Sorting keeps the set of values. */
  lemma SortElements<T>(xs: seq<T>, c: (T, T) -> int)
    ensures Elements(StableSort(xs, c)) == Elements(xs)
  {
    var r := StableSort(xs, c);
    forall y | y in Elements(r)
      ensures y in Elements(xs)
    {
      assert y in multiset(r);
    }
    forall y | y in Elements(xs)
      ensures y in Elements(r)
    {
      assert y in multiset(xs);
    }
  }

  /** Inserting into an ordered sequence keeps it ordered. */
  lemma {:induction false} InsertSorted<T>(x: T, s: seq<T>, c: (T, T) -> int, S: set<T>)
    requires IsComparator(c, S) && x in S && Elements(s) <= S
    requires SortedBy(s, c)
    ensures SortedBy(Insert(x, s, c), c)
  {
    if s == [] {
    } else if c(x, s[0]) < 0 {
      var r := [x] + s;
      forall j | 1 <= j < |r|
        ensures c(x, r[j]) <= 0
      {
        if j > 1 {
          NotGreaterTransitive(c, S, x, s[0], s[j - 1]);
        }
      }
    } else {
      assert Sign(c(s[0], x)) == -Sign(c(x, s[0]));
      var tail := Insert(x, s[1..], c);
      InsertSorted(x, s[1..], c, S);
      var r := [s[0]] + tail;
      forall j | 1 <= j < |r|
        ensures c(s[0], r[j]) <= 0
      {
        var y := r[j];
        assert y in multiset(tail);
        if y != x {
          assert y in multiset(s[1..]);
          var i :| 0 <= i < |s[1..]| && s[1..][i] == y;
          assert s[i + 1] == y;
        }
      }
    }
  }

  /** The result of the sort is ordered under a comparator that meets the contract. */
  lemma {:induction false} SortSorted<T>(xs: seq<T>, c: (T, T) -> int, S: set<T>)
    requires IsComparator(c, S) && Elements(xs) <= S
    ensures SortedBy(StableSort(xs, c), c)
  {
    if xs != [] {
      var init := xs[..|xs| - 1];
      assert Elements(init) <= S;
      SortSorted(init, c, S);
      var sorted := StableSort(init, c);
      SortElements(init, c);
      InsertSorted(xs[|xs| - 1], sorted, c, S);
    }
  }

  /** Nothing in an ordered sequence ties with `k` when its head is greater
      than an element that ties with `k`. */
  lemma NoTiesAfterGreater<T>(x: T, s: seq<T>, c: (T, T) -> int, S: set<T>, k: T)
    requires IsComparator(c, S) && x in S && k in S && Elements(s) <= S
    requires SortedBy(s, c) && s != [] && c(x, s[0]) < 0 && c(x, k) == 0
    ensures Ties(s, c, k) == []
  {
    forall i | 0 <= i < |s|
      ensures c(s[i], k) != 0
    {
      assert s[i] in Elements(s) && s[i] in S;
      if i > 0 {
        LessTransitive(c, S, x, s[0], s[i]);
      }
      assert Sign(c(x, s[i])) == Sign(c(k, s[i]));
      assert Sign(c(s[i], k)) == -Sign(c(k, s[i]));
    }
    NoTies(s, c, k);
  }

  /** Inserting `x` into an ordered sequence appends `x` to the tie class it
      belongs to and leaves every other tie class as it was. */
  lemma {:induction false} InsertTies<T>(x: T, s: seq<T>, c: (T, T) -> int, S: set<T>, k: T)
    requires IsComparator(c, S) && x in S && k in S && Elements(s) <= S
    requires SortedBy(s, c)
    ensures Ties(Insert(x, s, c), c, k) == Ties(s, c, k) + (if c(x, k) == 0 then [x] else [])
  {
    var tx: seq<T> := if c(x, k) == 0 then [x] else [];
    assert Ties([x], c, k) == tx + Ties([], c, k);
    if s == [] {
    } else if c(x, s[0]) < 0 {
      TiesAppend([x], s, c, k);
      if c(x, k) == 0 {
        NoTiesAfterGreater(x, s, c, S, k);
      }
    } else {
      assert Elements(s[1..]) <= S;
      assert SortedBy(s[1..], c);
      InsertTies(x, s[1..], c, S, k);
      assert Ties(Insert(x, s, c), c, k)
          == (if c(s[0], k) == 0 then [s[0]] else []) + Ties(Insert(x, s[1..], c), c, k);
    }
  }

  /** The sort is stable: the elements that compare equal to any `k` appear in
      the output in the order they had in the input. */
  lemma {:induction false} SortStable<T>(xs: seq<T>, c: (T, T) -> int, S: set<T>, k: T)
    requires IsComparator(c, S) && Elements(xs) <= S && k in S
    ensures Ties(StableSort(xs, c), c, k) == Ties(xs, c, k)
  {
    if xs != [] {
      var init := xs[..|xs| - 1];
      var last := xs[|xs| - 1];
      var tl: seq<T> := if c(last, k) == 0 then [last] else [];
      assert xs == init + [last];
      TiesAppend(init, [last], c, k);
      assert Ties([last], c, k) == tl + Ties([], c, k);
      assert Elements(init) <= S && last in S by {
        forall y | y in Elements(init)
          ensures y in S
        {
          var i :| 0 <= i < |init| && init[i] == y;
          assert xs[i] == y;
        }
        assert xs[|xs| - 1] in Elements(xs);
      }
      var sorted := StableSort(init, c);
      SortStable(init, c, S, k);
      SortSorted(init, c, S);
      SortElements(init, c);
      InsertTies(last, sorted, c, S, k);
      calc {
        Ties(StableSort(xs, c), c, k);
        Ties(Insert(last, sorted, c), c, k);
        Ties(sorted, c, k) + tl;
        Ties(init, c, k) + Ties([last], c, k);
        Ties(xs, c, k);
      }
    }
  }
}
