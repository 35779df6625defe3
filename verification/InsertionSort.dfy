/** A stable sort, as Array.sort is one: specified by insertion. */
module InsertionSort {

  function Insert<T>(x: T, s: seq<T>, leq: (T, T) -> bool): seq<T> {
    if s == [] || leq(x, s[0]) then [x] + s else [s[0]] + Insert(x, s[1..], leq)
  }

  function Sort<T>(s: seq<T>, leq: (T, T) -> bool): seq<T> {
    if s == [] then [] else Insert(s[0], Sort(s[1..], leq), leq)
  }

  ghost predicate TotalOrder<T(!new)>(leq: (T, T) -> bool) {
    && (forall x, y :: leq(x, y) || leq(y, x))
    && (forall x, y, z :: leq(x, y) && leq(y, z) ==> leq(x, z))
  }

  ghost predicate IsSorted<T>(s: seq<T>, leq: (T, T) -> bool) {
    forall i, j :: 0 <= i < j < |s| ==> leq(s[i], s[j])
  }

  lemma {:induction false} InsertMultiset<T>(x: T, s: seq<T>, leq: (T, T) -> bool)
    ensures multiset(Insert(x, s, leq)) == multiset(s) + multiset{x}
  {
    if s != [] && !leq(x, s[0]) {
      InsertMultiset(x, s[1..], leq);
      assert s == [s[0]] + s[1..];
    }
  }

  lemma {:induction false} SortMultiset<T>(s: seq<T>, leq: (T, T) -> bool)
    ensures multiset(Sort(s, leq)) == multiset(s)
  {
    hide Insert;
    if s != [] {
      SortMultiset(s[1..], leq);
      InsertMultiset(s[0], Sort(s[1..], leq), leq);
      assert s == [s[0]] + s[1..];
    }
  }

  /** The first element of a sorted list is below all its elements. */
  lemma HeadIsLeast<T(!new)>(s: seq<T>, leq: (T, T) -> bool, x: T)
    requires TotalOrder(leq) && IsSorted(s, leq) && x in s
    ensures leq(s[0], x)
  {
    assert leq(x, x);
  }

  lemma SortedCons<T>(x: T, s: seq<T>, leq: (T, T) -> bool)
    requires IsSorted(s, leq) && forall y :: y in s ==> leq(x, y)
    ensures IsSorted([x] + s, leq)
  {
  }

  lemma TailOf<T>(s: seq<T>, leq: (T, T) -> bool)
    requires s != []
    ensures IsSorted(s, leq) ==> IsSorted(s[1..], leq)
    ensures multiset(s) == multiset(s[1..]) + multiset{s[0]}
  {
    assert s == [s[0]] + s[1..];
  }

  lemma {:induction false} InsertSorts<T(!new)>(x: T, s: seq<T>, leq: (T, T) -> bool)
    requires TotalOrder(leq) && IsSorted(s, leq)
    ensures IsSorted(Insert(x, s, leq), leq)
  {
    hide IsSorted, TotalOrder;
    if s == [] || leq(x, s[0]) {
      forall y | y in s ensures leq(x, y) {
        HeadIsLeast(s, leq, y);
        Chain(leq, x, s[0], y);
      }
      SortedCons(x, s, leq);
    } else {
      TailOf(s, leq);
      InsertSorts(x, s[1..], leq);
      InsertMultiset(x, s[1..], leq);
      Chain(leq, s[0], x, x);
      var r := Insert(x, s[1..], leq);
      forall y | y in r ensures leq(s[0], y) {
        assert y in multiset(r);
        if y != x {
          HeadIsLeast(s, leq, y);
        }
      }
      SortedCons(s[0], r, leq);
    }
  }

  lemma Chain<T(!new)>(leq: (T, T) -> bool, x: T, y: T, z: T)
    requires TotalOrder(leq)
    ensures leq(x, y) && leq(y, z) ==> leq(x, z)
    ensures leq(x, y) || leq(y, x)
  {
  }

  lemma {:induction false} SortSorts<T(!new)>(s: seq<T>, leq: (T, T) -> bool)
    requires TotalOrder(leq)
    ensures IsSorted(Sort(s, leq), leq)
  {
    hide IsSorted, TotalOrder, Insert;
    if s == [] {
      NothingSorted(leq);
    } else {
      SortSorts(s[1..], leq);
      InsertSorts(s[0], Sort(s[1..], leq), leq);
    }
  }

  lemma NothingSorted<T>(leq: (T, T) -> bool)
    ensures IsSorted([], leq)
  {
  }

  lemma SameHead<T(!new)>(a: seq<T>, b: seq<T>, leq: (T, T) -> bool)
    requires TotalOrder(leq) && IsSorted(a, leq) && IsSorted(b, leq)
    requires multiset(a) == multiset(b) && a != [] && b != []
    requires forall x, y :: leq(x, y) && leq(y, x) ==> x == y
    ensures a[0] == b[0]
  {
    hide IsSorted, TotalOrder;
    assert a[0] in multiset(b) && b[0] in multiset(a);
    HeadIsLeast(b, leq, a[0]);
    HeadIsLeast(a, leq, b[0]);
  }

  lemma SameTail<T>(a: seq<T>, b: seq<T>)
    requires a != [] && b != [] && a[0] == b[0]
    ensures multiset(a) == multiset(b) <==> multiset(a[1..]) == multiset(b[1..])
    ensures a == b <==> a[1..] == b[1..]
  {
    assert a == [a[0]] + a[1..] && b == [b[0]] + b[1..];
    assert multiset(a[1..]) == multiset(a) - multiset{a[0]};
    assert multiset(b[1..]) == multiset(b) - multiset{b[0]};
  }

  lemma {:induction false} SortedUnique<T(!new)>(a: seq<T>, b: seq<T>, leq: (T, T) -> bool)
    requires TotalOrder(leq) && IsSorted(a, leq) && IsSorted(b, leq) && multiset(a) == multiset(b)
    requires forall x, y :: leq(x, y) && leq(y, x) ==> x == y
    ensures a == b
  {
    hide IsSorted, TotalOrder;
    assert |multiset(a)| == |a| && |multiset(b)| == |b|;
    if a != [] {
      SameHead(a, b, leq);
      SameTail(a, b);
      TailOf(a, leq);
      TailOf(b, leq);
      SortedUnique(a[1..], b[1..], leq);
    }
  }

  /** When no two elements are equivalent, sorting two lists gives the same exactly when one permutes the other. */
  lemma SameSortIffPermutation<T(!new)>(a: seq<T>, b: seq<T>, leq: (T, T) -> bool)
    requires TotalOrder(leq) && forall x, y :: leq(x, y) && leq(y, x) ==> x == y
    ensures Sort(a, leq) == Sort(b, leq) <==> multiset(a) == multiset(b)
  {
    hide Sort, TotalOrder, IsSorted;
    SortSorts(a, leq);
    SortSorts(b, leq);
    SortMultiset(a, leq);
    SortMultiset(b, leq);
    if multiset(a) == multiset(b) {
      SortedUnique(Sort(a, leq), Sort(b, leq), leq);
    }
  }
}
