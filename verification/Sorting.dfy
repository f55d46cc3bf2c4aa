/** The language's stable `sort` by a comparison, as insertion sort, and its `filter`, `map` and `flatMap`. */
module Sorting {

  /** A comparison that may call different elements equal. */
  ghost predicate TotalPreorder<T(!new)>(before: (T, T) -> bool) {
    && (forall a, b :: before(a, b) || before(b, a))
    && (forall a, b, c :: before(a, b) && before(b, c) ==> before(a, c))
  }

  ghost predicate Sorted<T>(before: (T, T) -> bool, s: seq<T>) {
    forall i, j :: 0 <= i < j < |s| ==> before(s[i], s[j])
  }

  /** Comparing records by one of their fields. */
  function OrderBy<T, K>(order: (K, K) -> bool, field: T -> K): (T, T) -> bool {
    (a: T, b: T) => order(field(a), field(b))
  }

  lemma OrderByPreorder<T(!new), K(!new)>(order: (K, K) -> bool, field: T -> K)
    requires TotalPreorder(order)
    ensures TotalPreorder(OrderBy(order, field))
  {
    var before := OrderBy(order, field);
    assert forall a, b :: before(a, b) == order(field(a), field(b));
  }

  function Insert<T>(before: (T, T) -> bool, x: T, s: seq<T>): seq<T> {
    if s == [] || before(x, s[0]) then [x] + s else [s[0]] + Insert(before, x, s[1..])
  }

  function Sort<T>(before: (T, T) -> bool, s: seq<T>): seq<T> {
    if s == [] then [] else Insert(before, s[0], Sort(before, s[1..]))
  }

  function Filter<T(!new)>(keep: T -> bool, s: seq<T>): (r: seq<T>)
    ensures |r| <= |s|
    ensures forall x :: x in r <==> x in s && keep(x)
  {
    if s == [] then []
    else
      assert s == [s[0]] + s[1..];
      if keep(s[0]) then [s[0]] + Filter(keep, s[1..]) else Filter(keep, s[1..])
  }

  lemma {:induction false} InsertPermutes<T>(before: (T, T) -> bool, x: T, s: seq<T>)
    ensures multiset(Insert(before, x, s)) == multiset(s) + multiset{x}
  {
    if s == [] || before(x, s[0]) {
    } else {
      InsertPermutes(before, x, s[1..]);
      assert s == [s[0]] + s[1..];
    }
  }

  lemma {:induction false} InsertSorted<T(!new)>(before: (T, T) -> bool, x: T, s: seq<T>)
    requires TotalPreorder(before) && Sorted(before, s)
    ensures Sorted(before, Insert(before, x, s))
  {
    if s == [] || before(x, s[0]) {
    } else {
      InsertSorted(before, x, s[1..]);
      var r := Insert(before, x, s[1..]);
      InsertPermutes(before, x, s[1..]);
      forall j | 0 <= j < |r| ensures before(s[0], r[j]) {
        assert r[j] in multiset(r);
        assert r[j] == x || r[j] in s[1..];
      }
    }
  }

  /** Sorting gives a sorted permutation. */
  lemma {:induction false} SortSorts<T(!new)>(before: (T, T) -> bool, s: seq<T>)
    requires TotalPreorder(before)
    ensures Sorted(before, Sort(before, s))
    ensures multiset(Sort(before, s)) == multiset(s) && |Sort(before, s)| == |s|
  {
    if s == [] {
    } else {
      SortSorts(before, s[1..]);
      InsertSorted(before, s[0], Sort(before, s[1..]));
      InsertPermutes(before, s[0], Sort(before, s[1..]));
      assert s == [s[0]] + s[1..];
    }
    assert |multiset(Sort(before, s))| == |multiset(s)|;
  }

  lemma SortSameElements<T(!new)>(before: (T, T) -> bool, s: seq<T>)
    requires TotalPreorder(before)
    ensures forall x :: x in Sort(before, s) <==> x in s
  {
    SortSorts(before, s);
    forall x ensures x in Sort(before, s) <==> x in s {
      assert x in multiset(Sort(before, s)) <==> x in multiset(s);
    }
  }

  lemma {:induction false} InsertStable<T(!new)>(before: (T, T) -> bool, keep: T -> bool, x: T, s: seq<T>)
    requires forall i :: 0 <= i < |s| && keep(x) && keep(s[i]) ==> before(x, s[i])
    ensures Filter(keep, Insert(before, x, s)) == Filter(keep, [x] + s)
  {
    if s == [] || before(x, s[0]) {
    } else {
      InsertStable(before, keep, x, s[1..]);
      var r := Insert(before, x, s[1..]);
      assert ([s[0]] + r)[1..] == r && ([x] + s)[1..] == s && ([x] + s[1..])[1..] == s[1..];
    }
  }

  /** Elements that the comparison calls equal keep their order. */
  lemma {:induction false} SortStable<T(!new)>(before: (T, T) -> bool, keep: T -> bool, s: seq<T>)
    requires TotalPreorder(before)
    requires forall a, b :: keep(a) && keep(b) ==> before(a, b)
    ensures Filter(keep, Sort(before, s)) == Filter(keep, s)
  {
    if s == [] {
    } else {
      SortStable(before, keep, s[1..]);
      var r := Sort(before, s[1..]);
      InsertStable(before, keep, s[0], r);
      assert ([s[0]] + r)[1..] == r;
    }
  }

  lemma {:induction false} SortedFixed<T(!new)>(before: (T, T) -> bool, s: seq<T>)
    requires Sorted(before, s)
    ensures Sort(before, s) == s
  {
    if s == [] {
    } else {
      SortedFixed(before, s[1..]);
      assert |s| > 1 ==> before(s[0], s[1]);
      assert [s[0]] + s[1..] == s;
    }
  }

  lemma {:induction false} FilterAppend<T(!new)>(keep: T -> bool, s: seq<T>, x: T)
    ensures Filter(keep, s + [x]) == if keep(x) then Filter(keep, s) + [x] else Filter(keep, s)
  {
    if s != [] {
      FilterAppend(keep, s[1..], x);
      assert (s + [x])[1..] == s[1..] + [x];
    } else {
      assert s + [x] == [x] && [x][1..] == s;
    }
  }

  lemma {:induction false} FilterSorted<T(!new)>(before: (T, T) -> bool, keep: T -> bool, s: seq<T>)
    requires Sorted(before, s)
    ensures Sorted(before, Filter(keep, s))
  {
    if s == [] {
    } else {
      FilterSorted(before, keep, s[1..]);
      var r := Filter(keep, s[1..]);
      forall j | 0 <= j < |r| ensures before(s[0], r[j]) {
        assert r[j] in s[1..];
      }
    }
  }

  lemma {:induction false} FilterInsert<T(!new)>(before: (T, T) -> bool, keep: T -> bool, x: T, s: seq<T>)
    ensures multiset(Filter(keep, Insert(before, x, s))) == multiset(Filter(keep, s)) + if keep(x) then multiset{x} else multiset{}
  {
    if s == [] || before(x, s[0]) {
      assert ([x] + s)[1..] == s;
    } else {
      FilterInsert(before, keep, x, s[1..]);
      var r := Insert(before, x, s[1..]);
      assert ([s[0]] + r)[1..] == r;
    }
  }

  /** Filtering a sorted list keeps what filtering the list keeps. */
  lemma {:induction false} FilterSortPermutes<T(!new)>(before: (T, T) -> bool, keep: T -> bool, s: seq<T>)
    ensures multiset(Filter(keep, Sort(before, s))) == multiset(Filter(keep, s))
    ensures |Filter(keep, Sort(before, s))| == |Filter(keep, s)|
  {
    if s == [] {
    } else {
      FilterSortPermutes(before, keep, s[1..]);
      FilterInsert(before, keep, s[0], Sort(before, s[1..]));
    }
    assert |multiset(Filter(keep, Sort(before, s)))| == |multiset(Filter(keep, s))|;
  }

  /** The comparison tells different elements of the list apart. */
  ghost predicate TellsApart<T(!new)>(before: (T, T) -> bool, s: seq<T>) {
    forall a, b :: a in s && b in s && before(a, b) && before(b, a) ==> a == b
  }

  lemma FirstOfSorted<T(!new)>(before: (T, T) -> bool, s: seq<T>, x: T)
    requires TotalPreorder(before) && Sorted(before, s) && x in s
    ensures before(s[0], x)
  {
    var i :| 0 <= i < |s| && s[i] == x;
    assert i == 0 || before(s[0], s[i]);
  }

  lemma WithoutIndex<T>(s: seq<T>, j: nat)
    requires j < |s|
    ensures multiset(s[..j] + s[j + 1..]) == multiset(s) - multiset{s[j]}
  {
    assert s == s[..j] + [s[j]] + s[j + 1..];
  }

  lemma TailsPermute<T>(s: seq<T>, t: seq<T>, j: nat, rest: seq<T>)
    requires s != [] && j < |t| && t[j] == s[0] && rest == t[..j] + t[j + 1..] && multiset(s) == multiset(t)
    ensures multiset(s[1..]) == multiset(rest)
  {
    assert s == [s[0]] + s[1..];
    WithoutIndex(t, j);
  }

  lemma HeadsAgree<T(!new)>(before: (T, T) -> bool, s: seq<T>, t: seq<T>)
    requires TotalPreorder(before) && TellsApart(before, s) && s != []
    requires Sorted(before, s) && Sorted(before, t) && multiset(s) == multiset(t)
    ensures t != [] && s[0] == t[0]
  {
    assert s[0] in multiset(t);
    assert t[0] in multiset(s);
    FirstOfSorted(before, t, s[0]);
    FirstOfSorted(before, s, t[0]);
  }

  lemma SortedTail<T(!new)>(before: (T, T) -> bool, s: seq<T>)
    requires s != [] && Sorted(before, s)
    ensures Sorted(before, s[1..])
  {
  }

  lemma {:induction false} SortedUnique<T(!new)>(before: (T, T) -> bool, s: seq<T>, t: seq<T>)
    requires TotalPreorder(before) && TellsApart(before, s)
    requires Sorted(before, s) && Sorted(before, t) && multiset(s) == multiset(t)
    ensures s == t
  {
    if s == [] {
      assert |t| == |multiset(t)| == 0;
    } else {
      HeadsAgree(before, s, t);
      SortedTail(before, s);
      SortedTail(before, t);
      assert t[1..] == t[..0] + t[1..];
      TailsPermute(s, t, 0, t[1..]);
      SortedUnique(before, s[1..], t[1..]);
      assert s == [s[0]] + s[1..] && t == [t[0]] + t[1..];
    }
  }

  /** Sorting does not depend on the order of what it is given. */
  lemma SortOfPermutation<T(!new)>(before: (T, T) -> bool, s: seq<T>, t: seq<T>)
    requires TotalPreorder(before) && TellsApart(before, s) && multiset(s) == multiset(t)
    ensures Sort(before, s) == Sort(before, t)
  {
    SortSorts(before, s);
    SortSorts(before, t);
    SortSameElements(before, s);
    SortedUnique(before, Sort(before, s), Sort(before, t));
  }

  function Map<T, U>(f: T -> U, s: seq<T>): (r: seq<U>)
    ensures |r| == |s| && forall i :: 0 <= i < |s| ==> r[i] == f(s[i])
  {
    seq(|s|, i requires 0 <= i < |s| => f(s[i]))
  }

  lemma MapWithout<T, U>(f: T -> U, s: seq<T>, j: nat, rest: seq<T>)
    requires j < |s| && rest == s[..j] + s[j + 1..]
    ensures multiset(Map(f, s)) == multiset(Map(f, rest)) + multiset{f(s[j])}
  {
    assert Map(f, s) == Map(f, s[..j]) + [f(s[j])] + Map(f, s[j + 1..]);
    assert Map(f, rest) == Map(f, s[..j]) + Map(f, s[j + 1..]);
  }

  lemma HeadMapped<T, U>(f: T -> U, s: seq<T>)
    requires s != []
    ensures multiset(Map(f, s)) == multiset(Map(f, s[1..])) + multiset{f(s[0])}
  {
    assert Map(f, s) == [f(s[0])] + Map(f, s[1..]);
  }

  lemma IndexIn<T>(s: seq<T>, x: T) returns (j: nat)
    requires x in multiset(s)
    ensures j < |s| && s[j] == x
  {
    j :| 0 <= j < |s| && s[j] == x;
  }

  /** Mapping two orders of one list gives two orders of one list. */
  lemma {:induction false} MapPermutes<T, U>(f: T -> U, s: seq<T>, t: seq<T>)
    requires multiset(s) == multiset(t)
    ensures multiset(Map(f, s)) == multiset(Map(f, t))
    decreases |s|
  {
    if s == [] {
      assert |t| == |multiset(t)| == 0;
      assert Map(f, s) == Map(f, t);
    } else {
      var j := IndexIn(t, s[0]);
      var rest := t[..j] + t[j + 1..];
      TailsPermute(s, t, j, rest);
      MapPermutes(f, s[1..], rest);
      HeadMapped(f, s);
      MapWithout(f, t, j, rest);
    }
  }

  function FlatMap<T, U>(f: T -> seq<U>, s: seq<T>): seq<U> {
    if s == [] then [] else f(s[0]) + FlatMap(f, s[1..])
  }

  lemma Associates<T>(a: seq<T>, b: seq<T>, c: seq<T>)
    ensures a + (b + c) == a + b + c
  {
  }

  lemma {:induction false} FlatMapConcat<T, U>(f: T -> seq<U>, a: seq<T>, b: seq<T>)
    ensures FlatMap(f, a + b) == FlatMap(f, a) + FlatMap(f, b)
  {
    if a == [] {
      assert a + b == b;
    } else {
      FlatMapConcat(f, a[1..], b);
      assert (a + b)[0] == a[0] && (a + b)[1..] == a[1..] + b;
      Associates(f(a[0]), FlatMap(f, a[1..]), FlatMap(f, b));
    }
  }

  lemma FlatMapOne<T, U>(f: T -> seq<U>, x: T)
    ensures FlatMap(f, [x]) == f(x)
  {
    assert FlatMap(f, [x][1..]) == [];
  }

  lemma MapFixed<T>(f: T -> T, s: seq<T>)
    requires forall i :: 0 <= i < |s| ==> f(s[i]) == s[i]
    ensures Map(f, s) == s
  {
  }

  lemma {:induction false} FilterAll<T(!new)>(keep: T -> bool, s: seq<T>)
    requires forall i :: 0 <= i < |s| ==> keep(s[i])
    ensures Filter(keep, s) == s
  {
    if s == [] {
    } else {
      FilterAll(keep, s[1..]);
      assert s == [s[0]] + s[1..];
    }
  }
}
