/** Arrays of records that are looked up by a text key, and the map such an array stands for. */
module Keyed {
  import opened Text
  import opened Sorting

  ghost predicate Unique<T(!new)>(key: T -> Text, s: seq<T>) {
    forall i, j :: 0 <= i < j < |s| ==> key(s[i]) != key(s[j])
  }

  /** `Array.prototype.find` by key. */
  function Find<T(!new)>(key: T -> Text, s: seq<T>, id: Text): (r: Option<T>)
    ensures r.Some? ==> r.value in s && key(r.value) == id
    ensures r.None? ==> forall i :: 0 <= i < |s| ==> key(s[i]) != id
  {
    if s == [] then None else if key(s[0]) == id then Some(s[0]) else Find(key, s[1..], id)
  }

  /** The map from keys to the first record with that key. */
  ghost function Index<T(!new)>(key: T -> Text, s: seq<T>): (m: map<Text, T>)
    ensures forall id :: id in m <==> Find(key, s, id).Some?
    ensures forall id :: id in m ==> m[id] == Find(key, s, id).value
  {
    map id | id in (set i | 0 <= i < |s| :: key(s[i])) :: Find(key, s, id).value
  }

  /** `Array.prototype.map` that swaps in a record for those with its key. */
  function Replace<T>(key: T -> Text, s: seq<T>, x: T): (r: seq<T>)
    ensures |r| == |s|
    ensures forall i :: 0 <= i < |s| ==> r[i] == if key(s[i]) == key(x) then x else s[i]
  {
    seq(|s|, i requires 0 <= i < |s| => if key(s[i]) == key(x) then x else s[i])
  }

  lemma {:induction false} UniqueFilter<T(!new)>(key: T -> Text, keep: T -> bool, s: seq<T>)
    requires Unique(key, s)
    ensures Unique(key, Filter(keep, s))
  {
    if s == [] {
    } else {
      UniqueFilter(key, keep, s[1..]);
      var rest := Filter(keep, s[1..]);
      forall j | 0 <= j < |rest| ensures key(rest[j]) != key(s[0]) {
        assert rest[j] in s[1..];
      }
    }
  }

  lemma {:induction false} FindFilter<T(!new)>(key: T -> Text, keep: T -> bool, s: seq<T>, id: Text)
    requires Unique(key, s)
    ensures Find(key, Filter(keep, s), id) == var r := Find(key, s, id); if r.Some? && keep(r.value) then r else None
  {
    if s == [] {
    } else {
      FindFilter(key, keep, s[1..], id);
      assert keep(s[0]) ==> Filter(keep, s)[1..] == Filter(keep, s[1..]);
    }
  }

  lemma {:induction false} FindReplace<T(!new)>(key: T -> Text, s: seq<T>, x: T, id: Text)
    ensures Find(key, Replace(key, s, x), id) ==
            if id == key(x) && Find(key, s, id).Some? then Some(x) else Find(key, s, id)
  {
    if s == [] {
    } else {
      FindReplace(key, s[1..], x, id);
      assert Replace(key, s, x)[1..] == Replace(key, s[1..], x);
    }
  }

  /** Filtering keeps the map's entries that pass. */
  lemma IndexFilter<T(!new)>(key: T -> Text, keep: T -> bool, s: seq<T>)
    requires Unique(key, s)
    ensures Unique(key, Filter(keep, s))
    ensures var m := Index(key, s);
            Index(key, Filter(keep, s)) == map id | id in m && keep(m[id]) :: m[id]
  {
    UniqueFilter(key, keep, s);
    forall id {
      FindFilter(key, keep, s, id);
    }
  }

  lemma UniquePut<T(!new)>(key: T -> Text, x: T, rest: seq<T>)
    requires Unique(key, rest)
    requires forall y :: y in rest ==> key(y) != key(x)
    ensures Unique(key, [x] + rest)
  {
    forall i, j | 0 <= i < j < 1 + |rest| ensures key(([x] + rest)[i]) != key(([x] + rest)[j]) {
      assert rest[j - 1] in rest;
    }
  }

  lemma FindPut<T(!new)>(key: T -> Text, x: T, s: seq<T>, others: T -> bool, id: Text)
    requires Unique(key, s)
    requires forall y :: others(y) <==> key(y) != key(x)
    ensures Find(key, [x] + Filter(others, s), id) == if id == key(x) then Some(x) else Find(key, s, id)
  {
    FindFilter(key, others, s, id);
    assert ([x] + Filter(others, s))[1..] == Filter(others, s);
  }

  /** Putting a record in front of the others with different keys sets its entry. */
  lemma IndexPut<T(!new)>(key: T -> Text, x: T, s: seq<T>, others: T -> bool)
    requires Unique(key, s)
    requires forall y :: others(y) <==> key(y) != key(x)
    ensures Unique(key, [x] + Filter(others, s))
    ensures Index(key, [x] + Filter(others, s)) == Index(key, s)[key(x) := x]
  {
    UniqueFilter(key, others, s);
    UniquePut(key, x, Filter(others, s));
    forall id {
      FindPut(key, x, s, others, id);
    }
  }

  lemma UniqueReplace<T(!new)>(key: T -> Text, s: seq<T>, x: T)
    requires Unique(key, s)
    ensures Unique(key, Replace(key, s, x))
  {
    var r := Replace(key, s, x);
    forall i, j | 0 <= i < j < |s| ensures key(r[i]) != key(r[j]) {
      assert key(r[i]) == key(s[i]) && key(r[j]) == key(s[j]);
    }
  }

  lemma IndexReplace<T(!new)>(key: T -> Text, s: seq<T>, x: T)
    requires Unique(key, s)
    ensures Unique(key, Replace(key, s, x))
    ensures var m := Index(key, s);
            Index(key, Replace(key, s, x)) == if key(x) in m then m[key(x) := x] else m
  {
    UniqueReplace(key, s, x);
    forall id {
      FindReplace(key, s, x, id);
    }
  }

  lemma {:induction false} FindAppend<T(!new)>(key: T -> Text, s: seq<T>, x: T, id: Text)
    ensures Find(key, s + [x], id) ==
            var r := Find(key, s, id); if r.None? && key(x) == id then Some(x) else r
  {
    if s != [] {
      FindAppend(key, s[1..], x, id);
      assert (s + [x])[1..] == s[1..] + [x];
    } else {
      assert [x][1..] == [] && s + [x] == [x];
    }
  }

  /** Sorting records with different keys does not change what a lookup finds. */
  lemma {:induction false} FindInsert<T(!new)>(before: (T, T) -> bool, key: T -> Text, x: T, s: seq<T>, id: Text)
    requires forall y :: y in s ==> key(y) != key(x)
    ensures Find(key, Insert(before, x, s), id) == if id == key(x) then Some(x) else Find(key, s, id)
  {
    if s == [] || before(x, s[0]) {
      assert ([x] + s)[1..] == s;
    } else {
      FindInsert(before, key, x, s[1..], id);
      var r := Insert(before, x, s[1..]);
      assert ([s[0]] + r)[1..] == r;
    }
  }

  lemma InsertUnique<T(!new)>(before: (T, T) -> bool, key: T -> Text, x: T, s: seq<T>)
    requires Unique(key, s) && forall y :: y in s ==> key(y) != key(x)
    ensures Unique(key, Insert(before, x, s))
  {
    if s == [] || before(x, s[0]) {
      UniquePut(key, x, s);
    } else {
      InsertUnique(before, key, x, s[1..]);
      InsertPermutes(before, x, s[1..]);
      var r := Insert(before, x, s[1..]);
      forall y | y in r ensures key(y) != key(s[0]) {
        assert y in multiset(r);
      }
      UniquePut(key, s[0], r);
    }
  }

  lemma {:induction false} SortUnique<T(!new)>(before: (T, T) -> bool, key: T -> Text, s: seq<T>)
    requires Unique(key, s)
    ensures Unique(key, Sort(before, s))
    ensures forall id :: Find(key, Sort(before, s), id) == Find(key, s, id)
    ensures forall x :: x in Sort(before, s) ==> x in s
  {
    if s == [] {
    } else {
      SortUnique(before, key, s[1..]);
      var r := Sort(before, s[1..]);
      InsertUnique(before, key, s[0], r);
      InsertPermutes(before, s[0], r);
      forall x | x in Sort(before, s) ensures x in s {
        assert x in multiset(Sort(before, s));
      }
      forall id {
        FindInsert(before, key, s[0], r, id);
      }
    }
  }

  lemma {:induction false} FindOwn<T(!new)>(key: T -> Text, s: seq<T>, i: nat)
    requires Unique(key, s) && i < |s|
    ensures Find(key, s, key(s[i])) == Some(s[i])
  {
    if i == 0 {
    } else {
      assert key(s[0]) != key(s[i]);
      FindOwn(key, s[1..], i - 1);
    }
  }

  /** The sum of a count over all records. */
  function Total<T>(count: T -> nat, s: seq<T>): nat {
    if s == [] then 0 else count(s[0]) + Total(count, s[1..])
  }

  lemma {:induction false} TotalAppend<T>(count: T -> nat, s: seq<T>, x: T)
    ensures Total(count, s + [x]) == Total(count, s) + count(x)
  {
    if s != [] {
      TotalAppend(count, s[1..], x);
      assert (s + [x])[1..] == s[1..] + [x];
    } else {
      assert s + [x] == [x] && [x][1..] == s;
    }
  }

  /** Replacing the only record of a key changes the sum by the difference of the two counts. */
  lemma {:induction false} TotalReplace<T(!new)>(count: T -> nat, key: T -> Text, s: seq<T>, x: T)
    requires Unique(key, s)
    ensures Total(count, Replace(key, s, x)) ==
            var r := Find(key, s, key(x));
            Total(count, s) + if r.Some? then count(x) - count(r.value) else 0
  {
    if s == [] {
    } else {
      TotalReplace(count, key, s[1..], x);
      assert Replace(key, s, x)[1..] == Replace(key, s[1..], x);
      if key(s[0]) == key(x) {
        assert forall i :: 0 <= i < |s| - 1 ==> key(s[1..][i]) != key(x);
        assert Find(key, s[1..], key(x)).None?;
      }
    }
  }

  lemma {:induction false} TotalInsert<T>(count: T -> nat, before: (T, T) -> bool, x: T, s: seq<T>)
    ensures Total(count, Insert(before, x, s)) == count(x) + Total(count, s)
  {
    if s == [] || before(x, s[0]) {
      assert ([x] + s)[1..] == s;
    } else {
      TotalInsert(count, before, x, s[1..]);
      var r := Insert(before, x, s[1..]);
      assert ([s[0]] + r)[1..] == r;
    }
  }

  lemma {:induction false} TotalSort<T>(count: T -> nat, before: (T, T) -> bool, s: seq<T>)
    ensures Total(count, Sort(before, s)) == Total(count, s)
  {
    if s == [] {
    } else {
      TotalSort(count, before, s[1..]);
      TotalInsert(count, before, s[0], Sort(before, s[1..]));
    }
  }
}
