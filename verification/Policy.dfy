/**
 Canonical policy text: `sortPolicyValue` and `stableSerializePolicy`.

 The key order is a parameter. Any strict total order will do, so the results hold for
 `localeCompare` and for the order in which an object lists integer-like keys first.
 */
module Policy {
  import opened Text
  import opened Json

  // ---------- What a policy means ----------

  /** A policy tree with objects as maps: no key order, no `undefined` entries. */
  datatype Meaning =
    | MNull
    | MBool(b: bool)
    | MNum(digits: Text)
    | MStr(s: Text)
    | MArr(items: seq<Meaning>)
    | MObj(entries: map<Text, Meaning>)

  function Denote(v: Value): Meaning
    decreases v, 1
  {
    match v
    case Undefined => MNull
    case Null => MNull
    case Bool(b) => MBool(b)
    case Num(t) => MNum(t)
    case Str(s) => MStr(s)
    case Arr(items) => MArr(DenoteItems(items))
    case Obj(ms) => MObj(DenoteMembers(ms))
  }

  function DenoteItems(items: seq<Value>): (r: seq<Meaning>)
    ensures |r| == |items|
    ensures forall i :: 0 <= i < |items| ==> r[i] == Denote(items[i])
    decreases items, 0
  {
    if items == [] then [] else [Denote(items[0])] + DenoteItems(items[1..])
  }

  function DenoteMembers(ms: seq<Member>): (r: map<Text, Meaning>)
    ensures forall k :: k in r ==> exists i :: 0 <= i < |ms| && ms[i].key == k
    decreases ms, 0
  {
    if ms == [] then map[]
    else
      var rest := DenoteMembers(ms[1..]);
      if ms[0].value.Undefined? then rest else rest[ms[0].key := Denote(ms[0].value)]
  }

  // ---------- Sorting ----------

  type Order = (Text, Text) -> bool

  ghost predicate StrictTotal(less: Order) {
    && (forall a :: !less(a, a))
    && (forall a, b, c :: less(a, b) && less(b, c) ==> less(a, c))
    && (forall a, b :: a == b || less(a, b) || less(b, a))
  }

  function Insert(less: Order, m: Member, ms: seq<Member>): seq<Member> {
    if ms == [] || less(m.key, ms[0].key) then [m] + ms
    else [ms[0]] + Insert(less, m, ms[1..])
  }

  function SortByKey(less: Order, ms: seq<Member>): seq<Member> {
    if ms == [] then [] else Insert(less, ms[0], SortByKey(less, ms[1..]))
  }

  /** `sortPolicyValue`. Sorting looks at keys only, so the values are rewritten first. */
  function SortPolicyValue(less: Order, v: Value): Value
    decreases v, 1
  {
    match v
    case Arr(items) => Arr(SortItems(less, items))
    case Obj(ms) => Obj(SortByKey(less, SortMemberValues(less, ms)))
    case _ => v
  }

  function SortItems(less: Order, items: seq<Value>): (r: seq<Value>)
    ensures |r| == |items|
    ensures forall i :: 0 <= i < |items| ==> r[i] == SortPolicyValue(less, items[i])
    decreases items, 0
  {
    if items == [] then [] else [SortPolicyValue(less, items[0])] + SortItems(less, items[1..])
  }

  /** The defined entries, with rewritten values. */
  function SortMemberValues(less: Order, ms: seq<Member>): (r: seq<Member>)
    ensures forall i :: 0 <= i < |r| ==> exists j :: 0 <= j < |ms| && ms[j].key == r[i].key
    decreases ms, 0
  {
    if ms == [] then []
    else
      var rest := SortMemberValues(less, ms[1..]);
      if ms[0].value.Undefined? then rest
      else [Member(ms[0].key, SortPolicyValue(less, ms[0].value))] + rest
  }

  /** The source only serializes objects, so the root is never `undefined`. */
  function StableSerialize(less: Order, v: Value): Text {
    Stringify(SortPolicyValue(less, v))
  }

  // ---------- Sorted trees ----------

  ghost predicate SortedKeys(less: Order, ms: seq<Member>) {
    forall i, j :: 0 <= i < j < |ms| ==> less(ms[i].key, ms[j].key)
  }

  /** At every depth: keys in order and no `undefined` entry. */
  ghost predicate SortedDeep(less: Order, v: Value) {
    match v
    case Num(t) => NumberText(t)
    case Arr(items) => forall i :: 0 <= i < |items| ==> SortedDeep(less, items[i])
    case Obj(ms) =>
      && SortedKeys(less, ms)
      && forall i :: 0 <= i < |ms| ==> !ms[i].value.Undefined? && SortedDeep(less, ms[i].value)
    case _ => true
  }

  lemma {:induction false} SortedIsWellFormed(less: Order, v: Value)
    requires StrictTotal(less) && SortedDeep(less, v)
    ensures WellFormed(v)
    decreases v
  {
    match v
    case Arr(items) =>
      forall i | 0 <= i < |items| ensures WellFormed(items[i]) {
        SortedIsWellFormed(less, items[i]);
      }
    case Obj(ms) =>
      forall i | 0 <= i < |ms| ensures WellFormed(ms[i].value) {
        SortedIsWellFormed(less, ms[i].value);
      }
    case _ =>
  }

  predicate Fresh(key: Text, ms: seq<Member>) {
    forall i :: 0 <= i < |ms| ==> ms[i].key != key
  }

  ghost predicate GoodValues(less: Order, ms: seq<Member>) {
    forall i :: 0 <= i < |ms| ==> !ms[i].value.Undefined? && SortedDeep(less, ms[i].value)
  }

  lemma {:induction false} InsertKeys(less: Order, m: Member, ms: seq<Member>)
    ensures forall k :: k != m.key && Fresh(k, ms) ==> Fresh(k, Insert(less, m, ms))
    ensures GoodValues(less, [m]) && GoodValues(less, ms) ==> GoodValues(less, Insert(less, m, ms))
  {
    if ms == [] || less(m.key, ms[0].key) {
    } else {
      InsertKeys(less, m, ms[1..]);
      forall k | k != m.key && Fresh(k, ms) ensures Fresh(k, Insert(less, m, ms)) {
        assert k != ms[0].key && Fresh(k, ms[1..]);
      }
    }
  }

  lemma {:induction false} InsertSorted(less: Order, m: Member, ms: seq<Member>)
    requires StrictTotal(less) && SortedKeys(less, ms) && Fresh(m.key, ms)
    ensures SortedKeys(less, Insert(less, m, ms))
  {
    if ms == [] || less(m.key, ms[0].key) {
    } else {
      InsertSorted(less, m, ms[1..]);
      InsertAbove(less, ms[0].key, m, ms[1..]);
    }
  }

  lemma {:induction false} InsertDenotes(less: Order, m: Member, ms: seq<Member>)
    requires DistinctKeys(ms) && Fresh(m.key, ms)
    requires !m.value.Undefined? && forall i :: 0 <= i < |ms| ==> !ms[i].value.Undefined?
    ensures DenoteMembers(Insert(less, m, ms)) == DenoteMembers(ms)[m.key := Denote(m.value)]
  {
    var r := Insert(less, m, ms);
    if ms == [] || less(m.key, ms[0].key) {
      assert r[0] == m && r[1..] == ms;
    } else {
      InsertDenotes(less, m, ms[1..]);
      assert r[0] == ms[0] && r[1..] == Insert(less, m, ms[1..]);
    }
  }

  lemma {:induction false} InsertAbove(less: Order, low: Text, m: Member, ms: seq<Member>)
    requires less(low, m.key) && forall i :: 0 <= i < |ms| ==> less(low, ms[i].key)
    ensures forall i :: 0 <= i < |Insert(less, m, ms)| ==> less(low, Insert(less, m, ms)[i].key)
  {
    if ms == [] || less(m.key, ms[0].key) {
    } else {
      InsertAbove(less, low, m, ms[1..]);
    }
  }

  lemma {:induction false} SortByKeySorted(less: Order, ms: seq<Member>)
    requires StrictTotal(less) && DistinctKeys(ms) && GoodValues(less, ms)
    ensures var r := SortByKey(less, ms);
            && SortedKeys(less, r) && GoodValues(less, r)
            && (forall k :: Fresh(k, ms) ==> Fresh(k, r))
            && DenoteMembers(r) == DenoteMembers(ms)
  {
    if ms == [] {
    } else {
      SortByKeySorted(less, ms[1..]);
      assert Fresh(ms[0].key, ms[1..]);
      var rest := SortByKey(less, ms[1..]);
      InsertKeys(less, ms[0], rest);
      InsertSorted(less, ms[0], rest);
      InsertDenotes(less, ms[0], rest);
      forall k | Fresh(k, ms) ensures Fresh(k, SortByKey(less, ms)) {
        assert k != ms[0].key && Fresh(k, ms[1..]);
      }
    }
  }

  /** `sortPolicyValue` sorts every object and changes no meaning. */
  lemma {:induction false} SortKeepsMeaning(less: Order, v: Value)
    requires StrictTotal(less) && WellFormed(v)
    ensures SortedDeep(less, SortPolicyValue(less, v))
    ensures Denote(SortPolicyValue(less, v)) == Denote(v)
    ensures SortPolicyValue(less, v).Undefined? <==> v.Undefined?
    decreases v, 1
  {
    match v
    case Arr(items) =>
      var r := SortItems(less, items);
      forall i | 0 <= i < |items| ensures SortedDeep(less, r[i]) && Denote(r[i]) == Denote(items[i]) {
        SortKeepsMeaning(less, items[i]);
      }
      assert DenoteItems(r) == DenoteItems(items);
    case Obj(ms) =>
      MemberValuesKeepMeaning(less, ms);
      SortByKeySorted(less, SortMemberValues(less, ms));
    case _ =>
  }

  /** One more rewritten entry in front of the others. */
  lemma MemberValueStep(less: Order, m: Member, h: Value, rest: seq<Member>, t: seq<Member>)
    requires !m.value.Undefined? && !h.Undefined? && SortedDeep(less, h) && Denote(h) == Denote(m.value)
    requires Fresh(m.key, rest) && DistinctKeys(rest) && GoodValues(less, rest)
    requires DenoteMembers(rest) == DenoteMembers(t)
    ensures var r := [Member(m.key, h)] + rest;
            && DistinctKeys(r) && GoodValues(less, r)
            && DenoteMembers(r) == DenoteMembers([m] + t)
  {
    var r := [Member(m.key, h)] + rest;
    assert r[1..] == rest && ([m] + t)[1..] == t;
  }

  lemma {:induction false} MemberValuesKeepMeaning(less: Order, ms: seq<Member>)
    requires StrictTotal(less) && DistinctKeys(ms) && forall i :: 0 <= i < |ms| ==> WellFormed(ms[i].value)
    ensures DistinctKeys(SortMemberValues(less, ms)) && GoodValues(less, SortMemberValues(less, ms))
    ensures DenoteMembers(SortMemberValues(less, ms)) == DenoteMembers(ms)
    decreases ms, 0
  {
    if ms == [] {
    } else {
      var m, t := ms[0], ms[1..];
      MemberValuesKeepMeaning(less, t);
      assert WellFormed(m.value);
      if !m.value.Undefined? {
        SortKeepsMeaning(less, m.value);
        assert Fresh(m.key, t);
        assert ms == [m] + t;
        MemberValueStep(less, m, SortPolicyValue(less, m.value), SortMemberValues(less, t), t);
      }
    }
  }

  // ---------- Uniqueness ----------

  /** Two sorted trees with one meaning print alike. */
  lemma {:induction false} SortedUnique(less: Order, v: Value, w: Value)
    requires StrictTotal(less) && SortedDeep(less, v) && SortedDeep(less, w)
    requires Denote(v) == Denote(w)
    ensures Strip(v) == Strip(w)
    decreases v, 1
  {
    if v.Arr? {
      ItemsUnique(less, v.items, w.items);
    } else if v.Obj? {
      MembersUnique(less, v.members, w.members);
    }
  }

  lemma {:induction false} ItemsUnique(less: Order, vs: seq<Value>, ws: seq<Value>)
    requires StrictTotal(less)
    requires forall i :: 0 <= i < |vs| ==> SortedDeep(less, vs[i])
    requires forall i :: 0 <= i < |ws| ==> SortedDeep(less, ws[i])
    requires DenoteItems(vs) == DenoteItems(ws)
    ensures StripItems(vs) == StripItems(ws)
    decreases vs, 0
  {
    assert |DenoteItems(vs)| == |vs| && |DenoteItems(ws)| == |ws|;
    if vs == [] {
    } else {
      assert DenoteItems(vs)[0] == DenoteItems(ws)[0];
      SortedUnique(less, vs[0], ws[0]);
      assert DenoteItems(vs)[1..] == DenoteItems(vs[1..]) && DenoteItems(ws)[1..] == DenoteItems(ws[1..]);
      ItemsUnique(less, vs[1..], ws[1..]);
    }
  }

  ghost predicate LeastKey(less: Order, key: Text, d: map<Text, Meaning>) {
    key in d && forall k :: k in d && k != key ==> less(key, k)
  }

  lemma LeastKeyUnique(less: Order, a: Text, b: Text, d: map<Text, Meaning>)
    requires StrictTotal(less) && LeastKey(less, a, d) && LeastKey(less, b, d)
    ensures a == b
  {
  }

  lemma AboveNotIn(less: Order, key: Text, ms: seq<Member>)
    requires !less(key, key) && forall i :: 0 <= i < |ms| ==> less(key, ms[i].key)
    ensures key !in DenoteMembers(ms)
    ensures forall k :: k in DenoteMembers(ms) ==> less(key, k)
  {
  }

  /** The first entry of a sorted list: its key is the least of the map, and not in the tail. */
  lemma HeadOfSorted(less: Order, ms: seq<Member>)
    requires ms != [] && !less(ms[0].key, ms[0].key) && SortedKeys(less, ms) && !ms[0].value.Undefined?
    ensures var d := DenoteMembers(ms);
            && LeastKey(less, ms[0].key, d) && d[ms[0].key] == Denote(ms[0].value)
            && DenoteMembers(ms[1..]) == d - {ms[0].key}
  {
    var k, t := ms[0].key, ms[1..];
    forall i | 0 <= i < |t| ensures less(k, t[i].key) {
      assert t[i] == ms[i + 1];
    }
    AboveNotIn(less, k, t);
  }

  lemma {:induction false} MembersUnique(less: Order, vs: seq<Member>, ws: seq<Member>)
    requires StrictTotal(less)
    requires SortedKeys(less, vs) && GoodValues(less, vs)
    requires SortedKeys(less, ws) && GoodValues(less, ws)
    requires DenoteMembers(vs) == DenoteMembers(ws)
    ensures StripMembers(vs) == StripMembers(ws)
    decreases vs, 0
  {
    if vs == [] {
    } else {
      HeadOfSorted(less, vs);
    }
    if ws == [] {
    } else {
      HeadOfSorted(less, ws);
    }
    if vs != [] && ws != [] {
      LeastKeyUnique(less, vs[0].key, ws[0].key, DenoteMembers(vs));
      SortedUnique(less, vs[0].value, ws[0].value);
      MembersUnique(less, vs[1..], ws[1..]);
    }
  }

  // ---------- Stripping ----------

  lemma {:induction false} StripKeepsMeaning(v: Value)
    ensures Denote(Strip(v)) == Denote(v)
    decreases v, 1
  {
    match v
    case Arr(items) => StripItemsKeepsMeaning(items);
    case Obj(ms) => StripMembersKeepsMeaning(ms);
    case _ =>
  }

  lemma {:induction false} StripItemsKeepsMeaning(items: seq<Value>)
    ensures DenoteItems(StripItems(items)) == DenoteItems(items)
    decreases items, 0
  {
    if items == [] {
    } else {
      StripKeepsMeaning(items[0]);
      StripItemsKeepsMeaning(items[1..]);
      assert StripItems(items)[1..] == StripItems(items[1..]);
    }
  }

  lemma {:induction false} StripMembersKeepsMeaning(ms: seq<Member>)
    ensures DenoteMembers(StripMembers(ms)) == DenoteMembers(ms)
    decreases ms, 0
  {
    if ms == [] {
    } else {
      StripKeepsMeaning(ms[0].value);
      StripMembersKeepsMeaning(ms[1..]);
      if !ms[0].value.Undefined? {
        assert StripMembers(ms)[0] == Member(ms[0].key, Strip(ms[0].value));
        assert StripMembers(ms)[1..] == StripMembers(ms[1..]);
      }
    }
  }

  // ---------- Main results ----------

  /** A canonical text decodes to a tree with the meaning of the policy it was made from. */
  lemma SerializationReadsBack(less: Order, v: Value)
    requires StrictTotal(less) && WellFormed(v)
    ensures var d := Decode(StableSerialize(less, v)); d.Some? && Denote(d.value) == Denote(v)
  {
    var s := SortPolicyValue(less, v);
    SortKeepsMeaning(less, v);
    SortedIsWellFormed(less, s);
    StringifyRoundTrip(s);
    StripKeepsMeaning(s);
  }

  /** Two policies get one text exactly when they hold the same defined entries at every depth. */
  lemma SerializationCanonical(less: Order, v: Value, w: Value)
    requires StrictTotal(less) && WellFormed(v) && WellFormed(w)
    ensures StableSerialize(less, v) == StableSerialize(less, w) <==> Denote(v) == Denote(w)
  {
    if Denote(v) == Denote(w) {
      SortKeepsMeaning(less, v);
      SortKeepsMeaning(less, w);
      SortedUnique(less, SortPolicyValue(less, v), SortPolicyValue(less, w));
    } else {
      SerializationReadsBack(less, v);
      SerializationReadsBack(less, w);
    }
  }

  /** In an object of distinct keys, every defined entry is found in the map it denotes, and no other. */
  lemma {:induction false} EntryDenoted(ms: seq<Member>, i: nat)
    requires i < |ms| && DistinctKeys(ms)
    ensures var d := DenoteMembers(ms);
            if ms[i].value.Undefined? then ms[i].key !in d
            else ms[i].key in d && d[ms[i].key] == Denote(ms[i].value)
  {
    if i == 0 {
    } else {
      assert ms[0].key != ms[i].key;
      EntryDenoted(ms[1..], i - 1);
    }
  }
}
