// The canonical form behind a manifest's fingerprint
// (backend/scripts/bookkeeping-document-import/manifest.ts).
module Fingerprints {

  /** A JSON value; texts, numbers, booleans and null are atoms. An object's fields are in the order of its keys. */
  datatype Json = Atom(text: string) | Arr(items: seq<Json>) | Obj(fields: seq<(string, Json)>)

  type Field = (string, Json)

  /** A strict total order of keys. */
  ghost predicate Lawful(before: (string, string) -> bool) {
    && (forall k, l :: k != l ==> before(k, l) || before(l, k))
    && (forall k, l :: before(k, l) ==> !before(l, k))
    && (forall k, l, m :: before(k, l) && before(l, m) ==> before(k, m))
  }

  ghost predicate DistinctKeys(fields: seq<Field>) {
    forall i, j :: 0 <= i < j < |fields| ==> fields[i].0 != fields[j].0
  }

  /** No object in the value has a key twice, as no JavaScript object has. */
  ghost predicate WellFormed(v: Json) {
    match v
    case Atom(_) => true
    case Arr(items) => forall i :: 0 <= i < |items| ==> WellFormed(items[i])
    case Obj(fields) => DistinctKeys(fields) && forall i :: 0 <= i < |fields| ==> WellFormed(fields[i].1)
  }

  function Insert(before: (string, string) -> bool, s: seq<Field>, f: Field): seq<Field> {
    if s == [] || before(s[|s| - 1].0, f.0) then s + [f]
    else Insert(before, s[..|s| - 1], f) + [s[|s| - 1]]
  }

  function SortByKey(before: (string, string) -> bool, s: seq<Field>): seq<Field> {
    if s == [] then [] else Insert(before, SortByKey(before, s[..|s| - 1]), s[|s| - 1])
  }

  /** Sorts the fields of every object by key. */
  function Canonical(before: (string, string) -> bool, v: Json): Json {
    match v
    case Atom(_) => v
    case Arr(items) => Arr(seq(|items|, i requires 0 <= i < |items| => Canonical(before, items[i])))
    case Obj(fields) =>
      Obj(SortByKey(before, seq(|fields|, i requires 0 <= i < |fields| => (fields[i].0, Canonical(before, fields[i].1)))))
  }

  /** The same value, but for the order in which objects list their fields. */
  ghost predicate Same(a: Json, b: Json)
    decreases a
  {
    match a
    case Atom(_) => a == b
    case Arr(items) => b.Arr? && |items| == |b.items| && forall i :: 0 <= i < |items| ==> Same(items[i], b.items[i])
    case Obj(fields) =>
      b.Obj? && |fields| == |b.fields|
      && forall i :: 0 <= i < |fields| ==>
           exists j :: 0 <= j < |b.fields| && b.fields[j].0 == fields[i].0 && Same(fields[i].1, b.fields[j].1)
  }

  // ---------------------------------------------------------------- sorting fields

  ghost predicate Sorted(before: (string, string) -> bool, s: seq<Field>) {
    forall i, j :: 0 <= i < j < |s| ==> before(s[i].0, s[j].0)
  }

  lemma {:induction false} InsertMembers(before: (string, string) -> bool, s: seq<Field>, f: Field)
    ensures multiset(Insert(before, s, f)) == multiset(s) + multiset{f}
  {
    if s != [] && !before(s[|s| - 1].0, f.0) {
      InsertMembers(before, s[..|s| - 1], f);
      assert s == s[..|s| - 1] + [s[|s| - 1]];
    }
  }

  lemma {:induction false} SortMembers(before: (string, string) -> bool, s: seq<Field>)
    ensures multiset(SortByKey(before, s)) == multiset(s)
  {
    if s != [] {
      SortMembers(before, s[..|s| - 1]);
      InsertMembers(before, SortByKey(before, s[..|s| - 1]), s[|s| - 1]);
      assert s == s[..|s| - 1] + [s[|s| - 1]];
    }
  }

  lemma {:induction false} InsertSorts(before: (string, string) -> bool, s: seq<Field>, f: Field)
    requires Lawful(before) && Sorted(before, s) && forall g :: g in s ==> g.0 != f.0
    ensures Sorted(before, Insert(before, s, f))
  {
    if s != [] {
      var front, last := s[..|s| - 1], s[|s| - 1];
      if before(last.0, f.0) {
        forall i | 0 <= i < |s| ensures before(s[i].0, f.0) {
          assert i < |s| - 1 ==> before(s[i].0, last.0);
        }
      } else {
        assert last in s;
        InsertSorts(before, front, f);
        InsertMembers(before, front, f);
        var r := Insert(before, front, f);
        forall i | 0 <= i < |r| ensures before(r[i].0, last.0) {
          assert r[i] in multiset(r);
          if r[i] != f {
            assert r[i] in front;
            var k :| 0 <= k < |front| && front[k] == r[i];
            assert before(s[k].0, s[|s| - 1].0);
          }
        }
      }
    }
  }

  lemma {:induction false} SortSorts(before: (string, string) -> bool, s: seq<Field>)
    requires Lawful(before) && DistinctKeys(s)
    ensures Sorted(before, SortByKey(before, s))
  {
    if s != [] {
      var front, last := s[..|s| - 1], s[|s| - 1];
      SortSorts(before, front);
      SortMembers(before, front);
      forall g | g in SortByKey(before, front) ensures g.0 != last.0 {
        assert g in multiset(front);
        var k :| 0 <= k < |front| && front[k] == g;
        assert s[k] == g;
      }
      InsertSorts(before, SortByKey(before, front), last);
    }
  }

  /** A set of fields is sorted in one way only. */
  lemma {:induction false} SortedIsUnique(before: (string, string) -> bool, s: seq<Field>, t: seq<Field>)
    requires Lawful(before) && Sorted(before, s) && Sorted(before, t) && multiset(s) == multiset(t)
    ensures s == t
  {
    assert |multiset(s)| == |multiset(t)|;
    if s != [] {
      hide Lawful, Sorted;
      LastIsLast(before, s, t);
      WithoutLast(before, s);
      WithoutLast(before, t);
      SortedIsUnique(before, s[..|s| - 1], t[..|t| - 1]);
      SameEnds(s, t);
    }
  }

  lemma {:induction false} WithoutLast(before: (string, string) -> bool, s: seq<Field>)
    requires s != [] && Sorted(before, s)
    ensures Sorted(before, s[..|s| - 1])
    ensures multiset(s[..|s| - 1]) == multiset(s) - multiset{s[|s| - 1]}
  {
    assert s == s[..|s| - 1] + [s[|s| - 1]];
  }

  lemma {:induction false} SameEnds(s: seq<Field>, t: seq<Field>)
    requires s != [] && t != [] && s[..|s| - 1] == t[..|t| - 1] && s[|s| - 1] == t[|t| - 1]
    ensures s == t
  {
    assert s == s[..|s| - 1] + [s[|s| - 1]];
  }

  lemma {:induction false} LastIsLast(before: (string, string) -> bool, s: seq<Field>, t: seq<Field>)
    requires Lawful(before) && Sorted(before, s) && Sorted(before, t) && multiset(s) == multiset(t) && s != [] && t != []
    ensures s[|s| - 1] == t[|t| - 1]
  {
    var a, b := s[|s| - 1], t[|t| - 1];
    assert a in multiset(t) && b in multiset(s);
    var i :| 0 <= i < |t| && t[i] == a;
    var j :| 0 <= j < |s| && s[j] == b;
    assert i < |t| - 1 ==> before(a.0, b.0);
    assert j < |s| - 1 ==> before(b.0, a.0);
  }

  // ---------------------------------------------------------------- canonical forms

  /** The fields of an object with canonical values, as yet unsorted. */
  function Mapped(before: (string, string) -> bool, v: Json): (s: seq<Field>)
    requires v.Obj?
    ensures |s| == |v.fields|
    ensures forall i :: 0 <= i < |s| ==> s[i] == (v.fields[i].0, Canonical(before, v.fields[i].1))
    ensures Canonical(before, v) == Obj(SortByKey(before, s))
  {
    seq(|v.fields|, i requires 0 <= i < |v.fields| => (v.fields[i].0, Canonical(before, v.fields[i].1)))
  }

  lemma {:induction false} WithoutOne(t: seq<Field>, j: nat)
    requires DistinctKeys(t) && j < |t|
    ensures DistinctKeys(t[..j] + t[j + 1..]) && multiset(t) == multiset(t[..j] + t[j + 1..]) + multiset{t[j]}
    ensures forall f :: f in t && f.0 != t[j].0 ==> f in t[..j] + t[j + 1..]
  {
    assert t == t[..j] + [t[j]] + t[j + 1..];
  }

  lemma {:induction false} DistinctFront(s: seq<Field>)
    requires DistinctKeys(s) && s != []
    ensures var front, last := s[..|s| - 1], s[|s| - 1];
            DistinctKeys(front) && (forall i :: 0 <= i < |front| ==> front[i].0 != last.0)
            && multiset(s) == multiset(front) + multiset{last}
  {
    assert s == s[..|s| - 1] + [s[|s| - 1]];
  }

  lemma {:induction false} DistinctMembers(s: seq<Field>, t: seq<Field>)
    requires DistinctKeys(s) && DistinctKeys(t) && |s| == |t| && forall i :: 0 <= i < |s| ==> s[i] in t
    ensures multiset(s) == multiset(t)
  {
    hide DistinctKeys;
    if s != [] {
      var front, last := s[..|s| - 1], s[|s| - 1];
      DistinctFront(s);
      assert s[|s| - 1] in t;
      var j :| 0 <= j < |t| && t[j] == last;
      WithoutOne(t, j);
      var rest := t[..j] + t[j + 1..];
      forall i | 0 <= i < |front| ensures front[i] in rest { assert s[i] == front[i]; }
      DistinctMembers(front, rest);
    }
  }

  /** A rearrangement has every element at some index. */
  lemma {:induction false} EachIsThere(s: seq<Field>, r: seq<Field>)
    requires multiset(s) == multiset(r)
    ensures SameMembers(s, r)
  {
    assert |multiset(s)| == |multiset(r)|;
    forall i | 0 <= i < |s| ensures exists j :: 0 <= j < |r| && s[i] == r[j] { assert s[i] in multiset(r); }
  }

  /** The canonical form is the same value. */
  lemma {:induction false} CanonicalIsSame(before: (string, string) -> bool, v: Json)
    ensures Same(v, Canonical(before, v))
    decreases v
  {
    match v
    case Atom(_) =>
    case Arr(items) =>
      forall i | 0 <= i < |items| ensures Same(items[i], Canonical(before, items[i])) { CanonicalIsSame(before, items[i]); }
    case Obj(fields) =>
      var s := Mapped(before, v);
      var r := SortByKey(before, s);
      SortMembers(before, s);
      EachIsThere(s, r);
      forall i | 0 <= i < |fields| ensures Same(fields[i].1, s[i].1) { CanonicalIsSame(before, fields[i].1); }
      SameFieldByField(v, s, r);
      assert Canonical(before, v) == Obj(r);
  }

  lemma {:induction false} SameFieldByField(v: Json, s: seq<Field>, r: seq<Field>)
    requires v.Obj? && |s| == |v.fields| && SameMembers(s, r)
    requires forall i :: 0 <= i < |s| ==> s[i].0 == v.fields[i].0 && Same(v.fields[i].1, s[i].1)
    ensures Same(v, Obj(r))
  {
    var o := Obj(r);
    forall i | 0 <= i < |v.fields|
      ensures exists j :: 0 <= j < |o.fields| && o.fields[j].0 == v.fields[i].0 && Same(v.fields[i].1, o.fields[j].1)
    {
      var j :| 0 <= j < |r| && s[i] == r[j];
      assert o.fields[j] == s[i];
    }
    assert forall i {:trigger v.fields[i]} :: 0 <= i < |v.fields| ==>
        exists j :: 0 <= j < |o.fields| && o.fields[j].0 == v.fields[i].0 && Same(v.fields[i].1, o.fields[j].1);
  }

  /** Two values have the same canonical form exactly when they are the same up to the order of fields, so
      the fingerprint ignores that order and nothing else. */
  lemma {:induction false} CanonicalExactly(before: (string, string) -> bool, a: Json, b: Json)
    requires Lawful(before) && WellFormed(a) && WellFormed(b)
    ensures Canonical(before, a) == Canonical(before, b) <==> Same(a, b)
    decreases a
  {
    if a.Arr? && b.Arr? {
      CanonicalItems(before, a, b);
    } else if a.Obj? && b.Obj? {
      CanonicalFields(before, a, b);
    }
  }

  lemma {:induction false} CanonicalItems(before: (string, string) -> bool, a: Json, b: Json)
    requires Lawful(before) && WellFormed(a) && WellFormed(b) && a.Arr? && b.Arr?
    ensures Canonical(before, a) == Canonical(before, b) <==> Same(a, b)
    decreases a, 0
  {
    var s, t := Canonical(before, a).items, Canonical(before, b).items;
    if |a.items| == |b.items| {
      forall i | 0 <= i < |a.items| ensures s[i] == t[i] <==> Same(a.items[i], b.items[i]) {
        CanonicalExactly(before, a.items[i], b.items[i]);
      }
    }
  }

  lemma {:induction false} CanonicalFields(before: (string, string) -> bool, a: Json, b: Json)
    requires Lawful(before) && WellFormed(a) && WellFormed(b) && a.Obj? && b.Obj?
    ensures Canonical(before, a) == Canonical(before, b) <==> Same(a, b)
    decreases a, 0
  {
    var s, t := Mapped(before, a), Mapped(before, b);
    forall i, j | 0 <= i < |a.fields| && 0 <= j < |b.fields|
      ensures s[i] == t[j] <==> a.fields[i].0 == b.fields[j].0 && Same(a.fields[i].1, b.fields[j].1)
    {
      CanonicalExactly(before, a.fields[i].1, b.fields[j].1);
    }
    SameFields(before, s, t);
    hide Canonical, Lawful, SortByKey, Mapped, WellFormed, DistinctKeys;
    assert Same(a, b) <==> SameMembers(s, t);
  }

  ghost predicate SameMembers(s: seq<Field>, t: seq<Field>) {
    |s| == |t| && forall i :: 0 <= i < |s| ==> exists j :: 0 <= j < |t| && s[i] == t[j]
  }

  lemma {:induction false} SameFields(before: (string, string) -> bool, s: seq<Field>, t: seq<Field>)
    requires Lawful(before) && DistinctKeys(s) && DistinctKeys(t)
    ensures SortByKey(before, s) == SortByKey(before, t) <==> SameMembers(s, t)
  {
    hide Lawful, SortByKey, DistinctKeys;
    SortMembers(before, s);
    SortMembers(before, t);
    if SameMembers(s, t) {
      DistinctMembers(s, t);
      SortSorts(before, s);
      SortSorts(before, t);
      SortedIsUnique(before, SortByKey(before, s), SortByKey(before, t));
    }
    if SortByKey(before, s) == SortByKey(before, t) {
      EachIsThere(s, t);
    }
  }
}
