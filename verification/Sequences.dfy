// Facts about sequences without repetition that several components share.
module Sequences {

  ghost predicate NoDuplicates<T(!new)>(s: seq<T>) {
    forall i, j :: 0 <= i < j < |s| ==> s[i] != s[j]
  }

  /** `s` lists exactly the elements of `t`, each once, in some order. */
  ghost predicate Rearranges<T(!new)>(s: seq<T>, t: seq<T>) {
    NoDuplicates(s) && NoDuplicates(t) && forall x :: x in s <==> x in t
  }

  function Elements<T>(s: seq<T>): set<T> {
    set x | x in s
  }

  lemma {:induction false} NoDuplicatesCardinality<T(!new)>(s: seq<T>)
    requires NoDuplicates(s)
    ensures |Elements(s)| == |s|
  {
    if s != [] {
      var front := s[..|s| - 1];
      NoDuplicatesCardinality(front);
      assert Elements(s) == Elements(front) + {s[|s| - 1]};
    }
  }

  /** `new Set(s).size === s.length` */
  lemma {:induction false} CardinalityTellsDuplicates<T(!new)>(s: seq<T>)
    ensures |Elements(s)| <= |s|
    ensures |Elements(s)| == |s| <==> NoDuplicates(s)
  {
    if s != [] {
      var front, last := s[..|s| - 1], s[|s| - 1];
      CardinalityTellsDuplicates(front);
      assert Elements(s) == Elements(front) + {last};
      if last in front {
        var i :| 0 <= i < |front| && front[i] == last;
        assert s[i] == s[|s| - 1];
        assert Elements(s) == Elements(front);
      } else {
        assert |Elements(s)| == |Elements(front)| + 1;
        if NoDuplicates(front) {
          forall i | 0 <= i < |front| ensures s[i] != last { assert front[i] in front; }
        }
      }
    }
  }

  lemma {:induction false} RearrangedLength<T(!new)>(s: seq<T>, t: seq<T>)
    requires Rearranges(s, t)
    ensures |s| == |t|
  {
    NoDuplicatesCardinality(s);
    NoDuplicatesCardinality(t);
    assert Elements(s) == Elements(t);
  }

  /** `s.filter(p)` */
  function Filter<T>(p: T -> bool, s: seq<T>): (r: seq<T>)
    ensures |r| <= |s|
  {
    if s == [] then []
    else if p(s[|s| - 1]) then Filter(p, s[..|s| - 1]) + [s[|s| - 1]]
    else Filter(p, s[..|s| - 1])
  }

  lemma {:induction false} FilterMembers<T(!new)>(p: T -> bool, s: seq<T>)
    ensures forall x :: x in Filter(p, s) <==> x in s && p(x)
  {
    if s != [] {
      FilterMembers(p, s[..|s| - 1]);
      assert s == s[..|s| - 1] + [s[|s| - 1]];
    }
  }

  lemma {:induction false} FilterNoDuplicates<T(!new)>(p: T -> bool, s: seq<T>)
    requires NoDuplicates(s)
    ensures NoDuplicates(Filter(p, s))
  {
    if s != [] {
      FilterNoDuplicates(p, s[..|s| - 1]);
      FilterMembers(p, s[..|s| - 1]);
    }
  }

  lemma {:induction false} FilterRearranges<T(!new)>(p: T -> bool, s: seq<T>, t: seq<T>)
    requires Rearranges(s, t)
    ensures Rearranges(Filter(p, s), Filter(p, t))
  {
    FilterNoDuplicates(p, s);
    FilterNoDuplicates(p, t);
    FilterMembers(p, s);
    FilterMembers(p, t);
  }

  lemma {:induction false} FilterConcat<T>(p: T -> bool, s: seq<T>, t: seq<T>)
    ensures Filter(p, s + t) == Filter(p, s) + Filter(p, t)
  {
    if t == [] {
      assert s + t == s;
    } else {
      FilterConcat(p, s, t[..|t| - 1]);
      assert (s + t)[..|s + t| - 1] == s + t[..|t| - 1];
    }
  }

  lemma {:induction false} FilterAll<T>(p: T -> bool, s: seq<T>)
    requires forall i :: 0 <= i < |s| ==> p(s[i])
    ensures Filter(p, s) == s
  {
    if s != [] {
      FilterAll(p, s[..|s| - 1]);
      assert s == s[..|s| - 1] + [s[|s| - 1]];
    }
  }

  lemma {:induction false} FilterNone<T>(p: T -> bool, s: seq<T>)
    requires forall i :: 0 <= i < |s| ==> !p(s[i])
    ensures Filter(p, s) == []
  {
    if s != [] {
      FilterNone(p, s[..|s| - 1]);
    }
  }
}
