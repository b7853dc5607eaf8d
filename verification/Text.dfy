// `String.prototype.trim` over Unicode scalar values.
module Text {

  /** The white space and line terminators of section 12.2 and 12.3 of ECMA-262. */
  predicate IsSpace(c: char) {
    var n := c as int;
    9 <= n <= 13 || n == 0x20 || n == 0xA0 || n == 0x1680 || 0x2000 <= n <= 0x200A
    || n == 0x2028 || n == 0x2029 || n == 0x202F || n == 0x205F || n == 0x3000 || n == 0xFEFF
  }

  predicate AllSpace(s: string) {
    forall i :: 0 <= i < |s| ==> IsSpace(s[i])
  }

  function TrimStart(s: string): string {
    if s != [] && IsSpace(s[0]) then TrimStart(s[1..]) else s
  }

  function TrimEnd(s: string): string {
    if s != [] && IsSpace(s[|s| - 1]) then TrimEnd(s[..|s| - 1]) else s
  }

  function Trim(s: string): string {
    TrimEnd(TrimStart(s))
  }

  /** Nothing to trim at either end. */
  predicate Tight(s: string) {
    s == [] || (!IsSpace(s[0]) && !IsSpace(s[|s| - 1]))
  }

  lemma {:induction false} TrimStartTight(s: string)
    ensures TrimStart(s) == [] || !IsSpace(TrimStart(s)[0])
  {
    if s != [] && IsSpace(s[0]) { TrimStartTight(s[1..]); }
  }

  lemma {:induction false} TrimEndTight(s: string)
    ensures TrimEnd(s) == [] || !IsSpace(TrimEnd(s)[|TrimEnd(s)| - 1])
    ensures TrimEnd(s) <= s
  {
    if s != [] && IsSpace(s[|s| - 1]) { TrimEndTight(s[..|s| - 1]); }
  }

  lemma {:induction false} TrimIsTight(s: string)
    ensures Tight(Trim(s))
  {
    TrimStartTight(s);
    TrimEndTight(TrimStart(s));
  }

  lemma {:induction false} TrimOfTight(s: string)
    requires Tight(s)
    ensures Trim(s) == s
  {
  }

  /** Trimming takes away exactly the surrounding white space. */
  lemma {:induction false} TrimOfPadded(before: string, s: string, after: string)
    requires AllSpace(before) && AllSpace(after) && Tight(s) && s != []
    ensures Trim(before + s + after) == s
  {
    if before != [] {
      assert (before + s + after)[1..] == before[1..] + s + after;
      TrimOfPadded(before[1..], s, after);
    } else {
      assert before + s + after == s + after;
      TrimEndOfPadded(s, after);
    }
  }

  lemma {:induction false} TrimEndOfPadded(s: string, after: string)
    requires AllSpace(after) && Tight(s)
    ensures TrimEnd(s + after) == s
  {
    if after == [] {
      assert s + after == s;
    } else {
      assert (s + after)[..|s + after| - 1] == s + after[..|after| - 1];
      TrimEndOfPadded(s, after[..|after| - 1]);
    }
  }
}
