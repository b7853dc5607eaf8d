// The laws asked of the JSON codec can be met: a codec that counts in unary meets them.
module AuditCodec {
  import opened Wrappers
  import opened Base64
  import opened AuditChunks

  function Unary(n: nat): seq<byte> {
    if n == 0 then [0] else [1] + Unary(n - 1)
  }

  function Signed(n: int): seq<byte> {
    if n < 0 then [1] + Unary(-n) else [0] + Unary(n)
  }

  function Chars(s: string): seq<byte> {
    if s == [] then [0] else [1] + Unary(s[0] as int) + Chars(s[1..])
  }

  function Stringify(es: seq<Entry>): (bytes: seq<byte>)
    ensures bytes != []
  {
    if es == [] then [0] else [1] + Signed(es[0].sequence) + Chars(es[0].event.json) + Stringify(es[1..])
  }

  lemma {:induction false} UnaryIsPrefixFree(m: nat, n: nat, x: seq<byte>, y: seq<byte>)
    requires Unary(m) + x == Unary(n) + y
    ensures m == n && x == y
  {
    assert (Unary(m) + x)[0] == (Unary(n) + y)[0];
    assert (Unary(m) + x)[1..] == (Unary(n) + y)[1..];
    if m == 0 {
      assert (Unary(m) + x)[1..] == x;
      if n == 0 { assert (Unary(n) + y)[1..] == y; }
    } else if n > 0 {
      assert (Unary(m) + x)[1..] == Unary(m - 1) + x && (Unary(n) + y)[1..] == Unary(n - 1) + y;
      UnaryIsPrefixFree(m - 1, n - 1, x, y);
    }
  }

  lemma {:induction false} TailOf(b: byte, a: seq<byte>, x: seq<byte>)
    ensures ([b] + a + x)[0] == b && ([b] + a + x)[1..] == a + x
  {
  }

  lemma {:induction false} SignedIsPrefixFree(m: int, n: int, x: seq<byte>, y: seq<byte>)
    requires Signed(m) + x == Signed(n) + y
    ensures m == n && x == y
  {
    hide Unary;
    var a, b := if m < 0 then -m else m, if n < 0 then -n else n;
    TailOf(if m < 0 then 1 else 0, Unary(a), x);
    TailOf(if n < 0 then 1 else 0, Unary(b), y);
    UnaryIsPrefixFree(a, b, x, y);
  }

  lemma {:induction false} CharsArePrefixFree(s: string, t: string, x: seq<byte>, y: seq<byte>)
    requires Chars(s) + x == Chars(t) + y
    ensures s == t && x == y
  {
    assert (Chars(s) + x)[0] == (Chars(t) + y)[0];
    assert (Chars(s) + x)[1..] == (Chars(t) + y)[1..];
    if s == [] {
      assert t == [] && (Chars(s) + x)[1..] == x && (Chars(t) + y)[1..] == y;
    } else {
      assert t != [];
      assert (Chars(s) + x)[1..] == Unary(s[0] as int) + (Chars(s[1..]) + x);
      assert (Chars(t) + y)[1..] == Unary(t[0] as int) + (Chars(t[1..]) + y);
      UnaryIsPrefixFree(s[0] as int, t[0] as int, Chars(s[1..]) + x, Chars(t[1..]) + y);
      CharsArePrefixFree(s[1..], t[1..], x, y);
      assert s == [s[0]] + s[1..] && t == [t[0]] + t[1..];
    }
  }

  lemma {:induction false} Regroup(a: seq<byte>, b: seq<byte>, c: seq<byte>, d: seq<byte>)
    ensures a + b + c + d == a + b + (c + d)
  {
  }

  lemma {:induction false} StringifyStarts(es: seq<Entry>)
    requires es != []
    ensures Stringify(es) == [1] + Signed(es[0].sequence) + (Chars(es[0].event.json) + Stringify(es[1..]))
  {
    hide Signed, Chars;
    Regroup([1], Signed(es[0].sequence), Chars(es[0].event.json), Stringify(es[1..]));
  }

  lemma {:induction false} StringifyIsInjective(es: seq<Entry>, fs: seq<Entry>)
    requires Stringify(es) == Stringify(fs)
    ensures es == fs
  {
    assert Stringify(es)[0] == Stringify(fs)[0];
    if es != [] {
      assert fs != [];
      StringifyStarts(es);
      StringifyStarts(fs);
      hide Signed, Chars, Stringify;
      TailOf(1, Signed(es[0].sequence), Chars(es[0].event.json) + Stringify(es[1..]));
      TailOf(1, Signed(fs[0].sequence), Chars(fs[0].event.json) + Stringify(fs[1..]));
      SignedIsPrefixFree(es[0].sequence, fs[0].sequence, Chars(es[0].event.json) + Stringify(es[1..]),
                         Chars(fs[0].event.json) + Stringify(fs[1..]));
      CharsArePrefixFree(es[0].event.json, fs[0].event.json, Stringify(es[1..]), Stringify(fs[1..]));
      StringifyIsInjective(es[1..], fs[1..]);
      SameParts(es, fs);
    }
  }

  lemma {:induction false} SameParts(es: seq<Entry>, fs: seq<Entry>)
    requires es != [] && fs != [] && es[0] == fs[0] && es[1..] == fs[1..]
    ensures es == fs
  {
    assert es == [es[0]] + es[1..] && fs == [fs[0]] + fs[1..];
  }

  ghost function Parse(bytes: seq<byte>): Option<seq<Option<Entry>>> {
    if es :| Stringify(es) == bytes then Some(Present(es)) else None
  }

  ghost function SomeCodec(): Json {
    Json(Stringify, Parse, (id: string) => |id|, (row: Row) => 0)
  }

  /** Some codec is lawful, so the theorems about the store are not about nothing. */
  lemma {:induction false} SomeCodecIsLawful()
    ensures SomeCodec().Lawful()
  {
    forall es ensures Parse(Stringify(es)) == Some(Present(es)) {
      var fs :| Stringify(fs) == Stringify(es) && Parse(Stringify(es)) == Some(Present(fs));
      StringifyIsInjective(fs, es);
    }
    forall e, es {:trigger Stringify([e] + es)} ensures |Stringify(es)| <= |Stringify([e] + es)| {
      assert ([e] + es)[1..] == es;
    }
  }
}
