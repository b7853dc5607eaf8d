// Base64 with padding (RFC 4648, section 4), as `Buffer.toString("base64")` writes it and
// `Buffer.from(text, "base64")` reads it.
module Base64 {

  type byte = x: int | 0 <= x < 256

  function EncodeDigit(d: nat): (c: char)
    requires d < 64
    ensures IsAlphabet(c) && DecodeDigit(c) == d
  {
    if d < 26 then ('A' as int + d) as char
    else if d < 52 then ('a' as int + (d - 26)) as char
    else if d < 62 then ('0' as int + (d - 52)) as char
    else if d == 62 then '+'
    else '/'
  }

  predicate IsAlphabet(c: char) {
    'A' <= c <= 'Z' || 'a' <= c <= 'z' || '0' <= c <= '9' || c == '+' || c == '/'
  }

  function DecodeDigit(c: char): (d: nat)
    requires IsAlphabet(c)
    ensures d < 64
  {
    if 'A' <= c <= 'Z' then c as int - 'A' as int
    else if 'a' <= c <= 'z' then c as int - 'a' as int + 26
    else if '0' <= c <= '9' then c as int - '0' as int + 52
    else if c == '+' then 62
    else 63
  }

  /** Three bytes as four characters. */
  function Quartet(x: byte, y: byte, z: byte): (q: string)
    ensures |q| == 4 && IsAlphabet(q[0]) && IsAlphabet(q[1]) && IsAlphabet(q[2]) && IsAlphabet(q[3])
  {
    [EncodeDigit(x / 4), EncodeDigit(x % 4 * 16 + y / 16), EncodeDigit(y % 16 * 4 + z / 64), EncodeDigit(z % 64)]
  }

  function Encode(b: seq<byte>): string {
    if b == [] then ""
    else if |b| == 1 then
      [EncodeDigit(b[0] / 4), EncodeDigit(b[0] % 4 * 16), '=', '=']
    else if |b| == 2 then
      [EncodeDigit(b[0] / 4), EncodeDigit(b[0] % 4 * 16 + b[1] / 16), EncodeDigit(b[1] % 16 * 4), '=']
    else
      Quartet(b[0], b[1], b[2]) + Encode(b[3..])
  }

  /** The regular expression a reader demands: whole quartets, then at most one padded quartet. */
  predicate Valid(s: string) {
    s == []
    || (|s| >= 4 && IsAlphabet(s[0]) && IsAlphabet(s[1])
        && (if s[2] == '=' then |s| == 4 && s[3] == '='
            else if s[3] == '=' then |s| == 4 && IsAlphabet(s[2])
            else IsAlphabet(s[2]) && IsAlphabet(s[3]) && Valid(s[4..])))
  }

  /** Bits left over in a padded quartet are ignored, as Node's decoder does. */
  function Decode(s: string): seq<byte>
    requires Valid(s)
  {
    if s == [] then []
    else
      var first := DecodeDigit(s[0]) * 4 + DecodeDigit(s[1]) / 16;
      if s[2] == '=' then [first]
      else
        var second := DecodeDigit(s[1]) % 16 * 16 + DecodeDigit(s[2]) / 4;
        if s[3] == '=' then [first, second]
        else [first, second, DecodeDigit(s[2]) % 4 * 64 + DecodeDigit(s[3])] + Decode(s[4..])
  }

  lemma {:induction false} DecodeEncode(b: seq<byte>)
    ensures Valid(Encode(b))
    ensures Decode(Encode(b)) == b
  {
    hide Decode, DecodeDigit, EncodeDigit, IsAlphabet, Quartet;
    if |b| >= 3 {
      DecodeEncode(b[3..]);
      QuartetDecodes(b[0], b[1], b[2], Encode(b[3..]));
      assert b == [b[0], b[1], b[2]] + b[3..];
    } else {
      RestDecodes(b);
    }
  }

  lemma {:induction false} QuartetDecodes(x: byte, y: byte, z: byte, rest: string)
    requires Valid(rest)
    ensures Valid(Quartet(x, y, z) + rest) && Decode(Quartet(x, y, z) + rest) == [x, y, z] + Decode(rest)
  {
    hide Quartet, DecodeDigit, IsAlphabet, Decode;
    BitsRejoin(x, y, z);
    CharactersDecode(Quartet(x, y, z), rest);
  }

  lemma {:induction false} CharactersDecode(q: string, rest: string)
    requires |q| == 4 && IsAlphabet(q[0]) && IsAlphabet(q[1]) && IsAlphabet(q[2]) && IsAlphabet(q[3]) && Valid(rest)
    ensures Valid(q + rest)
    ensures Decode(q + rest) ==
              [DecodeDigit(q[0]) * 4 + DecodeDigit(q[1]) / 16, DecodeDigit(q[1]) % 16 * 16 + DecodeDigit(q[2]) / 4,
               DecodeDigit(q[2]) % 4 * 64 + DecodeDigit(q[3])] + Decode(rest)
  {
    hide DecodeDigit;
    assert (q + rest)[4..] == rest;
  }

  /** The four characters hold all the bits of the three bytes. */
  lemma {:induction false} BitsRejoin(x: byte, y: byte, z: byte)
    ensures var q := Quartet(x, y, z);
            && DecodeDigit(q[0]) * 4 + DecodeDigit(q[1]) / 16 == x
            && DecodeDigit(q[1]) % 16 * 16 + DecodeDigit(q[2]) / 4 == y
            && DecodeDigit(q[2]) % 4 * 64 + DecodeDigit(q[3]) == z
  {
    hide EncodeDigit, DecodeDigit, IsAlphabet;
  }

  lemma {:induction false} RestDecodes(b: seq<byte>)
    requires |b| < 3
    ensures Valid(Encode(b)) && Decode(Encode(b)) == b
  {
    hide EncodeDigit, DecodeDigit;
  }

  lemma {:induction false} EncodeLength(b: seq<byte>)
    ensures |Encode(b)| == (|b| + 2) / 3 * 4
  {
    if |b| >= 3 {
      EncodeLength(b[3..]);
    }
  }
}
