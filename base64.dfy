/**
  Base 64 as the browser's `atob` applies it: the encoding of section 4 of RFC 4648
  (alphabet A-Z a-z 0-9 + /, padding with '='), decoded by the "forgiving-base64 decode"
  algorithm of the WHATWG Infra standard, which `atob` uses.
*/
module Base64 {
  import opened Wrappers
  import opened Types

  /** A 6-bit value: the index of a character in the alphabet. */
  type Sextet = v: int | 0 <= v < 64

  /** The character of the alphabet (Table 1 of RFC 4648) for the value `v`. */
  function CharOf(v: Sextet): char {
    if v < 26 then ('A' as int + v) as char
    else if v < 52 then ('a' as int + (v - 26)) as char
    else if v < 62 then ('0' as int + (v - 52)) as char
    else if v == 62 then '+'
    else '/'
  }

  /** The value of an alphabet character, or None for any other character. */
  function SextetOf(c: char): (r: Option<Sextet>)
    ensures r.Some? ==> CharOf(r.value) == c
  {
    if 'A' <= c <= 'Z' then Some(c as int - 'A' as int)
    else if 'a' <= c <= 'z' then Some(c as int - 'a' as int + 26)
    else if '0' <= c <= '9' then Some(c as int - '0' as int + 52)
    else if c == '+' then Some(62)
    else if c == '/' then Some(63)
    else None
  }

  lemma SextetOfCharOf(v: Sextet)
    ensures SextetOf(CharOf(v)) == Some(v)
  {
  }

  /** The characters for a sequence of values. */
  function CharsOf(v: seq<Sextet>): (s: string)
    ensures |s| == |v|
    ensures forall i :: 0 <= i < |v| ==> s[i] == CharOf(v[i])
  {
    seq(|v|, i requires 0 <= i < |v| => CharOf(v[i]))
  }

  /** The values of a string made only of alphabet characters; None as soon as any other character occurs. */
  function Sextets(s: string): (r: Option<seq<Sextet>>)
    ensures r.Some? ==> |r.value| == |s| && forall i :: 0 <= i < |s| ==> CharOf(r.value[i]) == s[i]
    decreases |s|
  {
    if |s| == 0 then Some([])
    else if SextetOf(s[0]).None? then None
    else match Sextets(s[1..])
      case None => None
      case Some(rest) => Some([SextetOf(s[0]).value] + rest)
  }

  /** `Sextets` fails exactly when some character is outside the alphabet. */
  lemma {:induction false} SextetsFailIffForeign(s: string)
    ensures Sextets(s).None? <==> exists i :: 0 <= i < |s| && SextetOf(s[i]).None?
    decreases |s|
  {
    if |s| > 0 {
      SextetsFailIffForeign(s[1..]);
      if j :| 0 <= j < |s[1..]| && SextetOf(s[1..][j]).None? {
        assert s[j + 1] == s[1..][j];
      }
      if j :| 0 <= j < |s| && SextetOf(s[j]).None? {
        if j > 0 { assert s[1..][j - 1] == s[j]; }
      }
    }
  }

  lemma {:induction false} SextetsCharsOf(v: seq<Sextet>)
    ensures Sextets(CharsOf(v)) == Some(v)
    decreases |v|
  {
    if |v| > 0 {
      assert CharsOf(v)[1..] == CharsOf(v[1..]);
      SextetsCharsOf(v[1..]);
      SextetOfCharOf(v[0]);
      assert [v[0]] + v[1..] == v;
    }
  }

  /** The values of the encoding without padding: 4 for every full group of 3 bytes, then 2 or 3 for a final group of 1 or 2 bytes, the missing bits zero. */
  function EncodeSextets(x: seq<Byte>): (v: seq<Sextet>)
    ensures |v| == |x| / 3 * 4 + (if |x| % 3 == 0 then 0 else |x| % 3 + 1)
    decreases |x|
  {
    if |x| == 0 then []
    else if |x| == 1 then [x[0] / 4, x[0] % 4 * 16]
    else if |x| == 2 then [x[0] / 4, x[0] % 4 * 16 + x[1] / 16, x[1] % 16 * 4]
    else [x[0] / 4, x[0] % 4 * 16 + x[1] / 16, x[1] % 16 * 4 + x[2] / 64, x[2] % 64] + EncodeSextets(x[3..])
  }

  /** The padding that completes the last group of 4 characters. */
  function Padding(n: nat): string {
    if n % 3 == 1 then "==" else if n % 3 == 2 then "=" else ""
  }

  /** Base 64 encoding with padding (section 4 of RFC 4648). */
  function Encode(x: seq<Byte>): (s: string)
    ensures |s| == (|x| + 2) / 3 * 4
  {
    CharsOf(EncodeSextets(x)) + Padding(|x|)
  }

  /** The bytes of a sequence of values of length 0, 2 or 3 modulo 4; the bits left over at the end are dropped. */
  function DecodeSextets(v: seq<Sextet>): (x: seq<Byte>)
    requires |v| % 4 != 1
    decreases |v|
  {
    if |v| == 0 then []
    else
      var b0: Byte := v[0] as int * 4 + v[1] as int / 16;
      if |v| == 2 then [b0]
      else
        var b1: Byte := v[1] as int % 16 * 16 + v[2] as int / 4;
        if |v| == 3 then [b0, b1]
        else
          var b2: Byte := v[2] as int % 4 * 64 + v[3] as int;
          [b0, b1, b2] + DecodeSextets(v[4..])
  }

  /** ASCII whitespace of the Infra standard: TAB, LF, FF, CR and SPACE. */
  predicate IsAsciiWhitespace(c: char) {
    c == '\t' || c == '\n' || c == '\U{C}' || c == '\r' || c == ' '
  }

  function RemoveWhitespace(s: string): (t: string)
    ensures forall i :: 0 <= i < |t| ==> !IsAsciiWhitespace(t[i])
    decreases |s|
  {
    if |s| == 0 then ""
    else if IsAsciiWhitespace(s[0]) then RemoveWhitespace(s[1..])
    else [s[0]] + RemoveWhitespace(s[1..])
  }

  /** Removes one or two '=' at the end. */
  function StripPadding(s: string): string {
    if EndsWithChar(s, 2, '=') && EndsWithChar(s, 1, '=') then s[..|s| - 2]
    else if EndsWithChar(s, 1, '=') then s[..|s| - 1]
    else s
  }

  /** The `k`-th character from the end of `s` is `c`. */
  predicate EndsWithChar(s: string, k: nat, c: char) {
    k <= |s| && 0 < k && s[|s| - k] == c
  }

  /**
    Forgiving-base64 decode: drop ASCII whitespace; when the length is a multiple of 4,
    drop one or two final '='; fail when the length is then 1 modulo 4 or a character
    outside the alphabet remains; otherwise decode, discarding the leftover bits.
  */
  function Decode(s: string): Option<seq<Byte>> {
    var t := RemoveWhitespace(s);
    var u := if |t| % 4 == 0 then StripPadding(t) else t;
    if |u| % 4 == 1 then None
    else match Sextets(u)
      case None => None
      case Some(v) => Some(DecodeSextets(v))
  }

  /** Decoding undoes the grouping of the encoder, group by group. */
  lemma {:induction false} DecodeEncodeSextets(x: seq<Byte>)
    ensures |EncodeSextets(x)| % 4 != 1
    ensures DecodeSextets(EncodeSextets(x)) == x
    decreases |x|
  {
    var v := EncodeSextets(x);
    if |x| >= 3 {
      DecodeEncodeSextets(x[3..]);
      assert v[4..] == EncodeSextets(x[3..]);
      assert [x[0], x[1], x[2]] + x[3..] == x;
    }
  }

  lemma {:induction false} RemoveWhitespaceNone(s: string)
    requires forall i :: 0 <= i < |s| ==> !IsAsciiWhitespace(s[i])
    ensures RemoveWhitespace(s) == s
    decreases |s|
  {
    if |s| > 0 {
      RemoveWhitespaceNone(s[1..]);
      assert [s[0]] + s[1..] == s;
    }
  }

  lemma EncodeStripPadding(x: seq<Byte>)
    ensures StripPadding(Encode(x)) == CharsOf(EncodeSextets(x))
  {
    var body := CharsOf(EncodeSextets(x));
    var s := Encode(x);
    assert s[..|body|] == body;
    if |x| % 3 == 0 {
      assert s == body;
      assert |body| > 0 ==> body[|body| - 1] != '=';
    } else if |x| % 3 == 2 {
      assert s == body + "=";
      assert body[|body| - 1] != '=';
    }
  }

  lemma EncodeHasNoWhitespace(x: seq<Byte>)
    ensures forall i :: 0 <= i < |Encode(x)| ==> !IsAsciiWhitespace(Encode(x)[i])
  {
    var v := EncodeSextets(x);
    var body := CharsOf(v);
    var s := Encode(x);
    forall i | 0 <= i < |s| ensures !IsAsciiWhitespace(s[i]) {
      if i < |body| {
        assert s[i] == CharOf(v[i]);
      } else {
        assert s[i] == Padding(|x|)[i - |body|];
      }
    }
  }

  /** For every byte sequence, decoding its RFC 4648 encoding gives it back. */
  lemma DecodeEncode(x: seq<Byte>)
    ensures Decode(Encode(x)) == Some(x)
  {
    var s, v := Encode(x), EncodeSextets(x);
    EncodeHasNoWhitespace(x);
    RemoveWhitespaceNone(s);
    assert RemoveWhitespace(s) == s && |s| % 4 == 0;
    EncodeStripPadding(x);
    SextetsCharsOf(v);
    DecodeEncodeSextets(x);
    assert Sextets(StripPadding(s)) == Some(v);
  }

  /** Whitespace anywhere in the input does not change what it decodes to. */
  lemma {:induction false} DecodeIgnoresWhitespace(s: string)
    ensures Decode(RemoveWhitespace(s)) == Decode(s)
  {
    RemoveWhitespaceNone(RemoveWhitespace(s));
  }

  /** A string that is a canonical encoding is the encoding of what it decodes to. */
  lemma EncodeDecodeCanonical(s: string, x: seq<Byte>)
    requires s == Encode(x)
    ensures Decode(s).Some? && Encode(Decode(s).value) == s
  {
    DecodeEncode(x);
  }
}
