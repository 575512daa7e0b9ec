/** The parts of PHP's own semantics that the client relies on: `null`, `empty()`,
    loose comparison with `null`, `urlencode` and the `(int)` cast of a string.
    PHP strings are byte strings; a byte is represented by a `char` below 256. */
module Php {

  /** A PHP value that is either `null` or a string. */
  datatype Option<+T> = None | Some(value: T)

  /** PHP's `empty()` on null or a string: true for `null`, `""` and `"0"`. */
  predicate Empty(v: Option<string>) {
    v.None? || v.value == "" || v.value == "0"
  }

  /** The string PHP converts a null-or-string to in a string context (`null` becomes `""`). */
  function StringOf(v: Option<string>): string {
    if v.None? then "" else v.value
  }

  /** Loose `$v != null`: `null` is converted to `""` and compared as a string, so both
      `null` and `""` count as null. */
  predicate LooseNotNull(v: Option<string>) {
    StringOf(v) != ""
  }

  /** `empty()` rejects exactly null, "" and "0"; of these only "0" is loosely different
      from null, so a test `empty($v) || $v == ''` rejects the same values as `empty($v)`. */
  lemma EmptyValues(v: Option<string>)
    ensures Empty(v) <==> v == None || v == Some("") || v == Some("0")
    ensures Empty(v) && LooseNotNull(v) <==> v == Some("0")
  {
  }

  /** Loosely, null equals only null and "": every other string, "0" included, is
      different from null. */
  lemma LooseNullValues(v: Option<string>)
    ensures !LooseNotNull(v) <==> v == None || v == Some("")
    ensures !LooseNotNull(v) ==> Empty(v)
  {
  }

  predicate IsByte(c: char) {
    c as int < 256
  }

  /** A PHP string: every character is a byte. */
  predicate IsByteString(s: string) {
    forall i | 0 <= i < |s| :: IsByte(s[i])
  }

  lemma ByteStringConcat(s: string, t: string)
    requires IsByteString(s) && IsByteString(t)
    ensures IsByteString(s + t)
  {
  }

  // ---------------------------------------------------------------------------
  // urlencode
  // ---------------------------------------------------------------------------

  /** The bytes `urlencode` copies unchanged: ASCII letters, digits, `-`, `_` and `.`. */
  predicate Unreserved(c: char) {
    'a' <= c <= 'z' || 'A' <= c <= 'Z' || '0' <= c <= '9' || c == '-' || c == '_' || c == '.'
  }

  predicate IsHexDigit(c: char) {
    '0' <= c <= '9' || 'A' <= c <= 'F' || 'a' <= c <= 'f'
  }

  /** The upper-case hexadecimal digit of a nibble. */
  function HexDigit(n: int): (c: char)
    requires 0 <= n < 16
    ensures IsHexDigit(c) && !('a' <= c <= 'f')
  {
    if n < 10 then ('0' as int + n) as char else ('A' as int + n - 10) as char
  }

  /** The value of a hexadecimal digit, in either case. */
  function HexValue(c: char): (n: int)
    requires IsHexDigit(c)
    ensures 0 <= n < 16
  {
    if '0' <= c <= '9' then c as int - '0' as int
    else if 'A' <= c <= 'F' then c as int - 'A' as int + 10
    else c as int - 'a' as int + 10
  }

  /** A string every character of which `urlencode` may produce: unreserved bytes,
      `+` and the characters of `%XX` escapes. No query-string delimiter
      (`&`, `=`, `#`, `?`, a space, `<`, `>`) can occur in it. */
  predicate UrlSafe(s: string) {
    forall i | 0 <= i < |s| :: Unreserved(s[i]) || s[i] == '+' || s[i] == '%'
  }

  /** How `urlencode` writes one byte: a space becomes `+`, an unreserved byte stays,
      any other byte becomes `%` and two upper-case hexadecimal digits. */
  function EncodeByte(c: char): (r: string)
    requires IsByte(c)
    ensures 1 <= |r| <= 3 && UrlSafe(r)
  {
    if c == ' ' then "+"
    else if Unreserved(c) then [c]
    else ['%', HexDigit(c as int / 16), HexDigit(c as int % 16)]
  }

  /** PHP `urlencode` (the application/x-www-form-urlencoded variant of the
      percent-encoding of section 2.1 of RFC 3986). */
  function UrlEncode(s: string): (r: string)
    requires IsByteString(s)
    ensures |s| <= |r| <= 3 * |s|
    ensures s == [] <==> r == []
  {
    if s == [] then [] else EncodeByte(s[0]) + UrlEncode(s[1..])
  }

  /** Nothing `urlencode` produces can end a query parameter. */
  lemma {:induction false} UrlEncodeIsUrlSafe(s: string)
    requires IsByteString(s)
    ensures UrlSafe(UrlEncode(s))
  {
    if s != [] {
      UrlEncodeIsUrlSafe(s[1..]);
      var e, rest := EncodeByte(s[0]), UrlEncode(s[1..]);
      assert forall i | 0 <= i < |e + rest| :: (e + rest)[i] == if i < |e| then e[i] else rest[i - |e|];
    }
  }

  /** PHP `urldecode`, the receiver's side of `urlencode`: `+` is a space, `%` followed by
      two hexadecimal digits (either case) is that byte, anything else stands for itself. */
  function UrlDecode(s: string): string
    decreases |s|
  {
    if s == [] then []
    else if s[0] == '+' then " " + UrlDecode(s[1..])
    else if s[0] == '%' && |s| >= 3 && IsHexDigit(s[1]) && IsHexDigit(s[2]) then
      [(HexValue(s[1]) * 16 + HexValue(s[2])) as char] + UrlDecode(s[3..])
    else [s[0]] + UrlDecode(s[1..])
  }

  lemma DecodeEncodedByte(c: char, t: string)
    requires IsByte(c)
    ensures UrlDecode(EncodeByte(c) + t) == [c] + UrlDecode(t)
  {
    var e := EncodeByte(c) + t;
    if c == ' ' {
      assert e[0] == '+' && e[1..] == t;
    } else if Unreserved(c) {
      assert e[0] == c && e[1..] == t;
    } else {
      assert e[0] == '%' && e[1] == HexDigit(c as int / 16) && e[2] == HexDigit(c as int % 16);
      assert e[3..] == t;
    }
  }

  /** Decoding what `urlencode` produced gives the original bytes back. */
  lemma {:induction false} UrlDecodeInvertsEncode(s: string)
    requires IsByteString(s)
    ensures UrlDecode(UrlEncode(s)) == s
  {
    if s != [] {
      DecodeEncodedByte(s[0], UrlEncode(s[1..]));
      UrlDecodeInvertsEncode(s[1..]);
      assert [s[0]] + s[1..] == s;
    }
  }

  /** `urlencode` works byte by byte: encoding a concatenation concatenates the encodings. */
  lemma {:induction false} UrlEncodeConcat(s: string, t: string)
    requires IsByteString(s) && IsByteString(t)
    ensures IsByteString(s + t)
    ensures UrlEncode(s + t) == UrlEncode(s) + UrlEncode(t)
  {
    ByteStringConcat(s, t);
    if s == [] {
      assert s + t == t;
    } else {
      var st := s + t;
      assert st[0] == s[0] && st[1..] == s[1..] + t;
      UrlEncodeConcat(s[1..], t);
      calc {
        UrlEncode(st);
        EncodeByte(s[0]) + UrlEncode(s[1..] + t);
        EncodeByte(s[0]) + (UrlEncode(s[1..]) + UrlEncode(t));
        (EncodeByte(s[0]) + UrlEncode(s[1..])) + UrlEncode(t);
        UrlEncode(s) + UrlEncode(t);
      }
    }
  }

  /** Unreserved bytes are copied as they are. */
  lemma {:induction false} UrlEncodeKeepsUnreserved(s: string)
    requires forall i | 0 <= i < |s| :: Unreserved(s[i])
    ensures IsByteString(s) && UrlEncode(s) == s
  {
    if s != [] {
      UrlEncodeKeepsUnreserved(s[1..]);
      assert [s[0]] + s[1..] == s;
    }
  }

  /** Distinct byte strings have distinct encodings. */
  lemma UrlEncodeInjective(s: string, t: string)
    requires IsByteString(s) && IsByteString(t)
    ensures UrlEncode(s) == UrlEncode(t) ==> s == t
  {
    UrlDecodeInvertsEncode(s);
    UrlDecodeInvertsEncode(t);
  }

  // ---------------------------------------------------------------------------
  // (int) cast of a string
  // ---------------------------------------------------------------------------

  /** The range of a PHP integer on a 64-bit build other than Windows. */
  const INT_MAX: int := 0x7FFF_FFFF_FFFF_FFFF
  const INT_MIN: int := -0x8000_0000_0000_0000

  predicate IsDigit(c: char) {
    '0' <= c <= '9'
  }

  predicate AllDigits(s: string) {
    forall i | 0 <= i < |s| :: IsDigit(s[i])
  }

  /** The white space `strtol` skips: space, tab, line feed, vertical tab, form feed, carriage return. */
  predicate IsSpace(c: char) {
    c == ' ' || '\t' <= c <= '\r'
  }

  function SkipSpace(s: string): (r: string)
    ensures |r| <= |s| && r == s[|s| - |r|..]
    ensures r != [] ==> !IsSpace(r[0])
  {
    if s != [] && IsSpace(s[0]) then SkipSpace(s[1..]) else s
  }

  /** The longest prefix of `s` made of decimal digits. */
  function LeadingDigits(s: string): (r: string)
    ensures r <= s && AllDigits(r)
    ensures |r| < |s| ==> !IsDigit(s[|r|])
  {
    if s != [] && IsDigit(s[0]) then [s[0]] + LeadingDigits(s[1..]) else []
  }

  /** The number a string of decimal digits denotes. */
  function DigitsValue(d: string): nat
    requires AllDigits(d)
  {
    if d == [] then 0 else DigitsValue(d[..|d| - 1]) * 10 + (d[|d| - 1] as int - '0' as int)
  }

  /** Saturation to the 64-bit range, as `strtol` does on overflow. */
  function Clamp64(n: int): (r: int)
    ensures INT_MIN <= r <= INT_MAX
    ensures INT_MIN <= n <= INT_MAX ==> r == n
  {
    if n > INT_MAX then INT_MAX else if n < INT_MIN then INT_MIN else n
  }

  /** PHP 5's `(int)` cast of a string (`strtol` in base 10): leading white space is
      skipped, an optional sign is read, then the longest run of decimal digits; anything
      after it is ignored, no digits give 0, and a value out of range saturates. */
  function IntCast(s: string): (r: int)
    ensures INT_MIN <= r <= INT_MAX
  {
    var t := SkipSpace(s);
    var signed := t != [] && (t[0] == '-' || t[0] == '+');
    var n: int := DigitsValue(LeadingDigits(if signed then t[1..] else t));
    Clamp64(if signed && t[0] == '-' then -n else n)
  }

  /** The decimal digits of a natural number, without leading zeros. */
  function Decimal(n: nat): (r: string)
    ensures r != [] && AllDigits(r)
  {
    if n < 10 then [('0' as int + n) as char] else Decimal(n / 10) + [('0' as int + n % 10) as char]
  }

  /** How PHP writes an integer as a string. */
  function IntToString(i: int): (r: string)
    ensures r != []
  {
    if i < 0 then "-" + Decimal(-i) else Decimal(i)
  }

  lemma {:induction false} DigitsValueOfDecimal(n: nat)
    ensures DigitsValue(Decimal(n)) == n
  {
    if n >= 10 {
      var d := Decimal(n);
      assert d[..|d| - 1] == Decimal(n / 10);
      DigitsValueOfDecimal(n / 10);
    }
  }

  lemma {:induction false} LeadingDigitsStops(d: string, rest: string)
    requires AllDigits(d)
    requires rest == [] || !IsDigit(rest[0])
    ensures LeadingDigits(d + rest) == d
  {
    if d != [] {
      assert (d + rest)[1..] == d[1..] + rest;
      LeadingDigitsStops(d[1..], rest);
    } else {
      assert d + rest == rest;
    }
  }

  /** The cast reads a run of digits whatever non-digit text follows it. */
  lemma {:induction false} IntCastReadsDigits(d: string, rest: string)
    requires d != [] && AllDigits(d)
    requires rest == [] || !IsDigit(rest[0])
    ensures IntCast(d + rest) == Clamp64(DigitsValue(d))
  {
    var s := d + rest;
    var c := d[0];
    assert IsDigit(c) && s[0] == c;
    assert !IsSpace(c) && c != '-' && c != '+';
    assert SkipSpace(s) == s;
    LeadingDigitsStops(d, rest);
    assert IntCast(s) == Clamp64(DigitsValue(LeadingDigits(s)));
  }

  /** The cast reads a decimal number back whatever non-digit text follows it
      (a body of "42" or "42\n" gives 42). */
  lemma {:induction false} IntCastReadsDecimal(n: nat, rest: string)
    requires rest == [] || !IsDigit(rest[0])
    ensures IntCast(Decimal(n) + rest) == Clamp64(n)
  {
    IntCastReadsDigits(Decimal(n), rest);
    DigitsValueOfDecimal(n);
  }

  /** The cast inverts PHP's rendering of every 64-bit integer. */
  lemma {:induction false} IntCastInvertsIntToString(i: int)
    requires INT_MIN <= i <= INT_MAX
    ensures IntCast(IntToString(i)) == i
  {
    if i < 0 {
      var d := Decimal(-i);
      var s := "-" + d;
      assert s[0] == '-' && s[1..] == d;
      assert SkipSpace(s) == s;
      LeadingDigitsStops(d, []);
      assert d + [] == d;
      DigitsValueOfDecimal(-i);
    } else {
      IntCastReadsDecimal(i, []);
      assert Decimal(i) + [] == Decimal(i);
    }
  }
}
