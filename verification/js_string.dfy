/**
 * The ECMAScript string and number built-ins that the game's logic relies on,
 * restricted to what the model needs: String.prototype.trim, the global
 * parseInt (called without a radix), Number.prototype.toString on integers,
 * lower-casing for an ASCII search word, String.prototype.includes and
 * String.prototype.startsWith.
 */
module JsString {
  import opened Wrappers

  /** The result of parseInt: NaN, or an integral number. */
  datatype NumberValue = NaN | Int(value: int)

  /** WhiteSpace and LineTerminator code points of ECMAScript (section 12.2 and 12.3 of ECMA-262). */
  predicate IsJsWhitespace(c: char) {
    c == '\t' || c == '\n' || c == '\U{000B}' || c == '\U{000C}' || c == '\r' || c == ' ' ||
    c == '\U{00A0}' || c == '\U{1680}' || ('\U{2000}' <= c <= '\U{200A}') ||
    c == '\U{2028}' || c == '\U{2029}' || c == '\U{202F}' || c == '\U{205F}' ||
    c == '\U{3000}' || c == '\U{FEFF}'
  }

  predicate AllWhitespace(s: string) {
    forall i :: 0 <= i < |s| ==> IsJsWhitespace(s[i])
  }

  /** Drops leading whitespace: the result is the suffix of `s` after its whitespace run. */
  function TrimStart(s: string): (r: string)
    ensures |r| <= |s| && r == s[|s| - |r|..]
    ensures AllWhitespace(s[..|s| - |r|])
    ensures r != [] ==> !IsJsWhitespace(r[0])
  {
    if s != [] && IsJsWhitespace(s[0]) then
      var r := TrimStart(s[1..]);
      assert s[1..][|s| - 1 - |r|..] == s[|s| - |r|..];
      var dropped := s[..|s| - |r|];
      assert AllWhitespace(dropped) by {
        forall i | 0 < i < |dropped| ensures IsJsWhitespace(dropped[i]) {
          assert dropped[i] == s[1..][..|s| - 1 - |r|][i - 1];
        }
      }
      r
    else
      s
  }

  /** Drops trailing whitespace: the result is the prefix of `s` before its final whitespace run. */
  function TrimEnd(s: string): (r: string)
    ensures |r| <= |s| && r == s[..|r|]
    ensures AllWhitespace(s[|r|..])
    ensures r != [] ==> !IsJsWhitespace(r[|r| - 1])
  {
    if s != [] && IsJsWhitespace(s[|s| - 1]) then
      var r := TrimEnd(s[..|s| - 1]);
      assert s[..|s| - 1][..|r|] == s[..|r|];
      assert s[|r|..] == s[..|s| - 1][|r|..] + [s[|s| - 1]];
      r
    else
      s
  }

  /** String.prototype.trim. */
  function Trim(s: string): (r: string)
    ensures r == [] <==> AllWhitespace(s)
    ensures r != [] ==> !IsJsWhitespace(r[0]) && !IsJsWhitespace(r[|r| - 1])
  {
    var t := TrimStart(s);
    var r := TrimEnd(t);
    if r == [] then
      assert t[|r|..] == t;
      assert t == [];
      assert s[..|s|] == s;
      r
    else
      assert r[0] == t[0];
      r
  }

  /** The value of a digit character in radix 16, or 16 when it is no hexadecimal digit. */
  function DigitValue(c: char): (d: nat)
    ensures d <= 16
  {
    if '0' <= c <= '9' then c as int - '0' as int
    else if 'a' <= c <= 'f' then c as int - 'a' as int + 10
    else if 'A' <= c <= 'F' then c as int - 'A' as int + 10
    else 16
  }

  predicate IsDigit(c: char, radix: nat) {
    DigitValue(c) < radix
  }

  predicate AllDigits(s: string, radix: nat) {
    forall i :: 0 <= i < |s| ==> IsDigit(s[i], radix)
  }

  /** Length of the longest prefix of `s` made of digits of `radix`. */
  function LeadingDigitCount(s: string, radix: nat): (n: nat)
    ensures n <= |s|
    ensures AllDigits(s[..n], radix)
    ensures n < |s| ==> !IsDigit(s[n], radix)
  {
    if s != [] && IsDigit(s[0], radix) then
      var n := LeadingDigitCount(s[1..], radix);
      assert s[..n + 1] == [s[0]] + s[1..][..n];
      n + 1
    else
      0
  }

  /** The mathematical value of a digit string, most significant digit first. */
  function DigitsValue(z: string, radix: nat): nat
    requires AllDigits(z, radix)
  {
    if z == [] then 0
    else DigitsValue(z[..|z| - 1], radix) * radix + DigitValue(z[|z| - 1])
  }

  /** True when `u` begins with the "0x" or "0X" prefix that makes parseInt read hexadecimal. */
  predicate HasHexPrefix(u: string) {
    |u| >= 2 && u[0] == '0' && (u[1] == 'x' || u[1] == 'X')
  }

  /**
   * The digits after the sign: "0x"/"0X" switches to hexadecimal, then the
   * longest run of digits is read and the rest ignored; no digit gives None.
   */
  function ParseMagnitude(u: string): Option<nat> {
    var radix := if HasHexPrefix(u) then 16 else 10;
    var body := if HasHexPrefix(u) then u[2..] else u;
    var n := LeadingDigitCount(body, radix);
    if n == 0 then None else Some(DigitsValue(body[..n], radix))
  }

  /** An optional sign in front of the magnitude; -0 is folded into 0, which `===` treats alike. */
  function ParseSigned(s: string): NumberValue {
    var negative := s != [] && s[0] == '-';
    var u := if s != [] && (s[0] == '-' || s[0] == '+') then s[1..] else s;
    match ParseMagnitude(u)
    case None => NaN
    case Some(m) => Int(if negative then -(m as int) else m)
  }

  /**
   * parseInt(input) with no radix (section 19.2.5 of ECMA-262): skip leading
   * whitespace, read an optional sign, read hexadecimal after "0x"/"0X" and
   * decimal otherwise, keep the longest run of digits and ignore the rest;
   * no digit at all gives NaN.
   */
  function ParseInt(input: string): NumberValue {
    ParseSigned(TrimStart(input))
  }

  function DigitChar(d: nat): (c: char)
    requires d < 10
    ensures IsDigit(c, 10) && DigitValue(c) == d
  {
    ('0' as int + d) as char
  }

  /** Decimal digits of a natural number, without leading zeros. */
  function NatDigits(n: nat): string
    decreases n
  {
    if n < 10 then [DigitChar(n)] else NatDigits(n / 10) + [DigitChar(n % 10)]
  }

  /** Number.prototype.toString() on an integral number: an optional '-' and its decimal digits. */
  function NumberToString(n: int): string {
    if n < 0 then "-" + NatDigits(-n) else NatDigits(n)
  }

  /** The digits of `n` are decimal digits that read back as `n`, with no superfluous leading zero. */
  lemma {:induction false} NatDigitsValue(n: nat)
    ensures |NatDigits(n)| >= 1
    ensures AllDigits(NatDigits(n), 10)
    ensures DigitsValue(NatDigits(n), 10) == n
    ensures |NatDigits(n)| >= 2 ==> NatDigits(n)[0] != '0'
    ensures NatDigits(n) == "0" <==> n == 0
    decreases n
  {
    if n < 10 {
      assert NatDigits(n) == [DigitChar(n)];
      assert DigitChar(n) == '0' <==> n == 0;
    } else {
      NatDigitsValue(n / 10);
      var d := NatDigits(n);
      assert d[..|d| - 1] == NatDigits(n / 10);
      assert d[0] == NatDigits(n / 10)[0];
      if |NatDigits(n / 10)| == 1 {
        assert NatDigits(n / 10)[0] == DigitChar(n / 10);
      }
    }
  }

  /** The value written as `sign` followed by the digits of `m`. */
  function ApplySign(sign: string, m: nat): int {
    if sign == "-" then -(m as int) else m
  }

  /**
   * parseInt stops at the first character that is no decimal digit: a decimal
   * number followed by anything that does not continue it (".5", "abc", the end)
   * reads as that number, and the sign in front is honoured.
   */
  lemma ParseIntDecimalPrefix(sign: string, d: string, rest: string)
    requires sign == "" || sign == "-" || sign == "+"
    requires d != [] && AllDigits(d, 10)
    requires rest == [] || !IsDigit(rest[0], 10)
    requires !(d == "0" && rest != [] && (rest[0] == 'x' || rest[0] == 'X'))
    ensures ParseInt(sign + d + rest) == Int(ApplySign(sign, DigitsValue(d, 10)))
  {
    var u := d + rest;
    var input := sign + u;
    assert sign + d + rest == input;
    MagnitudeOfDecimalRun(d, rest);
    assert u[0] == d[0];
    SignedOfMagnitude(sign, u, DigitsValue(d, 10));
    NoLeadingWhitespace(input);
    assert ParseInt(input) == ParseSigned(input);
  }

  lemma NoLeadingWhitespace(s: string)
    requires s != [] && !IsJsWhitespace(s[0])
    ensures TrimStart(s) == s
  {
  }

  lemma SignedOfMagnitude(sign: string, u: string, m: nat)
    requires sign == "" || sign == "-" || sign == "+"
    requires u != [] && IsDigit(u[0], 16)
    requires ParseMagnitude(u) == Some(m)
    ensures sign + u != [] && !IsJsWhitespace((sign + u)[0])
    ensures ParseSigned(sign + u) == Int(ApplySign(sign, m))
  {
    var s := sign + u;
    if sign == "" {
      assert s == u;
      assert !(u[0] == '-' || u[0] == '+');
    } else if sign == "-" {
      assert s[0] == '-' && s[1..] == u;
      assert ParseSigned(s) == Int(-(m as int));
    } else {
      assert s[0] == '+' && s[1..] == u;
      assert ParseSigned(s) == Int(m);
    }
  }

  lemma MagnitudeOfDecimalRun(d: string, rest: string)
    requires d != [] && AllDigits(d, 10)
    requires rest == [] || !IsDigit(rest[0], 10)
    requires !(d == "0" && rest != [] && (rest[0] == 'x' || rest[0] == 'X'))
    ensures ParseMagnitude(d + rest) == Some(DigitsValue(d, 10))
  {
    var u := d + rest;
    if |d| >= 2 {
      assert u[1] == d[1];
    } else if rest != [] {
      assert u[1] == rest[0];
    }
    assert !HasHexPrefix(u);
    LeadingDigitsOfDigitRun(d, rest, 10);
    assert u[..|d|] == d;
  }

  lemma {:induction false} LeadingDigitsOfDigitRun(d: string, rest: string, radix: nat)
    requires AllDigits(d, radix)
    requires rest == [] || !IsDigit(rest[0], radix)
    ensures LeadingDigitCount(d + rest, radix) == |d|
    decreases |d|
  {
    if d != [] {
      assert (d + rest)[1..] == d[1..] + rest;
      LeadingDigitsOfDigitRun(d[1..], rest, radix);
    } else {
      assert d + rest == rest;
    }
  }

  /**
   * Without a radix, "0x" or "0X" after the optional sign switches parseInt
   * to hexadecimal; reading again stops at the first non-hexadecimal character.
   */
  lemma ParseIntHexPrefix(sign: string, prefix: string, h: string, rest: string)
    requires sign == "" || sign == "-" || sign == "+"
    requires prefix == "0x" || prefix == "0X"
    requires h != [] && AllDigits(h, 16)
    requires rest == [] || !IsDigit(rest[0], 16)
    ensures ParseInt(sign + prefix + h + rest) == Int(ApplySign(sign, DigitsValue(h, 16)))
  {
    var u := prefix + h + rest;
    var input := sign + u;
    assert sign + prefix + h + rest == input;
    MagnitudeOfHexRun(prefix, h, rest);
    assert u[0] == '0';
    SignedOfMagnitude(sign, u, DigitsValue(h, 16));
    NoLeadingWhitespace(input);
    assert ParseInt(input) == ParseSigned(input);
  }

  lemma MagnitudeOfHexRun(prefix: string, h: string, rest: string)
    requires prefix == "0x" || prefix == "0X"
    requires h != [] && AllDigits(h, 16)
    requires rest == [] || !IsDigit(rest[0], 16)
    ensures ParseMagnitude(prefix + h + rest) == Some(DigitsValue(h, 16))
  {
    var u := prefix + h + rest;
    assert HasHexPrefix(u);
    assert u[2..] == h + rest;
    LeadingDigitsOfDigitRun(h, rest, 16);
    assert (h + rest)[..|h|] == h;
  }

  /** Text that starts with neither a sign nor a decimal digit is NaN. */
  lemma ParseIntNoDigits(s: string)
    requires s != [] && !IsJsWhitespace(s[0])
    requires s[0] != '-' && s[0] != '+' && !IsDigit(s[0], 10)
    ensures ParseInt(s) == NaN
  {
  }

  /**
   * parseInt reads back the integer that toString writes, whatever follows it
   * as long as it does not continue the number.
   */
  lemma ParseIntOfNumberToStringThen(n: int, rest: string)
    requires rest == [] || !IsDigit(rest[0], 10)
    requires n == 0 && rest != [] ==> rest[0] != 'x' && rest[0] != 'X'
    ensures ParseInt(NumberToString(n) + rest) == Int(n)
  {
    var m: nat := if n < 0 then -n else n;
    NatDigitsValue(m);
    var d := NatDigits(m);
    var sign := if n < 0 then "-" else "";
    assert NumberToString(n) == sign + d;
    assert NumberToString(n) + rest == sign + d + rest;
    ParseIntDecimalPrefix(sign, d, rest);
    assert ApplySign(sign, m) == n;
  }

  /** Round trip: parseInt reads back every integer that toString writes. */
  lemma ParseIntOfNumberToString(n: int)
    ensures ParseInt(NumberToString(n)) == Int(n)
  {
    ParseIntOfNumberToStringThen(n, "");
    assert NumberToString(n) + "" == NumberToString(n);
  }

  /** parseInt of an empty or all-white-space text is NaN. */
  lemma ParseIntOfBlank(input: string)
    requires AllWhitespace(input)
    ensures ParseInt(input) == NaN
  {
    assert TrimStart(input) == [];
  }

  /** toString writes different texts for different integers. */
  lemma NumberToStringInjective(n: int, m: int)
    requires NumberToString(n) == NumberToString(m)
    ensures n == m
  {
    ParseIntOfNumberToString(n);
    ParseIntOfNumberToString(m);
  }

  /** Lower-cases the ASCII letters A-Z and leaves every other character alone. */
  function AsciiLower(c: char): (l: char)
    ensures 'A' <= c <= 'Z' ==> 'a' <= l <= 'z'
  {
    if 'A' <= c <= 'Z' then (c as int - 'A' as int + 'a' as int) as char else c
  }

  function ToLowerAscii(s: string): (r: string)
    ensures |r| == |s|
    ensures forall i :: 0 <= i < |s| ==> r[i] == AsciiLower(s[i])
  {
    seq(|s|, i requires 0 <= i < |s| => AsciiLower(s[i]))
  }

  /** The upper-case partner of an ASCII lower-case letter. */
  function AsciiUpper(c: char): (u: char)
    requires 'a' <= c <= 'z'
    ensures 'A' <= u <= 'Z'
  {
    (c as int - 'a' as int + 'A' as int) as char
  }

  predicate IsLowerWord(w: string) {
    forall j :: 0 <= j < |w| ==> 'a' <= w[j] <= 'z'
  }

  /** The lower-case word `w` is written at position `i` of `s`, each letter in either case. */
  predicate OccursIgnoringCaseAt(s: string, w: string, i: int)
    requires IsLowerWord(w)
  {
    0 <= i && i + |w| <= |s| &&
    forall j :: 0 <= j < |w| ==> s[i + j] == w[j] || s[i + j] == AsciiUpper(w[j])
  }

  /** Lower-casing maps a character onto a lower-case letter exactly when it is that letter in either case. */
  lemma AsciiLowerMatches(c: char, l: char)
    requires 'a' <= l <= 'z'
    ensures AsciiLower(c) == l <==> c == l || c == AsciiUpper(l)
  {
  }

  /** At each position, the lowered text shows the word exactly when the text has it in any mix of cases. */
  lemma OccursInLoweredAt(s: string, w: string, i: int)
    requires IsLowerWord(w)
    ensures OccursAt(ToLowerAscii(s), w, i) <==> OccursIgnoringCaseAt(s, w, i)
  {
    var low := ToLowerAscii(s);
    if 0 <= i && i + |w| <= |s| {
      forall j | 0 <= j < |w| ensures low[i + j] == w[j] <==> s[i + j] == w[j] || s[i + j] == AsciiUpper(w[j]) {
        AsciiLowerMatches(s[i + j], w[j]);
      }
      if OccursAt(low, w, i) {
        forall j | 0 <= j < |w| ensures low[i + j] == w[j] {
          assert low[i..i + |w|][j] == low[i + j];
        }
      }
      if OccursIgnoringCaseAt(s, w, i) {
        assert low[i..i + |w|] == w by {
          forall j | 0 <= j < |w| ensures low[i..i + |w|][j] == w[j] {
            assert low[i..i + |w|][j] == low[i + j];
          }
        }
      }
    }
  }

  /**
   * `s.toLowerCase().includes(w)` for a lower-case word `w` holds exactly when
   * `s` contains `w` with each letter in either case.
   */
  lemma IncludesIgnoringCase(s: string, w: string)
    requires IsLowerWord(w)
    ensures Includes(ToLowerAscii(s), w) <==> exists i :: OccursIgnoringCaseAt(s, w, i)
  {
    forall i ensures OccursAt(ToLowerAscii(s), w, i) <==> OccursIgnoringCaseAt(s, w, i) {
      OccursInLoweredAt(s, w, i);
    }
  }

  /** String.prototype.startsWith: `prefix` is an initial segment of `s`. */
  predicate StartsWith(s: string, prefix: string) {
    |prefix| <= |s| && s[..|prefix|] == prefix
  }

  predicate OccursAt(s: string, sub: string, i: int) {
    0 <= i && i + |sub| <= |s| && s[i..i + |sub|] == sub
  }

  lemma DropOneSlice(s: string, lo: int, hi: int)
    requires 0 < lo <= hi <= |s|
    ensures s[lo..hi] == s[1..][lo - 1..hi - 1]
  {
    assert s[1..][lo - 1..] == s[lo..];
    assert s[1..][lo - 1..hi - 1] == s[1..][lo - 1..][..hi - lo];
    assert s[lo..][..hi - lo] == s[lo..hi];
  }

  /** String.prototype.includes: `sub` occurs somewhere in `s`. */
  function Includes(s: string, sub: string): (b: bool)
    ensures b <==> exists i :: OccursAt(s, sub, i)
    decreases |s|
  {
    if StartsWith(s, sub) then
      assert OccursAt(s, sub, 0);
      true
    else if s == [] then
      assert |sub| > 0;
      false
    else
      var b := Includes(s[1..], sub);
      assert forall i :: OccursAt(s, sub, i) <==> (i > 0 && OccursAt(s[1..], sub, i - 1)) by {
        forall i ensures OccursAt(s, sub, i) <==> (i > 0 && OccursAt(s[1..], sub, i - 1)) {
          if 0 < i && i + |sub| <= |s| {
            DropOneSlice(s, i, i + |sub|);
          }
        }
      }
      if b then
        var j :| OccursAt(s[1..], sub, j);
        assert OccursAt(s, sub, j + 1);
        true
      else
        false
  }
}
