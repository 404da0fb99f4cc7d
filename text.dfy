/** The string operations the service relies on: Python's `str.strip()`,
    `str.lower()` for ASCII letters, `str.endswith`, and the two number
    parsers `parse_int` and `parse_float`. */
module Text {
  import opened Wrappers

  /** Python's `str.isspace()` for a single character. */
  predicate IsSpace(c: char) {
    var n := c as int;
    (9 <= n <= 13) || (28 <= n <= 32) || n == 0x85 || n == 0xA0 || n == 0x1680
    || (0x2000 <= n <= 0x200A) || n == 0x2028 || n == 0x2029 || n == 0x202F
    || n == 0x205F || n == 0x3000
  }

  predicate AllSpace(s: string) {
    forall i :: 0 <= i < |s| ==> IsSpace(s[i])
  }

  /** `s.lstrip()`: drops the leading whitespace and nothing else. */
  function TrimStart(s: string): (r: string)
    ensures |r| <= |s| && r == s[|s| - |r|..]
    ensures AllSpace(s[..|s| - |r|])
    ensures r == [] || !IsSpace(r[0])
  {
    if s != [] && IsSpace(s[0]) then
      var r := TrimStart(s[1..]);
      var cut := |s| - |r|;
      assert s[1..][cut - 1..] == s[cut..];
      assert s[..cut] == [s[0]] + s[1..][..cut - 1];
      r
    else s
  }

  /** `s.rstrip()`: drops the trailing whitespace and nothing else. */
  function TrimEnd(s: string): (r: string)
    ensures |r| <= |s| && r == s[..|r|]
    ensures AllSpace(s[|r|..])
    ensures r == [] || !IsSpace(r[|r| - 1])
  {
    if s != [] && IsSpace(s[|s| - 1]) then
      var init := s[..|s| - 1];
      var r := TrimEnd(init);
      assert init[..|r|] == s[..|r|];
      assert s[|r|..] == init[|r|..] + [s[|s| - 1]];
      r
    else s
  }

  /** `s.strip()`: what is left of `s` once its leading and its trailing
      whitespace are gone. */
  function Strip(s: string): (r: string)
    ensures |r| <= |s|
    ensures r == [] || (!IsSpace(r[0]) && !IsSpace(r[|r| - 1]))
  {
    TrimEnd(TrimStart(s))
  }

  /** What `s.strip()` cuts: the result is a contiguous slice of `s`, and
      everything before and after that slice is whitespace. */
  lemma StripCuts(s: string)
    ensures var r := Strip(s);
            exists i :: 0 <= i <= |s| - |r| && r == s[i..i + |r|] && AllSpace(s[..i]) && AllSpace(s[i + |r|..])
  {
    var t := TrimStart(s);
    var r := TrimEnd(t);
    var i := |s| - |t|;
    assert t == s[i..];
    assert AllSpace(s[..i]);
    assert r == t[..|r|] && AllSpace(t[|r|..]);
    assert s[i + |r|..] == t[|r|..];
    assert r == s[i..i + |r|];
    assert Strip(s) == r;
  }

  /** `s.strip()` is empty exactly when `s` is all whitespace. */
  lemma StripEmpty(s: string)
    ensures Strip(s) == [] <==> AllSpace(s)
  {
    var t := TrimStart(s);
    var i := |s| - |t|;
    if Strip(s) == [] {
      assert AllSpace(t[0..]);
      assert s[..i] == s;
    }
  }

  /** Stripping twice strips nothing more. */
  lemma {:induction false} StripIdempotent(s: string)
    ensures Strip(Strip(s)) == Strip(s)
  {
    var r := Strip(s);
    if r != [] {
      assert TrimStart(r) == r;
      assert TrimEnd(r) == r;
    }
  }

  /** Python's `c.lower()` restricted to ASCII letters. */
  function LowerChar(c: char): char {
    if 'A' <= c <= 'Z' then (c as int + 32) as char else c
  }

  /** `s.lower()`, one character at a time. */
  function Lower(s: string): (r: string)
    ensures |r| == |s|
    ensures forall i :: 0 <= i < |s| ==> r[i] == LowerChar(s[i])
  {
    if s == [] then [] else [LowerChar(s[0])] + Lower(s[1..])
  }

  /** `s.endswith(suffix)`. */
  predicate EndsWith(s: string, suffix: string) {
    |suffix| <= |s| && s[|s| - |suffix|..] == suffix
  }

  /** `s.replace(c, "")` for a one-character pattern. */
  function Remove(s: string, c: char): (r: string)
    ensures |r| <= |s|
    ensures c !in r
  {
    if s == [] then []
    else (if s[0] == c then [] else [s[0]]) + Remove(s[1..], c)
  }

  predicate IsDigit(c: char) {
    '0' <= c <= '9'
  }

  predicate AllDigits(s: string) {
    forall i :: 0 <= i < |s| ==> IsDigit(s[i])
  }

  /** The number a run of decimal digits denotes. */
  function DigitsValue(s: string): nat
    requires AllDigits(s)
  {
    if s == [] then 0 else 10 * DigitsValue(s[..|s| - 1]) + (s[|s| - 1] as int - '0' as int)
  }

  function Pow10(n: nat): (r: nat)
    ensures r >= 1
  {
    if n == 0 then 1 else 10 * Pow10(n - 1)
  }

  /** The information separators U+001C..U+001F: `str.isspace()` counts
      them as whitespace, but `int()` does not skip them, so a number next to
      one does not parse. */
  predicate IsSeparator(c: char) {
    0x1C <= c as int <= 0x1F
  }

  predicate HasSeparator(s: string) {
    exists i :: 0 <= i < |s| && IsSeparator(s[i])
  }

  /** The most digits `int()` converts from text: CPython's default
      `sys.int_info.default_max_str_digits`. Longer digit runs raise. */
  const MAX_STR_DIGITS: nat := 4300

  /** `parse_int(v)`: `int(v)`, or None when `v` is None or `int` raises.
      Accepted here: optional surrounding whitespace other than an
      information separator, an optional sign and 1 to 4300 ASCII digits. */
  function ParseInt(v: Option<string>): (r: Option<int>)
    // `int(None)` raises
    ensures v.None? ==> r.None?
    // a separator anywhere, or no digit at all, never reads as a number
    ensures v.Some? && HasSeparator(v.value) ==> r.None?
    ensures v.Some? && NoDigit(v.value) ==> r.None?
    // a plain digit run reads as its value up to the digit limit, and not beyond
    ensures v.Some? && v.value != [] && AllDigits(v.value) ==>
              r == if |v.value| <= MAX_STR_DIGITS then Some(DigitsValue(v.value) as int) else None
  {
    if v.None? then None
    else
      NoDigitSigned(v.value);
      DigitsRead(v.value);
      if HasSeparator(v.value) then None else ParseSigned(Strip(v.value))
  }

  /** The digits of a stripped number: the text without its sign. */
  function Unsigned(t: string): string {
    if t != [] && (t[0] == '-' || t[0] == '+') then t[1..] else t
  }

  /** `int(t)` on stripped text: an optional sign, then 1 to 4300 ASCII
      digits. */
  function ParseSigned(t: string): Option<int> {
    var u := Unsigned(t);
    if u == [] || !AllDigits(u) || |u| > MAX_STR_DIGITS then None
    else Some(if t[0] == '-' then -(DigitsValue(u) as int) else DigitsValue(u) as int)
  }

  /** Python's `str(n)` for a natural number (Python itself raises past
      4300 digits). */
  function NatToString(n: nat): (s: string)
    ensures |s| >= 1
  {
    if n < 10 then [('0' as int + n) as char]
    else NatToString(n / 10) + [('0' as int + n % 10) as char]
  }

  /** Python's `str(i)` for an integer (Python itself raises past 4300
      digits). */
  function IntToString(i: int): (s: string)
    ensures |s| >= 1
  {
    if i < 0 then "-" + NatToString(-i) else NatToString(i)
  }

  lemma {:induction false} NatToStringDigits(n: nat)
    ensures AllDigits(NatToString(n)) && DigitsValue(NatToString(n)) == n
  {
    var s := NatToString(n);
    if n >= 10 {
      NatToStringDigits(n / 10);
      assert s[..|s| - 1] == NatToString(n / 10);
    }
  }

  /** A string with no whitespace at either end is its own strip. */
  lemma StripUnpadded(s: string)
    requires s != [] && !IsSpace(s[0]) && !IsSpace(s[|s| - 1])
    ensures Strip(s) == s
  {
    assert TrimStart(s) == s;
    assert TrimEnd(s) == s;
  }

  /** Digits, with or without a minus sign, hold no information separator. */
  lemma DigitsNoSeparator(d: string)
    requires AllDigits(d)
    ensures !HasSeparator(d) && !HasSeparator("-" + d)
  {
    var m := "-" + d;
    forall k | 1 <= k < |m| ensures !IsSeparator(m[k]) {
      assert m[k] == d[k - 1];
    }
  }

  /** A minus sign before a run of digits negates the value. */
  lemma ParseSignedNegated(digits: string)
    requires digits != [] && AllDigits(digits) && |digits| <= MAX_STR_DIGITS
    ensures ParseSigned("-" + digits) == Some(-(DigitsValue(digits) as int))
  {
    var s := "-" + digits;
    assert s[1..] == digits;
  }

  /** Python prints a negative number as a minus sign and digits, and that
      text parses back to the number. */
  lemma ParseIntNegated(digits: string)
    requires digits != [] && AllDigits(digits) && |digits| <= MAX_STR_DIGITS
    ensures ParseInt(Some("-" + digits)) == Some(-(DigitsValue(digits) as int))
  {
    var s := "-" + digits;
    assert s[|s| - 1] == digits[|digits| - 1];
    assert IsDigit(digits[|digits| - 1]);
    DigitsNoSeparator(digits);
    StripUnpadded(s);
    ParseSignedNegated(digits);
  }

  /** Every integer written the way Python prints it (at most 4300 digits,
      beyond which Python's `str` raises too) parses back to itself. */
  lemma {:induction false} ParseIntRoundTrip(i: int)
    requires |NatToString(if i < 0 then -i else i)| <= MAX_STR_DIGITS
    ensures ParseInt(Some(IntToString(i))) == Some(i)
  {
    var n: nat := if i < 0 then -i else i;
    NatToStringDigits(n);
    if i < 0 {
      ParseIntNegated(NatToString(n));
    }
  }

  /** The index of the first `c` in `s`. */
  function IndexOf(s: string, c: char): (k: nat)
    requires c in s
    ensures k < |s| && s[k] == c && c !in s[..k]
  {
    if s[0] == c then 0 else 1 + IndexOf(s[1..], c)
  }

  /** An unsigned decimal: digits, optionally a point and more digits, with at
      least one digit on some side of the point. */
  function ParseUnsigned(t: string): Option<real> {
    if '.' in t then
      var k := IndexOf(t, '.');
      var whole, frac := t[..k], t[k + 1..];
      if AllDigits(whole) && AllDigits(frac) && |whole| + |frac| > 0 then
        Some(DigitsValue(whole) as real + DigitsValue(frac) as real / Pow10(|frac|) as real)
      else None
    else if t != [] && AllDigits(t) then Some(DigitsValue(t) as real)
    else None
  }

  /** Python's `float(t)` on a stripped decimal with an optional sign. */
  function ParseDecimal(t: string): Option<real> {
    if t != [] && (t[0] == '-' || t[0] == '+') then
      match ParseUnsigned(t[1..])
      case None => None
      case Some(x) => Some(if t[0] == '-' then -x else x)
    else ParseUnsigned(t)
  }

  /** `parse_float(v)`: None for None and for the empty string; otherwise the
      value with every `$` and `,` removed and surrounding whitespace
      stripped, read as a decimal, or None when that fails. */
  function ParseFloat(v: Option<string>): (r: Option<real>)
    // `if not v: return None`
    ensures v.None? || v.value == "" ==> r.None?
    // text without a digit ("n/a", "TBD", "$") never reads as a number
    ensures v.Some? && NoDigit(v.value) ==> r.None?
    // only a digit run, at most one point and a leading sign survive the cleaning
    ensures r.Some? && r.value < 0.0 ==> '-' in v.value
  {
    if v.None? || v.value == "" then None
    else
      NoDigitCleaned(v.value);
      NegativeHasMinus(v.value);
      ParseDecimal(Strip(Remove(Remove(v.value, '$'), ',')))
  }

  lemma {:induction false} RemoveAbsent(s: string, c: char)
    requires c !in s
    ensures Remove(s, c) == s
  {
    if s != [] {
      assert c !in s[1..];
      RemoveAbsent(s[1..], c);
    }
  }

  lemma {:induction false} RemoveConcat(a: string, b: string, c: char)
    ensures Remove(a + b, c) == Remove(a, c) + Remove(b, c)
  {
    if a == [] {
      assert a + b == b;
    } else {
      var head := if a[0] == c then [] else [a[0]];
      assert (a + b)[0] == a[0] && (a + b)[1..] == a[1..] + b;
      assert Remove(a + b, c) == head + Remove(a[1..] + b, c);
      assert Remove(a, c) == head + Remove(a[1..], c);
      RemoveConcat(a[1..], b, c);
      assert head + (Remove(a[1..], c) + Remove(b, c)) == (head + Remove(a[1..], c)) + Remove(b, c);
    }
  }

  /** Removing one character never brings back another that was absent. */
  lemma {:induction false} RemoveKeepsAbsent(s: string, c: char, d: char)
    requires d !in s
    ensures d !in Remove(s, c)
  {
    if s != [] {
      assert d !in s[1..];
      RemoveKeepsAbsent(s[1..], c, d);
    }
  }

  /** Currency signs and thousands separators are ignored wherever they
      stand: a value reads the same with all of them removed beforehand. */
  lemma ParseFloatIgnoresSymbols(s: string)
    ensures ParseFloat(Some(s)) == ParseFloat(Some(Remove(Remove(s, '$'), ',')))
  {
    var cleaned := Remove(Remove(s, '$'), ',');
    RemoveKeepsAbsent(Remove(s, '$'), ',', '$');
    RemoveAbsent(cleaned, '$');
    RemoveAbsent(cleaned, ',');
    if cleaned == "" {
      assert Strip(cleaned) == "";
    }
  }

  /** Every character of `Remove(s, c)` comes from `s`. */
  lemma {:induction false} RemoveFrom(s: string, c: char, x: char)
    requires x in Remove(s, c)
    ensures x in s
  {
    if s != [] {
      if x != s[0] {
        RemoveFrom(s[1..], c, x);
      }
    }
  }

  /** Every character of `Strip(s)` comes from `s`. */
  lemma StripFrom(s: string, x: char)
    requires x in Strip(s)
    ensures x in s
  {
    var t := TrimStart(s);
    var r := TrimEnd(t);
    var k :| 0 <= k < |r| && r[k] == x;
    assert r[k] == t[k];
    assert t[k] == s[|s| - |t| + k];
  }

  predicate NoDigit(s: string) {
    forall x :: x in s ==> !IsDigit(x)
  }

  lemma NoDigitRemove(s: string, c: char)
    requires NoDigit(s)
    ensures NoDigit(Remove(s, c))
  {
    forall x | x in Remove(s, c) ensures !IsDigit(x) {
      RemoveFrom(s, c, x);
    }
  }

  lemma NoDigitStrip(s: string)
    requires NoDigit(s)
    ensures NoDigit(Strip(s))
  {
    forall x | x in Strip(s) ensures !IsDigit(x) {
      StripFrom(s, x);
    }
  }

  lemma NoDigitUnsigned(t: string)
    requires NoDigit(t)
    ensures ParseUnsigned(t) == None
  {
    if '.' in t {
      var k := IndexOf(t, '.');
      if k > 0 {
        assert t[..k][0] == t[0];
      }
      if k + 1 < |t| {
        assert t[k + 1..][0] == t[k + 1];
      }
    } else if t != [] {
      assert !IsDigit(t[0]);
    }
  }

  lemma NoDigitDecimal(t: string)
    requires NoDigit(t)
    ensures ParseDecimal(t) == None
  {
    if t != [] && (t[0] == '-' || t[0] == '+') {
      assert NoDigit(t[1..]) by {
        forall x | x in t[1..] ensures x in t {
        }
      }
      NoDigitUnsigned(t[1..]);
    } else {
      NoDigitUnsigned(t);
    }
  }

  /** Text without a digit strips to text without a digit, which no
      signed-integer reading accepts. */
  lemma NoDigitSigned(s: string)
    ensures NoDigit(s) ==> ParseSigned(Strip(s)) == None
  {
    if NoDigit(s) {
      var t := Strip(s);
      NoDigitStrip(s);
      var u := Unsigned(t);
      if u != [] {
        assert u[0] in t;
      }
    }
  }

  /** Text without a digit keeps none once `$` and `,` are removed and it is
      stripped, so it never reads as a decimal. */
  lemma NoDigitCleaned(s: string)
    ensures NoDigit(s) ==> ParseDecimal(Strip(Remove(Remove(s, '$'), ','))) == None
  {
    if NoDigit(s) {
      NoDigitRemove(s, '$');
      NoDigitRemove(Remove(s, '$'), ',');
      NoDigitStrip(Remove(Remove(s, '$'), ','));
      NoDigitDecimal(Strip(Remove(Remove(s, '$'), ',')));
    }
  }

  /** A non-empty digit run holds no separator, is its own strip, and reads
      as its value up to the digit limit. */
  lemma DigitsRead(s: string)
    ensures s != [] && AllDigits(s) ==>
              && !HasSeparator(s)
              && ParseSigned(Strip(s)) == if |s| <= MAX_STR_DIGITS then Some(DigitsValue(s) as int) else None
  {
    if s != [] && AllDigits(s) {
      assert IsDigit(s[0]) && IsDigit(s[|s| - 1]);
      DigitsNoSeparator(s);
      StripUnpadded(s);
      assert Unsigned(s) == s;
    }
  }

  /** An unsigned decimal is never negative. */
  lemma UnsignedNonNegative(t: string)
    ensures ParseUnsigned(t).Some? ==> ParseUnsigned(t).value >= 0.0
  {
  }

  /** A negative decimal was written with a leading minus, which came from
      the text before cleaning. */
  lemma NegativeHasMinus(s: string)
    ensures var r := ParseDecimal(Strip(Remove(Remove(s, '$'), ',')));
            r.Some? && r.value < 0.0 ==> '-' in s
  {
    var t := Strip(Remove(Remove(s, '$'), ','));
    var r := ParseDecimal(t);
    if r.Some? && r.value < 0.0 {
      UnsignedNonNegative(t);
      if t != [] && (t[0] == '-' || t[0] == '+') {
        UnsignedNonNegative(t[1..]);
        assert t[0] == '-';
        StripFrom(Remove(Remove(s, '$'), ','), '-');
        RemoveFrom(Remove(s, '$'), ',', '-');
        RemoveFrom(s, '$', '-');
      }
    }
  }

  lemma DropLeading(rest: string, c: char)
    requires c !in rest
    ensures Remove([c] + rest, c) == rest
  {
    assert ([c] + rest)[1..] == rest;
    RemoveAbsent(rest, c);
  }

  lemma DropJoin(a: string, b: string, c: char)
    requires c !in a && c !in b
    ensures Remove(a + ([c] + b), c) == a + b
  {
    RemoveConcat(a, [c] + b, c);
    RemoveAbsent(a, c);
    DropLeading(b, c);
  }

  /** A run of digits reads as its value once stripped. */
  lemma ReadDigits(t: string)
    requires t != [] && AllDigits(t)
    ensures ParseDecimal(Strip(t)) == Some(DigitsValue(t) as real)
  {
    assert IsDigit(t[0]) && IsDigit(t[|t| - 1]);
    StripUnpadded(t);
    assert '.' !in t;
  }

  lemma DigitsJoin(a: string, b: string)
    requires AllDigits(a) && AllDigits(b)
    ensures AllDigits(a + b) && '$' !in a && ',' !in a && '$' !in b && ',' !in b
  {
    assert forall i :: 0 <= i < |a| ==> IsDigit(a[i]);
    assert forall i :: 0 <= i < |b| ==> IsDigit(b[i]);
    forall i | 0 <= i < |a + b| ensures IsDigit((a + b)[i]) {
      if i < |a| { assert (a + b)[i] == a[i]; } else { assert (a + b)[i] == b[i - |a|]; }
    }
  }

  /** A price with a currency sign and a thousands separator, such as
      "$12,345", reads as the number its digits spell. */
  lemma PriceWithSymbols(a: string, b: string)
    requires a != [] && b != [] && AllDigits(a) && AllDigits(b)
    ensures ParseFloat(Some("$" + a + "," + b)) == Some(DigitsValue(a + b) as real)
  {
    var joined := a + ([','] + b);
    assert "$" + a + "," + b == ['$'] + joined;
    DigitsJoin(a, b);
    assert '$' !in joined;
    DropLeading(joined, '$');
    DropJoin(a, b, ',');
    ReadDigits(a + b);
  }
}
