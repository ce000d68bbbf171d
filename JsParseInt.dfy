/**
 * The global JavaScript function `parseInt(text)` called without a radix, with
 * `NaN` modelled as `None`: skip leading white space, read an optional sign,
 * switch to radix 16 after a `0x`/`0X` prefix, then take the longest run of
 * digits; no digit at all gives `NaN`.
 */
module JsParseInt {
  import opened Wrappers

  /** WhiteSpace and LineTerminator code points, which parseInt skips at the start. */
  predicate IsWhiteSpace(ch: char)
  {
    ch == '\t' || ch == '\n' || ch == '\U{000B}' || ch == '\U{000C}' || ch == '\r' ||
    ch == ' ' || ch == '\U{00A0}' || ch == '\U{1680}' ||
    ('\U{2000}' <= ch <= '\U{200A}') ||
    ch == '\U{2028}' || ch == '\U{2029}' || ch == '\U{202F}' || ch == '\U{205F}' ||
    ch == '\U{3000}' || ch == '\U{FEFF}'
  }

  predicate IsDecimalDigit(ch: char)
  {
    '0' <= ch <= '9'
  }

  /** Whether `ch` is a digit in radix 10 or 16. */
  predicate IsDigit(ch: char, radix: nat)
  {
    IsDecimalDigit(ch) ||
    (radix == 16 && (('a' <= ch <= 'f') || ('A' <= ch <= 'F')))
  }

  function DigitValue(ch: char): nat
  {
    if IsDecimalDigit(ch) then ch as nat - '0' as nat
    else if 'a' <= ch <= 'f' then ch as nat - 'a' as nat + 10
    else if 'A' <= ch <= 'F' then ch as nat - 'A' as nat + 10
    else 0
  }

  /** The text after its leading white space. */
  function TrimStart(s: string): string
  {
    if s != [] && IsWhiteSpace(s[0]) then TrimStart(s[1..]) else s
  }

  /** The longest prefix of `s` made of digits of the radix. */
  function LeadingDigits(s: string, radix: nat): string
  {
    if s != [] && IsDigit(s[0], radix) then [s[0]] + LeadingDigits(s[1..], radix) else []
  }

  /** The value of a run of digits, most significant first. */
  function DigitsValue(digits: string, radix: nat): nat
  {
    if digits == [] then 0
    else DigitsValue(digits[..|digits| - 1], radix) * radix + DigitValue(digits[|digits| - 1])
  }

  /** `parseInt(s)`, with `None` for `NaN`; JavaScript's `-0` becomes `0`. */
  function ParseInt(s: string): (r: Option<int>)
    ensures TrimStart(s) == [] ==> r.None?
    ensures r.Some? && r.value < 0 ==> TrimStart(s)[0] == '-'
  {
    var t := TrimStart(s);
    var negative := t != [] && t[0] == '-';
    var unsigned := if t != [] && (t[0] == '-' || t[0] == '+') then t[1..] else t;
    var hex := |unsigned| >= 2 && unsigned[0] == '0' && (unsigned[1] == 'x' || unsigned[1] == 'X');
    var radix := if hex then 16 else 10;
    var digits := LeadingDigits(if hex then unsigned[2..] else unsigned, radix);
    var magnitude: int := DigitsValue(digits, radix);
    if digits == [] then None
    else if negative then Some(-magnitude)
    else Some(magnitude)
  }

  /** The decimal text of a natural number, as JavaScript prints it. */
  function DecimalString(n: nat): (s: string)
  {
    if n < 10 then [('0' as int + n) as char]
    else DecimalString(n / 10) + [('0' as int + n % 10) as char]
  }

  /** Every decimal rendering starts with a digit, is all digits, and is "0" only for zero. */
  lemma {:induction false} DecimalStringDigits(n: nat)
    ensures |DecimalString(n)| >= 1
    ensures forall k :: 0 <= k < |DecimalString(n)| ==> IsDecimalDigit(DecimalString(n)[k])
    ensures DecimalString(n)[0] == '0' ==> n == 0
    ensures DigitsValue(DecimalString(n), 10) == n
  {
    if n >= 10 {
      DecimalStringDigits(n / 10);
      var s := DecimalString(n);
      assert s[..|s| - 1] == DecimalString(n / 10);
    }
  }

  /** A run of decimal digits is its own leading run. */
  lemma {:induction false} LeadingDigitsOfDigits(d: string, t: string, radix: nat)
    requires forall k :: 0 <= k < |d| ==> IsDecimalDigit(d[k])
    requires t == [] || !IsDigit(t[0], radix)
    ensures LeadingDigits(d + t, radix) == d
    decreases |d|
  {
    if d == [] {
      assert d + t == t;
    } else {
      assert (d + t)[1..] == d[1..] + t;
      LeadingDigitsOfDigits(d[1..], t, radix);
      assert d == [d[0]] + d[1..];
    }
  }

  /** parseInt reads back what the decimal rendering of an integer writes. */
  lemma ParseIntDecimalRoundTrip(n: int)
    ensures n >= 0 ==> ParseInt(DecimalString(n)) == Some(n)
    ensures n < 0 ==> ParseInt("-" + DecimalString(-n)) == Some(n)
  {
    var m := if n >= 0 then n else -n;
    var d := DecimalString(m);
    DecimalStringDigits(m);
    LeadingDigitsOfDigits(d, [], 10);
    assert d + [] == d;
    if n < 0 {
      var s := "-" + d;
      assert s[1..] == d;
      assert TrimStart(s) == s;
    } else {
      assert TrimStart(d) == d;
    }
  }

  /** Text starting with a decimal digit and no `0x` prefix is read as a decimal number. */
  lemma ParseIntOfDecimalText(s: string)
    requires s != [] && IsDecimalDigit(s[0])
    requires |s| >= 2 && s[0] == '0' ==> s[1] != 'x' && s[1] != 'X'
    ensures LeadingDigits(s, 10) != []
    ensures ParseInt(s) == Some(DigitsValue(LeadingDigits(s, 10), 10))
  {
    assert IsDigit(s[0], 10);
    assert s[0] != '-' && s[0] != '+';
    assert TrimStart(s) == s by {
      assert !IsWhiteSpace(s[0]);
    }
    var hex := |s| >= 2 && s[0] == '0' && (s[1] == 'x' || s[1] == 'X');
    assert !hex;
    assert LeadingDigits(s, 10) != [];
  }

  /** Text after the digits is ignored: `parseInt("755abc")` is 755. */
  lemma ParseIntIgnoresTrailingText(d: string, t: string)
    requires |d| >= 1
    requires forall k :: 0 <= k < |d| ==> IsDecimalDigit(d[k])
    requires t == [] || !IsDecimalDigit(t[0])
    requires t != [] && d == "0" ==> t[0] != 'x' && t[0] != 'X'
    ensures ParseInt(d + t) == Some(DigitsValue(d, 10))
    ensures ParseInt(d + t) == ParseInt(d)
  {
    var s := d + t;
    assert s[0] == d[0];
    assert |s| >= 2 ==> s[1] == if |d| >= 2 then d[1] else t[0];
    ParseIntOfDecimalText(s);
    ParseIntOfDecimalText(d);
    LeadingDigitsOfDigits(d, t, 10);
    LeadingDigitsOfDigits(d, [], 10);
    assert d + [] == d;
  }

  /** Leading white space does not change the result. */
  lemma {:induction false} ParseIntSkipsWhiteSpace(w: string, s: string)
    requires forall k :: 0 <= k < |w| ==> IsWhiteSpace(w[k])
    ensures ParseInt(w + s) == ParseInt(s)
    decreases |w|
  {
    if w != [] {
      assert (w + s)[1..] == w[1..] + s;
      ParseIntSkipsWhiteSpace(w[1..], s);
      assert TrimStart(w + s) == TrimStart(w[1..] + s);
    } else {
      assert w + s == s;
    }
  }

  /** With no digit after the optional sign, the result is `NaN`. */
  lemma ParseIntWithoutDigits(sign: string, s: string)
    requires sign == "" || sign == "-" || sign == "+"
    requires sign == "" ==> s == [] || (!IsDecimalDigit(s[0]) && !IsWhiteSpace(s[0]) && s[0] != '-' && s[0] != '+')
    requires sign != "" ==> s == [] || !IsDecimalDigit(s[0])
    ensures ParseInt(sign + s) == None
  {
    var t := sign + s;
    if sign == "" {
      assert t == s;
    } else {
      assert t[0] == sign[0];
      assert t[1..] == s;
    }
    assert TrimStart(t) == t;
  }

  /** A letter after the digits ends the number even when it is an `x`: `parseInt("755x")` is 755. */
  lemma ParseIntStopsAtX(s: string)
    requires s == "755x"
    ensures ParseInt(s) == Some(755)
  {
    assert s == "755" + "x";
    ParseIntIgnoresTrailingText("755", "x");
    assert DigitsValue("755", 10) == 755 by {
      assert "755"[..2] == "75" && "75"[..1] == "7" && "7"[..0] == [];
    }
  }
}
