/** The string primitives the forms and cards rely on: `trim`, `toLowerCase`, `String(n)` and
    `parseInt(s)` in base 10. */
module Text {
  import opened Common

  /** The white space `String.prototype.trim` removes (ASCII white space, NBSP and BOM). */
  predicate IsSpace(c: char)
  {
    c == ' ' || c == '\t' || c == '\n' || c == '\r' || c == '\U{000B}' || c == '\U{000C}'
    || c == '\U{00A0}' || c == '\U{FEFF}'
  }

  /** `s.trim()` would be the empty string: `s` is empty or all white space. */
  ghost predicate IsBlank(s: string)
  {
    forall i :: 0 <= i < |s| ==> IsSpace(s[i])
  }

  /** `s.trimStart()`. */
  function TrimStart(s: string): (r: string)
    ensures |r| <= |s| && r == s[|s| - |r|..]
    ensures |r| > 0 ==> !IsSpace(r[0])
    ensures forall i :: 0 <= i < |s| - |r| ==> IsSpace(s[i])
  {
    if |s| > 0 && IsSpace(s[0]) then TrimStart(s[1..]) else s
  }

  /** `s.trimEnd()`. */
  function TrimEnd(s: string): (r: string)
    ensures |r| <= |s| && r == s[..|r|]
    ensures |r| > 0 ==> !IsSpace(r[|r| - 1])
    ensures forall i :: |r| <= i < |s| ==> IsSpace(s[i])
  {
    if |s| > 0 && IsSpace(s[|s| - 1]) then TrimEnd(s[..|s| - 1]) else s
  }

  /** `s.trim()`. */
  function Trim(s: string): string
  {
    TrimEnd(TrimStart(s))
  }

  /** The forms' `!value.trim()` test: trimming leaves nothing exactly when the value is blank. */
  lemma {:induction false} TrimEmptyIffBlank(s: string)
    ensures Trim(s) == "" <==> IsBlank(s)
  {
    var t := TrimStart(s);
    if |t| > 0 {
      assert s[|s| - |t|] == t[0];
      assert |TrimEnd(t)| > 0;
    }
  }

  /** `c.toLowerCase()` on the ASCII letters; every other character is left as it is. */
  function LowerChar(c: char): char
  {
    if 'A' <= c <= 'Z' then (c as int + 32) as char else c
  }

  /** `s.toLowerCase()`, character by character. */
  function ToLower(s: string): (r: string)
    ensures |r| == |s|
  {
    seq(|s|, i requires 0 <= i < |s| => LowerChar(s[i]))
  }

  /** Lower-casing twice is lower-casing once. */
  lemma {:induction false} ToLowerIdempotent(s: string)
    ensures ToLower(ToLower(s)) == ToLower(s)
  {
    forall i | 0 <= i < |s| ensures LowerChar(LowerChar(s[i])) == LowerChar(s[i]) {
    }
  }

  predicate IsDigit(c: char)
  {
    '0' <= c <= '9'
  }

  predicate AllDigits(s: string)
  {
    forall i :: 0 <= i < |s| ==> IsDigit(s[i])
  }

  function DigitChar(d: nat): (c: char)
    requires d < 10
    ensures IsDigit(c)
  {
    ('0' as int + d) as char
  }

  function DigitValue(c: char): nat
    requires IsDigit(c)
  {
    c as int - '0' as int
  }

  /** `String(n)` for a non-negative integer: its decimal digits, without leading zeros. */
  function NatToString(n: nat): (r: string)
    ensures |r| > 0 && AllDigits(r)
    ensures |r| > 1 ==> r[0] != '0'
  {
    if n < 10 then [DigitChar(n)] else NatToString(n / 10) + [DigitChar(n % 10)]
  }

  /** `String(i)` (also `i.toString()`) for any integer. */
  function IntToString(i: int): string
  {
    if i < 0 then "-" + NatToString(-i) else NatToString(i)
  }

  /** The number a run of decimal digits denotes. */
  function DigitsValue(ds: string): nat
    requires AllDigits(ds)
  {
    if |ds| == 0 then 0 else DigitsValue(ds[..|ds| - 1]) * 10 + DigitValue(ds[|ds| - 1])
  }

  /** The longest prefix of `s` made of decimal digits. */
  function LeadingDigits(s: string): (r: string)
    ensures |r| <= |s| && r == s[..|r|] && AllDigits(r)
    ensures |r| < |s| ==> !IsDigit(s[|r|])
  {
    if |s| > 0 && IsDigit(s[0]) then [s[0]] + LeadingDigits(s[1..]) else ""
  }

  /** `parseInt(s)` in base 10: leading white space skipped, an optional sign, then the longest
      run of digits; `None` stands for `NaN` (no digit where one is needed). */
  function ParseInt(s: string): Option<int>
  {
    var t := TrimStart(s);
    var signed := |t| > 0 && (t[0] == '-' || t[0] == '+');
    var ds := LeadingDigits(if signed then t[1..] else t);
    if |ds| == 0 then None
    else
      var v: int := DigitsValue(ds);
      Some(if signed && t[0] == '-' then -v else v)
  }

  /** Reading back the digits `String(n)` writes gives `n`. */
  lemma {:induction false} NatToStringValue(n: nat)
    ensures DigitsValue(NatToString(n)) == n
  {
    if n >= 10 {
      NatToStringValue(n / 10);
      var r := NatToString(n);
      assert r[..|r| - 1] == NatToString(n / 10);
    }
  }

  /** The digit run at the front of `ds + rest` is `ds` when `rest` does not start with a digit. */
  lemma {:induction false} LeadingDigitsOf(ds: string, rest: string)
    requires AllDigits(ds)
    requires |rest| > 0 ==> !IsDigit(rest[0])
    ensures LeadingDigits(ds + rest) == ds
  {
    if |ds| > 0 {
      assert (ds + rest)[1..] == ds[1..] + rest;
      LeadingDigitsOf(ds[1..], rest);
    } else {
      assert ds + rest == rest;
    }
  }

  /** `parseInt` of a plain digit string is the number it denotes. */
  lemma {:induction false} ParseIntOfDigits(ds: string)
    requires |ds| > 0 && AllDigits(ds)
    ensures ParseInt(ds) == Some(DigitsValue(ds))
  {
    assert IsDigit(ds[0]);
    assert !IsSpace(ds[0]);
    assert TrimStart(ds) == ds;
    LeadingDigitsOf(ds, "");
    assert ds + "" == ds;
    assert LeadingDigits(ds) == ds;
  }

  /** `parseInt` of a minus sign followed by digits is the negated number. */
  lemma {:induction false} ParseIntOfNegative(ds: string, n: nat)
    requires |ds| > 0 && AllDigits(ds) && DigitsValue(ds) == n
    ensures ParseInt("-" + ds) == Some(-(n as int))
  {
    var t := "-" + ds;
    assert !IsSpace(t[0]);
    assert TrimStart(t) == t;
    assert t[1..] == ds;
    LeadingDigitsOf(ds, "");
    assert ds + "" == ds;
    assert LeadingDigits(ds) == ds;
  }

  /** `parseInt(String(n)) === n` for a non-negative `n`. */
  lemma RoundTripNat(n: nat)
    ensures ParseInt(NatToString(n)) == Some(n)
  {
    NatToStringValue(n);
    ParseIntOfDigits(NatToString(n));
  }

  /** `parseInt(String(-n)) === -n` for a positive `n`. */
  lemma RoundTripNegative(n: nat)
    requires n > 0
    ensures ParseInt("-" + NatToString(n)) == Some(-(n as int))
  {
    var ds := NatToString(n);
    NatToStringValue(n);
    ParseIntOfNegative(ds, n);
  }

  /** `parseInt(String(i)) === i`: the duration a form shows is the duration it submits. */
  lemma ParseIntRoundTrip(i: int)
    ensures ParseInt(IntToString(i)) == Some(i)
  {
    if i < 0 {
      var n: nat := -i;
      assert IntToString(i) == "-" + NatToString(n);
      RoundTripNegative(n);
    } else {
      assert IntToString(i) == NatToString(i);
      RoundTripNat(i);
    }
  }
  /** The text `parseInt` reads a number from: white space skipped, then a digit, or a sign
      followed by a digit. */
  predicate StartsNumber(t: string)
  {
    (|t| > 0 && IsDigit(t[0])) || (|t| > 1 && (t[0] == '-' || t[0] == '+') && IsDigit(t[1]))
  }

  /** `parseInt(s)` is `NaN` exactly when no digit follows the leading white space and an
      optional sign, and it is negative only after a minus sign. */
  lemma ParseIntNaN(s: string)
    ensures ParseInt(s).None? <==> !StartsNumber(TrimStart(s))
    ensures ParseInt(s).Some? && ParseInt(s).value < 0 ==> TrimStart(s)[0] == '-'
  {
    var t := TrimStart(s);
    var signed := |t| > 0 && (t[0] == '-' || t[0] == '+');
    var u := if signed then t[1..] else t;
    var ds := LeadingDigits(u);
    assert |ds| > 0 <==> |u| > 0 && IsDigit(u[0]);
    if signed {
      assert |t| > 0 && !IsDigit(t[0]);
      assert |u| > 0 ==> u[0] == t[1];
    }
  }

  /** A digit string without a leading zero is the text `String(n)` writes for its value. */
  lemma {:induction false} CanonicalDigits(ds: string)
    requires |ds| > 0 && AllDigits(ds) && (|ds| == 1 || ds[0] != '0')
    ensures NatToString(DigitsValue(ds)) == ds
  {
    var n := |ds|;
    if n == 1 {
      assert DigitsValue(ds) == DigitValue(ds[0]);
      assert DigitChar(DigitValue(ds[0])) == ds[0];
    } else {
      var init := ds[..n - 1];
      assert init[0] == ds[0];
      CanonicalDigits(init);
      LeadingDigitPositive(init);
      var v := DigitsValue(ds);
      assert v == DigitsValue(init) * 10 + DigitValue(ds[n - 1]);
      assert v >= 10 && v / 10 == DigitsValue(init) && v % 10 == DigitValue(ds[n - 1]);
      assert DigitChar(DigitValue(ds[n - 1])) == ds[n - 1];
      assert ds == init + [ds[n - 1]];
    }
  }

  /** A digit string that does not start with `0` denotes a positive number. */
  lemma {:induction false} LeadingDigitPositive(ds: string)
    requires |ds| > 0 && AllDigits(ds) && ds[0] != '0'
    ensures DigitsValue(ds) > 0
  {
    if |ds| > 1 {
      var init := ds[..|ds| - 1];
      assert init[0] == ds[0];
      LeadingDigitPositive(init);
    }
  }
}
