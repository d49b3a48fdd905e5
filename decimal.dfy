/** Decimal text for non-negative integers, as JavaScript prints them in a
    template literal (`${n}` for an integer below 10^21) and as
    `parseInt(text, 10)` reads them back. */
module Decimal {
  import opened Common

  predicate IsDigit(c: char) {
    '0' <= c <= '9'
  }

  predicate AllDigits(s: string) {
    forall k :: 0 <= k < |s| ==> IsDigit(s[k])
  }

  function DigitChar(d: nat): (c: char)
    requires d < 10
    ensures IsDigit(c)
  {
    ('0' as int + d) as char
  }

  function DigitValue(c: char): (d: nat)
    requires IsDigit(c)
    ensures d < 10
  {
    c as int - '0' as int
  }

  /** The decimal representation of `n`, without leading zeros. */
  function NatToString(n: nat): (s: string)
    ensures |s| >= 1 && AllDigits(s)
    ensures |s| > 1 ==> s[0] != '0'
  {
    if n < 10 then [DigitChar(n)] else NatToString(n / 10) + [DigitChar(n % 10)]
  }

  /** The number a string of digits denotes. */
  function DigitsValue(s: string): nat
    requires AllDigits(s)
  {
    if s == [] then 0 else DigitsValue(s[..|s| - 1]) * 10 + DigitValue(s[|s| - 1])
  }

  /** Reading a printed number gives the number back. */
  lemma {:induction false} DigitsValueOfNatToString(n: nat)
    ensures DigitsValue(NatToString(n)) == n
  {
    if n >= 10 {
      DigitsValueOfNatToString(n / 10);
      var s := NatToString(n);
      assert s[..|s| - 1] == NatToString(n / 10);
    }
  }

  /** Printing is injective: different numbers have different texts. */
  lemma NatToStringInjective(m: nat, n: nat)
    requires NatToString(m) == NatToString(n)
    ensures m == n
  {
    DigitsValueOfNatToString(m);
    DigitsValueOfNatToString(n);
  }

  /** The longest prefix of `s` made of digits. */
  function LeadingDigits(s: string): (r: string)
    ensures StartsWith(s, r) && AllDigits(r)
    ensures |r| == |s| || !IsDigit(s[|r|])
  {
    if s != [] && IsDigit(s[0]) then
      var r := [s[0]] + LeadingDigits(s[1..]);
      assert s[..|r|] == [s[0]] + s[1..][..|r| - 1];
      r
    else []
  }

  /** JavaScript `parseInt(s, 10)`: skip leading whitespace, read an optional
      sign, then the longest run of digits; `None` stands for NaN (no digit
      at all). */
  function ParseInt(s: string): (r: Option<int>)
    ensures TrimStart(s) == [] ==> r.None?
    ensures r.Some? && r.value < 0 ==> TrimStart(s)[0] == '-'
  {
    var t := TrimStart(s);
    var neg := t != [] && t[0] == '-';
    var body := if t != [] && (t[0] == '-' || t[0] == '+') then t[1..] else t;
    var ds := LeadingDigits(body);
    if ds == [] then None
    else
      var v: int := DigitsValue(ds);
      Some(if neg then -v else v)
  }

  /** `parseInt` reads back any printed non-negative integer. */
  lemma ParseIntOfNatToString(n: nat)
    ensures ParseInt(NatToString(n)) == Some(n)
  {
    var s := NatToString(n);
    assert TrimStart(s) == s;
    LeadingDigitsOfAllDigits(s);
    DigitsValueOfNatToString(n);
  }

  /** `parseInt` skips leading whitespace, reads one sign and stops at the
      first non-digit: `" -12px"` reads as -12, `"+7"` as 7, `"10MB"` as 10. */
  lemma ParseIntOfSignedPrefix(ws: string, sign: string, ds: string, rest: string)
    requires AllSpace(ws)
    requires sign == "" || sign == "-" || sign == "+"
    requires ds != "" && AllDigits(ds)
    requires rest == [] || !IsDigit(rest[0])
    ensures ParseInt(ws + sign + ds + rest) ==
              Some(if sign == "-" then -(DigitsValue(ds) as int) else DigitsValue(ds))
  {
    var body := ds + rest;
    var t := sign + body;
    assert ws + sign + ds + rest == ws + t;
    assert IsDigit(body[0]);
    TrimStartSkipsSpace(ws, t);
    LeadingDigitsStopAtNonDigit(ds, rest);
    if sign == "" {
      assert t == body;
    } else {
      assert t == [sign[0]] + body;
      assert t[1..] == body;
    }
    ParseIntOfTrimmed(ws + t, t, sign == "-", body, ds);
  }

  /** `ParseInt` once the whitespace, the sign and the digits are known. */
  lemma ParseIntOfTrimmed(s: string, t: string, neg: bool, body: string, ds: string)
    requires TrimStart(s) == t
    requires neg <==> t != [] && t[0] == '-'
    requires body == if t != [] && (t[0] == '-' || t[0] == '+') then t[1..] else t
    requires LeadingDigits(body) == ds && ds != []
    ensures ParseInt(s) == Some(if neg then -(DigitsValue(ds) as int) else DigitsValue(ds))
  {
  }

  /** Without a digit after the whitespace and the sign, `parseInt` is NaN:
      `"abc"`, `"-x"` and `"+"` all read as `None`. */
  lemma ParseIntOfNoDigits(ws: string, sign: string, rest: string)
    requires AllSpace(ws)
    requires sign == "" || sign == "-" || sign == "+"
    requires rest == [] || !IsDigit(rest[0])
    requires sign == "" && rest != [] ==> !IsJsSpace(rest[0]) && rest[0] != '-' && rest[0] != '+'
    ensures ParseInt(ws + sign + rest) == None
  {
    var t := sign + rest;
    assert ws + sign + rest == ws + t;
    TrimStartSkipsSpace(ws, t);
    LeadingDigitsStopAtNonDigit([], rest);
    assert [] + rest == rest;
    if sign == "" {
      assert t == rest;
    } else {
      assert t == [sign[0]] + rest;
      assert t[1..] == rest;
    }
    ParseIntNoneOfTrimmed(ws + t, t, rest);
  }

  lemma ParseIntNoneOfTrimmed(s: string, t: string, body: string)
    requires TrimStart(s) == t
    requires body == if t != [] && (t[0] == '-' || t[0] == '+') then t[1..] else t
    requires LeadingDigits(body) == []
    ensures ParseInt(s) == None
  {
  }

  /** Leading whitespace is all `TrimStart` removes. */
  lemma {:induction false} TrimStartSkipsSpace(ws: string, t: string)
    requires AllSpace(ws)
    requires t == [] || !IsJsSpace(t[0])
    ensures TrimStart(ws + t) == t
    decreases |ws|
  {
    if ws == [] {
      assert ws + t == t;
    } else {
      assert (ws + t)[1..] == ws[1..] + t;
      TrimStartSkipsSpace(ws[1..], t);
    }
  }

  /** On a string of digits, the leading digits are the whole string. */
  lemma {:induction false} LeadingDigitsOfAllDigits(s: string)
    requires AllDigits(s)
    ensures LeadingDigits(s) == s
  {
    if s != [] {
      LeadingDigitsOfAllDigits(s[1..]);
    }
  }

  /** Whatever follows the digits does not change what `parseInt` reads. */
  lemma {:induction false} LeadingDigitsStopAtNonDigit(ds: string, rest: string)
    requires AllDigits(ds)
    requires rest == [] || !IsDigit(rest[0])
    ensures LeadingDigits(ds + rest) == ds
  {
    if ds != [] {
      assert (ds + rest)[1..] == ds[1..] + rest;
      LeadingDigitsStopAtNonDigit(ds[1..], rest);
    } else {
      assert ds + rest == rest;
    }
  }
}
