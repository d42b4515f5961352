/** `normalize_decimal`: one spelling for every decimal number. */
module Decimal {
  import opened Prelude

  /** Unicode White_Space, which `str::trim` removes. */
  predicate IsSpace(c: char) {
    || ('\t' <= c <= '\r') || c == ' ' || c == '\U{85}' || c == '\U{A0}' || c == '\U{1680}'
    || ('\U{2000}' <= c <= '\U{200A}') || c == '\U{2028}' || c == '\U{2029}' || c == '\U{202F}' || c == '\U{205F}' || c == '\U{3000}'
  }

  function Trim(s: string): string {
    if s != "" && IsSpace(s[0]) then Trim(s[1..])
    else if s != "" && IsSpace(s[|s| - 1]) then Trim(s[..|s| - 1])
    else s
  }

  predicate IsDigit(c: char) {
    '0' <= c <= '9'
  }

  predicate AllDigits(s: string) {
    forall i :: 0 <= i < |s| ==> IsDigit(s[i])
  }

  function TrimZerosLeft(s: string): string {
    if s != "" && s[0] == '0' then TrimZerosLeft(s[1..]) else s
  }

  function TrimZerosRight(s: string): string {
    if s != "" && s[|s| - 1] == '0' then TrimZerosRight(s[..|s| - 1]) else s
  }

  /** Sign and digits of a decimal, before or after its redundant zeros are gone. */
  datatype Digital = Digital(negative: bool, integer: string, fraction: string)

  /** `strip_prefix` */
  function Strip(s: string, c: char): Option<string> {
    if s != "" && s[0] == c then Some(s[1..]) else None
  }

  function Parse(value: string): Option<Digital> {
    var trimmed := Trim(value);
    var negative := Strip(trimmed, '-').Some?;
    var unsigned := if negative then trimmed[1..] else trimmed;
    var digits := if Strip(unsigned, '+').Some? then unsigned[1..] else unsigned;
    var (integer, rest) := Cut(digits, '.');
    var fraction := if rest.Some? then rest.value else "";
    if (integer == "" && fraction == "") || !AllDigits(integer) || !AllDigits(fraction) then None
    else Some(Digital(negative, integer, fraction))
  }

  /** Without leading zeros of the integer, trailing zeros of the fraction, and the sign of zero. */
  function Reduce(d: Digital): Digital {
    var integer, fraction := TrimZerosLeft(d.integer), TrimZerosRight(d.fraction);
    var shown := if integer == "" then "0" else integer;
    Digital(d.negative && (shown != "0" || fraction != ""), shown, fraction)
  }

  function Render(d: Digital): string {
    (if d.negative then "-" else "") + d.integer + if d.fraction == "" then "" else "." + d.fraction
  }

  function Normalize(value: string): Option<string> {
    var d := Parse(value);
    if d.None? then None else Some(Render(Reduce(d.value)))
  }

  // ----- What a decimal denotes -----

  function DigitValue(c: char): real
    requires IsDigit(c)
  {
    (c as int - '0' as int) as real
  }

  function IntegerValue(s: string): real
    requires AllDigits(s)
  {
    if s == "" then 0.0 else 10.0 * IntegerValue(s[..|s| - 1]) + DigitValue(s[|s| - 1])
  }

  function FractionValue(s: string): real
    requires AllDigits(s)
  {
    if s == "" then 0.0 else (DigitValue(s[0]) + FractionValue(s[1..])) / 10.0
  }

  predicate Valid(d: Digital) {
    AllDigits(d.integer) && AllDigits(d.fraction) && (d.integer != "" || d.fraction != "")
  }

  function Magnitude(d: Digital): real
    requires Valid(d)
  {
    IntegerValue(d.integer) + FractionValue(d.fraction)
  }

  function ValueOf(d: Digital): real
    requires Valid(d)
  {
    if d.negative then -Magnitude(d) else Magnitude(d)
  }

  lemma {:induction false} ParseValid(value: string)
    ensures Parse(value).Some? ==> Valid(Parse(value).value)
  {
  }

  /** The rational number an accepted string denotes. */
  function Denoted(value: string): real
    requires Parse(value).Some?
  {
    ParseValid(value);
    ValueOf(Parse(value).value)
  }

  // ----- Redundant zeros -----

  predicate NoLeadingZero(s: string) {
    s != "" ==> s[0] != '0'
  }

  predicate NoTrailingZero(s: string) {
    s != "" ==> s[|s| - 1] != '0'
  }

  /** The one spelling: "0" or no leading zero, no trailing zero, no negative zero. */
  predicate Canonical(d: Digital) {
    && AllDigits(d.integer) && AllDigits(d.fraction) && d.integer != ""
    && (d.integer == "0" || NoLeadingZero(d.integer)) && NoTrailingZero(d.fraction)
    && (d.negative ==> d.integer != "0" || d.fraction != "")
  }

  lemma {:induction false} LeadingZero(s: string)
    requires AllDigits(s) && s != "" && s[0] == '0'
    ensures AllDigits(s[1..]) && IntegerValue(s[1..]) == IntegerValue(s)
  {
    if |s| > 1 {
      assert s[1..][..|s| - 2] == s[..|s| - 1][1..];
      LeadingZero(s[..|s| - 1]);
    }
  }

  lemma {:induction false} TrimLeftKeeps(s: string)
    requires AllDigits(s)
    ensures var t := TrimZerosLeft(s); AllDigits(t) && NoLeadingZero(t) && IntegerValue(t) == IntegerValue(s)
  {
    if s != "" && s[0] == '0' {
      LeadingZero(s);
      TrimLeftKeeps(s[1..]);
    }
  }

  lemma {:induction false} TrailingZero(s: string)
    requires AllDigits(s) && s != "" && s[|s| - 1] == '0'
    ensures AllDigits(s[..|s| - 1]) && FractionValue(s[..|s| - 1]) == FractionValue(s)
  {
    if |s| > 1 {
      assert s[..|s| - 1][1..] == s[1..][..|s| - 2];
      TrailingZero(s[1..]);
    }
  }

  lemma {:induction false} TrimRightKeeps(s: string)
    requires AllDigits(s)
    ensures var t := TrimZerosRight(s); AllDigits(t) && NoTrailingZero(t) && FractionValue(t) == FractionValue(s)
  {
    if s != "" && s[|s| - 1] == '0' {
      TrailingZero(s);
      TrimRightKeeps(s[..|s| - 1]);
    }
  }

  /** Reducing keeps the number and reaches the one spelling. */
  lemma {:induction false} ReduceKeeps(d: Digital)
    requires Valid(d)
    ensures Canonical(Reduce(d)) && Valid(Reduce(d)) && ValueOf(Reduce(d)) == ValueOf(d)
  {
    TrimLeftKeeps(d.integer);
    TrimRightKeeps(d.fraction);
    assert IntegerValue("0") == 10.0 * IntegerValue("") + DigitValue('0') by { assert "0"[..0] == ""; }
  }

  // ----- One spelling per number -----

  lemma {:induction false} IntegerIsWhole(s: string) returns (n: nat)
    requires AllDigits(s)
    ensures IntegerValue(s) == n as real
    ensures s != "" && s[0] != '0' ==> n > 0
  {
    if s == "" {
      n := 0;
    } else {
      var m := IntegerIsWhole(s[..|s| - 1]);
      n := 10 * m + (s[|s| - 1] as int - '0' as int);
      assert s[..|s| - 1] != "" ==> s[..|s| - 1][0] == s[0];
    }
  }

  lemma {:induction false} FractionBelowOne(s: string)
    requires AllDigits(s)
    ensures 0.0 <= FractionValue(s) < 1.0
    ensures s != "" && s[|s| - 1] != '0' ==> FractionValue(s) > 0.0
  {
    if s != "" {
      FractionBelowOne(s[1..]);
      assert 0.0 <= DigitValue(s[0]) <= 9.0;
      assert |s| > 1 ==> s[1..][|s| - 2] == s[|s| - 1];
    }
  }

  lemma {:induction false} SameDigit(m: nat, a: nat, n: nat, b: nat)
    requires 10 * m + a == 10 * n + b && a < 10 && b < 10
    ensures m == n && a == b
  {
  }

  lemma {:induction false} IntegerUnique(s: string, t: string)
    requires AllDigits(s) && AllDigits(t) && NoLeadingZero(s) && NoLeadingZero(t) && IntegerValue(s) == IntegerValue(t)
    ensures s == t
  {
    if s == "" || t == "" {
      var m := IntegerIsWhole(s);
      var n := IntegerIsWhole(t);
    } else {
      var s', t' := s[..|s| - 1], t[..|t| - 1];
      var m := IntegerIsWhole(s');
      var n := IntegerIsWhole(t');
      var a, b := s[|s| - 1] as int - '0' as int, t[|t| - 1] as int - '0' as int;
      assert IntegerValue(s) == (10 * m + a) as real && IntegerValue(t) == (10 * n + b) as real;
      SameDigit(m, a, n, b);
      assert s' != "" ==> s'[0] == s[0];
      assert t' != "" ==> t'[0] == t[0];
      IntegerUnique(s', t');
      assert s == s' + [s[|s| - 1]] && t == t' + [t[|t| - 1]];
    }
  }

  /** Whole parts and fractions of equal sums agree. */
  lemma {:induction false} SplitUnique(m: int, x: real, n: int, y: real)
    requires 0.0 <= x < 1.0 && 0.0 <= y < 1.0 && m as real + x == n as real + y
    ensures m == n && x == y
  {
    assert (m - n) as real == y - x;
    assert -1.0 < (m - n) as real < 1.0;
  }

  lemma {:induction false} FractionUnique(s: string, t: string)
    requires AllDigits(s) && AllDigits(t) && NoTrailingZero(s) && NoTrailingZero(t) && FractionValue(s) == FractionValue(t)
    ensures s == t
  {
    FractionBelowOne(s);
    FractionBelowOne(t);
    if s != "" && t != "" {
      FractionBelowOne(s[1..]);
      FractionBelowOne(t[1..]);
      var a, b := s[0] as int - '0' as int, t[0] as int - '0' as int;
      SplitUnique(a, FractionValue(s[1..]), b, FractionValue(t[1..]));
      FractionUnique(s[1..], t[1..]);
      assert s == [s[0]] + s[1..] && t == [t[0]] + t[1..];
    }
  }

  lemma {:induction false} ZeroMagnitude(d: Digital)
    requires Canonical(d)
    ensures Magnitude(d) >= 0.0 && (Magnitude(d) == 0.0 <==> d.integer == "0" && d.fraction == "")
  {
    var n := IntegerIsWhole(d.integer);
    FractionBelowOne(d.fraction);
    assert IntegerValue("0") == 0.0 by { assert "0"[..0] == ""; }
  }

  lemma {:induction false} IntegerPartUnique(s: string, t: string)
    requires AllDigits(s) && AllDigits(t) && s != "" && t != ""
    requires (s == "0" || NoLeadingZero(s)) && (t == "0" || NoLeadingZero(t)) && IntegerValue(s) == IntegerValue(t)
    ensures s == t
  {
    assert IntegerValue("0") == 0.0 by { assert "0"[..0] == ""; }
    var m := IntegerIsWhole(s);
    var n := IntegerIsWhole(t);
    if s != "0" && t != "0" {
      IntegerUnique(s, t);
    }
  }

  /** Two canonical spellings of one number are the same spelling. */
  lemma {:induction false} CanonicalUnique(a: Digital, b: Digital)
    requires Canonical(a) && Canonical(b) && ValueOf(a) == ValueOf(b)
    ensures a == b
  {
    ZeroMagnitude(a);
    ZeroMagnitude(b);
    assert Magnitude(a) == Magnitude(b);
    var m := IntegerIsWhole(a.integer);
    var n := IntegerIsWhole(b.integer);
    FractionBelowOne(a.fraction);
    FractionBelowOne(b.fraction);
    SplitUnique(m, FractionValue(a.fraction), n, FractionValue(b.fraction));
    IntegerPartUnique(a.integer, b.integer);
    FractionUnique(a.fraction, b.fraction);
  }

  // ----- Reading back what was written -----

  lemma {:induction false} CutDigits(s: string, t: string)
    requires AllDigits(s)
    ensures Cut(s, '.') == (s, None) && Cut(s + "." + t, '.') == (s, Some(t))
  {
    if s == "" {
      assert s + "." + t == "." + t;
      assert ("." + t)[1..] == t;
    } else {
      assert (s + "." + t)[1..] == s[1..] + "." + t;
      CutDigits(s[1..], t);
      assert s == [s[0]] + s[1..];
    }
  }

  lemma {:induction false} TrimRendered(s: string)
    requires s != "" && !IsSpace(s[0]) && !IsSpace(s[|s| - 1])
    ensures Trim(s) == s
  {
  }

  function Body(d: Digital): string {
    d.integer + if d.fraction == "" then "" else "." + d.fraction
  }

  lemma {:induction false} CutBody(d: Digital)
    requires Canonical(d)
    ensures Cut(Body(d), '.') == (d.integer, if d.fraction == "" then None else Some(d.fraction))
    ensures Body(d) != "" && IsDigit(Body(d)[0]) && IsDigit(Body(d)[|Body(d)| - 1])
  {
    CutDigits(d.integer, d.fraction);
    if d.fraction == "" {
      assert Body(d) == d.integer;
    } else {
      assert Body(d) == d.integer + "." + d.fraction;
      assert Body(d)[|Body(d)| - 1] == d.fraction[|d.fraction| - 1];
    }
    assert Body(d)[0] == d.integer[0];
  }

  lemma {:induction false} RenderTrimmed(d: Digital)
    requires Canonical(d)
    ensures Trim(Render(d)) == Render(d) && Render(d) == (if d.negative then "-" else "") + Body(d)
  {
    hide Cut, Trim;
    CutBody(d);
    var s := Render(d);
    assert s == (if d.negative then "-" else "") + Body(d);
    assert s[|s| - 1] == Body(d)[|Body(d)| - 1];
    TrimRendered(s);
  }

  lemma {:induction false} ParseRender(d: Digital)
    requires Canonical(d)
    ensures Parse(Render(d)) == Some(d)
  {
    hide Cut, Trim, Render, Body;
    CutBody(d);
    RenderTrimmed(d);
    var s, body := Render(d), Body(d);
    if d.negative {
      assert s == "-" + body && s[1..] == body;
    } else {
      assert s == body;
    }
    assert body[0] != '-' && body[0] != '+';
  }

  // ----- Main results -----

  /** Normalizing keeps the number. */
  lemma {:induction false} NormalizeDenotes(value: string)
    requires Parse(value).Some?
    ensures var t := Normalize(value).value; Parse(t) == Some(Reduce(Parse(value).value)) && Denoted(t) == Denoted(value)
  {
    ParseValid(value);
    ReduceKeeps(Parse(value).value);
    ParseRender(Reduce(Parse(value).value));
  }

  /** Two accepted strings normalize to one string exactly when they denote one number. */
  lemma {:induction false} NormalizeIffSameNumber(a: string, b: string)
    requires Parse(a).Some? && Parse(b).Some?
    ensures Normalize(a) == Normalize(b) <==> Denoted(a) == Denoted(b)
  {
    NormalizeDenotes(a);
    NormalizeDenotes(b);
    if Denoted(a) == Denoted(b) {
      ParseValid(a);
      ParseValid(b);
      ReduceKeeps(Parse(a).value);
      ReduceKeeps(Parse(b).value);
      CanonicalUnique(Reduce(Parse(a).value), Reduce(Parse(b).value));
    }
  }

  /** Normalizing twice is normalizing once, and normalized strings are accepted. */
  lemma {:induction false} NormalizeIdempotent(value: string)
    requires Normalize(value).Some?
    ensures Normalize(Normalize(value).value) == Normalize(value)
  {
    var t := Normalize(value).value;
    NormalizeDenotes(value);
    NormalizeIffSameNumber(t, value);
  }

  // ----- Integers -----

  /** `i64::to_string` */
  function IntText(i: int): string {
    if i < 0 then "-" + Digits(-i) else Digits(i)
  }

  lemma {:induction false} DigitsSpell(n: nat)
    ensures var s := Digits(n);
      s != "" && AllDigits(s) && IntegerValue(s) == n as real && (s == "0" || NoLeadingZero(s))
  {
    if n >= 10 {
      DigitsSpell(n / 10);
      var rest, last := Digits(n / 10), ('0' as int + n % 10) as char;
      var s := Digits(n);
      assert s == rest + [last] && s[..|s| - 1] == rest;
      assert rest != "0" by {
        assert IntegerValue("0") == 0.0 by { assert "0"[..0] == ""; }
        assert (n / 10) as real >= 1.0;
      }
      assert IntegerValue(s) == 10.0 * (n / 10) as real + (n % 10) as real;
    } else {
      var s := Digits(n);
      assert s[..0] == "";
      assert n > 0 ==> s[0] != '0';
    }
  }

  lemma {:induction false} IntDigital(i: int) returns (d: Digital)
    ensures Canonical(d) && Valid(d) && Render(d) == IntText(i) && ValueOf(d) == i as real
  {
    hide Digits;
    var n: nat := if i < 0 then -i else i;
    DigitsSpell(n);
    assert IntegerValue("0") == 0.0 by { assert "0"[..0] == ""; }
    d := Digital(i < 0, Digits(n), "");
    assert FractionValue("") == 0.0;
  }

  lemma {:induction false} IntTextDenotes(i: int)
    ensures Parse(IntText(i)).Some? && Denoted(IntText(i)) == i as real && Normalize(IntText(i)) == Some(IntText(i))
  {
    hide Parse, Reduce, Canonical, Render, Digits;
    var d := IntDigital(i);
    ParseRender(d);
    ReduceKeeps(d);
    CanonicalUnique(Reduce(d), d);
  }
}
