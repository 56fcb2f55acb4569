/**
 * Swift's `Int(_ text: String)` in radix 10, the conversion the start screen
 * applies to every text field: an optional '+' or '-', then one or more ASCII
 * digits, nothing else (no spaces); a value outside the 64-bit `Int` range
 * gives nil. `Render` is `String(n)`, the conversion back, and the lemmas
 * below relate the two.
 */
module IntParsing {
  import opened Wrappers

  /** Bounds of `Int` on the 64-bit platforms the app targets. */
  const IntMin: int := -0x8000_0000_0000_0000
  const IntMax: int := 0x7FFF_FFFF_FFFF_FFFF

  predicate InIntRange(n: int) {
    IntMin <= n <= IntMax
  }

  predicate IsDigit(c: char) {
    '0' <= c <= '9'
  }

  predicate IsSign(c: char) {
    c == '+' || c == '-'
  }

  predicate AllDigits(s: string) {
    forall i :: 0 <= i < |s| ==> IsDigit(s[i])
  }

  function DigitValue(c: char): (d: nat)
    requires IsDigit(c)
    ensures d < 10
  {
    (c as int) - ('0' as int)
  }

  function DigitChar(d: nat): (c: char)
    requires d < 10
    ensures IsDigit(c) && DigitValue(c) == d
    ensures c == '0' <==> d == 0
  {
    (('0' as int) + d) as char
  }

  function Pow10(k: nat): (p: nat)
    ensures p >= 1
  {
    if k == 0 then 1 else 10 * Pow10(k - 1)
  }

  /** The value of a string of decimal digits, most significant digit first. */
  function DigitsValue(s: string): (n: nat)
    requires AllDigits(s)
    ensures n < Pow10(|s|)
  {
    if s == [] then 0 else DigitsValue(s[..|s| - 1]) * 10 + DigitValue(s[|s| - 1])
  }

  /** `Int(s)`: nil for the empty string, a lone sign, any other character, or an overflow. */
  function ParseInt(s: string): (r: Option<int>)
    ensures s == [] ==> r == None
    ensures r.Some? ==> InIntRange(r.value)
    ensures r.Some? ==> (IsDigit(s[0]) || (IsSign(s[0]) && |s| >= 2)) && AllDigits(s[1..])
    ensures r.Some? && r.value < 0 ==> s[0] == '-'
  {
    if s == [] then None
    else
      var digits := if IsSign(s[0]) then s[1..] else s;
      if digits == [] || !AllDigits(digits) then None
      else
        var v: int := if s[0] == '-' then -(DigitsValue(digits) as int) else DigitsValue(digits);
        if InIntRange(v) then Some(v) else None
  }

  /** The decimal digits of `n`, without leading zeros. */
  function RenderNat(n: nat): (s: string)
    ensures |s| >= 1 && AllDigits(s)
    ensures s[0] == '0' <==> n == 0
  {
    if n < 10 then [DigitChar(n)] else RenderNat(n / 10) + [DigitChar(n % 10)]
  }

  /** `String(n)`: a '-' for negative numbers, then the digits of the magnitude. */
  function Render(n: int): string {
    if n < 0 then "-" + RenderNat(-n) else RenderNat(n)
  }

  /** The text `Render` produces: no '+', no leading zero, no "-0". */
  predicate IsCanonicalDigits(ds: string) {
    |ds| >= 1 && AllDigits(ds) && (ds[0] == '0' ==> |ds| == 1)
  }

  predicate IsCanonical(s: string) {
    IsCanonicalDigits(s) || (|s| >= 2 && s[0] == '-' && s[1] != '0' && IsCanonicalDigits(s[1..]))
  }

  lemma {:induction false} RenderNatValue(n: nat)
    ensures DigitsValue(RenderNat(n)) == n
  {
    if n >= 10 {
      var p := RenderNat(n / 10);
      var s := RenderNat(n);
      assert s == p + [DigitChar(n % 10)];
      assert s[..|s| - 1] == p;
      RenderNatValue(n / 10);
    }
  }

  lemma RenderIsCanonical(n: int)
    ensures IsCanonical(Render(n))
  {
  }

  /**
   * Reading back what `String(n)` wrote gives `n` for every `Int`, and nil for
   * a number too wide for `Int`.
   */
  lemma ParseRender(n: int)
    ensures ParseInt(Render(n)) == if InIntRange(n) then Some(n) else None
  {
    var s := Render(n);
    if n < 0 {
      assert s[1..] == RenderNat(-n);
      RenderNatValue(-n);
    } else {
      RenderNatValue(n);
    }
  }

  lemma {:induction false} LeadingDigitNonZero(ds: string)
    requires |ds| >= 1 && AllDigits(ds) && ds[0] != '0'
    ensures DigitsValue(ds) >= 1
  {
    if |ds| > 1 {
      LeadingDigitNonZero(ds[..|ds| - 1]);
    }
  }

  lemma {:induction false} RenderNatDigits(ds: string)
    requires IsCanonicalDigits(ds)
    ensures RenderNat(DigitsValue(ds)) == ds
  {
    var last := ds[|ds| - 1];
    var p := ds[..|ds| - 1];
    if |ds| > 1 {
      LeadingDigitNonZero(p);
      RenderNatDigits(p);
      var v := DigitsValue(ds);
      assert v / 10 == DigitsValue(p) && v % 10 == DigitValue(last);
      assert ds == p + [last];
    } else {
      assert ds == [last];
    }
  }

  /** Every canonical literal `Int(_)` accepts is written back unchanged by `String(_)`. */
  lemma RenderParse(s: string)
    requires IsCanonical(s) && ParseInt(s).Some?
    ensures Render(ParseInt(s).value) == s
  {
    if IsCanonicalDigits(s) {
      RenderNatDigits(s);
    } else {
      var ds := s[1..];
      LeadingDigitNonZero(ds);
      RenderNatDigits(ds);
      assert s == "-" + ds;
    }
  }

  /** A leading '+' is accepted and changes nothing. */
  lemma ParsePlusSign(ds: string)
    requires |ds| >= 1 && AllDigits(ds)
    ensures ParseInt("+" + ds) == ParseInt(ds)
  {
  }

  lemma {:induction false} LeadingZeroValue(ds: string)
    requires AllDigits(ds)
    ensures DigitsValue("0" + ds) == DigitsValue(ds)
  {
    if ds != [] {
      var s := "0" + ds;
      assert s[..|s| - 1] == "0" + ds[..|ds| - 1];
      LeadingZeroValue(ds[..|ds| - 1]);
    }
  }

  /**
   * Leading zeros are accepted and change nothing, after a '-' too:
   * `Int("007") == 7`, `Int("-007") == -7`, `Int("-0") == 0`.
   */
  lemma ParseLeadingZero(ds: string)
    requires |ds| >= 1 && AllDigits(ds)
    ensures ParseInt("0" + ds) == ParseInt(ds)
    ensures ParseInt("-0" + ds) == ParseInt("-" + ds)
    ensures ParseInt("-0") == Some(0)
  {
    LeadingZeroValue(ds);
    assert ("-0" + ds)[1..] == "0" + ds;
    assert ("-" + ds)[1..] == ds;
    assert "-0"[1..] == "0";
  }
}
