/** The parts of Rust's `i64` that the dice engine relies on: the range of the
    type, saturating arithmetic, truncating division, two's-complement
    wrap-around, decimal formatting (`format!("{}", n)`) and decimal parsing
    (`str::parse::<i64>`). Values are unbounded `int`s kept inside the range
    explicitly. */
module Int64 {
  import opened Wrappers

  const MIN: int := -0x8000_0000_0000_0000
  const MAX: int := 0x7FFF_FFFF_FFFF_FFFF
  const MODULUS: int := 0x1_0000_0000_0000_0000

  predicate InRange(x: int) {
    MIN <= x <= MAX
  }

  function Abs(x: int): nat {
    if x < 0 then -x else x
  }

  /** The representable value nearest to `x`. */
  function Clamp(x: int): (r: int)
    ensures InRange(r)
    ensures InRange(x) ==> r == x
    ensures x > MAX ==> r == MAX
    ensures x < MIN ==> r == MIN
  {
    if x > MAX then MAX else if x < MIN then MIN else x
  }

  /** `i64::saturating_add`, `saturating_sub` and `saturating_mul`: the exact
      result, clamped to the bounds of the type. */
  function SaturatingAdd(a: int, b: int): int { Clamp(a + b) }
  function SaturatingSub(a: int, b: int): int { Clamp(a - b) }
  function SaturatingMul(a: int, b: int): int { Clamp(a * b) }

  /** Integer division rounding toward zero, as Rust's `/` does (Dafny's own
      `/` is Euclidean). */
  function TruncDiv(a: int, b: int): int
    requires b != 0
  {
    var q := Abs(a) / Abs(b);
    if (a < 0) == (b < 0) then q else -q
  }

  /** `i64::saturating_div`: truncating division whose one overflowing case,
      `MIN / -1`, saturates to `MAX`. */
  function SaturatingDiv(a: int, b: int): int
    requires b != 0
  {
    Clamp(TruncDiv(a, b))
  }

  /** Two's-complement wrap-around of an exact result into the range. */
  function Wrap(x: int): (r: int)
    ensures InRange(r)
    ensures (x - r) % MODULUS == 0
    ensures InRange(x) ==> r == x
  {
    (x - MIN) % MODULUS + MIN
  }

  lemma MulNegations(x: int, y: int)
    ensures (-x) * y == -(x * y) && x * (-y) == -(x * y) && (-x) * (-y) == x * y
  {
  }

  lemma DivMod(x: int, y: int)
    requires x >= 0 && y >= 1
    ensures x == (x / y) * y + x % y && 0 <= x % y < y && x / y >= 0
  {
  }

  lemma ProductBound(q: int, y: int, x: int)
    requires q >= 0 && y >= 1 && q * y <= x
    ensures q <= x
    ensures y >= 2 ==> 2 * q <= x
  {
    assert q * y >= q * 1;
    if y >= 2 { assert q * y >= q * 2; }
  }

  /** Truncating division leaves a remainder smaller than the divisor that
      has the sign of the dividend: the defining property of Rust's `/`. */
  lemma TruncDivIsTruncating(a: int, b: int)
    requires b != 0
    ensures var q := TruncDiv(a, b); var rem := a - q * b;
            Abs(rem) < Abs(b) && (rem == 0 || (rem > 0) == (a > 0))
  {
    var x: int, y: int := Abs(a), Abs(b);
    DivMod(x, y);
    var q0, r0 := x / y, x % y;
    var q := TruncDiv(a, b);
    MulNegations(q0, y);
    var p := q0 * y;
    assert x == p + r0;
    if a >= 0 && b > 0 {
      assert q * b == p;
    } else if a >= 0 && b < 0 {
      assert q == -q0 && b == -y;
      assert q * b == p;
    } else if a < 0 && b > 0 {
      assert q == -q0 && b == y;
      assert q * b == -p;
    } else {
      assert q == q0 && b == -y;
      assert q * b == -p;
    }
  }

  /** On operands of the type, saturating division differs from truncating
      division only for `MIN / -1`. */
  lemma SaturatingDivOnlyClampsMinByMinusOne(a: int, b: int)
    requires InRange(a) && InRange(b) && b != 0
    ensures SaturatingDiv(a, b) == if a == MIN && b == -1 then MAX else TruncDiv(a, b)
  {
    var q := Abs(a) / Abs(b);
    DivMod(Abs(a), Abs(b));
    ProductBound(q, Abs(b), Abs(a));
    if a == MIN && b == -1 {
      assert q == -MIN;
    } else if Abs(b) == 1 {
      assert q == Abs(a);
    }
  }

  predicate IsAsciiDigit(c: char) {
    '0' <= c <= '9'
  }

  predicate AllAsciiDigits(s: string) {
    forall i :: 0 <= i < |s| ==> IsAsciiDigit(s[i])
  }

  function DigitChar(d: int): (c: char)
    requires 0 <= d < 10
    ensures IsAsciiDigit(c)
  {
    ('0' as int + d) as char
  }

  function DigitValue(c: char): int
    requires IsAsciiDigit(c)
  {
    c as int - '0' as int
  }

  /** Decimal text of a natural number, most significant digit first. */
  function NatToString(n: nat): (r: string)
    ensures |r| > 0 && AllAsciiDigits(r)
  {
    if n < 10 then [DigitChar(n)] else NatToString(n / 10) + [DigitChar(n % 10)]
  }

  /** `format!("{}", n)` for an integer. */
  function IntToString(n: int): string {
    if n < 0 then "-" + NatToString(-n) else NatToString(n)
  }

  /** The value of a run of ASCII digits. */
  function DecimalValue(s: string): nat
    requires AllAsciiDigits(s)
  {
    if s == [] then 0 else DecimalValue(s[..|s| - 1]) * 10 + DigitValue(s[|s| - 1])
  }

  /** `str::parse::<i64>`: an optional sign, then at least one ASCII digit,
      and a value that fits the type; anything else is an error, modelled as
      `None`. */
  function ParseI64(s: string): (r: Option<int>)
    ensures r.Some? ==> InRange(r.value)
  {
    if |s| == 0 then None
    else if s[0] == '-' || s[0] == '+' then
      var digits := s[1..];
      if |digits| == 0 || !AllAsciiDigits(digits) then None
      else
        var v: int := if s[0] == '-' then -(DecimalValue(digits) as int) else DecimalValue(digits);
        if InRange(v) then Some(v) else None
    else if AllAsciiDigits(s) && DecimalValue(s) <= MAX then Some(DecimalValue(s))
    else None
  }

  lemma {:induction false} DecimalValueOfNatToString(n: nat)
    ensures DecimalValue(NatToString(n)) == n
  {
    if n >= 10 {
      DecimalValueOfNatToString(n / 10);
      var s := NatToString(n);
      assert s[..|s| - 1] == NatToString(n / 10);
    }
  }

  /** Parsing reads back what formatting wrote, for every value of the type. */
  lemma ParseI64OfIntToString(n: int)
    requires InRange(n)
    ensures ParseI64(IntToString(n)) == Some(n)
  {
    if n < 0 {
      DecimalValueOfNatToString(-n);
      assert IntToString(n)[1..] == NatToString(-n);
    } else {
      DecimalValueOfNatToString(n);
    }
  }

  /** `k` zero digits. */
  function Zeros(k: nat): (r: string)
    ensures |r| == k && AllAsciiDigits(r)
  {
    if k == 0 then "" else Zeros(k - 1) + "0"
  }

  /** The signs `parse::<i64>` accepts in front of the digits of `v`: none
      or `+` when `v` is not negative, `-` when it is not positive. */
  predicate SignFits(p: string, v: int) {
    ((p == "" || p == "+") && v >= 0) || (p == "-" && v <= 0)
  }

  lemma {:induction false} DecimalValueOfZeros(k: nat)
    ensures DecimalValue(Zeros(k)) == 0
  {
    if k > 0 {
      DecimalValueOfZeros(k - 1);
      assert Zeros(k)[..k - 1] == Zeros(k - 1);
    }
  }

  /** Leading zeros do not change the value of a run of digits. */
  lemma {:induction false} DecimalValueAfterZeros(k: nat, t: string)
    requires AllAsciiDigits(t)
    ensures AllAsciiDigits(Zeros(k) + t) && DecimalValue(Zeros(k) + t) == DecimalValue(t)
    decreases |t|
  {
    var u := Zeros(k) + t;
    if t == [] {
      assert u == Zeros(k);
      DecimalValueOfZeros(k);
    } else {
      assert u[..|u| - 1] == Zeros(k) + t[..|t| - 1];
      DecimalValueAfterZeros(k, t[..|t| - 1]);
    }
  }

  lemma DigitRoundTrip(c: char)
    requires IsAsciiDigit(c)
    ensures DigitChar(DigitValue(c)) == c
  {
  }

  lemma LastDigit(m: nat, d: int)
    requires 0 <= d < 10
    ensures (m * 10 + d) / 10 == m && (m * 10 + d) % 10 == d
  {
  }

  /** Every run of digits is some zeros followed by the decimal text of its
      value. */
  lemma {:induction false} DigitsForm(t: string)
    requires |t| > 0 && AllAsciiDigits(t)
    ensures var c := NatToString(DecimalValue(t)); |c| <= |t| && t == Zeros(|t| - |c|) + c
    decreases |t|
  {
    var n := DecimalValue(t);
    var u := t[..|t| - 1];
    var last := t[|t| - 1];
    var d := DigitValue(last);
    assert t == u + [last];
    DigitRoundTrip(last);
    if |u| == 0 {
      assert n == d;
      assert t == Zeros(0) + NatToString(n);
    } else {
      DigitsForm(u);
      var m := DecimalValue(u);
      var cu := NatToString(m);
      assert u == Zeros(|u| - |cu|) + cu;
      if m == 0 {
        assert cu == "0";
        assert u == Zeros(|u|);
        assert n == d && NatToString(n) == [last];
        assert t == Zeros(|t| - 1) + NatToString(n);
      } else {
        LastDigit(m, d);
        assert n >= 10;
        assert NatToString(n) == cu + [last];
        assert t == Zeros(|u| - |cu|) + (cu + [last]);
      }
    }
  }

  /** What parses is a sign that agrees with the value, then digits whose
      value is the magnitude. */
  lemma ParsedDigits(s: string, v: int)
    requires ParseI64(s) == Some(v)
    ensures var t := s[|SignOf(s)|..];
      && s == SignOf(s) + t && SignFits(SignOf(s), v)
      && |t| > 0 && AllAsciiDigits(t) && DecimalValue(t) == Abs(v)
  {
  }

  lemma UnsignedDigitsParse(t: string)
    requires |t| > 0 && AllAsciiDigits(t)
    ensures ParseI64(t) == if DecimalValue(t) <= MAX then Some(DecimalValue(t) as int) else None
  {
    assert IsAsciiDigit(t[0]);
  }

  lemma SignedDigitsParse(c: char, t: string)
    requires (c == '-' || c == '+') && |t| > 0 && AllAsciiDigits(t)
    ensures c == '-' ==> ParseI64([c] + t) == if DecimalValue(t) <= -MIN then Some(-(DecimalValue(t) as int)) else None
    ensures c == '+' ==> ParseI64([c] + t) == if DecimalValue(t) <= MAX then Some(DecimalValue(t) as int) else None
  {
    var s := [c] + t;
    assert s[0] == c && s[1..] == t;
  }

  /** A sign that agrees with `v` followed by digits of value `|v|` parses
      to `v`. */
  lemma DigitsParseToValue(p: string, t: string, v: int)
    requires InRange(v) && SignFits(p, v)
    requires |t| > 0 && AllAsciiDigits(t) && DecimalValue(t) == Abs(v)
    ensures ParseI64(p + t) == Some(v)
  {
    if p == "" {
      assert p + t == t;
      UnsignedDigitsParse(t);
    } else {
      assert p == [p[0]];
      SignedDigitsParse(p[0], t);
    }
  }

  /** The sign a text starts with, if any. */
  function SignOf(s: string): string {
    if |s| > 0 && (s[0] == '-' || s[0] == '+') then s[..1] else ""
  }

  /** Any text that parses is written in the form of its value: its sign,
      then zeros, then the decimal text of the magnitude. */
  lemma ParsedIsForm(s: string, v: int)
    requires ParseI64(s) == Some(v)
    ensures var c := NatToString(Abs(v));
      && SignFits(SignOf(s), v) && |SignOf(s)| + |c| <= |s|
      && s == SignOf(s) + Zeros(|s| - |SignOf(s)| - |c|) + c
  {
    ParsedDigits(s, v);
    SignedForm(SignOf(s), s[|SignOf(s)|..], v);
  }

  lemma SignedForm(p: string, t: string, v: int)
    requires |t| > 0 && AllAsciiDigits(t) && DecimalValue(t) == Abs(v)
    ensures var c := NatToString(Abs(v));
      && |c| <= |t| && p + t == p + Zeros(|t| - |c|) + c
  {
    DigitsForm(t);
    var c := NatToString(Abs(v));
    var z := Zeros(|t| - |c|);
    assert t == z + c;
    assert p + t == (p + z) + c;
  }

  /** Any text written in the form of a value of the type parses to it. */
  lemma FormIsParsed(s: string, v: int)
    requires InRange(v) && exists p: string, k: nat :: SignFits(p, v) && s == p + Zeros(k) + NatToString(Abs(v))
    ensures ParseI64(s) == Some(v)
  {
    var p: string, k: nat :| SignFits(p, v) && s == p + Zeros(k) + NatToString(Abs(v));
    var t := Zeros(k) + NatToString(Abs(v));
    assert s == p + t;
    DecimalValueAfterZeros(k, NatToString(Abs(v)));
    DecimalValueOfNatToString(Abs(v));
    DigitsParseToValue(p, t, v);
  }

  /** A text parses to `v` exactly when `v` fits the type and the text is a
      sign that agrees with `v`, any number of leading zeros, and the decimal
      digits of the magnitude of `v`. */
  lemma ParseI64Accepts(s: string, v: int)
    ensures ParseI64(s) == Some(v) <==>
      InRange(v) && exists p: string, k: nat :: SignFits(p, v) && s == p + Zeros(k) + NatToString(Abs(v))
  {
    if ParseI64(s) == Some(v) {
      ParsedIsForm(s, v);
      var k := |s| - |SignOf(s)| - |NatToString(Abs(v))|;
      assert SignFits(SignOf(s), v) && s == SignOf(s) + Zeros(k) + NatToString(Abs(v));
    }
    if InRange(v) && exists p: string, k: nat :: SignFits(p, v) && s == p + Zeros(k) + NatToString(Abs(v)) {
      FormIsParsed(s, v);
    }
  }
}
