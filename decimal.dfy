/**
  Decimal digit strings: their value, the canonical rendering of a natural
  number (Swift's string interpolation `"\(n)"` of a non-negative `Int`),
  and Swift's `Int(_: String)` restricted to unsigned digit strings.
 */
module Decimal {
  import opened Wrappers

  /** `Int.max` on the 64-bit platforms the playground runs on. */
  const IntMax: int := 0x7FFF_FFFF_FFFF_FFFF

  /** The ASCII decimal digits. */
  const Digits: set<char> := {'0', '1', '2', '3', '4', '5', '6', '7', '8', '9'}

  predicate AllDigits(d: string) {
    forall i :: 0 <= i < |d| ==> d[i] in Digits
  }

  predicate AllZeros(d: string) {
    forall i :: 0 <= i < |d| ==> d[i] == '0'
  }

  /** A digit string without leading zeros, as `"\(n)"` prints a positive number. */
  predicate Canonical(d: string) {
    |d| >= 1 && AllDigits(d) && d[0] != '0'
  }

  function DigitValue(c: char): (k: nat)
    requires c in Digits
    ensures k < 10
  {
    (c as int) - ('0' as int)
  }

  function DigitChar(k: nat): (c: char)
    requires k < 10
    ensures c in Digits && DigitValue(c) == k
  {
    "0123456789"[k]
  }

  /** The number a digit string denotes, most significant digit first. */
  function Value(d: string): nat
    requires AllDigits(d)
  {
    if |d| == 0 then 0 else Value(d[..|d| - 1]) * 10 + DigitValue(d[|d| - 1])
  }

  /** The decimal rendering of `n`: digits only, no leading zero, and it reads back as `n`. */
  function Render(n: nat): (r: string)
    ensures |r| >= 1 && AllDigits(r)
    ensures Value(r) == n
    ensures n > 0 ==> r[0] != '0'
    ensures n < 10 <==> |r| == 1
  {
    if n < 10 then [DigitChar(n)]
    else
      var r := Render(n / 10) + [DigitChar(n % 10)];
      assert r[..|r| - 1] == Render(n / 10);
      r
  }

  /** Swift's `Int(d)` for a string made of ASCII digits and nothing else:
      nil for the empty string, for a non-digit, and for a value above `Int.max`. */
  function ParseInt(d: string): (r: Option<int>)
    ensures r.Some? <==> d != [] && AllDigits(d) && Value(d) <= IntMax
    ensures r.Some? ==> r.value == Value(d) && 0 <= r.value <= IntMax
  {
    if d == [] || !AllDigits(d) || Value(d) > IntMax then None else Some(Value(d))
  }

  /** A leading '0' does not change the value of a digit string. */
  lemma {:induction false} ValuePrefixedByZero(d: string)
    requires AllDigits(d)
    ensures AllDigits(['0'] + d) && Value(['0'] + d) == Value(d)
  {
    if d != [] {
      var z := ['0'] + d;
      assert z[..|z| - 1] == ['0'] + d[..|d| - 1];
      ValuePrefixedByZero(d[..|d| - 1]);
    }
  }

  /** `Int(_:)` reads past leading zeros: prefixing a digit string with '0'
      does not change what it parses to, which is how the `number > 0` test
      in `digitsOnlyWithoutLeadingZeros` gets rid of them. */
  lemma ParseIntLeadingZero(d: string)
    requires d != [] && AllDigits(d)
    ensures ParseInt(['0'] + d) == ParseInt(d)
  {
    ValuePrefixedByZero(d);
  }

  /** A digit string denotes zero exactly when every digit is '0'. */
  lemma {:induction false} ValueZeroIffAllZeros(d: string)
    requires AllDigits(d)
    ensures Value(d) == 0 <==> AllZeros(d)
  {
    if |d| > 0 {
      var p := d[..|d| - 1];
      assert AllDigits(p);
      ValueZeroIffAllZeros(p);
      if AllZeros(d) {
        assert AllZeros(p);
      }
      if Value(d) == 0 {
        assert AllZeros(p) && d[|d| - 1] == '0';
        forall i | 0 <= i < |d| ensures d[i] == '0' {
          if i < |d| - 1 { assert d[i] == p[i]; }
        }
      }
    }
  }

  /** A canonical digit string denotes a positive number. */
  lemma {:induction false} CanonicalIsPositive(d: string)
    requires Canonical(d)
    ensures Value(d) > 0
  {
    if |d| > 1 {
      var p := d[..|d| - 1];
      assert p[0] == d[0];
      CanonicalIsPositive(p);
    }
  }

  /** Rendering the value of a canonical digit string gives the string back:
      together with `Render`'s contract, `Render` and `Value` are inverse
      bijections between the naturals and the canonical strings plus "0". */
  lemma {:induction false} RenderValue(d: string)
    requires Canonical(d)
    ensures Render(Value(d)) == d
  {
    var p := d[..|d| - 1];
    var last := d[|d| - 1];
    if |d| == 1 {
      assert d == [last];
    } else {
      assert p[0] == d[0] && Canonical(p);
      CanonicalIsPositive(p);
      RenderValue(p);
      var n := Value(d);
      assert n == Value(p) * 10 + DigitValue(last);
      assert n / 10 == Value(p) && n % 10 == DigitValue(last);
      assert DigitChar(n % 10) == last;
      assert d == p + [last];
    }
  }
}
