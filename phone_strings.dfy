/**
  The `String` extension of the PhoneNumberKit+CountryCode playground page:
  the character filters `cleanPhoneNumber` and `digitsOnly`, the canonical
  digit form `digitsOnlyWithoutLeadingZeros`, and `deletingPrefix`.
 */
module PhoneStrings {
  import opened Wrappers
  import opened Decimal

  /** The characters `cleanPhoneNumber` keeps. */
  const PhoneChars: set<char> := {'+', '*', '#', '0', '1', '2', '3', '4', '5', '6', '7', '8', '9'}

  /** `s.components(separatedBy: allowed.inverted).joined(separator: "")`:
      the characters of `s` that lie in `allowed`, in their original order. */
  function Keep(s: string, allowed: set<char>): (r: string)
    ensures |r| <= |s|
    ensures forall i :: 0 <= i < |r| ==> r[i] in allowed
    ensures forall c :: c in allowed && c in s ==> c in r
  {
    if s == [] then []
    else if s[0] in allowed then [s[0]] + Keep(s[1..], allowed)
    else Keep(s[1..], allowed)
  }

  /** Filtering distributes over concatenation; with `Keep([c])` being `[c]`
      or `[]`, this pins down `Keep` as the order-preserving filter. */
  lemma {:induction false} KeepAppend(a: string, b: string, allowed: set<char>)
    ensures Keep(a + b, allowed) == Keep(a, allowed) + Keep(b, allowed)
  {
    if a != [] {
      assert (a + b)[0] == a[0] && (a + b)[1..] == a[1..] + b;
      KeepAppend(a[1..], b, allowed);
    } else {
      assert a + b == b;
    }
  }

  /** Every allowed character keeps its number of occurrences; no other character survives. */
  lemma {:induction false} KeepCounts(s: string, allowed: set<char>, c: char)
    ensures multiset(Keep(s, allowed))[c] == if c in allowed then multiset(s)[c] else 0
  {
    if s != [] {
      KeepCounts(s[1..], allowed, c);
      assert s == [s[0]] + s[1..];
      assert multiset(s) == multiset([s[0]]) + multiset(s[1..]);
    }
  }

  /** A string made only of allowed characters is left unchanged. */
  lemma {:induction false} KeepFixpoint(s: string, allowed: set<char>)
    requires forall i :: 0 <= i < |s| ==> s[i] in allowed
    ensures Keep(s, allowed) == s
  {
    if s != [] {
      assert s[0] in allowed;
      KeepFixpoint(s[1..], allowed);
    }
  }

  /** Filtering twice is filtering once by both sets. */
  lemma {:induction false} KeepKeep(s: string, a: set<char>, b: set<char>)
    ensures Keep(Keep(s, a), b) == Keep(s, a * b)
  {
    if s != [] {
      KeepKeep(s[1..], a, b);
      if s[0] in a {
        assert ([s[0]] + Keep(s[1..], a))[0] == s[0];
        assert ([s[0]] + Keep(s[1..], a))[1..] == Keep(s[1..], a);
      }
    }
  }

  /** `cleanPhoneNumber`: only '+', '*', '#' and the digits remain. */
  function CleanPhoneNumber(s: string): (r: string)
    ensures |r| <= |s|
    ensures forall i :: 0 <= i < |r| ==> r[i] in PhoneChars
    ensures forall c :: c in PhoneChars && c in s ==> c in r
  {
    Keep(s, PhoneChars)
  }

  /** `digitsOnly`: only the ASCII digits remain. */
  function DigitsOnly(s: string): (r: string)
    ensures |r| <= |s|
    ensures AllDigits(r)
    ensures forall c :: c in Digits && c in s ==> c in r
  {
    Keep(s, Digits)
  }

  lemma CleanPhoneNumberIdempotent(s: string)
    ensures CleanPhoneNumber(CleanPhoneNumber(s)) == CleanPhoneNumber(s)
  {
    KeepFixpoint(Keep(s, PhoneChars), PhoneChars);
  }

  lemma DigitsOnlyIdempotent(s: string)
    ensures DigitsOnly(DigitsOnly(s)) == DigitsOnly(s)
  {
    KeepFixpoint(Keep(s, Digits), Digits);
  }

  /** Cleaning first loses no digit: the digits of the cleaned string are those of the input. */
  lemma DigitsOnlyOfClean(s: string)
    ensures DigitsOnly(CleanPhoneNumber(s)) == DigitsOnly(s)
  {
    KeepKeep(s, PhoneChars, Digits);
    assert PhoneChars * Digits == Digits;
  }

  /** `digitsOnlyWithoutLeadingZeros`: `Int(digitsOnly)` re-printed when it is a
      positive `Int`, otherwise the empty string. */
  function DigitsOnlyWithoutLeadingZeros(s: string): (r: string)
    ensures var d := DigitsOnly(s);
      r == [] <==> d == [] || AllZeros(d) || Value(d) > IntMax
    ensures r != [] ==> Canonical(r) && Value(r) == Value(DigitsOnly(s))
    ensures r != [] ==> ParseInt(r) == ParseInt(DigitsOnly(s))
  {
    var d := DigitsOnly(s);
    ValueZeroIffAllZeros(d);
    match ParseInt(d)
    case Some(number) => if number > 0 then Render(number) else []
    case None => []
  }

  /** Re-applying it changes nothing: its output is already the canonical form. */
  lemma DigitsOnlyWithoutLeadingZerosIdempotent(s: string)
    ensures DigitsOnlyWithoutLeadingZeros(DigitsOnlyWithoutLeadingZeros(s)) == DigitsOnlyWithoutLeadingZeros(s)
  {
    var r := DigitsOnlyWithoutLeadingZeros(s);
    if r != [] {
      KeepFixpoint(r, Digits);
      CanonicalIsPositive(r);
      RenderValue(r);
    }
  }

  /** Two inputs agree under `digitsOnlyWithoutLeadingZeros` exactly when both
      give "" or their digits denote the same positive `Int`. */
  lemma SameCanonicalDigits(s: string, t: string)
    ensures DigitsOnlyWithoutLeadingZeros(s) == DigitsOnlyWithoutLeadingZeros(t)
        <==> var p, q := ParseInt(DigitsOnly(s)), ParseInt(DigitsOnly(t));
             (p.Some? && p.value > 0) == (q.Some? && q.value > 0) &&
             (p.Some? && p.value > 0 ==> p.value == q.value)
  {
    var d, e := DigitsOnly(s), DigitsOnly(t);
    ValueZeroIffAllZeros(d);
    ValueZeroIffAllZeros(e);
    var r, q := DigitsOnlyWithoutLeadingZeros(s), DigitsOnlyWithoutLeadingZeros(t);
    if r == q && r != [] {
      assert Value(d) == Value(r) == Value(e);
    }
  }

  function HasPrefix(s: string, prefix: string): bool {
    prefix <= s
  }

  /** `deletingPrefix`: `s` without `prefix` when it starts with it, `s` itself otherwise. */
  function DeletingPrefix(s: string, prefix: string): (r: string)
    ensures HasPrefix(s, prefix) ==> prefix + r == s && |r| == |s| - |prefix|
    ensures !HasPrefix(s, prefix) ==> r == s
  {
    if HasPrefix(s, prefix) then s[|prefix|..] else s
  }
}
