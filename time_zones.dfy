/**
  `TimeZone.utcDescription(for:)` from the TimeZones playground page, as a
  function of the offset `secondsFromGMT(for: date)` it starts from:
  `String(format: "UTC %@%02d:%02d", sign, hours, minutes)`.

  `%d` reads a 32-bit C `int`, while `hours` and `minutes` are 64-bit Swift
  `Int`s; the conversion keeps their low 32 bits. `minutes` is always below
  60, but `hours` wraps for offsets of 2^31 hours and more.
 */
module TimeZones {
  import opened Decimal

  function Abs(x: int): nat {
    if x < 0 then -x else x
  }

  /** The C `int` that `%d` reads from a Swift `Int` argument: its low 32 bits,
      as a two's-complement number. */
  function CInt(n: int): (v: int)
    ensures -0x8000_0000 <= v < 0x8000_0000
    ensures (n - v) % 0x1_0000_0000 == 0
    ensures -0x8000_0000 <= n < 0x8000_0000 ==> v == n
  {
    var low := n % 0x1_0000_0000;
    if low >= 0x8000_0000 then low - 0x1_0000_0000 else low
  }

  /** `%02d`: the decimal digits of the value, after a '-' when it is
      negative, left-padded with '0' to at least two characters. */
  function Format02d(v: int): (r: string)
    ensures |r| >= 2
    ensures v >= 0 ==> AllDigits(r) && Value(r) == v
    ensures v >= 0 ==> (|r| == 2 <==> v < 100) && (|r| > 2 ==> r[0] != '0')
    ensures v < 0 ==> r[0] == '-' && Canonical(r[1..]) && Value(r[1..]) == -v
  {
    if v < 0 then
      var digits := Render(-v);
      var r := "-" + digits;
      assert r[1..] == digits;
      r
    else if v < 10 then
      var digits := Render(v);
      ValuePrefixedByZero(digits);
      ['0'] + digits
    else
      var digits := Render(v);
      assert v < 100 <==> |digits| == 2 by { RenderLength(v); }
      digits
  }

  lemma RenderLength(n: nat)
    requires n >= 10
    ensures |Render(n)| == 2 <==> n < 100
  {
    assert Render(n) == Render(n / 10) + [DigitChar(n % 10)];
  }

  /** The offset text: "UTC ", then '-' for a negative offset and '+' otherwise,
      then the whole hours, ':' and the remaining whole minutes. While the hours
      fit in 32 bits, the hours field reads back as the whole hours and has no
      leading '0' beyond two digits. */
  function UtcDescription(secondsFromGMT: int): (r: string)
    requires -IntMax <= secondsFromGMT <= IntMax
    ensures |r| >= 10 && r[..4] == "UTC " && r[|r| - 3] == ':'
    ensures r[4] == (if secondsFromGMT < 0 then '-' else '+')
    ensures AllDigits(r[|r| - 2..]) && Value(r[|r| - 2..]) == (Abs(secondsFromGMT) % 3600) / 60
    ensures Abs(secondsFromGMT) < 0x8000_0000 * 3600 ==>
      AllDigits(r[5..|r| - 3]) && Value(r[5..|r| - 3]) == Abs(secondsFromGMT) / 3600 &&
      (|r| > 10 ==> r[5] != '0')
    ensures Abs(secondsFromGMT) < 0x8000_0000 * 3600 ==>
      (|r| == 10 <==> Abs(secondsFromGMT) < 100 * 3600)
  {
    var negative := secondsFromGMT < 0;
    var seconds := Abs(secondsFromGMT);
    var minutes := (seconds % 3600) / 60;
    var hours := seconds / 3600;
    assert 0 <= minutes < 60 && CInt(minutes) == minutes;
    assert seconds < 0x8000_0000 * 3600 ==> hours < 0x8000_0000 && CInt(hours) == hours;
    assert seconds < 100 * 3600 <==> hours < 100;
    var hh, mm := Format02d(CInt(hours)), Format02d(CInt(minutes));
    var sign := if negative then '-' else '+';
    FieldsOfText(sign, hh, mm);
    "UTC " + [sign] + hh + ":" + mm
  }

  /** Where the sign, hours and minutes sit in the formatted text. */
  lemma FieldsOfText(sign: char, hh: string, mm: string)
    requires |hh| >= 2 && |mm| == 2
    ensures var r := "UTC " + [sign] + hh + ":" + mm;
      |r| == |hh| + 8 && r[..4] == "UTC " && r[4] == sign &&
      r[5..|r| - 3] == hh && r[|r| - 3] == ':' && r[|r| - 2..] == mm
  {
  }

  /** The two numbers in the text are the offset truncated to whole minutes:
      the minutes are below 60 and the dropped seconds are fewer than 60. */
  lemma UtcDescriptionTruncates(secondsFromGMT: int)
    requires Abs(secondsFromGMT) < 0x8000_0000 * 3600
    ensures var r := UtcDescription(secondsFromGMT);
      var hours, minutes := Value(r[5..|r| - 3]), Value(r[|r| - 2..]);
      minutes < 60 &&
      hours * 3600 + minutes * 60 <= Abs(secondsFromGMT) < hours * 3600 + minutes * 60 + 60
  {
    var s := Abs(secondsFromGMT);
    assert s == (s / 3600) * 3600 + ((s % 3600) / 60) * 60 + (s % 3600) % 60;
  }

  /** `%d` keeps only the low 32 bits of the hours: an offset 2^32 hours
      larger prints the same text (so 2^32 hours prints as "UTC +00:00"). */
  lemma UtcDescriptionHoursWrap(secondsFromGMT: int)
    requires 0 <= secondsFromGMT && secondsFromGMT + 0x1_0000_0000 * 3600 <= IntMax
    ensures UtcDescription(secondsFromGMT + 0x1_0000_0000 * 3600) == UtcDescription(secondsFromGMT)
  {
    var s := secondsFromGMT;
    var t := s + 0x1_0000_0000 * 3600;
    assert t / 3600 == s / 3600 + 0x1_0000_0000 && t % 3600 == s % 3600;
    assert CInt(t / 3600) == CInt(s / 3600);
  }

  /** Opposite non-zero offsets differ only in the sign character. */
  lemma UtcDescriptionSignOnly(secondsFromGMT: int)
    requires 0 < secondsFromGMT <= IntMax
    ensures UtcDescription(-secondsFromGMT) == UtcDescription(secondsFromGMT)[4 := '-']
  {
  }

  lemma UtcDescriptionOfZero()
    ensures UtcDescription(0) == "UTC +00:00"
  {
    assert Format02d(0) == "00";
  }
}
