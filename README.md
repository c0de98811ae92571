# Phone-number fallback parsing and UTC offset text, in Dafny

This project models two pages of an iOS Swift playground.

- **PhoneNumberKit+CountryCode.** A `String` extension provides four helpers:
  - `cleanPhoneNumber` keeps `+*#` and the digits;
  - `digitsOnly` keeps the digits;
  - `digitsOnlyWithoutLeadingZeros` re-prints the digits as a positive `Int`, or gives "";
  - `deletingPrefix` removes a prefix when it is present.

  `PhoneNumberKit.parseIfPossible` is a fallback policy over the PhoneNumberKit parser. When a region is given it parses once under that region. Without a region it tries the raw string under "US", then the string with "011" removed, then the string with "00" removed. Each later attempt is made only when the earlier ones failed and the prefix is present. It then rejects a country-code-1 result when the input's digits, leading zeros dropped, differ from those of the result's E.164 form.
- **TimeZones.** `TimeZone.utcDescription` renders a seconds-from-GMT offset as `"UTC ±HH:MM"`.

Modules:

- `Wrappers`: `Option`.
- `Decimal`: digit strings, their value, the canonical decimal rendering (`"\(n)"`), and Swift's `Int(String)` on digit strings, with `Int.max = 2^63 - 1`.
- `PhoneStrings`: the `String` helpers.
- `PhoneParsing`: `parseIfPossible`. PhoneNumberKit is an `Authority` value with three total functions: `parse(number, region, ignoreType)`, `formatE164` and `countryCode`. The method `ParseIfPossible` is proved equal to the specification functions `Candidates`, `FirstSuccess`, `Tried` and `Resolve`. A ghost out-parameter records the `parse` calls it makes, so that the number and order of calls can be stated.
- `TimeZones`: `utcDescription` as a function of the offset in seconds. `%d` reads a 32-bit C `int`, so the Swift `Int` hours and minutes reach it as their low 32 bits (`CInt`). The hours wrap for offsets of 2^31 hours and more.

On the no-region path, a country-code-1 parse that fails the digit comparison makes `parseIfPossible` return nil at once. No further candidate is tried, because every guarded attempt comes before the check (`Contents.swift:43-66`).

## Model

| member | source | states |
|---|---|---|
| `Decimal.Render` | Playground.playground/Pages/PhoneNumberKit+CountryCode.xcplaygroundpage/Contents.swift:19 | `"\(number)"` yields only digits, at least one of them, with no leading '0' for a positive number, and the result reads back as the same number |
| `Decimal.ParseIntLeadingZero` | Playground.playground/Pages/PhoneNumberKit+CountryCode.xcplaygroundpage/Contents.swift:18 | `Int(_:)` of a non-empty digit string is unchanged by a leading '0', so `Int(digitsOnly)` reads past leading zeros |
| `Decimal.RenderValue` | Playground.playground/Pages/PhoneNumberKit+CountryCode.xcplaygroundpage/Contents.swift:17-23 | re-rendering the value of a digit string without leading zeros gives the same string, so rendering and reading back are inverse |
| `Decimal.ValueZeroIffAllZeros` | Playground.playground/Pages/PhoneNumberKit+CountryCode.xcplaygroundpage/Contents.swift:18 | the `number > 0` test fails exactly for a digit string made only of '0's |
| `Decimal.CanonicalIsPositive` | Playground.playground/Pages/PhoneNumberKit+CountryCode.xcplaygroundpage/Contents.swift:18-19 | a digit string without a leading zero denotes a positive number |
| `PhoneStrings.Keep` | Playground.playground/Pages/PhoneNumberKit+CountryCode.xcplaygroundpage/Contents.swift:8-9 | splitting at characters outside a set and joining keeps only characters of the set, is no longer than the input, and loses no character of the set |
| `PhoneStrings.KeepAppend` | Playground.playground/Pages/PhoneNumberKit+CountryCode.xcplaygroundpage/Contents.swift:8-9 | the filter distributes over concatenation, so the original order is preserved |
| `PhoneStrings.KeepCounts` | Playground.playground/Pages/PhoneNumberKit+CountryCode.xcplaygroundpage/Contents.swift:8-9 | each character of the set occurs as often in the result as in the input; no other character occurs |
| `PhoneStrings.KeepFixpoint` | Playground.playground/Pages/PhoneNumberKit+CountryCode.xcplaygroundpage/Contents.swift:8-9 | a string made only of kept characters is returned unchanged |
| `PhoneStrings.KeepKeep` | Playground.playground/Pages/PhoneNumberKit+CountryCode.xcplaygroundpage/Contents.swift:8-14 | filtering by one set and then another is filtering by their intersection |
| `PhoneStrings.CleanPhoneNumber` | Playground.playground/Pages/PhoneNumberKit+CountryCode.xcplaygroundpage/Contents.swift:7-10 | the result holds only `+*#0-9`, is no longer than the input, and keeps every such character of the input |
| `PhoneStrings.DigitsOnly` | Playground.playground/Pages/PhoneNumberKit+CountryCode.xcplaygroundpage/Contents.swift:12-15 | the result holds only `0-9`, is no longer than the input, and keeps every digit of the input |
| `PhoneStrings.CleanPhoneNumberIdempotent` | Playground.playground/Pages/PhoneNumberKit+CountryCode.xcplaygroundpage/Contents.swift:7-10 | cleaning twice is cleaning once |
| `PhoneStrings.DigitsOnlyIdempotent` | Playground.playground/Pages/PhoneNumberKit+CountryCode.xcplaygroundpage/Contents.swift:12-15 | taking the digits twice is taking them once |
| `PhoneStrings.DigitsOnlyOfClean` | Playground.playground/Pages/PhoneNumberKit+CountryCode.xcplaygroundpage/Contents.swift:7-15 | the digits of the cleaned string are the digits of the input |
| `PhoneStrings.DigitsOnlyWithoutLeadingZeros` | Playground.playground/Pages/PhoneNumberKit+CountryCode.xcplaygroundpage/Contents.swift:17-23 | "" exactly when the digits are empty, all '0', or above `Int.max`; otherwise a digit string with no leading zero whose value, and whose `Int(...)`, equal those of the input's digits |
| `PhoneStrings.DigitsOnlyWithoutLeadingZerosIdempotent` | Playground.playground/Pages/PhoneNumberKit+CountryCode.xcplaygroundpage/Contents.swift:17-23 | applying it to its own output changes nothing |
| `PhoneStrings.SameCanonicalDigits` | Playground.playground/Pages/PhoneNumberKit+CountryCode.xcplaygroundpage/Contents.swift:17-23 | two strings agree under it exactly when neither digit string is a positive `Int`, or both denote the same positive `Int` |
| `PhoneStrings.DeletingPrefix` | Playground.playground/Pages/PhoneNumberKit+CountryCode.xcplaygroundpage/Contents.swift:25-30 | without the prefix the string is returned unchanged; with it, `prefix + result == s` and the result is `|prefix|` shorter |
| `PhoneParsing.TrunkPrefixesExclusive` | Playground.playground/Pages/PhoneNumberKit+CountryCode.xcplaygroundpage/Contents.swift:46-53 | no input starts with both "011" and "00" |
| `PhoneParsing.Candidates` | Playground.playground/Pages/PhoneNumberKit+CountryCode.xcplaygroundpage/Contents.swift:36-53 | with a region, a single candidate under that region; without, the raw string under "US" comes first, every candidate is under "US", and there are at most two |
| `PhoneParsing.FirstSuccess` | Playground.playground/Pages/PhoneNumberKit+CountryCode.xcplaygroundpage/Contents.swift:40-53 | none exactly when every candidate fails to parse; otherwise the parse of some candidate all of whose predecessors failed |
| `PhoneParsing.Tried` | Playground.playground/Pages/PhoneNumberKit+CountryCode.xcplaygroundpage/Contents.swift:40-53 | the calls made are a prefix of the candidates; every call but the last failed; the list stops before the end of the candidates only at a successful call |
| `PhoneParsing.TriedEndsAtFirstSuccess` | Playground.playground/Pages/PhoneNumberKit+CountryCode.xcplaygroundpage/Contents.swift:40-56 | the answer of the last call made is the first successful parse, or nil when none succeeded |
| `PhoneParsing.ParseIfPossible` | Playground.playground/Pages/PhoneNumberKit+CountryCode.xcplaygroundpage/Contents.swift:34-69 | the guarded, step-by-step attempts make exactly the calls `Tried` lists, and the result is `Resolve`: the first success, dropped on the no-region path when the country-code check fails |
| `PhoneParsing.RegionGivenParsesOnce` | Playground.playground/Pages/PhoneNumberKit+CountryCode.xcplaygroundpage/Contents.swift:36-38 | with a region, exactly one call under that region, and its answer is returned unchanged with no country-code check |
| `PhoneParsing.NoRegionAttemptOrder` | Playground.playground/Pages/PhoneNumberKit+CountryCode.xcplaygroundpage/Contents.swift:42-53 | without a region the raw string under "US" is tried first; a second call is made exactly when that failed and the input starts with "011" or "00", and it submits the input with that prefix removed |
| `PhoneParsing.NoRegionOutcome` | Playground.playground/Pages/PhoneNumberKit+CountryCode.xcplaygroundpage/Contents.swift:55-68 | nil when every attempt failed; a parse with country code other than 1 is returned as is; a code-1 parse is returned exactly when the two digit forms agree, and nil is returned with no further attempt otherwise |
| `PhoneParsing.NoRegionCountryCodeOneAgrees` | Playground.playground/Pages/PhoneNumberKit+CountryCode.xcplaygroundpage/Contents.swift:60-66 | any code-1 number returned without a region has the same digits without leading zeros as its E.164 form |
| `TimeZones.CInt` | Playground.playground/Pages/TimeZones.xcplaygroundpage/Contents.swift:13 | the value `%d` reads from a Swift `Int` is a 32-bit signed number congruent to it modulo 2^32, and equal to it when it fits in 32 bits |
| `TimeZones.Format02d` | Playground.playground/Pages/TimeZones.xcplaygroundpage/Contents.swift:13 | `%02d` of a non-negative value is a digit string of that value, at least two long, exactly two long below 100, and without leading '0' above; of a negative value, '-' followed by the canonical digits of its magnitude |
| `TimeZones.UtcDescription` | Playground.playground/Pages/TimeZones.xcplaygroundpage/Contents.swift:7-14 | the text starts with "UTC ", has '-' exactly for a negative offset, and ends with ':' and two digits that read back as (abs(s)%3600)/60; while abs(s)/3600 fits in 32 bits, the hours field reads back as abs(s)/3600 with no leading '0' beyond two digits, and the text is 10 characters exactly when abs(s) is below 100 hours |
| `TimeZones.UtcDescriptionTruncates` | Playground.playground/Pages/TimeZones.xcplaygroundpage/Contents.swift:10-12 | while the hours fit in 32 bits, the minutes printed are below 60, and the printed hours and minutes fall short of the offset by less than a minute |
| `TimeZones.UtcDescriptionHoursWrap` | Playground.playground/Pages/TimeZones.xcplaygroundpage/Contents.swift:10-13 | adding 2^32 hours to a non-negative offset does not change the text, because `%d` keeps only the low 32 bits of the hours |
| `TimeZones.UtcDescriptionSignOnly` | Playground.playground/Pages/TimeZones.xcplaygroundpage/Contents.swift:8-13 | for a positive offset, the text for its negation differs only in the sign character |
| `TimeZones.UtcDescriptionOfZero` | Playground.playground/Pages/TimeZones.xcplaygroundpage/Contents.swift:9-13 | offset 0 renders as "UTC +00:00" |

## Left out

- PhoneNumberKit's parser, formatter, region lookup and numbering-plan data are a foreign library. They appear only as the abstract `Authority` functions. So nothing is proved about which strings parse, including the idempotence of E.164 re-parsing and the region of a result.
- The `ignoreType` flag is passed to `parse` unchanged; its meaning belongs to PhoneNumberKit.
- The page's test table, its print loop and its pass counter (`Contents.swift:72-163`) are printing and I/O. Their expected outcomes depend on PhoneNumberKit's data.
- Digits are ASCII '0'-'9'. `CharacterSet.decimalDigits` also contains other Unicode decimal digits; these are not modelled.
- Characters are Dafny `char`s. The Unicode-scalar and grapheme-cluster details of Swift `String` splitting and `hasPrefix` are not modelled.
- `Decimal.ParseInt`: Swift's `Int(String)` also accepts a leading '+' or '-'. Only digit strings are modelled, because `digitsOnly` never produces a sign.
- `TimeZones.UtcDescription` requires the offset to lie in `-Int.max ... Int.max`, because `abs(Int.min)` traps in Swift. Its read-back of the hours field and its 10-character claim are stated only while the whole hours fit in 32 bits (below 2^31 hours). Above that, `%d` wraps the hours; `UtcDescriptionHoursWrap` states the wrap. Real offsets are within about ±18 hours.
- `TimeZones.UtcDescriptionTruncates` is stated only while the whole hours fit in 32 bits, for the same reason.
- `TimeZones.CInt` assumes that `%d` takes the low 32 bits of the 64-bit argument, as on little-endian 64-bit platforms. The platform's variadic-argument passing is not modelled further.
- `secondsFromGMT(for:)`, `Date`, `knownTimeZoneIdentifiers` and the printing loop of the TimeZones page are platform I/O. The offset in seconds is a parameter instead.
- The ReloadCellNoScrolling page is UIKit collection-view code using floating point and randomness. It is not part of this model.
