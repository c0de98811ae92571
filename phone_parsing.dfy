/**
  `PhoneNumberKit.parseIfPossible` from the PhoneNumberKit+CountryCode page:
  one parse when a region is given; otherwise up to three guarded parses
  under "US" (raw, "011" stripped, "00" stripped), followed by a country-code
  check that rejects a spurious +1 match.

  PhoneNumberKit itself (its numbering-plan data, `parse`, `format(.e164)`
  and `PhoneNumber.countryCode`) is an opaque collaborator: an `Authority`
  value of total functions that the model calls but does not inspect.
 */
module PhoneParsing {
  import opened Wrappers
  import opened PhoneStrings

  /** The region the no-region path parses under. */
  const DefaultRegion: string := "US"

  /** The country calling code of the default region, whose matches are double-checked. */
  const DefaultCountryCode: int := 1

  /** The parts of PhoneNumberKit the page uses. `parse` answers None where
      `try? self.parse(number, withRegion:, ignoreType:)` yields nil. */
  datatype Authority<!PN> = Authority(
    parse: (string, string, bool) -> Option<PN>,
    formatE164: PN -> string,
    countryCode: PN -> int)

  /** One call of `parse`: the number string submitted and the region given with it. */
  datatype Attempt = Attempt(number: string, region: string)

  function Try<PN>(kit: Authority<PN>, a: Attempt, ignoreType: bool): Option<PN> {
    kit.parse(a.number, a.region, ignoreType)
  }

  /** No string starts with both "011" and "00", so at most one of them is stripped. */
  lemma TrunkPrefixesExclusive(s: string)
    ensures !(HasPrefix(s, "011") && HasPrefix(s, "00"))
  {
    if HasPrefix(s, "011") {
      assert s[1] == "011"[1] == '1';
    }
  }

  /** The attempts the page may make, in order: the given region alone, or the
      raw string, then the "011"-stripped string, then the "00"-stripped one,
      all under "US". */
  function Candidates(numberString: string, region: Option<string>): (r: seq<Attempt>)
    ensures region.Some? ==> r == [Attempt(numberString, region.value)]
    ensures region.None? ==> |r| >= 1 && r[0] == Attempt(numberString, DefaultRegion)
    ensures region.None? ==> forall i :: 0 <= i < |r| ==> r[i].region == DefaultRegion
    ensures |r| <= 2
  {
    match region
    case Some(given) => [Attempt(numberString, given)]
    case None =>
      TrunkPrefixesExclusive(numberString);
      [Attempt(numberString, DefaultRegion)]
      + (if HasPrefix(numberString, "011") then [Attempt(DeletingPrefix(numberString, "011"), DefaultRegion)] else [])
      + (if HasPrefix(numberString, "00") then [Attempt(DeletingPrefix(numberString, "00"), DefaultRegion)] else [])
  }

  /** The first attempt that parses, if any. */
  function FirstSuccess<PN>(kit: Authority<PN>, attempts: seq<Attempt>, ignoreType: bool): (r: Option<PN>)
    ensures r.None? <==> forall i :: 0 <= i < |attempts| ==> Try(kit, attempts[i], ignoreType).None?
    ensures r.Some? ==> exists i :: 0 <= i < |attempts| && Try(kit, attempts[i], ignoreType) == r &&
                          forall j :: 0 <= j < i ==> Try(kit, attempts[j], ignoreType).None?
  {
    if attempts == [] then None
    else
      var first := Try(kit, attempts[0], ignoreType);
      if first.Some? then
        first
      else
        var rest := FirstSuccess(kit, attempts[1..], ignoreType);
        assert forall i :: 1 <= i < |attempts| ==> attempts[i] == attempts[1..][i - 1];
        rest
  }

  /** The attempts actually submitted: every candidate up to and including the
      first one that parses. */
  function Tried<PN>(kit: Authority<PN>, attempts: seq<Attempt>, ignoreType: bool): (r: seq<Attempt>)
    ensures r <= attempts
    ensures forall i :: 0 <= i < |r| - 1 ==> Try(kit, r[i], ignoreType).None?
    ensures r != attempts ==> r != [] && Try(kit, r[|r| - 1], ignoreType).Some?
  {
    if attempts == [] then []
    else if Try(kit, attempts[0], ignoreType).Some? then [attempts[0]]
    else
      var rest := Tried(kit, attempts[1..], ignoreType);
      var r := [attempts[0]] + rest;
      assert forall i :: 1 <= i < |r| ==> r[i] == rest[i - 1];
      r
  }

  /** The last call made is the one whose answer the search returns. */
  lemma {:induction false} TriedEndsAtFirstSuccess<PN>(kit: Authority<PN>, attempts: seq<Attempt>, ignoreType: bool)
    ensures var t := Tried(kit, attempts, ignoreType);
      FirstSuccess(kit, attempts, ignoreType) == if t == [] then None else Try(kit, t[|t| - 1], ignoreType)
  {
    if attempts != [] && Try(kit, attempts[0], ignoreType).None? {
      var tail := attempts[1..];
      var rest := Tried(kit, tail, ignoreType);
      TriedEndsAtFirstSuccess(kit, tail, ignoreType);
      var t := [attempts[0]] + rest;
      assert Tried(kit, attempts, ignoreType) == t;
      assert FirstSuccess(kit, attempts, ignoreType) == FirstSuccess(kit, tail, ignoreType);
      if rest == [] {
        assert tail == [];
      } else {
        assert t[|t| - 1] == rest[|rest| - 1];
      }
    }
  }

  /** The search over one or two candidates, unfolded. */
  lemma SearchAtMostTwo<PN>(kit: Authority<PN>, attempts: seq<Attempt>, ignoreType: bool)
    requires 1 <= |attempts| <= 2
    ensures Try(kit, attempts[0], ignoreType).Some? || |attempts| == 1 ==>
      Tried(kit, attempts, ignoreType) == [attempts[0]] &&
      FirstSuccess(kit, attempts, ignoreType) == Try(kit, attempts[0], ignoreType)
    ensures Try(kit, attempts[0], ignoreType).None? && |attempts| == 2 ==>
      Tried(kit, attempts, ignoreType) == attempts &&
      FirstSuccess(kit, attempts, ignoreType) == Try(kit, attempts[1], ignoreType)
  {
    if Try(kit, attempts[0], ignoreType).None? && |attempts| == 2 {
      var rest := attempts[1..];
      assert rest == [attempts[1]] && rest[1..] == [];
      assert Tried(kit, rest, ignoreType) == rest;
      assert attempts == [attempts[0]] + rest;
    }
  }

  /** The country-code check: a parse with code 1 is kept only when the digits
      of the raw input and of its E.164 form agree once leading zeros are dropped. */
  predicate Accepts<PN>(kit: Authority<PN>, numberString: string, pn: PN) {
    kit.countryCode(pn) == DefaultCountryCode ==>
      DigitsOnlyWithoutLeadingZeros(numberString) == DigitsOnlyWithoutLeadingZeros(kit.formatE164(pn))
  }

  /** What `parseIfPossible` returns, stated over the candidate list: with a
      region, its one parse; without, the first successful candidate if it
      passes the check, and nil otherwise. */
  function Resolve<PN>(kit: Authority<PN>, numberString: string, region: Option<string>, ignoreType: bool): Option<PN> {
    var found := FirstSuccess(kit, Candidates(numberString, region), ignoreType);
    if region.None? && found.Some? && !Accepts(kit, numberString, found.value) then None else found
  }

  /** `parseIfPossible`. The ghost `attempts` records the calls it makes to
      `parse`, in the order it makes them; it is not part of the result. */
  method ParseIfPossible<PN>(kit: Authority<PN>, numberString: string, region: Option<string>, ignoreType: bool)
    returns (phone: Option<PN>, ghost attempts: seq<Attempt>)
    ensures attempts == Tried(kit, Candidates(numberString, region), ignoreType)
    ensures phone == Resolve(kit, numberString, region, ignoreType)
  {
    if region.Some? {
      attempts := [Attempt(numberString, region.value)];
      phone := kit.parse(numberString, region.value, ignoreType);
      return;
    }

    ghost var candidates := Candidates(numberString, None);
    TrunkPrefixesExclusive(numberString);
    SearchAtMostTwo(kit, candidates, ignoreType);

    var phoneNumber: Option<PN>;
    phoneNumber := kit.parse(numberString, DefaultRegion, ignoreType);
    attempts := [Attempt(numberString, DefaultRegion)];

    if phoneNumber.None? && HasPrefix(numberString, "011") {
      var trimmed := DeletingPrefix(numberString, "011");
      phoneNumber := kit.parse(trimmed, DefaultRegion, ignoreType);
      attempts := attempts + [Attempt(trimmed, DefaultRegion)];
    }

    if phoneNumber.None? && HasPrefix(numberString, "00") {
      var trimmed := DeletingPrefix(numberString, "00");
      phoneNumber := kit.parse(trimmed, DefaultRegion, ignoreType);
      attempts := attempts + [Attempt(trimmed, DefaultRegion)];
    }
    assert attempts == Tried(kit, candidates, ignoreType);
    assert phoneNumber == FirstSuccess(kit, candidates, ignoreType);

    if phoneNumber.None? {
      return None, attempts;
    }

    var pn := phoneNumber.value;
    if kit.countryCode(pn) == DefaultCountryCode {
      var standardized := kit.formatE164(pn);
      if DigitsOnlyWithoutLeadingZeros(numberString) != DigitsOnlyWithoutLeadingZeros(standardized) {
        return None, attempts;
      }
    }

    phone := phoneNumber;
  }

  /** With a region: exactly one call, under that region, and its answer is
      returned as it is, whatever its country code. */
  lemma RegionGivenParsesOnce<PN>(kit: Authority<PN>, numberString: string, region: string, ignoreType: bool)
    ensures Tried(kit, Candidates(numberString, Some(region)), ignoreType) == [Attempt(numberString, region)]
    ensures Resolve(kit, numberString, Some(region), ignoreType) == kit.parse(numberString, region, ignoreType)
  {
  }

  /** Without a region: the raw string is tried first under "US"; a second call
      happens only when the first failed and the input starts with "011" or "00",
      and it submits the input with that prefix removed, again under "US". */
  lemma NoRegionAttemptOrder<PN>(kit: Authority<PN>, numberString: string, ignoreType: bool)
    ensures var t := Tried(kit, Candidates(numberString, None), ignoreType);
      1 <= |t| <= 2 && t[0] == Attempt(numberString, DefaultRegion)
    ensures var t := Tried(kit, Candidates(numberString, None), ignoreType);
      |t| == 2 <==> kit.parse(numberString, DefaultRegion, ignoreType).None? &&
                    (HasPrefix(numberString, "011") || HasPrefix(numberString, "00"))
    ensures var t := Tried(kit, Candidates(numberString, None), ignoreType);
      |t| == 2 && HasPrefix(numberString, "011") ==> t[1] == Attempt(DeletingPrefix(numberString, "011"), DefaultRegion)
    ensures var t := Tried(kit, Candidates(numberString, None), ignoreType);
      |t| == 2 && HasPrefix(numberString, "00") ==> t[1] == Attempt(DeletingPrefix(numberString, "00"), DefaultRegion)
  {
    var c := Candidates(numberString, None);
    var t := Tried(kit, c, ignoreType);
    TrunkPrefixesExclusive(numberString);
    assert c[0] == Attempt(numberString, DefaultRegion);
    if kit.parse(numberString, DefaultRegion, ignoreType).None? && |c| == 2 {
      assert c[1..] == [c[1]];
      assert t == [c[0], c[1]];
    }
  }

  /** Without a region the outcome is decided by the last attempt made: nil when
      it failed too (so every attempt failed); that parse unchanged when its
      country code is not 1; and, when it is 1, that parse exactly when the
      input and its E.164 form have the same digits without leading zeros, nil
      otherwise, with no further candidate tried. */
  lemma NoRegionOutcome<PN>(kit: Authority<PN>, numberString: string, ignoreType: bool)
    ensures var t := Tried(kit, Candidates(numberString, None), ignoreType);
      t != [] && forall i :: 0 <= i < |t| - 1 ==> Try(kit, t[i], ignoreType).None?
    ensures var t := Tried(kit, Candidates(numberString, None), ignoreType);
      var last := Try(kit, t[|t| - 1], ignoreType);
      last.None? ==> Resolve(kit, numberString, None, ignoreType) == None
    ensures var t := Tried(kit, Candidates(numberString, None), ignoreType);
      var last := Try(kit, t[|t| - 1], ignoreType);
      last.Some? && kit.countryCode(last.value) != DefaultCountryCode ==>
        Resolve(kit, numberString, None, ignoreType) == last
    ensures var t := Tried(kit, Candidates(numberString, None), ignoreType);
      var last := Try(kit, t[|t| - 1], ignoreType);
      last.Some? && kit.countryCode(last.value) == DefaultCountryCode ==>
        Resolve(kit, numberString, None, ignoreType) ==
          if DigitsOnlyWithoutLeadingZeros(numberString) == DigitsOnlyWithoutLeadingZeros(kit.formatE164(last.value))
          then last else None
  {
    var c := Candidates(numberString, None);
    var t := Tried(kit, c, ignoreType);
    assert t != [] by { assert c != [] && c[0] == t[0]; }
    TriedEndsAtFirstSuccess(kit, c, ignoreType);
  }

  /** Whatever the authority answers, a +1 number returned on the no-region
      path has the same digits without leading zeros as its E.164 form. */
  lemma NoRegionCountryCodeOneAgrees<PN>(kit: Authority<PN>, numberString: string, ignoreType: bool)
    ensures var r := Resolve(kit, numberString, None, ignoreType);
      r.Some? && kit.countryCode(r.value) == DefaultCountryCode ==>
        DigitsOnlyWithoutLeadingZeros(numberString) == DigitsOnlyWithoutLeadingZeros(kit.formatE164(r.value))
  {
  }
}
