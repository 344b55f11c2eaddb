/** Normalisation of an Apple Sign-In request (`AppleAuthUtils`). No signature is
    checked: a request is accepted as soon as it carries an identity token and an
    Apple subject id, and the display name is derived from the optional name parts
    Apple sends on first consent. Optional strings follow JavaScript truthiness:
    an empty string counts as absent. */
module AppleAuth {
  import opened Common

  /** The body of an Apple login request. */
  datatype AppleAuthDto = AppleAuthDto(
    appleId: Option<string>,
    email: Option<string>,
    givenName: Option<string>,
    familyName: Option<string>,
    identityToken: Option<string>,
    authorizationCode: Option<string>)

  /** The answer of `verifyAppleToken`; the optional fields are absent when invalid. */
  datatype AppleVerification = AppleVerification(
    isValid: bool,
    appleId: Option<string>,
    email: Option<string>,
    name: Option<string>)

  /** The answer of `extractUserInfo`. */
  datatype AppleUserInfo = AppleUserInfo(appleId: Option<string>, email: Option<string>, name: string)

  const FALLBACK_NAME := "Apple User"

  /** The name parts that are present, given name first. */
  function PresentParts(given: Option<string>, family: Option<string>): (parts: seq<string>)
    ensures forall p :: p in parts ==> p != ""
    ensures |parts| <= 2
  {
    (if Truthy(given) then [given.value] else []) + (if Truthy(family) then [family.value] else [])
  }

  /** The parts joined with single spaces. */
  function SpaceJoin(parts: seq<string>): string
  {
    if parts == [] then ""
    else if |parts| == 1 then parts[0]
    else parts[0] + " " + SpaceJoin(parts[1..])
  }

  /** A reference reading of the naming rule: the present parts joined by a space,
      or the placeholder when there are none. */
  function ReferenceName(given: Option<string>, family: Option<string>): string
  {
    var parts := PresentParts(given, family);
    if parts == [] then FALLBACK_NAME else SpaceJoin(parts)
  }

  /** The display name as both operations compute it: given and family name
      separated by a space when both are present, else whichever is present,
      else the placeholder. */
  function DisplayName(given: Option<string>, family: Option<string>): (name: string)
    ensures name != ""
  {
    if Truthy(given) && Truthy(family) then given.value + " " + family.value
    else if Truthy(given) then given.value
    else if Truthy(family) then family.value
    else FALLBACK_NAME
  }

  /** The naming rule agrees with its reference reading on every input. */
  lemma DisplayNameIsReference(given: Option<string>, family: Option<string>)
    ensures DisplayName(given, family) == ReferenceName(given, family)
  {
    if Truthy(given) && Truthy(family) {
      var parts := PresentParts(given, family);
      assert parts == [given.value, family.value];
      assert parts[1..] == [family.value];
      assert SpaceJoin(parts[1..]) == family.value;
      assert SpaceJoin(parts) == given.value + " " + family.value;
    }
  }

  /** The three cases of the naming rule, spelled out. */
  lemma DisplayNameCases(given: Option<string>, family: Option<string>)
    ensures Truthy(given) && Truthy(family) ==> DisplayName(given, family) == given.value + " " + family.value
    ensures Truthy(given) && !Truthy(family) ==> DisplayName(given, family) == given.value
    ensures !Truthy(given) && Truthy(family) ==> DisplayName(given, family) == family.value
    ensures !Truthy(given) && !Truthy(family) ==> DisplayName(given, family) == FALLBACK_NAME
  {
  }

  /** When both parts are present, the name starts with the given name and ends with
      the family name, one space between them. */
  lemma DisplayNameSplits(given: Option<string>, family: Option<string>)
    requires Truthy(given) && Truthy(family)
    ensures var name := DisplayName(given, family);
            && |name| == |given.value| + 1 + |family.value|
            && name[..|given.value|] == given.value
            && name[|given.value|] == ' '
            && name[|given.value| + 1..] == family.value
  {
    var name := DisplayName(given, family);
    assert name == given.value + " " + family.value;
    assert name[..|given.value|] == given.value;
    assert name[|given.value| + 1..] == family.value;
  }

  /** `verifyAppleToken`: valid exactly when identity token and Apple id are both
      present and non-empty; a valid answer copies the Apple id and the email as
      they came and carries the display name; an invalid one carries nothing else. */
  function VerifyAppleToken(dto: AppleAuthDto): (r: AppleVerification)
    ensures r.isValid <==> Truthy(dto.identityToken) && Truthy(dto.appleId)
    ensures !r.isValid ==> r.appleId.None? && r.email.None? && r.name.None?
    ensures r.isValid ==> r.appleId == dto.appleId && r.email == dto.email
    ensures r.isValid ==> r.name.Some? && r.name.value != ""
  {
    if Truthy(dto.identityToken) && Truthy(dto.appleId) then
      AppleVerification(true, dto.appleId, dto.email, Some(DisplayName(dto.givenName, dto.familyName)))
    else
      AppleVerification(false, None, None, None)
  }

  /** `extractUserInfo`: copies the Apple id and the email and derives the name,
      without checking anything. */
  function ExtractUserInfo(dto: AppleAuthDto): (r: AppleUserInfo)
    ensures r.appleId == dto.appleId && r.email == dto.email
    ensures r.name != ""
  {
    AppleUserInfo(dto.appleId, dto.email, DisplayName(dto.givenName, dto.familyName))
  }

  /** The two operations agree on every valid request. */
  lemma VerifyAgreesWithExtract(dto: AppleAuthDto)
    requires VerifyAppleToken(dto).isValid
    ensures var v := VerifyAppleToken(dto);
            var info := ExtractUserInfo(dto);
            v.appleId == info.appleId && v.email == info.email && v.name == Some(info.name)
  {
  }
}
