/** Input sanitizing: trimming, case normalisation and the creation defaults. */
module Sanitizers {
  import opened Wrappers
  import opened Text
  import opened UserTypes

  /** `s || fallback` on strings: the empty string is falsy. */
  function OrDefault(s: Option<string>, fallback: string): (r: string)
    requires fallback != ""
    ensures r != ""
    ensures s.Some? && s.value != "" ==> r == s.value
    ensures s.None? || s.value == "" ==> r == fallback
  {
    if s.Some? && s.value != "" then s.value else fallback
  }

  /** `x?.trim()`. */
  function TrimOption(x: Option<string>): (r: Option<string>)
    ensures r.Some? <==> x.Some?
    ensures r.Some? ==> IsTrimmed(r.value)
  {
    if x.Some? then Some(Trim(x.value)) else None
  }

  /** Every letter of `s` is lower case in the ASCII sense. */
  predicate NoAsciiUpper(s: string)
  {
    forall k :: 0 <= k < |s| ==> !('A' <= s[k] <= 'Z')
  }

  predicate NoAsciiLower(s: string)
  {
    forall k :: 0 <= k < |s| ==> !('a' <= s[k] <= 'z')
  }

  /** `trim().toLowerCase()` on a username. */
  function NormalizeUsername(s: string): (r: string)
    ensures IsTrimmed(r) && NoAsciiUpper(r)
    ensures |r| == |Trim(s)|
  {
    LowerFacts(Trim(s));
    Lower(Trim(s))
  }

  /** `x?.trim().toLowerCase()`. */
  function NormalizeUsernameOption(x: Option<string>): (r: Option<string>)
    ensures r.Some? <==> x.Some?
    ensures r.Some? ==> IsTrimmed(r.value) && NoAsciiUpper(r.value)
  {
    if x.Some? then Some(NormalizeUsername(x.value)) else None
  }

  /** `trim().toUpperCase()` on a status. */
  function NormalizeStatus(s: string): (r: string)
    ensures IsTrimmed(r) && NoAsciiLower(r)
    ensures r == "" <==> Trim(s) == ""
  {
    UpperFacts(Trim(s));
    Upper(Trim(s))
  }

  /** `x?.trim().toUpperCase()`. */
  function NormalizeStatusOption(x: Option<string>): (r: Option<string>)
    ensures r.Some? <==> x.Some?
    ensures r.Some? ==> IsTrimmed(r.value) && NoAsciiLower(r.value)
    ensures r.Some? ==> (r.value == "" <==> Trim(x.value) == "")
  {
    if x.Some? then Some(NormalizeStatus(x.value)) else None
  }

  /** `role?.trim() || '1'`. */
  function RoleOrDefault(role: Option<string>): (r: string)
    ensures IsTrimmed(r) && r != ""
    ensures role.Some? && Trim(role.value) != "" ==> r == Trim(role.value)
    ensures role.None? || Trim(role.value) == "" ==> r == "1"
  {
    OrDefault(TrimOption(role), "1")
  }

  /** `status?.trim().toUpperCase() || 'A'`. */
  function StatusOrDefault(status: Option<string>): (r: string)
    ensures IsTrimmed(r) && NoAsciiLower(r) && r != ""
    ensures status.Some? && Trim(status.value) != "" ==> r == NormalizeStatus(status.value)
    ensures status.None? || Trim(status.value) == "" ==> r == "A"
  {
    OrDefault(NormalizeStatusOption(status), "A")
  }

  /**
    `sanitizeCreateUserInput`: text fields are trimmed, the username lower-cased,
    and a role or status that is absent or blank after trimming gets its default.
  */
  function SanitizeCreateUserInput(input: CreateUserInput): (r: SanitizedCreateUserInput)
    ensures IsTrimmed(r.username) && NoAsciiUpper(r.username)
    ensures IsTrimmed(r.email) && IsTrimmed(r.fullName)
    ensures IsTrimmed(r.role) && r.role != ""
    ensures IsTrimmed(r.status) && NoAsciiLower(r.status) && r.status != ""
    ensures input.role.Some? && Trim(input.role.value) != "" ==> r.role == Trim(input.role.value)
    ensures input.role.None? || Trim(input.role.value) == "" ==> r.role == "1"
    ensures input.status.Some? && Trim(input.status.value) != "" ==> r.status == NormalizeStatus(input.status.value)
    ensures input.status.None? || Trim(input.status.value) == "" ==> r.status == "A"
  {
    SanitizedCreateUserInput(
      NormalizeUsername(input.username),
      Trim(input.email),
      Trim(input.fullName),
      RoleOrDefault(input.role),
      StatusOrDefault(input.status))
  }

  /** `sanitizeUpdateUserInput`: the same normalisation on the present fields, with no defaults. */
  function SanitizeUpdateUserInput(input: UpdateUserInput): (r: UpdateUserInput)
    ensures r.username.Some? <==> input.username.Some?
    ensures r.email.Some? <==> input.email.Some?
    ensures r.fullName.Some? <==> input.fullName.Some?
    ensures r.role.Some? <==> input.role.Some?
    ensures r.status.Some? <==> input.status.Some?
    ensures r.username.Some? ==> IsTrimmed(r.username.value) && NoAsciiUpper(r.username.value)
    ensures r.email.Some? ==> IsTrimmed(r.email.value)
    ensures r.fullName.Some? ==> IsTrimmed(r.fullName.value)
    ensures r.role.Some? ==> IsTrimmed(r.role.value)
    ensures r.status.Some? ==> IsTrimmed(r.status.value) && NoAsciiLower(r.status.value)
    ensures input.username.Some? ==> r.username == Some(NormalizeUsername(input.username.value))
    ensures input.email.Some? ==> r.email == Some(Trim(input.email.value))
    ensures input.fullName.Some? ==> r.fullName == Some(Trim(input.fullName.value))
    ensures input.role.Some? ==> r.role == Some(Trim(input.role.value))
    ensures input.status.Some? ==> r.status == Some(NormalizeStatus(input.status.value))
    // No defaults on update: a blank role or status stays present and empty.
    ensures input.role.Some? && Trim(input.role.value) == "" ==> r.role == Some("")
    ensures input.status.Some? && Trim(input.status.value) == "" ==> r.status == Some("")
  {
    UpdateUserInput(
      NormalizeUsernameOption(input.username),
      TrimOption(input.email),
      TrimOption(input.fullName),
      TrimOption(input.role),
      NormalizeStatusOption(input.status))
  }

  /** A sanitized creation input, fed back as creation input. */
  function Resubmit(s: SanitizedCreateUserInput): CreateUserInput
  {
    CreateUserInput(s.username, s.email, s.fullName, Some(s.role), Some(s.status))
  }

  /** The same data, as an update in which every field is present. */
  function AsUpdate(input: CreateUserInput): UpdateUserInput
  {
    UpdateUserInput(Some(input.username), Some(input.email), Some(input.fullName), input.role, input.status)
  }

  lemma UsernameNormalIdempotent(s: string)
    ensures NormalizeUsername(NormalizeUsername(s)) == NormalizeUsername(s)
  {
    LowerFacts(Trim(s));
    TrimOfTrimmed(Lower(Trim(s)));
  }

  lemma StatusNormalIdempotent(s: string)
    ensures NormalizeStatus(NormalizeStatus(s)) == NormalizeStatus(s)
  {
    UpperFacts(Trim(s));
    TrimOfTrimmed(Upper(Trim(s)));
  }

  lemma RoleDefaultIdempotent(role: Option<string>)
    ensures RoleOrDefault(Some(RoleOrDefault(role))) == RoleOrDefault(role)
  {
    var r := RoleOrDefault(role);
    TrimOfTrimmed(r);
  }

  lemma StatusDefaultIdempotent(status: Option<string>)
    ensures StatusOrDefault(Some(StatusOrDefault(status))) == StatusOrDefault(status)
  {
    if status.Some? && Trim(status.value) != "" {
      var r := NormalizeStatus(status.value);
      StatusNormalIdempotent(status.value);
      TrimOfTrimmed(r);
      assert Trim(r) != "";
    } else {
      UppercaseAIsNormal();
    }
  }

  lemma UppercaseAIsNormal()
    ensures Trim("A") == "A" && NormalizeStatus("A") == "A"
  {
    assert IsTrimmed("A");
    TrimOfTrimmed("A");
    assert Upper("A")[0] == UpperChar('A') == 'A';
  }

  /** Sanitizing a sanitized creation input changes nothing. */
  lemma SanitizeCreateIdempotent(input: CreateUserInput)
    ensures SanitizeCreateUserInput(Resubmit(SanitizeCreateUserInput(input))) == SanitizeCreateUserInput(input)
  {
    UsernameNormalIdempotent(input.username);
    TrimIdempotent(input.email);
    TrimIdempotent(input.fullName);
    RoleDefaultIdempotent(input.role);
    StatusDefaultIdempotent(input.status);
  }

  /** Email and full name are the input with surrounding whitespace cut and case kept. */
  lemma EmailAndNameOnlyTrimmed(input: CreateUserInput)
    ensures SurroundedBySpace(input.email, SanitizeCreateUserInput(input).email, TrimOffset(input.email))
    ensures SurroundedBySpace(input.fullName, SanitizeCreateUserInput(input).fullName, TrimOffset(input.fullName))
    ensures IsTrimmed(SanitizeCreateUserInput(input).email) && IsTrimmed(SanitizeCreateUserInput(input).fullName)
  {
  }

  /**
    The username is the input's text between its leading and trailing
    whitespace, with each ASCII capital lowered.
  */
  lemma UsernameIsLoweredTrim(s: string)
    ensures var i := TrimOffset(s);
            && |NormalizeUsername(s)| == |Trim(s)|
            && (forall k :: 0 <= k < i ==> IsJsSpace(s[k]))
            && (forall k :: i + |Trim(s)| <= k < |s| ==> IsJsSpace(s[k]))
            && forall k :: 0 <= k < |Trim(s)| ==> NormalizeUsername(s)[k] == LowerChar(s[i + k])
  {
  }

  /**
    The status is the input's text between its leading and trailing
    whitespace, with each ASCII lower-case letter raised.
  */
  lemma StatusIsUpperedTrim(s: string)
    ensures var i := TrimOffset(s);
            && |NormalizeStatus(s)| == |Trim(s)|
            && (forall k :: 0 <= k < i ==> IsJsSpace(s[k]))
            && (forall k :: i + |Trim(s)| <= k < |s| ==> IsJsSpace(s[k]))
            && forall k :: 0 <= k < |Trim(s)| ==> NormalizeStatus(s)[k] == UpperChar(s[i + k])
  {
  }

  /** Sanitizing a sanitized update changes nothing. */
  lemma SanitizeUpdateIdempotent(input: UpdateUserInput)
    ensures SanitizeUpdateUserInput(SanitizeUpdateUserInput(input)) == SanitizeUpdateUserInput(input)
  {
    if input.username.Some? { UsernameNormalIdempotent(input.username.value); }
    if input.email.Some? { TrimIdempotent(input.email.value); }
    if input.fullName.Some? { TrimIdempotent(input.fullName.value); }
    if input.role.Some? { TrimIdempotent(input.role.value); }
    if input.status.Some? { StatusNormalIdempotent(input.status.value); }
  }

  /**
    Creation sanitizing is update sanitizing plus the two defaults: every field
    agrees with the update's result, and role and status fall back to '1' and
    'A' exactly where the update leaves them absent or empty.
  */
  lemma CreateIsUpdateWithDefaults(input: CreateUserInput)
    ensures var c := SanitizeCreateUserInput(input);
            var u := SanitizeUpdateUserInput(AsUpdate(input));
            && u.username == Some(c.username) && u.email == Some(c.email) && u.fullName == Some(c.fullName)
            && c.role == OrDefault(u.role, "1")
            && c.status == OrDefault(u.status, "A")
  {
  }
}
