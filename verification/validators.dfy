/**
  The input validators. Each regular expression of the validators is read as a
  language over strings; `\s` is ECMAScript whitespace, and every character the
  expressions accept is in the Basic Multilingual Plane, so JavaScript's length
  in code units is the number of characters.
*/
module Validators {
  import opened Wrappers
  import opened Text
  import opened UserTypes

  predicate IsAsciiAlnum(c: char)
  {
    ('a' <= c <= 'z') || ('A' <= c <= 'Z') || ('0' <= c <= '9')
  }

  /** The class `[a-zA-Z0-9._-]`. */
  predicate IsUsernameChar(c: char)
  {
    IsAsciiAlnum(c) || c == '.' || c == '_' || c == '-'
  }

  /** Every character of `s` is in `[a-zA-Z0-9._-]`. */
  function UsernameRun(s: string): (ok: bool)
    ensures ok <==> forall k :: 0 <= k < |s| ==> IsUsernameChar(s[k])
  {
    |s| == 0 || (IsUsernameChar(s[0]) && UsernameRun(s[1..]))
  }

  /**
    The usernames accepted: 2 to 19 characters from `[a-zA-Z0-9._-]`, starting
    and ending with a letter or digit.
  */
  ghost predicate UsernameShape(s: string)
  {
    && 2 <= |s| <= 19
    && IsAsciiAlnum(s[0]) && IsAsciiAlnum(s[|s| - 1])
    && forall k :: 0 <= k < |s| ==> IsUsernameChar(s[k])
  }

  /**
    `isValidUsername`, read off `^(?=[a-zA-Z0-9])[a-zA-Z0-9._-]{1,18}[a-zA-Z0-9]$`:
    a look-ahead on the first character, a run of 1 to 18 class characters, and a
    final letter or digit.
  */
  function IsValidUsername(s: string): (ok: bool)
    ensures ok <==> UsernameShape(s)
  {
    && |s| >= 1
    && var run := s[..|s| - 1];
    && IsAsciiAlnum(s[0])
    && 1 <= |run| <= 18
    && UsernameRun(run)
    && IsAsciiAlnum(s[|s| - 1])
  }

  /**
    The lengths the expression allows are 2 to 19, not the "3 e 20" its comment and
    error message state: a two-letter name passes and a twenty-letter one fails.
  */
  lemma UsernameLengthsAreTwoToNineteen()
    ensures IsValidUsername("ab")
    ensures IsValidUsername("abcdefghijklmnopqrs")
    ensures !IsValidUsername("abcdefghijklmnopqrst")
    ensures !IsValidUsername("a")
  {
    assert !UsernameShape("abcdefghijklmnopqrst");
  }

  /** The class `[^\s@]`. */
  predicate IsEmailChar(c: char)
  {
    !IsJsSpace(c) && c != '@'
  }

  function EmailRun(s: string): (ok: bool)
    ensures ok <==> forall k :: 0 <= k < |s| ==> IsEmailChar(s[k])
  {
    |s| == 0 || (IsEmailChar(s[0]) && EmailRun(s[1..]))
  }

  /**
    `^[^\s@]+@[^\s@]+\.[^\s@]+$` matched with the `@` at `i` and the chosen dot at
    `j`: each of the three runs is non-empty and every other character is neither
    whitespace nor `@`.
  */
  ghost predicate EmailSplit(s: string, i: int, j: int)
  {
    && 0 < i && i + 1 < j && j + 1 < |s|
    && s[i] == '@' && s[j] == '.'
    && forall k :: 0 <= k < |s| && k != i ==> IsEmailChar(s[k])
  }

  /** The first `@` of `s`, if any. */
  function IndexOfAt(s: string): (r: Option<nat>)
    ensures r.Some? ==> r.value < |s| && s[r.value] == '@' && forall k :: 0 <= k < r.value ==> s[k] != '@'
    ensures r.None? ==> forall k :: 0 <= k < |s| ==> s[k] != '@'
  {
    if |s| == 0 then None
    else if s[0] == '@' then Some(0)
    else
      var rest := IndexOfAt(s[1..]);
      if rest.None? then None else Some(rest.value + 1)
  }

  /** The domain has a dot that is neither its first nor its last character. */
  predicate HasInnerDot(d: string)
  {
    exists j :: 0 < j < |d| - 1 && d[j] == '.'
  }

  /** `isValidEmail`: find the `@`, then check the local part and the domain. */
  function IsValidEmail(s: string): (ok: bool)
    ensures ok <==> exists i, j :: EmailSplit(s, i, j)
  {
    match IndexOfAt(s)
    case None =>
      assert forall i, j :: !EmailSplit(s, i, j);
      false
    case Some(i) =>
      var local := s[..i];
      var domain := s[i + 1..];
      var ok := i > 0 && EmailRun(local) && EmailRun(domain) && HasInnerDot(domain);
      assert ok ==> exists i', j :: EmailSplit(s, i', j) by {
        if ok {
          var jd :| 0 < jd < |domain| - 1 && domain[jd] == '.';
          assert forall k :: 0 <= k < |s| && k != i ==> (k < i ==> s[k] == local[k]) && (k > i ==> s[k] == domain[k - i - 1]);
          assert EmailSplit(s, i, i + 1 + jd);
        }
      }
      assert (exists i', j :: EmailSplit(s, i', j)) ==> ok by {
        if exists i', j :: EmailSplit(s, i', j) {
          var i', j :| EmailSplit(s, i', j);
          assert i' == i;
          assert domain[j - i - 1] == '.';
        }
      }
      ok
  }

  /** An accepted address has exactly one `@`, no whitespace, and a dot inside its domain. */
  lemma AcceptedEmailShape(s: string)
    requires IsValidEmail(s)
    ensures exists i :: 0 < i < |s| && s[i] == '@' && forall k :: 0 <= k < |s| && k != i ==> s[k] != '@'
    ensures forall k :: 0 <= k < |s| ==> !IsJsSpace(s[k])
  {
    var i, j :| EmailSplit(s, i, j);
  }

  /** The shortest accepted form, and two near misses. */
  lemma EmailExamples()
    ensures IsValidEmail("a@b.c")
    ensures !IsValidEmail("a@b")
    ensures !IsValidEmail("a@b@c.d")
  {
    assert EmailSplit("a@b.c", 1, 3);
    assert forall i, j :: !EmailSplit("a@b", i, j);
    assert forall i, j :: EmailSplit("a@b@c.d", i, j) ==> i == 1 || i == 3;
  }

  /** `[A-Za-zÀ-ÖØ-öø-ÿ' -]`. */
  predicate IsNameChar(c: char)
  {
    || ('A' <= c <= 'Z') || ('a' <= c <= 'z')
    || ('\U{00C0}' <= c <= '\U{00D6}') || ('\U{00D8}' <= c <= '\U{00F6}') || ('\U{00F8}' <= c <= '\U{00FF}')
    || c == '\'' || c == ' ' || c == '-'
  }

  function NameRun(s: string): (ok: bool)
    ensures ok <==> forall k :: 0 <= k < |s| ==> IsNameChar(s[k])
  {
    |s| == 0 || (IsNameChar(s[0]) && NameRun(s[1..]))
  }

  /** `isValidFullName`: the trimmed name is 3 to 50 characters of the name class. */
  function IsValidFullName(s: string): (ok: bool)
    ensures ok <==> var t := Trim(s); 3 <= |t| <= 50 && forall k :: 0 <= k < |t| ==> IsNameChar(t[k])
  {
    var t := Trim(s);
    3 <= |t| <= 50 && NameRun(t)
  }

  /** Whitespace around a name never changes its verdict. */
  lemma FullNameIgnoresSurroundingSpace(s: string, c: char)
    requires IsJsSpace(c)
    ensures IsValidFullName([c] + s) == IsValidFullName(s)
    ensures IsValidFullName(s + [c]) == IsValidFullName(s)
  {
    TrimIgnoresLeadingSpace(s, c);
    TrimIgnoresTrailingSpace(s, c);
    SameTrimSameVerdict([c] + s, s);
    SameTrimSameVerdict(s + [c], s);
  }

  lemma SameTrimSameVerdict(a: string, b: string)
    requires Trim(a) == Trim(b)
    ensures IsValidFullName(a) == IsValidFullName(b)
  {
  }

  /** A digit anywhere fails the name. */
  lemma NameWithDigitIsInvalid()
    ensures !IsValidFullName("Ana 2")
  {
    assert IsTrimmed("Ana 2");
    TrimOfTrimmed("Ana 2");
    assert !IsNameChar("Ana 2"[4]);
  }

  /** The limit is 50 characters, although the error message speaks of 100. */
  lemma FiftyOneLettersAreTooMany()
    ensures !IsValidFullName(seq(51, _ => 'a'))
  {
    var long := seq(51, _ => 'a');
    assert IsTrimmed(long);
    TrimOfTrimmed(long);
  }

  predicate IsValidRole(role: string)
  {
    role == "0" || role == "1"
  }

  /** Creation and update accept 'A' and 'I'; the stored status 'B' is refused. */
  predicate IsValidStatus(status: string)
  {
    status == "A" || status == "I"
  }

  /** One error per message the validator throws. */
  datatype ValidationError = InvalidUsername | InvalidEmail | InvalidFullName | InvalidRole | InvalidStatus

  function ValidationMessage(e: ValidationError): string
  {
    match e
    case InvalidUsername =>
      "Username inválido. Use apenas letras, números, pontos, underscores ou hífens, entre 3 e 20 caracteres."
    case InvalidEmail => "Formato de e-mail inválido."
    case InvalidFullName =>
      "Nome completo inválido. Use apenas letras, espaços, apóstrofos e hífens, entre 3 e 100 caracteres."
    case InvalidRole => "Role inválido. Os valores permitidos são '0' (Admin) ou '1' (Usuário comum)."
    case InvalidStatus => "Status inválido. Os valores permitidos na criação são 'A' (Ativo) ou 'I' (Inativo)."
  }

  /** A present field passes its check; an absent one is never checked. */
  predicate FieldOk(field: Option<string>, check: string -> bool)
  {
    field.None? || check(field.value)
  }

  /**
    `validateUserInput`: the present fields are checked in the order username,
    email, full name, role, status, and the first failure is the error.
  */
  function ValidateUserInput(input: UpdateUserInput): (r: Outcome)
    ensures r.Pass? <==>
              && FieldOk(input.username, IsValidUsername) && FieldOk(input.email, IsValidEmail)
              && FieldOk(input.fullName, IsValidFullName) && FieldOk(input.role, IsValidRole)
              && FieldOk(input.status, IsValidStatus)
    ensures r == Fail(InvalidUsername) <==> !FieldOk(input.username, IsValidUsername)
    ensures r == Fail(InvalidEmail) <==>
              FieldOk(input.username, IsValidUsername) && !FieldOk(input.email, IsValidEmail)
    ensures r == Fail(InvalidFullName) <==>
              && FieldOk(input.username, IsValidUsername) && FieldOk(input.email, IsValidEmail)
              && !FieldOk(input.fullName, IsValidFullName)
    ensures r == Fail(InvalidRole) <==>
              && FieldOk(input.username, IsValidUsername) && FieldOk(input.email, IsValidEmail)
              && FieldOk(input.fullName, IsValidFullName) && !FieldOk(input.role, IsValidRole)
    ensures r == Fail(InvalidStatus) <==>
              && FieldOk(input.username, IsValidUsername) && FieldOk(input.email, IsValidEmail)
              && FieldOk(input.fullName, IsValidFullName) && FieldOk(input.role, IsValidRole)
              && !FieldOk(input.status, IsValidStatus)
  {
    if input.username.Some? && !IsValidUsername(input.username.value) then Fail(InvalidUsername)
    else if input.email.Some? && !IsValidEmail(input.email.value) then Fail(InvalidEmail)
    else if input.fullName.Some? && !IsValidFullName(input.fullName.value) then Fail(InvalidFullName)
    else if input.role.Some? && !IsValidRole(input.role.value) then Fail(InvalidRole)
    else if input.status.Some? && !IsValidStatus(input.status.value) then Fail(InvalidStatus)
    else Pass
  }

  /** The validator either passes or throws one of its errors. */
  datatype Outcome = Pass | Fail(error: ValidationError)

  /** The input holding only field number `i` of `input`, in validation order. */
  function OnlyField(input: UpdateUserInput, i: nat): UpdateUserInput
  {
    UpdateUserInput(
      if i == 0 then input.username else None,
      if i == 1 then input.email else None,
      if i == 2 then input.fullName else None,
      if i == 3 then input.role else None,
      if i == 4 then input.status else None)
  }

  /**
    The order of the checks decides only which error is reported: an input
    passes exactly when each of its fields passes on its own, and a failing
    input reports the error its first failing field reports alone.
  */
  lemma ValidationIsFieldByField(input: UpdateUserInput)
    ensures ValidateUserInput(input).Pass? <==> forall i :: 0 <= i < 5 ==> ValidateUserInput(OnlyField(input, i)).Pass?
    ensures ValidateUserInput(input).Fail? ==>
              exists i :: 0 <= i < 5 && ValidateUserInput(input) == ValidateUserInput(OnlyField(input, i))
                          && forall j :: 0 <= j < i ==> ValidateUserInput(OnlyField(input, j)).Pass?
  {
    OnlyFieldVerdicts(input);
    var r := ValidateUserInput(input);
    if r.Fail? {
      var i := match r.error
        case InvalidUsername => 0
        case InvalidEmail => 1
        case InvalidFullName => 2
        case InvalidRole => 3
        case InvalidStatus => 4;
      assert ValidateUserInput(input) == ValidateUserInput(OnlyField(input, i));
    }
  }

  /** Each field alone fails with its own error exactly when it is present and invalid. */
  lemma OnlyFieldVerdicts(input: UpdateUserInput)
    ensures ValidateUserInput(OnlyField(input, 0)) == if FieldOk(input.username, IsValidUsername) then Pass else Fail(InvalidUsername)
    ensures ValidateUserInput(OnlyField(input, 1)) == if FieldOk(input.email, IsValidEmail) then Pass else Fail(InvalidEmail)
    ensures ValidateUserInput(OnlyField(input, 2)) == if FieldOk(input.fullName, IsValidFullName) then Pass else Fail(InvalidFullName)
    ensures ValidateUserInput(OnlyField(input, 3)) == if FieldOk(input.role, IsValidRole) then Pass else Fail(InvalidRole)
    ensures ValidateUserInput(OnlyField(input, 4)) == if FieldOk(input.status, IsValidStatus) then Pass else Fail(InvalidStatus)
  {
  }
}
