/** The client's form checks (frontend/src/utils/FormValidator.ts): an ordered
    chain of guards over the registration fields, the first failing guard
    deciding the error message, and the emptiness check of the login form.
    A thrown `Error` is an `Err` carrying its message. */
module FormValidator {
  import opened Wrappers
  import Text

  const MinUsernameLength := 3
  const MinPasswordLength := 8
  const MinFirstNameLength := 2
  const MinLastNameLength := 2

  const FillInAllFields := "Please fill in all fields"
  const UsernameTooShort := "Username must be at least 3 characters long"
  const PasswordTooShort := "Password must be at least 8 characters long"
  const InvalidEmail := "Please enter a valid email address"
  const FirstNameTooShort := "First name must be at least 2 characters long"
  const LastNameTooShort := "Last name must be at least 2 characters long"

  /** A field is truthy in JavaScript when it is present and not the empty
      string (`undefined`, `null` and `""` are all falsy). */
  predicate Filled(v: Option<string>)
  {
    v.Some? && v.value != ""
  }

  /** JavaScript's `length`: UTF-16 code units, two for a character beyond the
      Basic Multilingual Plane. */
  function Utf16Length(s: string): (n: nat)
    ensures |s| <= n <= 2 * |s|
    ensures (forall i :: 0 <= i < |s| ==> s[i] as int < 0x1_0000) ==> n == |s|
    decreases |s|
  {
    if s == [] then 0
    else (if s[0] as int < 0x1_0000 then 1 else 2) + Utf16Length(s[1..])
  }

  /** A character of the class `[^\s@]`. */
  predicate Plain(c: char)
  {
    !Text.IsJsWhitespace(c) && c != '@'
  }

  predicate AllPlain(s: string)
  {
    forall i :: 0 <= i < |s| ==> Plain(s[i])
  }

  /** `EMAIL_REGEX`, `^[^\s@]+@[^\s@]+\.[^\s@]+$`, read as its structure: the
      string splits at an '@' (index `i`) and a later '.' (index `j`) into
      three non-empty runs of plain characters. */
  ghost predicate MatchesEmailRegex(s: string)
  {
    exists i, j :: 0 < i && i + 1 < j && j + 1 < |s| && s[i] == '@' && s[j] == '.'
      && AllPlain(s[..i]) && AllPlain(s[i + 1..j]) && AllPlain(s[j + 1..])
  }

  /** The executable reading of the regular expression: exactly one '@' after
      a non-empty local part, no whitespace, and a '.' in the domain that is
      neither its first nor its last character. */
  function IsValidEmail(s: string): (b: bool)
  {
    match Text.IndexOf(s, '@')
    case None => false
    case Some(i) =>
      var domain := s[i + 1..];
      0 < i && AllPlain(s[..i]) && AllPlain(domain) && |domain| >= 3 && '.' in domain[1..|domain| - 1]
  }

  /** The executable check accepts exactly the strings the regular expression
      matches. */
  lemma EmailCheckIsRegex(s: string)
    ensures IsValidEmail(s) <==> MatchesEmailRegex(s)
  {
    if IsValidEmail(s) {
      ValidEmailMatches(s);
    }
    if MatchesEmailRegex(s) {
      var i, j :| 0 < i && i + 1 < j && j + 1 < |s| && s[i] == '@' && s[j] == '.'
        && AllPlain(s[..i]) && AllPlain(s[i + 1..j]) && AllPlain(s[j + 1..]);
      MatchIsValidEmail(s, i, j);
    }
  }

  lemma ValidEmailMatches(s: string)
    requires IsValidEmail(s)
    ensures MatchesEmailRegex(s)
  {
    var i := Text.IndexOf(s, '@').value;
    var domain := s[i + 1..];
    var inner := domain[1..|domain| - 1];
    var k :| 0 <= k < |inner| && inner[k] == '.';
    var j := i + 2 + k;
    assert s[j] == '.';
    assert s[i + 1..j] == domain[..k + 1];
    assert s[j + 1..] == domain[k + 2..];
  }

  lemma MatchIsValidEmail(s: string, i: int, j: int)
    requires 0 < i && i + 1 < j && j + 1 < |s| && s[i] == '@' && s[j] == '.'
    requires AllPlain(s[..i]) && AllPlain(s[i + 1..j]) && AllPlain(s[j + 1..])
    ensures IsValidEmail(s)
  {
    FirstAt(s, i);
    var domain := s[i + 1..];
    assert AllPlain(domain) by {
      forall t | 0 <= t < |domain| ensures Plain(domain[t]) {
        if i + 1 + t < j {
          assert domain[t] == s[i + 1..j][t];
        } else if i + 1 + t > j {
          assert domain[t] == s[j + 1..][t - (j - i)];
        }
      }
    }
    assert domain[1..|domain| - 1][j - i - 2] == '.';
  }

  /** An '@' preceded only by plain characters is the first '@'. */
  lemma FirstAt(s: string, i: int)
    requires 0 <= i < |s| && s[i] == '@' && AllPlain(s[..i])
    ensures Text.IndexOf(s, '@') == Some(i)
  {
  }

  /** `validateRegisterForm`: the checks in source order, the first failure
      deciding the message; `Ok(true)` when all pass. */
  function ValidateRegisterForm(username: Option<string>, password: Option<string>, firstName: Option<string>,
                                lastName: Option<string>, email: Option<string>): (r: Result<bool, string>)
    ensures var filled := Filled(username) && Filled(password) && Filled(firstName) && Filled(lastName) && Filled(email);
      && (r == Err(FillInAllFields) <==> !filled)
      && (r == Err(UsernameTooShort) <==> filled && Utf16Length(username.value) < MinUsernameLength)
      && (r == Err(PasswordTooShort) <==> (filled && Utf16Length(username.value) >= MinUsernameLength
            && Utf16Length(password.value) < MinPasswordLength))
      && (r == Err(InvalidEmail) <==> (filled && Utf16Length(username.value) >= MinUsernameLength
            && Utf16Length(password.value) >= MinPasswordLength && !MatchesEmailRegex(email.value)))
      && (r == Err(FirstNameTooShort) <==> (filled && Utf16Length(username.value) >= MinUsernameLength
            && Utf16Length(password.value) >= MinPasswordLength && MatchesEmailRegex(email.value)
            && Utf16Length(firstName.value) < MinFirstNameLength))
      && (r == Err(LastNameTooShort) <==> (filled && Utf16Length(username.value) >= MinUsernameLength
            && Utf16Length(password.value) >= MinPasswordLength && MatchesEmailRegex(email.value)
            && Utf16Length(firstName.value) >= MinFirstNameLength && Utf16Length(lastName.value) < MinLastNameLength))
      && (r.Ok? <==> (filled && Utf16Length(username.value) >= MinUsernameLength
            && Utf16Length(password.value) >= MinPasswordLength && MatchesEmailRegex(email.value)
            && Utf16Length(firstName.value) >= MinFirstNameLength && Utf16Length(lastName.value) >= MinLastNameLength))
      && (r.Ok? ==> r.value)
  {
    if !Filled(username) || !Filled(password) || !Filled(firstName) || !Filled(lastName) || !Filled(email) then
      Err(FillInAllFields)
    else
      EmailCheckIsRegex(email.value);
      if Utf16Length(username.value) < MinUsernameLength then Err(UsernameTooShort)
      else if Utf16Length(password.value) < MinPasswordLength then Err(PasswordTooShort)
      else if !IsValidEmail(email.value) then Err(InvalidEmail)
      else if Utf16Length(firstName.value) < MinFirstNameLength then Err(FirstNameTooShort)
      else if Utf16Length(lastName.value) < MinLastNameLength then Err(LastNameTooShort)
      else Ok(true)
  }

  /** `validateLoginForm`: throws exactly when the username or the password is
      missing or empty. */
  function ValidateLoginForm(username: Option<string>, password: Option<string>): (r: Result<(), string>)
    ensures r.Err? <==> !Filled(username) || !Filled(password)
    ensures r.Err? ==> r.error == FillInAllFields
  {
    if !Filled(username) || !Filled(password) then Err(FillInAllFields) else Ok(())
  }

  /** Credentials a registration accepts also pass the login form's check. */
  lemma RegisteredCredentialsPassLogin(username: Option<string>, password: Option<string>, firstName: Option<string>,
                                       lastName: Option<string>, email: Option<string>)
    requires ValidateRegisterForm(username, password, firstName, lastName, email).Ok?
    ensures ValidateLoginForm(username, password).Ok?
    ensures Utf16Length(username.value) >= MinUsernameLength && Utf16Length(password.value) >= MinPasswordLength
  {
  }

  /** A typical address passes. */
  lemma AddressWithDotInDomainIsValid()
    ensures IsValidEmail("a@b.co")
  {
    var s := "a@b.co";
    FirstAt(s, 1);
    assert s[2..][1..3][0] == '.';
  }

  /** An address without a '.' in the domain fails. */
  lemma AddressWithoutDotIsInvalid()
    ensures !IsValidEmail("a@bco")
  {
    var s := "a@bco";
    FirstAt(s, 1);
    assert s[2..][1..2] == "c";
  }

  /** An empty local part fails. */
  lemma EmptyLocalPartIsInvalid()
    ensures !IsValidEmail("@b.co")
  {
    FirstAt("@b.co", 0);
  }

  /** A second '@' fails. */
  lemma SecondAtIsInvalid()
    ensures !IsValidEmail("a@b@c.d")
  {
    var s := "a@b@c.d";
    FirstAt(s, 1);
    assert !Plain(s[2..][1]);
  }
}
