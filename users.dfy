/**
 * The user role and the sign-up request schema: a password of at least
 * eight characters that contains at least one upper-case ASCII letter, and a
 * role that defaults to `member`.
 */
module Users {
  import opened Base

  /** The two roles a user can hold; a new user is a member unless told otherwise. */
  datatype Role = Member | Admin

  /** The `min_length` constraint on the password field. */
  const MinPasswordLength: nat := 8

  /** A sign-up request that passed validation. */
  datatype SignUpRequest = SignUpRequest(nickname: string, password: string, role: Role)

  /** Why a sign-up body is refused. */
  datatype SignUpError =
    | FieldConstraint   // the field constraints failed: HTTP 422
    | MissingUppercase  // the uppercase validator raised: HTTP 400

  function SignUpStatus(e: SignUpError): int
  {
    match e
    case FieldConstraint => 422
    case MissingUppercase => 400
  }

  /** The character class `[A-Z]`. */
  predicate IsAsciiUpper(c: char)
  {
    'A' <= c <= 'Z'
  }

  /** Some position of `s` holds an upper-case ASCII letter. */
  ghost predicate HasUppercase(s: string)
  {
    exists i :: 0 <= i < |s| && IsAsciiUpper(s[i])
  }

  /** `re.search(r"[A-Z]", s)` succeeds: scans `s` left to right for a match. */
  function SearchUppercase(s: string): (found: bool)
    ensures found <==> HasUppercase(s)
  {
    if s == [] then false
    else if IsAsciiUpper(s[0]) then true
    else
      var rest := SearchUppercase(s[1..]);
      assert HasUppercase(s[1..]) ==> HasUppercase(s) by {
        if HasUppercase(s[1..]) {
          var i :| 0 <= i < |s[1..]| && IsAsciiUpper(s[1..][i]);
          assert IsAsciiUpper(s[i + 1]);
        }
      }
      rest
  }

  /** The role field: the given role, or `member` when the body has none. */
  function RoleOrDefault(role: Option<Role>): (r: Role)
    ensures role.None? ==> r == Member
    ensures role.Some? ==> r == role.value
  {
    if role.Some? then role.value else Member
  }

  /**
   * Validation of a sign-up body. The field constraint (password length) is
   * checked first; the uppercase validator runs only on a password that
   * passed it, and an accepted password is kept unchanged.
   */
  function ValidateSignUp(nickname: string, password: string, role: Option<Role>): (r: Result<SignUpRequest, SignUpError>)
    ensures |password| < MinPasswordLength ==> r == Err(FieldConstraint)
    ensures |password| >= MinPasswordLength && !HasUppercase(password) ==> r == Err(MissingUppercase)
    ensures r.Ok? <==> |password| >= MinPasswordLength && HasUppercase(password)
    ensures r.Ok? ==> r.value.nickname == nickname && r.value.password == password
    ensures r.Ok? ==> r.value.role == RoleOrDefault(role)
  {
    if |password| < MinPasswordLength then Err(FieldConstraint)
    else if !SearchUppercase(password) then Err(MissingUppercase)
    else Ok(SignUpRequest(nickname, password, RoleOrDefault(role)))
  }

  /** An empty password is refused by the field constraint (422), never by the uppercase check (400). */
  lemma EmptyPasswordIsFieldError(nickname: string, role: Option<Role>)
    ensures ValidateSignUp(nickname, "", role) == Err(FieldConstraint)
    ensures SignUpStatus(ValidateSignUp(nickname, "", role).error) == 422
  {
  }

  /** A long-enough password made only of characters outside `A`..`Z` is refused with 400. */
  lemma LowercasePasswordIsRejected(nickname: string, password: string, role: Option<Role>)
    requires |password| >= MinPasswordLength
    requires forall i :: 0 <= i < |password| ==> !IsAsciiUpper(password[i])
    ensures ValidateSignUp(nickname, password, role) == Err(MissingUppercase)
    ensures SignUpStatus(ValidateSignUp(nickname, password, role).error) == 400
  {
  }

  /** Accepting a password only ever adds a role: the request holds exactly what was sent. */
  lemma AcceptedRequestKeepsBody(nickname: string, password: string)
    requires |password| >= MinPasswordLength && HasUppercase(password)
    ensures ValidateSignUp(nickname, password, None) == Ok(SignUpRequest(nickname, password, Member))
  {
  }
}
