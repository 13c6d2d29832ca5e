/** The request-validation schemas of the account endpoints. Each schema is a
    predicate on a raw request. A field is `None` when the request does not
    carry it.

    The string rules follow the validation library the schemas are written
    in:
    - `required()` rejects an absent field and the empty string.
    - `min(n)` checks the length of a present value, so it rejects "".
    - `email()` skips the empty string.
    - `oneOf([...])` lets an absent field through.
    Whether a string is an email address or a UUID is decided by the
    library's own patterns. Here they are the parameters `isEmail` and
    `isUuid`. */
module AuthSchema {
  import opened Common

  const MinPasswordLength: nat := 8
  const AdminRoleName: string := "ADMIN"
  const UserRoleName: string := "USER"

  /** `string().required()` */
  predicate Required(f: Option<string>) {
    f.Some? && f.value != ""
  }

  /** `string().email()` */
  predicate EmailField(f: Option<string>, isEmail: string -> bool) {
    f.Some? && f.value != "" ==> isEmail(f.value)
  }

  /** `string().min(n)` */
  predicate MinLength(f: Option<string>, n: nat) {
    f.Some? ==> |f.value| >= n
  }

  /** `string().oneOf([Role.ADMIN, Role.USER])` */
  predicate RoleField(f: Option<string>) {
    f.Some? ==> f.value == AdminRoleName || f.value == UserRoleName
  }

  datatype LoginBody = LoginBody(email: Option<string>, password: Option<string>)

  /** `loginSchema` */
  predicate LoginValid(b: LoginBody, isEmail: string -> bool) {
    && Required(b.email) && EmailField(b.email, isEmail)
    && Required(b.password)
  }

  datatype RegisterBody = RegisterBody(
    firstName: Option<string>,
    lastName: Option<string>,
    email: Option<string>,
    password: Option<string>,
    role: Option<string>)

  /** `registerSchema` */
  predicate RegisterValid(b: RegisterBody, isEmail: string -> bool) {
    && Required(b.firstName)
    && Required(b.lastName)
    && Required(b.email) && EmailField(b.email, isEmail)
    && Required(b.password) && MinLength(b.password, MinPasswordLength)
    && Required(b.role) && RoleField(b.role)
  }

  datatype ForgotPasswordBody = ForgotPasswordBody(email: Option<string>)

  /** `forgotPasswordSchema` */
  predicate ForgotPasswordValid(b: ForgotPasswordBody, isEmail: string -> bool) {
    Required(b.email) && EmailField(b.email, isEmail)
  }

  datatype ResetPasswordBody = ResetPasswordBody(password: Option<string>, token: Option<string>)

  /** `resetPasswordSchema` */
  predicate ResetPasswordValid(b: ResetPasswordBody) {
    && Required(b.password) && MinLength(b.password, MinPasswordLength)
    && Required(b.token)
  }

  datatype UpdateBody = UpdateBody(
    firstName: Option<string>,
    lastName: Option<string>,
    email: Option<string>,
    password: Option<string>,
    role: Option<string>)

  /** An update request: the `id` query parameter and the body. */
  datatype UpdateRequest = UpdateRequest(id: Option<string>, body: UpdateBody)

  /** `updateUserSchema` */
  predicate UpdateValid(r: UpdateRequest, isEmail: string -> bool, isUuid: string -> bool) {
    && Required(r.id) && isUuid(r.id.value)
    && EmailField(r.body.email, isEmail)
    && MinLength(r.body.password, MinPasswordLength)
    && RoleField(r.body.role)
  }

  /** A login body passes only with an email-formatted `email` and a
      non-empty `password`; with both it always passes. */
  lemma LoginNeedsEmailAndPassword(b: LoginBody, isEmail: string -> bool)
    ensures LoginValid(b, isEmail) <==>
      b.email.Some? && b.email.value != "" && isEmail(b.email.value) &&
      b.password.Some? && b.password.value != ""
  {
  }

  /** A register body needs all five fields, a password of at least eight
      characters and a role of ADMIN or USER. */
  lemma RegisterNeedsAllFields(b: RegisterBody, isEmail: string -> bool)
    requires RegisterValid(b, isEmail)
    ensures b.firstName.Some? && b.lastName.Some? && b.email.Some? && b.password.Some? && b.role.Some?
    ensures isEmail(b.email.value)
    ensures |b.password.value| >= 8
    ensures b.role.value in {"ADMIN", "USER"}
  {
  }

  /** Nothing stops a caller from registering themselves as ADMIN. */
  lemma RegisterAcceptsSelfAdmin(first: string, last: string, email: string, password: string, isEmail: string -> bool)
    requires first != "" && last != "" && email != "" && isEmail(email)
    requires |password| >= 8
    ensures RegisterValid(RegisterBody(Some(first), Some(last), Some(email), Some(password), Some("ADMIN")), isEmail)
  {
  }

  /** A forgot-password body is checked for its email and nothing else. */
  lemma ForgotPasswordNeedsOnlyEmail(b: ForgotPasswordBody, isEmail: string -> bool)
    ensures ForgotPasswordValid(b, isEmail) <==> b.email.Some? && b.email.value != "" && isEmail(b.email.value)
  {
  }

  /** A reset-password body needs a token and a password of at least eight
      characters. */
  lemma ResetPasswordNeedsTokenAndLongPassword(b: ResetPasswordBody)
    ensures ResetPasswordValid(b) <==>
      b.token.Some? && b.token.value != "" && b.password.Some? && |b.password.value| >= 8
  {
  }

  /** Every body field of an update is optional, but a supplied password
      still needs eight characters and a supplied role must be ADMIN or
      USER. The `id` query parameter is a required UUID. */
  lemma UpdateFieldRules(r: UpdateRequest, isEmail: string -> bool, isUuid: string -> bool)
    requires UpdateValid(r, isEmail, isUuid)
    ensures r.id.Some? && isUuid(r.id.value)
    ensures r.body.password.Some? ==> |r.body.password.value| >= 8
    ensures r.body.role.Some? ==> r.body.role.value in {"ADMIN", "USER"}
  {
  }

  /** The empty update body passes: validity does not mean any field is
      there. */
  lemma EmptyUpdateIsValid(id: string, isEmail: string -> bool, isUuid: string -> bool)
    requires id != "" && isUuid(id)
    ensures UpdateValid(UpdateRequest(Some(id), UpdateBody(None, None, None, None, None)), isEmail, isUuid)
  {
  }
}
