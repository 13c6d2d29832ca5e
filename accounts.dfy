/** The account handlers over the user table.

    Each handler that writes to the table is a method of `AccountStore`.
    Its postcondition equates the reply and the new table with a step
    function of the old table. The step functions state what each branch
    does, and the lemmas below relate several steps: register then log in,
    issue then consume a reset token, toggle twice. Login and the two
    listing handlers only read the table and are plain functions.

    The request body reaches a handler as the DTO its TypeScript cast
    names. The table keeps the store's row order, so a `findFirst` answers
    with the first matching row. The clock is a natural number of
    milliseconds. */
module Accounts {
  import opened Common
  import opened Credentials
  import AuthSchema

  /** How long a reset token stays valid: two hours, in milliseconds. */
  const ResetWindow: nat := 2 * 60 * 60 * 1000

  datatype User = User(
    id: string,
    firstName: string,
    lastName: string,
    email: string,
    password: PasswordHash,
    role: Role,
    active: bool,
    resetToken: Option<string>,
    expiresAt: Option<nat>)

  /** The primary key: no two rows share an id. */
  ghost predicate UniqueIds(users: seq<User>) {
    forall i, j :: 0 <= i < j < |users| ==> users[i].id != users[j].id
  }

  // The `findFirst` queries of the handlers.

  function FindById(users: seq<User>, id: string): (r: Option<nat>)
    ensures r.Some? ==> r.value < |users| && users[r.value].id == id
    ensures r.Some? ==> forall j :: 0 <= j < r.value ==> users[j].id != id
    ensures r.None? <==> forall j :: 0 <= j < |users| ==> users[j].id != id
  {
    FirstIndex(users, (u: User) => u.id == id)
  }

  function FindByEmail(users: seq<User>, email: string): (r: Option<nat>)
    ensures r.Some? ==> r.value < |users| && users[r.value].email == email
    ensures r.Some? ==> forall j :: 0 <= j < r.value ==> users[j].email != email
    ensures r.None? <==> forall j :: 0 <= j < |users| ==> users[j].email != email
  {
    FirstIndex(users, (u: User) => u.email == email)
  }

  function FindActiveByEmail(users: seq<User>, email: string): (r: Option<nat>)
    ensures r.Some? ==> r.value < |users| && users[r.value].email == email && users[r.value].active
    ensures r.Some? ==> forall j :: 0 <= j < r.value ==> !(users[j].email == email && users[j].active)
    ensures r.None? <==> forall j :: 0 <= j < |users| ==> !(users[j].email == email && users[j].active)
  {
    FirstIndex(users, (u: User) => u.email == email && u.active)
  }

  function FindByResetToken(users: seq<User>, token: string): (r: Option<nat>)
    ensures r.Some? ==> r.value < |users| && users[r.value].resetToken == Some(token)
    ensures r.Some? ==> forall j :: 0 <= j < r.value ==> users[j].resetToken != Some(token)
    ensures r.None? <==> forall j :: 0 <= j < |users| ==> users[j].resetToken != Some(token)
  {
    FirstIndex(users, (u: User) => u.resetToken == Some(token))
  }

  // Row predicates used by the contracts.

  ghost predicate EmailInUse(users: seq<User>, email: string) {
    exists i :: 0 <= i < |users| && users[i].email == email
  }

  ghost predicate IdInUse(users: seq<User>, id: string) {
    exists i :: 0 <= i < |users| && users[i].id == id
  }

  /** Row `i` is the one `findFirst({ where: { email, active: true } })`
      returns. */
  ghost predicate IsLoginAccount(users: seq<User>, email: string, i: int) {
    && 0 <= i < |users| && users[i].email == email && users[i].active
    && forall j :: 0 <= j < i ==> !(users[j].email == email && users[j].active)
  }

  /** Row `i` is the first with this email. */
  ghost predicate IsFirstWithEmail(users: seq<User>, email: string, i: int) {
    && 0 <= i < |users| && users[i].email == email
    && forall j :: 0 <= j < i ==> users[j].email != email
  }

  /** Row `i` is the first that holds this reset token. */
  ghost predicate IsTokenHolder(users: seq<User>, token: string, i: int) {
    && 0 <= i < |users| && users[i].resetToken == Some(token)
    && forall j :: 0 <= j < i ==> users[j].resetToken != Some(token)
  }

  /** Row `i` is the first with this id. */
  ghost predicate IsFirstWithId(users: seq<User>, id: string, i: int) {
    && 0 <= i < |users| && users[i].id == id
    && forall j :: 0 <= j < i ==> users[j].id != id
  }

  /** The reply of a handler and the user table it leaves behind. */
  datatype Step<T> = Step(reply: Reply<T>, users: seq<User>)

  // ---------------------------------------------------------------- login

  datatype LoginDto = LoginDto(email: string, password: string)

  /** `loginController`. It answers 404 unless an active account has the
      email. It answers 401 when the password does not match that account.
      Otherwise it signs exactly that account's id, role and email. */
  function Login(users: seq<User>, dto: LoginDto): (r: Reply<AccessToken>)
    ensures r == Fail(Http(NotFound)) <==>
      forall i :: 0 <= i < |users| ==> !(users[i].email == dto.email && users[i].active)
    ensures r == Fail(Http(Unauthorized)) <==>
      exists i :: IsLoginAccount(users, dto.email, i) && !Matches(dto.password, users[i].password)
    ensures r.Ok? <==>
      exists i :: IsLoginAccount(users, dto.email, i) && Matches(dto.password, users[i].password)
    ensures r.Ok? ==>
      exists i :: IsLoginAccount(users, dto.email, i) &&
        r.value.claims == Claims(users[i].id, users[i].role, users[i].email)
  {
    match FindActiveByEmail(users, dto.email)
    case None => Fail(Http(NotFound))
    case Some(i) =>
      var u := users[i];
      assert IsLoginAccount(users, dto.email, i);
      assert forall k :: IsLoginAccount(users, dto.email, k) ==> k == i;
      if !Matches(dto.password, u.password) then Fail(Http(Unauthorized))
      else Ok(Jwt(Claims(u.id, u.role, u.email)))
  }

  /** An account that is not active cannot log in, whatever the password. */
  lemma InactiveAccountCannotLogIn(users: seq<User>, dto: LoginDto)
    requires forall i :: 0 <= i < |users| && users[i].email == dto.email ==> !users[i].active
    ensures Login(users, dto) == Fail(Http(NotFound))
  {
  }

  // ------------------------------------------------------------- register

  datatype RegisterDto = RegisterDto(
    firstName: string,
    lastName: string,
    email: string,
    password: string,
    role: Role)

  /** `registerController`. A used email gives 409 and leaves the table as
      it was. Otherwise one record is appended. It copies the submitted
      fields but stores the bcrypt digest of the password, not the
      password. Its `active` flag is the column default, and it has no
      reset token. */
  function RegisterStep(users: seq<User>, dto: RegisterDto, newId: string, salt: nat, activeByDefault: bool)
    : (s: Step<User>)
    ensures EmailInUse(users, dto.email) ==> s == Step(Fail(Http(Conflict)), users)
    ensures !EmailInUse(users, dto.email) ==> s.reply.Ok? && s.users == users + [s.reply.value]
    ensures s.reply.Ok? ==>
      var u := s.reply.value;
      && u.id == newId && u.firstName == dto.firstName && u.lastName == dto.lastName
      && u.email == dto.email && u.role == dto.role
      && u.password == Hash(dto.password, salt) && u.password != Raw(dto.password)
      && u.active == activeByDefault && u.resetToken == None && u.expiresAt == None
  {
    var hashed := Hash(dto.password, salt);
    if FindByEmail(users, dto.email).Some? then Step(Fail(Http(Conflict)), users)
    else
      var u := User(newId, dto.firstName, dto.lastName, dto.email, hashed, dto.role, activeByDefault, None, None);
      Step(Ok(u), users + [u])
  }

  /** With active new accounts, a freshly registered user logs in with the
      same email and password and gets a token carrying the new record's id,
      role and email. */
  lemma RegisterThenLogin(users: seq<User>, dto: RegisterDto, newId: string, salt: nat)
    requires !EmailInUse(users, dto.email)
    ensures Login(RegisterStep(users, dto, newId, salt, true).users, LoginDto(dto.email, dto.password))
         == Ok(Jwt(Claims(newId, dto.role, dto.email)))
  {
    var after := RegisterStep(users, dto, newId, salt, true).users;
    var i := FindActiveByEmail(after, dto.email);
    assert after[|users|].email == dto.email && after[|users|].active;
    assert i.Some?;
    assert i.value == |users|;
  }

  // ------------------------------------------------------ forgot password

  /** `forgotPasswordController` with the token `crypto.randomBytes` drew
      and the clock reading `now`. An unknown email gives 404. Otherwise the
      first account with that email gets the token and an expiry two hours
      from now, replacing any earlier token. Every other row stays as it
      was. */
  function ForgotPasswordStep(users: seq<User>, email: string, token: string, now: nat): (s: Step<()>)
    ensures !EmailInUse(users, email) ==> s == Step(Fail(Http(NotFound)), users)
    ensures EmailInUse(users, email) ==>
      && s.reply == Ok(())
      && exists i :: IsFirstWithEmail(users, email, i) &&
           s.users == users[i := users[i].(resetToken := Some(token), expiresAt := Some(now + ResetWindow))]
  {
    match FindByEmail(users, email)
    case None => Step(Fail(Http(NotFound)), users)
    case Some(i) =>
      assert IsFirstWithEmail(users, email, i);
      Step(Ok(()), users[i := users[i].(resetToken := Some(token), expiresAt := Some(now + ResetWindow))])
  }

  // ------------------------------------------------------- reset password

  datatype ResetPasswordDto = ResetPasswordDto(token: string, password: string)

  /** The expiry `currentTime > user.expiresAt!` compares against. A missing
      expiry compares as 0. */
  function ExpiryOf(u: User): nat {
    u.expiresAt.GetOr(0)
  }

  /** `resetPasswordController` at clock reading `now`. Both an unknown token
      and an expired one give the same 498, and the table is unchanged. A
      token is still good at the very instant it expires. On success the
      holder's password becomes the digest of the new one and its expiry
      becomes `now`. The token itself stays in the row. */
  function ResetPasswordStep(users: seq<User>, dto: ResetPasswordDto, now: nat, salt: nat): (s: Step<()>)
    ensures s.reply.Fail? ==> s == Step(Fail(Http(TokenExpiredOrInvalid)), users)
    ensures s.reply.Ok? <==> exists i :: IsTokenHolder(users, dto.token, i) && now <= ExpiryOf(users[i])
    ensures s.reply.Ok? ==>
      exists i :: IsTokenHolder(users, dto.token, i) &&
        s.users == users[i := users[i].(password := Hash(dto.password, salt), expiresAt := Some(now))]
  {
    match FindByResetToken(users, dto.token)
    case None => Step(Fail(Http(TokenExpiredOrInvalid)), users)
    case Some(i) =>
      assert IsTokenHolder(users, dto.token, i);
      assert forall k :: IsTokenHolder(users, dto.token, k) ==> k == i;
      if now > ExpiryOf(users[i]) then Step(Fail(Http(TokenExpiredOrInvalid)), users)
      else
        var hashed := Hash(dto.password, salt);
        Step(Ok(()), users[i := users[i].(password := hashed, expiresAt := Some(now))])
  }

  /** A token is used up by its first successful reset. The same token at
      any later instant gives 498 and changes nothing. */
  lemma {:induction false} ResetTokenSingleUse(
    users: seq<User>, dto: ResetPasswordDto, now: nat, salt: nat,
    password: string, later: nat, salt': nat)
    requires ResetPasswordStep(users, dto, now, salt).reply.Ok?
    requires later > now
    ensures var after := ResetPasswordStep(users, dto, now, salt).users;
      ResetPasswordStep(after, ResetPasswordDto(dto.token, password), later, salt')
        == Step(Fail(Http(TokenExpiredOrInvalid)), after)
  {
    var i := FindByResetToken(users, dto.token).value;
    var after := ResetPasswordStep(users, dto, now, salt).users;
    assert after == users[i := users[i].(password := Hash(dto.password, salt), expiresAt := Some(now))];
    FirstIndexUpdate(users, (u: User) => u.resetToken == Some(dto.token), i, after[i]);
    assert FindByResetToken(after, dto.token) == Some(i);
  }

  /** Issue then consume: right after a forgot-password request has stored a
      token no other row holds, resetting with it at any instant up to the
      expiry succeeds and gives that account the new password. */
  lemma {:induction false} ForgotThenReset(
    users: seq<User>, email: string, token: string, issuedAt: nat,
    password: string, usedAt: nat, salt: nat)
    requires EmailInUse(users, email)
    requires forall j :: 0 <= j < |users| ==> users[j].resetToken != Some(token)
    requires issuedAt <= usedAt <= issuedAt + ResetWindow
    ensures var issued := ForgotPasswordStep(users, email, token, issuedAt).users;
      var i := FindByEmail(users, email).value;
      && ResetPasswordStep(issued, ResetPasswordDto(token, password), usedAt, salt).reply == Ok(())
      && ResetPasswordStep(issued, ResetPasswordDto(token, password), usedAt, salt).users[i].password
           == Hash(password, salt)
  {
    var i := FindByEmail(users, email).value;
    var issued := ForgotPasswordStep(users, email, token, issuedAt).users;
    assert issued[i].resetToken == Some(token);
    assert forall j :: 0 <= j < |issued| && j != i ==> issued[j].resetToken != Some(token);
    assert FindByResetToken(issued, token) == Some(i);
  }

  /** A new forgot-password request replaces the token the account held: the
      old token, if no other row holds it, is no longer accepted. */
  lemma {:induction false} ForgotPasswordSupersedesToken(
    users: seq<User>, email: string, oldToken: string, newToken: string, now: nat,
    password: string, usedAt: nat, salt: nat)
    requires EmailInUse(users, email)
    requires oldToken != newToken
    requires forall j :: 0 <= j < |users| && users[j].resetToken == Some(oldToken) ==> IsFirstWithEmail(users, email, j)
    ensures var issued := ForgotPasswordStep(users, email, newToken, now).users;
      ResetPasswordStep(issued, ResetPasswordDto(oldToken, password), usedAt, salt)
        == Step(Fail(Http(TokenExpiredOrInvalid)), issued)
  {
    var i := FindByEmail(users, email).value;
    var issued := ForgotPasswordStep(users, email, newToken, now).users;
    assert forall j :: 0 <= j < |issued| ==> issued[j].resetToken != Some(oldToken);
    assert FindByResetToken(issued, oldToken).None?;
  }

  // -------------------------------------------------------- toggle active

  /** `toggleActiveAccountController`. A missing id gives 404. Otherwise the
      account's `active` flag is flipped and nothing else changes. */
  function ToggleActiveStep(users: seq<User>, id: string): (s: Step<User>)
    ensures !IdInUse(users, id) <==> s.reply.Fail?
    ensures s.reply.Fail? ==> s == Step(Fail(Http(NotFound)), users)
    ensures s.reply.Ok? ==>
      exists i :: IsFirstWithId(users, id, i) &&
        s.reply.value == users[i].(active := !users[i].active) &&
        s.users == users[i := s.reply.value]
  {
    match FindById(users, id)
    case None => Step(Fail(Http(NotFound)), users)
    case Some(i) =>
      assert IsFirstWithId(users, id, i);
      var toggled := users[i].(active := !users[i].active);
      Step(Ok(toggled), users[i := toggled])
  }

  /** Toggling the same account twice restores the table. */
  lemma {:induction false} ToggleTwiceRestores(users: seq<User>, id: string)
    ensures ToggleActiveStep(ToggleActiveStep(users, id).users, id).users == users
  {
    match FindById(users, id)
    case None =>
    case Some(i) =>
      var once := ToggleActiveStep(users, id).users;
      FirstIndexUpdate(users, (u: User) => u.id == id, i, once[i]);
      assert FindById(once, id) == Some(i);
      assert once[i := once[i].(active := !once[i].active)] == users;
  }

  // ------------------------------------------------------- update account

  /** The body of an update request, as the handler reads it. */
  datatype UpdateDto = UpdateDto(
    firstName: Option<string>,
    lastName: Option<string>,
    email: Option<string>,
    password: Option<string>,
    role: Option<Role>)

  /** The record `prisma.user.update` writes with the data `{ ...userData }`
      or `{ ...userData, password: hashed }`. A supplied field replaces the
      stored one, and an absent field keeps it. A truthy (non-empty)
      password is hashed. An empty password is falsy in the handler's test,
      so it is spread into the record as it is. */
  function Merge(u: User, dto: UpdateDto, salt: nat): (r: User)
    ensures r.id == u.id && r.active == u.active
    ensures r.resetToken == u.resetToken && r.expiresAt == u.expiresAt
    ensures dto.firstName.None? ==> r.firstName == u.firstName
    ensures dto.firstName.Some? ==> r.firstName == dto.firstName.value
    ensures dto.lastName.None? ==> r.lastName == u.lastName
    ensures dto.lastName.Some? ==> r.lastName == dto.lastName.value
    ensures dto.email.None? ==> r.email == u.email
    ensures dto.email.Some? ==> r.email == dto.email.value
    ensures dto.role.None? ==> r.role == u.role
    ensures dto.role.Some? ==> r.role == dto.role.value
    ensures dto.password.None? ==> r.password == u.password
    ensures dto.password.Some? && dto.password.value != "" ==>
      r.password.Digest? && forall q :: Matches(q, r.password) <==> q == dto.password.value
    ensures dto.password == Some("") ==> r.password == Raw("")
    ensures dto == UpdateDto(None, None, None, None, None) ==> r == u
  {
    var password :=
      match dto.password
      case None => u.password
      case Some(p) => if p != "" then Hash(p, salt) else Raw(p);
    u.(firstName := dto.firstName.GetOr(u.firstName),
       lastName := dto.lastName.GetOr(u.lastName),
       email := dto.email.GetOr(u.email),
       password := password,
       role := dto.role.GetOr(u.role))
  }

  /** `updateAccountController` for the caller `caller` and the query id
      `id`. A caller who is neither the account's owner nor an ADMIN gets
      401, and nothing changes. Updating an id that has no row is an error
      of the store. Otherwise only that account's row is rewritten. */
  function UpdateAccountStep(users: seq<User>, caller: Claims, id: string, dto: UpdateDto, salt: nat)
    : (s: Step<User>)
    ensures !MayActFor(caller, id) ==> s == Step(Fail(Http(Unauthorized)), users)
    ensures MayActFor(caller, id) && !IdInUse(users, id) ==> s == Step(Fail(StoreError), users)
    ensures MayActFor(caller, id) && IdInUse(users, id) ==> s.reply.Ok?
    ensures s.reply.Ok? ==>
      exists i :: IsFirstWithId(users, id, i) &&
        s.reply.value == Merge(users[i], dto, salt) && s.users == users[i := s.reply.value]
  {
    if caller.id != id && caller.role != ADMIN then Step(Fail(Http(Unauthorized)), users)
    else
      match FindById(users, id)
      case None => Step(Fail(StoreError), users)
      case Some(i) =>
        assert IsFirstWithId(users, id, i);
        var updated := Merge(users[i], dto, salt);
        Step(Ok(updated), users[i := updated])
  }

  /** The role a validated role name stands for. */
  function RoleNamed(name: string): Role
    requires name == AuthSchema.AdminRoleName || name == AuthSchema.UserRoleName
  {
    if name == AuthSchema.AdminRoleName then ADMIN else USER
  }

  /** The handler's view of a body that passed `updateUserSchema`. */
  function UpdateDtoOf(b: AuthSchema.UpdateBody): UpdateDto
    requires AuthSchema.RoleField(b.role)
  {
    UpdateDto(b.firstName, b.lastName, b.email, b.password,
              if b.role.Some? then Some(RoleNamed(b.role.value)) else None)
  }

  /** Behind `updateUserSchema`, an update never writes an unhashed
      password. If every stored password is a digest, every one still is
      afterwards, and a supplied password is stored as its own digest. */
  lemma {:induction false} ValidatedUpdateKeepsPasswordsHashed(
    users: seq<User>, caller: Claims, req: AuthSchema.UpdateRequest,
    isEmail: string -> bool, isUuid: string -> bool, salt: nat)
    requires AuthSchema.UpdateValid(req, isEmail, isUuid)
    requires forall j :: 0 <= j < |users| ==> users[j].password.Digest?
    ensures var s := UpdateAccountStep(users, caller, req.id.value, UpdateDtoOf(req.body), salt);
      && (forall j :: 0 <= j < |s.users| ==> s.users[j].password.Digest?)
      && (s.reply.Ok? && req.body.password.Some? ==>
            s.reply.value.password == Hash(req.body.password.value, salt))
  {
    var dto := UpdateDtoOf(req.body);
    assert dto.password.Some? ==> dto.password.value != "";
    var s := UpdateAccountStep(users, caller, req.id.value, dto, salt);
    if s.reply.Ok? {
      var i := FindById(users, req.id.value).value;
      assert s.users == users[i := Merge(users[i], dto, salt)];
    }
  }

  // --------------------------------------------------------- read handlers

  /** The fields the account endpoints send back. The reset token and its
      expiry are left out, while the password digest is included. */
  datatype AccountView = AccountView(
    id: string,
    firstName: string,
    lastName: string,
    email: string,
    password: PasswordHash,
    role: Role,
    active: bool)

  function View(u: User): (v: AccountView)
    ensures v.id == u.id && v.firstName == u.firstName && v.lastName == u.lastName
    ensures v.email == u.email && v.password == u.password && v.role == u.role && v.active == u.active
  {
    AccountView(u.id, u.firstName, u.lastName, u.email, u.password, u.role, u.active)
  }

  /** The view hides the reset token and its expiry and nothing else: two
      records look the same exactly when they differ at most in those two
      columns. */
  lemma ViewHidesOnlyResetFields(u: User, w: User)
    ensures View(u) == View(w) <==> u.(resetToken := w.resetToken, expiresAt := w.expiresAt) == w
  {
  }

  /** `getAllAccountsController`: every account except the caller's, in
      table order. */
  function AllAccounts(users: seq<User>, caller: Claims): (r: seq<AccountView>)
    ensures forall v :: v in r ==> exists u :: u in users && u.id != caller.id && v == View(u)
    ensures forall u :: u in users && u.id != caller.id ==> View(u) in r
  {
    var others := Filter(users, (u: User) => u.id != caller.id);
    var r := seq(|others|, k requires 0 <= k < |others| => View(others[k]));
    assert forall v :: v in r ==> exists u :: u in users && u.id != caller.id && v == View(u) by {
      forall v | v in r ensures exists u :: u in users && u.id != caller.id && v == View(u) {
        var k :| 0 <= k < |r| && r[k] == v;
        assert others[k] in others;
      }
    }
    assert forall u :: u in others ==> View(u) in r by {
      forall u | u in others ensures View(u) in r {
        var k :| 0 <= k < |others| && others[k] == u;
        assert r[k] == View(u);
      }
    }
    r
  }

  /** With unique ids, a table holds at most one row with a given id. */
  lemma {:induction false} RowsWithIdAtMostOne(users: seq<User>, id: string)
    requires UniqueIds(users)
    ensures |Filter(users, (u: User) => u.id == id)| == if IdInUse(users, id) then 1 else 0
    decreases |users|
  {
    if users != [] {
      var init, last := users[..|users| - 1], users[|users| - 1];
      assert users == init + [last];
      RowsWithIdAtMostOne(init, id);
      if last.id == id {
        assert !IdInUse(init, id);
      } else if IdInUse(users, id) {
        var k :| 0 <= k < |users| && users[k].id == id;
        assert k < |users| - 1 && init[k].id == id;
      }
    }
  }

  /** The account list has one entry per account other than the caller's:
      all accounts, less one when the caller's own account is in the
      table. */
  lemma AllAccountsOnePerAccount(users: seq<User>, caller: Claims)
    requires UniqueIds(users)
    ensures |AllAccounts(users, caller)| == |users| - if IdInUse(users, caller.id) then 1 else 0
  {
    FilterSplit(users, (u: User) => u.id != caller.id, (u: User) => u.id == caller.id);
    RowsWithIdAtMostOne(users, caller.id);
  }

  /** `getAccountByIdController`: 404 for an unknown id, otherwise the view
      of that account. */
  function AccountById(users: seq<User>, id: string): (r: Reply<AccountView>)
    ensures r.Fail? <==> !IdInUse(users, id)
    ensures r.Fail? ==> r == Fail(Http(NotFound))
    ensures r.Ok? ==> exists i :: IsFirstWithId(users, id, i) && r.value == View(users[i])
  {
    match FindById(users, id)
    case None => Fail(Http(NotFound))
    case Some(i) =>
      assert IsFirstWithId(users, id, i);
      Ok(View(users[i]))
  }

  // ------------------------------------------------------------ the store

  /** The user table, updated in place by the writing handlers. */
  class AccountStore {
    var users: seq<User>
    /** The value the store gives `active` in a new record. */
    const activeByDefault: bool

    ghost predicate Valid()
      reads this
    {
      UniqueIds(users)
    }

    constructor (activeByDefault: bool, initial: seq<User>)
      requires UniqueIds(initial)
      ensures Valid()
      ensures users == initial && this.activeByDefault == activeByDefault
    {
      this.activeByDefault := activeByDefault;
      users := initial;
    }

    /** `registerController`. `newId` is the id the store generates for the
        row, and `salt` is the salt bcrypt draws. */
    method Register(dto: RegisterDto, newId: string, salt: nat) returns (reply: Reply<User>)
      requires Valid()
      requires !IdInUse(users, newId)
      modifies this`users
      ensures Valid()
      ensures Step(reply, users) == RegisterStep(old(users), dto, newId, salt, activeByDefault)
    {
      var hashed := Hash(dto.password, salt);
      var existing := FindByEmail(users, dto.email);
      if existing.Some? {
        reply := Fail(Http(Conflict));
        return;
      }
      var created := User(newId, dto.firstName, dto.lastName, dto.email, hashed, dto.role,
                          activeByDefault, None, None);
      users := users + [created];
      reply := Ok(created);
    }

    /** `forgotPasswordController`. `token` stands for the bytes
        `crypto.randomBytes` returns, and `now` is the clock reading. */
    method ForgotPassword(email: string, token: string, now: nat) returns (reply: Reply<()>)
      requires Valid()
      modifies this`users
      ensures Valid()
      ensures Step(reply, users) == ForgotPasswordStep(old(users), email, token, now)
    {
      var found := FindByEmail(users, email);
      if found.None? {
        reply := Fail(Http(NotFound));
        return;
      }
      var i := found.value;
      var expiration := now + ResetWindow;
      users := users[i := users[i].(resetToken := Some(token), expiresAt := Some(expiration))];
      reply := Ok(());
    }

    /** `resetPasswordController` at clock reading `now`. */
    method ResetPassword(dto: ResetPasswordDto, now: nat, salt: nat) returns (reply: Reply<()>)
      requires Valid()
      modifies this`users
      ensures Valid()
      ensures Step(reply, users) == ResetPasswordStep(old(users), dto, now, salt)
    {
      var found := FindByResetToken(users, dto.token);
      if found.None? {
        reply := Fail(Http(TokenExpiredOrInvalid));
        return;
      }
      var i := found.value;
      if now > ExpiryOf(users[i]) {
        reply := Fail(Http(TokenExpiredOrInvalid));
        return;
      }
      var hashed := Hash(dto.password, salt);
      users := users[i := users[i].(password := hashed, expiresAt := Some(now))];
      reply := Ok(());
    }

    /** `toggleActiveAccountController`. */
    method ToggleActive(id: string) returns (reply: Reply<User>)
      requires Valid()
      modifies this`users
      ensures Valid()
      ensures Step(reply, users) == ToggleActiveStep(old(users), id)
    {
      var found := FindById(users, id);
      if found.None? {
        reply := Fail(Http(NotFound));
        return;
      }
      var i := found.value;
      var toggled := users[i].(active := !users[i].active);
      users := users[i := toggled];
      reply := Ok(toggled);
    }

    /** `updateAccountController` for the authenticated `caller`. */
    method UpdateAccount(caller: Claims, id: string, dto: UpdateDto, salt: nat) returns (reply: Reply<User>)
      requires Valid()
      modifies this`users
      ensures Valid()
      ensures Step(reply, users) == UpdateAccountStep(old(users), caller, id, dto, salt)
    {
      if caller.id != id && caller.role != ADMIN {
        reply := Fail(Http(Unauthorized));
        return;
      }
      var found := FindById(users, id);
      if found.None? {
        reply := Fail(StoreError);
        return;
      }
      var i := found.value;
      var updated := Merge(users[i], dto, salt);
      users := users[i := updated];
      reply := Ok(updated);
    }
  }
}
