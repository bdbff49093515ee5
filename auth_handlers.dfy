/** The account endpoints: register, login and me, over the users table and the opaque hashing and JWT primitives. */
module AuthHandlers {
  import opened Wrappers
  import opened Text
  import opened Errors
  import Uuids
  import opened Models
  import opened Seqs
  import opened Store
  import opened Credentials
  import opened ProjectHandlers

  datatype RegisterRequest = RegisterRequest(
    email: string, password: string, firstName: Option<string>, lastName: Option<string>)

  datatype LoginRequest = LoginRequest(email: string, password: string)

  datatype AuthResponse = AuthResponse(user: UserResponse, token: string)

  const EmailMessage := "Invalid email format"
  const PasswordMessage := "Password must be at least 8 characters"
  const MinPasswordLength := 8

  /** The characters allowed before the '@' of an address. */
  predicate IsEmailUserChar(c: char) {
    IsAlphanumeric(c) || c in ".!#$%&'*+/=?^_`{|}~-"
  }

  /** One dot-separated label of the host name. */
  predicate IsDomainLabel(s: string) {
    && 1 <= |s| <= 63
    && (forall i :: 0 <= i < |s| ==> IsAlphanumeric(s[i]) || s[i] == '-')
    && s[0] != '-' && s[|s| - 1] != '-'
  }

  /** The email-format rule: a non-empty local part, one '@', and a host name of valid labels. */
  predicate IsValidEmail(e: string) {
    var parts := Split(e, '@');
    && |parts| == 2
    && 1 <= |parts[0]| <= 64
    && (forall i :: 0 <= i < |parts[0]| ==> IsEmailUserChar(parts[0][i]))
    && |parts[1]| <= 255
    && var labels := Split(parts[1], '.');
       forall i :: 0 <= i < |labels| ==> IsDomainLabel(labels[i])
  }

  /** An accepted address is a non-empty local part, one '@', and a non-empty host. */
  lemma ValidEmailShape(e: string)
    requires IsValidEmail(e)
    ensures exists user, host :: e == user + "@" + host && user != "" && host != "" && '@' !in host
  {
    var parts := Split(e, '@');
    assert e == Join(parts, '@') == parts[0] + "@" + parts[1];
    assert Split(parts[1], '.')[0] != "";
  }

  lemma EmailExamples()
    ensures !IsValidEmail("")
    ensures !IsValidEmail("alice")
  {
    assert Split("", '@') == [""];
    assert Split("alice", '@') == ["alice"] by {
      assert '@' !in "alice";
      SplitJoin(["alice"], '@');
    }
  }

  /** The failed fields' messages, in field order. */
  function ValidationFailures(email: string, password: Option<string>): (r: seq<string>)
    ensures r == [] <==> IsValidEmail(email) && (password.Some? ==> |password.value| >= MinPasswordLength)
    ensures !IsValidEmail(email) ==> r[0] == EmailMessage
  {
    (if IsValidEmail(email) then [] else [EmailMessage]) +
    (if password.None? || |password.value| >= MinPasswordLength then [] else [PasswordMessage])
  }

  /** `payload.validate()` mapped to `AppError::Validation`. */
  function Validate(email: string, password: Option<string>): (r: Option<AppError>)
    ensures r.None? <==> ValidationFailures(email, password) == []
    ensures r.Some? ==> r.value.Validation?
  {
    var failures := ValidationFailures(email, password);
    if failures == [] then None else Some(Validation(Join(failures, '\n')))
  }

  /** The row `register` inserts: the hash (never the password), active, unverified, no login yet. */
  function NewUser(id: Uuids.Uuid, req: RegisterRequest, hash: string, now: Time): User {
    User(id, req.email, hash, req.firstName, req.lastName, true, false, None, None, now, now)
  }

  /** `register`: validation, then the email check, then hashing, the insert and the token. */
  method Register(db: Db, hasher: Hasher, codec: JwtCodec, req: RegisterRequest, salt: Salt,
                  userId: Uuids.Uuid, secret: string, expiration: int, now: Time)
    returns (r: Result<(int, AuthResponse), AppError>)
    requires db.Valid()
    requires forall u :: u in db.users ==> u.id != userId
    modifies db
    ensures db.Valid()
    ensures db.organizations == old(db.organizations) && db.members == old(db.members)
    ensures db.projects == old(db.projects) && db.tasks == old(db.tasks) && db.comments == old(db.comments)
    ensures Validate(req.email, Some(req.password)).Some? ==>
      r == Err(Validate(req.email, Some(req.password)).value) && db.users == old(db.users)
    ensures Validate(req.email, Some(req.password)).None? && (exists u :: u in old(db.users) && u.email == req.email) ==>
      r == Err(Conflict("Email already registered")) && db.users == old(db.users)
    ensures
      && Validate(req.email, Some(req.password)).None?
      && (forall u :: u in old(db.users) ==> u.email != req.email)
      && HashPassword(hasher, req.password, salt).Err?
      ==> r == Err(HashPassword(hasher, req.password, salt).error) && db.users == old(db.users)
    ensures db.users != old(db.users) && GenerateToken(codec, userId, req.email, secret, expiration, now).Err? ==>
      r == Err(GenerateToken(codec, userId, req.email, secret, expiration, now).error)
    ensures db.users != old(db.users) <==>
      && Validate(req.email, Some(req.password)).None?
      && (forall u :: u in old(db.users) ==> u.email != req.email)
      && HashPassword(hasher, req.password, salt).Ok?
    ensures db.users != old(db.users) ==>
      db.users == old(db.users) + [NewUser(userId, req, HashPassword(hasher, req.password, salt).value, now)]
    ensures r.Ok? <==>
      db.users != old(db.users) && GenerateToken(codec, userId, req.email, secret, expiration, now).Ok?
    ensures r.Ok? ==>
      && r.value.0 == 201
      && r.value.1.user == ToUserResponse(NewUser(userId, req, HashPassword(hasher, req.password, salt).value, now))
      && r.value.1.token == GenerateToken(codec, userId, req.email, secret, expiration, now).value
  {
    var invalid := Validate(req.email, Some(req.password));
    if invalid.Some? {
      return Err(invalid.value);
    }
    if FindBy(db.users, UserEmail, req.email).Some? {
      return Err(Conflict("Email already registered"));
    }
    var hashed := HashPassword(hasher, req.password, salt);
    if hashed.Err? {
      return Err(hashed.error);
    }
    var user := NewUser(userId, req, hashed.value, now);
    UniqueByAppend(db.users, UserKey, user);
    UniqueByAppend(db.users, UserEmail, user);
    db.SetUsers(db.users + [user]);
    assert db.users != old(db.users) by {
      assert |db.users| == |old(db.users)| + 1;
    }
    var token := GenerateToken(codec, user.id, user.email, secret, expiration, now);
    if token.Err? {
      return Err(token.error);
    }
    r := Ok((201, AuthResponse(ToUserResponse(user), token.value)));
  }

  /**
   * A registered user's stored hash verifies the registration password and no other,
   * and the plain password itself is not what is stored.
   */
  lemma RegisteredHashChecksPassword(hasher: Hasher, req: RegisterRequest, salt: Salt,
                                     userId: Uuids.Uuid, now: Time, attempt: string)
    requires SoundHasher(hasher)
    requires HashPassword(hasher, req.password, salt).Ok?
    ensures var u := NewUser(userId, req, HashPassword(hasher, req.password, salt).value, now);
      && u.passwordHash == hasher.hash(req.password, salt).value
      && VerifyPassword(hasher, attempt, u.passwordHash) == Ok(attempt == req.password)
  {
  }

  /** The checks of `login`, in order; on success, the user row found by email. */
  function CheckLogin(users: seq<User>, hasher: Hasher, req: LoginRequest): (r: Result<User, AppError>)
    ensures Validate(req.email, None).Some? ==> r == Err(Validate(req.email, None).value)
    ensures Validate(req.email, None).None? && (forall u :: u in users ==> u.email != req.email) ==>
      r == Err(Authentication("Invalid credentials"))
    ensures r.Ok? ==> r.value in users && r.value.email == req.email && r.value.isActive
    ensures r.Ok? ==> VerifyPassword(hasher, req.password, r.value.passwordHash) == Ok(true)
    ensures r.Err? && r.error.Authentication? ==>
      r.error.msg == "Invalid credentials" || r.error.msg == "Account is deactivated"
  {
    var invalid := Validate(req.email, None);
    if invalid.Some? then Err(invalid.value)
    else match FindBy(users, UserEmail, req.email)
      case None => Err(Authentication("Invalid credentials"))
      case Some(user) =>
        if !user.isActive then Err(Authentication("Account is deactivated"))
        else match VerifyPassword(hasher, req.password, user.passwordHash)
          case Err(e) => Err(e)
          case Ok(matches) =>
            if !matches then Err(Authentication("Invalid credentials")) else Ok(user)
  }

  /**
   * With a sound hasher, a login with the registration password succeeds for an active user;
   * a wrong password gets the very error an unknown email gets; a deactivated account is
   * reported whatever password is given.
   */
  lemma LoginDecisions(users: seq<User>, hasher: Hasher, u: User, password: string, salt: Salt, attempt: string)
    requires SoundHasher(hasher) && UniqueBy(users, UserEmail)
    requires u in users && IsValidEmail(u.email)
    requires hasher.hash(password, salt).Ok? && u.passwordHash == hasher.hash(password, salt).value
    ensures u.isActive ==> CheckLogin(users, hasher, LoginRequest(u.email, password)) == Ok(u)
    ensures u.isActive && attempt != password ==>
      CheckLogin(users, hasher, LoginRequest(u.email, attempt)) == Err(Authentication("Invalid credentials"))
    ensures !u.isActive ==>
      CheckLogin(users, hasher, LoginRequest(u.email, attempt)) == Err(Authentication("Account is deactivated"))
  {
    FindByUnique(users, UserEmail, u);
  }

  /** `UPDATE users SET last_login_at = NOW() WHERE id = $1`: every row with that id is stamped. */
  function StampLastLogin(users: seq<User>, id: Uuids.Uuid, now: Time): (r: seq<User>)
    ensures |r| == |users|
    ensures forall k :: 0 <= k < |users| ==>
      r[k] == if users[k].id == id then users[k].(lastLoginAt := Some(now)) else users[k]
  {
    if users == [] then []
    else
      var head := if users[0].id == id then users[0].(lastLoginAt := Some(now)) else users[0];
      [head] + StampLastLogin(users[1..], id, now)
  }

  /** With unique ids, stamping the row found at `i` is the whole update, and the keys stay unique. */
  lemma StampOnlyUser(users: seq<User>, i: nat, id: Uuids.Uuid, now: Time)
    requires UniqueBy(users, UserKey) && UniqueBy(users, UserEmail) && i < |users| && users[i].id == id
    ensures users[i := users[i].(lastLoginAt := Some(now))] == StampLastLogin(users, id, now)
    ensures UniqueBy(StampLastLogin(users, id, now), UserKey)
    ensures UniqueBy(StampLastLogin(users, id, now), UserEmail)
  {
    UniqueByReplace(users, UserKey, i, users[i].(lastLoginAt := Some(now)));
    UniqueByReplace(users, UserEmail, i, users[i].(lastLoginAt := Some(now)));
    ReplaceAtKey(users, UserKey, i, (u: User) => u.(lastLoginAt := Some(now)));
  }

  /** `login`: the checks, then `last_login_at` on that user only, then the token. */
  method Login(db: Db, hasher: Hasher, codec: JwtCodec, req: LoginRequest,
               secret: string, expiration: int, now: Time)
    returns (r: Result<AuthResponse, AppError>)
    requires db.Valid()
    modifies db
    ensures db.Valid()
    ensures db.organizations == old(db.organizations) && db.members == old(db.members)
    ensures db.projects == old(db.projects) && db.tasks == old(db.tasks) && db.comments == old(db.comments)
    ensures CheckLogin(old(db.users), hasher, req).Err? ==>
      r == Err(CheckLogin(old(db.users), hasher, req).error) && db.users == old(db.users)
    ensures CheckLogin(old(db.users), hasher, req).Ok? ==>
      var user := CheckLogin(old(db.users), hasher, req).value;
      && db.users == StampLastLogin(old(db.users), user.id, now)
      && (r.Ok? <==> GenerateToken(codec, user.id, user.email, secret, expiration, now).Ok?)
      && (r.Ok? ==> r.value == AuthResponse(ToUserResponse(user),
                                            GenerateToken(codec, user.id, user.email, secret, expiration, now).value))
      && (r.Err? ==> r.error.Internal?)
  {
    var checked := CheckLogin(db.users, hasher, req);
    if checked.Err? {
      return Err(checked.error);
    }
    var user := checked.value;
    var found := FirstIndex((u: User) => u.id == user.id, db.users);
    if found.None? {
      assert false;
    }
    var i := found.value;
    StampOnlyUser(db.users, i, user.id, now);
    db.SetUsers(StampLastLogin(db.users, user.id, now));
    var token := GenerateToken(codec, user.id, user.email, secret, expiration, now);
    if token.Err? {
      return Err(token.error);
    }
    r := Ok(AuthResponse(ToUserResponse(user), token.value));
  }

  /** `me`: the caller's own user record. */
  function Me(db: Db, auth: AuthUser): (r: Result<UserResponse, AppError>)
    reads db
    ensures Caller(auth).Err? ==> r == Err(Authentication("Invalid user ID"))
    ensures Caller(auth).Ok? ==>
      (r.Err? <==> forall u :: u in db.users ==> u.id != Caller(auth).value)
    ensures Caller(auth).Ok? && r.Err? ==> r.error == NotFound("User not found")
    ensures r.Ok? ==> exists u :: u in db.users && u.id == Caller(auth).value && r.value == ToUserResponse(u)
  {
    match Caller(auth)
    case Err(e) => Err(e)
    case Ok(userId) =>
      match FindBy(db.users, UserKey, userId)
      case None => Err(NotFound("User not found"))
      case Some(u) => Ok(ToUserResponse(u))
  }
}
