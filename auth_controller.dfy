/**
 * Sign-up with a one-time password (OTP) sent by email, email verification,
 * and log-in, over the table of users keyed by their normalised email.
 *
 * The password hash, the generated OTP, the current time (in milliseconds)
 * and the password comparison are inputs; the signed token is represented
 * by the claims it carries.
 */
module AuthController {
  import opened Wrappers
  import opened Strings

  /** A row of the users table. */
  datatype UserRecord = UserRecord(
    id: nat,
    email: string,
    passwordHash: string,
    name: Option<string>,
    emailVerified: bool,
    otpCode: Option<string>,
    otpExpiresAt: Option<int>,
    aiQuestionsUsed: int)

  /** What a signed token says about its user. */
  datatype TokenClaims = TokenClaims(userId: nat, email: string)

  /** The user as the responses show it. */
  datatype PublicUser = PublicUser(id: nat, email: string, name: Option<string>, aiQuestionsUsed: int)

  /** The JSON answer of a controller. */
  datatype AuthReply =
    | Failure(status: nat, error: string)
    | SignedUp(userId: nat, email: string, devOtp: string)
    | Authenticated(message: string, claims: TokenClaims, user: PublicUser)

  /** The reply of a sign-up and the table and id counter after it. */
  datatype SignupStep = SignupStep(reply: AuthReply, users: map<string, UserRecord>, nextId: nat)

  /** The reply of a verification and the table after it. */
  datatype VerifyStep = VerifyStep(reply: AuthReply, users: map<string, UserRecord>)

  /** An OTP is valid for 30 minutes. */
  const OtpLifetime: int := 30 * 60 * 1000

  /** Tokens are signed to expire after seven days. */
  const TokenLifetime: string := "7d"

  const CredentialsRequired: string := "Email and password are required."
  const InvalidEmailFormat: string := "Invalid email format."
  const PasswordTooShort: string := "Password must be at least 6 characters."
  const AlreadyExists: string := "User with this email already exists."
  const OtpRequired: string := "Email and OTP are required."
  const UserNotFound: string := "User not found."
  const AlreadyVerified: string := "Email is already verified. Please log in."
  const NoActiveOtp: string := "No active OTP found. Please sign up again."
  const OtpExpired: string := "OTP has expired. Please sign up again."
  const InvalidOtp: string := "Invalid OTP."
  const VerifiedMessage: string := "Email verified successfully."
  const InvalidCredentials: string := "Invalid email or password."
  const VerifyFirst: string := "Please verify your email before logging in."
  const LoginMessage: string := "Login successful."

  /** `email.trim().toLowerCase()`. */
  function NormalizeEmail(email: string): string {
    ToLower(Trim(email))
  }

  /** The format check of `signup`: an `@` and at least five characters. */
  predicate PlausibleEmail(e: string) {
    '@' in e && |e| >= 5
  }

  /** `name || null`. */
  function NameOrNull(name: Option<string>): Option<string> {
    if Given(name) then name else None
  }

  /** `user.otp_code && user.otp_expires_at`: an OTP and its expiry are on record. */
  predicate ActiveOtp(u: UserRecord) {
    Given(u.otpCode) && u.otpExpiresAt.Some?
  }

  function PublicOf(u: UserRecord): PublicUser {
    PublicUser(u.id, u.email, u.name, u.aiQuestionsUsed)
  }

  /**
   * `signup`: the request is checked in order (both fields given, a
   * plausible email, a password of six characters or more, no verified user
   * with that email); a new user is inserted, and an unverified one is
   * updated in place with the new password, name and OTP.
   */
  function Signup(users: map<string, UserRecord>, nextId: nat, email: Option<string>, password: Option<string>,
                  name: Option<string>, passwordHash: string, otp: string, now: int): (s: SignupStep)
    ensures s.reply.Failure? || s.reply.SignedUp?
    ensures s.reply.Failure? ==> s.users == users && s.nextId == nextId
    ensures !Given(email) || !Given(password) ==> s.reply == Failure(400, CredentialsRequired)
    ensures Given(email) && Given(password) ==>
      var e := NormalizeEmail(email.value);
      && (!PlausibleEmail(e) ==> s.reply == Failure(400, InvalidEmailFormat))
      && (PlausibleEmail(e) && |password.value| < 6 ==> s.reply == Failure(400, PasswordTooShort))
      && (PlausibleEmail(e) && |password.value| >= 6 && e in users && users[e].emailVerified ==>
            s.reply == Failure(409, AlreadyExists))
    ensures s.reply.SignedUp? <==>
      && Given(email) && Given(password)
      && PlausibleEmail(NormalizeEmail(email.value)) && |password.value| >= 6
      && !(NormalizeEmail(email.value) in users && users[NormalizeEmail(email.value)].emailVerified)
    ensures s.reply.SignedUp? ==>
      var e := NormalizeEmail(email.value);
      && s.users.Keys == users.Keys + {e}
      && (forall k | k in users && k != e :: s.users[k] == users[k])
      && !s.users[e].emailVerified
      && s.users[e].otpCode == Some(otp) && s.users[e].otpExpiresAt == Some(now + OtpLifetime)
      && s.users[e].passwordHash == passwordHash
      && s.reply == SignedUp(s.users[e].id, e, otp)
      && (e in users ==> s.users[e].id == users[e].id && s.nextId == nextId)
      && (e !in users ==> s.users[e].id == nextId && s.nextId == nextId + 1)
  {
    if !Given(email) || !Given(password) then SignupStep(Failure(400, CredentialsRequired), users, nextId)
    else
      var e := NormalizeEmail(email.value);
      if !PlausibleEmail(e) then SignupStep(Failure(400, InvalidEmailFormat), users, nextId)
      else if |password.value| < 6 then SignupStep(Failure(400, PasswordTooShort), users, nextId)
      else if e in users && users[e].emailVerified then SignupStep(Failure(409, AlreadyExists), users, nextId)
      else if e in users then
        var u := users[e].(passwordHash := passwordHash, name := NameOrNull(name),
                           otpCode := Some(otp), otpExpiresAt := Some(now + OtpLifetime));
        SignupStep(SignedUp(u.id, e, otp), users[e := u], nextId)
      else
        var u := UserRecord(nextId, e, passwordHash, NameOrNull(name), false, Some(otp), Some(now + OtpLifetime), 0);
        SignupStep(SignedUp(nextId, e, otp), users[e := u], nextId + 1)
  }

  /**
   * `verifyEmail`: the guards come in order (fields given, user found, not
   * yet verified, an OTP and expiry on record, not expired, the same OTP);
   * success marks the email verified, clears the OTP and signs the user in.
   */
  function VerifyEmail(users: map<string, UserRecord>, email: Option<string>, otp: Option<string>, now: int): (v: VerifyStep)
    ensures v.reply.Failure? || v.reply.Authenticated?
    ensures v.reply.Failure? ==> v.users == users
    ensures !Given(email) || !Given(otp) ==> v.reply == Failure(400, OtpRequired)
    ensures Given(email) && Given(otp) ==>
      var e := NormalizeEmail(email.value);
      && (e !in users ==> v.reply == Failure(404, UserNotFound))
      && (e in users && users[e].emailVerified ==> v.reply == Failure(400, AlreadyVerified))
      && (e in users && !users[e].emailVerified && !ActiveOtp(users[e]) ==> v.reply == Failure(400, NoActiveOtp))
      && (e in users && !users[e].emailVerified && ActiveOtp(users[e]) && now > users[e].otpExpiresAt.value ==>
            v.reply == Failure(400, OtpExpired))
      && ((e in users && !users[e].emailVerified && ActiveOtp(users[e]) && now <= users[e].otpExpiresAt.value
           && users[e].otpCode != otp) ==> v.reply == Failure(400, InvalidOtp))
    ensures v.reply.Authenticated? <==>
      && Given(email) && Given(otp)
      && var e := NormalizeEmail(email.value);
      && e in users && !users[e].emailVerified && ActiveOtp(users[e])
      && now <= users[e].otpExpiresAt.value && users[e].otpCode == otp
    ensures v.reply.Authenticated? ==>
      var e := NormalizeEmail(email.value);
      && e in users && !users[e].emailVerified
      && users[e].otpCode == otp && users[e].otpExpiresAt.Some? && now <= users[e].otpExpiresAt.value
      && v.users == users[e := users[e].(emailVerified := true, otpCode := None, otpExpiresAt := None)]
      && v.reply.claims == TokenClaims(users[e].id, users[e].email)
  {
    if !Given(email) || !Given(otp) then VerifyStep(Failure(400, OtpRequired), users)
    else
      var e := NormalizeEmail(email.value);
      if e !in users then VerifyStep(Failure(404, UserNotFound), users)
      else
        var u := users[e];
        if u.emailVerified then VerifyStep(Failure(400, AlreadyVerified), users)
        else if !ActiveOtp(u) then VerifyStep(Failure(400, NoActiveOtp), users)
        else if now > u.otpExpiresAt.value then VerifyStep(Failure(400, OtpExpired), users)
        else if u.otpCode != otp then VerifyStep(Failure(400, InvalidOtp), users)
        else
          var u' := u.(emailVerified := true, otpCode := None, otpExpiresAt := None);
          VerifyStep(Authenticated(VerifiedMessage, TokenClaims(u.id, u.email), PublicOf(u')), users[e := u'])
  }

  /**
   * `login`: fields given, a user with that email, a verified email (before
   * any password check), and a matching password.
   */
  function Login(users: map<string, UserRecord>, email: Option<string>, password: Option<string>,
                 comparePassword: (string, string) -> bool): (r: AuthReply)
    ensures r.Failure? || r.Authenticated?
    ensures !Given(email) || !Given(password) ==> r == Failure(400, CredentialsRequired)
    ensures Given(email) && Given(password) ==>
      var e := NormalizeEmail(email.value);
      && (e !in users ==> r == Failure(401, InvalidCredentials))
      && (e in users && !users[e].emailVerified ==> r == Failure(403, VerifyFirst))
      && (e in users && users[e].emailVerified && !comparePassword(password.value, users[e].passwordHash) ==>
            r == Failure(401, InvalidCredentials))
    ensures r.Authenticated? <==>
      && Given(email) && Given(password)
      && var e := NormalizeEmail(email.value);
      && e in users && users[e].emailVerified && comparePassword(password.value, users[e].passwordHash)
    ensures r.Authenticated? ==>
      var u := users[NormalizeEmail(email.value)];
      r == Authenticated(LoginMessage, TokenClaims(u.id, u.email), PublicOf(u))
  {
    if !Given(email) || !Given(password) then Failure(400, CredentialsRequired)
    else
      var e := NormalizeEmail(email.value);
      if e !in users then Failure(401, InvalidCredentials)
      else
        var u := users[e];
        if !u.emailVerified then Failure(403, VerifyFirst)
        else if !comparePassword(password.value, u.passwordHash) then Failure(401, InvalidCredentials)
        else Authenticated(LoginMessage, TokenClaims(u.id, u.email), PublicOf(u))
  }

  /**
   * The OTP a sign-up issues verifies the email up to and including the
   * moment 30 minutes later, and is refused as expired after it.
   */
  lemma SignupThenVerify(users: map<string, UserRecord>, nextId: nat, email: Option<string>, password: Option<string>,
                         name: Option<string>, passwordHash: string, otp: string, now: int, later: int)
    requires Signup(users, nextId, email, password, name, passwordHash, otp, now).reply.SignedUp?
    requires otp != ""
    ensures var s := Signup(users, nextId, email, password, name, passwordHash, otp, now);
      var v := VerifyEmail(s.users, email, Some(otp), later);
      && (v.reply.Authenticated? <==> later <= now + OtpLifetime)
      && (later > now + OtpLifetime ==> v.reply == Failure(400, OtpExpired))
  {
    var s := Signup(users, nextId, email, password, name, passwordHash, otp, now);
    var e := NormalizeEmail(email.value);
    assert s.users[e].otpCode == Some(otp);
  }

  /** An OTP other than the one on record is refused while the record is still valid. */
  lemma WrongOtpRefused(users: map<string, UserRecord>, email: Option<string>, otp: Option<string>, now: int)
    requires Given(email) && Given(otp)
    requires var e := NormalizeEmail(email.value);
      e in users && !users[e].emailVerified && Given(users[e].otpCode) && users[e].otpExpiresAt.Some?
      && now <= users[e].otpExpiresAt.value && users[e].otpCode != otp
    ensures VerifyEmail(users, email, otp, now) == VerifyStep(Failure(400, InvalidOtp), users)
  {
  }

  /** A verified user can sign in with a matching password. */
  lemma VerifyThenLogin(users: map<string, UserRecord>, email: Option<string>, otp: Option<string>, now: int,
                        password: Option<string>, comparePassword: (string, string) -> bool)
    requires VerifyEmail(users, email, otp, now).reply.Authenticated?
    requires Given(password)
    requires comparePassword(password.value, users[NormalizeEmail(email.value)].passwordHash)
    ensures var v := VerifyEmail(users, email, otp, now);
      Login(v.users, email, password, comparePassword) ==
        Authenticated(LoginMessage, v.reply.claims, v.reply.user)
  {
  }

  /** An unverified user is refused with 403 whatever the password. */
  lemma UnverifiedCannotLogin(users: map<string, UserRecord>, email: Option<string>, password: Option<string>,
                              comparePassword: (string, string) -> bool)
    requires Given(email) && Given(password)
    requires NormalizeEmail(email.value) in users && !users[NormalizeEmail(email.value)].emailVerified
    ensures Login(users, email, password, comparePassword) == Failure(403, VerifyFirst)
  {
  }

  /** An unknown email and a wrong password get the same answer. */
  lemma UnknownEmailLooksLikeWrongPassword(users: map<string, UserRecord>, unknown: Option<string>, known: Option<string>,
                                           password: Option<string>, comparePassword: (string, string) -> bool)
    requires Given(unknown) && Given(known) && Given(password)
    requires NormalizeEmail(unknown.value) !in users
    requires var e := NormalizeEmail(known.value);
      e in users && users[e].emailVerified && !comparePassword(password.value, users[e].passwordHash)
    ensures Login(users, unknown, password, comparePassword) == Login(users, known, password, comparePassword)
      == Failure(401, InvalidCredentials)
  {
  }

  /** Every row is filed under its own email, and ids are distinct and below the counter. */
  ghost predicate TableInvariant(users: map<string, UserRecord>, nextId: nat) {
    && (forall e | e in users :: users[e].email == e && users[e].id < nextId)
    && (forall e1, e2 | e1 in users && e2 in users && e1 != e2 :: users[e1].id != users[e2].id)
  }

  /** Sign-up and verification keep the table invariant. */
  lemma SignupKeepsInvariant(users: map<string, UserRecord>, nextId: nat, email: Option<string>, password: Option<string>,
                             name: Option<string>, passwordHash: string, otp: string, now: int)
    requires TableInvariant(users, nextId)
    ensures var s := Signup(users, nextId, email, password, name, passwordHash, otp, now);
      TableInvariant(s.users, s.nextId)
  {
  }

  lemma VerifyKeepsInvariant(users: map<string, UserRecord>, nextId: nat, email: Option<string>, otp: Option<string>, now: int)
    requires TableInvariant(users, nextId)
    ensures TableInvariant(VerifyEmail(users, email, otp, now).users, nextId)
  {
  }

  /** The users table the controllers share, with the id the next inserted row gets. */
  class UserTable {
    var users: map<string, UserRecord>
    var nextId: nat

    ghost predicate Valid()
      reads this
    {
      TableInvariant(users, nextId)
    }

    constructor()
      ensures users == map[] && nextId == 1 && Valid()
    {
      users := map[];
      nextId := 1;
    }

    method SignupUser(email: Option<string>, password: Option<string>, name: Option<string>,
                      passwordHash: string, otp: string, now: int) returns (reply: AuthReply)
      requires Valid()
      modifies this
      ensures Valid()
      ensures var s := Signup(old(users), old(nextId), email, password, name, passwordHash, otp, now);
        reply == s.reply && users == s.users && nextId == s.nextId
    {
      var s := Signup(users, nextId, email, password, name, passwordHash, otp, now);
      SignupKeepsInvariant(users, nextId, email, password, name, passwordHash, otp, now);
      reply, users, nextId := s.reply, s.users, s.nextId;
    }

    method VerifyUserEmail(email: Option<string>, otp: Option<string>, now: int) returns (reply: AuthReply)
      requires Valid()
      modifies this
      ensures Valid()
      ensures var v := VerifyEmail(old(users), email, otp, now);
        reply == v.reply && users == v.users && nextId == old(nextId)
    {
      var v := VerifyEmail(users, email, otp, now);
      VerifyKeepsInvariant(users, nextId, email, otp, now);
      reply, users := v.reply, v.users;
    }
  }
}
