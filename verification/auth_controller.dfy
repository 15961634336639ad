/** Account registration and verification (backend/controllers/authController.js):
    the input validators and the `register`, `login`, `verifyOTP` and `resendOTP`
    handlers as transitions of the user store.

    An account is created unverified with a six-digit code that expires ten
    minutes later; `verifyOTP` with that code marks it verified and clears the
    code; `resendOTP` replaces the code of an unverified account; `login` issues
    a token only to a verified account. Each handler checks its guards in a fixed
    order and the first failing one decides the reply.

    A JWT is abstract (`Token`, carrying the user id). Mail delivery is the
    parameter `mailDelivered`: `sendOTP` throws on failure, which lands in the
    handler's silent catch block, so the request gets no reply (`NoReply`) while
    the writes made before it stay. The clock is `now` and the random source is
    the sequence `draws`. */
module AuthController {
  import opened Wrappers
  import opened Text
  import opened UserModel
  import opened Store
  import OtpGenerator

  /** `generateToken(id)`: a signed token carrying the user id. */
  datatype Token = Token(userId: ObjectId)

  datatype AuthReply =
    | Rejected(status: int, message: string, needsVerification: bool)
    | Accepted(status: int, message: string, token: Option<Token>, user: Option<UserSummary>, profile: Option<Profile>)
    | NoReply

  /** The code is generated without a length, so it has the default one. */
  const OtpLength: nat := OtpGenerator.DefaultOtpLength
  /** `getExpiryTime(10)`. */
  const OtpMinutes: int := 10

  // ---------------------------------------------------------------- validators

  /** `validateEmail`: the schema's address pattern, tested on the raw input. */
  predicate ValidateEmail(email: string) {
    EmailShape(email)
  }

  /** `validatePassword`: present and at least six characters. */
  predicate ValidatePassword(password: Option<string>) {
    Present(password) && |password.value| >= 6
  }

  /** `validateUsername`: present, 3 to 30 characters, all from `[a-zA-Z0-9_]`. */
  predicate ValidateUsername(username: Option<string>) {
    Present(username) && 3 <= |username.value| <= 30 && AllWordChars(username.value)
  }

  /** The handler's username check and the schema's agree exactly. */
  lemma UsernameCheckMatchesSchema(u: string)
    ensures ValidateUsername(Some(u)) <==> UsernameShape(u)
  {
  }

  /** The handler's password check and the schema's bound agree on plaintexts. */
  lemma PasswordCheckMatchesSchema(p: string)
    ensures ValidatePassword(Some(p)) <==> CredentialLength(Plain(p)) >= PasswordMinLength
  {
  }

  /** Input that passes the handler's checks passes schema validation after the
      `trim` and `lowercase` setters, so `User.create` can only fail on a unique index. */
  lemma AcceptedInputIsSchemaValid(id: ObjectId, username: string, email: string, password: string)
    requires ValidateEmail(email) && ValidateUsername(Some(username)) && ValidatePassword(Some(password))
    ensures SchemaValid(NewUserDoc(id, username, email, password))
    ensures SchemaValid(HookApplied(NewUserDoc(id, username, email, password), true))
    ensures NewUserDoc(id, username, email, password).username == username
    ensures NewUserDoc(id, username, email, password).email == Lower(email)
  {
    assert Trimmed(username) by {
      assert IsWordChar(username[0]) && IsWordChar(username[|username| - 1]);
    }
    TrimOfTrimmed(username);
    EmailShapeTrimmed(email);
    EmailShapeLower(email);
    var d := NewUserDoc(id, username, email, password);
    assert ValidationErrors(d) == [];
    assert ValidationErrors(HookApplied(d, true)) == [];
  }

  // ---------------------------------------------------------------- register

  const FieldsRequired := "Wszystkie pola są wymagane"
  const BadEmail := "Proszę podać poprawny adres email"
  const BadUsername := "Nazwa użytkownika musi mieć 3-30 znaków i zawierać tylko litery, cyfry i podkreślenia"
  const BadPassword := "Hasło musi mieć minimum 6 znaków"
  const EmailTaken := "Użytkownik z tym adresem email już istnieje"
  const UsernameTaken := "Nazwa użytkownika jest już zajęta"
  const Registered := "Konto utworzone pomyślnie. Sprawdź email aby zweryfikować konto."

  /** The input checks of `register`, in order: all fields present, email
      format, username, password. */
  function RegisterInputError(username: Option<string>, email: Option<string>, password: Option<string>): (message: Option<string>)
  {
    if !Present(username) || !Present(email) || !Present(password) then Some(FieldsRequired)
    else if !ValidateEmail(email.value) then Some(BadEmail)
    else if !ValidateUsername(username) then Some(BadUsername)
    else if !ValidatePassword(password) then Some(BadPassword)
    else None
  }

  /** The conflict check on the user the `$or` query found: its email is
      compared first and its username second, both against the raw input. */
  function ConflictMessage(existing: UserDoc, email: string, username: string): (message: Option<string>)
    ensures message.None? <==> existing.email != email && existing.username != username
  {
    if existing.email == email then Some(EmailTaken)
    else if existing.username == username then Some(UsernameTaken)
    else None
  }

  /** The guards of `register`; None means they pass. Every refusal is a 400
      without `needsVerification`. */
  function RegisterCheck(users: seq<UserDoc>, username: Option<string>, email: Option<string>, password: Option<string>): (r: Option<AuthReply>)
    ensures r.Some? ==> r.value.Rejected? && r.value.status == 400 && !r.value.needsVerification
    ensures r.None? ==> RegisterInputError(username, email, password).None?
  {
    match RegisterInputError(username, email, password)
    case Some(message) => Some(Rejected(400, message, false))
    case None =>
      match FindUserByEmailOrUsername(users, email.value, username.value)
      case None => None
      case Some(existing) =>
        match ConflictMessage(existing, email.value, username.value)
        case Some(message) => Some(Rejected(400, message, false))
        case None => None
  }

  /** With valid input, the conflict reported for the first matching user is
      its email when that equals the input and its username otherwise: a
      username held by an earlier user than the email wins. */
  lemma ConflictOrderIsPerDocument(users: seq<UserDoc>, username: string, email: string, password: string)
    requires RegisterInputError(Some(username), Some(email), Some(password)).None?
    requires |users| > 0 && users[0].username == username
    ensures RegisterCheck(users, Some(username), Some(email), Some(password))
            == Some(Rejected(400, if users[0].email == email then EmailTaken else UsernameTaken, false))
  {
    assert FindUserByEmailOrUsername(users, email, username) == Some(users[0]) by {
      UsernameShapeTrimmed(username);
    }
  }

  /** The stored user a successful `register` leaves: the new document with its
      password hashed by the create-time save and the code and expiry set. */
  function RegisteredUser(id: ObjectId, username: string, email: string, password: string, code: string, expiresAt: Timestamp): (d: UserDoc)
    ensures d.id == id && !d.isVerified && Matches(password, d.password) && IsPasswordHash(d.password)
    ensures d.otpCode == Some(code) && d.otpExpiresAt == Some(expiresAt)
  {
    HookApplied(NewUserDoc(id, username, email, password), true).(otpCode := Some(code), otpExpiresAt := Some(expiresAt))
  }

  /** What `register` does to the user collection and what it answers, given
      the id, code and expiry it draws and whether the mail goes out. A unique
      index refuses the first save when the address differs from a stored one
      only in case or surrounding blanks, which the `$or` query catches but the
      raw comparison does not; the error lands in the silent catch block. */
  function RegisterOutcome(users: seq<UserDoc>, id: ObjectId, username: Option<string>, email: Option<string>, password: Option<string>,
                           code: string, expiresAt: Timestamp, mailDelivered: bool): (r: (AuthReply, seq<UserDoc>))
    ensures r.1 != users ==> RegisterCheck(users, username, email, password).None?
                             && r.1 == users + [RegisteredUser(id, username.value, email.value, password.value, code, expiresAt)]
    ensures r.0.Accepted? ==> r.1 != users && r.0.token == Some(Token(id))
  {
    match RegisterCheck(users, username, email, password)
    case Some(reply) => (reply, users)
    case None =>
      if FindUserByEmailOrUsername(users, email.value, username.value).Some? then (NoReply, users)
      else
        var d := RegisteredUser(id, username.value, email.value, password.value, code, expiresAt);
        (if mailDelivered then Accepted(201, Registered, Some(Token(id)), Some(d.Summary()), None) else NoReply, users + [d])
  }

  /** A registered account is unverified, its password matches, and its code
      has six digits and is valid from registration for ten minutes (the
      expiry instant excluded). */
  lemma RegisteredUserState(id: ObjectId, username: string, email: string, password: string, draws: seq<real>, now: Timestamp, later: Timestamp)
    requires OtpGenerator.AllDraws(draws) && |draws| >= OtpLength
    ensures var d := RegisteredUser(id, username, email, password,
                                    NewCode(draws),
                                    OtpGenerator.GetExpiryTime(now, OtpMinutes));
            && |d.otpCode.value| == 6 && AllDigits(d.otpCode.value)
            && (d.OtpValid(later) <==> later < now + 600000)
  {
    OtpGenerator.OtpShape(draws[..OtpLength]);
  }

  /** For a new document, a unique-index conflict happens exactly when the
      `$or` query of `register` finds a user. */
  lemma NoClashIffUnmatched(users: seq<UserDoc>, nextId: ObjectId, d: UserDoc, email: string, username: string)
    requires UsersConsistent(users, nextId) && d.id == nextId
    requires d.email == EmailKey(email) && d.username == Trim(username)
    ensures Clash(users, HookApplied(d, true)).None? <==> FindUserByEmailOrUsername(users, email, username).None?
    ensures forall i :: 0 <= i < |users| ==> users[i].id != d.id
  {
    assert forall i :: 0 <= i < |users| ==> users[i] in users;
  }

  /** `User.create({ username, email, password })`: a fresh id, the setters,
      and a save whose hook hashes the password. The save is refused by a
      unique index exactly when the `$or` query of `register` would find a user. */
  method CreateAccount(db: Database, name: string, address: string, secret: string) returns (user: User, created: bool)
    requires db.Valid()
    requires ValidateEmail(address) && ValidateUsername(Some(name)) && ValidatePassword(Some(secret))
    modifies db
    ensures fresh(user) && user.id == old(db.nextId)
    ensures forall i :: 0 <= i < |old(db.users)| ==> old(db.users)[i].id != user.id
    ensures db.Valid() && db.music == old(db.music) && db.nextId == old(db.nextId) + 1
    ensures created <==> FindUserByEmailOrUsername(old(db.users), address, name).None?
    ensures !created ==> db.users == old(db.users)
    ensures created ==> && user.Doc() == HookApplied(NewUserDoc(user.id, name, address, secret), true)
                        && user.Valid() && !user.passwordModified && SchemaValid(user.Doc())
                        && db.users == old(db.users) + [user.Doc()]
  {
    AcceptedInputIsSchemaValid(db.nextId, name, address, secret);
    var before := db.users;
    var id := db.FreshId();
    user := new User.Create(id, name, address, secret);
    var initial := NewUserDoc(id, name, address, secret);
    NoClashIffUnmatched(before, id, initial, address, name);
    var err := db.SaveUser(user);
    created := err.None?;
    if created {
      PutFresh(before, UserId, HookApplied(initial, true));
    }
  }

  /** The code a handler stores: six digits and an expiry ten minutes on. */
  function NewCode(draws: seq<real>): string
    requires OtpGenerator.AllDraws(draws) && |draws| >= OtpLength
  {
    OtpGenerator.Drawn(OtpGenerator.Digits, draws[..OtpLength])
  }

  /** `user.otp = { code: generateOTP(), expiresAt: getExpiryTime() }` followed by
      `user.save()`, on a stored user: both fields are overwritten and the
      document written back. */
  method IssueOtp(db: Database, user: User, draws: seq<real>, now: Timestamp)
    requires db.Valid() && user.Valid() && !user.passwordModified && user.Doc() in db.users
    requires OtpGenerator.AllDraws(draws) && |draws| >= OtpLength
    modifies db, user
    ensures db.Valid() && db.music == old(db.music) && db.nextId == old(db.nextId)
    ensures user.Doc() == old(user.Doc()).(otpCode := Some(NewCode(draws)),
                                          otpExpiresAt := Some(OtpGenerator.GetExpiryTime(now, OtpMinutes)))
    ensures db.users == Put(old(db.users), UserId, user.Doc())
  {
    var stored := user.Doc();
    var code := OtpGenerator.GenerateOtp(draws);
    var expiresAt := OtpGenerator.GetExpiryTime(now, OtpMinutes);
    user.AssignOtp(code, expiresAt);
    assert ValidationErrors(user.Doc()) == ValidationErrors(stored);
    db.SaveExisting(user, stored);
  }

  /** `register`. */
  method Register(db: Database, username: Option<string>, email: Option<string>, password: Option<string>,
                  draws: seq<real>, now: Timestamp, mailDelivered: bool) returns (reply: AuthReply)
    requires db.Valid() && OtpGenerator.AllDraws(draws) && |draws| >= OtpLength
    modifies db
    ensures db.Valid() && db.music == old(db.music)
    ensures (reply, db.users) == RegisterOutcome(old(db.users), old(db.nextId), username, email, password,
                                                 NewCode(draws), OtpGenerator.GetExpiryTime(now, OtpMinutes), mailDelivered)
  {
    var check := RegisterCheck(db.users, username, email, password);
    if check.Some? {
      return check.value;
    }
    var name, address, secret := username.value, email.value, password.value;
    var before := db.users;
    var user, created := CreateAccount(db, name, address, secret);
    if !created {
      return NoReply;
    }
    var hashed := user.Doc();
    IssueOtp(db, user, draws, now);
    PutOverLast(before, UserId, hashed, user.Doc());
    if !mailDelivered {
      return NoReply;
    }
    reply := Accepted(201, Registered, Some(Token(user.id)), Some(user.Doc().Summary()), None);
  }

  // ---------------------------------------------------------------- login

  const CredentialsRequired := "Email i hasło są wymagane"
  const BadCredentials := "Nieprawidłowy email lub hasło"
  const NotVerified := "Konto nie zostało zweryfikowane. Sprawdź email i użyj kodu OTP."
  const LoggedIn := "Zalogowano pomyślnie"

  /** `login`: missing field, then unknown email, then wrong password (the same
      reply as an unknown email), then unverified account, then a token. */
  function LoginOutcome(users: seq<UserDoc>, email: Option<string>, password: Option<string>): AuthReply {
    if !Present(email) || !Present(password) then Rejected(400, CredentialsRequired, false)
    else match FindUserByEmail(users, email.value)
      case None => Rejected(401, BadCredentials, false)
      case Some(u) =>
        if !Matches(password.value, u.password) then Rejected(401, BadCredentials, false)
        else if !u.isVerified then Rejected(401, NotVerified, true)
        else Accepted(200, LoggedIn, Some(Token(u.id)), Some(u.Summary()), None)
  }

  /** `login` only reads the store. */
  method Login(db: Database, email: Option<string>, password: Option<string>) returns (reply: AuthReply)
    ensures reply == LoginOutcome(db.users, email, password)
  {
    if !Present(email) || !Present(password) {
      return Rejected(400, CredentialsRequired, false);
    }
    var user := FindUserByEmail(db.users, email.value);
    if user.None? {
      return Rejected(401, BadCredentials, false);
    }
    var isPasswordMatch := Matches(password.value, user.value.password);
    if !isPasswordMatch {
      return Rejected(401, BadCredentials, false);
    }
    if !user.value.isVerified {
      return Rejected(401, NotVerified, true);
    }
    reply := Accepted(200, LoggedIn, Some(Token(user.value.id)), Some(user.value.Summary()), None);
  }

  /** An unknown email and a wrong password cannot be told apart by the reply. */
  lemma LoginHidesWhichCredentialFailed(unknown: seq<UserDoc>, known: seq<UserDoc>, email: string, password: string)
    requires email != "" && password != ""
    requires FindUserByEmail(unknown, email).None?
    requires FindUserByEmail(known, email).Some? && !Matches(password, FindUserByEmail(known, email).value.password)
    ensures LoginOutcome(unknown, Some(email), Some(password)) == LoginOutcome(known, Some(email), Some(password))
    ensures LoginOutcome(unknown, Some(email), Some(password)) == Rejected(401, BadCredentials, false)
  {
  }

  /** A token is issued exactly to a verified account whose password matches;
      the right password on an unverified account gets 401 with
      `needsVerification` and no token. */
  lemma LoginIssuesTokenOnlyWhenVerified(users: seq<UserDoc>, email: string, password: string)
    requires email != "" && password != ""
    ensures var r := LoginOutcome(users, Some(email), Some(password));
            var found := FindUserByEmail(users, email);
            && (r.Accepted? <==> found.Some? && Matches(password, found.value.password) && found.value.isVerified)
            && (r.Accepted? ==> r.token == Some(Token(found.value.id)))
            && ((found.Some? && Matches(password, found.value.password) && !found.value.isVerified)
                ==> r == Rejected(401, NotVerified, true))
  {
  }

  // ---------------------------------------------------------------- verifyOTP

  const OtpFieldsRequired := "Email i kod OTP są wymagane"
  const UserNotFound := "Użytkownik nie znaleziony"
  const OtpInvalidOrExpired := "Kod OTP jest nieprawidłowy lub wygasł"
  const OtpMismatch := "Nieprawidłowy kod OTP"
  const AccountVerified := "Konto zweryfikowane pomyślnie"

  /** The guards of `verifyOTP`, in order: both fields, the user, `isOTPValid()`
      (strict expiry), then the code compared without normalisation. */
  function VerifyOtpCheck(users: seq<UserDoc>, email: Option<string>, otp: Option<string>, now: Timestamp): Option<AuthReply> {
    if !Present(email) || !Present(otp) then Some(Rejected(400, OtpFieldsRequired, false))
    else match FindUserByEmail(users, email.value)
      case None => Some(Rejected(404, UserNotFound, false))
      case Some(u) =>
        if !u.OtpValid(now) then Some(Rejected(400, OtpInvalidOrExpired, false))
        else if u.otpCode.value != otp.value then Some(Rejected(400, OtpMismatch, false))
        else None
  }

  /** The account after a successful verification. */
  function Verified(u: UserDoc): (v: UserDoc)
    ensures v.isVerified && v.otpCode.None? && v.otpExpiresAt.None?
    ensures v.id == u.id && v.username == u.username && v.email == u.email && v.password == u.password
  {
    u.(isVerified := true, otpCode := None, otpExpiresAt := None)
  }

  /** The guards pass exactly when the account holds this code and now is
      strictly before its expiry. */
  lemma VerifyOtpAcceptsExactly(users: seq<UserDoc>, email: string, otp: string, now: Timestamp)
    requires email != "" && otp != ""
    ensures VerifyOtpCheck(users, Some(email), Some(otp), now).None? <==>
              var found := FindUserByEmail(users, email);
              found.Some? && found.value.otpCode == Some(otp) && found.value.otpExpiresAt.Some?
              && now < found.value.otpExpiresAt.value
  {
    var found := FindUserByEmail(users, email);
    if found.Some? {
      var u := found.value;
      assert VerifyOtpCheck(users, Some(email), Some(otp), now).None? <==> u.OtpValid(now) && u.otpCode.value == otp;
    }
  }

  /** `verifyOTP`. */
  method VerifyOtp(db: Database, email: Option<string>, otp: Option<string>, now: Timestamp) returns (reply: AuthReply)
    requires db.Valid()
    modifies db
    ensures db.Valid() && db.music == old(db.music) && db.nextId == old(db.nextId)
    ensures VerifyOtpCheck(old(db.users), email, otp, now).Some? ==>
              reply == VerifyOtpCheck(old(db.users), email, otp, now).value && db.users == old(db.users)
    ensures VerifyOtpCheck(old(db.users), email, otp, now).None? ==>
              var u := FindUserByEmail(old(db.users), email.value).value;
              && db.users == Put(old(db.users), UserId, Verified(u))
              && reply == Accepted(200, AccountVerified, Some(Token(u.id)), Some(Verified(u).Summary()), Some(u.ProfileOf()))
  {
    var check := VerifyOtpCheck(db.users, email, otp, now);
    if check.Some? {
      return check.value;
    }
    var found := FindUserByEmail(db.users, email.value).value;
    var user := new User.Hydrate(found);
    user.isVerified := true;
    user.ClearOtp();
    assert user.Doc() == Verified(found);
    ResaveHasNoClash(db.users, db.nextId, found, user.Doc());
    assert ValidationErrors(user.Doc()) == ValidationErrors(found);
    var err := db.SaveUser(user);
    if err.Some? {
      return NoReply;
    }
    reply := Accepted(200, AccountVerified, Some(Token(found.id)), Some(user.Doc().Summary()), Some(found.ProfileOf()));
  }

  /** After a successful verification the same request fails: no code remains. */
  lemma VerifyOtpOnlyOnce(users: seq<UserDoc>, nextId: ObjectId, email: string, otp: string, now: Timestamp, later: Timestamp)
    requires UsersConsistent(users, nextId)
    requires email != "" && otp != ""
    requires VerifyOtpCheck(users, Some(email), Some(otp), now).None?
    ensures var u := FindUserByEmail(users, email).value;
            VerifyOtpCheck(Put(users, UserId, Verified(u)), Some(email), Some(otp), later)
              == Some(Rejected(400, OtpInvalidOrExpired, false))
  {
    var u := FindUserByEmail(users, email).value;
    FindByEmailAfterResave(users, nextId, u, Verified(u), email);
  }

  // ---------------------------------------------------------------- resendOTP

  const EmailRequired := "Email jest wymagany"
  const AlreadyVerified := "Konto zostało już zweryfikowane"
  const OtpResent := "Nowy kod OTP został wysłany na Twój email"

  /** The guards of `resendOTP`, in order: email, user, not yet verified. */
  function ResendOtpCheck(users: seq<UserDoc>, email: Option<string>): Option<AuthReply> {
    if !Present(email) then Some(Rejected(400, EmailRequired, false))
    else match FindUserByEmail(users, email.value)
      case None => Some(Rejected(404, UserNotFound, false))
      case Some(u) => if u.isVerified then Some(Rejected(400, AlreadyVerified, false)) else None
  }

  /** A verified account is never given a new code. */
  lemma ResendRefusesVerified(users: seq<UserDoc>, email: string)
    requires email != ""
    requires FindUserByEmail(users, email).Some? && FindUserByEmail(users, email).value.isVerified
    ensures ResendOtpCheck(users, Some(email)) == Some(Rejected(400, AlreadyVerified, false))
  {
  }

  /** `resendOTP`: both code and expiry are overwritten, then the mail is sent. */
  method ResendOtp(db: Database, email: Option<string>, draws: seq<real>, now: Timestamp, mailDelivered: bool) returns (reply: AuthReply)
    requires db.Valid() && OtpGenerator.AllDraws(draws) && |draws| >= OtpLength
    modifies db
    ensures db.Valid() && db.music == old(db.music) && db.nextId == old(db.nextId)
    ensures ResendOtpCheck(old(db.users), email).Some? ==>
              reply == ResendOtpCheck(old(db.users), email).value && db.users == old(db.users)
    ensures ResendOtpCheck(old(db.users), email).None? ==>
              var u := FindUserByEmail(old(db.users), email.value).value;
              && db.users == Put(old(db.users), UserId,
                                 u.(otpCode := Some(NewCode(draws)),
                                    otpExpiresAt := Some(OtpGenerator.GetExpiryTime(now, OtpMinutes))))
              && reply == (if mailDelivered then Accepted(200, OtpResent, None, None, None) else NoReply)
  {
    var check := ResendOtpCheck(db.users, email);
    if check.Some? {
      return check.value;
    }
    var found := FindUserByEmail(db.users, email.value).value;
    var user := new User.Hydrate(found);
    IssueOtp(db, user, draws, now);
    if !mailDelivered {
      return NoReply;
    }
    reply := Accepted(200, OtpResent, None, None, None);
  }

  /** After a resend only the new code verifies, until ten minutes later. */
  lemma ResentCodeReplacesOld(users: seq<UserDoc>, nextId: ObjectId, email: string, code: string, oldCode: string,
                              now: Timestamp, later: Timestamp)
    requires UsersConsistent(users, nextId)
    requires email != "" && code != "" && oldCode != "" && oldCode != code
    requires ResendOtpCheck(users, Some(email)).None?
    ensures var u := FindUserByEmail(users, email).value;
            var after := Put(users, UserId, u.(otpCode := Some(code), otpExpiresAt := Some(OtpGenerator.GetExpiryTime(now, OtpMinutes))));
            && (VerifyOtpCheck(after, Some(email), Some(code), later).None? <==> later < now + 600000)
            && VerifyOtpCheck(after, Some(email), Some(oldCode), later).Some?
  {
    var u := FindUserByEmail(users, email).value;
    var v := u.(otpCode := Some(code), otpExpiresAt := Some(OtpGenerator.GetExpiryTime(now, OtpMinutes)));
    var after := Put(users, UserId, v);
    FindByEmailAfterResave(users, nextId, u, v, email);
    VerifyOtpAcceptsExactly(after, email, code, later);
    VerifyOtpAcceptsExactly(after, email, oldCode, later);
  }
}
