/** The User document (backend/models/User.js): schema bounds and defaults, the
    password hook, `clearOTP`, `isOTPValid`, the `fullName` virtual and the
    `toJSON` projection.

    A persisted user is the value `UserDoc`. A handler works on a `User` object,
    the in-memory document Mongoose hydrates: it assigns fields in place and then
    saves it back (see module Store). bcrypt is abstract: hashing wraps the stored
    value in `Hashed`, and a candidate password matches exactly the hash of itself. */
module UserModel {
  import opened Wrappers
  import opened Text
  import OtpGenerator

  /** A MongoDB ObjectId, abstractly. */
  type ObjectId = nat
  type Timestamp = OtpGenerator.Timestamp

  // ---------------------------------------------------------------- passwords

  /** The value of the `password` path: the plaintext just assigned, or the output
      of `bcrypt.hash` applied to an earlier value. */
  datatype Credential = Plain(text: string) | Hashed(of: Credential)

  /** What a stored password should be: the bcrypt hash of a plaintext. */
  predicate IsPasswordHash(c: Credential) {
    c.Hashed? && c.of.Plain?
  }

  /** `bcrypt.compare(candidate, stored)`. */
  predicate Matches(candidate: string, stored: Credential) {
    stored == Hashed(Plain(candidate))
  }

  /** A stored hash matches one password and no other. */
  lemma MatchesOnlyItsPassword(p: string, q: string)
    ensures Matches(q, Hashed(Plain(p))) <==> q == p
  {
  }

  /** Hashing a value that is already a hash (what an unconditional pre-save hook
      would do on every save) makes the account's own password stop matching. */
  lemma RehashBreaksLogin(p: string, q: string)
    ensures !Matches(q, Hashed(Hashed(Plain(p))))
  {
  }

  /** The length the `minlength` validator sees: the plaintext's, or the 60
      characters of a bcrypt hash. */
  function CredentialLength(c: Credential): nat {
    match c
    case Plain(t) => |t|
    case Hashed(_) => 60
  }

  // ---------------------------------------------------------------- schema

  const UsernameMinLength: nat := 3
  const UsernameMaxLength: nat := 30
  const PasswordMinLength: nat := 6
  const NameMaxLength: nat := 50
  const BioMaxLength: nat := 500

  /** The validators' messages. */
  const UsernameRequired := "Username is required"
  const UsernameTooShort := "Username must be at least 3 characters long"
  const UsernameTooLong := "Username cannot exceed 30 characters"
  const UsernameCharacters := "Username can only contain letters, numbers, and underscores"
  const EmailRequired := "Email is required"
  const EmailInvalid := "Please provide a valid email address"
  const PasswordRequired := "Password is required"
  const PasswordTooShort := "Password must be at least 6 characters long"
  const FirstNameTooLong := "Name cannot exceed 50 characters"
  const LastNameTooLong := "Last name cannot exceed 50 characters."
  const BioTooLong := "Bio cannot exceed 500 characters"

  /** `/^[a-zA-Z0-9_]+$/` with the 3..30 length bounds. */
  predicate UsernameShape(u: string) {
    UsernameMinLength <= |u| <= UsernameMaxLength && AllWordChars(u)
  }

  /** A username of this shape has no whitespace to trim. */
  lemma UsernameShapeTrimmed(u: string)
    requires UsernameShape(u)
    ensures Trim(u) == u
  {
    assert IsWordChar(u[0]) && IsWordChar(u[|u| - 1]);
    TrimOfTrimmed(u);
  }

  /** `\w+([.-]?\w+)*`: word characters, single dots or dashes between them,
      a word character at each end. */
  predicate DottedWords(s: string) {
    && |s| > 0
    && IsWordChar(s[0]) && IsWordChar(s[|s| - 1])
    && (forall i :: 0 <= i < |s| ==> IsWordChar(s[i]) || s[i] == '.' || s[i] == '-')
    && (forall i :: 0 <= i < |s| - 1 ==> IsWordChar(s[i]) || IsWordChar(s[i + 1]))
  }

  /** `\w+([.-]?\w+)*(\.\w{2,3})+`: dotted words whose last segment is two or
      three word characters after a dot. */
  predicate DomainShape(d: string) {
    && DottedWords(d)
    && (LastSegment(d, 2) || LastSegment(d, 3))
  }

  /** The last `k` characters are word characters and a dot precedes them. */
  predicate LastSegment(d: string, k: nat) {
    |d| > k + 1 && d[|d| - k - 1] == '.' && AllWordChars(d[|d| - k..])
  }

  /** `/^\w+([.-]?\w+)*@\w+([.-]?\w+)*(\.\w{2,3})+$/`: one `@` between a local
      part and a domain of the shapes above. Neither part can hold an `@`, so
      the only possible split is at the first one. */
  predicate EmailShape(e: string) {
    match IndexOf(e, '@')
    case None => false
    case Some(at) => SplitsAt(e, at)
  }

  /** The `@` at position `at` separates a valid local part from a valid domain. */
  predicate SplitsAt(e: string, at: nat)
    requires at < |e|
  {
    e[at] == '@' && DottedWords(e[..at]) && DomainShape(e[at + 1..])
  }

  /** Any split is the split at the first `@`. */
  lemma SplitIsFirstAt(e: string, at: nat)
    requires at < |e| && SplitsAt(e, at)
    ensures EmailShape(e)
  {
    assert '@' !in e[..at] by {
      forall i | 0 <= i < at ensures e[..at][i] != '@' {
        assert IsWordChar(e[..at][i]) || e[..at][i] == '.' || e[..at][i] == '-';
      }
    }
    IndexOfUnique(e, '@', at);
  }

  /** The `lowercase` setter keeps an address of this shape in shape. */
  lemma EmailShapeLower(e: string)
    requires EmailShape(e)
    ensures EmailShape(Lower(e))
  {
    var at := IndexOf(e, '@').value;
    var l := Lower(e);
    var local, domain := e[..at], e[at + 1..];
    assert l[..at] == Lower(local);
    assert l[at + 1..] == Lower(domain);
    DottedWordsLower(local);
    DomainShapeLower(domain);
    assert l[at] == LowerChar('@') == '@';
    assert SplitsAt(l, at);
    SplitIsFirstAt(l, at);
  }

  lemma DottedWordsLower(s: string)
    requires DottedWords(s)
    ensures DottedWords(Lower(s))
  {
    var l := Lower(s);
    forall i | 0 <= i < |s| ensures IsWordChar(l[i]) <==> IsWordChar(s[i]) {
    }
  }

  lemma DomainShapeLower(d: string)
    requires DomainShape(d)
    ensures DomainShape(Lower(d))
  {
    DottedWordsLower(d);
    if LastSegment(d, 2) {
      LastSegmentLower(d, 2);
    } else {
      LastSegmentLower(d, 3);
    }
  }

  lemma LastSegmentLower(d: string, k: nat)
    requires LastSegment(d, k)
    ensures LastSegment(Lower(d), k)
  {
    var l := Lower(d);
    assert l[|d| - k - 1] == LowerChar('.');
    assert l[|d| - k..] == Lower(d[|d| - k..]);
  }

  /** An address of this shape has no whitespace to trim. */
  lemma EmailShapeTrimmed(e: string)
    requires EmailShape(e)
    ensures Trim(e) == e
  {
    var at := IndexOf(e, '@').value;
    assert e[0] == e[..at][0];
    var d := e[at + 1..];
    assert e[|e| - 1] == d[|d| - 1];
    TrimOfTrimmed(e);
  }

  datatype UserDoc = UserDoc(
    id: ObjectId,
    username: string,
    email: string,
    password: Credential,
    isVerified: bool,
    otpCode: Option<string>,
    otpExpiresAt: Option<Timestamp>,
    firstName: Option<string>,
    lastName: Option<string>,
    avatar: Option<string>,
    bio: Option<string>,
    favoriteGenres: seq<string>,
    recentlyPlayed: seq<ObjectId>,
    playlists: seq<ObjectId>)
  {
    /** `isOTPValid()`: a code and an expiry are set and now is STRICTLY before the expiry. */
    predicate OtpValid(now: Timestamp) {
      Present(otpCode) && otpExpiresAt.Some? && now < otpExpiresAt.value
    }

    /** The `fullName` virtual: first and last name joined by a space when both
        are set (non-empty), the username otherwise. */
    function FullName(): (name: string)
      ensures Present(firstName) && Present(lastName) ==>
                |name| == |firstName.value| + 1 + |lastName.value|
                && StartsWith(name, firstName.value) && name[|firstName.value|] == ' '
                && name[|firstName.value| + 1..] == lastName.value
      ensures !(Present(firstName) && Present(lastName)) ==> name == username
    {
      if Present(firstName) && Present(lastName) then firstName.value + " " + lastName.value
      else username
    }

    /** `toJSON`: the document with virtuals, minus `password` and `otp`. */
    function ToJson(): PublicUser {
      PublicUser(id, username, email, isVerified, firstName, lastName, avatar, bio,
                 favoriteGenres, recentlyPlayed, playlists, FullName())
    }

    /** The summary the auth handlers reply with. */
    function Summary(): UserSummary {
      UserSummary(id, username, email, isVerified)
    }

    /** The `profile` sub-document. */
    function ProfileOf(): Profile {
      Profile(firstName, lastName, avatar, bio)
    }
  }

  /** A serialized user: there is no field for the password or the OTP. */
  datatype PublicUser = PublicUser(
    id: ObjectId, username: string, email: string, isVerified: bool,
    firstName: Option<string>, lastName: Option<string>, avatar: Option<string>, bio: Option<string>,
    favoriteGenres: seq<string>, recentlyPlayed: seq<ObjectId>, playlists: seq<ObjectId>,
    fullName: string)

  datatype Profile = Profile(firstName: Option<string>, lastName: Option<string>, avatar: Option<string>, bio: Option<string>)

  /** `{ id, username, email, isVerified }` as the auth handlers reply. */
  datatype UserSummary = UserSummary(id: ObjectId, username: string, email: string, isVerified: bool)

  /** The projection does not depend on the password or the OTP: two documents
      that differ only there serialize identically. */
  lemma ProjectionIgnoresSecrets(d: UserDoc, password: Credential, code: Option<string>, expiry: Option<Timestamp>)
    ensures d.(password := password, otpCode := code, otpExpiresAt := expiry).ToJson() == d.ToJson()
  {
  }

  /** ... and it keeps everything else: equal projections mean equal documents up
      to the password and the OTP. */
  lemma ProjectionKeepsTheRest(d: UserDoc, e: UserDoc)
    requires d.ToJson() == e.ToJson()
    ensures d == e.(password := d.password, otpCode := d.otpCode, otpExpiresAt := d.otpExpiresAt)
  {
  }

  /** The validation messages of the paths that fail, in schema order; for each
      path the first failing validator (required, then the length bounds, then
      the pattern) speaks. */
  function ValidationErrors(d: UserDoc): (errors: seq<string>)
    ensures errors == [] <==> SchemaValid(d)
  {
    UsernameError(d.username) + EmailError(d.email) + PasswordError(d.password)
    + (if LengthAtMost(d.firstName, NameMaxLength) then [] else [FirstNameTooLong])
    + (if LengthAtMost(d.lastName, NameMaxLength) then [] else [LastNameTooLong])
    + (if LengthAtMost(d.bio, BioMaxLength) then [] else [BioTooLong])
  }

  /** A refused document comes with a first message, and it is not empty: the
      error handler reports it. */
  lemma FirstValidationMessage(d: UserDoc)
    requires !SchemaValid(d)
    ensures |ValidationErrors(d)| > 0 && ValidationErrors(d)[0] != ""
  {
    var first: seq<string> := if LengthAtMost(d.firstName, NameMaxLength) then [] else [FirstNameTooLong];
    var last: seq<string> := if LengthAtMost(d.lastName, NameMaxLength) then [] else [LastNameTooLong];
    var bio: seq<string> := if LengthAtMost(d.bio, BioMaxLength) then [] else [BioTooLong];
    var a := UsernameError(d.username) + EmailError(d.email);
    HeadConcat(UsernameError(d.username), EmailError(d.email));
    HeadConcat(a, PasswordError(d.password));
    a := a + PasswordError(d.password);
    HeadConcat(a, first);
    HeadConcat(a + first, last);
    HeadConcat(a + first + last, bio);
    assert ValidationErrors(d) == a + first + last + bio;
  }

  /** The first entry, if any, is not empty. */
  predicate HeadNonEmpty(s: seq<string>) {
    |s| > 0 ==> s[0] != ""
  }

  lemma HeadConcat(a: seq<string>, b: seq<string>)
    requires HeadNonEmpty(a) && HeadNonEmpty(b)
    ensures HeadNonEmpty(a + b)
  {
    if |a| > 0 {
      assert (a + b)[0] == a[0];
    }
  }

  predicate LengthAtMost(s: Option<string>, bound: nat) {
    s.None? || |s.value| <= bound
  }

  function UsernameError(u: string): seq<string> {
    if u == "" then [UsernameRequired]
    else if |u| < UsernameMinLength then [UsernameTooShort]
    else if |u| > UsernameMaxLength then [UsernameTooLong]
    else if !AllWordChars(u) then [UsernameCharacters]
    else []
  }

  function EmailError(e: string): seq<string> {
    if e == "" then [EmailRequired]
    else if !EmailShape(e) then [EmailInvalid]
    else []
  }

  function PasswordError(c: Credential): seq<string> {
    if CredentialLength(c) == 0 then [PasswordRequired]
    else if CredentialLength(c) < PasswordMinLength then [PasswordTooShort]
    else []
  }

  /** Every validator of the schema passes. */
  predicate SchemaValid(d: UserDoc) {
    UsernameShape(d.username) && EmailShape(d.email) && CredentialLength(d.password) >= PasswordMinLength
    && LengthAtMost(d.firstName, NameMaxLength) && LengthAtMost(d.lastName, NameMaxLength)
    && LengthAtMost(d.bio, BioMaxLength)
  }

  /** Applies the `trim` setter to a nullable string path. */
  function TrimOpt(s: Option<string>): (r: Option<string>)
    ensures r.Some? <==> s.Some?
    ensures r.Some? ==> r.value == Trim(s.value)
  {
    match s
    case None => None
    case Some(v) => Some(Trim(v))
  }

  /** The document `User.create` builds: the `trim` and `lowercase` setters on
      username and email, the plaintext password, and the schema defaults
      (`isVerified: false`, OTP code and expiry `null`, avatar `null`, empty arrays). */
  function NewUserDoc(id: ObjectId, username: string, email: string, password: string): (d: UserDoc)
    ensures !d.isVerified && d.otpCode.None? && d.otpExpiresAt.None? && d.avatar.None?
    ensures d.favoriteGenres == [] && d.recentlyPlayed == [] && d.playlists == []
    ensures d.password == Plain(password)
  {
    UserDoc(id, Trim(username), Lower(Trim(email)), Plain(password), false, None, None,
            None, None, None, None, [], [], [])
  }

  /** The in-memory document a handler works on. */
  class User {
    const id: ObjectId
    var username: string
    var email: string
    var password: Credential
    /** Mongoose's `isModified('password')`. */
    var passwordModified: bool
    var isVerified: bool
    var otpCode: Option<string>
    var otpExpiresAt: Option<Timestamp>
    var firstName: Option<string>
    var lastName: Option<string>
    var avatar: Option<string>
    var bio: Option<string>
    var favoriteGenres: seq<string>
    var recentlyPlayed: seq<ObjectId>
    var playlists: seq<ObjectId>

    /** The document's current value. */
    function Doc(): UserDoc
      reads this
    {
      UserDoc(id, username, email, password, isVerified, otpCode, otpExpiresAt,
              firstName, lastName, avatar, bio, favoriteGenres, recentlyPlayed, playlists)
    }

    /** A password the hook has not hashed yet is a freshly assigned plaintext;
        otherwise the path holds a bcrypt hash. */
    ghost predicate Valid()
      reads this
    {
      if passwordModified then password.Plain? else IsPasswordHash(password)
    }

    /** A document loaded from the store. */
    constructor Hydrate(d: UserDoc)
      requires IsPasswordHash(d.password)
      ensures Doc() == d && !passwordModified && Valid()
    {
      id := d.id;
      username, email, password := d.username, d.email, d.password;
      isVerified, otpCode, otpExpiresAt := d.isVerified, d.otpCode, d.otpExpiresAt;
      firstName, lastName, avatar, bio := d.firstName, d.lastName, d.avatar, d.bio;
      favoriteGenres, recentlyPlayed, playlists := d.favoriteGenres, d.recentlyPlayed, d.playlists;
      passwordModified := false;
    }

    /** `new User({ username, email, password })`: every path of a new document
        counts as modified, the password included. */
    constructor Create(newId: ObjectId, name: string, address: string, secret: string)
      ensures Doc() == NewUserDoc(newId, name, address, secret)
      ensures passwordModified && Valid()
    {
      id := newId;
      username, email, password := Trim(name), Lower(Trim(address)), Plain(secret);
      isVerified, otpCode, otpExpiresAt := false, None, None;
      firstName, lastName, avatar, bio := None, None, None, None;
      favoriteGenres, recentlyPlayed, playlists := [], [], [];
      passwordModified := true;
    }

    /** `user.password = p`: the plaintext replaces the hash and the path is marked modified. */
    method AssignPassword(p: string)
      modifies this
      ensures Doc() == old(Doc()).(password := Plain(p))
      ensures passwordModified && Valid()
    {
      password := Plain(p);
      passwordModified := true;
    }

    /** `user.otp.code = code; user.otp.expiresAt = expiresAt`. */
    method AssignOtp(code: string, expiresAt: Timestamp)
      modifies this
      ensures Doc() == old(Doc()).(otpCode := Some(code), otpExpiresAt := Some(expiresAt))
      ensures passwordModified == old(passwordModified)
    {
      otpCode := Some(code);
      otpExpiresAt := Some(expiresAt);
    }

    /** `clearOTP()`: both OTP fields become null; nothing else changes. */
    method ClearOtp()
      modifies this
      ensures Doc() == old(Doc()).(otpCode := None, otpExpiresAt := None)
      ensures passwordModified == old(passwordModified)
    {
      otpCode := None;
      otpExpiresAt := None;
    }

    /** The pre-save hook: the password is hashed only when it was modified;
        otherwise the stored hash is kept as it is. */
    method PreSave()
      requires Valid()
      modifies this
      ensures old(passwordModified) ==> Doc() == old(Doc()).(password := Hashed(old(password)))
      ensures !old(passwordModified) ==> Doc() == old(Doc())
      ensures !passwordModified && Valid() && IsPasswordHash(password)
    {
      if passwordModified {
        password := Hashed(password);
        passwordModified := false;
      }
    }
  }

  /** `isOTPValid` (strict) and `isValidOTP` (inclusive) agree on a matching code
      everywhere except at the expiry instant itself, where only the latter accepts. */
  lemma {:induction false} OtpValidityDisagreement(d: UserDoc, now: Timestamp)
    requires Present(d.otpCode) && d.otpExpiresAt.Some?
    ensures OtpGenerator.IsValidOtp(d.otpCode, d.otpCode, d.otpExpiresAt, now)
            == (d.OtpValid(now) || now == d.otpExpiresAt.value)
    ensures now == d.otpExpiresAt.value ==>
              !d.OtpValid(now) && OtpGenerator.IsValidOtp(d.otpCode, d.otpCode, d.otpExpiresAt, now)
  {
  }
}
