/** The request guards of backend/middleware/auth.js.

    `protect` reads a bearer token from the `Authorization` header, checks it,
    loads the user it names and lets the request through only for a verified
    account, putting that user on the request. `otpRequired` only asks for an
    `x-otp-token` header to be present.

    Signature and expiry checking is abstract: a `Verifier` maps each header
    token that `jwt.verify` accepts to the user id it carries. Any token
    outside it, expired or forged, makes `jwt.verify` throw. */
module AuthMiddleware {
  import opened Wrappers
  import opened Text
  import opened UserModel
  import opened Store

  /** The tokens `jwt.verify` accepts under the server's secret and clock,
      with the `id` claim of each. */
  type Verifier = map<string, ObjectId>

  const Bearer := "Bearer"

  /** The token `protect` extracts: when the header starts with `Bearer`, the
      second piece of the header split on single spaces. A missing piece and
      an empty one are both falsy, so both give None. */
  function BearerToken(header: Option<string>): (token: Option<string>)
    ensures token.Some? ==> header.Some? && StartsWith(header.value, Bearer)
    ensures token.Some? ==> token.value != "" && ' ' !in token.value
  {
    if header.None? || !StartsWith(header.value, Bearer) then None
    else
      var parts := Split(header.value, ' ');
      if |parts| < 2 || parts[1] == "" then None else Some(parts[1])
  }

  /** The well-formed header `Bearer <token>` yields its token. */
  lemma BearerTokenRoundTrip(token: string)
    requires token != "" && ' ' !in token
    ensures BearerToken(Some(Bearer + " " + token)) == Some(token)
  {
    SplitNoSeparator(token, ' ');
    SplitCons(Bearer, ' ', token);
    assert Bearer + " " + token == Bearer + [' '] + token;
  }

  /** Only the prefix of the scheme is checked and only the second piece is
      read: `BearerXYZ <token>` is accepted as well, and any pieces after the
      token are ignored. */
  lemma BearerTokenIgnoresTheRest(suffix: string, token: string, rest: string)
    requires ' ' !in suffix && token != "" && ' ' !in token
    ensures BearerToken(Some(Bearer + suffix + " " + token)) == Some(token)
    ensures BearerToken(Some(Bearer + suffix + " " + token + " " + rest)) == Some(token)
  {
    var scheme := Bearer + suffix;
    assert ' ' !in scheme by {
      assert forall i :: 0 <= i < |scheme| ==> scheme[i] == if i < |Bearer| then Bearer[i] else suffix[i - |Bearer|];
    }
    SplitNoSeparator(token, ' ');
    SplitCons(scheme, ' ', token);
    assert Bearer + suffix + " " + token == scheme + [' '] + token;
    assert StartsWith(scheme + [' '] + token, Bearer) by {
      assert (scheme + [' '] + token)[..|Bearer|] == Bearer;
    }
    SplitCons(token, ' ', rest);
    SplitCons(scheme, ' ', token + [' '] + rest);
    assert Bearer + suffix + " " + token + " " + rest == scheme + [' '] + (token + [' '] + rest);
    assert StartsWith(scheme + [' '] + (token + [' '] + rest), Bearer) by {
      assert (scheme + [' '] + (token + [' '] + rest))[..|Bearer|] == Bearer;
    }
  }

  /** A header without a space has no second piece: no token. */
  lemma NoSpaceNoToken(header: string)
    requires ' ' !in header
    ensures BearerToken(Some(header)) == None
  {
    SplitNoSeparator(header, ' ');
  }

  /** What `protect` decides. */
  datatype Gate = Admit(user: UserDoc) | Reject(status: int, message: string)

  const NoToken := "Brak tokena autoryzacji"
  const BadToken := "Nieprawidłowy token"
  const NoSuchUser := "Użytkownik nie istnieje"
  const Unverified := "Konto nie zostało zweryfikowane"

  /** The checks of `protect`, in order: a token, its verification, the user it
      names, then that user's verification flag. Every refusal is a 401. */
  function GateDecision(users: seq<UserDoc>, verifier: Verifier, header: Option<string>): (g: Gate)
    ensures g.Reject? ==> g.status == 401
    ensures g.Admit? ==> g.user in users && g.user.isVerified
  {
    match BearerToken(header)
    case None => Reject(401, NoToken)
    case Some(token) =>
      if token !in verifier then Reject(401, BadToken)
      else match FindUserById(users, verifier[token])
        case None => Reject(401, NoSuchUser)
        case Some(u) => if !u.isVerified then Reject(401, Unverified) else Admit(u)
  }

  /** With unique ids, a request is admitted as user `u` exactly when its
      header carries a token that verifies to `u`'s id and `u` is verified. */
  lemma AdmitsExactlyVerifiedOwners(users: seq<UserDoc>, nextId: ObjectId, verifier: Verifier, header: Option<string>, u: UserDoc)
    requires UsersConsistent(users, nextId)
    ensures GateDecision(users, verifier, header) == Admit(u) <==>
              var token := BearerToken(header);
              token.Some? && token.value in verifier && u in users && u.id == verifier[token.value] && u.isVerified
  {
    var token := BearerToken(header);
    if token.Some? && token.value in verifier && u in users && u.id == verifier[token.value] {
      FirstOfUnique(users, (d: UserDoc) => d.id == u.id, u);
    }
  }

  /** A token that verifies to an unverified account is refused with its own
      message, whichever other accounts exist. */
  lemma UnverifiedOwnerRefused(users: seq<UserDoc>, nextId: ObjectId, verifier: Verifier, token: string, u: UserDoc)
    requires UsersConsistent(users, nextId)
    requires token != "" && ' ' !in token && token in verifier
    requires u in users && u.id == verifier[token] && !u.isVerified
    ensures GateDecision(users, verifier, Some(Bearer + " " + token)) == Reject(401, Unverified)
  {
    BearerTokenRoundTrip(token);
    FirstOfUnique(users, (d: UserDoc) => d.id == u.id, u);
  }

  /** The parts of an Express request the guards read and write. */
  class Request {
    var authorization: Option<string>
    var otpToken: Option<string>
    /** `req.user`, set by `protect`. */
    var user: Option<UserDoc>

    constructor (authorizationHeader: Option<string>, otpHeader: Option<string>)
      ensures authorization == authorizationHeader && otpToken == otpHeader && user.None?
    {
      authorization, otpToken, user := authorizationHeader, otpHeader, None;
    }
  }

  /** `protect(req, res, next)`: the decision, and `req.user` set on admission. */
  method Protect(req: Request, db: Database, verifier: Verifier) returns (gate: Gate)
    modifies req
    ensures gate == GateDecision(db.users, verifier, old(req.authorization))
    ensures req.authorization == old(req.authorization) && req.otpToken == old(req.otpToken)
    ensures gate.Admit? ==> req.user == Some(gate.user)
    ensures gate.Reject? ==> req.user == old(req.user)
  {
    var token: Option<string> := None;
    if req.authorization.Some? && StartsWith(req.authorization.value, Bearer) {
      var parts := Split(req.authorization.value, ' ');
      if |parts| >= 2 && parts[1] != "" {
        token := Some(parts[1]);
      }
    }
    if token.None? {
      return Reject(401, NoToken);
    }
    if token.value !in verifier {
      return Reject(401, BadToken);
    }
    var found := FindUserById(db.users, verifier[token.value]);
    if found.None? {
      return Reject(401, NoSuchUser);
    }
    if !found.value.isVerified {
      return Reject(401, Unverified);
    }
    req.user := found;
    gate := Admit(found.value);
  }

  datatype Verdict = Next | Stop(status: int, message: string)

  const OtpConfirmationRequired := "Wymagane potwierdzenie OTP"

  /** `otpRequired`: any non-empty `x-otp-token` passes; its value is never
      compared with anything. */
  function OtpRequired(otpToken: Option<string>): (v: Verdict)
    ensures v.Next? <==> Present(otpToken)
    ensures v.Stop? ==> v.status == 401
  {
    if !Present(otpToken) then Stop(401, OtpConfirmationRequired) else Next
  }
}
