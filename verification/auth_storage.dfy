/** The admin panel's session store (admin/src/state/storage.ts): a zustand
    store over an access token, a refresh token, the signed-in user and an
    `isAuthenticated` flag, persisted to session storage. The transitions are
    stated once as functions on a `Session` value; the store itself is a class
    whose methods update its fields as `set(...)` does. The network call of the
    refresh is a parameter: what the server answered, or that it threw. */
module AuthStorage {
  import opened Wrappers
  import UserModel
  import AuthMiddleware

  datatype Role = UserRole | AdminRole
  datatype Profile = Profile(avatar: Option<string>, bio: Option<string>)

  /** The `User` type of the store: every field optional. */
  datatype AdminUser = AdminUser(
    id: Option<string>,
    username: Option<string>,
    email: Option<string>,
    isVerified: Option<bool>,
    role: Option<Role>,
    profile: Option<Profile>)

  /** The data part of the store; `None` is JavaScript's `null` (or `undefined`). */
  datatype Session = Session(
    accessToken: Option<string>,
    refreshToken: Option<string>,
    user: Option<AdminUser>,
    isAuthenticated: bool)

  /** The store as created: no tokens, no user, not authenticated. */
  const Initial := Session(None, None, None, false)

  /** How the refresh request ended: the JSON body the server answered with,
      or an exception from `fetch` or from parsing the body. */
  datatype RefreshResponse =
    | Answered(success: bool, accessToken: Option<string>, refreshToken: Option<string>)
    | Threw

  // ---------------------------------------------------------------- transitions

  /** `setTokens`: both tokens and the flag; the user is kept. */
  function WithTokens(s: Session, access: string, refresh: string): (t: Session)
    ensures t.accessToken == Some(access) && t.refreshToken == Some(refresh)
    ensures t.isAuthenticated && t.user == s.user
  {
    s.(accessToken := Some(access), refreshToken := Some(refresh), isAuthenticated := true)
  }

  /** `setUser`: only the user. */
  function WithUser(s: Session, u: AdminUser): (t: Session)
    ensures t.user == Some(u)
    ensures t.(user := s.user) == s
  {
    s.(user := Some(u))
  }

  /** `logout`: every field back to its initial value, whatever the state was. */
  function LoggedOut(s: Session): (t: Session)
    ensures t == Initial
  {
    Session(None, None, None, false)
  }

  /** `if (!refreshToken) return false`: null and the empty string are both falsy. */
  predicate HasRefreshToken(s: Session) {
    s.refreshToken.Some? && s.refreshToken.value != ""
  }

  /** `refreshAccessToken`: the new session and the boolean the promise resolves to. */
  function Refreshed(s: Session, response: RefreshResponse): (r: (Session, bool))
    ensures r.1 <==> HasRefreshToken(s) && response.Answered? && response.success
    ensures !HasRefreshToken(s) ==> r.0 == s
    ensures r.1 ==> r.0 == s.(accessToken := response.accessToken, refreshToken := response.refreshToken)
    ensures HasRefreshToken(s) && response.Answered? && !response.success ==> r.0 == s
    ensures HasRefreshToken(s) && response.Threw? ==> r.0 == Initial
  {
    if !HasRefreshToken(s) then (s, false)
    else
      match response
      case Threw => (LoggedOut(s), false)
      case Answered(success, access, refresh) =>
        if success then (s.(accessToken := access, refreshToken := refresh), true)
        else (s, false)
  }

  // ---------------------------------------------------------------- coherence

  /** The store holds both tokens or neither, and is authenticated exactly
      when it holds them. */
  predicate Coherent(s: Session) {
    (s.isAuthenticated <==> s.accessToken.Some?) && (s.isAuthenticated <==> s.refreshToken.Some?)
  }

  /** A successful refresh answer that carries both new tokens. */
  predicate CarriesTokens(response: RefreshResponse) {
    response.Answered? && response.success ==> response.accessToken.Some? && response.refreshToken.Some?
  }

  /** The actions of the store, for reasoning about sequences of them. */
  datatype Action =
    | SetTokens(access: string, refresh: string)
    | SetUser(user: AdminUser)
    | Logout
    | Refresh(response: RefreshResponse)

  function Step(s: Session, a: Action): Session {
    match a
    case SetTokens(access, refresh) => WithTokens(s, access, refresh)
    case SetUser(u) => WithUser(s, u)
    case Logout => LoggedOut(s)
    case Refresh(response) => Refreshed(s, response).0
  }

  /** The session after the actions, in order. */
  function Run(s: Session, actions: seq<Action>): Session
    decreases |actions|
  {
    if actions == [] then s else Run(Step(s, actions[0]), actions[1..])
  }

  predicate WellAnswered(actions: seq<Action>) {
    forall i :: 0 <= i < |actions| && actions[i].Refresh? ==> CarriesTokens(actions[i].response)
  }

  /** Each action keeps the store coherent, given a token-carrying answer. */
  lemma StepKeepsCoherence(s: Session, a: Action)
    requires Coherent(s)
    requires a.Refresh? ==> CarriesTokens(a.response)
    ensures Coherent(Step(s, a))
  {
  }

  /** From a coherent start, and in particular from the initial store, every
      sequence of actions whose refresh answers carry their tokens leaves the
      store coherent. */
  lemma {:induction false} RunKeepsCoherence(s: Session, actions: seq<Action>)
    requires Coherent(s) && WellAnswered(actions)
    ensures Coherent(Run(s, actions))
    decreases |actions|
  {
    if actions != [] {
      StepKeepsCoherence(s, actions[0]);
      assert WellAnswered(actions[1..]) by {
        forall i | 0 <= i < |actions| - 1 && actions[1..][i].Refresh?
          ensures CarriesTokens(actions[1..][i].response)
        {
          assert actions[1..][i] == actions[i + 1];
        }
      }
      RunKeepsCoherence(Step(s, actions[0]), actions[1..]);
    }
  }

  /** The JSON the backend's `POST /auth/refresh-token` answers with, as the
      store reads it: the route is behind `protect`, whose refusals carry
      `success: false`; past the gate the handler answers `success: true` with
      a `token` field, and no `access_token` or `refresh_token`. */
  function BackendAnswer(g: AuthMiddleware.Gate): (response: RefreshResponse)
    ensures response.Answered? && response.accessToken.None? && response.refreshToken.None?
    ensures response.success <==> g.Admit?
  {
    match g
    case Admit(_) => Answered(true, None, None)
    case Reject(_, _) => Answered(false, None, None)
  }

  /** The store posts the refresh token in the body and sends no
      `Authorization` header, so the gate refuses the request and the refresh
      resolves to false with the session untouched, whatever the database. */
  lemma RefreshRefusedByGate(s: Session, users: seq<UserModel.UserDoc>, verifier: AuthMiddleware.Verifier)
    ensures AuthMiddleware.GateDecision(users, verifier, None) == AuthMiddleware.Reject(401, AuthMiddleware.NoToken)
    ensures Refreshed(s, BackendAnswer(AuthMiddleware.GateDecision(users, verifier, None))) == (s, false)
  {
  }

  /** Were the request let through, the store would take the missing token
      fields as null: it would report success and stay authenticated with no
      tokens at all, breaking coherence. */
  lemma AdmittedRefreshDropsTokens(s: Session, users: seq<UserModel.UserDoc>, verifier: AuthMiddleware.Verifier, header: Option<string>)
    requires HasRefreshToken(s) && AuthMiddleware.GateDecision(users, verifier, header).Admit?
    ensures var r := Refreshed(s, BackendAnswer(AuthMiddleware.GateDecision(users, verifier, header)));
            r.1 && r.0.accessToken.None? && r.0.refreshToken.None? && r.0.isAuthenticated == s.isAuthenticated
            && (Coherent(s) ==> !Coherent(r.0))
  {
  }

  /** No `logout` among the actions after position `i`. */
  predicate NoLogoutAfter(actions: seq<Action>, i: int) {
    forall j :: 0 <= j < |actions| && i < j ==> !actions[j].Logout?
  }

  lemma NoLogoutShift(actions: seq<Action>, i: int)
    requires actions != [] && i >= -1 && NoLogoutAfter(actions[1..], i)
    ensures NoLogoutAfter(actions, i + 1)
  {
    forall j | i + 1 < j < |actions| ensures !actions[j].Logout? {
      assert actions[j] == actions[1..][j - 1];
    }
  }

  /** Only `setTokens` authenticates: an authenticated store either was
      authenticated before and never logged out since, or went through a
      `setTokens` with no `logout` after it. From the initial store, only
      the second can be. */
  lemma {:induction false} AuthenticatedOnlyAfterSetTokens(s: Session, actions: seq<Action>)
    requires Run(s, actions).isAuthenticated
    ensures (s.isAuthenticated && NoLogoutAfter(actions, -1))
            || exists i :: 0 <= i < |actions| && actions[i].SetTokens? && NoLogoutAfter(actions, i)
    decreases |actions|
  {
    if actions != [] {
      var t := Step(s, actions[0]);
      AuthenticatedOnlyAfterSetTokens(t, actions[1..]);
      if i' :| 0 <= i' < |actions[1..]| && actions[1..][i'].SetTokens? && NoLogoutAfter(actions[1..], i') {
        NoLogoutShift(actions, i');
        assert actions[i' + 1].SetTokens?;
      } else {
        NoLogoutShift(actions, -1);
        if !actions[0].SetTokens? {
          assert s.isAuthenticated && !actions[0].Logout?;
        }
      }
    }
  }

  /** Logging out ends every history in the initial store. */
  lemma {:induction false} LogoutForgetsHistory(s: Session, actions: seq<Action>)
    ensures Run(s, actions + [Logout]) == Initial
    decreases |actions|
  {
    if actions == [] {
      assert [] + [Logout] == [Logout];
    } else {
      assert (actions + [Logout])[1..] == actions[1..] + [Logout];
      LogoutForgetsHistory(Step(s, actions[0]), actions[1..]);
    }
  }

  /** A refresh without a refresh token is a no-op, so repeating it is too. */
  lemma RefreshWithoutTokenIsIdle(s: Session, responses: seq<RefreshResponse>)
    requires !HasRefreshToken(s)
    ensures Run(s, seq(|responses|, i requires 0 <= i < |responses| => Refresh(responses[i]))) == s
    decreases |responses|
  {
    if responses != [] {
      var actions := seq(|responses|, i requires 0 <= i < |responses| => Refresh(responses[i]));
      assert actions[1..] == seq(|responses| - 1, i requires 0 <= i < |responses| - 1 => Refresh(responses[1..][i]));
      RefreshWithoutTokenIsIdle(s, responses[1..]);
    }
  }

  // ---------------------------------------------------------------- persistence

  /** What `partialize` writes to session storage under `auth-storage`. */
  datatype Persisted = Persisted(
    accessToken: Option<string>,
    refreshToken: Option<string>,
    user: Option<AdminUser>,
    isAuthenticated: bool)

  function Partialize(s: Session): (p: Persisted)
    ensures p.accessToken == s.accessToken && p.refreshToken == s.refreshToken
    ensures p.user == s.user && p.isAuthenticated == s.isAuthenticated
  {
    Persisted(s.accessToken, s.refreshToken, s.user, s.isAuthenticated)
  }

  /** Rehydration: the persisted fields are spread over the current state. */
  function Merge(current: Session, p: Persisted): (s: Session)
    ensures Partialize(s) == p
  {
    current.(accessToken := p.accessToken, refreshToken := p.refreshToken, user := p.user, isAuthenticated := p.isAuthenticated)
  }

  /** Every field of the session is persisted: reloading restores the session
      whatever state the fresh store was in. */
  lemma RehydrateRestores(current: Session, s: Session)
    ensures Merge(current, Partialize(s)) == s
  {
  }

  // ---------------------------------------------------------------- the store

  class AuthStore {
    var accessToken: Option<string>
    var refreshToken: Option<string>
    var user: Option<AdminUser>
    var isAuthenticated: bool

    function State(): Session
      reads this
    {
      Session(accessToken, refreshToken, user, isAuthenticated)
    }

    constructor()
      ensures State() == Initial
    {
      accessToken := None;
      refreshToken := None;
      user := None;
      isAuthenticated := false;
    }

    method SetTokens(access: string, refresh: string)
      modifies this
      ensures State() == WithTokens(old(State()), access, refresh)
    {
      accessToken := Some(access);
      refreshToken := Some(refresh);
      isAuthenticated := true;
    }

    method SetUser(u: AdminUser)
      modifies this
      ensures State() == WithUser(old(State()), u)
    {
      user := Some(u);
    }

    method Logout()
      modifies this
      ensures State() == LoggedOut(old(State()))
    {
      accessToken := None;
      refreshToken := None;
      user := None;
      isAuthenticated := false;
    }

    /** `refreshAccessToken`; `sent` is the `refresh_token` posted to
        `/auth/refresh-token`, `None` when no request is made. */
    method RefreshAccessToken(response: RefreshResponse) returns (ok: bool, sent: Option<string>)
      modifies this
      ensures (State(), ok) == Refreshed(old(State()), response)
      ensures sent == if HasRefreshToken(old(State())) then old(refreshToken) else None
    {
      if refreshToken.None? || refreshToken.value == "" {
        return false, None;
      }
      sent := refreshToken;
      match response {
        case Threw =>
          Logout();
          ok := false;
        case Answered(success, access, refresh) =>
          if success {
            accessToken := access;
            refreshToken := refresh;
            ok := true;
          } else {
            ok := false;
          }
      }
    }

    function Partialized(): (p: Persisted)
      reads this
      ensures p == Partialize(State())
    {
      Persisted(accessToken, refreshToken, user, isAuthenticated)
    }

    method Rehydrate(p: Persisted)
      modifies this
      ensures State() == Merge(old(State()), p)
    {
      accessToken := p.accessToken;
      refreshToken := p.refreshToken;
      user := p.user;
      isAuthenticated := p.isAuthenticated;
    }
  }
}
