/** The client's route guard (frontend/src/components/ProtectedRoute.jsx) and
    the two browser-storage slots it reads and writes. On mount the guard
    checks the stored access token: no token means "not authenticated"; an
    unexpired one means "authenticated"; an expired one triggers a single
    refresh request whose reply decides the state and, on status 200,
    overwrites both stored tokens.

    The JWT decoder, the clock and the refresh endpoint are inputs: `decode`
    maps a token to its `exp` claim (a NumericDate in seconds, section 4.1.4
    of RFC 7519) or to a decoding failure, `nowMs` is `Date.now()`, and
    `respond` maps the refresh token sent to the server's reply. */
module SessionGuard {
  import opened Wrappers

  /** The `isAuthenticated` state: `null`, `true` or `false`. */
  datatype AuthState = Loading | Authenticated | Unauthenticated

  /** What `jwtDecode` yields: the payload's `exp`, absent when the claim is
      missing, or a throw on a token it cannot parse. */
  datatype Decoded = Claims(exp: Option<int>) | Malformed

  /** The outcome of `api.post("/api/token/refresh/", ...)`: a response with
      its status and the `access` and `refresh` fields of its body, or a
      thrown error. */
  datatype RefreshReply = Replied(status: int, access: Option<string>, refresh: Option<string>) | Threw

  /** What the guard renders. */
  datatype View = LoadingPlaceholder | Children | RedirectToLogin

  /** The browser state the guard sees: both storage slots (`null` when
      unset), its own state, and the refresh tokens it has posted, in order. */
  datatype Browser = Browser(access: Option<string>, refresh: Option<string>, state: AuthState, sent: seq<Option<string>>)

  /** `localStorage.setItem` stores the string form of its value, so an
      `undefined` field is stored as "undefined". */
  function Stored(v: Option<string>): (s: string)
    ensures v.Some? ==> s == v.value
    ensures v.None? ==> s == "undefined"
  {
    if v.Some? then v.value else "undefined"
  }

  /** `if (token)`: a stored token is used only when it is non-empty. */
  predicate Truthy(token: Option<string>)
  {
    token.Some? && token.value != ""
  }

  /** `exp < Date.now() / 1000`, compared in milliseconds so that no fraction
      arises; a missing `exp` compares false and counts as unexpired. */
  predicate Expired(exp: Option<int>, nowMs: int)
  {
    exp.Some? && exp.value * 1000 < nowMs
  }

  /** The render decision. */
  function Render(state: AuthState): (v: View)
    ensures v == LoadingPlaceholder <==> state == Loading
    ensures v == Children <==> state == Authenticated
    ensures v == RedirectToLogin <==> state == Unauthenticated
  {
    match state
    case Loading => LoadingPlaceholder
    case Authenticated => Children
    case Unauthenticated => RedirectToLogin
  }

  // ---------------------------------------------------------------------------
  // The guard as functions of the browser state
  // ---------------------------------------------------------------------------

  /** `refreshApi(refreshToken)`: posts the token; on status 200 stores both
      returned tokens and yields `true`, on another status yields `false`,
      and on a throw yields `None`. */
  function RefreshStep(b: Browser, refreshToken: Option<string>, respond: Option<string> -> RefreshReply): (r: (Browser, Option<bool>))
  {
    var posted := b.(sent := b.sent + [refreshToken]);
    match respond(refreshToken)
    case Threw => (posted, None)
    case Replied(status, access, refresh) =>
      if status == 200 then (posted.(access := Some(Stored(access)), refresh := Some(Stored(refresh))), Some(true))
      else (posted, Some(false))
  }

  /** `attemptToRefreshToken`: reads the stored refresh token, sends it as it
      is, and sets the state from the outcome, a throw counting as `false`. */
  function AttemptStep(b: Browser, respond: Option<string> -> RefreshReply): Browser
  {
    var (next, didRefresh) := RefreshStep(b, b.refresh, respond);
    next.(state := if didRefresh == Some(true) then Authenticated else Unauthenticated)
  }

  /** `checkToken(token)`: a throw from the decoder rejects the promise, which
      nobody awaits, so nothing changes; an expired token goes to the
      refresh, any other makes the state `true`. */
  function CheckStep(b: Browser, token: string, decode: string -> Decoded, nowMs: int, respond: Option<string> -> RefreshReply): Browser
  {
    match decode(token)
    case Malformed => b
    case Claims(exp) => if Expired(exp, nowMs) then AttemptStep(b, respond) else b.(state := Authenticated)
  }

  /** `authenticate()` as the mount effect runs it. */
  function Activate(b: Browser, decode: string -> Decoded, nowMs: int, respond: Option<string> -> RefreshReply): Browser
  {
    if Truthy(b.access) then CheckStep(b, b.access.value, decode, nowMs, respond)
    else b.(state := Unauthenticated)
  }

  /** The login form stores both tokens of its response. */
  function LoggedIn(b: Browser, access: Option<string>, refresh: Option<string>): Browser
  {
    b.(access := Some(Stored(access)), refresh := Some(Stored(refresh)))
  }

  /** Logging out clears the storage. */
  function LoggedOut(b: Browser): Browser
  {
    b.(access := None, refresh := None)
  }

  // ---------------------------------------------------------------------------
  // What an activation does
  // ---------------------------------------------------------------------------

  /** Without a usable access token the state becomes `false`; no request is
      made and storage is untouched. */
  lemma NoTokenNoRequest(b: Browser, decode: string -> Decoded, nowMs: int, respond: Option<string> -> RefreshReply)
    requires !Truthy(b.access)
    ensures var r := Activate(b, decode, nowMs, respond);
      r.state == Unauthenticated && r.sent == b.sent && r.access == b.access && r.refresh == b.refresh
  {
  }

  /** An unexpired token, or one without `exp`, makes the state `true` with no
      request and storage untouched. */
  lemma UnexpiredTokenNoRequest(b: Browser, decode: string -> Decoded, nowMs: int, respond: Option<string> -> RefreshReply)
    requires Truthy(b.access) && decode(b.access.value).Claims? && !Expired(decode(b.access.value).exp, nowMs)
    ensures Activate(b, decode, nowMs, respond) == b.(state := Authenticated)
  {
  }

  /** An expired token sends the stored refresh token, even an absent one,
      exactly once. */
  lemma ExpiredTokenSendsStoredRefresh(b: Browser, decode: string -> Decoded, nowMs: int, respond: Option<string> -> RefreshReply)
    requires Truthy(b.access) && decode(b.access.value).Claims? && Expired(decode(b.access.value).exp, nowMs)
    ensures Activate(b, decode, nowMs, respond).sent == b.sent + [b.refresh]
  {
  }

  /** A 200 reply overwrites both stored tokens with the reply's and makes the
      state `true`. */
  lemma RefreshedTokensAreStored(b: Browser, decode: string -> Decoded, nowMs: int, respond: Option<string> -> RefreshReply)
    requires Truthy(b.access) && decode(b.access.value).Claims? && Expired(decode(b.access.value).exp, nowMs)
    requires respond(b.refresh).Replied? && respond(b.refresh).status == 200
    ensures var r := Activate(b, decode, nowMs, respond);
      && r.state == Authenticated
      && r.access == Some(Stored(respond(b.refresh).access))
      && r.refresh == Some(Stored(respond(b.refresh).refresh))
  {
  }

  /** Another status, or a throw, makes the state `false` and leaves both
      stored tokens as they were. */
  lemma FailedRefreshKeepsTokens(b: Browser, decode: string -> Decoded, nowMs: int, respond: Option<string> -> RefreshReply)
    requires Truthy(b.access) && decode(b.access.value).Claims? && Expired(decode(b.access.value).exp, nowMs)
    requires respond(b.refresh).Threw? || respond(b.refresh).status != 200
    ensures var r := Activate(b, decode, nowMs, respond);
      r.state == Unauthenticated && r.access == b.access && r.refresh == b.refresh
  {
  }

  /** An activation posts at most one request and never rewrites the log of
      earlier ones. */
  lemma AtMostOneRequest(b: Browser, decode: string -> Decoded, nowMs: int, respond: Option<string> -> RefreshReply)
    ensures var r := Activate(b, decode, nowMs, respond);
      |b.sent| <= |r.sent| <= |b.sent| + 1 && r.sent[..|b.sent|] == b.sent
  {
    var r := Activate(b, decode, nowMs, respond);
    if |r.sent| != |b.sent| {
      assert r.sent == b.sent + [b.refresh];
    }
  }

  /** From a fresh mount the guard ends authenticated exactly when the stored
      token decodes and is either unexpired or refreshed with status 200. */
  lemma AuthenticatedExactly(b: Browser, decode: string -> Decoded, nowMs: int, respond: Option<string> -> RefreshReply)
    requires b.state == Loading
    ensures Activate(b, decode, nowMs, respond).state == Authenticated
      <==> Truthy(b.access) && decode(b.access.value).Claims?
           && (!Expired(decode(b.access.value).exp, nowMs)
               || (respond(b.refresh).Replied? && respond(b.refresh).status == 200))
  {
  }

  /** A token the decoder rejects leaves the guard loading forever: the
      rejection of `checkToken` is never observed, so the `catch` of the
      mount effect does not run. */
  lemma MalformedTokenStaysLoading(b: Browser, decode: string -> Decoded, nowMs: int, respond: Option<string> -> RefreshReply)
    requires b.state == Loading && Truthy(b.access) && decode(b.access.value).Malformed?
    ensures Activate(b, decode, nowMs, respond) == b
    ensures Render(Activate(b, decode, nowMs, respond).state) == LoadingPlaceholder
  {
  }

  /** The activation the `catch` handler shows was intended: a decoding
      failure ends as `false` like every other failure. */
  function ActivateIntended(b: Browser, decode: string -> Decoded, nowMs: int, respond: Option<string> -> RefreshReply): (r: Browser)
    ensures r.state != Loading
  {
    if Truthy(b.access) && decode(b.access.value).Malformed? then b.(state := Unauthenticated)
    else Activate(b, decode, nowMs, respond)
  }

  /** Handling the decoding failure changes nothing else: from a fresh mount
      every activation that settled before settles the same way. */
  lemma IntendedActivationAgrees(b: Browser, decode: string -> Decoded, nowMs: int, respond: Option<string> -> RefreshReply)
    ensures b.state == Loading && Activate(b, decode, nowMs, respond).state != Loading ==>
      ActivateIntended(b, decode, nowMs, respond) == Activate(b, decode, nowMs, respond)
  {
  }

  /** With an unexpired token a second activation changes nothing: the guard
      does not refresh again. */
  lemma ActivationStableWhenFresh(b: Browser, decode: string -> Decoded, nowMs: int, respond: Option<string> -> RefreshReply)
    requires Truthy(b.access) && decode(b.access.value).Claims? && !Expired(decode(b.access.value).exp, nowMs)
    ensures var once := Activate(b, decode, nowMs, respond);
      Activate(once, decode, nowMs, respond) == once
  {
  }

  /** After a login whose token is unexpired the guard lets the user through
      without a request. */
  lemma LoginThenActivate(b: Browser, access: string, refresh: Option<string>, decode: string -> Decoded, nowMs: int, respond: Option<string> -> RefreshReply)
    requires access != "" && decode(access).Claims? && !Expired(decode(access).exp, nowMs)
    ensures var r := Activate(LoggedIn(b, Some(access), refresh), decode, nowMs, respond);
      r.state == Authenticated && r.sent == b.sent
  {
  }

  /** After logging out the guard redirects to the login page without a
      request. */
  lemma LogoutThenActivate(b: Browser, decode: string -> Decoded, nowMs: int, respond: Option<string> -> RefreshReply)
    ensures var r := Activate(LoggedOut(b), decode, nowMs, respond);
      Render(r.state) == RedirectToLogin && r.sent == b.sent && r.access.None? && r.refresh.None?
  {
  }

  // ---------------------------------------------------------------------------
  // The component and the storage it writes
  // ---------------------------------------------------------------------------

  /** A mounted guard together with the two storage slots. */
  class Session {
    var access: Option<string>
    var refresh: Option<string>
    var state: AuthState
    var sent: seq<Option<string>>

    function Snapshot(): Browser
      reads this
    {
      Browser(access, refresh, state, sent)
    }

    /** Mounting: `useState(null)` over whatever the storage holds. */
    constructor Mount(access: Option<string>, refresh: Option<string>)
      ensures Snapshot() == Browser(access, refresh, Loading, [])
    {
      this.access := access;
      this.refresh := refresh;
      state := Loading;
      sent := [];
    }

    /** The login form's success path. */
    method Login(newAccess: Option<string>, newRefresh: Option<string>)
      modifies this
      ensures Snapshot() == LoggedIn(old(Snapshot()), newAccess, newRefresh)
    {
      access := Some(Stored(newAccess));
      refresh := Some(Stored(newRefresh));
    }

    /** The navigation bar's logout. */
    method Logout()
      modifies this
      ensures Snapshot() == LoggedOut(old(Snapshot()))
    {
      access := None;
      refresh := None;
    }

    method RefreshApi(refreshToken: Option<string>, respond: Option<string> -> RefreshReply) returns (didRefresh: Option<bool>)
      modifies this
      ensures (Snapshot(), didRefresh) == RefreshStep(old(Snapshot()), refreshToken, respond)
    {
      sent := sent + [refreshToken];
      var reply := respond(refreshToken);
      if reply.Threw? {
        return None;
      }
      if reply.status == 200 {
        access := Some(Stored(reply.access));
        refresh := Some(Stored(reply.refresh));
        return Some(true);
      }
      return Some(false);
    }

    method AttemptToRefreshToken(respond: Option<string> -> RefreshReply)
      modifies this
      ensures Snapshot() == AttemptStep(old(Snapshot()), respond)
    {
      var refreshToken := refresh;
      var didRefresh := RefreshApi(refreshToken, respond);
      state := if didRefresh == Some(true) then Authenticated else Unauthenticated;
    }

    method CheckToken(token: string, decode: string -> Decoded, nowMs: int, respond: Option<string> -> RefreshReply)
      modifies this
      ensures Snapshot() == CheckStep(old(Snapshot()), token, decode, nowMs, respond)
    {
      var decoded := decode(token);
      if decoded.Malformed? {
        return;
      }
      if Expired(decoded.exp, nowMs) {
        AttemptToRefreshToken(respond);
      } else {
        state := Authenticated;
      }
    }

    method Authenticate(decode: string -> Decoded, nowMs: int, respond: Option<string> -> RefreshReply)
      modifies this
      ensures Snapshot() == Activate(old(Snapshot()), decode, nowMs, respond)
    {
      var token := access;
      if Truthy(token) {
        CheckToken(token.value, decode, nowMs, respond);
      } else {
        state := Unauthenticated;
      }
    }
  }
}
