/**
 * The browser session: OIDC login and callback, silent refresh, expiry with leeway and logout
 * (routers/auth.py, middleware/auth_middleware.py). The state parameter is that of section 10.12
 * of RFC 6749, the refresh grant that of section 6. The session dictionary is threaded through
 * the events of one browser in order.
 */
module Sessions {
  import opened Common

  datatype Session = Session(
    username: Option<string>,
    authenticated: bool,
    expiresAt: Option<int>,
    refreshToken: Option<string>,
    oauthState: Option<string>,
    redirect: Option<string>)

  const EMPTY := Session(None, false, None, None, None, None)

  datatype Config = Config(useRefreshToken: bool, leewaySeconds: int)

  datatype TokenResponse = TokenResponse(
    expiresAt: Option<real>,
    idTokenExp: Option<real>,
    expiresIn: Option<real>,
    refreshToken: Option<string>)

  /** What the identity provider does with a refresh request. */
  datatype Idp = Unavailable | Fails | EmptyAnswer | Answers(tokens: TokenResponse)

  /** outcome: the exchange, the user checks and the user record all succeeded, for this user. */
  datatype Event =
    | Login(configured: bool, state: string, next: Option<string>)
    | Callback(configured: bool, error: bool, given: Option<string>, code: bool,
               outcome: Option<(string, TokenResponse)>, now: real)
    | Logout
    | Request(now: real, idp: Idp)

  /** Passed: the callback's state check succeeded, and the user it logged in, if any. */
  datatype Reply =
    | Accepted(user: string, refreshed: bool)
    | Denied
    | Passed(login: Option<string>)
    | Refused
    | Done

  predicate LogsIn(r: Reply) { r.Passed? && r.login.Some? }

  predicate Truthy(s: Option<string>) { s.Some? && s.value != "" }

  function Positive(x: Option<real>): Option<int> { if x.Some? && x.value > 0.0 then Some(x.value.Floor) else None }

  /** _extract_session_expiry: expires_at, else the id token's exp, else now plus expires_in. */
  function ExtractExpiry(t: TokenResponse, now: real): Option<int> {
    if Positive(t.expiresAt).Some? then Positive(t.expiresAt)
    else if Positive(t.idTokenExp).Some? then Positive(t.idTokenExp)
    else if Positive(t.expiresIn).Some? then Some(now.Floor + Positive(t.expiresIn).value)
    else None
  }

  function Persist(cfg: Config, s: Session, t: TokenResponse, now: real): Session {
    s.(expiresAt := ExtractExpiry(t, now),
       refreshToken := if !cfg.useRefreshToken then None
                       else if Truthy(t.refreshToken) then t.refreshToken
                       else s.refreshToken)
  }

  function Leeway(cfg: Config): int { if cfg.leewaySeconds < 0 then 0 else cfg.leewaySeconds }

  predicate Expired(cfg: Config, s: Session, now: real) {
    s.expiresAt.Some? && now >= (s.expiresAt.value - Leeway(cfg)) as real
  }

  predicate CanRefresh(cfg: Config, s: Session, idp: Idp) {
    cfg.useRefreshToken && Truthy(s.refreshToken) && idp.Answers?
  }

  /** A path on this origin that cannot smuggle a header. */
  ghost predicate SafePath(p: string) {
    |p| > 0 && p[0] == '/' && (|p| > 1 ==> p[1] != '/') && '\n' !in p && '\r' !in p
  }

  function SanitizeNext(value: Option<string>): (r: Option<string>)
    ensures r.Some? <==> value.Some? && SafePath(value.value)
    ensures match value
            case None => r == None
            case Some(v) =>
              r == if |v| > 0 && v[0] == '/' && !(|v| > 1 && v[1] == '/') && '\n' !in v && '\r' !in v then value
                   else None
  {
    if !Truthy(value) || !("/" <= value.value) || "//" <= value.value || '\n' in value.value || '\r' in value.value
    then None
    else value
  }

  function LoginStep(s: Session, e: Event): Session
    requires e.Login?
  {
    if !e.configured then s
    else
      var next := SanitizeNext(e.next);
      s.(oauthState := Some(e.state), redirect := if next.Some? then next else s.redirect)
  }

  predicate StateMatches(s: Session, e: Event)
    requires e.Callback?
  {
    e.configured && !e.error && Truthy(s.oauthState) && e.given == s.oauthState
  }

  function CallbackStep(cfg: Config, s: Session, e: Event): (Session, Reply)
    requires e.Callback?
  {
    if !StateMatches(s, e) then (s, Refused)
    else
      var s1 := s.(oauthState := None);
      if !e.code || e.outcome.None? then (s1, Passed(None))
      else
        var (user, tokens) := e.outcome.value;
        var s2 := Persist(cfg, s1, tokens, e.now);
        if user == "" then (s2, Passed(None))
        else (s2.(username := Some(user), authenticated := true, redirect := None), Passed(Some(user)))
  }

  function RequestStep(cfg: Config, s: Session, now: real, idp: Idp): (Session, Reply) {
    if !Truthy(s.username) then (s, Denied)
    else if !Expired(cfg, s, now) then (s, Accepted(s.username.value, false))
    else if CanRefresh(cfg, s, idp) then (Persist(cfg, s, idp.tokens, now), Accepted(s.username.value, true))
    else (EMPTY, Denied)
  }

  function Step(cfg: Config, s: Session, e: Event): (Session, Reply) {
    match e
    case Login(_, _, _) => (LoginStep(s, e), Done)
    case Callback(_, _, _, _, _, _) => CallbackStep(cfg, s, e)
    case Logout => (EMPTY, Done)
    case Request(now, idp) => RequestStep(cfg, s, now, idp)
  }

  // ---- the handlers on the session dictionary ----

  class Browser {
    const cfg: Config
    var session: Session

    constructor (cfg: Config)
      ensures this.cfg == cfg && session == EMPTY
    {
      this.cfg := cfg;
      session := EMPTY;
    }

    method PersistSessionAuth(t: TokenResponse, now: real)
      modifies this
      ensures session == Persist(cfg, old(session), t, now)
    {
      var expiry := ExtractExpiry(t, now);
      if expiry.Some? {
        session := session.(expiresAt := expiry);
      } else {
        session := session.(expiresAt := None);
      }
      if cfg.useRefreshToken {
        if Truthy(t.refreshToken) {
          session := session.(refreshToken := t.refreshToken);
        }
      } else {
        session := session.(refreshToken := None);
      }
    }

    /** refresh_session_with_idp: every way to fail leaves the session as it was. */
    method Refresh(idp: Idp, now: real) returns (ok: bool)
      modifies this
      ensures ok == CanRefresh(cfg, old(session), idp)
      ensures session == if ok then Persist(cfg, old(session), idp.tokens, now) else old(session)
    {
      if !cfg.useRefreshToken { return false; }
      if !Truthy(session.refreshToken) { return false; }
      match idp
      case Unavailable => return false;
      case Fails => return false;
      case EmptyAnswer => return false;
      case Answers(tokens) =>
        PersistSessionAuth(tokens, now);
        return true;
    }

    method AuthenticateSession(now: real, idp: Idp) returns (reply: Reply)
      modifies this
      ensures (session, reply) == RequestStep(cfg, old(session), now, idp)
    {
      var username := session.username;
      if !Truthy(username) { return Denied; }
      if Expired(cfg, session, now) {
        var refreshed := Refresh(idp, now);
        if !refreshed {
          session := EMPTY;
          return Denied;
        }
        return Accepted(username.value, true);
      }
      reply := Accepted(username.value, false);
    }

    method HandleLogin(e: Event)
      requires e.Login?
      modifies this
      ensures session == LoginStep(old(session), e)
    {
      if !e.configured { return; }
      session := session.(oauthState := Some(e.state));
      var nextTarget := SanitizeNext(e.next);
      if nextTarget.Some? {
        session := session.(redirect := nextTarget);
      }
    }

    method HandleLogout()
      modifies this
      ensures session == EMPTY
    {
      session := EMPTY;
    }

    method HandleCallback(e: Event) returns (reply: Reply)
      requires e.Callback?
      modifies this
      ensures (session, reply) == CallbackStep(cfg, old(session), e)
    {
      if !e.configured || e.error { return Refused; }
      var stored := session.oauthState;
      if !Truthy(stored) { return Refused; }
      if e.given != stored { return Refused; }
      session := session.(oauthState := None);
      if !e.code { return Passed(None); }
      if e.outcome.None? { return Passed(None); }
      var (user, tokens) := e.outcome.value;
      PersistSessionAuth(tokens, e.now);
      if user == "" { return Passed(None); }
      session := session.(username := Some(user), authenticated := true, redirect := None);
      reply := Passed(Some(user));
    }
  }

  // ---- whole histories, from an empty session ----

  function After(cfg: Config, es: seq<Event>): Session {
    if es == [] then EMPTY else Step(cfg, After(cfg, es[..|es| - 1]), es[|es| - 1]).0
  }

  function ReplyTo(cfg: Config, es: seq<Event>, i: nat): Reply
    requires i < |es|
  {
    Step(cfg, After(cfg, es[..i]), es[i]).1
  }

  /** One more event. */
  lemma AfterNext(cfg: Config, es: seq<Event>, i: nat)
    requires i < |es|
    ensures After(cfg, es[..i + 1]) == Step(cfg, After(cfg, es[..i]), es[i]).0
  {
    assert es[..i + 1][..i] == es[..i];
  }

  /**
   * A request is accepted exactly when the session names a user and either is unexpired at that
   * moment, leeway taken off, or is refreshed in that same step; only a refresh changes it.
   */
  lemma AcceptedIff(cfg: Config, s: Session, now: real, idp: Idp)
    ensures var (s', r) := RequestStep(cfg, s, now, idp);
            && (r.Accepted? <==> Truthy(s.username) && (!Expired(cfg, s, now) || CanRefresh(cfg, s, idp)))
            && (r.Accepted? ==> Some(r.user) == s.username == s'.username)
            && (r.Accepted? && !r.refreshed ==> s' == s)
            && (r.Accepted? && !r.refreshed && s.expiresAt.Some? ==>
                  && now < s.expiresAt.value as real
                  && now < s.expiresAt.value as real - cfg.leewaySeconds as real)
            && (r.Accepted? && r.refreshed ==> s' == Persist(cfg, s, idp.tokens, now))
            && (r == Denied && Truthy(s.username) ==> s' == EMPTY)
  {
  }

  /**
   * A session request in full. The session is live without an expiry or up to the leeway before
   * it, a negative leeway counting as none; a live session is accepted as it is, whatever the
   * provider does, and one that is not is renewed or emptied.
   */
  lemma RequestExplained(cfg: Config, s: Session, now: real, idp: Idp)
    ensures var (s', r) := RequestStep(cfg, s, now, idp);
            var leeway := if cfg.leewaySeconds > 0 then cfg.leewaySeconds else 0;
            var named := s.username.Some? && s.username.value != "";
            var live := s.expiresAt.Some? ==> now < (s.expiresAt.value - leeway) as real;
            var renewable := cfg.useRefreshToken && s.refreshToken.Some? && s.refreshToken.value != "" && idp.Answers?;
            && (!named ==> r == Denied && s' == s)
            && (named && live ==> r == Accepted(s.username.value, false) && s' == s)
            && (named && !live && renewable ==>
                  && r == Accepted(s.username.value, true)
                  && s' == s.(expiresAt := s'.expiresAt, refreshToken := s'.refreshToken))
            && (named && !live && !renewable ==> r == Denied && s' == Session(None, false, None, None, None, None))
  {
  }

  /** The whole number of seconds of a positive time. */
  ghost predicate WholeSeconds(e: int, at: real) { e as real <= at < e as real + 1.0 }

  /**
   * What a token response leaves in the session: a rotated refresh token, if enabled, and the first
   * expiry it names.
   */
  lemma TokensStored(cfg: Config, s: Session, t: TokenResponse, now: real)
    ensures var s' := Persist(cfg, s, t, now);
            && s' == s.(expiresAt := s'.expiresAt, refreshToken := s'.refreshToken)
            && (!cfg.useRefreshToken ==> s'.refreshToken == None)
            && (cfg.useRefreshToken && t.refreshToken.Some? && t.refreshToken.value != "" ==>
                  s'.refreshToken == t.refreshToken)
            && (cfg.useRefreshToken && t.refreshToken in {None, Some("")} ==> s'.refreshToken == s.refreshToken)
            && (if t.expiresAt.Some? && t.expiresAt.value > 0.0 then
                  s'.expiresAt.Some? && WholeSeconds(s'.expiresAt.value, t.expiresAt.value)
                else if t.idTokenExp.Some? && t.idTokenExp.value > 0.0 then
                  s'.expiresAt.Some? && WholeSeconds(s'.expiresAt.value, t.idTokenExp.value)
                else if t.expiresIn.Some? && t.expiresIn.value > 0.0 then
                  exists d, n ::
                    WholeSeconds(d, t.expiresIn.value) && WholeSeconds(n, now) && s'.expiresAt == Some(n + d)
                else s'.expiresAt == None)
  {
    if t.expiresIn.Some? {
      assert WholeSeconds(t.expiresIn.value.Floor, t.expiresIn.value) && WholeSeconds(now.Floor, now);
    }
  }

  /**
   * A login stores the state it sends along, and the return target if that is a path on this origin
   * without line breaks.
   */
  lemma LoginExplained(s: Session, e: Event)
    requires e.Login?
    ensures !e.configured ==> LoginStep(s, e) == s
    ensures e.configured ==>
              var safe := match e.next
                          case None => false
                          case Some(v) =>
                            |v| > 0 && v[0] == '/' && !(|v| > 1 && v[1] == '/') && '\n' !in v && '\r' !in v;
              LoginStep(s, e) == s.(oauthState := Some(e.state), redirect := if safe then e.next else s.redirect)
  {
  }

  /** A callback passes exactly when it brings back the stored state, and then logs in whoever the exchange names. */
  lemma CallbackExplained(cfg: Config, s: Session, e: Event)
    requires e.Callback?
    ensures var (s', r) := CallbackStep(cfg, s, e);
            var passes := e.configured && !e.error && s.oauthState.Some? && s.oauthState.value != ""
                && e.given == s.oauthState;
            && (!passes ==> r == Refused && s' == s)
            && (passes && (!e.code || e.outcome == None) ==> r == Passed(None) && s' == s.(oauthState := None))
            && (passes && e.code && e.outcome.Some? ==>
                  var (user, tokens) := e.outcome.value;
                  var stored := Persist(cfg, s, tokens, e.now).(oauthState := None);
                  if user == "" then r == Passed(None) && s' == stored
                  else && r == Passed(Some(user))
                       && s' == stored.(username := Some(user), authenticated := true, redirect := None))
  {
  }

  /** A refresh answer without a refresh token keeps the stored one, so the next expiry can be refreshed too. */
  lemma OldTokenKept(cfg: Config, s: Session, now: real, tokens: TokenResponse)
    requires Truthy(s.username) && Expired(cfg, s, now) && CanRefresh(cfg, s, Answers(tokens))
             && !Truthy(tokens.refreshToken)
    ensures var s' := RequestStep(cfg, s, now, Answers(tokens)).0; s'.refreshToken == s.refreshToken
    ensures var s' := RequestStep(cfg, s, now, Answers(tokens)).0;
            forall later, more :: RequestStep(cfg, s', later, Answers(more)).1.Accepted?
  {
  }

  /** With refresh disabled no history ever leaves a refresh token in the session. */
  lemma {:induction false} NoRefreshToken(cfg: Config, es: seq<Event>)
    requires !cfg.useRefreshToken
    ensures After(cfg, es).refreshToken == None
  {
    if es != [] { NoRefreshToken(cfg, es[..|es| - 1]); }
  }

  /** A session without a user denies every request until a callback logs someone in. */
  lemma {:induction false} LockedOut(cfg: Config, es: seq<Event>, i: nat, j: nat)
    requires i <= j < |es| && !Truthy(After(cfg, es[..i]).username) && es[j].Request?
    requires forall k | i <= k < j :: !LogsIn(ReplyTo(cfg, es, k))
    ensures ReplyTo(cfg, es, j) == Denied
    decreases j - i
  {
    if i < j {
      AfterNext(cfg, es, i);
      assert !LogsIn(ReplyTo(cfg, es, i));
      StaysAnonymous(cfg, After(cfg, es[..i]), es[i]);
      LockedOut(cfg, es, i + 1, j);
    }
  }

  lemma StaysAnonymous(cfg: Config, s: Session, e: Event)
    requires !Truthy(s.username) && !LogsIn(Step(cfg, s, e).1)
    ensures !Truthy(Step(cfg, s, e).0.username)
  {
  }

  /**
   * A request denied for expiry or a failed refresh empties the session, so all later requests are
   * denied until a new callback.
   */
  lemma DeniedUntilCallback(cfg: Config, es: seq<Event>, i: nat, j: nat)
    requires i < j < |es| && es[i].Request? && ReplyTo(cfg, es, i) == Denied && es[j].Request?
    requires forall k | i < k < j :: !LogsIn(ReplyTo(cfg, es, k))
    ensures ReplyTo(cfg, es, j) == Denied
  {
    AfterNext(cfg, es, i);
    AcceptedIff(cfg, After(cfg, es[..i]), es[i].now, es[i].idp);
    LockedOut(cfg, es, i + 1, j);
  }

  /** Events that can take a user's name out of the session. */
  ghost predicate Ends(cfg: Config, es: seq<Event>, k: nat)
    requires k < |es|
  {
    es[k].Logout? || ReplyTo(cfg, es, k) == Denied || LogsIn(ReplyTo(cfg, es, k))
  }

  /** An event that neither logs in nor ends the session leaves its user alone. */
  lemma UserStays(cfg: Config, s: Session, e: Event)
    requires !LogsIn(Step(cfg, s, e).1) && Step(cfg, s, e).0.username.Some? && (s.username.Some? ==> Truthy(s.username))
    ensures Step(cfg, s, e).0.username == s.username && !e.Logout? && Step(cfg, s, e).1 != Denied
  {
  }

  /**
   * Where the session's user comes from: a callback that logged that user in, with no logout,
   * denial or other login since.
   */
  lemma {:induction false} UserOrigin(cfg: Config, es: seq<Event>, n: nat) returns (k: nat)
    requires n <= |es| && After(cfg, es[..n]).username.Some?
    ensures k < n && ReplyTo(cfg, es, k) == Passed(After(cfg, es[..n]).username)
    ensures forall j | k < j < n :: !Ends(cfg, es, j)
    decreases n
  {
    AfterNext(cfg, es, n - 1);
    var s, e := After(cfg, es[..n - 1]), es[n - 1];
    var r := ReplyTo(cfg, es, n - 1);
    if LogsIn(r) {
      k := n - 1;
    } else {
      UserNamesTruthy(cfg, es[..n - 1]);
      UserStays(cfg, s, e);
      k := UserOrigin(cfg, es, n - 1);
    }
  }

  lemma {:induction false} UserNamesTruthy(cfg: Config, es: seq<Event>)
    ensures After(cfg, es).username.Some? ==> Truthy(After(cfg, es).username)
  {
    if es != [] { UserNamesTruthy(cfg, es[..|es| - 1]); }
  }

  /**
   * Every accepted request acts for the user of the latest successful callback, with nothing in
   * between that ends the session.
   */
  lemma AcceptedUserLoggedIn(cfg: Config, es: seq<Event>, n: nat) returns (k: nat)
    requires n < |es| && ReplyTo(cfg, es, n).Accepted?
    ensures k < n && ReplyTo(cfg, es, k) == Passed(Some(ReplyTo(cfg, es, n).user))
    ensures forall j | k < j < n :: !Ends(cfg, es, j)
  {
    k := UserOrigin(cfg, es, n);
  }

  /** The tokens an event writes into the session: a callback's, or those of a silent refresh. */
  function TokensOf(cfg: Config, s: Session, e: Event): Option<(TokenResponse, real)> {
    match e
    case Callback(_, _, _, code, outcome, now) =>
      if StateMatches(s, e) && code && outcome.Some? then Some((outcome.value.1, now)) else None
    case Request(now, idp) =>
      if Truthy(s.username) && Expired(cfg, s, now) && CanRefresh(cfg, s, idp) then Some((idp.tokens, now)) else None
    case _ => None
  }

  function TokensAt(cfg: Config, es: seq<Event>, i: nat): Option<(TokenResponse, real)>
    requires i < |es|
  {
    TokensOf(cfg, After(cfg, es[..i]), es[i])
  }

  lemma ExpiryStays(cfg: Config, s: Session, e: Event)
    requires Step(cfg, s, e).0.username.Some?
    ensures match TokensOf(cfg, s, e)
            case Some(t) => Step(cfg, s, e).0.expiresAt == ExtractExpiry(t.0, t.1)
            case None => s.username.Some? && Step(cfg, s, e).0.expiresAt == s.expiresAt
  {
  }

  /** The expiry of a session with a user is that of the tokens written last. */
  lemma {:induction false} ExpiryOrigin(cfg: Config, es: seq<Event>, n: nat) returns (k: nat)
    requires n <= |es| && After(cfg, es[..n]).username.Some?
    ensures k < n && TokensAt(cfg, es, k).Some?
    ensures var t := TokensAt(cfg, es, k).value; After(cfg, es[..n]).expiresAt == ExtractExpiry(t.0, t.1)
    ensures forall j | k < j < n :: TokensAt(cfg, es, j).None?
    decreases n
  {
    AfterNext(cfg, es, n - 1);
    ExpiryStays(cfg, After(cfg, es[..n - 1]), es[n - 1]);
    if TokensAt(cfg, es, n - 1).Some? {
      k := n - 1;
    } else {
      k := ExpiryOrigin(cfg, es, n - 1);
    }
  }

  /**
   * A session never outlives its token: a request accepted without a refresh comes before the
   * expiry, less leeway, of the tokens written last, unless those named none.
   */
  lemma NeverOutlivesToken(cfg: Config, es: seq<Event>, n: nat) returns (k: nat)
    requires n < |es| && ReplyTo(cfg, es, n).Accepted? && !ReplyTo(cfg, es, n).refreshed
    ensures k < n && TokensAt(cfg, es, k).Some? && forall j | k < j < n :: TokensAt(cfg, es, j).None?
    ensures var t := TokensAt(cfg, es, k).value;
            var expiry := ExtractExpiry(t.0, t.1);
            expiry.Some? ==>
              es[n].now < expiry.value as real && es[n].now < (expiry.value - cfg.leewaySeconds) as real
  {
    k := ExpiryOrigin(cfg, es, n);
  }

  /** When a token response says it runs out: stated outright, else by the id token, else counted from its arrival. */
  ghost predicate RunsOutAt(t: TokenResponse, arrived: real, at: real) {
    if t.expiresAt.Some? && t.expiresAt.value > 0.0 then at == t.expiresAt.value
    else if t.idTokenExp.Some? && t.idTokenExp.value > 0.0 then at == t.idTokenExp.value
    else t.expiresIn.Some? && t.expiresIn.value > 0.0 && at == arrived + t.expiresIn.value
  }

  /**
   * Rounding never works in the session's favour: a request accepted without a refresh comes,
   * leeway taken off, before the exact moment the last tokens run out.
   */
  lemma AcceptedWithinTokenLife(cfg: Config, es: seq<Event>, n: nat, at: real) returns (k: nat)
    requires n < |es| && ReplyTo(cfg, es, n).Accepted? && !ReplyTo(cfg, es, n).refreshed
    ensures k < n && TokensAt(cfg, es, k).Some? && forall j | k < j < n :: TokensAt(cfg, es, j).None?
    ensures var t := TokensAt(cfg, es, k).value; 
            RunsOutAt(t.0, t.1, at) ==> es[n].now < at && es[n].now < at - cfg.leewaySeconds as real
  {
    k := NeverOutlivesToken(cfg, es, n);
    var t := TokensAt(cfg, es, k).value;
    if RunsOutAt(t.0, t.1, at) { RoundedDown(t.0, t.1, at); }
  }

  /** The stored expiry is less than two seconds before that moment and never after it. */
  lemma RoundedDown(t: TokenResponse, arrived: real, at: real)
    requires RunsOutAt(t, arrived, at)
    ensures ExtractExpiry(t, arrived).Some? && at - 2.0 < ExtractExpiry(t, arrived).value as real <= at
  {
  }

  /** After a logout every request is denied until a callback logs someone in. */
  lemma LogoutLocksOut(cfg: Config, es: seq<Event>, i: nat, j: nat)
    requires i < j < |es| && es[i].Logout? && es[j].Request?
    requires forall k | i < k < j :: !LogsIn(ReplyTo(cfg, es, k))
    ensures ReplyTo(cfg, es, j) == Denied
  {
    AfterNext(cfg, es, i);
    LockedOut(cfg, es, i + 1, j);
  }

  lemma RefreshTokenWritten(cfg: Config, s: Session, e: Event)
    requires cfg.useRefreshToken && TokensOf(cfg, s, e).Some?
    requires TokensOf(cfg, s, e).value.0.refreshToken !in {None, Some("")}
    ensures Step(cfg, s, e).0.refreshToken == TokensOf(cfg, s, e).value.0.refreshToken
  {
  }

  lemma RefreshTokenStays(cfg: Config, s: Session, e: Event)
    requires cfg.useRefreshToken && !e.Logout? && Step(cfg, s, e).1 != Denied
    requires TokensOf(cfg, s, e).Some? ==> TokensOf(cfg, s, e).value.0.refreshToken in {None, Some("")}
    ensures Step(cfg, s, e).0.refreshToken == s.refreshToken
  {
  }

  /** With refresh enabled the session holds the refresh token that was handed out last, until a logout or a denial. */
  lemma {:induction false} LatestRefreshToken(cfg: Config, es: seq<Event>, k: nat, n: nat)
    requires cfg.useRefreshToken && k < n <= |es| && TokensAt(cfg, es, k).Some?
    requires TokensAt(cfg, es, k).value.0.refreshToken !in {None, Some("")}
    requires forall j | k < j < n :: !es[j].Logout? && ReplyTo(cfg, es, j) != Denied
    requires forall j | k < j < n && TokensAt(cfg, es, j).Some? ::
               TokensAt(cfg, es, j).value.0.refreshToken in {None, Some("")}
    ensures After(cfg, es[..n]).refreshToken == TokensAt(cfg, es, k).value.0.refreshToken
    decreases n
  {
    AfterNext(cfg, es, n - 1);
    var s, e := After(cfg, es[..n - 1]), es[n - 1];
    assert TokensAt(cfg, es, n - 1) == TokensOf(cfg, s, e);
    if k == n - 1 {
      RefreshTokenWritten(cfg, s, e);
    } else {
      assert !e.Logout? && ReplyTo(cfg, es, n - 1) != Denied;
      LatestRefreshToken(cfg, es, k, n - 1);
      RefreshTokenStays(cfg, s, e);
    }
  }

  // ---- the state parameter is one-shot ----

  function Logins(es: seq<Event>): nat {
    if es == [] then 0 else Logins(es[..|es| - 1]) + if es[|es| - 1].Login? && es[|es| - 1].configured then 1 else 0
  }

  function Passes(cfg: Config, es: seq<Event>): nat {
    if es == [] then 0
    else Passes(cfg, es[..|es| - 1]) + if Step(cfg, After(cfg, es[..|es| - 1]), es[|es| - 1]).1.Passed? then 1 else 0
  }

  /** Callbacks that pass the state check, plus a pending state, never outnumber logins. */
  lemma {:induction false} OneShot(cfg: Config, es: seq<Event>)
    ensures Passes(cfg, es) + (if After(cfg, es).oauthState.Some? then 1 else 0) <= Logins(es)
  {
    if es != [] { OneShot(cfg, es[..|es| - 1]); }
  }

  /** A login makes its state pending: the callback that brings it back passes, and brought back again it does not. */
  lemma LoginThenCallback(cfg: Config, s: Session, login: Event, e: Event)
    requires login.Login? && login.configured && login.state != ""
    requires e.Callback? && e.configured && !e.error && e.given == Some(login.state)
    ensures CallbackStep(cfg, LoginStep(s, login), e).1.Passed?
    ensures CallbackStep(cfg, CallbackStep(cfg, LoginStep(s, login), e).0, e).1 == Refused
  {
  }

  /** A callback that does not match leaves the whole session, pending state included, as it was. */
  lemma MismatchKeepsPending(cfg: Config, s: Session, e: Event)
    requires e.Callback?
    ensures CallbackStep(cfg, s, e).1 == Refused <==> !StateMatches(s, e)
    ensures CallbackStep(cfg, s, e).1 == Refused ==> CallbackStep(cfg, s, e).0 == s
  {
  }

  /** An event that is no login keeps a pending state only by not passing. */
  lemma StateStays(cfg: Config, s: Session, e: Event)
    requires !(e.Login? && e.configured) && Step(cfg, s, e).0.oauthState.Some?
    ensures Step(cfg, s, e).0.oauthState == s.oauthState && !Step(cfg, s, e).1.Passed?
  {
  }

  /** A pending state was put there by a login, and no callback has passed since. */
  lemma {:induction false} StateOrigin(cfg: Config, es: seq<Event>, n: nat) returns (k: nat)
    requires n <= |es| && After(cfg, es[..n]).oauthState.Some?
    ensures k < n && es[k].Login? && es[k].configured && Some(es[k].state) == After(cfg, es[..n]).oauthState
    ensures forall j | k < j < n :: !ReplyTo(cfg, es, j).Passed? && !(es[j].Login? && es[j].configured)
    decreases n
  {
    AfterNext(cfg, es, n - 1);
    var e := es[n - 1];
    if e.Login? && e.configured {
      k := n - 1;
    } else {
      StateStays(cfg, After(cfg, es[..n - 1]), e);
      k := StateOrigin(cfg, es, n - 1);
    }
  }

  /** Each passing callback carries the state of the latest login, made after the callback that passed before it. */
  lemma PassUsesItsOwnLogin(cfg: Config, es: seq<Event>, i: nat, j: nat) returns (k: nat)
    requires i < j < |es| && ReplyTo(cfg, es, i).Passed? && ReplyTo(cfg, es, j).Passed?
    ensures i < k < j && es[k].Login? && es[k].configured && es[j].given == Some(es[k].state)
  {
    k := StateOrigin(cfg, es, j);
  }

  /** The stored return target is always a safe path. */
  lemma {:induction false} RedirectSafe(cfg: Config, es: seq<Event>)
    ensures After(cfg, es).redirect.Some? ==> SafePath(After(cfg, es).redirect.value)
  {
    if es != [] { RedirectSafe(cfg, es[..|es| - 1]); }
  }
}
