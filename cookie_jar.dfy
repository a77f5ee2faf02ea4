/**
 * The HTTP cookie jar: it keeps the backend's session cookie and XSRF token in
 * the session store across responses and sends them back on every request.
 */
module CookieJar {
  import opened Wrappers
  import opened Sessions
  import opened SessionStore

  const SessionCookieName: string := "takeaspot_session"
  const XsrfCookieName: string := "XSRF-TOKEN"

  /** An HTTP cookie as the jar sees it: name, value and the domain it is bound to. */
  datatype Cookie = Cookie(name: string, value: string, domain: string)

  /** The value of the last cookie called `name`, or null when none is. */
  function LastValue(cookies: seq<Cookie>, name: string): (r: Option<string>)
    ensures r.None? <==> forall i :: 0 <= i < |cookies| ==> cookies[i].name != name
    ensures r.Some? ==> exists i :: 0 <= i < |cookies| && cookies[i].name == name && cookies[i].value == r.value &&
                                  (forall j :: i < j < |cookies| ==> cookies[j].name != name)
  {
    if |cookies| == 0 then None
    else if cookies[|cookies| - 1].name == name then Some(cookies[|cookies| - 1].value)
    else LastValue(cookies[..|cookies| - 1], name)
  }

  /** The loop over a response's cookies: each session or XSRF cookie overwrites the one seen before. */
  method ScanCookies(cookies: seq<Cookie>) returns (newSessionCookie: Option<string>, newXsrfToken: Option<string>)
    ensures newSessionCookie == LastValue(cookies, SessionCookieName)
    ensures newXsrfToken == LastValue(cookies, XsrfCookieName)
  {
    newSessionCookie, newXsrfToken := None, None;
    var i := 0;
    while i < |cookies|
      invariant 0 <= i <= |cookies|
      invariant newSessionCookie == LastValue(cookies[..i], SessionCookieName)
      invariant newXsrfToken == LastValue(cookies[..i], XsrfCookieName)
    {
      var cookie := cookies[i];
      if cookie.name == SessionCookieName {
        newSessionCookie := Some(cookie.value);
      } else if cookie.name == XsrfCookieName {
        newXsrfToken := Some(cookie.value);
      }
      assert cookies[..i + 1][..i] == cookies[..i];
      i := i + 1;
    }
    assert cookies[..i] == cookies;
  }

  /**
   * The session to save after a response: each field from the response when it
   * brought one, else from the current session; nothing without a session cookie.
   * A new session cookie restarts the expiry window at `now`, otherwise the
   * current expiry is kept.
   */
  function Merged(newSessionCookie: Option<string>, newXsrfToken: Option<string>, current: Option<Session>, now: int): (r: Option<Session>)
    ensures r.None? <==> newSessionCookie.None? && current.None?
    ensures r.Some? ==> r.value.sessionCookie == (if newSessionCookie.Some? then newSessionCookie.value else current.value.sessionCookie)
    ensures r.Some? ==> r.value.xsrfToken == (if newXsrfToken.Some? then newXsrfToken else if current.Some? then current.value.xsrfToken else None)
    ensures r.Some? ==> r.value.expiresAt == (if newSessionCookie.Some? then now + SessionDurationMs else current.value.expiresAt)
  {
    var finalSessionCookie := if newSessionCookie.Some? then newSessionCookie else if current.Some? then Some(current.value.sessionCookie) else None;
    var finalXsrfToken := if newXsrfToken.Some? then newXsrfToken else if current.Some? then current.value.xsrfToken else None;
    if finalSessionCookie.None? then None
    else
      var expiresAt :=
        if newSessionCookie.Some? then now + SessionDurationMs
        else if current.Some? then current.value.expiresAt
        else now + SessionDurationMs;
      Some(Session(finalSessionCookie.value, finalXsrfToken, expiresAt))
  }

  /** saveFromResponse at time `now`: the store afterwards. */
  function AfterResponse(st: StoreState, cookies: seq<Cookie>, now: int): (r: StoreState)
    ensures LastValue(cookies, SessionCookieName).None? && LastValue(cookies, XsrfCookieName).None? ==> r == st
  {
    var newSessionCookie := LastValue(cookies, SessionCookieName);
    var newXsrfToken := LastValue(cookies, XsrfCookieName);
    if newSessionCookie.None? && newXsrfToken.None? then st
    else
      var (read, current) := Get(st, now);
      match Merged(newSessionCookie, newXsrfToken, current, now)
      case None => read
      case Some(session) => Saved(read, session)
  }

  /** The cookies rebuilt for a request to `host` from a stored session. */
  function RequestCookies(session: Session, host: string): (r: seq<Cookie>)
    ensures |r| == if session.xsrfToken.Some? then 2 else 1
    ensures r[0] == Cookie(SessionCookieName, session.sessionCookie, host)
    ensures session.xsrfToken.Some? ==> r[1] == Cookie(XsrfCookieName, session.xsrfToken.value, host)
  {
    [Cookie(SessionCookieName, session.sessionCookie, host)] +
    (if session.xsrfToken.Some? then [Cookie(XsrfCookieName, session.xsrfToken.value, host)] else [])
  }

  /** loadForRequest at time `now`: the store after getSession and the cookies to send. */
  function ForRequest(st: StoreState, host: string, now: int): (r: (StoreState, seq<Cookie>))
    ensures r.0 == Get(st, now).0
    ensures Get(st, now).1.None? <==> r.1 == []
  {
    var (read, session) := Get(st, now);
    if session.None? then (read, []) else (read, RequestCookies(session.value, host))
  }

  class SessionCookieJar {
    const sessionRepository: EncryptedSessionRepository

    constructor (repository: EncryptedSessionRepository)
      ensures sessionRepository == repository
    {
      sessionRepository := repository;
    }

    method SaveFromResponse(cookies: seq<Cookie>, now: int)
      modifies sessionRepository
      ensures sessionRepository.State() == AfterResponse(old(sessionRepository.State()), cookies, now)
    {
      var newSessionCookie, newXsrfToken := ScanCookies(cookies);
      if newSessionCookie.Some? || newXsrfToken.Some? {
        var current := sessionRepository.GetSession(now);
        var merged := Merged(newSessionCookie, newXsrfToken, current, now);
        if merged.Some? {
          sessionRepository.SaveSession(merged.value);
        }
      }
    }

    method LoadForRequest(host: string, now: int) returns (cookies: seq<Cookie>)
      modifies sessionRepository
      ensures (sessionRepository.State(), cookies) == ForRequest(old(sessionRepository.State()), host, now)
    {
      var session := sessionRepository.GetSession(now);
      if session.None? {
        return [];
      }
      cookies := RequestCookies(session.value, host);
    }
  }

  /** A response with a new session cookie stores it, restarts the expiry and takes the token from the response or the current session. */
  lemma NewSessionCookieSaved(st: StoreState, cookies: seq<Cookie>, now: int)
    requires LastValue(cookies, SessionCookieName).Some?
    ensures var token := if LastValue(cookies, XsrfCookieName).Some? then LastValue(cookies, XsrfCookieName)
                         else if Get(st, now).1.Some? then Get(st, now).1.value.xsrfToken else None;
      AfterResponse(st, cookies, now) ==
        Saved(Get(st, now).0, Session(LastValue(cookies, SessionCookieName).value, token, now + SessionDurationMs))
  {
  }

  /** A response that only refreshes the XSRF token keeps the current cookie and expiry. */
  lemma TokenOnlyKeepsCookieAndExpiry(st: StoreState, cookies: seq<Cookie>, now: int, current: Session)
    requires LastValue(cookies, SessionCookieName).None? && LastValue(cookies, XsrfCookieName).Some?
    requires Get(st, now).1 == Some(current)
    ensures AfterResponse(st, cookies, now) ==
      Saved(st, Session(current.sessionCookie, LastValue(cookies, XsrfCookieName), current.expiresAt))
  {
  }

  /** A token without any session, stored or new, is not saved. */
  lemma TokenWithoutSessionDropped(st: StoreState, cookies: seq<Cookie>, now: int)
    requires LastValue(cookies, SessionCookieName).None? && LastValue(cookies, XsrfCookieName).Some?
    requires Get(st, now).1.None?
    ensures AfterResponse(st, cookies, now) == Get(st, now).0
  {
  }

  /** The elvis fallback on the expiry never decides: without a new cookie the merged session exists only if a current one does. */
  lemma ExpiryFallbackUnused(newXsrfToken: Option<string>, current: Option<Session>, now: int)
    requires Merged(None, newXsrfToken, current, now).Some?
    ensures current.Some? && Merged(None, newXsrfToken, current, now).value.expiresAt == current.value.expiresAt
  {
  }

  lemma SavedTwice(st: StoreState, s: Session)
    ensures Saved(Saved(st, s), s) == Saved(st, s)
  {
    assert Saved(Saved(st, s), s).prefs == Saved(st, s).prefs;
  }

  /** Receiving the same cookies twice at the same instant stores the same as receiving them once. */
  lemma AfterResponseIdempotent(st: StoreState, cookies: seq<Cookie>, now: int)
    ensures AfterResponse(AfterResponse(st, cookies, now), cookies, now) == AfterResponse(st, cookies, now)
  {
    var newSessionCookie := LastValue(cookies, SessionCookieName);
    var newXsrfToken := LastValue(cookies, XsrfCookieName);
    if newSessionCookie.Some? || newXsrfToken.Some? {
      var (read, current) := Get(st, now);
      var merged := Merged(newSessionCookie, newXsrfToken, current, now);
      if merged.Some? {
        var once := Saved(read, merged.value);
        SaveThenGet(read, merged.value, now);
        assert Get(once, now) == (once, merged);
        assert Merged(newSessionCookie, newXsrfToken, merged, now) == merged;
        SavedTwice(read, merged.value);
      } else {
        assert Get(read, now).1.None?;
      }
    }
  }

  /** The cookies sent for a request carry the stored session: scanning them gives back its cookie and token. */
  lemma RequestCookiesRoundTrip(session: Session, host: string)
    ensures LastValue(RequestCookies(session, host), SessionCookieName) == Some(session.sessionCookie)
    ensures LastValue(RequestCookies(session, host), XsrfCookieName) == session.xsrfToken
  {
    var r := RequestCookies(session, host);
    if session.xsrfToken.Some? {
      assert r[..1] == [r[0]];
    }
  }

  /** Every cookie sent is bound to the request's host and is either the session cookie or the token. */
  lemma RequestCookiesWellFormed(st: StoreState, host: string, now: int)
    ensures forall c :: c in ForRequest(st, host, now).1 ==> c.domain == host && c.name in {SessionCookieName, XsrfCookieName}
  {
  }
}
