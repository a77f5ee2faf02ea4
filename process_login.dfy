/**
 * The login capture: the cookie string the login web view hands over becomes
 * the current session and a new saved account.
 */
module ProcessLogin {
  import opened Wrappers
  import opened Sessions
  import opened SessionStore
  import opened CookieString
  import opened CookieJar
  import opened Accounts

  const DefaultAccountName: string := "Nueva Cuenta UCAM"

  /** The account recorded for a fresh login: no id yet, no e-mail, the raw cookie string, both timestamps `now`. */
  function NewAccount(cookieString: string, userName: string, now: int): (r: UserAccount)
    ensures r.id == "" && r.email == "" && r.sessionExpiresAt == 0
    ensures r.alias == userName && r.cookieString == cookieString
    ensures r.createdAt == now && r.lastUsedAt == now
  {
    UserAccount("", userName, "", cookieString, now, now, 0)
  }

  /** The alias: what the page's name extractor finds, else the default name; no page means the default. */
  function UserName(htmlContent: Option<string>, extractUserName: string -> Option<string>): (r: string)
    ensures htmlContent.None? ==> r == DefaultAccountName
    ensures htmlContent.Some? && extractUserName(htmlContent.value).Some? ==> r == extractUserName(htmlContent.value).value
    ensures htmlContent.Some? && extractUserName(htmlContent.value).None? ==> r == DefaultAccountName
  {
    match htmlContent
    case None => DefaultAccountName
    case Some(html) => extractUserName(html).GetOr(DefaultAccountName)
  }

  /**
   * The whole login: without a session cookie nothing happens and the answer
   * is false; with one the session is saved first, then the account is added
   * (a refused add is swallowed) and the answer is true.
   */
  function Login(docs: seq<Document>, st: StoreState, cookieString: string, htmlContent: Option<string>,
                 extractUserName: string -> Option<string>, newId: string, now: int): (r: (seq<Document>, StoreState, bool))
    ensures r.2 <==> SessionCookieName in ParseCookieString(cookieString)
    ensures !r.2 ==> r.0 == docs && r.1 == st
  {
    var cookieMap := ParseCookieString(cookieString);
    if SessionCookieName !in cookieMap then (docs, st, false)
    else
      var xsrfToken := if XsrfCookieName in cookieMap then Some(cookieMap[XsrfCookieName]) else None;
      var saved := Saved(st, Session(cookieMap[SessionCookieName], xsrfToken, now + SessionDurationMs));
      var account := NewAccount(cookieString, UserName(htmlContent, extractUserName), now);
      var (after, next, _) := Added(docs, saved, account, newId, now);
      (after, next, true)
  }

  class ProcessLoginUseCase {
    const sessionRepository: EncryptedSessionRepository
    const accountRepository: AccountRepositoryImpl

    constructor (sessions: EncryptedSessionRepository, accounts: AccountRepositoryImpl)
      requires accounts.sessionRepository == sessions
      ensures sessionRepository == sessions && accountRepository == accounts
    {
      sessionRepository := sessions;
      accountRepository := accounts;
    }

    /** `newId` is the fresh document id the account store hands out for the new account. */
    method Invoke(cookieString: string, htmlContent: Option<string>, extractUserName: string -> Option<string>,
                  newId: string, now: int) returns (ok: bool)
      requires accountRepository.sessionRepository == sessionRepository
      requires newId !in Ids(accountRepository.documents)
      modifies sessionRepository, accountRepository
      ensures (accountRepository.documents, sessionRepository.State(), ok)
        == Login(old(accountRepository.documents), old(sessionRepository.State()), cookieString, htmlContent, extractUserName, newId, now)
    {
      var cookieMap := ParseCookieString(cookieString);
      if SessionCookieName !in cookieMap {
        return false;
      }
      var xsrfToken := if XsrfCookieName in cookieMap then Some(cookieMap[XsrfCookieName]) else None;
      sessionRepository.SaveSession(Session(cookieMap[SessionCookieName], xsrfToken, now + SessionDurationMs));
      var userName := UserName(htmlContent, extractUserName);
      var added := accountRepository.AddAccount(NewAccount(cookieString, userName, now), newId, now);
      ok := true;
    }
  }

  /** Without `takeaspot_session` the login is refused and neither store changes. */
  lemma LoginWithoutSessionCookie(docs: seq<Document>, st: StoreState, cookieString: string, htmlContent: Option<string>,
                                  extractUserName: string -> Option<string>, newId: string, now: int)
    requires SessionCookieName !in ParseCookieString(cookieString)
    ensures Login(docs, st, cookieString, htmlContent, extractUserName, newId, now) == (docs, st, false)
  {
  }

  /** The session a login saves is the one the account store re-derives from the same cookie string at the same instant. */
  lemma LoginSessionIsReloadSession(cookieString: string, now: int)
    requires SessionCookieName in ParseCookieString(cookieString)
    ensures var cookieMap := ParseCookieString(cookieString);
      SessionFromCookieString(cookieString, now)
        == Some(Session(cookieMap[SessionCookieName], if XsrfCookieName in cookieMap then Some(cookieMap[XsrfCookieName]) else None, now + SessionDurationMs))
  {
    if cookieString == "" {
      EmptyCookieStringParsesEmpty();
    }
  }

  /**
   * At the account cap the login still answers true: the session is saved and
   * the account list is unchanged.
   */
  lemma LoginAtCapKeepsSession(docs: seq<Document>, st: StoreState, cookieString: string, htmlContent: Option<string>,
                               extractUserName: string -> Option<string>, newId: string, now: int)
    requires SessionCookieName in ParseCookieString(cookieString)
    requires |docs| >= MaxAccounts
    ensures var (after, next, ok) := Login(docs, st, cookieString, htmlContent, extractUserName, newId, now);
      ok && after == docs && next.activeAccountId == st.activeAccountId &&
      ReadSession(next.prefs) == Success(SessionFromCookieString(cookieString, now))
  {
    LoginSessionIsReloadSession(cookieString, now);
    var s := SessionFromCookieString(cookieString, now).value;
    SaveThenGet(st, s, now);
  }

  /**
   * Below the cap the login appends the new account (alias, raw cookie string,
   * both timestamps `now`), activates it and leaves its session stored.
   */
  lemma LoginBelowCapAddsAccount(docs: seq<Document>, st: StoreState, cookieString: string, htmlContent: Option<string>,
                                 extractUserName: string -> Option<string>, newId: string, now: int)
    requires SessionCookieName in ParseCookieString(cookieString)
    requires |docs| < MaxAccounts && newId !in Ids(docs)
    ensures var (after, next, ok) := Login(docs, st, cookieString, htmlContent, extractUserName, newId, now);
      ok &&
      AccountsView(after) == AccountsView(docs) + [UserAccount(newId, UserName(htmlContent, extractUserName), "", cookieString, now, now, 0)] &&
      next.activeAccountId == Some(newId) &&
      ReadSession(next.prefs) == Success(SessionFromCookieString(cookieString, now))
  {
    LoginSessionIsReloadSession(cookieString, now);
    var s := SessionFromCookieString(cookieString, now).value;
    var account := NewAccount(cookieString, UserName(htmlContent, extractUserName), now);
    AddBelowCap(docs, Saved(st, s), account, newId, now);
  }
}
