/** The use case that tells whether a usable login session is stored. */
module CheckSession {
  import opened Wrappers
  import opened Sessions
  import opened SessionStore

  /** invoke() at time `now`: the store after getSession, and whether the session read is valid. */
  function Check(st: StoreState, now: int): (r: (StoreState, bool))
    ensures r.0 == Get(st, now).0
  {
    var (next, session) := Get(st, now);
    (next, session.Some? && session.value.IsValid(now))
  }

  /**
   * The answer is yes exactly when the session entries are readable, a cookie is
   * stored and the stored expiry lies after `now`.
   */
  lemma CheckIffStoredExpiryAhead(st: StoreState, now: int)
    ensures Check(st, now).1 <==>
      ReadSession(st.prefs).Success? && ReadSession(st.prefs).value.Some? &&
      now < ReadSession(st.prefs).value.value.expiresAt
  {
  }

  /** A yes leaves the store untouched. */
  lemma CheckYesKeepsStore(st: StoreState, now: int)
    requires Check(st, now).1
    ensures Check(st, now).0 == st
  {
  }

  /** Right after a login saved a session with the standard duration, the check says yes. */
  lemma CheckAfterFreshSave(st: StoreState, cookie: string, token: Option<string>, now: int)
    ensures Check(Saved(st, Session(cookie, token, now + SessionDurationMs)), now).1
  {
  }

  class CheckSessionUseCase {
    const sessionRepository: EncryptedSessionRepository

    constructor (repository: EncryptedSessionRepository)
      ensures sessionRepository == repository
    {
      sessionRepository := repository;
    }

    method Invoke(now: int) returns (ok: bool)
      modifies sessionRepository
      ensures (sessionRepository.State(), ok) == Check(old(sessionRepository.State()), now)
    {
      var session := sessionRepository.GetSession(now);
      ok := session.Some? && session.value.IsValid(now);
    }
  }
}
