/** The persisted login session of the takeaspot web backend. */
module Sessions {
  import opened Wrappers

  /** How long a session obtained from stored cookies is trusted: 4 h 50 min, in milliseconds. */
  const SessionDurationMs: int := 17_400_000

  /** A session cookie, the optional XSRF token and the expiry instant in epoch milliseconds. */
  datatype Session = Session(sessionCookie: string, xsrfToken: Option<string>, expiresAt: int) {
    /** A session is valid strictly before its expiry instant; `now` is the wall clock in milliseconds. */
    predicate IsValid(now: int) {
      now < expiresAt
    }
  }

  /** Validity is lost once and for all: a session valid now was valid at every earlier instant. */
  lemma ValidEarlier(s: Session, earlier: int, now: int)
    requires earlier <= now && s.IsValid(now)
    ensures s.IsValid(earlier)
  {
  }

  /** At its expiry instant a session is no longer valid. */
  lemma InvalidAtExpiry(s: Session)
    ensures !s.IsValid(s.expiresAt)
  {
  }

  /** A session made at `now` with the standard duration is valid for exactly that duration. */
  lemma FreshSessionValidity(cookie: string, token: Option<string>, now: int, later: int)
    ensures Session(cookie, token, now + SessionDurationMs).IsValid(later) <==> later < now + SessionDurationMs
  {
  }
}
