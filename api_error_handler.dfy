/**
 * Central handling of HTTP failures: every code becomes an exception value,
 * and a 401 additionally tells the shared event bus which account's session expired.
 */
module ApiErrorHandling {
  import opened Wrappers
  import opened Text
  import opened Accounts

  const SessionExpiredMessage: string := "Sesión expirada. Por favor, vuelve a iniciar sesión."

  /** The default message argument, "Error HTTP: <code>". */
  function DefaultMessage(code: int): (r: string)
    ensures r == "Error HTTP: " + IntToString(code)
  {
    "Error HTTP: " + IntToString(code)
  }

  /** The returned exception: the fixed expiry text for 401, else the given message (or the default). */
  function ErrorFor(code: int, message: Option<string>): (r: Exception)
    ensures r.message.Some?
    ensures code == 401 ==> r.message.value == SessionExpiredMessage
    ensures code != 401 && message.Some? ==> r.message.value == message.value
    ensures code != 401 && message.None? ==> r.message.value == DefaultMessage(code)
  {
    if code == 401 then Raise(SessionExpiredMessage)
    else Raise(message.GetOr(DefaultMessage(code)))
  }

  /** The session-expired events one call emits, given the active account id at the time. */
  function EventsFor(code: int, activeAccountId: Option<string>): (r: seq<string>)
    ensures |r| <= 1
    ensures |r| == 1 <==> code == 401 && activeAccountId.Some?
    ensures |r| == 1 ==> r[0] == activeAccountId.value
  {
    if code == 401 && activeAccountId.Some? then [activeAccountId.value] else []
  }

  /** The shared event bus, reduced to the log of session-expired account ids it has carried. */
  class SharedEventLog {
    var sessionExpired: seq<string>

    constructor ()
      ensures sessionExpired == []
    {
      sessionExpired := [];
    }

    method EmitSessionExpired(accountId: string)
      modifies this
      ensures sessionExpired == old(sessionExpired) + [accountId]
    {
      sessionExpired := sessionExpired + [accountId];
    }
  }

  class ApiErrorHandler {
    const accountRepository: AccountRepositoryImpl
    const sharedEvents: SharedEventLog

    constructor (accounts: AccountRepositoryImpl, events: SharedEventLog)
      ensures accountRepository == accounts && sharedEvents == events
    {
      accountRepository := accounts;
      sharedEvents := events;
    }

    /** `message` is None when the caller relies on the default argument. */
    method HandleHttpError(code: int, message: Option<string>) returns (e: Exception)
      modifies sharedEvents
      ensures e == ErrorFor(code, message)
      ensures sharedEvents.sessionExpired == old(sharedEvents.sessionExpired) + EventsFor(code, accountRepository.GetActiveAccountId())
    {
      if code == 401 {
        var activeAccountId := accountRepository.GetActiveAccountId();
        if activeAccountId.Some? {
          sharedEvents.EmitSessionExpired(activeAccountId.value);
        }
        return Raise(SessionExpiredMessage);
      }
      e := Raise(message.GetOr(DefaultMessage(code)));
    }
  }

  /** Whatever message a 401 caller passes, the result is the fixed expiry text. */
  lemma UnauthorizedIgnoresMessage(m1: Option<string>, m2: Option<string>)
    ensures ErrorFor(401, m1) == ErrorFor(401, m2) == Exception(Some("Sesión expirada. Por favor, vuelve a iniciar sesión."))
  {
  }

  /** Codes other than 401 emit no event, whatever the active account is. */
  lemma OtherCodesEmitNothing(code: int, a1: Option<string>, a2: Option<string>)
    requires code != 401
    ensures EventsFor(code, a1) == EventsFor(code, a2) == []
  {
  }

  /** The default message names the code in decimal. */
  lemma DefaultMessageNamesCode(code: int)
    ensures var m := DefaultMessage(code);
      |m| > 12 && m[..12] == "Error HTTP: " &&
      (code >= 0 ==> AllDigits(m[12..]) && DigitsValue(m[12..]) == code)
  {
    var m := DefaultMessage(code);
    assert m[12..] == IntToString(code);
  }
}
