/**
 * The encrypted on-device session store: a preferences file holding the
 * session cookie ("cookie"), the XSRF token ("xsrf"), the expiry ("expires")
 * and the id of the active account ("active_account_id"), plus the observable
 * active account id that the store publishes.
 */
module SessionStore {
  import opened Wrappers
  import opened Sessions

  const CookieKey: string := "cookie"
  const XsrfKey: string := "xsrf"
  const ExpiresKey: string := "expires"
  const ActiveAccountKey: string := "active_account_id"

  /**
   * One stored preference. `Unreadable` is an entry whose decryption fails:
   * reading it throws.
   */
  datatype PrefValue = StrPref(s: string) | LongPref(n: int) | Unreadable

  type Prefs = map<string, PrefValue>

  /** The whole store: the preferences file and the published active account id. */
  datatype StoreState = StoreState(prefs: Prefs, activeAccountId: Option<string>)

  /**
   * getString(key, null): the stored string; null when the key is absent or
   * holds a value of another type; an exception when it cannot be decrypted.
   */
  function GetString(p: Prefs, key: string): (r: Result<Option<string>>)
    ensures r.Failure? <==> key in p && p[key].Unreadable?
    ensures r.Success? && r.value.Some? <==> key in p && p[key].StrPref?
    ensures r.Success? && r.value.Some? ==> p[key] == StrPref(r.value.value)
  {
    if key !in p then Success(None)
    else match p[key]
      case StrPref(s) => Success(Some(s))
      case LongPref(_) => Success(None)
      case Unreadable => Failure(Exception(Some("decryption failed")))
  }

  /** getLong(key, 0): the stored number, 0 when absent or of another type, an exception when unreadable. */
  function GetLong(p: Prefs, key: string): (r: Result<int>)
    ensures r.Failure? <==> key in p && p[key].Unreadable?
    ensures r.Success? && key in p && p[key].LongPref? ==> r.value == p[key].n
    ensures r.Success? && !(key in p && p[key].LongPref?) ==> r.value == 0
  {
    if key !in p then Success(0)
    else match p[key]
      case LongPref(n) => Success(n)
      case StrPref(_) => Success(0)
      case Unreadable => Failure(Exception(Some("decryption failed")))
  }

  /** putString(key, value) with a nullable value: null removes the entry. */
  function PutString(p: Prefs, key: string, value: Option<string>): (r: Prefs)
    ensures value.Some? ==> key in r && r[key] == StrPref(value.value)
    ensures value.None? ==> key !in r
    ensures forall k :: k in p && k != key ==> k in r && r[k] == p[k]
    ensures forall k :: k in r && k != key ==> k in p
  {
    match value
    case Some(v) => p[key := StrPref(v)]
    case None => p - {key}
  }

  /** The active account id the store starts with: what the file holds, null if nothing readable. */
  function InitialState(p: Prefs): (r: StoreState)
    requires GetString(p, ActiveAccountKey).Success?
    ensures r.prefs == p
    ensures r.activeAccountId.Some? <==> ActiveAccountKey in p && p[ActiveAccountKey].StrPref?
  {
    StoreState(p, GetString(p, ActiveAccountKey).value)
  }

  /** saveSession: the three session entries are written, everything else is kept. */
  function Saved(st: StoreState, s: Session): (r: StoreState)
    ensures r.activeAccountId == st.activeAccountId
    ensures GetString(r.prefs, CookieKey) == Success(Some(s.sessionCookie))
    ensures GetString(r.prefs, XsrfKey) == Success(s.xsrfToken)
    ensures GetLong(r.prefs, ExpiresKey) == Success(s.expiresAt)
    ensures forall k :: k !in {CookieKey, XsrfKey, ExpiresKey} ==> (k in r.prefs <==> k in st.prefs)
    ensures forall k :: k !in {CookieKey, XsrfKey, ExpiresKey} && k in st.prefs ==> r.prefs[k] == st.prefs[k]
  {
    var p := PutString(st.prefs, CookieKey, Some(s.sessionCookie));
    var p := PutString(p, XsrfKey, s.xsrfToken);
    StoreState(p[ExpiresKey := LongPref(s.expiresAt)], st.activeAccountId)
  }

  /** clearSession: the whole file is emptied and the active account id becomes null. */
  function Cleared(st: StoreState): (r: StoreState)
    ensures r.prefs == map[] && r.activeAccountId == None
  {
    StoreState(map[], None)
  }

  /** setActiveAccountId: the id is written and published. */
  function SetActive(st: StoreState, id: string): (r: StoreState)
    ensures r.activeAccountId == Some(id)
    ensures GetString(r.prefs, ActiveAccountKey) == Success(Some(id))
    ensures forall k :: k != ActiveAccountKey ==> (k in r.prefs <==> k in st.prefs)
    ensures forall k :: k != ActiveAccountKey && k in st.prefs ==> r.prefs[k] == st.prefs[k]
  {
    StoreState(PutString(st.prefs, ActiveAccountKey, Some(id)), Some(id))
  }

  /** clearActiveAccountId: only the id entry is removed; the session entries stay. */
  function ClearActive(st: StoreState): (r: StoreState)
    ensures r.activeAccountId == None
    ensures ActiveAccountKey !in r.prefs
    ensures forall k :: k != ActiveAccountKey ==> (k in r.prefs <==> k in st.prefs)
    ensures forall k :: k != ActiveAccountKey && k in st.prefs ==> r.prefs[k] == st.prefs[k]
  {
    StoreState(st.prefs - {ActiveAccountKey}, None)
  }

  /** The session read of getSession, before the expiry rule: a failure stands for a thrown exception. */
  function ReadSession(p: Prefs): (r: Result<Option<Session>>)
    ensures r.Success? && r.value.Some? ==>
      GetString(p, CookieKey) == Success(Some(r.value.value.sessionCookie)) &&
      GetString(p, XsrfKey) == Success(r.value.value.xsrfToken) &&
      GetLong(p, ExpiresKey) == Success(r.value.value.expiresAt)
    ensures r.Success? && r.value.None? <==> GetString(p, CookieKey) == Success(None)
  {
    match GetString(p, CookieKey)
    case Failure(e) => Failure(e)
    case Success(None) => Success(None)
    case Success(Some(cookie)) =>
      match GetString(p, XsrfKey)
      case Failure(e) => Failure(e)
      case Success(xsrf) =>
        match GetLong(p, ExpiresKey)
        case Failure(e) => Failure(e)
        case Success(expires) => Success(Some(Session(cookie, xsrf, expires)))
  }

  /** A stored expiry that getSession treats as past: positive and before `now`. */
  predicate Expired(expires: int, now: int) {
    expires > 0 && expires < now
  }

  /**
   * getSession at wall-clock time `now`: the new store and the session returned.
   * An unreadable entry or an expired session clears the store.
   */
  function Get(st: StoreState, now: int): (r: (StoreState, Option<Session>))
    ensures r.1.Some? ==> r.0 == st && ReadSession(st.prefs) == Success(r.1) && !Expired(r.1.value.expiresAt, now)
    ensures r.1.None? ==> r.0 == st || r.0 == Cleared(st)
    ensures r.0 == st || r.0 == Cleared(st)
  {
    match ReadSession(st.prefs)
    case Failure(_) => (Cleared(st), None)
    case Success(None) => (st, None)
    case Success(Some(s)) =>
      if Expired(s.expiresAt, now) then (Cleared(st), None) else (st, Some(s))
  }

  /**
   * The store's own object: its mutable preferences file and the published id.
   * Each method is specified by the value function of the same operation.
   */
  class EncryptedSessionRepository {
    var prefs: Prefs
    var activeAccountId: Option<string>

    function State(): StoreState
      reads this
    {
      StoreState(prefs, activeAccountId)
    }

    /** Opens the preferences file `stored`; its active account entry must be readable. */
    constructor (stored: Prefs)
      requires GetString(stored, ActiveAccountKey).Success?
      ensures State() == InitialState(stored)
    {
      prefs := stored;
      activeAccountId := GetString(stored, ActiveAccountKey).value;
    }

    method SaveSession(s: Session)
      modifies this
      ensures State() == Saved(old(State()), s)
    {
      var next := Saved(State(), s);
      prefs := next.prefs;
    }

    method GetSession(now: int) returns (r: Option<Session>)
      modifies this
      ensures (State(), r) == Get(old(State()), now)
    {
      var read := ReadSession(prefs);
      if read.Failure? {
        ClearSession();
        return None;
      }
      if read.value.None? {
        return None;
      }
      var s := read.value.value;
      if s.expiresAt > 0 && s.expiresAt < now {
        ClearSession();
        return None;
      }
      r := Some(s);
    }

    method ClearSession()
      modifies this
      ensures State() == Cleared(old(State()))
    {
      prefs := map[];
      activeAccountId := None;
    }

    method SetActiveAccountId(id: string)
      modifies this
      ensures State() == SetActive(old(State()), id)
    {
      prefs := prefs[ActiveAccountKey := StrPref(id)];
      activeAccountId := Some(id);
    }

    /** The current value of the published active account id. */
    function GetActiveAccountId(): Option<string>
      reads this
    {
      activeAccountId
    }

    method ClearActiveAccountId()
      modifies this
      ensures State() == ClearActive(old(State()))
    {
      prefs := prefs - {ActiveAccountKey};
      activeAccountId := None;
    }
  }

  /** A saved session that has not expired is read back unchanged, and the read changes nothing. */
  lemma SaveThenGet(st: StoreState, s: Session, now: int)
    requires !Expired(s.expiresAt, now)
    ensures Get(Saved(st, s), now) == (Saved(st, s), Some(s))
  {
  }

  /** A saved session whose expiry is positive and past is dropped together with everything else. */
  lemma SaveThenGetExpired(st: StoreState, s: Session, now: int)
    requires Expired(s.expiresAt, now)
    ensures Get(Saved(st, s), now) == (StoreState(map[], None), None)
  {
  }

  /**
   * The two blind spots of the expiry rule: a session whose expiry equals `now`,
   * or whose expiry is not positive, is still returned although it is not valid.
   */
  lemma ReturnedButInvalid(st: StoreState, s: Session, now: int)
    requires s.expiresAt == now || (s.expiresAt <= 0 && now >= 0)
    ensures Get(Saved(st, s), now).1 == Some(s)
    ensures !s.IsValid(now)
  {
  }

  /** Without a session cookie nothing is returned and nothing is touched, even if other entries are corrupt. */
  lemma NoCookieNoSession(st: StoreState, now: int)
    requires CookieKey !in st.prefs || st.prefs[CookieKey].LongPref?
    ensures Get(st, now) == (st, None)
  {
  }

  /** An unreadable "cookie" entry, or any unreadable session entry behind a stored cookie, wipes the store. */
  lemma CorruptEntryClears(st: StoreState, now: int)
    requires CookieKey in st.prefs && !st.prefs[CookieKey].LongPref?
    requires exists k :: k in {CookieKey, XsrfKey, ExpiresKey} && k in st.prefs && st.prefs[k].Unreadable?
    ensures Get(st, now) == (Cleared(st), None)
  {
  }

  /** Once getSession has cleared the store, every later read finds nothing and keeps it empty. */
  lemma ClearedStaysEmpty(st: StoreState, now: int, later: int)
    requires Get(st, now).1.None? && Get(st, now).0 != st
    ensures Get(Get(st, now).0, later) == (Get(st, now).0, None)
  {
  }

  /** Clearing the active account id keeps the session readable as it was. */
  lemma ClearActiveKeepsSession(st: StoreState, now: int)
    ensures ReadSession(ClearActive(st).prefs) == ReadSession(st.prefs)
    ensures Get(ClearActive(st), now).1 == Get(st, now).1
  {
  }

  /** Setting the active account id keeps the session readable as it was, and publishes the id. */
  lemma SetActiveKeepsSession(st: StoreState, id: string, now: int)
    ensures ReadSession(SetActive(st, id).prefs) == ReadSession(st.prefs)
    ensures Get(SetActive(st, id), now).1 == Get(st, now).1
    ensures SetActive(st, id).activeAccountId == Some(id)
  {
  }

  /** A saved session reads back as itself, before the expiry rule. */
  lemma SavedReadsBack(st: StoreState, s: Session)
    ensures ReadSession(Saved(st, s).prefs) == Success(Some(s))
  {
  }

  /** Saving a session keeps the active account id and its stored entry. */
  lemma SaveKeepsActive(st: StoreState, s: Session)
    ensures Saved(st, s).activeAccountId == st.activeAccountId
    ensures GetString(Saved(st, s).prefs, ActiveAccountKey) == GetString(st.prefs, ActiveAccountKey)
  {
  }
}
