/**
 * The multi-account store: the signed-in user's saved university accounts (a
 * document collection, modelled in memory in insertion order) together with
 * the session store whose active account and session they drive.
 */
module Accounts {
  import opened Wrappers
  import opened Sessions
  import opened SessionStore
  import opened CookieString
  import opened CookieJar
  import Text

  const MaxAccounts: nat := 4
  const MaxAccountsMessage: string := "Máximo de 4 cuentas alcanzado"

  /** A saved university account; timestamps are epoch milliseconds. */
  datatype UserAccount = UserAccount(
    id: string,
    alias: string,
    email: string,
    cookieString: string,
    createdAt: int,
    lastUsedAt: int,
    sessionExpiresAt: int)

  /** A stored document: its id and the account fields written to it. */
  datatype Document = Document(id: string, data: UserAccount)

  function Ids(docs: seq<Document>): (r: seq<string>)
    ensures |r| == |docs| && forall i :: 0 <= i < |docs| ==> r[i] == docs[i].id
  {
    seq(|docs|, i requires 0 <= i < |docs| => docs[i].id)
  }

  /** Document ids are unique in a collection. */
  predicate DistinctIds(docs: seq<Document>) {
    forall i, j :: 0 <= i < j < |docs| ==> docs[i].id != docs[j].id
  }

  /** document(id).get(): the fields of the document with that id, if there is one. */
  function Find(docs: seq<Document>, id: string): (r: Option<UserAccount>)
    ensures r.None? <==> id !in Ids(docs)
    ensures r.Some? ==> exists i :: 0 <= i < |docs| && docs[i] == Document(id, r.value)
  {
    if |docs| == 0 then None
    else if docs[0].id == id then Some(docs[0].data)
    else
      var r := Find(docs[1..], id);
      assert Ids(docs) == [docs[0].id] + Ids(docs[1..]);
      if r.Some? then
        assert exists i :: 0 <= i < |docs| - 1 && docs[1..][i] == Document(id, r.value);
        r
      else r
  }

  /** document(id).set(data): the document with that id is overwritten, or created at the end when missing. */
  function Upsert(docs: seq<Document>, id: string, data: UserAccount): (r: seq<Document>)
    ensures id in Ids(docs) ==> |r| == |docs|
    ensures id !in Ids(docs) ==> r == docs + [Document(id, data)]
    ensures id in Ids(docs) ==> forall i :: 0 <= i < |docs| ==> r[i] == if docs[i].id == id then Document(id, data) else docs[i]
  {
    if id in Ids(docs) then seq(|docs|, i requires 0 <= i < |docs| => if docs[i].id == id then Document(id, data) else docs[i])
    else docs + [Document(id, data)]
  }

  /** document(id).delete(): the collection without that document, the rest in order. */
  function Delete(docs: seq<Document>, id: string): (r: seq<Document>)
    ensures forall k :: 0 <= k < |r| ==> r[k].id != id
    ensures forall d :: d in r <==> d in docs && d.id != id
  {
    if |docs| == 0 then []
    else
      var rest := Delete(docs[1..], id);
      var head := if docs[0].id == id then [] else [docs[0]];
      assert docs == [docs[0]] + docs[1..];
      head + rest
  }

  /** After deleting, no document has that id. */
  lemma DeleteIds(docs: seq<Document>, id: string)
    ensures id !in Ids(Delete(docs, id))
  {
    var r := Delete(docs, id);
    assert forall k :: 0 <= k < |r| ==> Ids(r)[k] != id;
  }

  /** getUserAccounts: each document's fields with `id` set to the document id, in collection order. */
  function AccountsView(docs: seq<Document>): (r: seq<UserAccount>)
    ensures |r| == |docs|
    ensures forall i :: 0 <= i < |docs| ==> r[i] == docs[i].data.(id := docs[i].id)
  {
    seq(|docs|, i requires 0 <= i < |docs| => docs[i].data.(id := docs[i].id))
  }

  /**
   * The session a stored cookie string yields at `now`: its session cookie and
   * token with a fresh expiry window; none for an empty string or one without a session cookie.
   */
  function SessionFromCookieString(cookieString: string, now: int): (r: Option<Session>)
    ensures r.Some? <==> cookieString != "" && SessionCookieName in ParseCookieString(cookieString)
    ensures r.Some? ==> r.value.sessionCookie == ParseCookieString(cookieString)[SessionCookieName]
    ensures r.Some? ==> r.value.expiresAt == now + SessionDurationMs
    ensures r.Some? ==> (r.value.xsrfToken.Some? <==> XsrfCookieName in ParseCookieString(cookieString))
    ensures r.Some? && r.value.xsrfToken.Some? ==> r.value.xsrfToken.value == ParseCookieString(cookieString)[XsrfCookieName]
  {
    if cookieString == "" then None
    else
      var cookieMap := ParseCookieString(cookieString);
      if SessionCookieName !in cookieMap then None
      else
        var xsrfToken := if XsrfCookieName in cookieMap then Some(cookieMap[XsrfCookieName]) else None;
        Some(Session(cookieMap[SessionCookieName], xsrfToken, now + SessionDurationMs))
  }

  /** loadAccountSession: the account's stored cookies become the current session, when they hold one. */
  function LoadedSession(docs: seq<Document>, st: StoreState, id: string, now: int): (r: StoreState)
    ensures Find(docs, id).None? ==> r == st
    ensures Find(docs, id).Some? ==> r == match SessionFromCookieString(Find(docs, id).value.cookieString, now)
      case None => st
      case Some(s) => Saved(st, s)
  {
    match Find(docs, id)
    case None => st
    case Some(account) =>
      match SessionFromCookieString(account.cookieString, now)
      case None => st
      case Some(session) => Saved(st, session)
  }

  /** setActiveAccount: stamp the account's last use, publish its id (even if missing) and load its session. */
  function Activated(docs: seq<Document>, st: StoreState, id: string, now: int): (r: (seq<Document>, StoreState))
    ensures r.1.activeAccountId == Some(id)
  {
    var stamped := match Find(docs, id)
      case None => docs
      case Some(account) => Upsert(docs, id, account.(id := id, lastUsedAt := now));
    (stamped, LoadedSession(stamped, SetActive(st, id), id, now))
  }

  /**
   * addAccount: refused at the cap; otherwise the account is stored under the
   * new document id and activated.
   */
  function Added(docs: seq<Document>, st: StoreState, account: UserAccount, newId: string, now: int): (r: (seq<Document>, StoreState, Result<()>))
    ensures |docs| >= MaxAccounts ==> r == (docs, st, Failure(Raise(MaxAccountsMessage)))
    ensures |docs| < MaxAccounts ==> r.2.Success?
  {
    if |docs| >= MaxAccounts then (docs, st, Failure(Raise(MaxAccountsMessage)))
    else
      var (stamped, next) := Activated(docs + [Document(newId, account)], st, newId, now);
      (stamped, next, Success(()))
  }

  /** removeAccount: the document goes; if it was the active account, the session and the active id go too. */
  function Removed(docs: seq<Document>, st: StoreState, id: string): (r: (seq<Document>, StoreState))
    ensures r.0 == Delete(docs, id)
    ensures st.activeAccountId == Some(id) ==> r.1 == StoreState(map[], None)
    ensures st.activeAccountId != Some(id) ==> r.1 == st
  {
    var next := if st.activeAccountId == Some(id) then ClearActive(Cleared(st)) else st;
    (Delete(docs, id), next)
  }

  class AccountRepositoryImpl {
    var documents: seq<Document>
    const sessionRepository: EncryptedSessionRepository

    constructor (initial: seq<Document>, repository: EncryptedSessionRepository)
      ensures documents == initial && sessionRepository == repository
    {
      documents := initial;
      sessionRepository := repository;
    }

    function GetUserAccounts(): seq<UserAccount>
      reads this
    {
      AccountsView(documents)
    }

    function GetActiveAccountId(): Option<string>
      reads this, sessionRepository
    {
      sessionRepository.GetActiveAccountId()
    }

    /** `newId` is the fresh id the document store assigns to the new document. */
    method AddAccount(account: UserAccount, newId: string, now: int) returns (r: Result<()>)
      requires newId !in Ids(documents)
      modifies this, sessionRepository
      ensures (documents, sessionRepository.State(), r) == Added(old(documents), old(sessionRepository.State()), account, newId, now)
    {
      if |documents| >= MaxAccounts {
        return Failure(Raise(MaxAccountsMessage));
      }
      documents := documents + [Document(newId, account)];
      SetActiveAccount(newId, now);
      r := Success(());
    }

    method RemoveAccount(id: string)
      modifies this, sessionRepository
      ensures (documents, sessionRepository.State()) == Removed(old(documents), old(sessionRepository.State()), id)
    {
      var activeAccountId := sessionRepository.GetActiveAccountId();
      documents := Delete(documents, id);
      if activeAccountId == Some(id) {
        sessionRepository.ClearSession();
        sessionRepository.ClearActiveAccountId();
      }
    }

    method UpdateAccount(account: UserAccount)
      modifies this
      ensures documents == Upsert(old(documents), account.id, account)
    {
      documents := Upsert(documents, account.id, account);
    }

    method SetActiveAccount(id: string, now: int)
      modifies this, sessionRepository
      ensures (documents, sessionRepository.State()) == Activated(old(documents), old(sessionRepository.State()), id, now)
    {
      var found := Find(documents, id);
      if found.Some? {
        documents := Upsert(documents, id, found.value.(id := id, lastUsedAt := now));
      }
      sessionRepository.SetActiveAccountId(id);
      LoadAccountSession(id, now);
    }

    method LoadAccountSession(id: string, now: int)
      modifies sessionRepository
      ensures sessionRepository.State() == LoadedSession(documents, old(sessionRepository.State()), id, now)
    {
      var account := Find(documents, id);
      if account.Some? {
        var cookieString := account.value.cookieString;
        if cookieString != "" {
          var cookieMap := ParseCookieString(cookieString);
          if SessionCookieName in cookieMap {
            var xsrfToken := if XsrfCookieName in cookieMap then Some(cookieMap[XsrfCookieName]) else None;
            sessionRepository.SaveSession(Session(cookieMap[SessionCookieName], xsrfToken, now + SessionDurationMs));
          }
        }
      }
    }
  }

  /** At the cap nothing is stored, the store is untouched and the cap message is raised. */
  lemma AddAtCapRefused(docs: seq<Document>, st: StoreState, account: UserAccount, newId: string, now: int)
    requires |docs| >= MaxAccounts
    ensures Added(docs, st, account, newId, now).0 == docs
    ensures Added(docs, st, account, newId, now).1 == st
    ensures Added(docs, st, account, newId, now).2 == Failure(Exception(Some("Máximo de 4 cuentas alcanzado")))
  {
  }

  /**
   * Below the cap the account is appended (with its id and a fresh last use),
   * becomes the active account, and its cookie string's session, if any, is the stored session.
   */
  lemma {:induction false} AddBelowCap(docs: seq<Document>, st: StoreState, account: UserAccount, newId: string, now: int)
    requires |docs| < MaxAccounts && newId !in Ids(docs)
    ensures var (after, next, _) := Added(docs, st, account, newId, now);
      AccountsView(after) == AccountsView(docs) + [account.(id := newId, lastUsedAt := now)] &&
      next.activeAccountId == Some(newId) &&
      GetString(next.prefs, ActiveAccountKey) == Success(Some(newId)) &&
      (SessionFromCookieString(account.cookieString, now).Some? ==>
        ReadSession(next.prefs) == Success(SessionFromCookieString(account.cookieString, now)))
  {
    var stampedAccount := account.(id := newId, lastUsedAt := now);
    var appended := docs + [Document(newId, account)];
    FindLast(docs, newId, account);
    UpsertAppended(docs, newId, account, stampedAccount);
    var stamped := docs + [Document(newId, stampedAccount)];
    assert Activated(appended, st, newId, now).0 == stamped;
    AccountsViewAppend(docs, Document(newId, stampedAccount));
    FindLast(docs, newId, stampedAccount);
    var active := SetActive(st, newId);
    var session := SessionFromCookieString(account.cookieString, now);
    if session.Some? {
      assert Added(docs, st, account, newId, now).1 == Saved(active, session.value);
      SaveKeepsActive(active, session.value);
      SavedReadsBack(active, session.value);
    }
  }

  /** Overwriting the document just appended replaces its fields and nothing else. */
  lemma UpsertAppended(docs: seq<Document>, id: string, data: UserAccount, newData: UserAccount)
    requires id !in Ids(docs)
    ensures Upsert(docs + [Document(id, data)], id, newData) == docs + [Document(id, newData)]
  {
    var appended := docs + [Document(id, data)];
    assert Ids(appended) == Ids(docs) + [id];
    var r := Upsert(appended, id, newData);
    forall k | 0 <= k < |docs|
      ensures r[k] == docs[k]
    {
      assert appended[k] == docs[k];
      assert Ids(docs)[k] == docs[k].id;
    }
  }

  lemma AccountsViewAppend(docs: seq<Document>, d: Document)
    ensures AccountsView(docs + [d]) == AccountsView(docs) + [d.data.(id := d.id)]
  {
    var all := docs + [d];
    assert forall k :: 0 <= k < |docs| ==> all[k] == docs[k];
  }

  lemma {:induction false} FindLast(docs: seq<Document>, id: string, data: UserAccount)
    requires id !in Ids(docs)
    ensures Find(docs + [Document(id, data)], id) == Some(data)
  {
    if |docs| > 0 {
      assert (docs + [Document(id, data)])[1..] == docs[1..] + [Document(id, data)];
      assert Ids(docs) == [docs[0].id] + Ids(docs[1..]);
      FindLast(docs[1..], id, data);
    }
  }

  /** Adding keeps the collection within the cap and its ids distinct. */
  lemma AddKeepsInvariant(docs: seq<Document>, st: StoreState, account: UserAccount, newId: string, now: int)
    requires |docs| <= MaxAccounts && DistinctIds(docs) && newId !in Ids(docs)
    ensures |Added(docs, st, account, newId, now).0| <= MaxAccounts
    ensures DistinctIds(Added(docs, st, account, newId, now).0)
  {
    if |docs| < MaxAccounts {
      AddedDocuments(docs, st, account, newId, now);
      DistinctAppend(docs, Document(newId, account.(id := newId, lastUsedAt := now)));
    }
  }

  /** Below the cap the collection grows by the new document, already stamped. */
  lemma AddedDocuments(docs: seq<Document>, st: StoreState, account: UserAccount, newId: string, now: int)
    requires |docs| < MaxAccounts && newId !in Ids(docs)
    ensures Added(docs, st, account, newId, now).0 == docs + [Document(newId, account.(id := newId, lastUsedAt := now))]
  {
    FindLast(docs, newId, account);
    UpsertAppended(docs, newId, account, account.(id := newId, lastUsedAt := now));
  }

  lemma DistinctAppend(docs: seq<Document>, d: Document)
    requires DistinctIds(docs) && d.id !in Ids(docs)
    ensures DistinctIds(docs + [d])
  {
    var after := docs + [d];
    forall i, j | 0 <= i < j < |after|
      ensures after[i].id != after[j].id
    {
      if j == |docs| {
        assert Ids(docs)[i] == docs[i].id;
      }
    }
  }

  /** Removing the active account wipes the session; removing another one touches neither session nor active id. */
  lemma RemoveCascade(docs: seq<Document>, st: StoreState, id: string, now: int)
    ensures id !in Ids(Removed(docs, st, id).0)
    ensures forall d :: d in docs && d.id != id ==> d in Removed(docs, st, id).0
    ensures st.activeAccountId == Some(id) ==>
      Removed(docs, st, id).1.activeAccountId == None && Get(Removed(docs, st, id).1, now).1 == None
    ensures st.activeAccountId != Some(id) ==> Removed(docs, st, id).1 == st
  {
    DeleteIds(docs, id);
  }

  /** How many documents of `docs` Delete keeps. */
  function Kept(docs: seq<Document>, id: string): nat {
    if |docs| == 0 then 0 else (if docs[0].id == id then 0 else 1) + Kept(docs[1..], id)
  }

  lemma {:induction false} KeptAppend(a: seq<Document>, b: seq<Document>, id: string)
    ensures Kept(a + b, id) == Kept(a, id) + Kept(b, id)
  {
    if |a| > 0 {
      assert (a + b)[0] == a[0];
      assert (a + b)[1..] == a[1..] + b;
      KeptAppend(a[1..], b, id);
    } else {
      assert a + b == b;
    }
  }

  /** A kept document lands at the position given by the documents kept before it. */
  lemma {:induction false} DeleteAt(docs: seq<Document>, id: string, i: nat)
    requires i < |docs| && docs[i].id != id
    ensures Kept(docs[..i], id) < |Delete(docs, id)| && Delete(docs, id)[Kept(docs[..i], id)] == docs[i]
  {
    var rest := Delete(docs[1..], id);
    var head := if docs[0].id == id then [] else [docs[0]];
    DeleteCons(docs, id);
    if i == 0 {
      assert docs[..0] == [];
    } else {
      DeleteAt(docs[1..], id, i - 1);
      KeptCons(docs, id, i);
      ShiftIndex(head, rest, Kept(docs[1..][..i - 1], id), docs[i]);
    }
  }

  lemma ShiftIndex(head: seq<Document>, rest: seq<Document>, k: nat, d: Document)
    requires k < |rest| && rest[k] == d
    ensures |head| + k < |head + rest| && (head + rest)[|head| + k] == d
  {
  }

  lemma DeleteCons(docs: seq<Document>, id: string)
    requires |docs| > 0
    ensures Delete(docs, id) == (if docs[0].id == id then [] else [docs[0]]) + Delete(docs[1..], id)
  {
  }

  lemma KeptCons(docs: seq<Document>, id: string, i: nat)
    requires 0 < i <= |docs|
    ensures Kept(docs[..i], id) == (if docs[0].id == id then 0 else 1) + Kept(docs[1..][..i - 1], id)
  {
    var prefix := docs[..i];
    assert prefix[0] == docs[0] && prefix[1..] == docs[1..][..i - 1];
  }

  /** Deleting keeps the other documents in their order. */
  lemma DeleteKeepsOrder(docs: seq<Document>, id: string, i: nat, j: nat)
    requires i < j < |docs| && docs[i].id != id && docs[j].id != id
    ensures exists a, b :: 0 <= a < b < |Delete(docs, id)| && Delete(docs, id)[a] == docs[i] && Delete(docs, id)[b] == docs[j]
  {
    DeleteAt(docs, id, i);
    DeleteAt(docs, id, j);
    KeptGrows(docs, id, i, j);
    var a, b := Kept(docs[..i], id), Kept(docs[..j], id);
    assert 0 <= a < b < |Delete(docs, id)| && Delete(docs, id)[a] == docs[i] && Delete(docs, id)[b] == docs[j];
  }

  /** A kept document adds to the count of the documents kept before any later position. */
  lemma KeptGrows(docs: seq<Document>, id: string, i: nat, j: nat)
    requires i < j <= |docs| && docs[i].id != id
    ensures Kept(docs[..i], id) < Kept(docs[..j], id)
  {
    var left, mid := docs[..i], docs[i..j];
    assert docs[..j] == left + mid;
    KeptAppend(left, mid, id);
    assert mid[0] == docs[i];
  }

  /** Activating an existing account stamps its last use; a missing id is still published as active. */
  lemma ActivateStamps(docs: seq<Document>, st: StoreState, id: string, now: int)
    requires DistinctIds(docs)
    ensures Find(docs, id).Some? ==> Find(Activated(docs, st, id, now).0, id) == Some(Find(docs, id).value.(id := id, lastUsedAt := now))
    ensures Find(docs, id).None? ==> Activated(docs, st, id, now) == (docs, SetActive(st, id))
    ensures Activated(docs, st, id, now).1.activeAccountId == Some(id)
  {
    if Find(docs, id).Some? {
      UpsertFind(docs, id, Find(docs, id).value.(id := id, lastUsedAt := now));
    }
  }

  /** updateAccount overwrites exactly the document with the account's id and keeps the ids distinct. */
  lemma {:induction false} UpsertFind(docs: seq<Document>, id: string, data: UserAccount)
    requires DistinctIds(docs)
    ensures Find(Upsert(docs, id, data), id) == Some(data)
    ensures DistinctIds(Upsert(docs, id, data))
    ensures forall other :: other != id ==> Find(Upsert(docs, id, data), other) == Find(docs, other)
  {
    UpsertDistinct(docs, id, data);
    forall other
      ensures Find(Upsert(docs, id, data), other) == (if other == id then Some(data) else Find(docs, other))
    {
      UpsertFindOne(docs, id, data, other);
    }
  }

  lemma UpsertDistinct(docs: seq<Document>, id: string, data: UserAccount)
    requires DistinctIds(docs)
    ensures DistinctIds(Upsert(docs, id, data))
  {
    var r := Upsert(docs, id, data);
    UpsertIds(docs, id, data);
    if id in Ids(docs) {
      forall i, j | 0 <= i < j < |r|
        ensures r[i].id != r[j].id
      {
        assert r[i].id == Ids(r)[i] == Ids(docs)[i] == docs[i].id;
        assert r[j].id == Ids(r)[j] == Ids(docs)[j] == docs[j].id;
      }
    } else {
      DistinctAppend(docs, Document(id, data));
    }
  }

  lemma UpsertFindOne(docs: seq<Document>, id: string, data: UserAccount, other: string)
    requires DistinctIds(docs)
    ensures Find(Upsert(docs, id, data), other) == if other == id then Some(data) else Find(docs, other)
  {
    var r := Upsert(docs, id, data);
    UpsertDistinct(docs, id, data);
    UpsertIds(docs, id, data);
    FindUnique(r, other);
    FindUnique(docs, other);
    if other == id {
      var i :| 0 <= i < |r| && Ids(r)[i] == id;
      assert r[i] == Document(id, data);
    } else if other in Ids(docs) {
      var i :| 0 <= i < |docs| && Ids(docs)[i] == other;
      assert r[i] == docs[i];
    } else {
      assert other !in Ids(r);
    }
  }

  /** Overwriting keeps the ids; creating adds the new id at the end. */
  lemma UpsertIds(docs: seq<Document>, id: string, data: UserAccount)
    ensures Ids(Upsert(docs, id, data)) == if id in Ids(docs) then Ids(docs) else Ids(docs) + [id]
  {
    var r := Upsert(docs, id, data);
    if id in Ids(docs) {
      assert forall i :: 0 <= i < |r| ==> Ids(r)[i] == Ids(docs)[i];
    } else {
      assert forall i :: 0 <= i < |r| ==> Ids(r)[i] == (Ids(docs) + [id])[i];
    }
  }

  /** With distinct ids, Find returns the fields of the one document having that id. */
  lemma FindUnique(docs: seq<Document>, id: string)
    requires DistinctIds(docs)
    ensures forall i :: 0 <= i < |docs| && docs[i].id == id ==> Find(docs, id) == Some(docs[i].data)
  {
  }

  /** A stored account whose cookie string has no session cookie leaves the session store as it was. */
  lemma LoadWithoutSessionCookie(docs: seq<Document>, st: StoreState, id: string, now: int)
    requires Find(docs, id).Some?
    requires SessionCookieName !in ParseCookieString(Find(docs, id).value.cookieString)
    ensures LoadedSession(docs, st, id, now) == st
  {
  }

  /** After loading an account that holds a session cookie, getSession returns the session rebuilt from it; the active id is untouched. */
  lemma LoadThenGet(docs: seq<Document>, st: StoreState, id: string, now: int)
    requires Find(docs, id).Some? && SessionFromCookieString(Find(docs, id).value.cookieString, now).Some?
    ensures var loaded := LoadedSession(docs, st, id, now);
      Get(loaded, now) == (loaded, SessionFromCookieString(Find(docs, id).value.cookieString, now)) &&
      loaded.activeAccountId == st.activeAccountId
  {
    var s := SessionFromCookieString(Find(docs, id).value.cookieString, now).value;
    SaveThenGet(st, s, now);
    SaveKeepsActive(st, s);
  }

  /** After switching to a stored account that holds a session cookie, it is active and getSession returns its session. */
  lemma SwitchThenGet(docs: seq<Document>, st: StoreState, id: string, now: int)
    requires DistinctIds(docs)
    requires Find(docs, id).Some? && SessionFromCookieString(Find(docs, id).value.cookieString, now).Some?
    ensures var after := Activated(docs, st, id, now).1;
      Get(after, now) == (after, SessionFromCookieString(Find(docs, id).value.cookieString, now)) &&
      after.activeAccountId == Some(id)
  {
    ActivateStamps(docs, st, id, now);
    var stamped := Activated(docs, st, id, now).0;
    assert Find(stamped, id).value.cookieString == Find(docs, id).value.cookieString;
    LoadThenGet(stamped, SetActive(st, id), id, now);
  }

  /** An empty cookie string parses to nothing, so the emptiness check only shortcuts the parser. */
  lemma EmptyCookieStringParsesEmpty()
    ensures ParseCookieString("") == map[]
  {
    assert Text.Split("", ';') == [""];
    assert Pairs([""]) == [];
  }

  /** A cookie string built from clean pairs with a session cookie reloads that cookie and token. */
  lemma SessionFromCookieHeader(pairs: seq<Pair>, cookie: string, token: string, now: int)
    requires forall i :: 0 <= i < |pairs| ==> Clean(pairs[i])
    requires |pairs| == 2 && pairs[0] == Pair(SessionCookieName, cookie) && pairs[1] == Pair(XsrfCookieName, token)
    ensures SessionFromCookieString(CookieHeader(pairs), now) == Some(Session(cookie, Some(token), now + SessionDurationMs))
  {
    ParseCookieHeaderLookup(pairs, 0);
    ParseCookieHeaderLookup(pairs, 1);
    assert CookieHeader(pairs) != "" by {
      assert SessionCookieName in ParseCookieString(CookieHeader(pairs));
      EmptyCookieStringParsesEmpty();
    }
  }
}
