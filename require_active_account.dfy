/** The guard run before every booking operation: an account must be active. */
module RequireActiveAccount {
  import opened Wrappers
  import opened Accounts
  import SessionStore

  const NoActiveAccountMessage: string := "Por favor, activa una cuenta para continuar"

  /** The active id when it is non-empty; otherwise the "activate an account" failure. */
  function Require(activeAccountId: Option<string>): (r: Result<string>)
    ensures r.Success? <==> activeAccountId.Some? && activeAccountId.value != ""
    ensures r.Success? ==> r.value == activeAccountId.value
    ensures r.Failure? ==> r.error == Raise(NoActiveAccountMessage)
  {
    if activeAccountId.None? || activeAccountId.value == "" then Failure(Raise(NoActiveAccountMessage))
    else Success(activeAccountId.value)
  }

  class RequireActiveAccountUseCase {
    const accountRepository: AccountRepositoryImpl

    constructor (accounts: AccountRepositoryImpl)
      ensures accountRepository == accounts
    {
      accountRepository := accounts;
    }

    /** Only reads the active id: no `modifies` clause, so neither store can change. */
    method Invoke() returns (r: Result<string>)
      ensures r == Require(accountRepository.GetActiveAccountId())
    {
      var activeAccountId := accountRepository.GetActiveAccountId();
      if activeAccountId.None? || activeAccountId.value == "" {
        return Failure(Raise(NoActiveAccountMessage));
      }
      r := Success(activeAccountId.value);
    }
  }

  /** Null and empty ids fail with the same error. */
  lemma NullAndEmptyAlike()
    ensures Require(None) == Require(Some("")) == Failure(Exception(Some("Por favor, activa una cuenta para continuar")))
  {
  }

  /** After activating an account, the guard lets that id through. */
  lemma ActivatedPasses(docs: seq<Document>, st: SessionStore.StoreState, id: string, now: int)
    requires id != ""
    ensures Require(Activated(docs, st, id, now).1.activeAccountId) == Success(id)
  {
  }

  /** After removing the active account the guard refuses until another is activated. */
  lemma RemovedActiveFails(docs: seq<Document>, st: SessionStore.StoreState, id: string)
    requires st.activeAccountId == Some(id)
    ensures Require(Removed(docs, st, id).1.activeAccountId).Failure?
  {
  }
}
