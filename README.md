# reservasHACK core in Dafny

reservasHACK is an Android client for the UCAM library's seat-booking
service (TakeASpot). It captures a browser login's cookies, keeps the
session alive across requests, stores several university accounts,
turns the server's loose JSON into a date → time slot → table model, and
decides what a booking allows. This project models that core and proves
what the code promises about it.

The model follows the app's own layers, one module per source file:

- **Session store and expiry.** `Sessions` holds the session record and its
  validity rule. `SessionStore` holds the encrypted preferences, modelled as a
  key → value map plus the published active account id. Each operation is a pure
  transition function, and the class `EncryptedSessionRepository` has methods
  proved equal to them. `CheckSession` combines the read with the validity check.
  The 4 h 50 min lifetime (17 400 000 ms) is defined once, as
  `Sessions.SessionDurationMs`. The source repeats it in four places.
- **Cookie and header transport.** `CookieJar` covers the merge rule of
  `saveFromResponse`, with its loop, and the cookies `loadForRequest` sends.
  `XsrfInterceptor` covers the fixed browser headers, the URL-decoded
  `X-XSRF-TOKEN` with its raw-token fallback, and OkHttp's header-value check.
- **Login and accounts.** `CookieString` is the `;`/`=` cookie-string parser.
  `ProcessLoginUseCase.kt:76-81` and `AccountRepositoryImpl.kt:149-154` contain
  the same parser, so one definition serves both. `ProcessLogin` covers the login
  use case. `Accounts` covers the multi-account store, with its cap of four,
  auto-activation on add, the deletion cascade and session reloading.
  `ApiErrorHandling` covers the HTTP error mapping, with session-expired events
  recorded in a log. `RequireActiveAccount` is the active-account guard.
- **Availability and booking responses.** `Json` is a JSON tree with the Gson
  accessors the code relies on. `Folds` holds the loop lemmas. `LibraryRepository`
  covers the service lookup, the three nested loops of `getAvailability` (as
  methods proved equal to folds), and the book/cancel/check-in response checks.
  It also has `ServicesDto`, `SlotsDto` and `LibraryModel`.
- **Booking legality.** `Bookings` covers the status vocabulary, `canCancel`,
  and the two check-in windows. Times are seconds since midnight of the caller's
  date.
- **Tables and screens.** `TableParser` covers row and table numbers.
  `Sorting` is a stable comparator sort plus `distinct().sorted()`. `Home` covers
  the home view model: status map, filter, sort, row list, auto-selection and
  setters. `HomeScreen` covers display time, header text, the four-column grid,
  the tile label and the confirmation guard. `ProfileScreen` covers initials,
  the add-account button and alias trimming. `Resources` covers `Resource` and
  `toResource`.

`Wrappers` holds `Option`, Kotlin's `Result` and an exception carrying a
nullable message. `Text` holds the Kotlin string functions the code uses
(trim, split, replace, lowercase, toIntOrNull, decimal printing) over ASCII.

Some facts the proofs make explicit:

- `getSession` still returns a session whose expiry equals `now`, or is not
  positive, although `isValid` rejects it (`SessionStore.ReturnedButInvalid`).
- "Error de validación" can never be shown, because the guard always supplies
  a message (`Home.LoadWithoutActiveAccount`).
- The tile label's `;` → newline step never fires. The tile is given the
  display name, which has no `;` left (`HomeScreen.TileLabelOfDisplayName`).

## Model

| member | source | states |
|---|---|---|
| Text.Trim | app/src/main/java/edu/ucam/reservashack/ui/screens/profile/ProfileScreen.kt:286 | `trim()` leaves no whitespace at either end, and the result is the input's middle slice, starting at the first non-whitespace character, with only whitespace cut before and after it |
| Text.TrimIdempotent | app/src/main/java/edu/ucam/reservashack/ui/screens/profile/ProfileScreen.kt:324-325 | trimming twice is trimming once |
| Text.Split | app/src/main/java/edu/ucam/reservashack/domain/model/TableParser.kt:13 | `split` gives at least one piece, none holding the separator, and joining the pieces back gives the text |
| Text.SplitJoin | app/src/main/java/edu/ucam/reservashack/domain/model/TableParser.kt:13 | splitting pieces joined by the separator gives those pieces back |
| Text.ToIntOrNull | app/src/main/java/edu/ucam/reservashack/data/remote/dto/ServicesDto.kt:40 | `toIntOrNull` yields only 32-bit values; text that is not an optional '+' or '-' followed by one or more digits ("", "12a", "-", "+") yields nothing; a plain, '+'-signed or '-'-signed decimal text yields its value when that fits in 32 bits and nothing otherwise |
| Text.IntToStringRoundTrip | app/src/main/java/edu/ucam/reservashack/data/remote/dto/ServicesDto.kt:40 | every 32-bit int's decimal text reads back as that int |
| Text.Lowercase | app/src/main/java/edu/ucam/reservashack/domain/model/MyBooking.kt:17 | `lowercase()` keeps the length and lowers each character |
| Sessions.ValidEarlier | app/src/main/java/edu/ucam/reservashack/domain/model/Session.kt:9-11 | validity is lost once and for all: a session valid at `now` was valid at every earlier instant |
| Sessions.InvalidAtExpiry | app/src/main/java/edu/ucam/reservashack/domain/model/Session.kt:9-11 | the comparison is strict: at its own expiry instant a session is no longer valid |
| Sessions.FreshSessionValidity | app/src/main/java/edu/ucam/reservashack/domain/model/Session.kt:9-11 | a session given the standard 4 h 50 min lifetime at `now` is valid at `later` exactly when `later` is before `now + 17400000` |
| SessionStore.GetString | app/src/main/java/edu/ucam/reservashack/data/local/EncryptedSessionRepository.kt:56-57 | reading a string preference fails exactly on an undecryptable entry; it yields a value exactly when a string entry is stored, that entry's text, and null for a missing or differently typed entry |
| SessionStore.GetLong | app/src/main/java/edu/ucam/reservashack/data/local/EncryptedSessionRepository.kt:58 | reading the expiry fails exactly on an undecryptable entry, yields the stored number for a long entry and 0 otherwise |
| SessionStore.PutString | app/src/main/java/edu/ucam/reservashack/data/local/EncryptedSessionRepository.kt:47-48 | writing a string stores it under the key, writing null removes the key, and every other key keeps its entry |
| SessionStore.InitialState | app/src/main/java/edu/ucam/reservashack/data/local/EncryptedSessionRepository.kt:41-43 | the published active account id starts as the stored one: present exactly when a string entry is stored under `active_account_id` |
| SessionStore.Saved | app/src/main/java/edu/ucam/reservashack/data/local/EncryptedSessionRepository.kt:45-52 | after saveSession the cookie, token and expiry read back as the session's fields; every other entry and the published id are unchanged |
| SessionStore.Cleared | app/src/main/java/edu/ucam/reservashack/data/local/EncryptedSessionRepository.kt:74-77 | clearSession empties the whole file, the active account entry included, and publishes null |
| SessionStore.SetActive | app/src/main/java/edu/ucam/reservashack/data/local/EncryptedSessionRepository.kt:79-82 | setActiveAccountId stores and publishes the id and leaves every other entry as it was |
| SessionStore.ClearActive | app/src/main/java/edu/ucam/reservashack/data/local/EncryptedSessionRepository.kt:88-91 | clearActiveAccountId removes only the id entry and publishes null; the session entries stay |
| SessionStore.ReadSession | app/src/main/java/edu/ucam/reservashack/data/local/EncryptedSessionRepository.kt:55-58 | a session read carries exactly the stored cookie, token and expiry; nothing is read exactly when no cookie string is stored |
| SessionStore.Get | app/src/main/java/edu/ucam/reservashack/data/local/EncryptedSessionRepository.kt:54-72 | getSession returns a session only when it is read back unchanged and not expired, and then leaves the store alone; otherwise the store is either untouched or wholly cleared |
| SessionStore.EncryptedSessionRepository.constructor | app/src/main/java/edu/ucam/reservashack/data/local/EncryptedSessionRepository.kt:41-43 | opening the file publishes the stored active account id |
| SessionStore.EncryptedSessionRepository.SaveSession | app/src/main/java/edu/ucam/reservashack/data/local/EncryptedSessionRepository.kt:45-52 | the object's new state is `Saved` of its old state |
| SessionStore.EncryptedSessionRepository.GetSession | app/src/main/java/edu/ucam/reservashack/data/local/EncryptedSessionRepository.kt:54-72 | the returned session and the new state are `Get` of the old state at `now` |
| SessionStore.EncryptedSessionRepository.ClearSession | app/src/main/java/edu/ucam/reservashack/data/local/EncryptedSessionRepository.kt:74-77 | the new state is `Cleared` of the old one |
| SessionStore.EncryptedSessionRepository.SetActiveAccountId | app/src/main/java/edu/ucam/reservashack/data/local/EncryptedSessionRepository.kt:79-82 | the new state is `SetActive` of the old one |
| SessionStore.EncryptedSessionRepository.ClearActiveAccountId | app/src/main/java/edu/ucam/reservashack/data/local/EncryptedSessionRepository.kt:88-91 | the new state is `ClearActive` of the old one |
| SessionStore.SaveThenGet | app/src/main/java/edu/ucam/reservashack/data/local/EncryptedSessionRepository.kt:45-66 | a saved session that is not expired is read back as saved, and the read changes nothing |
| SessionStore.SavedReadsBack | app/src/main/java/edu/ucam/reservashack/data/local/EncryptedSessionRepository.kt:45-66 | the entries saveSession writes read back, before the expiry rule, as exactly the saved session |
| SessionStore.SaveThenGetExpired | app/src/main/java/edu/ucam/reservashack/data/local/EncryptedSessionRepository.kt:61-63 | a saved session with a positive expiry before `now` is dropped and the whole store with it |
| SessionStore.ReturnedButInvalid | app/src/main/java/edu/ucam/reservashack/data/local/EncryptedSessionRepository.kt:61 | a session whose expiry equals `now`, or is not positive, is still returned although `isValid` says no |
| SessionStore.NoCookieNoSession | app/src/main/java/edu/ucam/reservashack/data/local/EncryptedSessionRepository.kt:56 | without a stored cookie string nothing is returned and nothing is touched, whatever the other entries hold |
| SessionStore.CorruptEntryClears | app/src/main/java/edu/ucam/reservashack/data/local/EncryptedSessionRepository.kt:56-70 | an undecryptable "cookie" entry (the read at kt:56 throws), or any undecryptable session entry behind a stored cookie, makes getSession clear the store and return null |
| SessionStore.ClearedStaysEmpty | app/src/main/java/edu/ucam/reservashack/data/local/EncryptedSessionRepository.kt:54-72 | once getSession has cleared the store, every later read returns null and changes nothing |
| SessionStore.ClearActiveKeepsSession | app/src/main/java/edu/ucam/reservashack/data/local/EncryptedSessionRepository.kt:88-91 | clearing the active account id does not change which session is read |
| SessionStore.SetActiveKeepsSession | app/src/main/java/edu/ucam/reservashack/data/local/EncryptedSessionRepository.kt:79-82 | setting the active account id does not change which session is read, and publishes the id |
| SessionStore.SaveKeepsActive | app/src/main/java/edu/ucam/reservashack/data/local/EncryptedSessionRepository.kt:45-52 | saving a session keeps the published active account id and its stored entry |
| CheckSession.Check | app/src/main/java/edu/ucam/reservashack/domain/usecase/CheckSessionUseCase.kt:9-12 | the check leaves the store as getSession leaves it |
| CheckSession.CheckIffStoredExpiryAhead | app/src/main/java/edu/ucam/reservashack/domain/usecase/CheckSessionUseCase.kt:9-12 | the answer is yes exactly when the session entries are readable, a cookie is stored and the stored expiry is after `now` |
| CheckSession.CheckYesKeepsStore | app/src/main/java/edu/ucam/reservashack/domain/usecase/CheckSessionUseCase.kt:10-11 | a yes never clears the store |
| CheckSession.CheckAfterFreshSave | app/src/main/java/edu/ucam/reservashack/domain/usecase/CheckSessionUseCase.kt:9-12 | right after a session with the standard lifetime is saved, the check says yes |
| CheckSession.CheckSessionUseCase.constructor | app/src/main/java/edu/ucam/reservashack/domain/usecase/CheckSessionUseCase.kt:6-8 | the use case holds the repository it is given |
| CheckSession.CheckSessionUseCase.Invoke | app/src/main/java/edu/ucam/reservashack/domain/usecase/CheckSessionUseCase.kt:9-12 | the answer and the repository's new state are `Check` of its old state at `now` |
| CookieJar.LastValue | app/src/main/java/edu/ucam/reservashack/data/remote/SessionCookieJar.kt:22-27 | the value picked for a name is that of the last cookie with that name; null exactly when no cookie has it |
| CookieJar.ScanCookies | app/src/main/java/edu/ucam/reservashack/data/remote/SessionCookieJar.kt:19-27 | the loop over a response's cookies ends with the last session cookie's value and the last XSRF cookie's value |
| CookieJar.Merged | app/src/main/java/edu/ucam/reservashack/data/remote/SessionCookieJar.kt:32-46 | nothing is saved exactly when neither the response nor the store has a session cookie; otherwise each field comes from the response when it brought one, else from the stored session, and the expiry restarts at `now` only for a new session cookie |
| CookieJar.AfterResponse | app/src/main/java/edu/ucam/reservashack/data/remote/SessionCookieJar.kt:18-50 | a response with neither cookie leaves the store untouched |
| CookieJar.RequestCookies | app/src/main/java/edu/ucam/reservashack/data/remote/SessionCookieJar.kt:56-78 | a request carries the session cookie first, then the XSRF cookie exactly when a token is stored, both bound to the request's host |
| CookieJar.ForRequest | app/src/main/java/edu/ucam/reservashack/data/remote/SessionCookieJar.kt:52-79 | loadForRequest leaves the store as getSession leaves it and sends no cookie exactly when no session is returned |
| CookieJar.SessionCookieJar.constructor | app/src/main/java/edu/ucam/reservashack/data/remote/SessionCookieJar.kt:9-11 | the jar holds the repository it is given |
| CookieJar.SessionCookieJar.SaveFromResponse | app/src/main/java/edu/ucam/reservashack/data/remote/SessionCookieJar.kt:18-50 | the repository's new state is `AfterResponse` of its old state |
| CookieJar.SessionCookieJar.LoadForRequest | app/src/main/java/edu/ucam/reservashack/data/remote/SessionCookieJar.kt:52-79 | the cookies and the repository's new state are `ForRequest` of its old state |
| CookieJar.NewSessionCookieSaved | app/src/main/java/edu/ucam/reservashack/data/remote/SessionCookieJar.kt:29-47 | a new session cookie is stored with an expiry of `now + 17400000` and the token of the response or, failing that, of the stored session |
| CookieJar.TokenOnlyKeepsCookieAndExpiry | app/src/main/java/edu/ucam/reservashack/data/remote/SessionCookieJar.kt:32-40 | a response that only brings a token keeps the stored cookie and expiry and saves the new token |
| CookieJar.TokenWithoutSessionDropped | app/src/main/java/edu/ucam/reservashack/data/remote/SessionCookieJar.kt:35 | a token without any session cookie, new or stored, is not saved |
| CookieJar.ExpiryFallbackUnused | app/src/main/java/edu/ucam/reservashack/data/remote/SessionCookieJar.kt:39 | the `?:` fallback on the expiry is never the value saved: without a new cookie a session is saved only when a stored one exists |
| CookieJar.SavedTwice | app/src/main/java/edu/ucam/reservashack/data/local/EncryptedSessionRepository.kt:45-52 | saving the same session twice stores what saving it once does |
| CookieJar.AfterResponseIdempotent | app/src/main/java/edu/ucam/reservashack/data/remote/SessionCookieJar.kt:18-50 | receiving the same cookies twice at one instant stores the same as receiving them once |
| CookieJar.RequestCookiesRoundTrip | app/src/main/java/edu/ucam/reservashack/data/remote/SessionCookieJar.kt:56-78 | scanning the cookies sent gives back the stored cookie and token |
| CookieJar.RequestCookiesWellFormed | app/src/main/java/edu/ucam/reservashack/data/remote/SessionCookieJar.kt:59-76 | every cookie sent is bound to the request's host and named `takeaspot_session` or `XSRF-TOKEN` |
| XsrfInterceptor.ValidHeaderValueAt | app/src/main/java/edu/ucam/reservashack/data/remote/XSRFInterceptor.kt:29 | a legal header value holds only tab and printable ASCII characters, at every position |
| XsrfInterceptor.Without | app/src/main/java/edu/ucam/reservashack/data/remote/XSRFInterceptor.kt:20-22 | removing a header name leaves no header of that name (case-insensitively) and adds none |
| XsrfInterceptor.Replace | app/src/main/java/edu/ucam/reservashack/data/remote/XSRFInterceptor.kt:20-22 | `header(name, value)` ends the list with the one header given |
| XsrfInterceptor.SetHeader | app/src/main/java/edu/ucam/reservashack/data/remote/XSRFInterceptor.kt:29 | setting a header fails exactly on an illegal value |
| XsrfInterceptor.ValuesAppend | app/src/main/java/edu/ucam/reservashack/data/remote/XSRFInterceptor.kt:20-22 | the values of a name over two header lists are those of the first followed by those of the second |
| XsrfInterceptor.ValuesWithout | app/src/main/java/edu/ucam/reservashack/data/remote/XSRFInterceptor.kt:20-22 | after removing a name it has no values, and every other name keeps its values |
| XsrfInterceptor.ReplaceValues | app/src/main/java/edu/ucam/reservashack/data/remote/XSRFInterceptor.kt:20-22 | after `header(name, value)` the name has exactly that one value and every other name keeps its values |
| XsrfInterceptor.HexValue | app/src/main/java/edu/ucam/reservashack/data/remote/XSRFInterceptor.kt:28 | a hex digit's value is below 16 |
| XsrfInterceptor.EscapeByte | app/src/main/java/edu/ucam/reservashack/data/remote/XSRFInterceptor.kt:28 | an escape `%XY` of two hex digits is the byte 16·X+Y, and any byte read is below 256 |
| XsrfInterceptor.UrlDecode | app/src/main/java/edu/ucam/reservashack/data/remote/XSRFInterceptor.kt:28 | decoding never lengthens the text (malformed escapes fail) |
| XsrfInterceptor.HexChar | app/src/main/java/edu/ucam/reservashack/data/remote/XSRFInterceptor.kt:28 | the digit written for a value below 16 reads back as that value |
| XsrfInterceptor.DecodeEncode | app/src/main/java/edu/ucam/reservashack/data/remote/XSRFInterceptor.kt:26-28 | a URL-encoded ASCII token decodes back to itself |
| XsrfInterceptor.PlainTokenUnchanged | app/src/main/java/edu/ucam/reservashack/data/remote/XSRFInterceptor.kt:28 | a token with neither '%' nor '+' is its own decoding |
| XsrfInterceptor.TokenHeaderValue | app/src/main/java/edu/ucam/reservashack/data/remote/XSRFInterceptor.kt:27-33 | the token header carries the decoded token when that is a legal value, else the raw token; it fails exactly when neither is legal, and what it carries is always legal |
| XsrfInterceptor.Intercepted | app/src/main/java/edu/ucam/reservashack/data/remote/XSRFInterceptor.kt:15-37 | the store is left as getSession leaves it, and the request handed on keeps its method, URL and body |
| XsrfInterceptor.FixedNamesDistinct | app/src/main/java/edu/ucam/reservashack/data/remote/XSRFInterceptor.kt:20-29 | the four header names set are different even without regard to case |
| XsrfInterceptor.InterceptedHeaders | app/src/main/java/edu/ucam/reservashack/data/remote/XSRFInterceptor.kt:20-34 | the request handed on has each fixed header once with its constant value, the token header exactly when a session with a token is stored (else the original's), and every other header of the original |
| XsrfInterceptor.InterceptFailsOnlyOnIllegalToken | app/src/main/java/edu/ucam/reservashack/data/remote/XSRFInterceptor.kt:27-33 | interception fails only when a stored token is illegal both raw and decoded |
| XsrfInterceptor.XSRFInterceptor.constructor | app/src/main/java/edu/ucam/reservashack/data/remote/XSRFInterceptor.kt:10-12 | the interceptor holds the repository it is given |
| XsrfInterceptor.XSRFInterceptor.Intercept | app/src/main/java/edu/ucam/reservashack/data/remote/XSRFInterceptor.kt:15-37 | the request handed on and the repository's new state are `Intercepted` of its old state |
| CookieString.Pairs | app/src/main/java/edu/ucam/reservashack/data/repository/AccountRepositoryImpl.kt:151-152 | each piece gives at most one pair (pieces without '=' are dropped) |
| CookieString.Associate | app/src/main/java/edu/ucam/reservashack/data/repository/AccountRepositoryImpl.kt:153 | the map's keys are exactly the names of the pairs |
| CookieString.AssociateLastWins | app/src/main/java/edu/ucam/reservashack/data/repository/AccountRepositoryImpl.kt:153 | a name gets the value of its last pair |
| CookieString.ParseCookieString | app/src/main/java/edu/ucam/reservashack/data/repository/AccountRepositoryImpl.kt:149-154 | no parsed name holds ';' or '=' |
| CookieString.PairsNames | app/src/main/java/edu/ucam/reservashack/data/repository/AccountRepositoryImpl.kt:150-152 | pairs cut from ';'-free pieces have no ';' anywhere and no '=' in the name |
| CookieString.PieceFields | app/src/main/java/edu/ucam/reservashack/data/repository/AccountRepositoryImpl.kt:151 | cutting one trimmed ';'-free piece at its first '=' gives a name without '=' and neither part with ';' |
| CookieString.Pieces | app/src/main/java/edu/ucam/reservashack/data/repository/AccountRepositoryImpl.kt:150 | a cookie string of n pairs has n pieces |
| CookieString.ParseCookieHeader | app/src/main/java/edu/ucam/reservashack/data/repository/AccountRepositoryImpl.kt:149-154 | round trip: parsing the "n1=v1; n2=v2" text of clean pairs gives the map of those pairs, the last value of a repeated name winning |
| CookieString.ParseCookieHeaderLookup | app/src/main/java/edu/ucam/reservashack/data/repository/AccountRepositoryImpl.kt:149-154 | with distinct names, every pair is found under its name with its value |
| CookieString.PieceWithoutEquals | app/src/main/java/edu/ucam/reservashack/data/repository/AccountRepositoryImpl.kt:152 | a piece without '=' after trimming contributes nothing |
| CookieString.PieceParses | app/src/main/java/edu/ucam/reservashack/data/repository/AccountRepositoryImpl.kt:151 | one rendered clean pair, with or without the leading space, trims and cuts back to its name and value |
| CookieString.PairsOfParsedPieces | app/src/main/java/edu/ucam/reservashack/data/repository/AccountRepositoryImpl.kt:151-152 | pieces that each parse to the pair at their position give back exactly those pairs |
| Accounts.Ids | app/src/main/java/edu/ucam/reservashack/data/repository/AccountRepositoryImpl.kt:34 | the ids of a collection, one per document in order |
| Accounts.Find | app/src/main/java/edu/ucam/reservashack/data/repository/AccountRepositoryImpl.kt:101-102 | reading a document finds nothing exactly when no document has the id, and otherwise fields stored under that id |
| Accounts.Upsert | app/src/main/java/edu/ucam/reservashack/data/repository/AccountRepositoryImpl.kt:78 | `set` overwrites every document with the id in place, or appends one document when the id is missing |
| Accounts.Delete | app/src/main/java/edu/ucam/reservashack/data/repository/AccountRepositoryImpl.kt:63 | after `delete` no document has the id, and exactly the other documents remain |
| Accounts.DeleteIds | app/src/main/java/edu/ucam/reservashack/data/repository/AccountRepositoryImpl.kt:63 | after `delete` the id is no longer among the collection's ids |
| Accounts.AccountsView | app/src/main/java/edu/ucam/reservashack/data/repository/AccountRepositoryImpl.kt:30-41 | the accounts listed are the documents' fields with `id` replaced by the document id, in collection order |
| Accounts.SessionFromCookieString | app/src/main/java/edu/ucam/reservashack/data/repository/AccountRepositoryImpl.kt:125-138 | a stored cookie string yields a session exactly when it is non-empty and has a `takeaspot_session` cookie; that session carries the parsed cookie, the token exactly when `XSRF-TOKEN` is present, and an expiry of `now + 17400000` |
| Accounts.LoadedSession | app/src/main/java/edu/ucam/reservashack/data/repository/AccountRepositoryImpl.kt:117-147 | loading a missing account, or one whose cookies hold no session, leaves the store alone; otherwise the store is the one after saving that session |
| Accounts.LoadThenGet | app/src/main/java/edu/ucam/reservashack/data/repository/AccountRepositoryImpl.kt:117-147 | after loading an account whose cookie string holds a session cookie, getSession returns the session rebuilt from that string, and the active id is unchanged |
| Accounts.Activated | app/src/main/java/edu/ucam/reservashack/data/repository/AccountRepositoryImpl.kt:99-115 | activation always publishes the id as active |
| Accounts.SwitchThenGet | app/src/main/java/edu/ucam/reservashack/data/repository/AccountRepositoryImpl.kt:99-115 | with distinct ids, switching to a stored account that holds a session cookie makes it active and getSession returns its session |
| Accounts.Added | app/src/main/java/edu/ucam/reservashack/data/repository/AccountRepositoryImpl.kt:43-55 | at four or more accounts the add fails with "Máximo de 4 cuentas alcanzado" and changes nothing; below it succeeds |
| Accounts.Removed | app/src/main/java/edu/ucam/reservashack/data/repository/AccountRepositoryImpl.kt:57-75 | the document is deleted; when it was the active account the session file is emptied and the active id cleared, otherwise the store is untouched |
| Accounts.AccountRepositoryImpl.constructor | app/src/main/java/edu/ucam/reservashack/data/repository/AccountRepositoryImpl.kt:18-22 | the repository starts from the collection and session repository it is given |
| Accounts.AccountRepositoryImpl.AddAccount | app/src/main/java/edu/ucam/reservashack/data/repository/AccountRepositoryImpl.kt:43-55 | the new collection, store and result are `Added` of the old ones |
| Accounts.AccountRepositoryImpl.RemoveAccount | app/src/main/java/edu/ucam/reservashack/data/repository/AccountRepositoryImpl.kt:57-75 | the new collection and store are `Removed` of the old ones |
| Accounts.AccountRepositoryImpl.UpdateAccount | app/src/main/java/edu/ucam/reservashack/data/repository/AccountRepositoryImpl.kt:77-79 | the new collection is `Upsert` of the old one under the account's id |
| Accounts.AccountRepositoryImpl.SetActiveAccount | app/src/main/java/edu/ucam/reservashack/data/repository/AccountRepositoryImpl.kt:99-115 | the new collection and store are `Activated` of the old ones |
| Accounts.AccountRepositoryImpl.LoadAccountSession | app/src/main/java/edu/ucam/reservashack/data/repository/AccountRepositoryImpl.kt:117-147 | the new store is `LoadedSession` of the old one |
| Accounts.AddAtCapRefused | app/src/main/java/edu/ucam/reservashack/data/repository/AccountRepositoryImpl.kt:46-47 | at the cap nothing is stored, the store is untouched and the cap message is raised |
| Accounts.AddBelowCap | app/src/main/java/edu/ucam/reservashack/data/repository/AccountRepositoryImpl.kt:43-55 | below the cap the account is listed last with its new id and a fresh last use, becomes the active account, and the session in its cookie string, if any, is the stored session |
| Accounts.AddedDocuments | app/src/main/java/edu/ucam/reservashack/data/repository/AccountRepositoryImpl.kt:43-55 | below the cap the collection becomes the old one plus the new document, stamped with its id and last use |
| Accounts.FindLast | app/src/main/java/edu/ucam/reservashack/data/repository/AccountRepositoryImpl.kt:51 | a document appended under a new id is found under it |
| Accounts.AddKeepsInvariant | app/src/main/java/edu/ucam/reservashack/data/repository/AccountRepositoryImpl.kt:46-51 | adding keeps the collection within four accounts and its ids distinct |
| Accounts.RemoveCascade | app/src/main/java/edu/ucam/reservashack/data/repository/AccountRepositoryImpl.kt:60-71 | the removed id is gone and every other document stays; removing the active account leaves no active id and no readable session, removing another touches neither |
| Accounts.DeleteKeepsOrder | app/src/main/java/edu/ucam/reservashack/data/repository/AccountRepositoryImpl.kt:63 | deleting keeps the other documents in their relative order |
| Accounts.DeleteAt | app/src/main/java/edu/ucam/reservashack/data/repository/AccountRepositoryImpl.kt:63 | a document that stays lands at the position given by how many documents before it stay |
| Accounts.ActivateStamps | app/src/main/java/edu/ucam/reservashack/data/repository/AccountRepositoryImpl.kt:101-111 | activating an existing account stamps its `lastUsedAt` with `now`; a missing id is still published as active and nothing else changes |
| Accounts.UpsertFind | app/src/main/java/edu/ucam/reservashack/data/repository/AccountRepositoryImpl.kt:78 | after `set` the id reads back the new fields, every other id reads as before, and the ids stay distinct |
| Accounts.UpsertFindOne | app/src/main/java/edu/ucam/reservashack/data/repository/AccountRepositoryImpl.kt:78 | after `set`, reading the written id gives the new fields and reading any other id gives what it gave before |
| Accounts.FindUnique | app/src/main/java/edu/ucam/reservashack/data/repository/AccountRepositoryImpl.kt:101 | with distinct ids a read returns the fields of the one document with that id |
| Accounts.LoadWithoutSessionCookie | app/src/main/java/edu/ucam/reservashack/data/repository/AccountRepositoryImpl.kt:132 | an account whose cookies have no session cookie leaves the session store as it was |
| Accounts.EmptyCookieStringParsesEmpty | app/src/main/java/edu/ucam/reservashack/data/repository/AccountRepositoryImpl.kt:126 | the empty string parses to no cookies, so the emptiness check only shortcuts the parser |
| Accounts.SessionFromCookieHeader | app/src/main/java/edu/ucam/reservashack/data/repository/AccountRepositoryImpl.kt:125-138 | a stored "takeaspot_session=c; XSRF-TOKEN=t" string reloads cookie `c` and token `t` with a fresh expiry |
| ProcessLogin.NewAccount | app/src/main/java/edu/ucam/reservashack/domain/usecase/ProcessLoginUseCase.kt:43-49 | the account recorded for a login has no id or e-mail yet, the alias found, the raw cookie string and both timestamps at `now` |
| ProcessLogin.UserName | app/src/main/java/edu/ucam/reservashack/domain/usecase/ProcessLoginUseCase.kt:40 | the alias is the name the page yields, and "Nueva Cuenta UCAM" without a page or without a name in it |
| ProcessLogin.Login | app/src/main/java/edu/ucam/reservashack/domain/usecase/ProcessLoginUseCase.kt:22-64 | the login answers true exactly when the cookie string has `takeaspot_session`; a false answer changes neither store |
| ProcessLogin.ProcessLoginUseCase.constructor | app/src/main/java/edu/ucam/reservashack/domain/usecase/ProcessLoginUseCase.kt:10-13 | the use case holds the two repositories it is given |
| ProcessLogin.ProcessLoginUseCase.Invoke | app/src/main/java/edu/ucam/reservashack/domain/usecase/ProcessLoginUseCase.kt:22-64 | the answer and both repositories' new states are `Login` of their old states |
| ProcessLogin.LoginWithoutSessionCookie | app/src/main/java/edu/ucam/reservashack/domain/usecase/ProcessLoginUseCase.kt:28-63 | without a session cookie the answer is false and nothing is stored |
| ProcessLogin.LoginSessionIsReloadSession | app/src/main/java/edu/ucam/reservashack/domain/usecase/ProcessLoginUseCase.kt:25-34 | the session a login saves is the one the account store later rebuilds from the same cookie string at the same instant |
| ProcessLogin.LoginAtCapKeepsSession | app/src/main/java/edu/ucam/reservashack/domain/usecase/ProcessLoginUseCase.kt:51-61 | at the account cap the refused add is swallowed: the answer is still true, the session is saved, and the accounts and active id are unchanged |
| ProcessLogin.LoginBelowCapAddsAccount | app/src/main/java/edu/ucam/reservashack/domain/usecase/ProcessLoginUseCase.kt:36-61 | below the cap the login lists the new account last, makes it the active account and leaves its session stored |
| ApiErrorHandling.DefaultMessage | app/src/main/java/edu/ucam/reservashack/data/remote/ApiErrorHandler.kt:29 | the default message is "Error HTTP: " followed by the code |
| ApiErrorHandling.ErrorFor | app/src/main/java/edu/ucam/reservashack/data/remote/ApiErrorHandler.kt:29-50 | a 401 always yields the fixed "Sesión expirada…" message whatever was passed; any other code yields the caller's message, or the default one when none was passed |
| ApiErrorHandling.EventsFor | app/src/main/java/edu/ucam/reservashack/data/remote/ApiErrorHandler.kt:30-39 | one session-expired event is emitted exactly when the code is 401 and an account is active, and it carries that account's id |
| ApiErrorHandling.SharedEventLog.constructor | app/src/main/java/edu/ucam/reservashack/ui/shared/SharedEventViewModel.kt:29 | the event log starts empty |
| ApiErrorHandling.SharedEventLog.EmitSessionExpired | app/src/main/java/edu/ucam/reservashack/ui/shared/SharedEventViewModel.kt:44-46 | emitting appends the account id to the events carried |
| ApiErrorHandling.ApiErrorHandler.constructor | app/src/main/java/edu/ucam/reservashack/data/remote/ApiErrorHandler.kt:18-21 | the handler holds the account repository and event bus it is given |
| ApiErrorHandling.ApiErrorHandler.HandleHttpError | app/src/main/java/edu/ucam/reservashack/data/remote/ApiErrorHandler.kt:29-50 | the returned exception is `ErrorFor` of the arguments, and the events carried grow by exactly `EventsFor` of the code and the active id |
| ApiErrorHandling.UnauthorizedIgnoresMessage | app/src/main/java/edu/ucam/reservashack/data/remote/ApiErrorHandler.kt:30-47 | for a 401 the caller's message is ignored |
| ApiErrorHandling.OtherCodesEmitNothing | app/src/main/java/edu/ucam/reservashack/data/remote/ApiErrorHandler.kt:30 | codes other than 401 emit nothing, whatever account is active |
| ApiErrorHandling.DefaultMessageNamesCode | app/src/main/java/edu/ucam/reservashack/data/remote/ApiErrorHandler.kt:29 | the default message begins "Error HTTP: " and, for a non-negative code, the rest is that code's decimal digits |
| RequireActiveAccount.Require | app/src/main/java/edu/ucam/reservashack/domain/usecase/RequireActiveAccountUseCase.kt:19-25 | the guard succeeds exactly when an id is active and non-empty, returning that id; otherwise it fails with "Por favor, activa una cuenta para continuar" |
| RequireActiveAccount.RequireActiveAccountUseCase.constructor | app/src/main/java/edu/ucam/reservashack/domain/usecase/RequireActiveAccountUseCase.kt:11-13 | the use case holds the repository it is given |
| RequireActiveAccount.RequireActiveAccountUseCase.Invoke | app/src/main/java/edu/ucam/reservashack/domain/usecase/RequireActiveAccountUseCase.kt:19-25 | the result is `Require` of the repository's active id, and nothing changes |
| RequireActiveAccount.NullAndEmptyAlike | app/src/main/java/edu/ucam/reservashack/domain/usecase/RequireActiveAccountUseCase.kt:21-22 | a null id and an empty id fail with the same error |
| RequireActiveAccount.ActivatedPasses | app/src/main/java/edu/ucam/reservashack/domain/usecase/RequireActiveAccountUseCase.kt:19-25 | after an account is activated, the guard returns its id |
| RequireActiveAccount.RemovedActiveFails | app/src/main/java/edu/ucam/reservashack/domain/usecase/RequireActiveAccountUseCase.kt:19-25 | after the active account is removed, the guard fails |
| Json.Get | app/src/main/java/edu/ucam/reservashack/data/repository/LibraryRepositoryImpl.kt:87 | `get` finds a value exactly when `has` holds, and the value found is one stored under the key |
| Json.GetUnique | app/src/main/java/edu/ucam/reservashack/data/repository/LibraryRepositoryImpl.kt:87 | on an object with distinct keys, as Gson's JsonObject has, `get` returns the value of the one member with the key |
| Json.GetObject | app/src/main/java/edu/ucam/reservashack/data/repository/LibraryRepositoryImpl.kt:64-65 | the object check succeeds exactly when the key is present and holds an object, and returns that object's members |
| Json.Wrap32 | app/src/main/java/edu/ucam/reservashack/data/repository/LibraryRepositoryImpl.kt:103-104 | narrowing to 32 bits lands in the int range, agrees with the number modulo 2^32 and keeps values that already fit |
| Json.AsString | app/src/main/java/edu/ucam/reservashack/data/repository/LibraryRepositoryImpl.kt:87-88 | a string reads as itself; null and objects throw UnsupportedOperationException; arrays of other than one element throw IllegalStateException |
| Json.AsInt | app/src/main/java/edu/ucam/reservashack/data/repository/LibraryRepositoryImpl.kt:103-104 | a successful read is a 32-bit int; numbers are narrowed; strings go through Integer.parseInt and otherwise throw NumberFormatException, as booleans do |
| Json.AsBool | app/src/main/java/edu/ucam/reservashack/data/repository/LibraryRepositoryImpl.kt:330 | a boolean reads as itself, a string is true exactly when it is "true" in any case, and a number reads as false |
| Json.AsObject | app/src/main/java/edu/ucam/reservashack/data/repository/LibraryRepositoryImpl.kt:84 | `asJsonObject` succeeds exactly on objects and returns their members |
| Json.StringOr | app/src/main/java/edu/ucam/reservashack/data/repository/LibraryRepositoryImpl.kt:87-88 | a missing key gives the default, otherwise the value's string reading |
| Json.IntOr | app/src/main/java/edu/ucam/reservashack/data/repository/LibraryRepositoryImpl.kt:103-104 | a missing key gives the default, otherwise the value's int reading |
| Json.BoolOr | app/src/main/java/edu/ucam/reservashack/data/repository/LibraryRepositoryImpl.kt:329-333 | a missing key gives the default, otherwise the value's boolean reading |
| Json.NumberTextIsNotOk | app/src/main/java/edu/ucam/reservashack/data/repository/LibraryRepositoryImpl.kt:357-359 | no number's text reads as "ok" |
| Json.SingletonArrayDelegates | app/src/main/java/edu/ucam/reservashack/data/repository/LibraryRepositoryImpl.kt:87-104 | a one-element array reads as its element in every conversion |
| Json.NumberAndTextAgree | app/src/main/java/edu/ucam/reservashack/data/repository/LibraryRepositoryImpl.kt:103-104 | a 32-bit number and its decimal text read as the same int |
| LibraryRepository.FindLibrary | app/src/main/java/edu/ucam/reservashack/data/repository/LibraryRepositoryImpl.kt:44 | finds nothing exactly when no service has id 845, and otherwise the first service with that id |
| LibraryRepository.LibraryInfo | app/src/main/java/edu/ucam/reservashack/data/repository/LibraryRepositoryImpl.kt:32-53 | a failed call gives "Error API: code - message"; an empty list gives "¿No hay servicios disponibles"; otherwise success with one of the listed services, converted |
| LibraryRepository.LibraryPreferred | app/src/main/java/edu/ucam/reservashack/data/repository/LibraryRepositoryImpl.kt:44-45 | when service 845 is listed it is the one returned; otherwise the first service is |
| LibraryRepository.TableOf | app/src/main/java/edu/ucam/reservashack/data/repository/LibraryRepositoryImpl.kt:99-115 | a table entry that is not an object throws; a table read keeps the slot's start and end |
| LibraryRepository.SlotOf | app/src/main/java/edu/ucam/reservashack/data/repository/LibraryRepositoryImpl.kt:84-118 | a slot element that is not an object throws; a slot read always files one entry |
| LibraryRepository.DayOf | app/src/main/java/edu/ucam/reservashack/data/repository/LibraryRepositoryImpl.kt:74-123 | a date whose value is not an array is skipped; an array date files a DaySlots under its own date, holding exactly the slots read from that array, and fails exactly when reading those slots fails |
| LibraryRepository.Availability | app/src/main/java/edu/ucam/reservashack/data/repository/LibraryRepositoryImpl.kt:55-138 | a failed call gives "Error API: code" |
| LibraryRepository.ReadTables | app/src/main/java/edu/ucam/reservashack/data/repository/LibraryRepositoryImpl.kt:98-116 | the loop over `free` computes `TablesOf`, stopping at the first failure |
| LibraryRepository.ReadSlots | app/src/main/java/edu/ucam/reservashack/data/repository/LibraryRepositoryImpl.kt:83-119 | the loop over a day's slot array computes `SlotsOf`, stopping at the first failure |
| LibraryRepository.GetAvailability | app/src/main/java/edu/ucam/reservashack/data/repository/LibraryRepositoryImpl.kt:55-138 | the nested loops compute `Availability` of the response |
| LibraryRepository.MissingFreeslotsIsEmpty | app/src/main/java/edu/ucam/reservashack/data/repository/LibraryRepositoryImpl.kt:64-128 | without an object `data`, or without an object `freeslots` inside it, the result is an empty success |
| LibraryRepository.TableDefaults | app/src/main/java/edu/ucam/reservashack/data/repository/LibraryRepositoryImpl.kt:102-104 | a table with no fields is table -1 named "Sin nombre" with status 1, so not free |
| LibraryRepository.TableFields | app/src/main/java/edu/ucam/reservashack/data/repository/LibraryRepositoryImpl.kt:102-107 | a table is free exactly when its status reads as 0; a string name and a 32-bit id are kept as given |
| LibraryRepository.TablesInOrder | app/src/main/java/edu/ucam/reservashack/data/repository/LibraryRepositoryImpl.kt:98-116 | the tables of a slot succeed exactly when every entry reads, and then they are the entries' tables one for one, in order |
| LibraryRepository.SlotDefaults | app/src/main/java/edu/ucam/reservashack/data/repository/LibraryRepositoryImpl.kt:87-96 | a slot without start and end is filed under "00:00-00:00", with no tables when `free` is missing |
| LibraryRepository.SlotsKeys | app/src/main/java/edu/ucam/reservashack/data/repository/LibraryRepositoryImpl.kt:91-118 | the time ids of a day are exactly the ids of its slots |
| LibraryRepository.SlotsLastWins | app/src/main/java/edu/ucam/reservashack/data/repository/LibraryRepositoryImpl.kt:118 | a slot's tables stand under its id unless a later slot has the same id |
| LibraryRepository.NonObjectSlotFails | app/src/main/java/edu/ucam/reservashack/data/repository/LibraryRepositoryImpl.kt:84 | one slot element that is not an object makes the whole call fail |
| LibraryRepository.NonObjectTableFails | app/src/main/java/edu/ucam/reservashack/data/repository/LibraryRepositoryImpl.kt:99 | one table value that is not an object makes the whole call fail |
| LibraryRepository.DaysAreArrayDates | app/src/main/java/edu/ucam/reservashack/data/repository/LibraryRepositoryImpl.kt:74-123 | the days returned are exactly the array-valued dates, each carrying its own date and the slots read from its array |
| LibraryRepository.JsonOkStatus | app/src/main/java/edu/ucam/reservashack/data/repository/LibraryRepositoryImpl.kt:357-359 | a missing status is not ok, the string "ok" is ok, any other string is not, and a null or object status throws |
| LibraryRepository.OkStatusShapes | app/src/main/java/edu/ucam/reservashack/data/repository/LibraryRepositoryImpl.kt:357-359 | a numeric status is never ok, and the array ["ok"] is accepted |
| LibraryRepository.RefusalOf | app/src/main/java/edu/ucam/reservashack/data/repository/LibraryRepositoryImpl.kt:304-305 | a refusal always fails, with the server's message or "Error desconocido" without one |
| LibraryRepository.Booked | app/src/main/java/edu/ucam/reservashack/data/repository/LibraryRepositoryImpl.kt:140-187 | a blank date, start or end fails with "Datos de reserva inválidos" before any call; a failed call gives the error handler's exception; an answer that is not ok gives "El servidor respondió pero no confirmó la reserva"; success only for an ok answer |
| LibraryRepository.BookingId | app/src/main/java/edu/ucam/reservashack/data/repository/LibraryRepositoryImpl.kt:171-177 | an ok booking answer yields `data.booking_id`, or -1 when `data` or the id is missing |
| LibraryRepository.Cancelled | app/src/main/java/edu/ucam/reservashack/data/repository/LibraryRepositoryImpl.kt:291-313 | cancelling succeeds, with true, exactly when the answer is ok; a failed call gives the error handler's exception; an answer that is not ok gives the refusal |
| LibraryRepository.CheckinResult | app/src/main/java/edu/ucam/reservashack/data/repository/LibraryRepositoryImpl.kt:328-333 | a missing `data` or `data.result` reads as false, and a non-object `data` throws |
| LibraryRepository.CheckedIn | app/src/main/java/edu/ucam/reservashack/data/repository/LibraryRepositoryImpl.kt:315-351 | check-in succeeds, with true, exactly when the answer is ok and `data.result` is true; an ok answer with a false result gives "El check-in no se completó correctamente"; one that is not ok gives the refusal |
| LibraryRepository.UnauthorizedActions | app/src/main/java/edu/ucam/reservashack/data/repository/LibraryRepositoryImpl.kt:182 | a 401 on booking, cancelling or check-in yields the fixed session-expired message |
| LibraryRepository.LibraryRepositoryImpl.constructor | app/src/main/java/edu/ucam/reservashack/data/repository/LibraryRepositoryImpl.kt:25-30 | the repository holds the error handler it is given |
| LibraryRepository.LibraryRepositoryImpl.BookTable | app/src/main/java/edu/ucam/reservashack/data/repository/LibraryRepositoryImpl.kt:140-187 | the result is `Booked`, and session-expired events are emitted only when the call was made and failed |
| LibraryRepository.LibraryRepositoryImpl.CancelBooking | app/src/main/java/edu/ucam/reservashack/data/repository/LibraryRepositoryImpl.kt:291-313 | the result is `Cancelled`, and events are emitted only for a failed call |
| LibraryRepository.LibraryRepositoryImpl.CheckinBooking | app/src/main/java/edu/ucam/reservashack/data/repository/LibraryRepositoryImpl.kt:315-351 | the result is `CheckedIn`, and events are emitted only for a failed call |
| LibraryModel.DisplayName | app/src/main/java/edu/ucam/reservashack/domain/model/LibraryService.kt:16 | the display name has no ';' left, is longer by two characters per ';' replaced, and is the name itself when it has none |
| LibraryModel.DisplayNameOfRowAndTable | app/src/main/java/edu/ucam/reservashack/domain/model/LibraryService.kt:12-16 | a "row;table" name displays as "row - table" |
| ServicesDto.TimeSlots | app/src/main/java/edu/ucam/reservashack/data/remote/dto/ServicesDto.kt:45 | the time slots are the entries one for one, in order, with open, close and gbid copied |
| ServicesDto.Tables | app/src/main/java/edu/ucam/reservashack/data/remote/dto/ServicesDto.kt:41-43 | the tables are the pitches one for one, in order, with name and status copied |
| ServicesDto.ToDomain | app/src/main/java/edu/ucam/reservashack/data/remote/dto/ServicesDto.kt:36-47 | the id is copied; a null name becomes "Servicio Desconocido"; a capacity text that does not parse becomes 0; the pitches map to tables; a null timetable becomes empty, otherwise it has the same days, each mapped entry by entry |
| ServicesDto.CapacityText | app/src/main/java/edu/ucam/reservashack/data/remote/dto/ServicesDto.kt:40 | an unparsable capacity is 0, and a plain decimal one that fits in 32 bits is its value |
| SlotsDto.DefaultItem | app/src/main/java/edu/ucam/reservashack/data/remote/dto/SlotsDto.kt:13-21 | the constructor defaults are available 0, booked 0, blocked false and capacity 1 |
| SlotsDto.BookableNeeds | app/src/main/java/edu/ucam/reservashack/data/remote/dto/SlotsDto.kt:22-25 | a bookable item has available exactly 1 and blocked exactly false; a null blocked or available is never bookable |
| SlotsDto.BookableCounters | app/src/main/java/edu/ucam/reservashack/data/remote/dto/SlotsDto.kt:24 | for an available unblocked item, null counters make it bookable, full capacity does not, and each null counter is read as its default |
| SlotsDto.DefaultNotBookable | app/src/main/java/edu/ucam/reservashack/data/remote/dto/SlotsDto.kt:17-24 | an item built with the defaults is not bookable |
| Folds.FoldNext | app/src/main/java/edu/ucam/reservashack/data/repository/LibraryRepositoryImpl.kt:74-119 | one more element extends a loop's result by exactly one step |
| Folds.FoldFailureStays | app/src/main/java/edu/ucam/reservashack/data/repository/LibraryRepositoryImpl.kt:134-136 | once a loop step has thrown, the whole call fails with that exception |
| Folds.FoldFailsAt | app/src/main/java/edu/ucam/reservashack/data/repository/LibraryRepositoryImpl.kt:84 | an element whose step always throws makes the whole loop fail |
| Folds.ListFoldItems | app/src/main/java/edu/ucam/reservashack/data/repository/LibraryRepositoryImpl.kt:98-116 | filling a list succeeds exactly when every item reads, and then holds the items one for one, in input order |
| Folds.MapFoldEntries | app/src/main/java/edu/ucam/reservashack/data/repository/LibraryRepositoryImpl.kt:74-123 | filling a map succeeds exactly when every element reads; its keys are exactly the keys put, and every value stored is one put under that key |
| Folds.MapFoldLastWins | app/src/main/java/edu/ucam/reservashack/data/repository/LibraryRepositoryImpl.kt:118-122 | an element's entry stands in the map unless a later element puts the same key |
| Resources.OnSuccess | app/src/main/java/edu/ucam/reservashack/domain/util/Resource.kt:15-18 | the resource is handed back unchanged, and the action receives the data exactly when it is a Success |
| Resources.OnError | app/src/main/java/edu/ucam/reservashack/domain/util/Resource.kt:23-26 | the resource is handed back unchanged, and the action receives the message and cause exactly when it is an Error |
| Resources.OnLoading | app/src/main/java/edu/ucam/reservashack/domain/util/Resource.kt:31-34 | the resource is handed back unchanged, and the action runs exactly when it is Loading |
| Resources.ExactlyOneActionRuns | app/src/main/java/edu/ucam/reservashack/domain/util/Resource.kt:15-34 | chaining the three helpers hands the same resource along and runs exactly one action |
| Resources.ToResource | app/src/main/java/edu/ucam/reservashack/domain/util/Resource.kt:40-44 | a success keeps its value; a failure becomes an Error with the exception as cause and its message, or "Error desconocido" when that is null |
| Resources.ToResourceShapes | app/src/main/java/edu/ucam/reservashack/domain/util/Resource.kt:40-44 | a converted result is never Loading, and only a null message is replaced |
| Resources.SuccessReachesAction | app/src/main/java/edu/ucam/reservashack/domain/util/Resource.kt:15-44 | a converted success hands the original value to onSuccess and runs no error action |
| Bookings.From | app/src/main/java/edu/ucam/reservashack/domain/model/MyBooking.kt:16-24 | a known status is returned exactly when the trimmed, lower-cased text is its keyword; any other text gives UNKNOWN |
| Bookings.FromWord | app/src/main/java/edu/ucam/reservashack/domain/model/MyBooking.kt:17-24 | the `when` over the normalised word: a known status exactly when the word is its keyword, UNKNOWN for every other word |
| Bookings.KeywordsDistinct | app/src/main/java/edu/ucam/reservashack/domain/model/MyBooking.kt:18-22 | the five keywords are pairwise different, so at most one branch of the `when` can match |
| Bookings.FromWordKeyword | app/src/main/java/edu/ucam/reservashack/domain/model/MyBooking.kt:17-24 | each keyword selects its own status and "desconocido" selects UNKNOWN |
| Bookings.FromIgnoresSurroundingWhitespace | app/src/main/java/edu/ucam/reservashack/domain/model/MyBooking.kt:17 | surrounding whitespace never changes the status |
| Bookings.FromDisplayName | app/src/main/java/edu/ucam/reservashack/domain/model/MyBooking.kt:7-24 | every status's display name reads back as that status |
| Bookings.LowercaseDisplayName | app/src/main/java/edu/ucam/reservashack/domain/model/MyBooking.kt:8-13 | each known display name, lower-cased, is the keyword `from` matches, and UNKNOWN's is "desconocido" |
| Bookings.NewBooking | app/src/main/java/edu/ucam/reservashack/domain/model/MyBooking.kt:29-39 | a booking built by the constructor parses its status from its status text and keeps the other fields |
| Bookings.CancelFromStatusText | app/src/main/java/edu/ucam/reservashack/domain/model/MyBooking.kt:37-41 | a booking can be cancelled exactly when its status text is "aceptado" in any case and surrounding spacing |
| Bookings.ParseTime | app/src/main/java/edu/ucam/reservashack/domain/model/MyBooking.kt:52 | a time parses only from two digits, ':' and two digits, and gives a minute of the day |
| Bookings.FormatTime | app/src/main/java/edu/ucam/reservashack/domain/model/MyBooking.kt:52 | a minute of the day formats as five characters |
| Bookings.ParseFormatTime | app/src/main/java/edu/ucam/reservashack/domain/model/MyBooking.kt:52 | every minute of the day survives formatting and parsing |
| Bookings.MidnightAsTwentyFour | app/src/main/java/edu/ucam/reservashack/domain/model/MyBooking.kt:52-53 | "24:00" is read as midnight of the same date |
| Bookings.ParseRejectsOutOfRange | app/src/main/java/edu/ucam/reservashack/domain/model/MyBooking.kt:51-63 | minutes of 60 or more, and hours of 25 or more, do not parse |
| Bookings.CanCheckin | app/src/main/java/edu/ucam/reservashack/domain/model/MyBooking.kt:46-82 | check-in needs an accepted booking with both times readable; then it is allowed exactly inside the half hour after the start, or, when the booking was made during its own slot, until half an hour after the end |
| Bookings.CheckinImpliesCancel | app/src/main/java/edu/ucam/reservashack/domain/model/MyBooking.kt:41-47 | a booking that can be checked into can be cancelled |
| Bookings.UnparsableEndRefuses | app/src/main/java/edu/ucam/reservashack/domain/model/MyBooking.kt:58-63 | an unreadable end time refuses check-in even inside the start window |
| Bookings.WindowBHasNoLowerBound | app/src/main/java/edu/ucam/reservashack/domain/model/MyBooking.kt:74-79 | a booking made during its slot can be checked into at any time before the start, up to half an hour after the end |
| Bookings.OutsideBothWindows | app/src/main/java/edu/ucam/reservashack/domain/model/MyBooking.kt:65-81 | outside the start window, and without a reservation time inside the slot, check-in is refused |
| TableParser.PieceNumber | app/src/main/java/edu/ucam/reservashack/domain/model/TableParser.kt:15-16 | a piece yields a number only when it has digits; then the number is their value if it fits in 32 bits and nothing otherwise |
| TableParser.Parse | app/src/main/java/edu/ucam/reservashack/domain/model/TableParser.kt:40-44 | parsing fails exactly when either number is missing, and otherwise pairs the row and table numbers |
| TableParser.RowFromFirstPiece | app/src/main/java/edu/ucam/reservashack/domain/model/TableParser.kt:12-17 | the row number is read from the text before the first ';' alone |
| TableParser.SplitLastPiece | app/src/main/java/edu/ucam/reservashack/domain/model/TableParser.kt:25-26 | text with a separator splits into at least two pieces, the last being the text after the last separator |
| TableParser.TableFromLastPiece | app/src/main/java/edu/ucam/reservashack/domain/model/TableParser.kt:24-29 | the table number is read from the text after the last ';' alone |
| TableParser.NoSeparatorSameNumbers | app/src/main/java/edu/ucam/reservashack/domain/model/TableParser.kt:12-29 | without a ';' the row and table numbers are the same |
| TableParser.DigitsAreConcatenated | app/src/main/java/edu/ucam/reservashack/domain/model/TableParser.kt:15-16 | the digits of a piece are read together, wherever they stand |
| TableParser.DigitsOfDigitString | app/src/main/java/edu/ucam/reservashack/domain/model/TableParser.kt:15 | filtering digits keeps an all-digit text unchanged |
| TableParser.LeadingZeroIgnored | app/src/main/java/edu/ucam/reservashack/domain/model/TableParser.kt:16 | a leading zero does not change the number |
| TableParser.PieceOfNumber | app/src/main/java/edu/ucam/reservashack/domain/model/TableParser.kt:15-16 | a label without digits followed by a number's decimal text yields that number |
| TableParser.ParseRoundTrip | app/src/main/java/edu/ucam/reservashack/domain/model/TableParser.kt:40-44 | a name written as label, row, ';', label, table parses back to that row and table |
| TableParser.ParseFilaMesa | app/src/main/java/edu/ucam/reservashack/domain/model/TableParser.kt:3-5 | the library's "Fila X;Mesa Y" names parse back to (X, Y) |
| Sorting.InsertBy | app/src/main/java/edu/ucam/reservashack/ui/screens/home/HomeViewModel.kt:182-195 | inserting into the sorted list adds exactly that element |
| Sorting.SortWith | app/src/main/java/edu/ucam/reservashack/ui/screens/home/HomeViewModel.kt:182-195 | sorting is a permutation of its input |
| Sorting.SortWithSorted | app/src/main/java/edu/ucam/reservashack/ui/screens/home/HomeViewModel.kt:182-195 | with a comparator that is a total preorder on the elements, the result is ordered by it |
| Sorting.SortWithStable | app/src/main/java/edu/ucam/reservashack/ui/screens/home/HomeViewModel.kt:182-195 | elements that compare equal keep their input order |
| Sorting.InsertDistinct | app/src/main/java/edu/ucam/reservashack/ui/screens/home/HomeViewModel.kt:202-210 | inserting keeps the list strictly ascending and adds exactly the new value |
| Sorting.DistinctSorted | app/src/main/java/edu/ucam/reservashack/ui/screens/home/HomeViewModel.kt:202-210 | `distinct().sorted()` holds every input value exactly once, strictly ascending |
| Home.LessEqReflexive | app/src/main/java/edu/ucam/reservashack/ui/screens/home/HomeViewModel.kt:104 | the string order used to sort keys is reflexive |
| Home.LessEqAntisymmetricAll | app/src/main/java/edu/ucam/reservashack/ui/screens/home/HomeViewModel.kt:104 | the string order used to sort keys is antisymmetric |
| Home.SmallestExists | app/src/main/java/edu/ucam/reservashack/ui/screens/home/HomeViewModel.kt:104 | every non-empty key set has a least element |
| Home.Smallest | app/src/main/java/edu/ucam/reservashack/ui/screens/home/HomeViewModel.kt:104-106 | `sorted().firstOrNull()` finds nothing exactly for an empty key set, and otherwise a key no greater than any other |
| Home.Loaded | app/src/main/java/edu/ucam/reservashack/ui/screens/home/HomeViewModel.kt:83-120 | loading succeeds exactly when the guard, the library request and the availability request for its id all succeed; the state then holds both results with the earliest date and time selected; any failure shows an Error and keeps the selection; the filters never change |
| Home.LoadSelectsEarliest | app/src/main/java/edu/ucam/reservashack/ui/screens/home/HomeViewModel.kt:104-106 | after a successful load the selected date is a key no later than any other, and the selected time is present exactly when that day has slots and is its earliest; empty availability selects nothing |
| Home.LoadWithoutActiveAccount | app/src/main/java/edu/ucam/reservashack/ui/screens/home/HomeViewModel.kt:89-117 | without an active account the error shown is the guard's message, so "Error de validación" never appears |
| Home.LoadFailureMessages | app/src/main/java/edu/ucam/reservashack/ui/screens/home/HomeViewModel.kt:110-113 | a failed library or availability request shows its message after the matching prefix; a null message reads "null" |
| Home.FindByName | app/src/main/java/edu/ucam/reservashack/ui/screens/home/HomeViewModel.kt:132 | the search finds nothing exactly when no entry has the name, and otherwise the first entry with it |
| Home.TableStatusOf | app/src/main/java/edu/ucam/reservashack/ui/screens/home/HomeViewModel.kt:123-135 | UNKNOWN exactly when there is no selected slot list or no entry with the name; FREE exactly when that first entry is free |
| Home.NoStatusBeforeSuccess | app/src/main/java/edu/ucam/reservashack/ui/screens/home/HomeViewModel.kt:125 | before the state is Success every table is UNKNOWN |
| Home.StatusMap | app/src/main/java/edu/ucam/reservashack/ui/screens/home/HomeViewModel.kt:141-153 | empty before Success; otherwise exactly one entry per library table name, never UNKNOWN |
| Home.StatusMapAgreesWithTableStatus | app/src/main/java/edu/ucam/reservashack/ui/screens/home/HomeViewModel.kt:141-153 | the map and getTableStatus agree on FREE; where getTableStatus says UNKNOWN the map says OCCUPIED |
| Home.FilterTables | app/src/main/java/edu/ucam/reservashack/ui/screens/home/HomeViewModel.kt:168-181 | the tables kept are exactly the library tables that pass the filter |
| Home.FilterTablesInOrder | app/src/main/java/edu/ucam/reservashack/ui/screens/home/HomeViewModel.kt:168-181 | `filter` keeps the passing tables in library order, each as often as it occurs in the library: the result is the library list restricted to the filter |
| Home.Compare | app/src/main/java/edu/ucam/reservashack/ui/screens/home/HomeViewModel.kt:182-195 | the comparator is 0 when either name does not parse, and otherwise orders by row and then by table number |
| Home.SortTables | app/src/main/java/edu/ucam/reservashack/ui/screens/home/HomeViewModel.kt:182 | sorting rearranges the tables without adding or dropping any |
| Home.CompareTransitive | app/src/main/java/edu/ucam/reservashack/ui/screens/home/HomeViewModel.kt:182-195 | on parsed names the comparator is transitive |
| Home.CompareFlip | app/src/main/java/edu/ucam/reservashack/ui/screens/home/HomeViewModel.kt:182-195 | if a compares above b then b does not compare above a |
| Home.ComparePreorder | app/src/main/java/edu/ucam/reservashack/ui/screens/home/HomeViewModel.kt:182-195 | on names that all parse, the comparator is a total preorder |
| Home.SameKeyCompareEqual | app/src/main/java/edu/ucam/reservashack/ui/screens/home/HomeViewModel.kt:191-194 | tables whose names parse to the same row and table compare equal |
| Home.FilteredTables | app/src/main/java/edu/ucam/reservashack/ui/screens/home/HomeViewModel.kt:159-196 | empty before Success; otherwise a rearrangement of the kept tables |
| Home.FilteredMembership | app/src/main/java/edu/ucam/reservashack/ui/screens/home/HomeViewModel.kt:168-181 | a table is shown exactly when it is a library table that is free (when only available ones are shown), has a readable row, and lies within the bounds set |
| Home.FilteredSorted | app/src/main/java/edu/ucam/reservashack/ui/screens/home/HomeViewModel.kt:182-195 | when every library name parses, the shown tables are in row-then-table order |
| Home.FilteredStable | app/src/main/java/edu/ucam/reservashack/ui/screens/home/HomeViewModel.kt:182-195 | shown tables with the same row and table appear exactly as those tables appear among the library tables that pass the filter, in library order |
| Home.RowList | app/src/main/java/edu/ucam/reservashack/ui/screens/home/HomeViewModel.kt:207 | the rows listed are exactly the readable row numbers of the tables |
| Home.AvailableRows | app/src/main/java/edu/ucam/reservashack/ui/screens/home/HomeViewModel.kt:202-210 | empty before Success; otherwise the readable row numbers, each once, strictly ascending |
| Home.AvailableRowsNonNegative | app/src/main/java/edu/ucam/reservashack/ui/screens/home/HomeViewModel.kt:207 | the rows offered are never negative |
| Home.HomeViewModel.constructor | app/src/main/java/edu/ucam/reservashack/ui/screens/home/HomeViewModel.kt:25-43 | the view model starts Loading, with nothing selected, only available tables shown and no row bounds |
| Home.HomeViewModel.SetSelectedDate | app/src/main/java/edu/ucam/reservashack/ui/screens/home/HomeViewModel.kt:49-51 | only the selected date changes |
| Home.HomeViewModel.SetSelectedTimeId | app/src/main/java/edu/ucam/reservashack/ui/screens/home/HomeViewModel.kt:53-55 | only the selected time changes |
| Home.HomeViewModel.SetShowOnlyAvailable | app/src/main/java/edu/ucam/reservashack/ui/screens/home/HomeViewModel.kt:57-59 | only the availability filter changes |
| Home.HomeViewModel.SetMinRowNumber | app/src/main/java/edu/ucam/reservashack/ui/screens/home/HomeViewModel.kt:61-63 | only the lower row bound changes |
| Home.HomeViewModel.SetMaxRowNumber | app/src/main/java/edu/ucam/reservashack/ui/screens/home/HomeViewModel.kt:65-67 | only the upper row bound changes |
| Home.HomeViewModel.LoadData | app/src/main/java/edu/ucam/reservashack/ui/screens/home/HomeViewModel.kt:83-120 | the new view is `Loaded` of the old one, given the guard's answer and the two request results |
| HomeScreen.SplitFirstPiece | app/src/main/java/edu/ucam/reservashack/ui/screens/home/HomeScreen.kt:541-542 | the first piece of a split is the text before the first separator |
| HomeScreen.IndexOfAfter | app/src/main/java/edu/ucam/reservashack/ui/screens/home/HomeScreen.kt:540-542 | a separator after separator-free text is first found right after it |
| HomeScreen.DisplayTime | app/src/main/java/edu/ucam/reservashack/ui/screens/home/HomeScreen.kt:538-559 | a time id with '-' shows its text before the first '-'; otherwise the id itself when there are no slots, else the first slot's start time, cut to characters 11-16 when it is at least 16 long |
| HomeScreen.DisplayTimeOfSlotKey | app/src/main/java/edu/ucam/reservashack/ui/screens/home/HomeScreen.kt:539-543 | a "start-end" time id shows its start |
| HomeScreen.DisplayTimeOfTimestamp | app/src/main/java/edu/ucam/reservashack/ui/screens/home/HomeScreen.kt:552-555 | a "yyyy-MM-dd HH:mm…" first start time shows its HH:mm |
| HomeScreen.HeaderShape | app/src/main/java/edu/ucam/reservashack/ui/screens/home/HomeScreen.kt:194-220 | whatever the filters, the header is "Mesas", the availability word, the row range and one final ':' |
| HomeScreen.RowRangeOpens | app/src/main/java/edu/ucam/reservashack/ui/screens/home/HomeScreen.kt:204-215 | the row range is empty exactly when neither bound is set, and otherwise opens with " (" |
| HomeScreen.NoColonInNumber | app/src/main/java/edu/ucam/reservashack/ui/screens/home/HomeScreen.kt:207-213 | no row number's text contains ':' |
| HomeScreen.NoColonInRowRange | app/src/main/java/edu/ucam/reservashack/ui/screens/home/HomeScreen.kt:204-213 | the row range never contains ':' |
| HomeScreen.HeaderOneColonAtEnd | app/src/main/java/edu/ucam/reservashack/ui/screens/home/HomeScreen.kt:194-220 | the header starts with "Mesas" and has exactly one ':', its last character |
| HomeScreen.HeaderNamesAvailability | app/src/main/java/edu/ucam/reservashack/ui/screens/home/HomeScreen.kt:199-201 | with only available tables shown, " Disponibles" follows "Mesas" |
| HomeScreen.HeaderWithoutAvailability | app/src/main/java/edu/ucam/reservashack/ui/screens/home/HomeScreen.kt:204-219 | without the availability filter, "Mesas" is followed by the final ':' or by the opening " (" of the row range |
| HomeScreen.HeaderSingleRow | app/src/main/java/edu/ucam/reservashack/ui/screens/home/HomeScreen.kt:205-207 | equal bounds name the single row, "(Fila n)" |
| HomeScreen.EachTableOnce | app/src/main/java/edu/ucam/reservashack/ui/screens/home/HomeScreen.kt:246-258 | every shown table lands in exactly one cell of the four-column grid |
| HomeScreen.GridIsTight | app/src/main/java/edu/ucam/reservashack/ui/screens/home/HomeScreen.kt:247 | the grid has just enough rows: the last row starts with a table, and fewer than four cells are left empty |
| HomeScreen.TileLabelOfDisplayName | app/src/main/java/edu/ucam/reservashack/ui/screens/home/HomeScreen.kt:522-525 | the tile's label of a display name has no ';' left, so the ';'-to-newline step never adds a line break |
| HomeScreen.RealTableId | app/src/main/java/edu/ucam/reservashack/ui/screens/home/HomeScreen.kt:261-262 | the id is -1 without a selected slot list or an entry with the name, and otherwise the first such entry's id |
| HomeScreen.Tap | app/src/main/java/edu/ucam/reservashack/ui/screens/home/HomeScreen.kt:268-272 | a tap opens the confirmation exactly when the tile is FREE and a real id was found, pending that id and the table name |
| HomeScreen.TapOpensOnlyForFree | app/src/main/java/edu/ucam/reservashack/ui/screens/home/HomeScreen.kt:260-272 | the confirmation opens only for a table whose first slot entry is free and carries a real id, which is the one pending |
| ProfileScreen.Letter | app/src/main/java/edu/ucam/reservashack/ui/screens/profile/ProfileScreen.kt:288-290 | each piece contributes at most one letter, and none exactly when it is empty |
| ProfileScreen.Letters | app/src/main/java/edu/ucam/reservashack/ui/screens/profile/ProfileScreen.kt:288-291 | the initials have at most one letter per piece, none a lower-case ASCII letter |
| ProfileScreen.Take | app/src/main/java/edu/ucam/reservashack/ui/screens/profile/ProfileScreen.kt:288 | `take(n)` keeps the first n pieces, or all of them when there are fewer |
| ProfileScreen.GetInitials | app/src/main/java/edu/ucam/reservashack/ui/screens/profile/ProfileScreen.kt:285-292 | the initials are one or two characters, none a lower-case ASCII letter |
| ProfileScreen.OneWord | app/src/main/java/edu/ucam/reservashack/ui/screens/profile/ProfileScreen.kt:285-292 | a trimmed name without a space gives the upper-cased first letter, or "U" when it is empty |
| ProfileScreen.BlankGivesU | app/src/main/java/edu/ucam/reservashack/ui/screens/profile/ProfileScreen.kt:291 | a blank name gives "U" |
| ProfileScreen.InitialsIgnoreSurroundingWhitespace | app/src/main/java/edu/ucam/reservashack/ui/screens/profile/ProfileScreen.kt:286 | surrounding whitespace does not change the initials |
| ProfileScreen.LettersOfTwo | app/src/main/java/edu/ucam/reservashack/ui/screens/profile/ProfileScreen.kt:288-291 | two pieces give their letters in order |
| ProfileScreen.FirstTwoPiecesCount | app/src/main/java/edu/ucam/reservashack/ui/screens/profile/ProfileScreen.kt:285-292 | only the first two space-separated words of the trimmed name count |
| ProfileScreen.DoubleSpaceDropsSecondWord | app/src/main/java/edu/ucam/reservashack/ui/screens/profile/ProfileScreen.kt:287-288 | a double space leaves an empty second piece, so only the first word's letter shows |
| ProfileScreen.AvatarSameAsInitials | app/src/main/java/edu/ucam/reservashack/ui/screens/profile/ProfileScreen.kt:234 | replacing an empty alias by "U" before taking initials changes nothing |
| ProfileScreen.InitialsOfU | app/src/main/java/edu/ucam/reservashack/ui/screens/profile/ProfileScreen.kt:285-292 | the initials of "U" are "U" |
| ProfileScreen.AddButtonMatchesStoreCap | app/src/main/java/edu/ucam/reservashack/ui/screens/profile/ProfileScreen.kt:137-154 | the add-account button shows exactly when adding an account would succeed |
| ProfileScreen.SubmittedAlias | app/src/main/java/edu/ucam/reservashack/ui/screens/profile/ProfileScreen.kt:322-326 | confirming submits something exactly when the text is not blank, and then a non-empty text trimmed at both ends |
| ProfileScreen.SubmittedAliasStable | app/src/main/java/edu/ucam/reservashack/ui/screens/profile/ProfileScreen.kt:324 | submitting a submitted alias again gives it back unchanged |

## Left out

- Encryption and platform storage: `MasterKey`, `EncryptedSharedPreferences` and their construction failures are replaced by a plain map. Writes (`apply()`) are visible at once. An undecryptable entry is a distinct value that makes reads fail.
- Firestore and Firebase Auth: the account collection is an in-memory sequence in insertion order. The new document id is a parameter that the caller supplies fresh. `userId` without a signed-in user is not modelled.
- Retrofit, OkHttp transport and the network: each API response is an input record (success flag, code, reason phrase, parsed body). Exceptions thrown by the transport itself are not modelled.
- Gson: JSON numbers are integers. Gson's own exceptions carry their class name as the message.
- Json.Get: the JSON text parser is not modelled, and objects are taken as given. Gson's JsonObject keeps one entry per key, with a repeated key's last value at its first position. On a member list with a repeated key, the model's `Get` returns the first value and the member folds of `LibraryRepository` visit every duplicate. The model agrees with Gson on objects with distinct keys (`Json.GetUnique`).
- `validateJsonOkStatus`: Gson reads a one-element array as its element, so `["ok"]` is also accepted as ok. The model keeps this behaviour (`LibraryRepository.OkStatusShapes`).
- The HTML scraper for the bookings list (`LibraryRepositoryImpl.kt:221-289`), because it depends on Jsoup's CSS-selector semantics.
- `extendBooking` (`LibraryRepositoryImpl.kt:189-219`), because its request body is built by Gson serialisation.
- The user-name regex `extractUserName` and the WebView capture: the extractor is an opaque function parameter of the login.
- Clocks: `System.currentTimeMillis` and `LocalDateTime.now()` become a `now` parameter. One operation reads the clock once.
- Concurrency: coroutines, `GlobalScope.launch`, flows and replay buffers are out. The session-expired emission is a synchronous append to a log, and no ordering against other events is claimed.
- `HomeViewModel.reserveTable` and the reload on the shared reload event, because they are orchestration over coroutines and the shared event bus.
- `HomeViewModel.clearUiEvent` and the UI event field, because they only feed snackbars.
- Compose layout, theming and navigation. Only the pure rules inside `HomeScreen.kt` and `ProfileScreen.kt` are modelled.
- Unicode: `isDigit`, `isWhitespace`, `uppercaseChar`, `lowercase` and string ordering are modelled on ASCII. `URLDecoder` decodes bytes from 0x80 up to U+FFFD instead of UTF-8. Such characters are not legal header values, so OkHttp's check refuses them either way.
- Sorting.SortWith: the model is a stable insertion sort. Kotlin's `sortedWith` is a stable TimSort, so the two agree whenever the comparator is a total preorder, which holds when every table name parses (`Home.ComparePreorder`). When some names do not parse, the comparator is inconsistent and the order Kotlin produces is not modelled. With such a comparator and 32 or more tables, TimSort can also throw `IllegalArgumentException` ("Comparison method violates its general contract"); the model never fails.
- Bookings.CanCheckin: times are whole seconds since midnight of `now`'s date; sub-second precision is not modelled.
- The view-model orchestration files (login, profile, bookings, main view models), because their rules are the account store's and session store's, which are modelled.
