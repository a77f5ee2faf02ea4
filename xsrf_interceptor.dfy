/**
 * The request interceptor: it adds browser-like fixed headers to every request
 * and copies the stored XSRF token, URL-decoded, into the X-XSRF-TOKEN header.
 */
module XsrfInterceptor {
  import opened Wrappers
  import opened Text
  import opened Sessions
  import opened SessionStore

  const UserAgent: string := "Mozilla/5.0 (Linux; Android 10; K) AppleWebKit/537.36 (KHTML, like Gecko) Chrome/120.0.0.0 Mobile Safari/537.36"
  const AcceptValue: string := "application/json, text/plain, */*"
  const RequestedWithValue: string := "XMLHttpRequest"
  const XsrfHeaderName: string := "X-XSRF-TOKEN"

  /** Header lines in order; names compare without regard to ASCII case. */
  type Headers = seq<(string, string)>

  datatype Request = Request(verb: string, url: string, headers: Headers, body: Option<string>)

  /** The characters an HTTP header value may hold: tab and printable ASCII. */
  predicate HeaderChar(c: char) {
    c == '\t' || (' ' <= c <= '~')
  }

  predicate ValidHeaderValue(v: string) {
    |v| == 0 || (HeaderChar(v[0]) && ValidHeaderValue(v[1..]))
  }

  lemma {:induction false} ValidHeaderValueAt(v: string, k: nat)
    requires ValidHeaderValue(v) && k < |v|
    ensures HeaderChar(v[k])
  {
    if k > 0 {
      ValidHeaderValueAt(v[1..], k - 1);
    }
  }

  predicate SameName(a: string, b: string) {
    Lowercase(a) == Lowercase(b)
  }

  /** The headers whose name is not `name`. */
  function Without(hs: Headers, name: string): (r: Headers)
    ensures forall i :: 0 <= i < |r| ==> !SameName(r[i].0, name)
    ensures forall h :: h in r ==> h in hs
  {
    if |hs| == 0 then []
    else (if SameName(hs[0].0, name) then [] else [hs[0]]) + Without(hs[1..], name)
  }

  /** The values of every header called `name`, in order. */
  function Values(hs: Headers, name: string): seq<string> {
    if |hs| == 0 then []
    else (if SameName(hs[0].0, name) then [hs[0].1] else []) + Values(hs[1..], name)
  }

  /** Every header called `name` replaced by the one given. */
  function Replace(hs: Headers, name: string, value: string): (r: Headers)
    ensures |r| > 0 && r[|r| - 1] == (name, value)
  {
    Without(hs, name) + [(name, value)]
  }

  /**
   * Request.Builder.header(name, value): Replace, after the check that refuses
   * an illegal value with an exception.
   */
  function SetHeader(hs: Headers, name: string, value: string): (r: Result<Headers>)
    ensures r.Failure? <==> !ValidHeaderValue(value)
  {
    if ValidHeaderValue(value) then Success(Replace(hs, name, value))
    else Failure(Exception(Some("Unexpected char in header value")))
  }

  lemma {:induction false} ValuesAppend(a: Headers, b: Headers, name: string)
    ensures Values(a + b, name) == Values(a, name) + Values(b, name)
  {
    if |a| > 0 {
      assert (a + b)[1..] == a[1..] + b;
      ValuesAppend(a[1..], b, name);
    } else {
      assert a + b == b;
    }
  }

  lemma {:induction false} ValuesWithout(hs: Headers, name: string, other: string)
    ensures Values(Without(hs, name), name) == []
    ensures !SameName(other, name) ==> Values(Without(hs, name), other) == Values(hs, other)
  {
    if |hs| > 0 {
      ValuesWithout(hs[1..], name, other);
      ValuesAppend(if SameName(hs[0].0, name) then [] else [hs[0]], Without(hs[1..], name), name);
      ValuesAppend(if SameName(hs[0].0, name) then [] else [hs[0]], Without(hs[1..], name), other);
    }
  }

  /** After header(name, value) the request has exactly that one value under `name` and the same values under every other name. */
  lemma ReplaceValues(hs: Headers, name: string, value: string, other: string)
    ensures Values(Replace(hs, name, value), name) == [value]
    ensures !SameName(other, name) ==> Values(Replace(hs, name, value), other) == Values(hs, other)
  {
    ValuesWithout(hs, name, other);
    ValuesAppend(Without(hs, name), [(name, value)], name);
    ValuesAppend(Without(hs, name), [(name, value)], other);
  }

  predicate IsHexDigit(c: char) {
    ('0' <= c <= '9') || ('a' <= c <= 'f') || ('A' <= c <= 'F')
  }

  function HexValue(c: char): (r: nat)
    requires IsHexDigit(c)
    ensures r < 16
  {
    if '0' <= c <= '9' then c as int - '0' as int
    else if 'a' <= c <= 'f' then c as int - 'a' as int + 10
    else c as int - 'A' as int + 10
  }

  /**
   * The byte of an escape `%c1c2`, read the way Integer.parseInt(_, 16) reads two
   * characters: two hex digits, or a sign followed by one digit. A negative value is refused.
   */
  function EscapeByte(c1: char, c2: char): (r: Option<nat>)
    ensures r.Some? ==> r.value < 256
    ensures IsHexDigit(c1) && IsHexDigit(c2) ==> r == Some(16 * HexValue(c1) + HexValue(c2))
  {
    if IsHexDigit(c1) && IsHexDigit(c2) then Some(16 * HexValue(c1) + HexValue(c2))
    else if c1 == '+' && IsHexDigit(c2) then Some(HexValue(c2))
    else if c1 == '-' && c2 == '0' then Some(0)
    else None
  }

  /** A decoded byte as a character: ASCII stays, any other byte becomes the replacement character. */
  function ByteChar(b: nat): char
    requires b < 256
  {
    if b < 0x80 then b as char else '\U{FFFD}'
  }

  /**
   * URLDecoder.decode(s, "UTF-8"): '+' is a space, `%XY` a byte; a malformed or
   * truncated escape makes the whole call fail (None).
   */
  function UrlDecode(s: string): (r: Option<string>)
    ensures r.Some? ==> |r.value| <= |s|
  {
    if |s| == 0 then Some("")
    else if s[0] == '+' then
      match UrlDecode(s[1..]) case None => None case Some(t) => Some([' '] + t)
    else if s[0] == '%' then
      if |s| < 3 then None
      else match EscapeByte(s[1], s[2])
        case None => None
        case Some(b) =>
          match UrlDecode(s[3..]) case None => None case Some(t) => Some([ByteChar(b)] + t)
    else
      match UrlDecode(s[1..]) case None => None case Some(t) => Some([s[0]] + t)
  }

  predicate IsAscii(s: string) {
    forall k :: 0 <= k < |s| ==> s[k] < '\U{80}'
  }

  function HexChar(d: nat): (c: char)
    requires d < 16
    ensures IsHexDigit(c) && HexValue(c) == d
  {
    if d < 10 then ('0' as int + d) as char else ('A' as int + d - 10) as char
  }

  predicate Unreserved(c: char) {
    ('a' <= c <= 'z') || ('A' <= c <= 'Z') || ('0' <= c <= '9') || c == '.' || c == '-' || c == '*' || c == '_'
  }

  /** URLEncoder.encode on ASCII text, the encoding the backend applies to the token cookie. */
  function UrlEncode(s: string): string
    requires IsAscii(s)
  {
    if |s| == 0 then ""
    else
      var c := s[0];
      var head := if Unreserved(c) then [c]
                  else if c == ' ' then "+"
                  else "%" + [HexChar(c as int / 16), HexChar(c as int % 16)];
      head + UrlEncode(s[1..])
  }

  /** Decoding undoes encoding: an encoded ASCII token decodes back to itself. */
  lemma {:induction false} DecodeEncode(s: string)
    requires IsAscii(s)
    ensures UrlDecode(UrlEncode(s)) == Some(s)
  {
    if |s| > 0 {
      var c := s[0];
      var rest := UrlEncode(s[1..]);
      DecodeEncode(s[1..]);
      if Unreserved(c) {
        assert UrlEncode(s) == [c] + rest;
        assert (UrlEncode(s))[1..] == rest;
      } else if c == ' ' {
        assert UrlEncode(s) == "+" + rest;
        assert (UrlEncode(s))[1..] == rest;
      } else {
        var e := UrlEncode(s);
        assert e == "%" + [HexChar(c as int / 16), HexChar(c as int % 16)] + rest;
        assert e[3..] == rest;
        assert EscapeByte(e[1], e[2]) == Some(c as int);
      }
      assert [c] + s[1..] == s;
    }
  }

  /** A token with no '%' and no '+' is its own decoding. */
  lemma {:induction false} PlainTokenUnchanged(s: string)
    requires '%' !in s && '+' !in s
    ensures UrlDecode(s) == Some(s)
  {
    if |s| > 0 {
      assert '%' !in s[1..] && '+' !in s[1..];
      PlainTokenUnchanged(s[1..]);
      assert [s[0]] + s[1..] == s;
    }
  }

  /** The X-XSRF-TOKEN value for a stored token: the decoded text when it is a legal header value, else the raw token; neither legal fails. */
  function TokenHeaderValue(token: string): (r: Result<string>)
    ensures r.Success? ==> ValidHeaderValue(r.value)
    ensures r.Success? ==> r.value == token || UrlDecode(token) == Some(r.value)
    ensures UrlDecode(token).Some? && ValidHeaderValue(UrlDecode(token).value) ==> r == Success(UrlDecode(token).value)
    ensures r.Failure? <==> !ValidHeaderValue(token) && !(UrlDecode(token).Some? && ValidHeaderValue(UrlDecode(token).value))
  {
    var decoded := UrlDecode(token);
    if decoded.Some? && ValidHeaderValue(decoded.value) then Success(decoded.value)
    else if ValidHeaderValue(token) then Success(token)
    else Failure(Exception(Some("Unexpected char in header value")))
  }

  /** The three fixed headers, set one after the other; their values are legal constants, so the check cannot refuse them. */
  function WithFixedHeaders(hs: Headers): Headers {
    Replace(Replace(Replace(hs, "User-Agent", UserAgent), "Accept", AcceptValue), "X-Requested-With", RequestedWithValue)
  }

  /** intercept at time `now`: the store after getSession and the request handed on (or the exception thrown). */
  function Intercepted(st: StoreState, original: Request, now: int): (r: (StoreState, Result<Request>))
    ensures r.0 == Get(st, now).0
    ensures r.1.Success? ==> r.1.value.verb == original.verb && r.1.value.url == original.url && r.1.value.body == original.body
  {
    var fixed := WithFixedHeaders(original.headers);
    var (read, session) := Get(st, now);
    if session.None? || session.value.xsrfToken.None? then (read, Success(original.(headers := fixed)))
    else
      match TokenHeaderValue(session.value.xsrfToken.value)
      case Failure(e) => (read, Failure(e))
      case Success(v) => (read, Success(original.(headers := Replace(fixed, XsrfHeaderName, v))))
  }

  /** Names of different lengths never match, whatever their case. */
  lemma LengthsDiffer(a: string, b: string)
    requires |a| != |b|
    ensures !SameName(a, b)
  {
    assert |Lowercase(a)| != |Lowercase(b)|;
  }

  lemma FixedNamesDistinct()
    ensures !SameName("User-Agent", "Accept") && !SameName("User-Agent", "X-Requested-With") && !SameName("User-Agent", XsrfHeaderName)
    ensures !SameName("Accept", "X-Requested-With") && !SameName("Accept", XsrfHeaderName)
    ensures !SameName("X-Requested-With", XsrfHeaderName)
  {
    assert |"User-Agent"| == 10 && |"Accept"| == 6 && |"X-Requested-With"| == 16 && |XsrfHeaderName| == 12;
    LengthsDiffer("User-Agent", "Accept");
    LengthsDiffer("User-Agent", "X-Requested-With");
    LengthsDiffer("User-Agent", XsrfHeaderName);
    LengthsDiffer("Accept", "X-Requested-With");
    LengthsDiffer("Accept", XsrfHeaderName);
    LengthsDiffer("X-Requested-With", XsrfHeaderName);
  }

  /**
   * The request handed on carries each fixed header once, the token header exactly
   * when a session with a token is stored, and every other header of the original.
   */
  lemma InterceptedHeaders(st: StoreState, original: Request, now: int, other: string)
    requires Intercepted(st, original, now).1.Success?
    ensures var hs := Intercepted(st, original, now).1.value.headers;
      Values(hs, "User-Agent") == [UserAgent] &&
      Values(hs, "Accept") == [AcceptValue] &&
      Values(hs, "X-Requested-With") == [RequestedWithValue]
    ensures var hs := Intercepted(st, original, now).1.value.headers;
      var session := Get(st, now).1;
      if session.Some? && session.value.xsrfToken.Some?
      then Values(hs, XsrfHeaderName) == [TokenHeaderValue(session.value.xsrfToken.value).value]
      else Values(hs, XsrfHeaderName) == Values(original.headers, XsrfHeaderName)
    ensures !SameName(other, "User-Agent") && !SameName(other, "Accept") && !SameName(other, "X-Requested-With") && !SameName(other, XsrfHeaderName) ==>
      Values(Intercepted(st, original, now).1.value.headers, other) == Values(original.headers, other)
  {
    var h0 := original.headers;
    var h1 := Replace(h0, "User-Agent", UserAgent);
    var h2 := Replace(h1, "Accept", AcceptValue);
    var h3 := Replace(h2, "X-Requested-With", RequestedWithValue);
    FixedNamesDistinct();
    ReplaceValues(h0, "User-Agent", UserAgent, "Accept");
    ReplaceValues(h0, "User-Agent", UserAgent, "X-Requested-With");
    ReplaceValues(h0, "User-Agent", UserAgent, XsrfHeaderName);
    ReplaceValues(h0, "User-Agent", UserAgent, other);
    ReplaceValues(h1, "Accept", AcceptValue, "User-Agent");
    ReplaceValues(h1, "Accept", AcceptValue, "X-Requested-With");
    ReplaceValues(h1, "Accept", AcceptValue, XsrfHeaderName);
    ReplaceValues(h1, "Accept", AcceptValue, other);
    ReplaceValues(h2, "X-Requested-With", RequestedWithValue, "User-Agent");
    ReplaceValues(h2, "X-Requested-With", RequestedWithValue, "Accept");
    ReplaceValues(h2, "X-Requested-With", RequestedWithValue, XsrfHeaderName);
    ReplaceValues(h2, "X-Requested-With", RequestedWithValue, other);
    var session := Get(st, now).1;
    if session.Some? && session.value.xsrfToken.Some? {
      var v := TokenHeaderValue(session.value.xsrfToken.value).value;
      ReplaceValues(h3, XsrfHeaderName, v, "User-Agent");
      ReplaceValues(h3, XsrfHeaderName, v, "Accept");
      ReplaceValues(h3, XsrfHeaderName, v, "X-Requested-With");
      ReplaceValues(h3, XsrfHeaderName, v, other);
    }
  }

  /** An interception fails only on a stored token that is not a legal header value either raw or decoded. */
  lemma InterceptFailsOnlyOnIllegalToken(st: StoreState, original: Request, now: int)
    requires Intercepted(st, original, now).1.Failure?
    ensures Get(st, now).1.Some? && Get(st, now).1.value.xsrfToken.Some?
    ensures TokenHeaderValue(Get(st, now).1.value.xsrfToken.value).Failure?
  {
  }

  class XSRFInterceptor {
    const sessionRepository: EncryptedSessionRepository

    constructor (repository: EncryptedSessionRepository)
      ensures sessionRepository == repository
    {
      sessionRepository := repository;
    }

    /** Builds the request handed to the rest of the chain; the response it brings back is not modelled. */
    method Intercept(original: Request, now: int) returns (forwarded: Result<Request>)
      modifies sessionRepository
      ensures (sessionRepository.State(), forwarded) == Intercepted(old(sessionRepository.State()), original, now)
    {
      ghost var before := sessionRepository.State();
      var headers := WithFixedHeaders(original.headers);
      var session := sessionRepository.GetSession(now);
      assert Intercepted(before, original, now).0 == sessionRepository.State();
      if session.Some? && session.value.xsrfToken.Some? {
        var encodedToken := session.value.xsrfToken.value;
        var value := TokenHeaderValue(encodedToken);
        if value.Failure? {
          return Failure(value.error);
        }
        headers := Replace(headers, XsrfHeaderName, value.value);
      }
      forwarded := Success(original.(headers := headers));
    }
  }
}
