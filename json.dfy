/**
 * The JSON tree the API returns, with the Gson accessors the repository uses
 * (`has`, `get`, `asString`, `asInt`, `asBoolean`, `asJsonObject`).
 * An object is its member list in document order. A parsed Gson JsonObject
 * holds each key once (`DistinctKeys`); the parse itself is not modelled.
 */
module Json {
  import opened Wrappers
  import opened Text

  datatype Json =
    | Null
    | Bool(b: bool)
    | Num(n: int)
    | Str(s: string)
    | Arr(elems: seq<Json>)
    | Obj(members: seq<Member>)

  datatype Member = Member(key: string, value: Json)

  /** Gson's own exceptions, identified by their class name. */
  const UnsupportedOperation: Exception := Raise("UnsupportedOperationException")
  const IllegalState: Exception := Raise("IllegalStateException")
  const NumberFormat: Exception := Raise("NumberFormatException")
  const ClassCast: Exception := Raise("ClassCastException")

  /** JsonObject.has. */
  predicate Has(members: seq<Member>, key: string) {
    exists i :: 0 <= i < |members| && members[i].key == key
  }

  /** JsonObject.get: the member's value, none when the key is absent. */
  function Get(members: seq<Member>, key: string): (r: Option<Json>)
    ensures r.Some? <==> Has(members, key)
    ensures r.Some? ==> exists i :: 0 <= i < |members| && members[i] == Member(key, r.value)
  {
    if |members| == 0 then None
    else if members[0].key == key then Some(members[0].value)
    else
      var r := Get(members[1..], key);
      assert Has(members, key) ==> Has(members[1..], key) by {
        if Has(members, key) {
          var i :| 0 <= i < |members| && members[i].key == key;
          assert members[1..][i - 1].key == key;
        }
      }
      if r.Some? then
        var i :| 0 <= i < |members| - 1 && members[1..][i] == Member(key, r.value);
        assert members[i + 1] == Member(key, r.value);
        r
      else r
  }

  /** Each key at most once, as in a JsonObject built by Gson's parser. */
  predicate DistinctKeys(members: seq<Member>) {
    forall i, j :: 0 <= i < j < |members| ==> members[i].key != members[j].key
  }

  /** With distinct keys, get(key) is the value of the one member with that key. */
  lemma GetUnique(members: seq<Member>, key: string, i: nat)
    requires DistinctKeys(members)
    requires i < |members| && members[i].key == key
    ensures Get(members, key) == Some(members[i].value)
  {
    assert Has(members, key);
    var j :| 0 <= j < |members| && members[j] == Member(key, Get(members, key).value);
    assert j == i;
  }

  /** `has(key) && get(key).isJsonObject`, returning that object's members. */
  function GetObject(members: seq<Member>, key: string): (r: Option<seq<Member>>)
    ensures r.Some? <==> Get(members, key).Some? && Get(members, key).value.Obj?
    ensures r.Some? ==> Get(members, key).value == Obj(r.value)
  {
    match Get(members, key)
    case Some(Obj(m)) => Some(m)
    case _ => None
  }

  /** Java's narrowing of an integer to 32 bits (two's complement wrap-around). */
  function Wrap32(n: int): (r: int)
    ensures MinInt <= r <= MaxInt
    ensures (r - n) % 0x1_0000_0000 == 0
    ensures MinInt <= n <= MaxInt ==> r == n
  {
    var m := n % 0x1_0000_0000;
    if m > MaxInt then m - 0x1_0000_0000 else m
  }

  /** getAsString: text of a primitive (numbers in their decimal form), or of the single element of an array. */
  function AsString(j: Json): (r: Result<string>)
    ensures j.Str? ==> r == Success(j.s)
    ensures j.Null? || j.Obj? ==> r == Failure(UnsupportedOperation)
    ensures j.Arr? && |j.elems| != 1 ==> r == Failure(IllegalState)
  {
    match j
    case Null => Failure(UnsupportedOperation)
    case Bool(b) => Success(if b then "true" else "false")
    case Num(n) => Success(IntToString(n))
    case Str(s) => Success(s)
    case Arr(elems) => if |elems| == 1 then AsString(elems[0]) else Failure(IllegalState)
    case Obj(_) => Failure(UnsupportedOperation)
  }

  /** getAsInt: a number narrowed to 32 bits, or a string read by Integer.parseInt. */
  function AsInt(j: Json): (r: Result<int>)
    ensures r.Success? ==> MinInt <= r.value <= MaxInt
    ensures j.Num? ==> r == Success(Wrap32(j.n))
    ensures j.Str? ==> r == match ToIntOrNull(j.s) case Some(v) => Success(v) case None => Failure(NumberFormat)
    ensures j.Bool? ==> r == Failure(NumberFormat)
  {
    match j
    case Null => Failure(UnsupportedOperation)
    case Bool(_) => Failure(NumberFormat)
    case Num(n) => Success(Wrap32(n))
    case Str(s) => (match ToIntOrNull(s) case Some(v) => Success(v) case None => Failure(NumberFormat))
    case Arr(elems) => if |elems| == 1 then AsInt(elems[0]) else Failure(IllegalState)
    case Obj(_) => Failure(UnsupportedOperation)
  }

  /** getAsBoolean: a boolean, or Boolean.parseBoolean of the text ("true" in any letter case). */
  function AsBool(j: Json): (r: Result<bool>)
    ensures j.Bool? ==> r == Success(j.b)
    ensures j.Str? ==> r == Success(Lowercase(j.s) == "true")
    ensures j.Num? ==> r == Success(false)
  {
    match j
    case Null => Failure(UnsupportedOperation)
    case Bool(b) => Success(b)
    case Num(n) => Success(false)
    case Str(s) => Success(Lowercase(s) == "true")
    case Arr(elems) => if |elems| == 1 then AsBool(elems[0]) else Failure(IllegalState)
    case Obj(_) => Failure(UnsupportedOperation)
  }

  /** getAsJsonObject on an element: its members, else IllegalStateException. */
  function AsObject(j: Json): (r: Result<seq<Member>>)
    ensures r.Success? <==> j.Obj?
    ensures j.Obj? ==> r.value == j.members
  {
    if j.Obj? then Success(j.members) else Failure(IllegalState)
  }

  /** A field read with a default: `if (o.has(key)) o.get(key).<conversion> else default`. */
  function StringOr(members: seq<Member>, key: string, default: string): (r: Result<string>)
    ensures !Has(members, key) ==> r == Success(default)
    ensures Has(members, key) ==> r == AsString(Get(members, key).value)
  {
    match Get(members, key)
    case None => Success(default)
    case Some(v) => AsString(v)
  }

  function IntOr(members: seq<Member>, key: string, default: int): (r: Result<int>)
    ensures !Has(members, key) ==> r == Success(default)
    ensures Has(members, key) ==> r == AsInt(Get(members, key).value)
  {
    match Get(members, key)
    case None => Success(default)
    case Some(v) => AsInt(v)
  }

  function BoolOr(members: seq<Member>, key: string, default: bool): (r: Result<bool>)
    ensures !Has(members, key) ==> r == Success(default)
    ensures Has(members, key) ==> r == AsBool(Get(members, key).value)
  {
    match Get(members, key)
    case None => Success(default)
    case Some(v) => AsBool(v)
  }

  /** A decimal number's text never reads as "ok", nor does a boolean's. */
  lemma NumberTextIsNotOk(n: int)
    ensures AsString(Num(n)) != Success("ok")
  {
    var t := IntToString(n);
    if n >= 0 {
      assert IsDigit(t[0]);
    } else {
      assert t[0] == '-';
    }
  }

  /** Gson's single-element array delegation: `["x"]` reads like `"x"` in every conversion. */
  lemma SingletonArrayDelegates(j: Json)
    ensures AsString(Arr([j])) == AsString(j)
    ensures AsInt(Arr([j])) == AsInt(j)
    ensures AsBool(Arr([j])) == AsBool(j)
  {
  }

  /** Narrowing agrees with parsing: a number and its decimal text convert to the same int when it fits. */
  lemma NumberAndTextAgree(n: int)
    requires MinInt <= n <= MaxInt
    ensures AsInt(Num(n)) == AsInt(Str(IntToString(n))) == Success(n)
  {
    IntToStringRoundTrip(n);
  }
}
