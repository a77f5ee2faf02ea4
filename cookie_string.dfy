/**
 * The parser for a captured `document.cookie` string ("a=1; b=2"), used both
 * when a login is captured and when a stored account's session is reloaded.
 */
module CookieString {
  import opened Wrappers
  import opened Text

  datatype Pair = Pair(name: string, value: string)

  /** The name and value of each piece that has an '=', trimmed; pieces without one are dropped. */
  function Pairs(pieces: seq<string>): (r: seq<Pair>)
    ensures |r| <= |pieces|
  {
    if |pieces| == 0 then []
    else
      var parts := SplitOnce(Trim(pieces[0]), '=');
      (if |parts| == 2 then [Pair(parts[0], parts[1])] else []) + Pairs(pieces[1..])
  }

  /** Kotlin's associate: a map in which a later pair overrides an earlier one with the same name. */
  function Associate(pairs: seq<Pair>): (m: map<string, string>)
    ensures forall k :: k in m <==> exists i :: 0 <= i < |pairs| && pairs[i].name == k
  {
    if |pairs| == 0 then map[]
    else
      var last := pairs[|pairs| - 1];
      var m := Associate(pairs[..|pairs| - 1]);
      assert forall i :: 0 <= i < |pairs| - 1 ==> pairs[..|pairs| - 1][i] == pairs[i];
      m[last.name := last.value]
  }

  /** The value a name gets is the value of its last pair. */
  lemma {:induction false} AssociateLastWins(pairs: seq<Pair>, i: nat)
    requires i < |pairs|
    requires forall j :: i < j < |pairs| ==> pairs[j].name != pairs[i].name
    ensures pairs[i].name in Associate(pairs) && Associate(pairs)[pairs[i].name] == pairs[i].value
  {
    if i < |pairs| - 1 {
      AssociateLastWins(pairs[..|pairs| - 1], i);
    }
  }

  /** parseCookieString: split on ';', trim each piece, cut it at its first '=', keep the pieces that had one. */
  function ParseCookieString(cookieString: string): (r: map<string, string>)
    ensures forall k :: k in r ==> ';' !in k && '=' !in k
  {
    var pairs := Pairs(Split(cookieString, ';'));
    PairsNames(Split(cookieString, ';'));
    Associate(pairs)
  }

  /** A pair whose name holds neither ';' nor '=' and whose value holds no ';'. */
  predicate CleanPair(p: Pair) {
    ';' !in p.name && '=' !in p.name && ';' !in p.value
  }

  lemma {:induction false} PairsNames(pieces: seq<string>)
    requires forall i :: 0 <= i < |pieces| ==> ';' !in pieces[i]
    ensures forall i :: 0 <= i < |Pairs(pieces)| ==> CleanPair(Pairs(pieces)[i])
  {
    if |pieces| > 0 {
      var tail := pieces[1..];
      assert forall i :: 0 <= i < |tail| ==> tail[i] == pieces[i + 1];
      PairsNames(tail);
      var parts := SplitOnce(Trim(pieces[0]), '=');
      PieceFields(pieces[0]);
      var head := if |parts| == 2 then [Pair(parts[0], parts[1])] else [];
      var rest := Pairs(tail);
      assert Pairs(pieces) == head + rest;
      forall i | 0 <= i < |head + rest|
        ensures CleanPair((head + rest)[i])
      {
        if i >= |head| {
          assert (head + rest)[i] == rest[i - |head|];
        }
      }
    }
  }

  lemma {:induction false} PieceFields(piece: string)
    requires ';' !in piece
    ensures var parts := SplitOnce(Trim(piece), '=');
      |parts| == 2 ==> ';' !in parts[0] && '=' !in parts[0] && ';' !in parts[1]
  {
    TrimSubstring(piece);
    var parts := SplitOnce(Trim(piece), '=');
    if |parts| == 2 {
      assert Trim(piece) == parts[0] + ['='] + parts[1];
      assert forall c :: c in parts[0] || c in parts[1] ==> c in Trim(piece);
    }
  }

  /** The characters of a trimmed string all come from the original. */
  lemma {:induction false} TrimSubstring(s: string)
    ensures forall c :: c in Trim(s) ==> c in s
  {
    var t := TrimStart(s);
    assert forall c :: c in t ==> c in s by {
      forall c | c in t ensures c in s {
        var k :| 0 <= k < |t| && t[k] == c;
        assert s[|s| - |t| + k] == c;
      }
    }
    var u := TrimEnd(t);
    forall c | c in u ensures c in t {
      var k :| 0 <= k < |u| && u[k] == c;
      assert t[k] == c;
    }
  }

  /** A pair as it appears in the joined string: its name, '=' and its value. */
  function PairText(p: Pair): string {
    p.name + "=" + p.value
  }

  /** The pieces of a cookie string "n1=v1; n2=v2; …": every piece after the first starts with a space. */
  function Pieces(pairs: seq<Pair>): (r: seq<string>)
    ensures |r| == |pairs|
  {
    seq(|pairs|, i requires 0 <= i < |pairs| => (if i == 0 then "" else " ") + PairText(pairs[i]))
  }

  /** Joins the pairs with "; ", the way a browser renders its cookies. */
  function CookieHeader(pairs: seq<Pair>): string {
    if |pairs| == 0 then "" else Join(Pieces(pairs), ';')
  }

  /** A pair that survives the parser: no ';' anywhere, no '=' in the name, nothing trimmable at either end. */
  predicate Clean(p: Pair) {
    ';' !in p.name && '=' !in p.name && ';' !in p.value &&
    (|p.name| == 0 || !IsWhitespace(p.name[0])) && (|p.value| == 0 || !IsWhitespace(p.value[|p.value| - 1]))
  }

  lemma {:induction false} EqualsAt(name: string, value: string)
    requires '=' !in name
    ensures IndexOf(name + "=" + value, '=') == Some(|name|)
  {
    var t := name + "=" + value;
    assert t[|name|] == '=';
  }

  lemma {:induction false} SplitOnceAtEquals(name: string, value: string)
    requires '=' !in name
    ensures SplitOnce(name + "=" + value, '=') == [name, value]
  {
    var t := name + "=" + value;
    EqualsAt(name, value);
    assert t[..|name|] == name;
    assert t[|name| + 1..] == value;
  }

  lemma {:induction false} TrimPieceText(t: string, lead: string)
    requires |t| > 0 && !IsWhitespace(t[0]) && !IsWhitespace(t[|t| - 1])
    requires lead == "" || lead == " "
    ensures Trim(lead + t) == t
  {
    var x := lead + t;
    if lead == " " {
      assert x[1] == t[0];
      assert WhitespaceEnd(x, 1) == 1;
      assert WhitespaceEnd(x, 0) == 1;
      assert x[1..] == t;
    } else {
      assert x == t;
      assert WhitespaceEnd(x, 0) == 0;
    }
    assert TrimStart(x) == t;
    assert WhitespaceStart(t, |t|) == |t|;
    assert t[..|t|] == t;
  }

  lemma {:induction false} NoSemicolon(p: Pair, lead: string)
    requires ';' !in p.name && ';' !in p.value && (lead == "" || lead == " ")
    ensures ';' !in lead + PairText(p)
  {
    var t := lead + PairText(p);
    forall k | 0 <= k < |t| ensures t[k] != ';' {
      if k < |lead| {
      } else if k < |lead| + |p.name| {
        assert t[k] == p.name[k - |lead|];
      } else if k > |lead| + |p.name| {
        assert t[k] == p.value[k - |lead| - |p.name| - 1];
      }
    }
  }

  lemma {:induction false} PieceParses(p: Pair, lead: string)
    requires Clean(p) && (lead == "" || lead == " ")
    ensures ';' !in lead + PairText(p)
    ensures SplitOnce(Trim(lead + PairText(p)), '=') == [p.name, p.value]
  {
    var t := PairText(p);
    assert t[|p.name|] == '=';
    assert |p.name| > 0 ==> t[0] == p.name[0];
    assert |p.value| > 0 ==> t[|t| - 1] == p.value[|p.value| - 1];
    NoSemicolon(p, lead);
    TrimPieceText(t, lead);
    SplitOnceAtEquals(p.name, p.value);
  }

  /** Pieces that each parse to the pair at the same position give back exactly those pairs. */
  lemma {:induction false} PairsOfParsedPieces(pieces: seq<string>, pairs: seq<Pair>)
    requires |pieces| == |pairs|
    requires forall i :: 0 <= i < |pieces| ==> SplitOnce(Trim(pieces[i]), '=') == [pairs[i].name, pairs[i].value]
    ensures Pairs(pieces) == pairs
  {
    if |pieces| > 0 {
      PairsOfParsedPieces(pieces[1..], pairs[1..]);
      assert [pairs[0]] + pairs[1..] == pairs;
    }
  }

  /** Round trip: parsing a cookie string built from clean pairs gives back the pairs, the last value of a repeated name winning. */
  lemma {:induction false} ParseCookieHeader(pairs: seq<Pair>)
    requires forall i :: 0 <= i < |pairs| ==> Clean(pairs[i])
    ensures ParseCookieString(CookieHeader(pairs)) == Associate(pairs)
  {
    if |pairs| == 0 {
      assert Split("", ';') == [""];
      assert Trim("") == "";
      assert SplitOnce("", '=') == [""];
    } else {
      var pcs := Pieces(pairs);
      forall i | 0 <= i < |pcs|
        ensures ';' !in pcs[i] && SplitOnce(Trim(pcs[i]), '=') == [pairs[i].name, pairs[i].value]
      {
        PieceParses(pairs[i], if i == 0 then "" else " ");
      }
      SplitJoin(pcs, ';');
      PairsOfParsedPieces(pcs, pairs);
    }
  }

  /** With distinct names every pair is found under its name. */
  lemma {:induction false} ParseCookieHeaderLookup(pairs: seq<Pair>, i: nat)
    requires forall j :: 0 <= j < |pairs| ==> Clean(pairs[j])
    requires i < |pairs|
    requires forall j, k :: 0 <= j < k < |pairs| ==> pairs[j].name != pairs[k].name
    ensures pairs[i].name in ParseCookieString(CookieHeader(pairs))
    ensures ParseCookieString(CookieHeader(pairs))[pairs[i].name] == pairs[i].value
  {
    ParseCookieHeader(pairs);
    AssociateLastWins(pairs, i);
  }

  /** A piece without '=' contributes nothing. */
  lemma {:induction false} PieceWithoutEquals(piece: string)
    requires '=' !in Trim(piece)
    ensures Pairs([piece]) == []
  {
    assert [piece][1..] == [];
    assert |SplitOnce(Trim(piece), '=')| == 1;
  }
}
