/**
 * The pure helpers of the profile screen: the avatar initials, the rule that
 * shows the add-account button and the alias dialog's trimming rule.
 */
module ProfileScreen {
  import opened Wrappers
  import opened Text
  import Accounts
  import SessionStore

  // ----- getInitials -----

  /** firstOrNull()?.uppercaseChar() of one piece, as zero or one character. */
  function Letter(piece: string): (r: string)
    ensures |r| <= 1 && (r == "" <==> piece == "")
  {
    if |piece| == 0 then "" else [UpperChar(piece[0])]
  }

  /** mapNotNull + joinToString(""): the letters of the pieces, in order. */
  function Letters(pieces: seq<string>): (r: string)
    ensures |r| <= |pieces|
    ensures forall k :: 0 <= k < |r| ==> !('a' <= r[k] <= 'z')
  {
    if |pieces| == 0 then "" else Letter(pieces[0]) + Letters(pieces[1..])
  }

  /** take(n): the first n pieces, or all when there are fewer. */
  function Take(pieces: seq<string>, n: nat): (r: seq<string>)
    ensures |r| == if |pieces| <= n then |pieces| else n
    ensures r == pieces[..|r|]
  {
    if |pieces| <= n then pieces else pieces[..n]
  }

  /** The initials shown in the avatar: the upper-cased first letters of the first two space-separated words, or "U". */
  function GetInitials(name: string): (r: string)
    ensures 1 <= |r| <= 2
    ensures forall k :: 0 <= k < |r| ==> !('a' <= r[k] <= 'z')
  {
    var letters := Letters(Take(Split(Trim(name), ' '), 2));
    if letters == "" then "U" else letters
  }

  /** A blank name (empty or only whitespace) gives "U". */
  lemma BlankGivesU(name: string)
    requires IsBlank(name)
    ensures GetInitials(name) == "U"
  {
    TrimEmptyIffBlank(name);
    assert Split(Trim(name), ' ') == [""];
    assert Letters([""]) == "" + Letters([]);
  }

  /** A one-word name gives the upper-cased first letter of that word. */
  lemma OneWord(name: string)
    requires ' ' !in Trim(name)
    ensures GetInitials(name) == if Trim(name) == "" then "U" else [UpperChar(Trim(name)[0])]
  {
    var t := Trim(name);
    SplitWithoutSeparator(t, ' ');
    assert Take([t], 2) == [t];
    assert Letters([t]) == Letter(t) + Letters([]);
  }

  /** Surrounding whitespace does not change the initials. */
  lemma InitialsIgnoreSurroundingWhitespace(name: string)
    ensures GetInitials(Trim(name)) == GetInitials(name)
  {
    TrimIdempotent(name);
  }

  lemma LettersOfTwo(a: string, b: string)
    ensures Letters([a, b]) == Letter(a) + Letter(b)
  {
    assert [a, b][1..] == [b];
    assert [b][1..] == [];
  }

  /** A text made of a first piece, a space, a second piece and a tail that starts at a space splits into those two pieces first. */
  lemma SplitTwoPieces(t: string, first: string, second: string, tail: string)
    requires ' ' !in first && ' ' !in second
    requires tail == "" || tail[0] == ' '
    requires t == first + " " + second + tail
    ensures var pieces := Split(t, ' '); |pieces| >= 2 && pieces[0] == first && pieces[1] == second
  {
    assert t == first + [' '] + (second + tail);
    SplitAfterPiece(first, second + tail, ' ');
    if tail == "" {
      assert second + tail == second;
      SplitWithoutSeparator(second, ' ');
    } else {
      assert second + tail == second + [' '] + tail[1..];
      SplitAfterPiece(second, tail[1..], ' ');
    }
  }

  lemma LettersOfFirstTwo(pieces: seq<string>)
    requires |pieces| >= 2
    ensures Letters(Take(pieces, 2)) == Letter(pieces[0]) + Letter(pieces[1])
  {
    assert Take(pieces, 2) == [pieces[0], pieces[1]];
    LettersOfTwo(pieces[0], pieces[1]);
  }

  /**
   * Only the first two pieces of the trimmed name count: whatever follows
   * them, the initials are their letters (or "U" when both are empty).
   */
  lemma FirstTwoPiecesCount(name: string, first: string, second: string, tail: string)
    requires ' ' !in first && ' ' !in second
    requires tail == "" || tail[0] == ' '
    requires Trim(name) == first + " " + second + tail
    ensures GetInitials(name) == if Letter(first) + Letter(second) == "" then "U" else Letter(first) + Letter(second)
  {
    SplitTwoPieces(Trim(name), first, second, tail);
    LettersOfFirstTwo(Split(Trim(name), ' '));
  }

  /** A double space leaves an empty second piece, so "Ana  Lopez" shows only "A". */
  lemma DoubleSpaceDropsSecondWord(name: string, first: string, rest: string)
    requires ' ' !in first && |first| > 0
    requires Trim(name) == first + "  " + rest
    ensures GetInitials(name) == [UpperChar(first[0])]
  {
    assert first + "  " + rest == first + " " + "" + (" " + rest);
    FirstTwoPiecesCount(name, first, "", " " + rest);
  }

  /** The avatar's text, with an empty alias replaced by "U" first. */
  function AvatarText(alias: string): string {
    GetInitials(if alias == "" then "U" else alias)
  }

  lemma InitialsOfU()
    ensures GetInitials("U") == "U"
  {
    TrimUnchanged("U");
    SplitWithoutSeparator("U", ' ');
    var pieces := Split(Trim("U"), ' ');
    assert pieces == ["U"];
    assert Take(pieces, 2) == ["U"];
    assert Letter("U") == "U";
    assert Letters(["U"]) == Letter("U") + Letters([]);
  }

  /** The avatar's ifEmpty { "U" } changes nothing: an empty name already gives "U". */
  lemma AvatarSameAsInitials(alias: string)
    ensures AvatarText(alias) == GetInitials(alias)
  {
    if alias == "" {
      BlankGivesU("");
      InitialsOfU();
    }
  }

  // ----- the add-account button -----

  /** The add-account button is shown while there are fewer than four accounts; otherwise the cap message is. */
  predicate ShowsAddButton(accountCount: nat) {
    accountCount < 4
  }

  /** The screen's rule is the store's cap: the button shows exactly when adding an account would succeed. */
  lemma AddButtonMatchesStoreCap(docs: seq<Accounts.Document>, st: SessionStore.StoreState, account: Accounts.UserAccount, newId: string, now: int)
    ensures ShowsAddButton(|docs|) <==> Accounts.Added(docs, st, account, newId, now).2.Success?
  {
  }

  // ----- the alias dialog -----

  /** The confirm button of the alias dialog is enabled iff the trimmed text is not empty. */
  predicate ConfirmEnabled(aliasText: string) {
    Trim(aliasText) != ""
  }

  /** What confirming submits: the trimmed text, when the button is enabled. */
  function SubmittedAlias(aliasText: string): (r: Option<string>)
    ensures r.Some? <==> !IsBlank(aliasText)
    ensures r.Some? ==> r.value != "" && !IsWhitespace(r.value[0]) && !IsWhitespace(r.value[|r.value| - 1])
  {
    TrimEmptyIffBlank(aliasText);
    if ConfirmEnabled(aliasText) then Some(Trim(aliasText)) else None
  }

  /** Submitting a submitted alias again gives it back unchanged. */
  lemma SubmittedAliasStable(aliasText: string)
    requires SubmittedAlias(aliasText).Some?
    ensures SubmittedAlias(SubmittedAlias(aliasText).value) == SubmittedAlias(aliasText)
  {
    TrimIdempotent(aliasText);
  }
}
