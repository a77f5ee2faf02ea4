/**
 * The pure helpers of the home screen: the time shown for a slot, the
 * table-list header, the four-column grid, the tile label and the guard that
 * opens the booking confirmation.
 */
module HomeScreen {
  import opened Wrappers
  import opened Text
  import opened LibraryModel
  import opened Home

  // ----- getDisplayTime -----

  /** The first piece of a split is the text before the first separator. */
  lemma {:induction false} SplitFirstPiece(s: string, sep: char)
    requires sep in s
    ensures Split(s, sep)[0] == s[..IndexOf(s, sep).value]
  {
    if s[0] != sep {
      assert sep in s[1..] by {
        assert s == [s[0]] + s[1..];
      }
      SplitFirstPiece(s[1..], sep);
      var i := IndexOf(s[1..], sep).value;
      assert s[..i + 1] == [s[0]] + s[1..][..i];
    }
  }

  /** The first `c` of a + [c] + b is at |a| when a has none. */
  lemma {:induction false} IndexOfAfter(a: string, c: char, b: string)
    requires c !in a
    ensures IndexOf(a + [c] + b, c) == Some(|a|)
  {
    if |a| > 0 {
      assert (a + [c] + b)[1..] == a[1..] + [c] + b;
      assert c !in a[1..];
      IndexOfAfter(a[1..], c, b);
    }
  }

  /**
   * getDisplayTime(timeSlots, timeId): the part of the slot key before its
   * first '-'; otherwise the key itself when there are no slots; otherwise
   * the first slot's start, cut to characters 11..15 when it is a full
   * "yyyy-MM-dd HH:mm..." timestamp.
   */
  function DisplayTime(timeSlots: seq<TableStatus>, timeId: string): (r: string)
    ensures '-' in timeId ==> r == timeId[..IndexOf(timeId, '-').value] && '-' !in r
    ensures '-' !in timeId && |timeSlots| == 0 ==> r == timeId
    ensures '-' !in timeId && |timeSlots| > 0 && |timeSlots[0].startTime| < 16 ==> r == timeSlots[0].startTime
    ensures '-' !in timeId && |timeSlots| > 0 && |timeSlots[0].startTime| >= 16 ==> r == timeSlots[0].startTime[11..16]
  {
    if '-' in timeId then
      SplitFirstPiece(timeId, '-');
      Split(timeId, '-')[0]
    else if |timeSlots| == 0 then timeId
    else
      var rawTime := timeSlots[0].startTime;
      if |rawTime| >= 16 then rawTime[11..16] else rawTime
  }

  /** A "start-end" slot key shows its start. */
  lemma DisplayTimeOfSlotKey(timeSlots: seq<TableStatus>, start: string, end: string)
    requires '-' !in start
    ensures DisplayTime(timeSlots, start + "-" + end) == start
  {
    var key := start + "-" + end;
    IndexOfAfter(start, '-', end);
    assert key[..|start|] == start;
  }

  /** A timestamp "yyyy-MM-dd HH:mm..." shows its HH:mm. */
  lemma DisplayTimeOfTimestamp(first: TableStatus, rest: seq<TableStatus>, timeId: string,
                               date: string, hhmm: string, tail: string)
    requires '-' !in timeId
    requires |date| == 10 && |hhmm| == 5
    requires first.startTime == date + " " + hhmm + tail
    ensures DisplayTime([first] + rest, timeId) == hhmm
  {
    assert first.startTime[11..16] == hhmm;
  }

  // ----- the header text (buildString) -----

  function Str(n: int): string {
    IntToString(n)
  }

  /** The availability word, appended only when just the available tables are shown. */
  function AvailabilityWord(showOnlyAvailable: bool): string {
    if showOnlyAvailable then " Disponibles" else ""
  }

  /** The words inside the row-range parentheses, chosen by which bounds are set. */
  function RangeWords(lo: Option<int>, hi: Option<int>): string
    requires lo.Some? || hi.Some?
  {
    if lo.Some? && hi.Some? then
      if lo.value == hi.value then "Fila " + Str(lo.value) else "Filas " + Str(lo.value) + "-" + Str(hi.value)
    else if lo.Some? then "Desde Fila " + Str(lo.value)
    else "Hasta Fila " + Str(hi.value)
  }

  /** The row-range part of the header: " (" + its words + ")", or nothing without bounds. */
  function RowRange(minRowNumber: Option<int>, maxRowNumber: Option<int>): string {
    if minRowNumber.Some? || maxRowNumber.Some? then " (" + RangeWords(minRowNumber, maxRowNumber) + ")" else ""
  }

  /** The `when` of the header: the row range, or ':' when no filter at all is active. */
  function WhenPart(showOnlyAvailable: bool, minRowNumber: Option<int>, maxRowNumber: Option<int>): string {
    if minRowNumber.Some? || maxRowNumber.Some? then RowRange(minRowNumber, maxRowNumber)
    else if !showOnlyAvailable then ":"
    else ""
  }

  /** The header as the screen builds it: "Mesas", the availability word, the `when` part, then ':' when any filter is active. */
  function HeaderText(showOnlyAvailable: bool, minRowNumber: Option<int>, maxRowNumber: Option<int>): string {
    "Mesas" + AvailabilityWord(showOnlyAvailable) + WhenPart(showOnlyAvailable, minRowNumber, maxRowNumber)
      + (if showOnlyAvailable || minRowNumber.Some? || maxRowNumber.Some? then ":" else "")
  }

  /** Whatever the filters, the header is "Mesas", the availability word, the row range and one final ':'. */
  lemma HeaderShape(showOnlyAvailable: bool, minRowNumber: Option<int>, maxRowNumber: Option<int>)
    ensures HeaderText(showOnlyAvailable, minRowNumber, maxRowNumber)
         == "Mesas" + AvailabilityWord(showOnlyAvailable) + RowRange(minRowNumber, maxRowNumber) + ":"
  {
    var word := AvailabilityWord(showOnlyAvailable);
    if minRowNumber.None? && maxRowNumber.None? {
      assert RowRange(minRowNumber, maxRowNumber) == "";
      if showOnlyAvailable {
        assert HeaderText(showOnlyAvailable, minRowNumber, maxRowNumber) == "Mesas" + word + "" + ":";
      } else {
        assert HeaderText(showOnlyAvailable, minRowNumber, maxRowNumber) == "Mesas" + word + ":" + "";
      }
    }
  }

  /** A row range is empty exactly when no bound is set, and otherwise opens with " (". */
  lemma RowRangeOpens(minRowNumber: Option<int>, maxRowNumber: Option<int>)
    ensures var range := RowRange(minRowNumber, maxRowNumber);
      range == "" <==> minRowNumber.None? && maxRowNumber.None?
    ensures var range := RowRange(minRowNumber, maxRowNumber);
      range == "" || (|range| > 2 && range[..2] == " (")
  {
    if minRowNumber.Some? || maxRowNumber.Some? {
      var range := " (" + RangeWords(minRowNumber, maxRowNumber) + ")";
      assert range[..2] == " (";
    }
  }

  lemma NoColonInNumber(n: int)
    ensures ':' !in Str(n)
  {
    var s := Str(n);
    if n < 0 {
      assert s == [s[0]] + s[1..];
      assert forall k :: 0 <= k < |s[1..]| ==> IsDigit(s[1..][k]);
    }
  }

  lemma NoColonConcat(a: string, b: string)
    requires ':' !in a && ':' !in b
    ensures ':' !in a + b
  {
  }

  lemma NoColonInRangeWords(lo: Option<int>, hi: Option<int>)
    requires lo.Some? || hi.Some?
    ensures ':' !in RangeWords(lo, hi)
  {
    if lo.Some? && hi.Some? {
      NoColonInNumber(lo.value);
      NoColonInNumber(hi.value);
      if lo.value == hi.value {
        NoColonConcat("Fila ", Str(lo.value));
      } else {
        NoColonConcat("Filas ", Str(lo.value));
        NoColonConcat("Filas " + Str(lo.value), "-");
        NoColonConcat("Filas " + Str(lo.value) + "-", Str(hi.value));
      }
    } else if lo.Some? {
      NoColonInNumber(lo.value);
      NoColonConcat("Desde Fila ", Str(lo.value));
    } else {
      NoColonInNumber(hi.value);
      NoColonConcat("Hasta Fila ", Str(hi.value));
    }
  }

  lemma NoColonInRowRange(minRowNumber: Option<int>, maxRowNumber: Option<int>)
    ensures ':' !in RowRange(minRowNumber, maxRowNumber)
  {
    if minRowNumber.Some? || maxRowNumber.Some? {
      var words := RangeWords(minRowNumber, maxRowNumber);
      NoColonInRangeWords(minRowNumber, maxRowNumber);
      NoColonConcat(" (", words);
      NoColonConcat(" (" + words, ")");
    }
  }

  lemma NoColonInWords(showOnlyAvailable: bool)
    ensures ':' !in "Mesas" && ':' !in AvailabilityWord(showOnlyAvailable)
  {
    if showOnlyAvailable {
      assert forall k :: 0 <= k < |" Disponibles"| ==> " Disponibles"[k] != ':';
    }
  }

  lemma OneColonAtEnd(p: string, word: string, range: string, h: string)
    requires h == p + word + range + ":" && |p| == 5
    requires ':' !in p && ':' !in word && ':' !in range
    ensures |h| > 5 && h[..5] == p && h[|h| - 1] == ':' && Count(h, ':') == 1
  {
    var pw := p + word;
    var q := pw + range;
    CountZero(p, ':');
    CountZero(word, ':');
    CountZero(range, ':');
    CountAppend(p, word, ':');
    CountAppend(pw, range, ':');
    CountAppend(q, ":", ':');
    assert Count(":", ':') == 1 + Count("", ':');
    assert h == q + ":";
    assert h[..5] == p by {
      assert forall k :: 0 <= k < 5 ==> h[k] == q[k] == pw[k] == p[k];
    }
  }

  /** The header starts with "Mesas" and has exactly one ':', its last character. */
  lemma HeaderOneColonAtEnd(showOnlyAvailable: bool, minRowNumber: Option<int>, maxRowNumber: Option<int>)
    ensures var h := HeaderText(showOnlyAvailable, minRowNumber, maxRowNumber);
      |h| > 5 && h[..5] == "Mesas" && h[|h| - 1] == ':' && Count(h, ':') == 1
  {
    HeaderShape(showOnlyAvailable, minRowNumber, maxRowNumber);
    NoColonInRowRange(minRowNumber, maxRowNumber);
    NoColonInWords(showOnlyAvailable);
    OneColonAtEnd("Mesas", AvailabilityWord(showOnlyAvailable), RowRange(minRowNumber, maxRowNumber), HeaderText(showOnlyAvailable, minRowNumber, maxRowNumber));
  }

  lemma SliceAfter(p: string, x: string, rest: string)
    ensures |p + x + rest| >= |p| + |x| && (p + x + rest)[|p|..|p| + |x|] == x
  {
  }

  /** With only available tables shown, " Disponibles" follows "Mesas". */
  lemma HeaderNamesAvailability(minRowNumber: Option<int>, maxRowNumber: Option<int>)
    ensures var h := HeaderText(true, minRowNumber, maxRowNumber);
      |h| >= 17 && h[5..17] == " Disponibles"
  {
    HeaderShape(true, minRowNumber, maxRowNumber);
    var word := AvailabilityWord(true);
    var range := RowRange(minRowNumber, maxRowNumber);
    SliceAfter("Mesas", word, range + ":");
    assert "Mesas" + word + range + ":" == "Mesas" + word + (range + ":");
  }

  lemma HeaderWithoutWord(p: string, range: string, h: string)
    requires |p| == 5 && h == p + "" + range + ":"
    requires range == "" || (|range| > 2 && range[..2] == " (")
    ensures range == "" ==> h == p + ":"
    ensures range != "" ==> |h| > 7 && h[5..7] == " ("
  {
    assert h == p + (range + ":");
    if range != "" {
      assert h[5] == range[0] && h[6] == range[1];
    }
  }

  /** Otherwise "Mesas" is followed by the final ':' or by the opening " (" of the row range, never by " Disponibles". */
  lemma HeaderWithoutAvailability(minRowNumber: Option<int>, maxRowNumber: Option<int>)
    ensures var h := HeaderText(false, minRowNumber, maxRowNumber);
      h == "Mesas:" || (|h| > 7 && h[5..7] == " (")
  {
    HeaderShape(false, minRowNumber, maxRowNumber);
    RowRangeOpens(minRowNumber, maxRowNumber);
    HeaderWithoutWord("Mesas", RowRange(minRowNumber, maxRowNumber), HeaderText(false, minRowNumber, maxRowNumber));
    assert "Mesas" + ":" == "Mesas:";
  }

  /** Equal bounds name the single row: "(Fila n)". */
  lemma HeaderSingleRow(showOnlyAvailable: bool, n: int)
    ensures HeaderText(showOnlyAvailable, Some(n), Some(n))
         == "Mesas" + AvailabilityWord(showOnlyAvailable) + " (Fila " + Str(n) + "):"
  {
    HeaderShape(showOnlyAvailable, Some(n), Some(n));
    assert RowRange(Some(n), Some(n)) == " (" + ("Fila " + Str(n)) + ")";
    Regroup("Mesas" + AvailabilityWord(showOnlyAvailable), " (", "Fila ", Str(n), ")", ":");
    assert " (" + "Fila " == " (Fila ";
    assert ")" + ":" == "):";
  }

  lemma Regroup(p: string, a: string, b: string, x: string, c: string, d: string)
    ensures p + (a + (b + x) + c) + d == p + (a + b) + x + (c + d)
  {
  }

  // ----- the four-column grid -----

  const Columns: int := 4

  /** Number of grid rows for `n` tables. */
  function GridRows(n: nat): nat {
    (n + 3) / 4
  }

  /** The table index shown in grid row `row`, column `col`. */
  function CellIndex(row: nat, col: nat): nat {
    row * Columns + col
  }

  /** Every table index appears in exactly one cell of the grid. */
  lemma EachTableOnce(n: nat, i: nat)
    requires i < n
    ensures i / 4 < GridRows(n) && CellIndex(i / 4, i % 4) == i
    ensures forall row: nat, col: nat :: col < Columns && CellIndex(row, col) == i ==> row == i / 4 && col == i % 4
  {
    forall row: nat, col: nat | col < Columns && CellIndex(row, col) == i
      ensures row == i / 4 && col == i % 4
    {
      assert i == row * 4 + col;
    }
  }

  /** The grid has no cell beyond its rows and no row made only of spacers. */
  lemma GridIsTight(n: nat)
    ensures forall row: nat, col: nat :: row < GridRows(n) && col < Columns ==> CellIndex(row, col) < GridRows(n) * 4
    ensures n > 0 ==> CellIndex(GridRows(n) - 1, 0) < n
    ensures GridRows(n) * 4 < n + 4 && n <= GridRows(n) * 4
  {
  }

  // ----- the tile label -----

  /** The label transform of a table tile. */
  function TileLabel(name: string): string {
    ReplaceAll(ReplaceAll(ReplaceAll(name, "Fila ", ""), "Mesa ", ""), ";", "\n")
  }

  /** The tile is given the display name, which has no ';' left, so the ';'-to-newline step never adds a line break. */
  lemma TileLabelOfDisplayName(t: TableSlot)
    requires '\n' !in t.name
    ensures '\n' !in TileLabel(DisplayName(t))
    ensures ';' !in TileLabel(DisplayName(t))
  {
    var d := DisplayName(t);
    assert '\n' !in " - ";
    ReplaceKeepsAbsent(t.name, ";", " - ", '\n');
    ReplaceKeepsAbsent(d, "Fila ", "", '\n');
    ReplaceKeepsAbsent(d, "Fila ", "", ';');
    var a := ReplaceAll(d, "Fila ", "");
    ReplaceKeepsAbsent(a, "Mesa ", "", '\n');
    ReplaceKeepsAbsent(a, "Mesa ", "", ';');
    var b := ReplaceAll(a, "Mesa ", "");
    ReplaceCharAbsent(b, ';', "\n");
  }

  // ----- the confirmation guard -----

  /** The id of the first slot entry named like the table, or -1. */
  function RealTableId(slots: Option<seq<TableStatus>>, name: string): (id: int)
    ensures slots.None? || FindByName(slots.value, name).None? ==> id == -1
    ensures slots.Some? && FindByName(slots.value, name).Some? ==> id == FindByName(slots.value, name).value.id
  {
    match slots
    case None => -1
    case Some(s) =>
      match FindByName(s, name)
      case None => -1
      case Some(t) => t.id
  }

  /** The tile's status: the status-map entry, UNKNOWN when missing. */
  function TileStatus(v: ViewState, table: TableSlot): TableStatusUI {
    var statusMap := StatusMap(v);
    if table.name in statusMap then statusMap[table.name] else Unknown
  }

  /** Tapping a tile: the (id, name) pending confirmation, or None when the dialog stays closed. */
  function Tap(v: ViewState, table: TableSlot): (pending: Option<(int, string)>)
    ensures pending.Some? <==> TileStatus(v, table) == Free && RealTableId(SelectedSlots(v), table.name) != -1
    ensures pending.Some? ==> pending.value == (RealTableId(SelectedSlots(v), table.name), table.name)
  {
    var status := TileStatus(v, table);
    var realTableId := RealTableId(SelectedSlots(v), table.name);
    if status == Free && realTableId != -1 then Some((realTableId, table.name)) else None
  }

  /** The dialog opens only for a table whose first slot entry is free and carries a real id (not the -1 default). */
  lemma TapOpensOnlyForFree(v: ViewState, table: TableSlot)
    requires Tap(v, table).Some?
    ensures TableStatusOf(v, table.name) == Free
    ensures SelectedSlots(v).Some? && FindByName(SelectedSlots(v).value, table.name).Some?
    ensures var slot := FindByName(SelectedSlots(v).value, table.name).value;
      slot.isFree && slot.id == Tap(v, table).value.0 && slot.id != -1
  {
    StatusMapAgreesWithTableStatus(v, table.name);
  }
}
