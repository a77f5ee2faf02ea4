/**
 * The home screen's view model: the loaded library and availability, the
 * selected date and time slot, the table filters, and the pure views the
 * screen draws from them (table status, status map, filtered and sorted
 * tables, row list).
 */
module Home {
  import opened Wrappers
  import opened Text
  import opened LibraryModel
  import opened TableParser
  import opened Sorting
  import RequireActiveAccount

  datatype HomeState =
    | Loading
    | Error(msg: string)
    | Success(library: LibraryService, availability: map<string, DaySlots>)

  datatype TableStatusUI = Free | Occupied | Unknown

  /** Everything the view model holds that the pure views read. */
  datatype ViewState = ViewState(
    state: HomeState,
    selectedDate: Option<string>,
    selectedTimeId: Option<string>,
    showOnlyAvailable: bool,
    minRowNumber: Option<int>,
    maxRowNumber: Option<int>)

  const Initial: ViewState := ViewState(Loading, None, None, true, None, None)

  const LibraryErrorPrefix: string := "Error cargando biblioteca: "
  const AvailabilityErrorPrefix: string := "Error cargando disponibilidad: "
  const ValidationErrorMessage: string := "Error de validación"

  /** A nullable message interpolated into a Kotlin string template: null reads "null". */
  function Interpolated(message: Option<string>): string {
    message.GetOr("null")
  }

  // ----- smallest key of a map (keys.sorted().firstOrNull()) -----

  lemma LessEqReflexive(a: string)
    ensures LessEq(a, a)
  {
    LessEqTotal(a, a);
  }

  lemma LessEqAntisymmetricAll()
    ensures forall a: string, b: string :: LessEq(a, b) && LessEq(b, a) ==> a == b
  {
    forall a: string, b: string | LessEq(a, b) && LessEq(b, a)
      ensures a == b
    {
      LessEqAntisymmetric(a, b);
    }
  }

  lemma {:induction false} SmallestExists(keys: set<string>)
    requires keys != {}
    ensures exists m :: m in keys && forall k :: k in keys ==> LessEq(m, k)
  {
    var x :| x in keys;
    var rest := keys - {x};
    if rest == {} {
      assert keys == {x};
      LessEqReflexive(x);
      assert forall k :: k in keys ==> LessEq(x, k);
    } else {
      SmallestExists(rest);
      var m :| m in rest && forall k :: k in rest ==> LessEq(m, k);
      LessEqTotal(m, x);
      if LessEq(x, m) {
        forall k | k in keys
          ensures LessEq(x, k)
        {
          if k == x {
            LessEqReflexive(x);
          } else {
            LessEqTransitive(x, m, k);
          }
        }
      } else {
        assert forall k :: k in keys ==> LessEq(m, k);
      }
    }
  }

  /** The first of the sorted keys, or None for no keys. */
  function Smallest(keys: set<string>): (r: Option<string>)
    ensures r.None? <==> keys == {}
    ensures r.Some? ==> r.value in keys && forall k :: k in keys ==> LessEq(r.value, k)
  {
    if keys == {} then None
    else
      SmallestExists(keys);
      LessEqAntisymmetricAll();
      var m :| m in keys && forall k :: k in keys ==> LessEq(m, k);
      Some(m)
  }

  /** The auto-selected date: the smallest date key. */
  function FirstDate(availability: map<string, DaySlots>): Option<string> {
    Smallest(availability.Keys)
  }

  /** The auto-selected time: the smallest time key of the selected date's slots. */
  function FirstTime(availability: map<string, DaySlots>, date: Option<string>): Option<string> {
    if date.Some? && date.value in availability then Smallest(availability[date.value].timeSlots.Keys) else None
  }

  /**
   * loadData after its coroutine has finished. `active` is what the
   * active-account guard returns, `libraryResult` what getLibraryInfo returns
   * and `availabilityOf(id)` what getAvailability(id) would return.
   */
  function Loaded(v: ViewState, active: Result<string>, libraryResult: Result<LibraryService>,
                  availabilityOf: int -> Result<map<string, DaySlots>>): (r: ViewState)
    ensures r.showOnlyAvailable == v.showOnlyAvailable && r.minRowNumber == v.minRowNumber && r.maxRowNumber == v.maxRowNumber
    ensures r.state.Success? <==> active.Success? && libraryResult.Success? && availabilityOf(libraryResult.value.id).Success?
    ensures r.state.Success? ==>
      r.state == HomeState.Success(libraryResult.value, availabilityOf(libraryResult.value.id).value)
      && r.selectedDate == FirstDate(r.state.availability)
      && r.selectedTimeId == FirstTime(r.state.availability, r.selectedDate)
    ensures !r.state.Success? ==> r.state.Error? && r.selectedDate == v.selectedDate && r.selectedTimeId == v.selectedTimeId
  {
    match active
    case Failure(e) => v.(state := Error(e.message.GetOr(ValidationErrorMessage)))
    case Success(_) =>
      match libraryResult
      case Failure(e) => v.(state := Error(LibraryErrorPrefix + Interpolated(e.message)))
      case Success(library) =>
        match availabilityOf(library.id)
        case Failure(e) => v.(state := Error(AvailabilityErrorPrefix + Interpolated(e.message)))
        case Success(availability) =>
          var date := FirstDate(availability);
          v.(state := HomeState.Success(library, availability), selectedDate := date, selectedTimeId := FirstTime(availability, date))
  }

  /** The selected date is no later than any other date, the selected time no later than that day's other times; empty availability selects nothing. */
  lemma LoadSelectsEarliest(v: ViewState, active: Result<string>, libraryResult: Result<LibraryService>,
                            availabilityOf: int -> Result<map<string, DaySlots>>)
    requires Loaded(v, active, libraryResult, availabilityOf).state.Success?
    ensures var r := Loaded(v, active, libraryResult, availabilityOf);
      var availability := r.state.availability;
      (availability == map[] ==> r.selectedDate.None? && r.selectedTimeId.None?)
      && (availability != map[] ==>
            r.selectedDate.Some? && r.selectedDate.value in availability
            && (forall d :: d in availability ==> LessEq(r.selectedDate.value, d))
            && (r.selectedTimeId.Some? <==> availability[r.selectedDate.value].timeSlots != map[])
            && (r.selectedTimeId.Some? ==>
                  r.selectedTimeId.value in availability[r.selectedDate.value].timeSlots
                  && forall t :: t in availability[r.selectedDate.value].timeSlots ==> LessEq(r.selectedTimeId.value, t)))
  {
    var r := Loaded(v, active, libraryResult, availabilityOf);
    var availability := r.state.availability;
    if availability == map[] {
      assert availability.Keys == {};
    } else {
      var d :| d in availability;
      assert d in availability.Keys;
      var selected := r.selectedDate.value;
      if availability[selected].timeSlots == map[] {
        assert availability[selected].timeSlots.Keys == {};
      } else {
        var t :| t in availability[selected].timeSlots;
        assert t in availability[selected].timeSlots.Keys;
      }
    }
  }

  /** Without an active account the guard's own message is shown ("Error de validación" is never needed), and the selection is kept. */
  lemma LoadWithoutActiveAccount(v: ViewState, activeAccountId: Option<string>, libraryResult: Result<LibraryService>,
                                 availabilityOf: int -> Result<map<string, DaySlots>>)
    requires activeAccountId.None? || activeAccountId == Some("")
    ensures Loaded(v, RequireActiveAccount.Require(activeAccountId), libraryResult, availabilityOf)
      == v.(state := Error(RequireActiveAccount.NoActiveAccountMessage))
  {
  }

  /** A failed library or availability request shows its message after the matching prefix; a null message reads "null". */
  lemma LoadFailureMessages(v: ViewState, active: Result<string>, libraryResult: Result<LibraryService>,
                            availabilityOf: int -> Result<map<string, DaySlots>>)
    requires active.Success?
    ensures libraryResult.Failure? ==>
      Loaded(v, active, libraryResult, availabilityOf).state == Error(LibraryErrorPrefix + Interpolated(libraryResult.error.message))
    ensures libraryResult.Success? && availabilityOf(libraryResult.value.id).Failure? ==>
      Loaded(v, active, libraryResult, availabilityOf).state
        == Error(AvailabilityErrorPrefix + Interpolated(availabilityOf(libraryResult.value.id).error.message))
    ensures libraryResult.Failure? && libraryResult.error.message.None? ==>
      Loaded(v, active, libraryResult, availabilityOf).state == Error(LibraryErrorPrefix + "null")
  {
  }

  // ----- table status -----

  /** `find { it.name == name }`: the first slot entry with that name. */
  function FindByName(slots: seq<TableStatus>, name: string): (r: Option<TableStatus>)
    ensures r.None? <==> forall i :: 0 <= i < |slots| ==> slots[i].name != name
    ensures r.Some? ==> r.value in slots && r.value.name == name
    ensures forall i :: 0 <= i < |slots| && slots[i].name == name && (forall j :: 0 <= j < i ==> slots[j].name != name)
                        ==> r == Some(slots[i])
  {
    if |slots| == 0 then None
    else if slots[0].name == name then Some(slots[0])
    else
      assert forall i :: 0 < i < |slots| ==> slots[i] == slots[1..][i - 1];
      FindByName(slots[1..], name)
  }

  /** The slot list of the selected date and time, when the state is Success and both keys are present. */
  function SelectedSlots(v: ViewState): Option<seq<TableStatus>> {
    if v.state.Success? && v.selectedDate.Some? && v.selectedDate.value in v.state.availability
       && v.selectedTimeId.Some? && v.selectedTimeId.value in v.state.availability[v.selectedDate.value].timeSlots
    then Some(v.state.availability[v.selectedDate.value].timeSlots[v.selectedTimeId.value])
    else None
  }

  /** getTableStatus(tableName). */
  function TableStatusOf(v: ViewState, tableName: string): (r: TableStatusUI)
    ensures r == Unknown <==> SelectedSlots(v).None? || FindByName(SelectedSlots(v).value, tableName).None?
    ensures r == Free <==> SelectedSlots(v).Some? && FindByName(SelectedSlots(v).value, tableName).Some?
                           && FindByName(SelectedSlots(v).value, tableName).value.isFree
  {
    if !v.state.Success? then Unknown
    else
      match SelectedSlots(v)
      case None => Unknown
      case Some(slots) =>
        match FindByName(slots, tableName)
        case None => Unknown
        case Some(t) => if t.isFree then Free else Occupied
  }

  /** A state other than Success knows no table's status. */
  lemma NoStatusBeforeSuccess(v: ViewState, tableName: string)
    requires !v.state.Success?
    ensures TableStatusOf(v, tableName) == Unknown
  {
  }

  function TableNames(tables: seq<TableSlot>): set<string> {
    set t | t in tables :: t.name
  }

  /** getStatusMap(): one entry per library table, read from the selected slot list (an empty one when missing). */
  function StatusMap(v: ViewState): (r: map<string, TableStatusUI>)
    ensures !v.state.Success? ==> r == map[]
    ensures v.state.Success? ==> r.Keys == TableNames(v.state.library.tables)
    ensures forall name :: name in r ==> r[name] != Unknown
  {
    if !v.state.Success? then map[]
    else
      var slots := SelectedSlots(v).GetOr([]);
      map name | name in TableNames(v.state.library.tables) ::
        if FindByName(slots, name).Some? && FindByName(slots, name).value.isFree then Free else Occupied
  }

  /** The map and getTableStatus agree on FREE; where getTableStatus says UNKNOWN, the map says OCCUPIED. */
  lemma StatusMapAgreesWithTableStatus(v: ViewState, name: string)
    requires name in StatusMap(v)
    ensures StatusMap(v)[name] == Free <==> TableStatusOf(v, name) == Free
    ensures TableStatusOf(v, name) == Unknown ==> StatusMap(v)[name] == Occupied
  {
  }

  // ----- filtering -----

  /** getFilteredTables' filter: free when only available ones are shown, a readable row number, and inside the inclusive row bounds. */
  predicate Keep(v: ViewState, statusMap: map<string, TableStatusUI>, t: TableSlot) {
    (v.showOnlyAvailable ==> (if t.name in statusMap then statusMap[t.name] else Unknown) == Free)
    && ExtractRowNumber(t.name).Some?
    && (v.minRowNumber.Some? ==> ExtractRowNumber(t.name).value >= v.minRowNumber.value)
    && (v.maxRowNumber.Some? ==> ExtractRowNumber(t.name).value <= v.maxRowNumber.value)
  }

  /** The kept tables, in their original order. */
  function FilterTables(v: ViewState, statusMap: map<string, TableStatusUI>, tables: seq<TableSlot>): (r: seq<TableSlot>)
    ensures forall t :: t in r <==> t in tables && Keep(v, statusMap, t)
    ensures |r| <= |tables|
  {
    if |tables| == 0 then []
    else (if Keep(v, statusMap, tables[0]) then [tables[0]] else []) + FilterTables(v, statusMap, tables[1..])
  }

  /** The kept tables are the library's tables that pass the filter, in the library's order. */
  lemma {:induction false} FilterTablesInOrder(v: ViewState, statusMap: map<string, TableStatusUI>, tables: seq<TableSlot>)
    ensures FilterTables(v, statusMap, tables) == Only(tables, (t: TableSlot) => Keep(v, statusMap, t))
    ensures forall t :: multiset(FilterTables(v, statusMap, tables))[t] == if Keep(v, statusMap, t) then multiset(tables)[t] else 0
  {
    if |tables| > 0 {
      FilterTablesInOrder(v, statusMap, tables[1..]);
    }
    forall t {
      OnlyCount(tables, (t: TableSlot) => Keep(v, statusMap, t), t);
    }
  }

  // ----- sorting -----

  function CompareInt(a: int, b: int): int {
    if a < b then -1 else if a > b then 1 else 0
  }

  predicate Parses(t: TableSlot) {
    Parse(t.name).Some?
  }

  /** The sort's comparator: by row, then by table number; 0 when either name does not parse. */
  function Compare(a: TableSlot, b: TableSlot): (r: int)
    ensures !Parses(a) || !Parses(b) ==> r == 0
    ensures Parses(a) && Parses(b) ==>
      var pa := Parse(a.name).value;
      var pb := Parse(b.name).value;
      (r <= 0 <==> pa.rowNumber < pb.rowNumber || (pa.rowNumber == pb.rowNumber && pa.tableNumber <= pb.tableNumber))
  {
    match (Parse(a.name), Parse(b.name))
    case (Some(pa), Some(pb)) =>
      if CompareInt(pa.rowNumber, pb.rowNumber) != 0 then CompareInt(pa.rowNumber, pb.rowNumber)
      else CompareInt(pa.tableNumber, pb.tableNumber)
    case _ => 0
  }

  /** sortedWith(comparator) on the table list. */
  function SortTables(tables: seq<TableSlot>): (r: seq<TableSlot>)
    ensures multiset(r) == multiset(tables)
  {
    SortWith(tables, Compare)
  }

  lemma CompareTransitive(a: TableSlot, b: TableSlot, c: TableSlot)
    requires Parses(a) && Parses(b) && Parses(c)
    requires Compare(a, b) <= 0 && Compare(b, c) <= 0
    ensures Compare(a, c) <= 0
  {
  }

  lemma CompareFlip(a: TableSlot, b: TableSlot)
    requires Compare(a, b) > 0
    ensures Compare(b, a) <= 0
  {
  }

  /** On names that all parse, the comparator is a total preorder. */
  lemma ComparePreorder(tables: seq<TableSlot>)
    requires forall t :: t in tables ==> Parses(t)
    ensures TotalPreorderOn(tables, Compare)
  {
    forall a, b, c | a in tables && b in tables && c in tables && Compare(a, b) <= 0 && Compare(b, c) <= 0
      ensures Compare(a, c) <= 0
    {
      CompareTransitive(a, b, c);
    }
    forall a, b | a in tables && b in tables && Compare(a, b) > 0
      ensures Compare(b, a) <= 0
    {
      CompareFlip(a, b);
    }
  }

  /** Tables whose names parse to the same (row, table) key compare equal. */
  lemma SameKeyCompareEqual(key: ParsedTable)
    ensures EqualWithin((t: TableSlot) => Parse(t.name) == Some(key), Compare)
  {
  }

  /** getFilteredTables(): the kept library tables, sorted; empty before the state is Success. */
  function FilteredTables(v: ViewState): (r: seq<TableSlot>)
    ensures !v.state.Success? ==> r == []
    ensures v.state.Success? ==> multiset(r) == multiset(FilterTables(v, StatusMap(v), v.state.library.tables))
  {
    if !v.state.Success? then []
    else SortTables(FilterTables(v, StatusMap(v), v.state.library.tables))
  }

  /**
   * A table is shown exactly when it is a library table that is free (if
   * only available ones are shown), has a readable row number, and lies in
   * the inclusive row bounds (a missing bound is ignored).
   */
  lemma FilteredMembership(v: ViewState, t: TableSlot)
    requires v.state.Success?
    ensures t in FilteredTables(v) <==>
      t in v.state.library.tables
      && (v.showOnlyAvailable ==> TableStatusOf(v, t.name) == Free)
      && ExtractRowNumber(t.name).Some?
      && (v.minRowNumber.Some? ==> v.minRowNumber.value <= ExtractRowNumber(t.name).value)
      && (v.maxRowNumber.Some? ==> ExtractRowNumber(t.name).value <= v.maxRowNumber.value)
  {
    var kept := FilterTables(v, StatusMap(v), v.state.library.tables);
    assert t in FilteredTables(v) <==> t in multiset(kept);
    if t in v.state.library.tables {
      assert t.name in TableNames(v.state.library.tables);
      StatusMapAgreesWithTableStatus(v, t.name);
    }
  }

  /** When every library name parses, the shown tables are in (row, table) order. */
  lemma FilteredSorted(v: ViewState)
    requires v.state.Success?
    requires forall t :: t in v.state.library.tables ==> Parses(t)
    ensures SortedBy(FilteredTables(v), Compare)
  {
    var kept := FilterTables(v, StatusMap(v), v.state.library.tables);
    ComparePreorder(kept);
    SortWithSorted(kept, Compare);
  }

  /** Shown tables with the same (row, table) key appear in library order. */
  lemma FilteredStable(v: ViewState, key: ParsedTable)
    requires v.state.Success?
    ensures Only(FilteredTables(v), (t: TableSlot) => Parse(t.name) == Some(key))
         == Only(FilterTables(v, StatusMap(v), v.state.library.tables), (t: TableSlot) => Parse(t.name) == Some(key))
    ensures Only(FilteredTables(v), (t: TableSlot) => Parse(t.name) == Some(key))
         == Only(v.state.library.tables, (t: TableSlot) => Keep(v, StatusMap(v), t) && Parse(t.name) == Some(key))
  {
    var tables := v.state.library.tables;
    var sameKey := (t: TableSlot) => Parse(t.name) == Some(key);
    SameKeyCompareEqual(key);
    SortWithStable(FilterTables(v, StatusMap(v), tables), Compare, sameKey);
    FilterTablesInOrder(v, StatusMap(v), tables);
    OnlyBoth(tables, (t: TableSlot) => Keep(v, StatusMap(v), t), sameKey,
      (t: TableSlot) => Keep(v, StatusMap(v), t) && Parse(t.name) == Some(key));
  }

  // ----- the row list -----

  /** mapNotNull { extractRowNumber(it.name) }. */
  function RowList(tables: seq<TableSlot>): (r: seq<int>)
    ensures forall row :: row in r <==> exists t :: t in tables && ExtractRowNumber(t.name) == Some(row)
  {
    if |tables| == 0 then []
    else
      var rest := RowList(tables[1..]);
      assert forall t :: t in tables <==> t == tables[0] || t in tables[1..] by {
        assert tables == [tables[0]] + tables[1..];
      }
      match ExtractRowNumber(tables[0].name)
      case Some(row) => [row] + rest
      case None => rest
  }

  /** getAvailableRows(): the readable row numbers of the library tables, without repeats, ascending. */
  function AvailableRows(v: ViewState): (r: seq<int>)
    ensures forall i, j :: 0 <= i < j < |r| ==> r[i] < r[j]
    ensures !v.state.Success? ==> r == []
    ensures v.state.Success? ==>
      forall row :: row in r <==> exists t :: t in v.state.library.tables && ExtractRowNumber(t.name) == Some(row)
  {
    if !v.state.Success? then [] else DistinctSorted(RowList(v.state.library.tables))
  }

  /** The filter offers only non-negative rows. */
  lemma AvailableRowsNonNegative(v: ViewState)
    ensures forall i :: 0 <= i < |AvailableRows(v)| ==> AvailableRows(v)[i] >= 0
  {
    forall i | 0 <= i < |AvailableRows(v)|
      ensures AvailableRows(v)[i] >= 0
    {
      var row := AvailableRows(v)[i];
      assert row in AvailableRows(v);
      var t :| t in v.state.library.tables && ExtractRowNumber(t.name) == Some(row);
    }
  }

  // ----- the view model object -----

  class HomeViewModel {
    var state: HomeState
    var selectedDate: Option<string>
    var selectedTimeId: Option<string>
    var showOnlyAvailable: bool
    var minRowNumber: Option<int>
    var maxRowNumber: Option<int>
    const requireActiveAccount: RequireActiveAccount.RequireActiveAccountUseCase

    function View(): ViewState
      reads this
    {
      ViewState(state, selectedDate, selectedTimeId, showOnlyAvailable, minRowNumber, maxRowNumber)
    }

    /** The initial flows: Loading, nothing selected, only available tables, no row bounds. */
    constructor (guard: RequireActiveAccount.RequireActiveAccountUseCase)
      ensures View() == Initial && requireActiveAccount == guard
    {
      state := Loading;
      selectedDate := None;
      selectedTimeId := None;
      showOnlyAvailable := true;
      minRowNumber := None;
      maxRowNumber := None;
      requireActiveAccount := guard;
    }

    method SetSelectedDate(date: Option<string>)
      modifies this
      ensures View() == old(View()).(selectedDate := date)
    {
      selectedDate := date;
    }

    method SetSelectedTimeId(timeId: Option<string>)
      modifies this
      ensures View() == old(View()).(selectedTimeId := timeId)
    {
      selectedTimeId := timeId;
    }

    method SetShowOnlyAvailable(show: bool)
      modifies this
      ensures View() == old(View()).(showOnlyAvailable := show)
    {
      showOnlyAvailable := show;
    }

    method SetMinRowNumber(minRow: Option<int>)
      modifies this
      ensures View() == old(View()).(minRowNumber := minRow)
    {
      minRowNumber := minRow;
    }

    method SetMaxRowNumber(maxRow: Option<int>)
      modifies this
      ensures View() == old(View()).(maxRowNumber := maxRow)
    {
      maxRowNumber := maxRow;
    }

    /**
     * loadData(): Loading, then the guard, the library request and the
     * availability request for the library's id; on success the earliest
     * date and time are selected.
     */
    method LoadData(libraryResult: Result<LibraryService>, availabilityOf: int -> Result<map<string, DaySlots>>)
      modifies this
      ensures View() == Loaded(old(View()), RequireActiveAccount.Require(requireActiveAccount.accountRepository.GetActiveAccountId()),
                               libraryResult, availabilityOf)
    {
      state := Loading;
      var active := requireActiveAccount.Invoke();
      if active.Failure? {
        state := Error(active.error.message.GetOr(ValidationErrorMessage));
        return;
      }
      if libraryResult.Failure? {
        state := Error(LibraryErrorPrefix + Interpolated(libraryResult.error.message));
        return;
      }
      var library := libraryResult.value;
      var availabilityResult := availabilityOf(library.id);
      if availabilityResult.Failure? {
        state := Error(AvailabilityErrorPrefix + Interpolated(availabilityResult.error.message));
        return;
      }
      var availability := availabilityResult.value;
      var firstDate := FirstDate(availability);
      selectedDate := firstDate;
      selectedTimeId := FirstTime(availability, firstDate);
      state := HomeState.Success(library, availability);
    }
  }
}
