/**
 * The library repository: the service lookup, the availability normaliser
 * that turns the slots JSON into DaySlots, and the booking, cancel and
 * check-in response checks. Each API response is an input record.
 */
module LibraryRepository {
  import opened Wrappers
  import opened Text
  import opened Json
  import opened LibraryModel
  import opened ServicesDto
  import opened ApiErrorHandling
  import opened Folds

  const LibraryServiceId: int := 845
  const NoServicesMessage: string := "¿No hay servicios disponibles"
  const DefaultTime: string := "00:00"
  const UnnamedTable: string := "Sin nombre"
  const InvalidBookingMessage: string := "Datos de reserva inválidos"
  const UnconfirmedBookingMessage: string := "El servidor respondió pero no confirmó la reserva"
  const CheckinIncompleteMessage: string := "El check-in no se completó correctamente"
  const UnknownErrorMessage: string := "Error desconocido"

  /** An HTTP response: 2xx or not, the status code and reason phrase, and the parsed body if any. */
  datatype Response<T> = Response(isSuccessful: bool, code: int, message: string, body: Option<T>)

  /** The two branches every handler starts with: a 2xx response with a body, or not. */
  predicate Usable<T>(response: Response<T>) {
    response.isSuccessful && response.body.Some?
  }

  // ---------------------------------------------------------------- services

  /** `find { it.id == 845 }`: the first service with the library's id. */
  function FindLibrary(data: seq<ServiceDataDto>): (r: Option<ServiceDataDto>)
    ensures r.None? <==> forall i :: 0 <= i < |data| ==> data[i].id != LibraryServiceId
    ensures r.Some? ==> exists i :: (0 <= i < |data| && data[i] == r.value && r.value.id == LibraryServiceId &&
      forall j :: 0 <= j < i ==> data[j].id != LibraryServiceId)
  {
    if |data| == 0 then None
    else if data[0].id == LibraryServiceId then Some(data[0])
    else
      var r := FindLibrary(data[1..]);
      if r.Some? then
        var i :| 0 <= i < |data| - 1 && data[1..][i] == r.value && r.value.id == LibraryServiceId &&
          forall j :: 0 <= j < i ==> data[1..][j].id != LibraryServiceId;
        assert data[i + 1] == r.value;
        assert forall j :: 0 <= j < i + 1 ==> data[j].id != LibraryServiceId by {
          forall j | 0 <= j < i + 1 ensures data[j].id != LibraryServiceId {
            if j > 0 { assert data[j] == data[1..][j - 1]; }
          }
        }
        r
      else
        assert forall i :: 0 <= i < |data| - 1 ==> data[1..][i] == data[i + 1];
        r
  }

  /** getLibraryInfo: the library (id 845) or else the first service, converted; errors for an empty list or a failed call. */
  function LibraryInfo(response: Response<ServicesResponse>): (r: Result<LibraryService>)
    ensures !Usable(response) ==> r == Failure(Raise("Error API: " + IntToString(response.code) + " - " + response.message))
    ensures Usable(response) && |response.body.value.data| == 0 ==> r == Failure(Raise(NoServicesMessage))
    ensures Usable(response) && |response.body.value.data| > 0 ==> r.Success? && exists i :: 0 <= i < |response.body.value.data| && r.value == ToDomain(response.body.value.data[i])
  {
    if !Usable(response) then Failure(Raise("Error API: " + IntToString(response.code) + " - " + response.message))
    else
      var data := response.body.value.data;
      if |data| == 0 then Failure(Raise(NoServicesMessage))
      else Success(ToDomain(FindLibrary(data).GetOr(data[0])))
  }

  /** The library wins over any earlier service; without it the first service is used. */
  lemma LibraryPreferred(response: Response<ServicesResponse>)
    requires Usable(response) && |response.body.value.data| > 0
    ensures var data := response.body.value.data;
      (exists i :: 0 <= i < |data| && data[i].id == LibraryServiceId) ==> LibraryInfo(response).value.id == LibraryServiceId
    ensures var data := response.body.value.data;
      (forall i :: 0 <= i < |data| ==> data[i].id != LibraryServiceId) ==> LibraryInfo(response) == Success(ToDomain(data[0]))
  {
  }

  // ------------------------------------------------------------ availability

  /** One table entry of a slot's `free` object. */
  function TableOf(value: Json, start: string, end: string): (r: Result<TableStatus>)
    ensures !value.Obj? ==> r.Failure?
    ensures r.Success? ==> r.value.startTime == start && r.value.endTime == end
  {
    match AsObject(value)
    case Failure(e) => Failure(e)
    case Success(table) =>
      match StringOr(table, "name", UnnamedTable)
      case Failure(e) => Failure(e)
      case Success(name) =>
        match IntOr(table, "status", 1)
        case Failure(e) => Failure(e)
        case Success(status) =>
          match IntOr(table, "id", -1)
          case Failure(e) => Failure(e)
          case Success(id) => Success(TableStatus(id, name, status == 0, start, end))
  }

  function TableReader(start: string, end: string): Member -> Result<TableStatus> {
    (entry: Member) => TableOf(entry.value, start, end)
  }

  /** The tables of a slot's `free` object, in member order. */
  function TablesOf(free: seq<Member>, start: string, end: string): Result<seq<TableStatus>> {
    Fold(free, [], ListStep(TableReader(start, end)))
  }

  /** One slot element: its tables filed under "start-end" (none when `free` is missing or not an object). */
  function SlotOf(element: Json): (r: Result<Entry<string, seq<TableStatus>>>)
    ensures !element.Obj? ==> r.Failure?
    ensures r.Success? ==> r.value.Put?
  {
    match AsObject(element)
    case Failure(e) => Failure(e)
    case Success(slot) =>
      match StringOr(slot, "start", DefaultTime)
      case Failure(e) => Failure(e)
      case Success(start) =>
        match StringOr(slot, "end", DefaultTime)
        case Failure(e) => Failure(e)
        case Success(end) =>
          match GetObject(slot, "free")
          case None => Success(Put(start + "-" + end, []))
          case Some(free) =>
            match TablesOf(free, start, end)
            case Failure(e) => Failure(e)
            case Success(tables) => Success(Put(start + "-" + end, tables))
  }

  /** A day's slot array as a map; a later slot with the same id replaces an earlier one. */
  function SlotsOf(elements: seq<Json>): Result<map<string, seq<TableStatus>>> {
    Fold(elements, map[], MapStep(SlotOf))
  }

  /** One date of `freeslots`: an array value becomes that date's DaySlots, anything else is skipped. */
  function DayOf(date: Member): (r: Result<Entry<string, DaySlots>>)
    ensures !date.value.Arr? ==> r == Success(Skip)
    ensures date.value.Arr? && r.Success? ==> r.value.Put? && r.value.key == date.key && r.value.value.date == date.key
    ensures date.value.Arr? ==> (r.Success? <==> SlotsOf(date.value.elems).Success?)
    ensures date.value.Arr? && r.Success? ==> r.value.value.timeSlots == SlotsOf(date.value.elems).value
  {
    if date.value.Arr? then
      match SlotsOf(date.value.elems)
      case Failure(e) => Failure(e)
      case Success(slots) => Success(Put(date.key, DaySlots(date.key, slots)))
    else Success(Skip)
  }

  /** The `freeslots` object as a map from date to DaySlots. */
  function DaysOf(freeslots: seq<Member>): Result<map<string, DaySlots>> {
    Fold(freeslots, map[], MapStep(DayOf))
  }

  /** getAvailability's result for a response. */
  function Availability(response: Response<seq<Member>>): (r: Result<map<string, DaySlots>>)
    ensures !Usable(response) ==> r == Failure(Raise("Error API: " + IntToString(response.code)))
  {
    if !Usable(response) then Failure(Raise("Error API: " + IntToString(response.code)))
    else
      match GetObject(response.body.value, "data")
      case None => Success(map[])
      case Some(data) =>
        match GetObject(data, "freeslots")
        case None => Success(map[])
        case Some(freeslots) => DaysOf(freeslots)
  }

  /** The inner loop: the tables of one slot's `free` object. */
  method ReadTables(free: seq<Member>, start: string, end: string) returns (r: Result<seq<TableStatus>>)
    ensures r == TablesOf(free, start, end)
  {
    var tablesList: seq<TableStatus> := [];
    var i := 0;
    while i < |free|
      invariant 0 <= i <= |free|
      invariant Fold(free[..i], [], ListStep(TableReader(start, end))) == Success(tablesList)
    {
      FoldNext(free, [], ListStep(TableReader(start, end)), i);
      ListStepApply(TableReader(start, end), tablesList, free[i]);
      var table := TableOf(free[i].value, start, end);
      if table.Failure? {
        FoldFailureStays(free, [], ListStep(TableReader(start, end)), i + 1);
        return Failure(table.error);
      }
      tablesList := tablesList + [table.value];
      i := i + 1;
    }
    assert free[..i] == free;
    r := Success(tablesList);
  }

  /** The middle loop: one date's slot array. */
  method ReadSlots(elements: seq<Json>) returns (r: Result<map<string, seq<TableStatus>>>)
    ensures r == SlotsOf(elements)
  {
    var slotsForThisDay: map<string, seq<TableStatus>> := map[];
    var i := 0;
    while i < |elements|
      invariant 0 <= i <= |elements|
      invariant Fold(elements[..i], map[], MapStep(SlotOf)) == Success(slotsForThisDay)
    {
      FoldNext(elements, map[], MapStep(SlotOf), i);
      MapStepApply(SlotOf, slotsForThisDay, elements[i]);
      if !elements[i].Obj? {
        FoldFailureStays(elements, map[], MapStep(SlotOf), i + 1);
        return Failure(IllegalState);
      }
      var slot := elements[i].members;
      var start := StringOr(slot, "start", DefaultTime);
      var end := StringOr(slot, "end", DefaultTime);
      if start.Failure? || end.Failure? {
        FoldFailureStays(elements, map[], MapStep(SlotOf), i + 1);
        return Failure(if start.Failure? then start.error else end.error);
      }
      var timeId := start.value + "-" + end.value;
      var tablesList: seq<TableStatus> := [];
      var free := GetObject(slot, "free");
      if free.Some? {
        var tables := ReadTables(free.value, start.value, end.value);
        if tables.Failure? {
          FoldFailureStays(elements, map[], MapStep(SlotOf), i + 1);
          return Failure(tables.error);
        }
        tablesList := tables.value;
      }
      assert SlotOf(elements[i]) == Success(Put(timeId, tablesList));
      slotsForThisDay := slotsForThisDay[timeId := tablesList];
      i := i + 1;
    }
    assert elements[..i] == elements;
    r := Success(slotsForThisDay);
  }

  /** getAvailability: the outer loop over the dates of `data.freeslots`. */
  method GetAvailability(response: Response<seq<Member>>) returns (r: Result<map<string, DaySlots>>)
    ensures r == Availability(response)
  {
    if !Usable(response) {
      return Failure(Raise("Error API: " + IntToString(response.code)));
    }
    var domainMap: map<string, DaySlots> := map[];
    var data := GetObject(response.body.value, "data");
    if data.None? {
      return Success(domainMap);
    }
    var freeslots := GetObject(data.value, "freeslots");
    if freeslots.None? {
      return Success(domainMap);
    }
    var dates := freeslots.value;
    var i := 0;
    while i < |dates|
      invariant 0 <= i <= |dates|
      invariant Fold(dates[..i], map[], MapStep(DayOf)) == Success(domainMap)
    {
      FoldNext(dates, map[], MapStep(DayOf), i);
      MapStepApply(DayOf, domainMap, dates[i]);
      var dateKey := dates[i].key;
      if dates[i].value.Arr? {
        var slots := ReadSlots(dates[i].value.elems);
        if slots.Failure? {
          FoldFailureStays(dates, map[], MapStep(DayOf), i + 1);
          return Failure(slots.error);
        }
        domainMap := domainMap[dateKey := DaySlots(dateKey, slots.value)];
      }
      i := i + 1;
    }
    assert dates[..i] == dates;
    r := Success(domainMap);
  }

  /** Without an object `data`, or an object `freeslots` inside it, the call succeeds with no days. */
  lemma MissingFreeslotsIsEmpty(response: Response<seq<Member>>)
    requires Usable(response)
    requires GetObject(response.body.value, "data").None? ||
      GetObject(GetObject(response.body.value, "data").value, "freeslots").None?
    ensures Availability(response) == Success(map[])
  {
  }

  /** A table entry with no fields gets the defaults: id -1, "Sin nombre", status 1 (so not free). */
  lemma TableDefaults(start: string, end: string)
    ensures TableOf(Obj([]), start, end) == Success(TableStatus(-1, "Sin nombre", false, start, end))
  {
  }

  /** A table is free exactly when its status reads as 0; a given string name and 32-bit id are kept. */
  lemma TableFields(table: seq<Member>, start: string, end: string)
    requires TableOf(Obj(table), start, end).Success?
    ensures TableOf(Obj(table), start, end).value.isFree <==> IntOr(table, "status", 1) == Success(0)
    ensures Get(table, "name").Some? && Get(table, "name").value.Str? ==>
      TableOf(Obj(table), start, end).value.name == Get(table, "name").value.s
    ensures Get(table, "id").Some? && Get(table, "id").value.Num? && MinInt <= Get(table, "id").value.n <= MaxInt ==>
      TableOf(Obj(table), start, end).value.id == Get(table, "id").value.n
  {
  }

  /** A slot's tables keep the order of its `free` members, each read with the slot's start and end. */
  lemma TablesInOrder(free: seq<Member>, start: string, end: string)
    ensures TablesOf(free, start, end).Success? <==> forall i :: 0 <= i < |free| ==> TableOf(free[i].value, start, end).Success?
    ensures TablesOf(free, start, end).Success? ==> (|TablesOf(free, start, end).value| == |free| &&
      forall i :: 0 <= i < |free| ==> TablesOf(free, start, end).value[i] == TableOf(free[i].value, start, end).value)
  {
    ListFoldItems(free, TableReader(start, end));
  }

  /** A slot without start and end is filed under "00:00-00:00"; one without an object `free` has no tables. */
  lemma SlotDefaults(slot: seq<Member>)
    requires !Has(slot, "start") && !Has(slot, "end")
    ensures SlotOf(Obj(slot)).Success? ==> SlotOf(Obj(slot)).value.key == "00:00-00:00"
    ensures GetObject(slot, "free").None? ==> SlotOf(Obj(slot)) == Success(Put("00:00-00:00", []))
  {
  }

  /** The ids of a day's map are exactly the ids of its slots. */
  lemma SlotsKeys(elements: seq<Json>)
    requires SlotsOf(elements).Success?
    ensures forall k :: k in SlotsOf(elements).value <==> exists j :: 0 <= j < |elements| && PutsKey(SlotOf, elements[j], k)
  {
    MapFoldEntries(elements, SlotOf);
  }

  /** A slot stands in the day's map unless a later slot has its id: the last one wins. */
  lemma SlotsLastWins(elements: seq<Json>, i: nat)
    requires SlotsOf(elements).Success? && i < |elements|
    requires SlotOf(elements[i]).Success?
    requires forall j :: i < j < |elements| ==> !PutsKey(SlotOf, elements[j], SlotOf(elements[i]).value.key)
    ensures SlotOf(elements[i]).value.key in SlotsOf(elements).value
    ensures SlotsOf(elements).value[SlotOf(elements[i]).value.key] == SlotOf(elements[i]).value.value
  {
    MapFoldLastWins(elements, SlotOf, i);
  }

  /** A slot element that is not an object makes the whole call fail. */
  lemma NonObjectSlotFails(response: Response<seq<Member>>, freeslots: seq<Member>, d: nat, s: nat)
    requires Usable(response)
    requires GetObject(response.body.value, "data").Some?
    requires GetObject(GetObject(response.body.value, "data").value, "freeslots") == Some(freeslots)
    requires d < |freeslots| && freeslots[d].value.Arr?
    requires s < |freeslots[d].value.elems| && !freeslots[d].value.elems[s].Obj?
    ensures Availability(response).Failure?
  {
    MapFoldEntries(freeslots[d].value.elems, SlotOf);
    MapFoldEntries(freeslots, DayOf);
  }

  /** A table value that is not an object inside a slot's `free` makes the whole call fail. */
  lemma NonObjectTableFails(response: Response<seq<Member>>, freeslots: seq<Member>, d: nat, s: nat, free: seq<Member>, t: nat)
    requires Usable(response)
    requires GetObject(response.body.value, "data").Some?
    requires GetObject(GetObject(response.body.value, "data").value, "freeslots") == Some(freeslots)
    requires d < |freeslots| && freeslots[d].value.Arr?
    requires s < |freeslots[d].value.elems| && freeslots[d].value.elems[s].Obj?
    requires GetObject(freeslots[d].value.elems[s].members, "free") == Some(free)
    requires t < |free| && !free[t].value.Obj?
    ensures Availability(response).Failure?
  {
    forall start, end ensures TablesOf(free, start, end).Failure? {
      ListFoldItems(free, TableReader(start, end));
    }
    assert SlotOf(freeslots[d].value.elems[s]).Failure?;
    MapFoldEntries(freeslots[d].value.elems, SlotOf);
    MapFoldEntries(freeslots, DayOf);
  }

  /**
   * The days of a successful normalisation: exactly the array-valued dates,
   * each DaySlots carrying its own date and the slots of one such entry.
   */
  lemma DaysAreArrayDates(freeslots: seq<Member>)
    requires DaysOf(freeslots).Success?
    ensures forall k :: k in DaysOf(freeslots).value <==> exists i :: 0 <= i < |freeslots| && freeslots[i].key == k && freeslots[i].value.Arr?
    ensures forall k :: k in DaysOf(freeslots).value ==> DaysOf(freeslots).value[k].date == k
    ensures forall k :: k in DaysOf(freeslots).value ==> exists i :: (0 <= i < |freeslots| && freeslots[i].key == k &&
      freeslots[i].value.Arr? && SlotsOf(freeslots[i].value.elems) == Success(DaysOf(freeslots).value[k].timeSlots))
  {
    MapFoldEntries(freeslots, DayOf);
    var r := DaysOf(freeslots).value;
    forall k | k in r
      ensures exists i :: (0 <= i < |freeslots| && freeslots[i].key == k && freeslots[i].value.Arr? &&
        SlotsOf(freeslots[i].value.elems) == Success(r[k].timeSlots))
      ensures r[k].date == k
    {
      var i :| 0 <= i < |freeslots| && DayOf(freeslots[i]) == Success(Put(k, r[k]));
      assert freeslots[i].value.Arr?;
    }
  }

  // -------------------------------------------------------- booking actions

  /** validateJsonOkStatus: `status` present and reading as "ok"; reading it can throw. */
  function JsonOkStatus(json: seq<Member>): (r: Result<bool>)
    ensures !Has(json, "status") ==> r == Success(false)
    ensures Get(json, "status") == Some(Str("ok")) ==> r == Success(true)
    ensures Get(json, "status").Some? && Get(json, "status").value.Str? && Get(json, "status").value.s != "ok" ==> r == Success(false)
    ensures Get(json, "status").Some? && (Get(json, "status").value.Null? || Get(json, "status").value.Obj?) ==> r.Failure?
  {
    match Get(json, "status")
    case None => Success(false)
    case Some(status) =>
      match AsString(status)
      case Failure(e) => Failure(e)
      case Success(s) => Success(s == "ok")
  }

  /** A numeric status is never "ok", and a one-element array ["ok"] is read like "ok". */
  lemma OkStatusShapes(json: seq<Member>)
    ensures Get(json, "status").Some? && Get(json, "status").value.Num? ==> JsonOkStatus(json) == Success(false)
    ensures Get(json, "status") == Some(Arr([Str("ok")])) ==> JsonOkStatus(json) == Success(true)
  {
    if Get(json, "status").Some? && Get(json, "status").value.Num? {
      NumberTextIsNotOk(Get(json, "status").value.n);
    }
  }

  /** The server's `message`, or "Error desconocido" without one, as the failure of a refused cancel or check-in. */
  function RefusalOf<T>(json: seq<Member>): (r: Result<T>)
    ensures r.Failure?
    ensures !Has(json, "message") ==> r == Failure(Raise(UnknownErrorMessage))
    ensures Get(json, "message").Some? && Get(json, "message").value.Str? ==> r == Failure(Raise(Get(json, "message").value.s))
  {
    match StringOr(json, "message", UnknownErrorMessage)
    case Failure(e) => Failure(e)
    case Success(m) => Failure(Raise(m))
  }

  /** bookTable's result: blank inputs refused before the call, then the ok check and the booking id (or -1). */
  function Booked(date: string, start: string, end: string, response: Response<seq<Member>>): (r: Result<int>)
    ensures IsBlank(date) || IsBlank(start) || IsBlank(end) ==> r == Failure(Raise(InvalidBookingMessage))
    ensures !(IsBlank(date) || IsBlank(start) || IsBlank(end)) && !Usable(response) ==> r == Failure(ErrorFor(response.code, None))
    ensures !(IsBlank(date) || IsBlank(start) || IsBlank(end)) && Usable(response) && JsonOkStatus(response.body.value) == Success(false)
      ==> r == Failure(Raise(UnconfirmedBookingMessage))
    ensures r.Success? ==> JsonOkStatus(response.body.value) == Success(true)
  {
    if IsBlank(date) || IsBlank(start) || IsBlank(end) then Failure(Raise(InvalidBookingMessage))
    else if !Usable(response) then Failure(ErrorFor(response.code, None))
    else
      var json := response.body.value;
      match JsonOkStatus(json)
      case Failure(e) => Failure(e)
      case Success(false) => Failure(Raise(UnconfirmedBookingMessage))
      case Success(true) =>
        match GetObject(json, "data")
        case None => Success(-1)
        case Some(data) => IntOr(data, "booking_id", -1)
  }

  /** An ok booking answer yields `data.booking_id`, or -1 when `data` or the id is missing. */
  lemma BookingId(date: string, start: string, end: string, response: Response<seq<Member>>)
    requires !(IsBlank(date) || IsBlank(start) || IsBlank(end)) && Usable(response)
    requires JsonOkStatus(response.body.value) == Success(true)
    ensures GetObject(response.body.value, "data").None? ==> Booked(date, start, end, response) == Success(-1)
    ensures GetObject(response.body.value, "data").Some? && !Has(GetObject(response.body.value, "data").value, "booking_id") ==>
      Booked(date, start, end, response) == Success(-1)
    ensures (GetObject(response.body.value, "data").Some? && Get(GetObject(response.body.value, "data").value, "booking_id").Some? &&
      Get(GetObject(response.body.value, "data").value, "booking_id").value.Num?) ==>
      Booked(date, start, end, response) == Success(Wrap32(Get(GetObject(response.body.value, "data").value, "booking_id").value.n))
  {
  }

  /** cancelBooking's result: true on an ok answer (`data.result` is ignored), else the refusal or the HTTP error. */
  function Cancelled(response: Response<seq<Member>>): (r: Result<bool>)
    ensures !Usable(response) ==> r == Failure(ErrorFor(response.code, None))
    ensures r.Success? <==> Usable(response) && JsonOkStatus(response.body.value) == Success(true)
    ensures r.Success? ==> r.value
    ensures Usable(response) && JsonOkStatus(response.body.value) == Success(false) ==> r == RefusalOf(response.body.value)
  {
    if !Usable(response) then Failure(ErrorFor(response.code, None))
    else
      var json := response.body.value;
      match JsonOkStatus(json)
      case Failure(e) => Failure(e)
      case Success(true) => Success(true)
      case Success(false) => RefusalOf(json)
  }

  /** `data.result` of an ok check-in answer: false when missing; a non-object `data` throws. */
  function CheckinResult(json: seq<Member>): (r: Result<bool>)
    ensures !Has(json, "data") ==> r == Success(false)
    ensures Get(json, "data").Some? && !Get(json, "data").value.Obj? ==> r == Failure(ClassCast)
    ensures GetObject(json, "data").Some? && !Has(GetObject(json, "data").value, "result") ==> r == Success(false)
  {
    match Get(json, "data")
    case None => Success(false)
    case Some(Obj(data)) => BoolOr(data, "result", false)
    case Some(_) => Failure(ClassCast)
  }

  /** checkinBooking's result: true only for an ok answer whose `data.result` reads as true. */
  function CheckedIn(response: Response<seq<Member>>): (r: Result<bool>)
    ensures !Usable(response) ==> r == Failure(ErrorFor(response.code, None))
    ensures r.Success? <==> (Usable(response) && JsonOkStatus(response.body.value) == Success(true) &&
      CheckinResult(response.body.value) == Success(true))
    ensures r.Success? ==> r.value
    ensures Usable(response) && JsonOkStatus(response.body.value) == Success(true) && CheckinResult(response.body.value) == Success(false)
      ==> r == Failure(Raise(CheckinIncompleteMessage))
    ensures Usable(response) && JsonOkStatus(response.body.value) == Success(false) ==> r == RefusalOf(response.body.value)
  {
    if !Usable(response) then Failure(ErrorFor(response.code, None))
    else
      var json := response.body.value;
      match JsonOkStatus(json)
      case Failure(e) => Failure(e)
      case Success(false) => RefusalOf(json)
      case Success(true) =>
        match CheckinResult(json)
        case Failure(e) => Failure(e)
        case Success(true) => Success(true)
        case Success(false) => Failure(Raise(CheckinIncompleteMessage))
  }

  /** A 401 on any booking action yields the fixed expiry message. */
  lemma UnauthorizedActions(date: string, start: string, end: string, response: Response<seq<Member>>)
    requires response.code == 401 && !response.isSuccessful
    ensures !(IsBlank(date) || IsBlank(start) || IsBlank(end)) ==> Booked(date, start, end, response) == Failure(Raise(SessionExpiredMessage))
    ensures Cancelled(response) == Failure(Raise(SessionExpiredMessage))
    ensures CheckedIn(response) == Failure(Raise(SessionExpiredMessage))
  {
  }

  /** The booking operations that report HTTP failures through the shared error handler. */
  class LibraryRepositoryImpl {
    const errorHandler: ApiErrorHandler

    constructor (handler: ApiErrorHandler)
      ensures errorHandler == handler
    {
      errorHandler := handler;
    }

    /** The session-expired events `handleHttpError` emits when an action reaches it. */
    function HttpErrorEvents(reached: bool, code: int): seq<string>
      reads this, errorHandler, errorHandler.accountRepository, errorHandler.accountRepository.sessionRepository
    {
      if reached then EventsFor(code, errorHandler.accountRepository.GetActiveAccountId()) else []
    }

    method BookTable(date: string, start: string, end: string, response: Response<seq<Member>>) returns (r: Result<int>)
      modifies errorHandler.sharedEvents
      ensures r == Booked(date, start, end, response)
      ensures errorHandler.sharedEvents.sessionExpired == old(errorHandler.sharedEvents.sessionExpired)
        + HttpErrorEvents(!(IsBlank(date) || IsBlank(start) || IsBlank(end)) && !Usable(response), response.code)
    {
      if IsBlank(date) || IsBlank(start) || IsBlank(end) {
        return Failure(Raise(InvalidBookingMessage));
      }
      if !Usable(response) {
        var e := errorHandler.HandleHttpError(response.code, None);
        return Failure(e);
      }
      r := Booked(date, start, end, response);
    }

    method CancelBooking(response: Response<seq<Member>>) returns (r: Result<bool>)
      modifies errorHandler.sharedEvents
      ensures r == Cancelled(response)
      ensures errorHandler.sharedEvents.sessionExpired == old(errorHandler.sharedEvents.sessionExpired)
        + HttpErrorEvents(!Usable(response), response.code)
    {
      if !Usable(response) {
        var e := errorHandler.HandleHttpError(response.code, None);
        return Failure(e);
      }
      r := Cancelled(response);
    }

    method CheckinBooking(response: Response<seq<Member>>) returns (r: Result<bool>)
      modifies errorHandler.sharedEvents
      ensures r == CheckedIn(response)
      ensures errorHandler.sharedEvents.sessionExpired == old(errorHandler.sharedEvents.sessionExpired)
        + HttpErrorEvents(!Usable(response), response.code)
    {
      if !Usable(response) {
        var e := errorHandler.HandleHttpError(response.code, None);
        return Failure(e);
      }
      r := CheckedIn(response);
    }
  }
}
