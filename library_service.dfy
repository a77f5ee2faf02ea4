/** The library's domain records: the service, its tables and time slots, and a day's availability. */
module LibraryModel {
  import opened Wrappers
  import opened Text

  /** A table as the service lists it, e.g. name "Fila 1;Mesa 01" and status "0". */
  datatype TableSlot = TableSlot(name: string, status: string)

  datatype TimeSlot = TimeSlot(open: string, close: string, id: Option<string>)

  datatype LibraryService = LibraryService(
    id: int,
    name: string,
    capacity: int,
    tables: seq<TableSlot>,
    timetable: map<string, seq<TimeSlot>>)

  /** One table in one time slot of one day. */
  datatype TableStatus = TableStatus(id: int, name: string, isFree: bool, startTime: string, endTime: string)

  /** A day's time slots, keyed by "start-end". */
  datatype DaySlots = DaySlots(date: string, timeSlots: map<string, seq<TableStatus>>)

  /** getDisplayName: every ';' of the name becomes " - ". */
  function DisplayName(t: TableSlot): (r: string)
    ensures ';' !in r
    ensures |r| == |t.name| + 2 * Count(t.name, ';')
    ensures ';' !in t.name ==> r == t.name
  {
    ReplaceCharRemoves(t.name, ';', " - ");
    ReplaceCharLength(t.name, ';', " - ");
    assert ';' !in t.name ==> ReplaceAll(t.name, ";", " - ") == t.name by {
      if ';' !in t.name {
        ReplaceCharAbsent(t.name, ';', " - ");
      }
    }
    ReplaceAll(t.name, ";", " - ")
  }

  /** A "row;table" name reads as "row - table", e.g. "Fila 1;Mesa 01" as "Fila 1 - Mesa 01". */
  lemma DisplayNameOfRowAndTable(row: string, table: string, status: string)
    requires ';' !in row && ';' !in table
    ensures DisplayName(TableSlot(row + ";" + table, status)) == row + " - " + table
  {
    ReplaceCharAppend(row + ";", table, ';', " - ");
    ReplaceCharAppend(row, ";", ';', " - ");
    ReplaceCharAbsent(row, ';', " - ");
    ReplaceCharAbsent(table, ';', " - ");
    assert ";"[..1] == ";" && ";"[1..] == "";
  }
}
