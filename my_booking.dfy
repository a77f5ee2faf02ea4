/**
 * A user's booking: the status vocabulary, whether it may be cancelled and
 * the two check-in windows.
 *
 * Times are whole seconds since midnight of the current date (the date of
 * `now`); a booking's start and end are "HH:mm" texts placed on that date.
 */
module Bookings {
  import opened Wrappers
  import opened Text

  datatype BookingStatus = Aceptado | Dentro | Ausente | Terminado | Cancelado | Unknown

  /** The enum's displayName. */
  function DisplayName(s: BookingStatus): string {
    match s
    case Aceptado => "Aceptado"
    case Dentro => "Dentro"
    case Ausente => "Ausente"
    case Terminado => "Terminado"
    case Cancelado => "Cancelado"
    case Unknown => "Desconocido"
  }

  /** The lower-case word the server uses for a known status. */
  function Keyword(s: BookingStatus): string
    requires s != Unknown
  {
    match s
    case Aceptado => "aceptado"
    case Dentro => "dentro"
    case Ausente => "ausente"
    case Terminado => "terminado"
    case Cancelado => "cancelado"
  }

  /** The status a trimmed, lower-cased word names, matched against the fixed vocabulary. */
  function FromWord(t: string): (r: BookingStatus)
    ensures r != Unknown ==> t == Keyword(r)
    ensures r == Unknown ==> forall s :: s != Unknown ==> t != Keyword(s)
  {
    if t == "aceptado" then Aceptado
    else if t == "dentro" then Dentro
    else if t == "ausente" then Ausente
    else if t == "terminado" then Terminado
    else if t == "cancelado" then Cancelado
    else Unknown
  }

  /** BookingStatus.from: the trimmed, lower-cased text matched against the fixed vocabulary. */
  function From(text: string): (r: BookingStatus)
    ensures r != Unknown ==> Lowercase(Trim(text)) == Keyword(r)
    ensures r == Unknown ==> forall s :: s != Unknown ==> Lowercase(Trim(text)) != Keyword(s)
  {
    FromWord(Lowercase(Trim(text)))
  }

  /** Surrounding whitespace never changes the status. */
  lemma FromIgnoresSurroundingWhitespace(text: string)
    ensures From(Trim(text)) == From(text)
  {
    TrimIdempotent(text);
  }

  /** The five keywords are distinct, and none is as long as "desconocido". */
  lemma KeywordsDistinct()
    ensures forall a, b :: a != Unknown && b != Unknown && Keyword(a) == Keyword(b) ==> a == b
    ensures forall a :: a != Unknown ==> |Keyword(a)| != 11
  {
    forall a, b | a != Unknown && b != Unknown && Keyword(a) == Keyword(b)
      ensures a == b
    {
      assert |Keyword(a)| == |Keyword(b)| && Keyword(a)[0] == Keyword(b)[0];
    }
  }

  /** Each keyword names its own status; "desconocido" names none. */
  lemma FromWordKeyword(s: BookingStatus)
    ensures FromWord(if s == Unknown then "desconocido" else Keyword(s)) == s
  {
    KeywordsDistinct();
  }

  /** Each status's display name reads back as that status ("Desconocido" as UNKNOWN). */
  lemma FromDisplayName(s: BookingStatus)
    ensures From(DisplayName(s)) == s
  {
    TrimUnchanged(DisplayName(s));
    LowercaseDisplayName(s);
    FromWordKeyword(s);
  }

  /** A word whose first letter alone is upper-case lower-cases to `lower`. */
  lemma LowercaseWord(w: string, lower: string)
    requires |w| == |lower| > 0 && lower[0] == LowerChar(w[0])
    requires forall k :: 1 <= k < |w| ==> w[k] == lower[k] && !('A' <= w[k] <= 'Z')
    ensures Lowercase(w) == lower
  {
  }

  /** The lower-cased display name: the status keyword, or "desconocido". */
  lemma LowercaseDisplayName(s: BookingStatus)
    ensures Lowercase(DisplayName(s)) == if s == Unknown then "desconocido" else Keyword(s)
  {
    LowercaseWord(DisplayName(s), if s == Unknown then "desconocido" else Keyword(s));
  }

  /**
   * A booking as read from the bookings page. `reservationTime` is when the
   * booking was made, on the same seconds scale (it may lie on another day,
   * so it is any integer), or None when unknown.
   */
  datatype MyBooking = MyBooking(
    id: int,
    date: string,
    startTime: string,
    endTime: string,
    location: string,
    tableName: string,
    statusText: string,
    status: BookingStatus,
    reservationTime: Option<int>)

  /** The constructor with its default arguments: `status = from(statusText)`. */
  function NewBooking(id: int, date: string, startTime: string, endTime: string, location: string,
                      tableName: string, statusText: string, reservationTime: Option<int>): (b: MyBooking)
    ensures b.status == From(statusText)
    ensures b.statusText == statusText && b.startTime == startTime && b.endTime == endTime
    ensures b.reservationTime == reservationTime
  {
    MyBooking(id, date, startTime, endTime, location, tableName, statusText, From(statusText), reservationTime)
  }

  predicate CanCancel(b: MyBooking) {
    b.status == Aceptado
  }

  /** A booking built from its status text can be cancelled exactly when that text is "aceptado" in any case and spacing. */
  lemma CancelFromStatusText(id: int, date: string, startTime: string, endTime: string, location: string,
                             tableName: string, statusText: string, reservationTime: Option<int>)
    ensures CanCancel(NewBooking(id, date, startTime, endTime, location, tableName, statusText, reservationTime))
        <==> Lowercase(Trim(statusText)) == "aceptado"
  {
  }

  function DigitValue(c: char): nat
    requires IsDigit(c)
  {
    c as int - '0' as int
  }

  /**
   * LocalTime.parse(s, "HH:mm") with the default SMART resolver, as minutes
   * since midnight: exactly two digits, ':' and two digits; hour 0-23 and
   * minute 0-59, and "24:00" read as midnight.
   */
  function ParseTime(s: string): (r: Option<int>)
    ensures r.Some? ==> |s| == 5 && s[2] == ':' && IsDigit(s[0]) && IsDigit(s[1]) && IsDigit(s[3]) && IsDigit(s[4])
    ensures r.Some? ==> 0 <= r.value < 1440
  {
    if |s| != 5 || s[2] != ':' || !IsDigit(s[0]) || !IsDigit(s[1]) || !IsDigit(s[3]) || !IsDigit(s[4]) then None
    else
      var h := DigitValue(s[0]) * 10 + DigitValue(s[1]);
      var m := DigitValue(s[3]) * 10 + DigitValue(s[4]);
      if h <= 23 && m <= 59 then Some(h * 60 + m)
      else if h == 24 && m == 0 then Some(0)
      else None
  }

  function DigitChar(d: nat): char
    requires d < 10
  {
    ('0' as int + d) as char
  }

  /** The "HH:mm" text of a minute of the day. */
  function FormatTime(minutes: int): (s: string)
    requires 0 <= minutes < 1440
    ensures |s| == 5
  {
    var h := minutes / 60;
    var m := minutes % 60;
    [DigitChar(h / 10), DigitChar(h % 10), ':', DigitChar(m / 10), DigitChar(m % 10)]
  }

  /** Every minute of the day survives formatting and parsing. */
  lemma ParseFormatTime(minutes: int)
    requires 0 <= minutes < 1440
    ensures ParseTime(FormatTime(minutes)) == Some(minutes)
  {
  }

  /** The end-of-day text "24:00" is midnight of the same date. */
  lemma MidnightAsTwentyFour()
    ensures ParseTime("24:00") == Some(0)
  {
  }

  /** Minutes past the hour must be below 60, and only "24:00" may use hour 24. */
  lemma ParseRejectsOutOfRange(s: string)
    requires |s| == 5 && s[2] == ':' && IsDigit(s[0]) && IsDigit(s[1]) && IsDigit(s[3]) && IsDigit(s[4])
    requires DigitValue(s[3]) * 10 + DigitValue(s[4]) >= 60 || DigitValue(s[0]) * 10 + DigitValue(s[1]) >= 25
    ensures ParseTime(s) == None
  {
  }

  const HalfHour: int := 30 * 60

  /** Window A: from the start until half an hour after it, both ends included. */
  predicate InStartWindow(start: int, now: int) {
    start <= now <= start + HalfHour
  }

  /** Window B's condition: the booking was made while its own slot ran. */
  predicate BookedDuringSlot(reservationTime: Option<int>, start: int, end: int) {
    reservationTime.Some? && start <= reservationTime.value <= end
  }

  /** canCheckin(currentTime), with `now` the seconds since midnight of currentTime's date. */
  function CanCheckin(b: MyBooking, now: int): (r: bool)
    requires 0 <= now < 86400
    ensures r ==> b.status == Aceptado && ParseTime(b.startTime).Some? && ParseTime(b.endTime).Some?
    ensures b.status == Aceptado && ParseTime(b.startTime).Some? && ParseTime(b.endTime).Some? ==>
      var start := ParseTime(b.startTime).value * 60;
      var end := ParseTime(b.endTime).value * 60;
      (r <==> InStartWindow(start, now) || (BookedDuringSlot(b.reservationTime, start, end) && now <= end + HalfHour))
  {
    if b.status != Aceptado then false
    else
      match ParseTime(b.startTime)
      case None => false
      case Some(startMinutes) =>
        match ParseTime(b.endTime)
        case None => false
        case Some(endMinutes) =>
          var start := startMinutes * 60;
          var end := endMinutes * 60;
          if InStartWindow(start, now) then true
          else if BookedDuringSlot(b.reservationTime, start, end) then now <= end + HalfHour
          else false
  }

  /** Only an accepted booking can be checked into, so check-in implies cancellable. */
  lemma CheckinImpliesCancel(b: MyBooking, now: int)
    requires 0 <= now < 86400
    requires CanCheckin(b, now)
    ensures CanCancel(b)
  {
  }

  /** An unreadable end time refuses check-in even inside window A. */
  lemma UnparsableEndRefuses(b: MyBooking, now: int)
    requires 0 <= now < 86400
    requires b.status == Aceptado && ParseTime(b.startTime).Some?
    requires InStartWindow(ParseTime(b.startTime).value * 60, now)
    requires ParseTime(b.endTime).None?
    ensures !CanCheckin(b, now)
  {
  }

  /** Window B has no lower bound: a booking made during its slot can be checked into any time before end + 30 min, even before the start. */
  lemma WindowBHasNoLowerBound(b: MyBooking, now: int)
    requires 0 <= now < 86400
    requires b.status == Aceptado && ParseTime(b.startTime).Some? && ParseTime(b.endTime).Some?
    requires BookedDuringSlot(b.reservationTime, ParseTime(b.startTime).value * 60, ParseTime(b.endTime).value * 60)
    requires now < ParseTime(b.startTime).value * 60
    ensures CanCheckin(b, now) <==> now <= ParseTime(b.endTime).value * 60 + HalfHour
  {
  }

  /** Outside window A and without a reservation time inside the slot, check-in is refused. */
  lemma OutsideBothWindows(b: MyBooking, now: int)
    requires 0 <= now < 86400
    requires ParseTime(b.startTime).Some? && ParseTime(b.endTime).Some?
    requires !InStartWindow(ParseTime(b.startTime).value * 60, now)
    requires !BookedDuringSlot(b.reservationTime, ParseTime(b.startTime).value * 60, ParseTime(b.endTime).value * 60)
    ensures !CanCheckin(b, now)
  {
  }
}
