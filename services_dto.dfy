/** The services payload and its conversion to the domain's LibraryService. */
module ServicesDto {
  import opened Wrappers
  import opened Text
  import opened LibraryModel

  const UnknownServiceName: string := "Servicio Desconocido"

  datatype PitchDto = PitchDto(name: string, status: string)
  datatype TimetableEntryDto = TimetableEntryDto(open: string, close: string, gbid: Option<string>)
  datatype ServicePropertiesDto = ServicePropertiesDto(capacity: string, pitches: seq<PitchDto>)
  datatype ServiceDataDto = ServiceDataDto(
    id: int,
    name: Option<string>,
    properties: ServicePropertiesDto,
    timetable: Option<map<string, seq<TimetableEntryDto>>>)
  datatype ServicesResponse = ServicesResponse(data: seq<ServiceDataDto>)

  function TimeSlots(entries: seq<TimetableEntryDto>): (r: seq<TimeSlot>)
    ensures |r| == |entries|
    ensures forall i :: 0 <= i < |entries| ==> r[i] == TimeSlot(entries[i].open, entries[i].close, entries[i].gbid)
  {
    seq(|entries|, i requires 0 <= i < |entries| => TimeSlot(entries[i].open, entries[i].close, entries[i].gbid))
  }

  function Tables(pitches: seq<PitchDto>): (r: seq<TableSlot>)
    ensures |r| == |pitches|
    ensures forall i :: 0 <= i < |pitches| ==> r[i] == TableSlot(pitches[i].name, pitches[i].status)
  {
    seq(|pitches|, i requires 0 <= i < |pitches| => TableSlot(pitches[i].name, pitches[i].status))
  }

  /** toDomain: fields copied with elvis defaults, lists mapped element-wise in order. */
  function ToDomain(dto: ServiceDataDto): (r: LibraryService)
    ensures r.id == dto.id
    ensures r.name == dto.name.GetOr(UnknownServiceName)
    ensures r.capacity == ToIntOrNull(dto.properties.capacity).GetOr(0)
    ensures r.tables == Tables(dto.properties.pitches)
    ensures dto.timetable.None? ==> r.timetable == map[]
    ensures dto.timetable.Some? ==> r.timetable.Keys == dto.timetable.value.Keys
    ensures dto.timetable.Some? ==> forall day :: day in r.timetable ==> r.timetable[day] == TimeSlots(dto.timetable.value[day])
  {
    LibraryService(
      dto.id,
      dto.name.GetOr(UnknownServiceName),
      ToIntOrNull(dto.properties.capacity).GetOr(0),
      Tables(dto.properties.pitches),
      match dto.timetable
      case None => map[]
      case Some(t) => map day | day in t :: TimeSlots(t[day]))
  }

  /** A capacity text that is not a 32-bit integer becomes 0; a plain decimal one is read as is. */
  lemma CapacityText(dto: ServiceDataDto)
    ensures ToIntOrNull(dto.properties.capacity).None? ==> ToDomain(dto).capacity == 0
    ensures |dto.properties.capacity| > 0 && AllDigits(dto.properties.capacity) && DigitsValue(dto.properties.capacity) <= MaxInt
      ==> ToDomain(dto).capacity == DigitsValue(dto.properties.capacity)
  {
  }
}
