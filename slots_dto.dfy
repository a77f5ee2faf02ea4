/** A slot item of the per-seat slots payload and its bookability rule. */
module SlotsDto {
  import opened Wrappers

  /** Every field may be null; the Kotlin constructor defaults are available 0, booked 0, blocked false, capacity 1. */
  datatype SlotItemDto = SlotItemDto(
    name: Option<string>,
    start: Option<string>,
    end: Option<string>,
    available: Option<int>,
    booked: Option<int>,
    blocked: Option<bool>,
    capacity: Option<int>)

  datatype SlotsResponse = SlotsResponse(slots: map<string, map<string, seq<SlotItemDto>>>)

  /** An item built with the constructor's defaults for the numeric and flag fields. */
  function DefaultItem(name: Option<string>, start: Option<string>, end: Option<string>): (r: SlotItemDto)
    ensures r.available == Some(0) && r.booked == Some(0) && r.blocked == Some(false) && r.capacity == Some(1)
  {
    SlotItemDto(name, start, end, Some(0), Some(0), Some(false), Some(1))
  }

  /** isBookable: available exactly 1, blocked exactly false, and booked (null as 0) below capacity (null as 1). */
  predicate IsBookable(item: SlotItemDto) {
    item.available == Some(1) && item.blocked == Some(false) && item.booked.GetOr(0) < item.capacity.GetOr(1)
  }

  /** A bookable item is available and explicitly unblocked; a null `blocked` is never bookable. */
  lemma BookableNeeds(item: SlotItemDto)
    ensures IsBookable(item) ==> item.available == Some(1)
    ensures IsBookable(item) ==> item.blocked == Some(false)
    ensures item.blocked.None? ==> !IsBookable(item)
    ensures item.available.None? ==> !IsBookable(item)
  {
  }

  /** With null counters an available unblocked item is bookable (0 < 1); a full one is not. */
  lemma BookableCounters(item: SlotItemDto)
    requires item.available == Some(1) && item.blocked == Some(false)
    ensures item.booked.None? && item.capacity.None? ==> IsBookable(item)
    ensures item.booked.Some? && item.capacity.Some? && item.booked.value >= item.capacity.value ==> !IsBookable(item)
    ensures item.booked.None? && item.capacity.Some? ==> (IsBookable(item) <==> 0 < item.capacity.value)
    ensures item.booked.Some? && item.capacity.None? ==> (IsBookable(item) <==> item.booked.value < 1)
  {
  }

  /** A default-constructed item is not bookable, because `available` defaults to 0. */
  lemma DefaultNotBookable(name: Option<string>, start: Option<string>, end: Option<string>)
    ensures !IsBookable(DefaultItem(name, start, end))
  {
  }
}
