/** The gateway's `@StartBeforeEndDateValid` constraint on a booking request. */
module DateValidator {
  import opened Common

  /** `CheckDateValidator.isValid`: both dates present and start strictly before end. */
  function IsValid(start: Option<Time>, end: Option<Time>): (r: bool)
    ensures start.None? || end.None? ==> !r
    ensures start.Some? && end.Some? ==> (r <==> start.value < end.value)
  {
    if start.None? || end.None? then false else start.value < end.value
  }

  /** The server's own date check: a request is refused when the end is before
      the start or equal to it (the server variant of `BookingServiceImpl.create`). */
  predicate DatesOutOfOrder(start: Time, end: Time)
  {
    end < start || start == end
  }

  /** The gateway and the server agree: with both dates present the gateway
      accepts a request exactly when the server's order check lets it through,
      so equal dates and an end before the start are refused by both. */
  lemma GatewayAgreesWithServer(start: Time, end: Time)
    ensures IsValid(Some(start), Some(end)) <==> !DatesOutOfOrder(start, end)
    ensures !IsValid(Some(start), Some(start))
  {
  }
}
