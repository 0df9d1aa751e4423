/**
 * The VEVENT component record of the `components` package (section 3.6.1 of
 * RFC 5545) and its structural validator.
 */
module Components {
  import opened Wrappers
  import opened Values

  /** Go's `int`, assumed 64-bit. */
  newtype Int64 = x: int | -0x8000_0000_0000_0000 <= x < 0x8000_0000_0000_0000

  /**
   * One calendar event, field by field in declaration order. A Go pointer field
   * becomes an Option (None for nil); a Go slice becomes a seq; the four anonymous
   * embedded records (TimeTransparency, RecurrenceRule, ExceptionDateTimes,
   * RecurrenceDateTimes) are ordinary fields here, and their flattening into the
   * parent's properties is recorded by the descriptor table in EventFields.
   */
  datatype Event = Event(
    uid: string,
    dateStamp: Option<DateTime>,
    dateStart: Option<DateTime>,
    dateEnd: Option<DateTime>,
    duration: Option<Duration>,
    accessClassification: EventAccessClassification,
    created: Option<DateTime>,
    description: string,
    geo: Option<Geo>,
    lastModified: Option<DateTime>,
    location: string,
    organizer: Option<OrganizerAddress>,
    priority: Int64,
    sequence: Int64,
    status: EventStatus,
    summary: string,
    timeTransparency: TimeTransparency,
    url: Option<URL>,
    recurrenceId: Option<DateTime>,
    recurrenceRule: Option<RecurrenceRule>,
    attachment: Option<URL>,
    attendees: seq<Option<AttendeeAddress>>,
    categories: CSV,
    comments: seq<Comment>,
    contactInfo: CSV,
    exceptionDateTimes: ExceptionDateTimes,
    recurrenceDateTimes: RecurrenceDateTimes,
    relatedTo: Option<RelationAddress>,
    resources: CSV)

  /** The reason the validator gives when an event has both an end and a duration. */
  const MutuallyExclusiveMessage: string := "DateEnd and Duration are mutually exclusive fields"

  /**
   * The error the validator returns: its message and the component it was raised
   * for (the event itself, as the Go method passes it to the error constructor).
   */
  datatype InvariantError = InvariantError(message: string, component: Event)

  /**
   * Event.ValidateICalValue: DTEND and DURATION must not both be present
   * (section 3.6.1 of RFC 5545). The event is only read; on failure the error
   * carries the very event that was checked.
   */
  function ValidateICalValue(e: Event): (r: Result<(), InvariantError>)
    ensures r.Success? <==> e.dateEnd.None? || e.duration.None?
    ensures r.Failure? ==> r.error.message == MutuallyExclusiveMessage && r.error.component == e
  {
    if e.dateEnd.Some? && e.duration.Some? then
      Failure(InvariantError(MutuallyExclusiveMessage, e))
    else
      Success(())
  }

  /**
   * The outcome depends on nothing but whether DateEnd and Duration are set:
   * two events that agree on that get the same verdict and the same message,
   * whatever their other fields (UID, DateStart, Attendees, ...) hold.
   */
  lemma ValidationDependsOnlyOnEndAndDuration(e1: Event, e2: Event)
    requires e1.dateEnd.Some? == e2.dateEnd.Some?
    requires e1.duration.Some? == e2.duration.Some?
    ensures ValidateICalValue(e1).Success? == ValidateICalValue(e2).Success?
    ensures ValidateICalValue(e1).Failure? ==>
      ValidateICalValue(e1).error.message == ValidateICalValue(e2).error.message
    ensures ValidateICalValue(e1).Success? ==> ValidateICalValue(e1) == ValidateICalValue(e2)
  {
  }

  /**
   * Example: an event with a UID, a stamp and a start but no end and no
   * duration passes; giving the same event both an end and a duration makes
   * it fail with the mutual-exclusion error.
   */
  lemma ValidationExample(e: Event, end: DateTime, length: Duration)
    requires e.uid == "abc-123" && e.dateStamp.Some? && e.dateStart.Some?
    requires e.dateEnd.None? && e.duration.None?
    ensures ValidateICalValue(e).Success?
    ensures ValidateICalValue(e.(dateEnd := Some(end), duration := Some(length)))
      == Failure(InvariantError(MutuallyExclusiveMessage, e.(dateEnd := Some(end), duration := Some(length))))
  {
  }
}
