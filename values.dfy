/**
 * The value types of the `values` package and of `net/url` that the Event record
 * refers to. Their text codecs are not part of this model, so each is an opaque
 * type: the model only needs to hold, compare and pass them around.
 */
module Values {

  /** values.DateTime: a date or date-time, optionally with a time zone. */
  type DateTime(==, 0)

  /** values.Duration: a signed week/day/hour/minute/second amount. */
  type Duration(==, 0)

  /** values.Geo: a pair of floating-point coordinates. */
  type Geo(==, 0)

  /** values.EventAccessClassification (CLASS). */
  type EventAccessClassification(==, 0)

  /** values.EventStatus (STATUS). */
  type EventStatus(==, 0)

  /** values.TimeTransparency, a record embedded in Event (TRANSP). */
  type TimeTransparency(==, 0)

  /** values.RecurrenceRule, a record embedded in Event through a pointer (RRULE). */
  type RecurrenceRule(==, 0)

  /** values.ExceptionDateTimes, a record embedded in Event (EXDATE). */
  type ExceptionDateTimes(==, 0)

  /** values.RecurrenceDateTimes, a record embedded in Event (RDATE). */
  type RecurrenceDateTimes(==, 0)

  /** values.OrganizerAddress (ORGANIZER). */
  type OrganizerAddress(==, 0)

  /** values.AttendeeAddress (ATTENDEE). */
  type AttendeeAddress(==, 0)

  /** values.RelationAddress (RELATED-TO). */
  type RelationAddress(==, 0)

  /** values.Comment (COMMENT). */
  type Comment(==, 0)

  /** values.CSV: an ordered list of text items written as one comma-separated value. */
  type CSV(==, 0)

  /** url.URL from Go's standard library. */
  type URL(==, 0)
}
