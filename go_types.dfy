/**
 * The Go types the Event struct declares its fields with, as far as the field
 * descriptors depend on them.
 */
module GoTypes {

  /** The named types of the `values` package that Event uses. */
  datatype ValueType =
    | DateTime | Duration | Geo | EventAccessClassification | EventStatus
    | TimeTransparency | RecurrenceRule | ExceptionDateTimes | RecurrenceDateTimes
    | OrganizerAddress | AttendeeAddress | RelationAddress | Comment | CSV

  /** A declared Go type: a basic type, a named type, a pointer or a slice. */
  datatype GoType =
    | String
    | Int
    | Values(name: ValueType)    // values.<name>
    | Url                        // url.URL
    | Pointer(elem: GoType)
    | Slice(elem: GoType)
}
