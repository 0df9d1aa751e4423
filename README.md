# VEVENT record and validator of caldav-go's `components` package

This project models the core of `icalendar/components/event.go`: the `Event`
record, which stands for one VEVENT component of an iCalendar object (section
3.6.1 of RFC 5545), the field-descriptor table that its `ical` struct tags
declare, and the structural validator `ValidateICalValue`.

- `wrappers.dfy` (`Wrappers`): `Option` for Go's nil pointers and `Result` for
  Go's `error` returns.
- `values.dfy` (`Values`): the value types of the `values` package and
  `url.URL`, as opaque types.
- `go_types.dfy` (`GoTypes`): the Go types the struct declares its fields
  with: `string`, `int`, a type of the `values` package, `url.URL`, and
  pointers and slices of these.
- `event.dfy` (`Components`): the `Event` datatype, one field per struct field
  in declaration order, and `ValidateICalValue`. It fails exactly when both
  DTEND and DURATION are set. The error carries the message "DateEnd and
  Duration are mutually exclusive fields" and the event that was checked.
  The Go method takes a pointer receiver but only reads through it; the model
  makes it a function of the event value, so validation cannot change the
  event.
- `struct_tags.dfy` (`StructTags`): Go struct tags of one `key:"value"` pair,
  whose value is a name and comma-separated options. A structured tag
  (`StructTag`) renders to the text a Go source file holds (`TagText`).
  `GoLookup` is Go's lookup rule on that text: pairs are read in turn, and
  reading stops at the first key that is not followed by `:"`. A value found
  that holds a newline is rejected, as Go's unquoting rejects it. `Lookup`
  reads the structured tag; `LookupFollowsGo` proves the two agree on every tag
  with a valid key and a value with no quote, backslash or newline.
- `event_fields.dfy` (`EventFields`): each struct field transcribed as a
  declaration. A declaration holds the field's Go type, whether it is an
  anonymous embedded field, and its `ical` tag in structured form. The tag text
  exactly as the struct writes it is kept beside it (`RawTag`), and lemmas tie
  the two together up to the key and the opening quote. The descriptor
  `(field, nameOverride, required, omitEmpty, embedded, repeated)` is derived
  from the declaration. `Descriptors()` is the table in declaration order.
  Lemmas state its shape:
  - which fields are required and which are omit-if-empty;
  - which fields carry name overrides, and that no two overrides collide;
  - which fields are embedded and which are multi-valued;
  - that the table lists every field exactly once, in order;
  - that selecting the required, embedded or multi-valued entries of the table
    gives those fields in declaration order;
  - which pointer fields of an event are set, and how that decides validation.

The tag of `AccessClassification` is written `ical:class,omitempty`, without
the double quotes that Go's struct-tag syntax requires. Go's tag lookup
therefore does not find the `ical` key. The model keeps the tag as written, so
this field gets no name override and no omit-if-empty flag. The model does not
correct it.

The validator's error names the two fields only in its message text. It
carries no separate list of offending fields, only the message and the
component. The model follows the code.

## Model

| member | source | states |
|---|---|---|
| Components.ValidateICalValue | icalendar/components/event.go:107-115 | succeeds exactly when DateEnd or Duration is nil; the error carries the mutual-exclusion message and the unchanged event |
| Components.ValidationDependsOnlyOnEndAndDuration | icalendar/components/event.go:109 | two events that agree on whether DateEnd and Duration are set get the same verdict and message, whatever their other fields |
| Components.ValidationExample | icalendar/components/event.go:107-115 | an event with UID "abc-123", stamp and start but no end or duration passes; giving it both an end and a duration makes it fail with the mutual-exclusion error |
| EventFields.Decl | icalendar/components/event.go:9-105 | the declaration of each field names that field |
| StructTags.UnopenedValueNotFound | icalendar/components/event.go:27 | when a pair's key is followed by a colon but not by an opening double quote, Go's lookup finds nothing under any key |
| StructTags.QuotedValueRead | icalendar/components/event.go:12-102 | Go's lookup on the text of a quoted tag whose value has no quote, backslash or newline yields that value under the tag's key and nothing under any other key |
| StructTags.QuotedNewlineNotFound | icalendar/components/event.go:12-102 | Go's lookup on the text of a quoted tag whose value holds a newline (and no quote or backslash) finds nothing under any key, since unquoting rejects the value |
| StructTags.LookupFollowsGo | icalendar/components/event.go:12-102 | for every tag with a valid key and a value with no quote, backslash or newline, Go's lookup on its text finds the value exactly when Lookup on the structured tag finds something, and nothing otherwise |
| EventFields.RawTagsKeyed | icalendar/components/event.go:12-102 | every tag as written starts with the key `ical` and a colon, and has a value after it |
| EventFields.OpensIcalValue | icalendar/components/event.go:12-102 | a tag `ical:` followed by v opens a quoted value exactly when v starts with a double quote |
| EventFields.QuotedAsWritten | icalendar/components/event.go:12-102 | a field's structured tag is quoted exactly when the tag as written opens its value with a double quote after `ical:` |
| EventFields.TagKeys | icalendar/components/event.go:12-102 | every field's structured tag has the key `ical` |
| EventFields.FoundAsWritten | icalendar/components/event.go:12-102 | Lookup finds a field's `ical` value exactly when Go's condition for reading it holds of the tag as written |
| EventFields.AccessClassificationNotFound | icalendar/components/event.go:27 | Go's lookup of `ical` in the tag text of AccessClassification, as written, finds nothing |
| EventFields.Describe | icalendar/components/event.go:12-102 | a descriptor names its field, its embedded flag is the field's anonymity and its repeated flag is slice-or-CSV; when the `ical` key is not found there is no override and no flag; when it is found, the field is required exactly when the options list `required`, omit-if-empty exactly when they list `omitempty`, and has an override exactly when the tag's name is non-empty, that name being the override |
| EventFields.Descriptors | icalendar/components/event.go:9-105 | the table has one entry per declared field, the i-th describing the i-th field |
| EventFields.Select | icalendar/components/event.go:9-105 | the selected fields are exactly those whose entries satisfy the predicate, and there are no more of them than entries |
| EventFields.SelectAtPositions | icalendar/components/event.go:9-105 | when the predicate holds exactly at the increasing positions idx, the selection is the fields at idx, in that order |
| EventFields.DeclarationOrder | icalendar/components/event.go:9-105 | the table has 29 entries and lists the declared fields in declaration order |
| EventFields.EveryFieldListed | icalendar/components/event.go:12-102 | every field of the struct appears in the table, at its declared position |
| EventFields.TableFollowsPositions | icalendar/components/event.go:12-102 | the field listed i-th is the field declared i-th |
| EventFields.FieldsDistinct | icalendar/components/event.go:12-102 | no field appears twice in the table |
| EventFields.RequiredFields | icalendar/components/event.go:12-18 | exactly UID, DateStamp and DateStart are required |
| EventFields.RequiredPositions | icalendar/components/event.go:12-18 | the required entries are exactly those at positions 0, 1 and 2 |
| EventFields.RequiredFieldsInOrder | icalendar/components/event.go:12-18 | selecting the required entries gives UID, DateStamp, DateStart, in that order |
| EventFields.WellFormedTags | icalendar/components/event.go:27 | every field's tag is readable except AccessClassification's |
| EventFields.OmitEmptyUnlessRequired | icalendar/components/event.go:12-102 | a field is omit-if-empty exactly when it is not required and its tag is readable |
| EventFields.OmitEmptyFields | icalendar/components/event.go:12-102 | the omit-if-empty fields are all fields except UID, DateStamp, DateStart and AccessClassification |
| EventFields.AccessClassificationTagInert | icalendar/components/event.go:27 | the unquoted tag names `class` and lists `omitempty`, yet the descriptor has no override, is neither required nor omit-if-empty, and is neither embedded nor repeated |
| EventFields.NameOverrides | icalendar/components/event.go:15-90 | explicit wire names appear on exactly DateStamp, DateStart, DateEnd, LastModified, TimeTransparency, RecurrenceId, Attachment and ContactInfo, with the names the tags give |
| EventFields.ExplicitNamesInjective | icalendar/components/event.go:15-90 | the eight explicit wire names differ pairwise |
| EventFields.NameOverridesDistinct | icalendar/components/event.go:15-90 | no two fields share an explicit wire name |
| EventFields.EmbeddedExactly | icalendar/components/event.go:63-96 | exactly TimeTransparency, RecurrenceRule, ExceptionDateTimes and RecurrenceDateTimes are embedded |
| EventFields.EmbeddedNameOverride | icalendar/components/event.go:63-96 | among the embedded fields, only TimeTransparency has a name override |
| EventFields.EmbeddedPositions | icalendar/components/event.go:63-96 | the embedded entries are exactly those at positions 16, 19, 25 and 26 |
| EventFields.EmbeddedFieldsInOrder | icalendar/components/event.go:63-96 | selecting the embedded entries gives TimeTransparency, RecurrenceRule, ExceptionDateTimes, RecurrenceDateTimes, in that order |
| EventFields.RepeatedFields | icalendar/components/event.go:80-102 | exactly Attendees, Categories, Comments, ContactInfo and Resources are multi-valued |
| EventFields.RepeatedPositions | icalendar/components/event.go:80-102 | the multi-valued entries are exactly those at positions 21, 22, 23, 24 and 28 |
| EventFields.RepeatedFieldsInOrder | icalendar/components/event.go:80-102 | selecting the multi-valued entries gives Attendees, Categories, Comments, ContactInfo, Resources, in that order |
| EventFields.NonNilFields | icalendar/components/event.go:15-99 | the fields reported as set are pointer fields, and a pointer field is reported exactly when the event holds a value for it |
| EventFields.AllPointersSetReported | icalendar/components/event.go:15-99 | an event with every optional field set reports exactly the pointer-typed fields of the struct |
| EventFields.EndAndDurationNonNil | icalendar/components/event.go:21-24 | DateEnd and Duration are among the non-nil fields exactly when they are set |
| EventFields.ValidationAllowsAtMostOneOfEndAndDuration | icalendar/components/event.go:107-115 | validation succeeds exactly when at most one of DateEnd and Duration is among the event's non-nil fields |
| EventFields.AtMostOneOfEndAndDuration | icalendar/components/event.go:109 | a set holds at most one of DateEnd and Duration exactly when it does not hold both |

## Left out

- Value codecs: the text encoders and decoders of DateTime, Duration, Geo, CSV, the address types, RecurrenceRule and the exception and recurrence date sets are not part of this model. These types are opaque. Geo is floating point.
- Encoder and decoder: the reflection-based encoder and decoder, and the rule that derives a default wire name from a field identifier, live in the `icalendar` package, which is not part of this model. A descriptor with no override records only that the name is derived.
- Embedded fields: the descriptors of an embedded record's own fields, which the encoder splices in at the embedding position, come from types that are not part of this model. The table records only that the field is embedded.
- Error construction: of the error built by `icalendar.NewError`, only the message and the component are modelled. The function reference and the nil cause it also receives are left out.
- URLs: `url.URL` parsing for Url and Attachment is a foreign library; these stay opaque optional values.
- Alarms: these are marked TODO in the source and are not declared.
- Descriptor caching and concurrency: none exists in this file.
- StructTags.GoLookup: models Go's struct-tag lookup for tags of `key:"value"` pairs only. Of Go's unquoting of the value found, only the rejection of a newline is modelled: escape sequences are skipped but neither decoded nor checked for validity, since none of the Event's tags contains one.
- StructTags.LookupFollowsGo: covers tags whose value has no quote, backslash or newline; a value with a newline is covered by `StructTags.QuotedNewlineNotFound`. The text each field's tag is written as (`EventFields.RawTag`) is tied to its structured form only up to its key and opening quote; the names and options of the structured tags are stated by `EventFields.NameOverrides`, `EventFields.RequiredFields` and `EventFields.OmitEmptyFields`.
- Nil receiver: `ValidateICalValue` on a nil `*Event` panics when it reads `e.DateEnd` (event.go:109). The model takes an event value, so this case does not arise.
- Error identity: the error built at event.go:110 holds the pointer `e` itself, so later changes to the event show through it. The model stores a copy of the event value; aliasing is not captured.
- Integer width: `Priority` and `Sequence` are Go `int`. They are modelled as 64-bit integers, an assumption: Go's `int` is 32 bits wide on 32-bit platforms.
