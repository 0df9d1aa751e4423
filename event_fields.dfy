/**
 * The field-descriptor table of the Event record. Each field of the Go struct is
 * transcribed as a declaration (its name, its declared Go type, whether it is an
 * anonymous embedded field, and its `ical` struct tag as written); the descriptor
 * the encoder works from is then derived from that declaration.
 */
module EventFields {
  import opened Wrappers
  import opened Components
  import opened StructTags
  import Go = GoTypes

  /** The fields of Event, named as in the Go struct. */
  datatype FieldId =
    | UID | DateStamp | DateStart | DateEnd | Duration | AccessClassification
    | Created | Description | Geo | LastModified | Location | Organizer
    | Priority | Sequence | Status | Summary | TimeTransparency | Url
    | RecurrenceId | RecurrenceRule | Attachment | Attendees | Categories
    | Comments | ContactInfo | ExceptionDateTimes | RecurrenceDateTimes
    | RelatedTo | Resources

  /** One declared field of the Event struct. */
  datatype FieldDecl = FieldDecl(id: FieldId, goType: Go.GoType, anonymous: bool, tag: StructTag)

  /**
   * What the encoder needs to know of a field: the explicit wire name if the tag
   * gives one (None means the name is derived from the field identifier), and the
   * required, omit-if-empty, embedded (flattened into the parent) and repeated
   * (multi-valued) flags.
   */
  datatype FieldDescriptor = FieldDescriptor(
    field: FieldId,
    nameOverride: Option<string>,
    required: bool,
    omitEmpty: bool,
    embedded: bool,
    repeated: bool)

  /** A well-formed tag `ical:"name,option"`. */
  function Ical(name: string, option: TagOption): StructTag { StructTag("ical", name, [option], true) }

  /** The declaration of each field, transcribed from the Event struct. */
  function Decl(f: FieldId): (d: FieldDecl)
    ensures d.id == f
  {
    match f
    case UID => FieldDecl(UID, Go.String, false, Ical("", Required))
    case DateStamp => FieldDecl(DateStamp, Go.Pointer(Go.Values(Go.DateTime)), false, Ical("dtstamp", Required))
    case DateStart => FieldDecl(DateStart, Go.Pointer(Go.Values(Go.DateTime)), false, Ical("dtstart", Required))
    case DateEnd => FieldDecl(DateEnd, Go.Pointer(Go.Values(Go.DateTime)), false, Ical("dtend", OmitEmpty))
    case Duration => FieldDecl(Duration, Go.Pointer(Go.Values(Go.Duration)), false, Ical("", OmitEmpty))
    // written `ical:class,omitempty`, without the quotes
    case AccessClassification =>
      FieldDecl(AccessClassification, Go.Values(Go.EventAccessClassification), false,
                StructTag("ical", "class", [OmitEmpty], false))
    case Created => FieldDecl(Created, Go.Pointer(Go.Values(Go.DateTime)), false, Ical("", OmitEmpty))
    case Description => FieldDecl(Description, Go.String, false, Ical("", OmitEmpty))
    case Geo => FieldDecl(Geo, Go.Pointer(Go.Values(Go.Geo)), false, Ical("", OmitEmpty))
    case LastModified => FieldDecl(LastModified, Go.Pointer(Go.Values(Go.DateTime)), false, Ical("last-modified", OmitEmpty))
    case Location => FieldDecl(Location, Go.String, false, Ical("", OmitEmpty))
    case Organizer => FieldDecl(Organizer, Go.Pointer(Go.Values(Go.OrganizerAddress)), false, Ical("", OmitEmpty))
    case Priority => FieldDecl(Priority, Go.Int, false, Ical("", OmitEmpty))
    case Sequence => FieldDecl(Sequence, Go.Int, false, Ical("", OmitEmpty))
    case Status => FieldDecl(Status, Go.Values(Go.EventStatus), false, Ical("", OmitEmpty))
    case Summary => FieldDecl(Summary, Go.String, false, Ical("", OmitEmpty))
    case TimeTransparency => FieldDecl(TimeTransparency, Go.Values(Go.TimeTransparency), true, Ical("transp", OmitEmpty))
    case Url => FieldDecl(Url, Go.Pointer(Go.Url), false, Ical("", OmitEmpty))
    case RecurrenceId => FieldDecl(RecurrenceId, Go.Pointer(Go.Values(Go.DateTime)), false, Ical("recurrence_id", OmitEmpty))
    case RecurrenceRule => FieldDecl(RecurrenceRule, Go.Pointer(Go.Values(Go.RecurrenceRule)), true, Ical("", OmitEmpty))
    case Attachment => FieldDecl(Attachment, Go.Pointer(Go.Url), false, Ical("attach", OmitEmpty))
    case Attendees => FieldDecl(Attendees, Go.Slice(Go.Pointer(Go.Values(Go.AttendeeAddress))), false, Ical("", OmitEmpty))
    case Categories => FieldDecl(Categories, Go.Values(Go.CSV), false, Ical("", OmitEmpty))
    case Comments => FieldDecl(Comments, Go.Slice(Go.Values(Go.Comment)), false, Ical("", OmitEmpty))
    case ContactInfo => FieldDecl(ContactInfo, Go.Values(Go.CSV), false, Ical("contact", OmitEmpty))
    case ExceptionDateTimes => FieldDecl(ExceptionDateTimes, Go.Values(Go.ExceptionDateTimes), true, Ical("", OmitEmpty))
    case RecurrenceDateTimes => FieldDecl(RecurrenceDateTimes, Go.Values(Go.RecurrenceDateTimes), true, Ical("", OmitEmpty))
    case RelatedTo => FieldDecl(RelatedTo, Go.Pointer(Go.Values(Go.RelationAddress)), false, Ical("", OmitEmpty))
    case Resources => FieldDecl(Resources, Go.Values(Go.CSV), false, Ical("", OmitEmpty))
  }

  /** The fields in the order the struct declares them. */
  const Fields: seq<FieldId> := [
    UID, DateStamp, DateStart, DateEnd, Duration, AccessClassification,
    Created, Description, Geo, LastModified, Location, Organizer,
    Priority, Sequence, Status, Summary, TimeTransparency, Url,
    RecurrenceId, RecurrenceRule, Attachment, Attendees, Categories,
    Comments, ContactInfo, ExceptionDateTimes, RecurrenceDateTimes,
    RelatedTo, Resources]

  /** The value text of each field's `ical` tag, as the struct declaration writes it. */
  function ValueText(f: FieldId): string {
    match f
    case UID => "\",required\""
    case DateStamp => "\"dtstamp,required\""
    case DateStart => "\"dtstart,required\""
    case DateEnd => "\"dtend,omitempty\""
    case Duration => "\",omitempty\""
    case AccessClassification => "class,omitempty"
    case Created => "\",omitempty\""
    case Description => "\",omitempty\""
    case Geo => "\",omitempty\""
    case LastModified => "\"last-modified,omitempty\""
    case Location => "\",omitempty\""
    case Organizer => "\",omitempty\""
    case Priority => "\",omitempty\""
    case Sequence => "\",omitempty\""
    case Status => "\",omitempty\""
    case Summary => "\",omitempty\""
    case TimeTransparency => "\"transp,omitempty\""
    case Url => "\",omitempty\""
    case RecurrenceId => "\"recurrence_id,omitempty\""
    case RecurrenceRule => "\",omitempty\""
    case Attachment => "\"attach,omitempty\""
    case Attendees => "\",omitempty\""
    case Categories => "\",omitempty\""
    case Comments => "\",omitempty\""
    case ContactInfo => "\"contact,omitempty\""
    case ExceptionDateTimes => "\",omitempty\""
    case RecurrenceDateTimes => "\",omitempty\""
    case RelatedTo => "\",omitempty\""
    case Resources => "\",omitempty\""
  }

  /** The tag of each field, as the struct declaration writes it. */
  function RawTag(f: FieldId): string {
    "ical:" + ValueText(f)
  }

  /** Every tag, as written, starts with the key `ical` and a colon, and has a value. */
  lemma RawTagsKeyed()
    ensures forall f: FieldId :: |RawTag(f)| > 5 && RawTag(f)[..4] == "ical" && RawTag(f)[4] == ':'
  {
    forall f: FieldId ensures |RawTag(f)| > 5 && RawTag(f)[..4] == "ical" && RawTag(f)[4] == ':' {
      assert |ValueText(f)| > 0;
    }
  }

  /** A tag `ical:` followed by v opens its value exactly when v starts with a quote. */
  lemma OpensIcalValue(v: string)
    ensures OpensValue("ical:" + v, "ical") <==> v != [] && v[0] == '"'
  {
    var text := "ical:" + v;
    assert text[..4] == "ical";
    if v != [] {
      assert text[5] == v[0];
    }
  }

  /**
   * The structured tag of each field is quoted exactly when the text as written
   * opens its value with a double quote after `ical:`, Go's condition for
   * reading it.
   */
  lemma QuotedAsWritten()
    ensures forall f: FieldId :: Decl(f).tag.quoted <==> OpensValue(RawTag(f), "ical")
  {
    forall f: FieldId ensures Decl(f).tag.quoted <==> OpensValue(RawTag(f), "ical") {
      OpensIcalValue(ValueText(f));
    }
  }

  /** Every structured tag has the key `ical`, as every tag as written does. */
  lemma TagKeys()
    ensures forall f: FieldId :: Decl(f).tag.key == "ical"
  {
  }

  /** So Lookup finds a field's `ical` value exactly when Go's rule reads it from the text as written. */
  lemma FoundAsWritten()
    ensures forall f: FieldId :: Lookup(Decl(f).tag, "ical").Some? <==> OpensValue(RawTag(f), "ical")
  {
    QuotedAsWritten();
    TagKeys();
  }

  /** Go's lookup of `ical` in AccessClassification's tag text, as written, finds nothing. */
  lemma AccessClassificationNotFound()
    ensures GoLookup(RawTag(AccessClassification), "ical") == None
  {
    RawTagsKeyed();
    OpensIcalValue(ValueText(AccessClassification));
    UnopenedValueNotFound(RawTag(AccessClassification), "ical", "ical");
  }

  /** Multi-valued fields: Go slices and values.CSV lists. */
  predicate IsMultiValued(t: Go.GoType) {
    t.Slice? || t == Go.Values(Go.CSV)
  }

  /** The descriptor of one declared field. */
  function Describe(d: FieldDecl): (r: FieldDescriptor)
    ensures r.field == d.id && r.embedded == d.anonymous && r.repeated == IsMultiValued(d.goType)
    ensures Lookup(d.tag, "ical").None? ==> !r.required && !r.omitEmpty && r.nameOverride.None?
    ensures r.nameOverride.Some? ==> r.nameOverride == Some(d.tag.name) && d.tag.name != ""
    ensures Lookup(d.tag, "ical").Some? ==>
      && (r.required <==> Required in d.tag.options)
      && (r.omitEmpty <==> OmitEmpty in d.tag.options)
      && (r.nameOverride.Some? <==> d.tag.name != "")
  {
    match Lookup(d.tag, "ical")
    case None =>
      FieldDescriptor(d.id, None, false, false, d.anonymous, IsMultiValued(d.goType))
    case Some((name, options)) =>
      FieldDescriptor(d.id, if name == "" then None else Some(name),
                      Required in options, OmitEmpty in options,
                      d.anonymous, IsMultiValued(d.goType))
  }

  /** The descriptor of the field f. */
  function DescriptorOf(f: FieldId): FieldDescriptor { Describe(Decl(f)) }

  /** The Event's descriptor table, in declaration order. */
  function Descriptors(): (t: seq<FieldDescriptor>)
    ensures |t| == |Fields|
    ensures forall i :: 0 <= i < |t| ==> t[i] == DescriptorOf(Fields[i])
  {
    seq(|Fields|, i requires 0 <= i < |Fields| => DescriptorOf(Fields[i]))
  }

  /** The fields, in table order, of the entries whose descriptor satisfies p. */
  function Select(t: seq<FieldDescriptor>, p: FieldDescriptor -> bool): (r: seq<FieldId>)
    ensures |r| <= |t|
    ensures forall f :: f in r ==> exists i :: 0 <= i < |t| && t[i].field == f && p(t[i])
    ensures forall i :: 0 <= i < |t| && p(t[i]) ==> t[i].field in r
  {
    if t == [] then []
    else
      var n := |t| - 1;
      assert forall i :: 0 <= i < n ==> t[..n][i] == t[i];
      Select(t[..n], p) + (if p(t[n]) then [t[n].field] else [])
  }

  /** The fields of the entries of t at the positions idx, in that order. */
  function FieldsAt(t: seq<FieldDescriptor>, idx: seq<nat>): (r: seq<FieldId>)
    requires forall k :: 0 <= k < |idx| ==> idx[k] < |t|
    ensures |r| == |idx|
    ensures forall k :: 0 <= k < |idx| ==> r[k] == t[idx[k]].field
  {
    if idx == [] then []
    else FieldsAt(t, idx[..|idx| - 1]) + [t[idx[|idx| - 1]].field]
  }

  /** Positions strictly increasing. */
  predicate Increasing(idx: seq<nat>) {
    forall k, l :: 0 <= k < l < |idx| ==> idx[k] < idx[l]
  }

  /** If n is in an increasing idx whose positions are all at most n, n is its last element. */
  lemma LastPosition(idx: seq<nat>, n: nat)
    requires Increasing(idx)
    requires forall k :: 0 <= k < |idx| ==> idx[k] <= n
    requires n in idx
    ensures |idx| > 0 && idx[|idx| - 1] == n
  {
    var j :| 0 <= j < |idx| && idx[j] == n;
    if j < |idx| - 1 {
      assert idx[j] < idx[|idx| - 1];
    }
  }

  /** The precondition of SelectAtPositions, for t and idx. */
  predicate SelectedExactlyAt(t: seq<FieldDescriptor>, p: FieldDescriptor -> bool, idx: seq<nat>) {
    && (forall k :: 0 <= k < |idx| ==> idx[k] < |t|)
    && Increasing(idx)
    && (forall i :: 0 <= i < |t| ==> (p(t[i]) <==> i in idx))
  }

  /** Dropping the last entry of t, and the last position if it is selected, keeps the correspondence. */
  lemma SelectedExactlyAtPrefix(t: seq<FieldDescriptor>, p: FieldDescriptor -> bool, idx: seq<nat>)
    requires t != [] && SelectedExactlyAt(t, p, idx)
    ensures p(t[|t| - 1]) ==> |idx| > 0 && idx[|idx| - 1] == |t| - 1
    ensures p(t[|t| - 1]) ==> SelectedExactlyAt(t[..|t| - 1], p, idx[..|idx| - 1])
    ensures !p(t[|t| - 1]) ==> SelectedExactlyAt(t[..|t| - 1], p, idx)
  {
    var n := |t| - 1;
    var t' := t[..n];
    assert forall i :: 0 <= i < n ==> t'[i] == t[i];
    if p(t[n]) {
      LastPosition(idx, n);
      var m := |idx| - 1;
      var idx' := idx[..m];
      assert forall k :: 0 <= k < m ==> idx'[k] == idx[k] && idx[k] < idx[m];
      forall i | 0 <= i < n && i in idx ensures i in idx' {
        var j :| 0 <= j < |idx| && idx[j] == i;
        assert idx'[j] == i;
      }
    } else {
      forall k | 0 <= k < |idx| ensures idx[k] < n { assert idx[k] in idx; }
    }
  }

  /**
   * When p holds of exactly the entries at the increasing positions idx, Select
   * gives the fields at those positions, in that order.
   */
  lemma {:induction false} SelectAtPositions(t: seq<FieldDescriptor>, p: FieldDescriptor -> bool, idx: seq<nat>)
    requires SelectedExactlyAt(t, p, idx)
    ensures Select(t, p) == FieldsAt(t, idx)
  {
    if t != [] {
      var n := |t| - 1;
      var t' := t[..n];
      SelectedExactlyAtPrefix(t, p, idx);
      if p(t[n]) {
        var idx' := idx[..|idx| - 1];
        SelectAtPositions(t', p, idx');
        FieldsAtPrefix(t, n, idx');
        assert Select(t, p) == Select(t', p) + [t[n].field];
      } else {
        SelectAtPositions(t', p, idx);
        FieldsAtPrefix(t, n, idx);
        assert Select(t, p) == Select(t', p);
      }
    }
  }

  /** FieldsAt reads only the entries at the given positions. */
  lemma FieldsAtPrefix(t: seq<FieldDescriptor>, j: nat, idx: seq<nat>)
    requires j <= |t|
    requires forall k :: 0 <= k < |idx| ==> idx[k] < j
    ensures FieldsAt(t[..j], idx) == FieldsAt(t, idx)
  {
    var a, b := FieldsAt(t[..j], idx), FieldsAt(t, idx);
    assert |a| == |b|;
    forall k | 0 <= k < |idx| ensures a[k] == b[k] {
      assert t[..j][idx[k]] == t[idx[k]];
    }
  }

  /** The place of each field in the struct, counting from 0. */
  function Position(f: FieldId): nat
  {
    match f
    case UID => 0
    case DateStamp => 1
    case DateStart => 2
    case DateEnd => 3
    case Duration => 4
    case AccessClassification => 5
    case Created => 6
    case Description => 7
    case Geo => 8
    case LastModified => 9
    case Location => 10
    case Organizer => 11
    case Priority => 12
    case Sequence => 13
    case Status => 14
    case Summary => 15
    case TimeTransparency => 16
    case Url => 17
    case RecurrenceId => 18
    case RecurrenceRule => 19
    case Attachment => 20
    case Attendees => 21
    case Categories => 22
    case Comments => 23
    case ContactInfo => 24
    case ExceptionDateTimes => 25
    case RecurrenceDateTimes => 26
    case RelatedTo => 27
    case Resources => 28
  }

  /** The table has one entry for each of the 29 declared fields, in declaration order. */
  lemma DeclarationOrder()
    ensures |Descriptors()| == 29 && ListsFieldsInOrder(Descriptors())
  {
  }

  /** Every field of the struct has an entry in the table, at its declared position. */
  lemma EveryFieldListed()
    ensures forall f: FieldId :: Position(f) < |Fields| && Fields[Position(f)] == f
  {
  }

  /** The table's i-th entry is the field the struct declares i-th. */
  lemma TableFollowsPositions()
    ensures forall i :: 0 <= i < |Fields| ==> Position(Fields[i]) == i
  {
    FirstPositions();
    LastPositions();
  }

  // The two halves of TableFollowsPositions.
  lemma FirstPositions()
    ensures forall i :: 0 <= i < 15 ==> Position(Fields[i]) == i
  {
  }

  lemma LastPositions()
    ensures forall i :: 15 <= i < |Fields| ==> Position(Fields[i]) == i
  {
  }

  /** No field appears twice in the table. */
  lemma FieldsDistinct()
    ensures forall i, j :: 0 <= i < j < |Fields| ==> Fields[i] != Fields[j]
  {
    TableFollowsPositions();
  }

  /** Exactly UID, DateStamp and DateStart are required. */
  lemma RequiredFields()
    ensures forall f: FieldId :: DescriptorOf(f).required <==> f in {UID, DateStamp, DateStart}
  {
  }

  /** A tag is well-formed when Go's struct-tag lookup finds its `ical` key. */
  predicate WellFormedTag(f: FieldId) {
    Lookup(Decl(f).tag, "ical").Some?
  }

  /** Every tag but AccessClassification's is well-formed. */
  lemma WellFormedTags()
    ensures forall f: FieldId :: WellFormedTag(f) <==> f != AccessClassification
  {
  }

  /**
   * The omit-if-empty fields are all but the three required ones and
   * AccessClassification, whose tag is not well-formed.
   */
  lemma OmitEmptyFields()
    ensures forall f: FieldId :: DescriptorOf(f).omitEmpty <==> f !in {UID, DateStamp, DateStart, AccessClassification}
  {
    OmitEmptyUnlessRequired();
    RequiredFields();
    WellFormedTags();
  }

  /** The omit-if-empty flag is set on every readable tag that is not required. */
  lemma OmitEmptyUnlessRequired()
    ensures forall f: FieldId :: DescriptorOf(f).omitEmpty <==> !DescriptorOf(f).required && WellFormedTag(f)
  {
  }

  /**
   * The AccessClassification tag, written `ical:class,omitempty` without quotes,
   * contributes nothing: its descriptor has no name override and neither the
   * required nor the omit-if-empty flag, although the tag as written names
   * `class` and lists `omitempty`.
   */
  lemma AccessClassificationTagInert()
    ensures Decl(AccessClassification).tag.name == "class"
    ensures OmitEmpty in Decl(AccessClassification).tag.options
    ensures DescriptorOf(AccessClassification)
      == FieldDescriptor(AccessClassification, None, false, false, false, false)
  {
  }

  /** The wire names the tags give explicitly, by field. */
  const ExplicitNames: map<FieldId, string> := map[
    DateStamp := "dtstamp", DateStart := "dtstart", DateEnd := "dtend",
    LastModified := "last-modified", TimeTransparency := "transp",
    RecurrenceId := "recurrence_id", Attachment := "attach", ContactInfo := "contact"]

  /** Name overrides appear on exactly the fields of ExplicitNames, with those names. */
  lemma NameOverrides()
    ensures forall f: FieldId :: DescriptorOf(f).nameOverride.Some? <==> f in ExplicitNames
    ensures forall f: FieldId :: f in ExplicitNames ==> DescriptorOf(f).nameOverride == Some(ExplicitNames[f])
  {
    forall f: FieldId
      ensures DescriptorOf(f).nameOverride.Some? <==> f in ExplicitNames
      ensures f in ExplicitNames ==> DescriptorOf(f).nameOverride == Some(ExplicitNames[f])
    {
      if f in ExplicitNames {
        assert f in {DateStamp, DateStart, DateEnd, LastModified, TimeTransparency, RecurrenceId, Attachment, ContactInfo};
      } else {
        assert f !in {DateStamp, DateStart, DateEnd, LastModified, TimeTransparency, RecurrenceId, Attachment, ContactInfo};
      }
    }
  }

  /** No two fields of ExplicitNames share a name. */
  lemma ExplicitNamesInjective()
    ensures forall f, g :: f in ExplicitNames && g in ExplicitNames && f != g ==>
      ExplicitNames[f] != ExplicitNames[g]
  {
  }

  /** No two fields are given the same explicit wire name. */
  lemma NameOverridesDistinct()
    ensures forall f: FieldId, g: FieldId ::
      f != g && DescriptorOf(f).nameOverride.Some? && DescriptorOf(g).nameOverride.Some? ==>
        DescriptorOf(f).nameOverride != DescriptorOf(g).nameOverride
  {
    NameOverrides();
    ExplicitNamesInjective();
  }

  /** Among the embedded entries, only TimeTransparency has a name override. */
  lemma EmbeddedNameOverride()
    ensures forall f: FieldId :: DescriptorOf(f).embedded && DescriptorOf(f).nameOverride.Some? ==>
      f == TimeTransparency
  {
    EmbeddedExactly();
    forall f: FieldId | DescriptorOf(f).embedded && DescriptorOf(f).nameOverride.Some?
      ensures f == TimeTransparency
    {
      assert f == TimeTransparency || f == RecurrenceRule || f == ExceptionDateTimes || f == RecurrenceDateTimes;
    }
  }

  /**
   * The four anonymous fields are the embedded ones: their entries are flattened
   * into the parent component.
   */
  lemma EmbeddedExactly()
    ensures forall f: FieldId :: DescriptorOf(f).embedded <==>
      f in {TimeTransparency, RecurrenceRule, ExceptionDateTimes, RecurrenceDateTimes}
  {
  }

  /** The multi-valued entries: the two slices and the three CSV lists. */
  lemma RepeatedFields()
    ensures forall f: FieldId :: DescriptorOf(f).repeated <==>
      f in {Attendees, Categories, Comments, ContactInfo, Resources}
  {
  }

  // The flags of a descriptor, as predicates to select entries by.
  predicate IsRequired(d: FieldDescriptor) { d.required }
  predicate IsEmbedded(d: FieldDescriptor) { d.embedded }
  predicate IsRepeated(d: FieldDescriptor) { d.repeated }

  /**
   * A flag that holds of exactly the fields declared at the increasing positions
   * idx holds of exactly the table entries at idx.
   */
  lemma FlagPositions(p: FieldDescriptor -> bool, idx: seq<nat>)
    requires Increasing(idx) && forall k :: 0 <= k < |idx| ==> idx[k] < |Fields|
    requires forall f: FieldId :: p(DescriptorOf(f)) <==> Position(f) in idx
    ensures SelectedExactlyAt(Descriptors(), p, idx)
  {
    TableFollowsPositions();
    forall i | 0 <= i < |Fields| ensures p(Descriptors()[i]) <==> i in idx {
      assert Position(Fields[i]) == i;
    }
  }

  /** The required entries are the first three of the table, and only those. */
  lemma RequiredPositions()
    ensures SelectedExactlyAt(Descriptors(), IsRequired, [0, 1, 2])
  {
    RequiredFields();
    FlagPositions(IsRequired, [0, 1, 2]);
  }

  /** The embedded entries are those at positions 16, 19, 25 and 26. */
  lemma EmbeddedPositions()
    ensures SelectedExactlyAt(Descriptors(), IsEmbedded, [16, 19, 25, 26])
  {
    EmbeddedExactly();
    FlagPositions(IsEmbedded, [16, 19, 25, 26]);
  }

  /** The multi-valued entries are those at positions 21 to 24 and 28. */
  lemma RepeatedPositions()
    ensures SelectedExactlyAt(Descriptors(), IsRepeated, [21, 22, 23, 24, 28])
  {
    var idx: seq<nat> := [21, 22, 23, 24, 28];
    RepeatedFields();
    forall f: FieldId ensures IsRepeated(DescriptorOf(f)) <==> Position(f) in idx {
      var n := Position(f);
      assert n in idx <==> n == 21 || n == 22 || n == 23 || n == 24 || n == 28;
    }
    FlagPositions(IsRepeated, idx);
  }

  /** The required fields, in table order: UID, DateStamp, DateStart. */
  lemma RequiredFieldsInOrder()
    ensures Select(Descriptors(), IsRequired) == [UID, DateStamp, DateStart]
  {
    RequiredPositions();
    SelectAtPositions(Descriptors(), IsRequired, [0, 1, 2]);
    DeclarationOrder();
    RequiredEntries(Descriptors());
  }

  /** The embedded fields, in table order. */
  lemma EmbeddedFieldsInOrder()
    ensures Select(Descriptors(), IsEmbedded)
      == [TimeTransparency, RecurrenceRule, ExceptionDateTimes, RecurrenceDateTimes]
  {
    EmbeddedPositions();
    SelectAtPositions(Descriptors(), IsEmbedded, [16, 19, 25, 26]);
    DeclarationOrder();
    EmbeddedEntries(Descriptors());
  }

  /** The multi-valued fields, in table order. */
  lemma RepeatedFieldsInOrder()
    ensures Select(Descriptors(), IsRepeated)
      == [Attendees, Categories, Comments, ContactInfo, Resources]
  {
    RepeatedPositions();
    SelectAtPositions(Descriptors(), IsRepeated, [21, 22, 23, 24, 28]);
    DeclarationOrder();
    RepeatedEntries(Descriptors());
  }

  /** A table whose entries name the fields in declaration order. */
  predicate ListsFieldsInOrder(t: seq<FieldDescriptor>) {
    |t| == |Fields| && forall i :: 0 <= i < |t| ==> t[i].field == Fields[i]
  }

  /** In a table that lists the fields in order, the fields at their own positions are read back. */
  lemma EntriesAtPositions(t: seq<FieldDescriptor>, fs: seq<FieldId>, idx: seq<nat>)
    requires ListsFieldsInOrder(t)
    requires |idx| == |fs| && forall k :: 0 <= k < |fs| ==> idx[k] == Position(fs[k])
    ensures forall k :: 0 <= k < |idx| ==> idx[k] < |t|
    ensures FieldsAt(t, idx) == fs
  {
    EveryFieldListed();
  }

  /** In a table that lists the fields in order, positions 0 to 2 hold the required fields. */
  lemma RequiredEntries(t: seq<FieldDescriptor>)
    requires ListsFieldsInOrder(t)
    ensures FieldsAt(t, [0, 1, 2]) == [UID, DateStamp, DateStart]
  {
    EntriesAtPositions(t, [UID, DateStamp, DateStart], [0, 1, 2]);
  }

  /** In a table that lists the fields in order, positions 16, 19, 25 and 26 hold the embedded fields. */
  lemma EmbeddedEntries(t: seq<FieldDescriptor>)
    requires ListsFieldsInOrder(t)
    ensures FieldsAt(t, [16, 19, 25, 26])
      == [TimeTransparency, RecurrenceRule, ExceptionDateTimes, RecurrenceDateTimes]
  {
    EntriesAtPositions(t, [TimeTransparency, RecurrenceRule, ExceptionDateTimes, RecurrenceDateTimes],
      [16, 19, 25, 26]);
  }

  /** In a table that lists the fields in order, positions 21 to 24 and 28 hold the multi-valued fields. */
  lemma RepeatedEntries(t: seq<FieldDescriptor>)
    requires ListsFieldsInOrder(t)
    ensures FieldsAt(t, [21, 22, 23, 24, 28])
      == [Attendees, Categories, Comments, ContactInfo, Resources]
  {
    EntriesAtPositions(t, [Attendees, Categories, Comments, ContactInfo, Resources],
      [21, 22, 23, 24, 28]);
  }

  /** Whether field f of e is a pointer that is not nil; false for fields that are not pointers. */
  predicate IsNonNil(e: Event, f: FieldId) {
    match f
    case DateStamp => e.dateStamp.Some?
    case DateStart => e.dateStart.Some?
    case DateEnd => e.dateEnd.Some?
    case Duration => e.duration.Some?
    case Created => e.created.Some?
    case Geo => e.geo.Some?
    case LastModified => e.lastModified.Some?
    case Organizer => e.organizer.Some?
    case Url => e.url.Some?
    case RecurrenceId => e.recurrenceId.Some?
    case RecurrenceRule => e.recurrenceRule.Some?
    case Attachment => e.attachment.Some?
    case RelatedTo => e.relatedTo.Some?
    case _ => false
  }

  /** The fields of e that the struct declares as pointers and that are not nil. */
  function NonNilFields(e: Event): (s: set<FieldId>)
    ensures forall f :: f in s ==> Decl(f).goType.Pointer?
    ensures forall f :: Decl(f).goType.Pointer? ==> (f in s <==> IsNonNil(e, f))
  {
    EveryFieldListed();
    set f | f in Fields && IsNonNil(e, f)
  }

  /**
   * An event whose every pointer field is set reports every pointer-typed field:
   * no pointer field of the struct is missing from IsNonNil.
   */
  lemma AllPointersSetReported(e: Event)
    requires e.dateStamp.Some? && e.dateStart.Some? && e.dateEnd.Some? && e.duration.Some?
    requires e.created.Some? && e.geo.Some? && e.lastModified.Some? && e.organizer.Some?
    requires e.url.Some? && e.recurrenceId.Some? && e.recurrenceRule.Some?
    requires e.attachment.Some? && e.relatedTo.Some?
    ensures forall f :: Decl(f).goType.Pointer? <==> f in NonNilFields(e)
  {
  }

  /**
   * Validation succeeds exactly when at most one of the two fields DTEND and
   * DURATION is present, the form in which section 3.6.1 of RFC 5545 states it.
   */
  lemma ValidationAllowsAtMostOneOfEndAndDuration(e: Event)
    ensures ValidateICalValue(e).Success? <==> |NonNilFields(e) * {DateEnd, Duration}| <= 1
  {
    EndAndDurationNonNil(e);
    AtMostOneOfEndAndDuration(NonNilFields(e));
  }

  /** At most one of DateEnd and Duration is in s exactly when not both are. */
  lemma AtMostOneOfEndAndDuration(s: set<FieldId>)
    ensures |s * {DateEnd, Duration}| <= 1 <==> !(DateEnd in s && Duration in s)
  {
    var both := s * {DateEnd, Duration};
    if DateEnd in s && Duration in s {
      assert both == {DateEnd, Duration};
    } else if DateEnd in s {
      assert both == {DateEnd};
    } else if Duration in s {
      assert both == {Duration};
    } else {
      assert both == {};
    }
  }

  /** DateEnd and Duration are among the non-nil fields exactly when they are set. */
  lemma EndAndDurationNonNil(e: Event)
    ensures DateEnd in NonNilFields(e) <==> e.dateEnd.Some?
    ensures Duration in NonNilFields(e) <==> e.duration.Some?
  {
    assert Fields[3] == DateEnd && Fields[4] == Duration;
  }
}
