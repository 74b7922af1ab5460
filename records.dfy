/**
 * The shapes the calendar front end works with: the server record, the
 * calendar entry handed to the calendar widget, and the create-form draft.
 */
module Records {
  import opened Wrappers

  /** A dining event as the server stores and lists it (the `DiningEvent`
      table model). `cost_total` is a float on the server; here a real. The
      timestamp `date` reaches the client as text. */
  datatype DiningEvent = DiningEvent(
    id: Option<int>,
    title: string,
    date: string,
    location: string,
    participants: seq<string>,
    cost_total: real,
    rating: int,
    tags: seq<string>,
    notes: string,
    image_path: Option<string>)

  /** The fields of a record the calendar carries along for the detail view. */
  datatype ExtendedProps = ExtendedProps(
    location: string,
    participants: seq<string>,
    cost_total: real,
    rating: int,
    tags: seq<string>,
    notes: string,
    image_path: Option<string>)

  /** An event object in the shape the calendar widget reads. */
  datatype CalendarEntry = CalendarEntry(
    id: Option<int>,
    title: string,
    start: string,
    extendedProps: ExtendedProps)

  /** A file picked in the form's file input (its content is not modelled). */
  datatype LocalFile = LocalFile(name: string)

  /** The create form's draft: every input's current text, and the picked file. */
  datatype Draft = Draft(
    title: string,
    location: string,
    category: string,
    participants: string,
    cost_total: string,
    rating: string,
    tags: string,
    notes: string,
    date: string,
    startTime: string,
    endDate: string,
    endTime: string,
    file: Option<LocalFile>)

  /** `initialForm`: everything empty except the default start and end times. */
  const InitialForm: Draft :=
    Draft("", "", "", "", "", "", "", "", "", "18:00", "", "20:00", None)

  /** The text inputs of the form, one per `onChange` handler that edits text. */
  datatype DraftField =
    | Title | Location | Category | Participants | CostTotal | Rating
    | Tags | Notes | Date | StartTime | EndDate | EndTime

  /** The current text of one input. */
  function FieldOf(d: Draft, f: DraftField): string
  {
    match f
    case Title => d.title
    case Location => d.location
    case Category => d.category
    case Participants => d.participants
    case CostTotal => d.cost_total
    case Rating => d.rating
    case Tags => d.tags
    case Notes => d.notes
    case Date => d.date
    case StartTime => d.startTime
    case EndDate => d.endDate
    case EndTime => d.endTime
  }

  /** `{ ...formData, <field>: value }`: the draft with one input replaced. */
  function WithField(d: Draft, f: DraftField, value: string): (e: Draft)
    ensures FieldOf(e, f) == value
    ensures forall g :: g != f ==> FieldOf(e, g) == FieldOf(d, g)
    ensures e.file == d.file
  {
    match f
    case Title => d.(title := value)
    case Location => d.(location := value)
    case Category => d.(category := value)
    case Participants => d.(participants := value)
    case CostTotal => d.(cost_total := value)
    case Rating => d.(rating := value)
    case Tags => d.(tags := value)
    case Notes => d.(notes := value)
    case Date => d.(date := value)
    case StartTime => d.(startTime := value)
    case EndDate => d.(endDate := value)
    case EndTime => d.(endTime := value)
  }

  /** Two drafts that agree on every input and on the file are the same draft. */
  lemma {:induction false} DraftExtensionality(d: Draft, e: Draft)
    requires forall f :: FieldOf(d, f) == FieldOf(e, f)
    requires d.file == e.file
    ensures d == e
  {
    assert FieldOf(d, Title) == FieldOf(e, Title);
    assert FieldOf(d, Location) == FieldOf(e, Location);
    assert FieldOf(d, Category) == FieldOf(e, Category);
    assert FieldOf(d, Participants) == FieldOf(e, Participants);
    assert FieldOf(d, CostTotal) == FieldOf(e, CostTotal);
    assert FieldOf(d, Rating) == FieldOf(e, Rating);
    assert FieldOf(d, Tags) == FieldOf(e, Tags);
    assert FieldOf(d, Notes) == FieldOf(e, Notes);
    assert FieldOf(d, Date) == FieldOf(e, Date);
    assert FieldOf(d, StartTime) == FieldOf(e, StartTime);
    assert FieldOf(d, EndDate) == FieldOf(e, EndDate);
    assert FieldOf(d, EndTime) == FieldOf(e, EndTime);
  }

  /** Editing an input to the text it already has changes nothing, and a
      second edit of the same input overrides the first. */
  lemma {:induction false} EditLaws(d: Draft, f: DraftField, v: string, w: string)
    ensures WithField(d, f, FieldOf(d, f)) == d
    ensures WithField(WithField(d, f, v), f, w) == WithField(d, f, w)
  {
    DraftExtensionality(WithField(d, f, FieldOf(d, f)), d);
    DraftExtensionality(WithField(WithField(d, f, v), f, w), WithField(d, f, w));
  }
}
