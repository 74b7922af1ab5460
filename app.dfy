/**
 * The `App` component's state and its event handlers, run one at a time.
 * Each network request is a parameter: the response the server would give
 * (`Ok` with its body) or a rejected request (`Failed`).
 */
module AppState {
  import opened Wrappers
  import opened Records
  import opened Serialize
  import opened Normalize

  /** The settled promise of a request whose body the handler reads. */
  datatype Response<T> = Ok(data: T) | Failed

  /** The settled promise of a request whose body the handler ignores. */
  datatype Ack = Acked | Rejected

  /** What `handleFormSubmit` posts for draft `d`, given how the image
      upload settles (it is only sent when a file is attached). */
  function Submission(d: Draft, upload: Response<string>,
                      parseFloat: string -> Option<real>): Option<DiningEvent>
  {
    if d.file.None? then Some(DraftToRecord(d, None, parseFloat))
    else match upload
      case Failed => None
      case Ok(path) => Some(DraftToRecord(d, Some(path), parseFloat))
  }

  /** Nothing is posted exactly when an attached file fails to upload;
      otherwise the record posted is the draft's record, and it carries an
      image path exactly when a file was attached, namely the path the upload
      returned. */
  lemma {:induction false} SubmissionOutcome(d: Draft, upload: Response<string>,
                                            parseFloat: string -> Option<real>)
    ensures Submission(d, upload, parseFloat).None? <==> d.file.Some? && upload.Failed?
    ensures Submission(d, upload, parseFloat).Some? ==>
              (Submission(d, upload, parseFloat).value.image_path.Some? <==> d.file.Some?)
    ensures Submission(d, upload, parseFloat).Some? && d.file.Some? ==>
              Submission(d, upload, parseFloat).value.image_path == Some(upload.data)
    ensures Submission(d, upload, parseFloat).Some? ==>
              Submission(d, upload, parseFloat).value
              == DraftToRecord(d, Submission(d, upload, parseFloat).value.image_path, parseFloat)
  {
  }

  class App {
    var events: seq<CalendarEntry>
    var showCreateModal: bool
    var showDetailModal: bool
    var selectedEvent: Option<CalendarEntry>
    var formData: Draft

    /** The initial `useState` values; the mount effect then calls `FetchEvents`. */
    constructor ()
      ensures events == []
      ensures !showCreateModal && !showDetailModal
      ensures selectedEvent == None && formData == InitialForm
    {
      events := [];
      showCreateModal := false;
      showDetailModal := false;
      selectedEvent := None;
      formData := InitialForm;
    }

    /** `fetchEvents`: on success the entry list is replaced by the mapped
        response, whatever it held before; on failure nothing changes. */
    method FetchEvents(response: Response<seq<DiningEvent>>)
      modifies this`events
      ensures response.Ok? ==> events == ToEntries(response.data)
      ensures response.Failed? ==> events == old(events)
    {
      match response
      case Ok(records) =>
        events := ToEntries(records);
      case Failed =>
    }

    /** `handleDateClick`: the clicked day goes into the draft, which keeps
        every other input, and the create form opens. */
    method DateClick(dateStr: string)
      modifies this`formData, this`showCreateModal
      ensures formData == old(formData).(date := dateStr)
      ensures showCreateModal
    {
      formData := formData.(date := dateStr);
      showCreateModal := true;
    }

    /** `handleEventClick`: the clicked entry is selected and its details shown. */
    method EventClick(entry: CalendarEntry)
      modifies this`selectedEvent, this`showDetailModal
      ensures selectedEvent == Some(entry) && showDetailModal
    {
      selectedEvent := Some(entry);
      showDetailModal := true;
    }

    /** A text input's `onChange`: that input alone takes the new text. */
    method EditField(field: DraftField, value: string)
      modifies this`formData
      ensures formData == WithField(old(formData), field, value)
    {
      formData := WithField(formData, field, value);
    }

    /** The file input's `onChange` (`None` when the picker is dismissed). */
    method PickFile(file: Option<LocalFile>)
      modifies this`formData
      ensures formData == old(formData).(file := file)
    {
      formData := formData.(file := file);
    }

    /** The create form's close and cancel buttons: the form hides and the
        draft stays as it is. */
    method CloseCreateModal()
      modifies this`showCreateModal
      ensures !showCreateModal
    {
      showCreateModal := false;
    }

    /** The detail view's close button: the view hides; the selection stays. */
    method CloseDetailModal()
      modifies this`showDetailModal
      ensures !showDetailModal
    {
      showDetailModal := false;
    }

    /** The second half of `handleFormSubmit`, once the record has been
        `sent` (or not) and the create request has settled: an accepted
        create closes the form, resets the draft to `initialForm` and
        re-fetches the list; otherwise nothing changes. */
    method AfterCreate(sent: bool, create: Ack, refetch: Response<seq<DiningEvent>>)
      modifies this`showCreateModal, this`formData, this`events
      ensures !sent || create.Rejected? ==>
                && events == old(events)
                && showCreateModal == old(showCreateModal) && formData == old(formData)
      ensures sent && create.Acked? ==>
                && !showCreateModal && formData == InitialForm
                && events == (if refetch.Ok? then ToEntries(refetch.data) else old(events))
    {
      if sent && create.Acked? {
        showCreateModal := false;
        formData := InitialForm;
        FetchEvents(refetch);
      }
    }

    /** `handleFormSubmit`. `posted` is the record sent to the create
        endpoint, if one was sent. A rejected create changes nothing; an
        accepted one closes the form, resets the draft to `initialForm` and
        re-fetches the list. */
    method SubmitForm(parseFloat: string -> Option<real>, upload: Response<string>,
                      create: Ack, refetch: Response<seq<DiningEvent>>)
      returns (posted: Option<DiningEvent>)
      modifies this`showCreateModal, this`formData, this`events
      ensures posted == Submission(old(formData), upload, parseFloat)
      ensures posted.None? || create.Rejected? ==>
                && events == old(events)
                && showCreateModal == old(showCreateModal) && formData == old(formData)
      ensures posted.Some? && create.Acked? ==>
                && !showCreateModal && formData == InitialForm
                && events == (if refetch.Ok? then ToEntries(refetch.data) else old(events))
    {
      posted := Submission(formData, upload, parseFloat);
      AfterCreate(posted.Some?, create, refetch);
    }

    /** `handleDelete`. Without a selection it does nothing and sends
        nothing. An accepted delete hides the detail view, clears the
        selection and re-fetches; a rejected one changes nothing. The request
        names `old(selectedEvent).value.id`. */
    method Delete(delete: Ack, refetch: Response<seq<DiningEvent>>)
      returns (requested: bool)
      modifies this`showDetailModal, this`selectedEvent, this`events
      ensures requested == old(selectedEvent).Some?
      ensures !requested || delete.Rejected? ==>
                && events == old(events)
                && showDetailModal == old(showDetailModal) && selectedEvent == old(selectedEvent)
      ensures requested && delete.Acked? ==>
                && !showDetailModal && selectedEvent == None
                && events == (if refetch.Ok? then ToEntries(refetch.data) else old(events))
    {
      if selectedEvent.None? {
        return false;
      }
      requested := true;
      if delete.Acked? {
        showDetailModal := false;
        selectedEvent := None;
        FetchEvents(refetch);
      }
    }
  }
}
