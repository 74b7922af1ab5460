# Dining Calendar front end, modelled in Dafny

This project models the client logic of the Dining Calendar single-page
application, `frontend/src/App.jsx`. The app is a calendar of group dining
events. Clicking a day opens a create form. Clicking an event opens a detail
view, where the event can be deleted. Records go to a remote HTTP API.

The model has three parts.

- **Draft-to-record serialisation** (`handleFormSubmit`). The participants
  and tags texts are split on commas, each piece is trimmed, and the empty
  pieces are dropped. The start timestamp is the date, `T`, and the start
  time, or `00:00` when no start time is given. An end timestamp exists only
  when an end date was entered. The free-text notes, the category
  (`类型：…`) and the end timestamp (`结束：…`) are folded into one `notes`
  string joined by `" | "`. The cost goes through `parseFloat(...) || 0` and
  the rating through `parseInt(...) || 0`.
- **Fetch normalisation** (`fetchEvents`). Each server record (the
  `DiningEvent` table model of `models.py`) becomes a calendar entry. The
  entry has `date` renamed to `start`, and the remaining fields sit under
  `extendedProps`. The list is replaced whole, and only when the request
  succeeds.
- **The component's state and handlers.** The `App` component is a class
  with the fields `events`, `showCreateModal`, `showDetailModal`,
  `selectedEvent` and `formData`. The handlers are methods on the class:
  the date and event clicks, the text and file inputs, the close and cancel
  buttons, submit and delete.

Each network request is a parameter of the handler that makes it. The
parameter says how the request settles: `Ok` with the response body or
`Failed` for a response the handler reads, and `Acked` or `Rejected` for one
whose body it ignores.

Modules, one file each:

- `Wrappers`: `Option`.
- `Strings`: JavaScript `trim`, `split(',')`, `join` and `filter(Boolean)`.
- `Numbers`: `parseInt` over decimal numerals.
- `Records`: the record, entry and draft shapes, and `initialForm`.
- `Serialize`: the posted record.
- `Normalize`: the fetch mapping.
- `AppState`: the component.

Behaviour of the code worth knowing:

- Date click keeps the old draft's other inputs. It does not start from a
  fresh draft.
- Close and cancel hide the form but keep the draft. The detail view's close
  button keeps the selection.
- Nothing in the handlers keeps the two views exclusive.
- Failures go to `console.error` only; no notification is shown.
- The code splits first and trims each piece afterwards.
- This revision folds the category and the end into `notes`. Its record has
  no separate category or end field.

## Model

| member | source | states |
|---|---|---|
| Strings.IsWhitespace | frontend/src/App.jsx:108-110 | the WhiteSpace and LineTerminator code points of ECMAScript: what `trim` strips from both ends and `parseInt` skips in front; TrimStartDrops and TrimEndDrops state that only these are dropped |
| Strings.Trim | frontend/src/App.jsx:108 | `p.trim()`: drops leading then trailing ECMAScript whitespace; characterised by TrimTrims, TrimStartDrops, TrimEndDrops, TrimInfix and TrimKeeps |
| Strings.TrimInfix | frontend/src/App.jsx:108 | what `trim` keeps is the infix of its input that starts where the leading whitespace ends |
| Strings.Split | frontend/src/App.jsx:108 | `text.split(',')`: the separator-free pieces in order, never an empty array; characterised by SplitPiecesFree, SplitJoin and SplitConcat |
| Strings.Join | frontend/src/App.jsx:103 | `parts.join(sep)`: the parts with `sep` between neighbours; the inverse of Split by SplitJoin |
| Strings.NonEmpty | frontend/src/App.jsx:108 | `filter(Boolean)` on strings: the non-empty ones in order; characterised by NonEmptyMembers |
| Strings.TrimAll | frontend/src/App.jsx:108 | `map(p => p.trim())`: one trim per piece, same length; characterised by TrimAllMembers |
| Strings.TrimTrims | frontend/src/App.jsx:108 | `trim` yields a string that neither starts nor ends with whitespace, and leaves such a string unchanged |
| Strings.TrimStartDrops | frontend/src/App.jsx:108 | every character the leading trim drops is ECMAScript whitespace |
| Strings.TrimEndDrops | frontend/src/App.jsx:108 | every character the trailing trim drops is ECMAScript whitespace |
| Strings.TrimKeeps | frontend/src/App.jsx:108 | `trim` introduces no character that was not in its input |
| Strings.SplitPiecesFree | frontend/src/App.jsx:108 | no piece of `split(sep)` contains the separator |
| Strings.SplitJoin | frontend/src/App.jsx:108 | joining the pieces of `split(sep)` with `sep` gives back the original text |
| Strings.SplitConcat | frontend/src/App.jsx:108 | splitting `a + sep + b` splits `a` and `b` independently and concatenates the results |
| Strings.NonEmptyMembers | frontend/src/App.jsx:108 | `filter(Boolean)` keeps exactly the non-empty strings (both directions) |
| Strings.TrimAllMembers | frontend/src/App.jsx:108 | the trimmed list holds exactly the trims of the pieces (both directions) |
| Strings.JoinNonEmptyOfThree | frontend/src/App.jsx:97-103 | dropping the blanks from three strings and joining the rest equals the present strings in order, one separator between neighbours |
| Strings.JoinNonEmptyOfThreeShape | frontend/src/App.jsx:97-103 | that join is blank exactly when all three are blank, equals the first when the other two are blank, starts with the first, then has the second, and ends with the third |
| Numbers.ParseInt | frontend/src/App.jsx:110 | radix-10 `parseInt`: ParseSigned after the leading whitespace (ParseSkipsWhitespace) |
| Numbers.ParseSigned | frontend/src/App.jsx:110 | an optional sign, then the longest digit run (DigitPrefixMaximal); NaN when there is none |
| Numbers.RatingOf | frontend/src/App.jsx:110 | `parseInt(rating)`, or 0 when that is NaN; characterised by NumeralRates and NoDigitsRatesZero |
| Numbers.DigitPrefixMaximal | frontend/src/App.jsx:110 | the digits `parseInt` reads are a prefix of its input, and the longest run of digits there |
| Numbers.NoDigitsRatesZero | frontend/src/App.jsx:110 | a rating text without any digit parses as NaN and rates 0 |
| Numbers.ParseSkipsWhitespace | frontend/src/App.jsx:110 | leading whitespace does not change what `parseInt` returns |
| Numbers.NumeralRates | frontend/src/App.jsx:110 | whitespace, an optional minus, a decimal numeral and a non-digit tail rate as the numeral's value, negated after the minus |
| Records.InitialForm | frontend/src/App.jsx:9-23 | `initialForm`: every input empty except start `18:00` and end `20:00`, no file; what FreshDraftRecord posts from |
| Records.WithField | frontend/src/App.jsx:177-320 | an input's `onChange` replaces that input's text and keeps every other input and the picked file |
| Records.EditLaws | frontend/src/App.jsx:177-320 | writing an input's current text back changes nothing, and a second edit of the same input overrides the first |
| Serialize.ParseList | frontend/src/App.jsx:108 | `split(',').map(trim).filter(Boolean)`, for participants and tags alike; characterised by ParseListMembers, ParseListClean and ParseListConcat |
| Serialize.ParseListClean | frontend/src/App.jsx:108 | every parsed participant or tag is non-empty, has no surrounding whitespace and contains no comma |
| Serialize.ParseListMembers | frontend/src/App.jsx:108 | the parsed items are exactly the non-empty trims of the comma-separated pieces (both directions) |
| Serialize.ParseListConcat | frontend/src/App.jsx:108 | in `a,b` the text before and after the comma is parsed independently, in order |
| Serialize.ParseListPiece | frontend/src/App.jsx:108 | comma-free text is one item, its trim, or no item when the trim is empty |
| Serialize.ParseListSkipsWhitespace | frontend/src/App.jsx:108 | whitespace in front of the list text changes nothing |
| Serialize.ParseJoinedList | frontend/src/App.jsx:108 | a clean list joined with `,` parses back to the same list |
| Serialize.ParseDisplayedList | frontend/src/App.jsx:363 | a clean list as the detail view shows it, joined with `, `, parses back to the same list when typed into the form |
| Serialize.ParseListIdempotent | frontend/src/App.jsx:108 | parsing the displayed form of a parsed list gives the same list |
| Serialize.ParticipantsExample | frontend/src/App.jsx:108 | `"Alice, Bob ,,"` parses to `["Alice", "Bob"]` |
| Serialize.TimeOrMidnight | frontend/src/App.jsx:92-94 | the logical-or default of App.jsx:92 and 94: the entered time, or midnight when the input is empty; TimestampSplits and EndTimestampSplits recover it from the timestamps |
| Serialize.StartTimestamp | frontend/src/App.jsx:92 | the date, `T`, and the start time or `00:00`; characterised by TimestampSplits |
| Serialize.TimestampSplits | frontend/src/App.jsx:92 | the start timestamp splits at its first `T` into the date and the start time, or `00:00` when none was given |
| Serialize.EndTimestamp | frontend/src/App.jsx:93-95 | the end timestamp is absent exactly when no end date was entered |
| Serialize.EndTimestampSplits | frontend/src/App.jsx:93-95 | the end timestamp is absent without an end date; otherwise it splits into the end date and the end time, or `00:00` when none was given |
| Serialize.CategoryPart | frontend/src/App.jsx:99 | `类型：` and the category, or blank without one (PartsPresent) |
| Serialize.EndPart | frontend/src/App.jsx:100 | `结束：` and the end timestamp, or blank without one (PartsPresent) |
| Serialize.ComposeNotes | frontend/src/App.jsx:97-103 | the three parts with blanks dropped, joined by the notes separator; characterised by ComposeNotesClosedForm and ComposeNotesShape |
| Serialize.PartsPresent | frontend/src/App.jsx:99-100 | the category part is blank exactly when there is no category, and the end part exactly when there is no end |
| Serialize.ComposeNotesClosedForm | frontend/src/App.jsx:97-103 | the composed notes are the notes, the labelled category and the labelled end, with the blank ones dropped, joined by `NotesSeparator` in that order |
| Serialize.ComposeNotesShape | frontend/src/App.jsx:97-103 | the composed notes are empty exactly when all three parts are absent, equal the bare notes without category and end, start with the notes, have the labelled category next, and end with the labelled end |
| Serialize.CostOf | frontend/src/App.jsx:109 | `parseFloat(cost)`, or 0 when that is NaN, with `parseFloat` a parameter and NaN as `None` |
| Serialize.DraftToRecord | frontend/src/App.jsx:105-115 | the posted record has no id, copies title and location, carries the uploaded image path, has clean participant and tag lists and a date that starts with the draft's date and `T`, and blank notes exactly when notes, category and end date are all blank |
| Serialize.SubmitExample | frontend/src/App.jsx:105-115 | participants `"Alice, Bob ,,"`, cost `"abc"` and a start date post `["Alice", "Bob"]`, cost 0, `<date>T18:00` and empty notes |
| Serialize.FreshDraftRecord | frontend/src/App.jsx:9-23 | an untouched `initialForm` with only the date set posts empty text and lists, cost and rating 0, no image, and the start `<date>T18:00` |
| Normalize.ToEntry | frontend/src/App.jsx:39-52 | one record as a calendar entry: id, title, `start` from `date`, the rest under `extendedProps`; inverse FromEntry by EntryRoundTrip |
| Normalize.ToEntries | frontend/src/App.jsx:39-52 | `response.data.map(...)`; characterised by ToEntriesPointwise, ToEntriesFields and ToEntriesRoundTrip |
| Normalize.EntryRoundTrip | frontend/src/App.jsx:39-52 | the record-to-entry projection is a renaming: the record can be recovered from the entry and the other way round |
| Normalize.ToEntriesPointwise | frontend/src/App.jsx:39-52 | the mapped list has one entry per record, in the same order |
| Normalize.ToEntriesFields | frontend/src/App.jsx:39-52 | entry i keeps record i's id and title, its `start` is record i's `date`, and its `extendedProps` hold record i's other fields |
| Normalize.ToEntriesConcat | frontend/src/App.jsx:39-52 | mapping a concatenation maps each part |
| Normalize.ToEntriesRoundTrip | frontend/src/App.jsx:39-52 | the record list can be recovered from the entry list |
| Normalize.RefetchAfterDelete | frontend/src/App.jsx:127-137 | when the server drops the record with an id, the re-fetched entry list is the old one without the entries of that id |
| AppState.Submission | frontend/src/App.jsx:75-90 | what submit posts: nothing when an attached file fails to upload, else the draft's record with the uploaded path if any; characterised by SubmissionOutcome |
| AppState.SubmissionOutcome | frontend/src/App.jsx:75-90 | nothing is posted exactly when an attached file fails to upload; otherwise the draft's record is posted, with an image path exactly when a file was attached, namely the uploaded path |
| AppState.App.constructor | frontend/src/App.jsx:26-30 | no entries, both views hidden, nothing selected, the draft is `initialForm` |
| AppState.App.FetchEvents | frontend/src/App.jsx:36-57 | on success the entry list becomes the mapped response, whatever it held before; on failure it is unchanged |
| AppState.App.DateClick | frontend/src/App.jsx:63-66 | the draft takes the clicked date and keeps every other input; the create form is shown |
| AppState.App.EventClick | frontend/src/App.jsx:68-71 | the clicked entry is selected and the detail view is shown |
| AppState.App.EditField | frontend/src/App.jsx:177-309 | the draft becomes the old draft with the one input replaced |
| AppState.App.PickFile | frontend/src/App.jsx:320 | the draft's file becomes the picked file, or none; the inputs are kept |
| AppState.App.CloseCreateModal | frontend/src/App.jsx:229-231 | the header close button, and the cancel button at App.jsx:326-331, which does the same: the create form is hidden; the draft is not touched |
| AppState.App.CloseDetailModal | frontend/src/App.jsx:353-357 | the detail view is hidden; the selection is not touched |
| AppState.App.AfterCreate | frontend/src/App.jsx:117-124 | once a record was sent, an accepted create hides the form, resets the draft to `initialForm` and re-fetches; a rejected create, or no record sent, changes nothing |
| AppState.App.SubmitForm | frontend/src/App.jsx:73-125 | the record posted is the submission of the old draft; a failed upload or a rejected create leaves events, form and draft unchanged; an accepted create hides the form, resets the draft and re-fetches |
| AppState.App.Delete | frontend/src/App.jsx:127-137 | a request is made exactly when something is selected; no selection or a rejected delete changes nothing; an accepted delete hides the view, clears the selection and re-fetches |

## Left out

- HTTP transport through axios, `API_BASE` and the multipart upload encoding: each request's outcome is a parameter instead.
- `parseFloat`: floating-point parsing is a parameter `string -> Option<real>`, with `None` for NaN. The cost is a `real`, not an IEEE double.
- Numbers.ParseInt: handles leading whitespace, a sign and a run of decimal digits. The `0x` prefix and the rounding of numerals beyond 2^53 are not modelled.
- Numbers.NumeralRates: inherits that gap. As a statement about JavaScript it fails for `"0x1A"` (n = 0, tail `"x1A"`: 0 here, 26 in JavaScript) and for numerals beyond 2^53. The rating input is `type="number"` (App.jsx:285-291), so its value is `""` or a valid numeral, and neither the `0x` branch nor the leading-whitespace branch arises in this program.
- The browser's constraint validation before `onSubmit`: `required` on title and location (App.jsx:245, 255), `min`/`max` and the implicit step 1 on rating (App.jsx:285-291), and `step="0.01"` on cost (App.jsx:273-274). The browser refuses to submit an empty title or location, a rating outside 1 to 5 or not whole, or a cost off the 0.01 grid. AppState.App.SubmitForm and Serialize.DraftToRecord accept every draft, including those.
- The mount effect: nothing calls `FetchEvents` after the constructor on its own, because React effect scheduling is not modelled.
- Async interleaving, React's batched state updates and stale closures: the handlers run one at a time, each to completion.
- `console.error` logging, JSX rendering, the calendar widget configuration, the styling and the image URL built for display.
- AppState.App.EventClick: the calendar widget's own event object (a string id, a `Date` start) is represented by the entry it was built from.
- AppState.App.Delete: returns whether a request was made, not the id it names, which is `old(selectedEvent).value.id`.
- AppState.App.SubmitForm: the submit event's `preventDefault` is browser behaviour and is not modelled.
- The FastAPI server `main.py`: the model does not cover id assignment or persistence. Its effect on a re-fetch is only characterised by Normalize.RefetchAfterDelete.
- Serialize.TimestampSplits and Serialize.EndTimestampSplits: assume a date without a `T`. The form's date inputs give `yyyy-mm-dd`, which has none.
