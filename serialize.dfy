/**
 * The record the create form posts: `handleFormSubmit` turns the draft
 * into a `DiningEvent` (comma lists, timestamps, composed notes, numbers).
 */
module Serialize {
  import opened Wrappers
  import opened Strings
  import opened Numbers
  import opened Records

  // ---------------------------------------------------------------------------
  // Comma-separated lists: `text.split(',').map(p => p.trim()).filter(Boolean)`

  function ParseList(text: string): seq<string>
  {
    NonEmpty(TrimAll(Split(text, ',')))
  }

  /** What a parsed list item looks like. */
  predicate IsCleanItem(x: string) {
    x != [] && IsTrimmed(x) && ',' !in x
  }

  predicate IsCleanList(xs: seq<string>) {
    forall i :: 0 <= i < |xs| ==> IsCleanItem(xs[i])
  }

  /** Every parsed item is non-empty, has no surrounding whitespace and no comma. */
  lemma {:induction false} ParseListClean(text: string)
    ensures IsCleanList(ParseList(text))
  {
    var pieces := Split(text, ',');
    var trimmed := TrimAll(pieces);
    SplitPiecesFree(text, ',');
    forall j | 0 <= j < |trimmed| ensures ',' !in trimmed[j] && IsTrimmed(trimmed[j]) {
      TrimAllAt(pieces, j);
      TrimKeeps(pieces[j], ',');
      TrimTrims(pieces[j]);
      assert pieces[j] in pieces;
    }
    forall i | 0 <= i < |ParseList(text)| ensures IsCleanItem(ParseList(text)[i]) {
      NonEmptyMembers(trimmed, ParseList(text)[i]);
    }
  }

  /** The items are exactly the non-empty trims of the comma-separated pieces. */
  lemma {:induction false} ParseListMembers(text: string, x: string)
    ensures x in ParseList(text) <==> x != [] && exists p :: p in Split(text, ',') && Trim(p) == x
  {
    TrimAllMembers(Split(text, ','), x);
    NonEmptyMembers(TrimAll(Split(text, ',')), x);
  }

  /** Text before and after a comma is parsed independently, in order. */
  lemma {:induction false} ParseListConcat(a: string, b: string)
    ensures ParseList(a + "," + b) == ParseList(a) + ParseList(b)
  {
    SplitConcat(a, b, ',');
    TrimAllConcat(Split(a, ','), Split(b, ','));
    NonEmptyConcat(TrimAll(Split(a, ',')), TrimAll(Split(b, ',')));
  }

  /** Comma-free text is one item, its trim, unless that is empty. */
  lemma {:induction false} ParseListPiece(p: string)
    requires ',' !in p
    ensures ParseList(p) == if Trim(p) == [] then [] else [Trim(p)]
  {
    SplitSingle(p, ',');
    assert [p][1..] == [];
    assert TrimAll([p]) == [Trim(p)];
    NonEmptyCons(Trim(p), []);
    assert [Trim(p)] + [] == [Trim(p)];
  }

  /** Whitespace in front of the text changes nothing. */
  lemma {:induction false} ParseListSkipsWhitespace(c: char, text: string)
    requires IsWhitespace(c)
    ensures ParseList([c] + text) == ParseList(text)
  {
    var rest := Split(text, ',');
    assert ([c] + text)[1..] == text;
    var pieces := Split([c] + text, ',');
    assert pieces == [[c] + rest[0]] + rest[1..];
    TrimStartSkips([c], rest[0]);
    assert Trim([c] + rest[0]) == Trim(rest[0]);
    assert pieces[1..] == rest[1..];
    assert TrimAll(pieces) == [Trim(rest[0])] + TrimAll(rest[1..]);
    assert TrimAll(rest) == [Trim(rest[0])] + TrimAll(rest[1..]);
  }

  /** A clean list joined with commas parses back to itself. */
  lemma {:induction false} ParseJoinedList(xs: seq<string>)
    requires IsCleanList(xs)
    ensures ParseList(Join(xs, ",")) == xs
  {
    if |xs| == 0 {
      assert Split([], ',') == [[]];
    } else if |xs| == 1 {
      ParseListPiece(xs[0]);
    } else {
      var head, tail := xs[0], Join(xs[1..], ",");
      assert IsCleanItem(head);
      assert IsCleanList(xs[1..]);
      ParseJoinedList(xs[1..]);
      assert Join(xs, ",") == head + "," + tail;
      ParseListConcat(head, tail);
      ParseListPiece(head);
      assert ParseList(head) == [head];
      HeadTail(xs);
    }
  }

  /** A clean list as the detail view shows it, `xs.join(', ')`, parses back
      to itself: typing the shown text into the form recreates the list. */
  lemma {:induction false} ParseDisplayedList(xs: seq<string>)
    requires IsCleanList(xs)
    ensures ParseList(Join(xs, ", ")) == xs
  {
    if |xs| == 0 {
      assert Split([], ',') == [[]];
    } else if |xs| == 1 {
      ParseListPiece(xs[0]);
    } else {
      var head, tail := xs[0], Join(xs[1..], ", ");
      assert IsCleanItem(head);
      assert IsCleanList(xs[1..]);
      ParseDisplayedList(xs[1..]);
      assert Join(xs, ", ") == head + "," + ([' '] + tail);
      ParseListConcat(head, [' '] + tail);
      ParseListSkipsWhitespace(' ', tail);
      ParseListPiece(head);
      assert ParseList(head) == [head];
      HeadTail(xs);
    }
  }

  /** Parsing is idempotent through the displayed form. */
  lemma {:induction false} ParseListIdempotent(text: string)
    ensures ParseList(Join(ParseList(text), ", ")) == ParseList(text)
  {
    ParseListClean(text);
    ParseDisplayedList(ParseList(text));
  }

  /** `"Alice, Bob ,,"` gives `["Alice", "Bob"]`. */
  lemma {:induction false} ParticipantsExample()
    ensures ParseList("Alice, Bob ,,") == ["Alice", "Bob"]
  {
    var e: string := [];
    var rest := " Bob " + "," + (e + "," + e);
    assert "Alice, Bob ,," == "Alice" + "," + rest;
    ExampleTail(" Bob ", e);
    ExampleHead("Alice");
    ParseListAt("Alice, Bob ,,", "Alice", rest);
  }

  // The pieces of `ParticipantsExample`, one list fact each. Each takes its
  // literal as a parameter fixed by `requires`, so that the solver does not
  // evaluate the parser on the whole literal at once.

  /** `ParseListConcat` for a text known to have that shape. */
  lemma {:induction false} ParseListAt(text: string, a: string, b: string)
    requires text == a + "," + b
    ensures ParseList(text) == ParseList(a) + ParseList(b)
  {
    ParseListConcat(a, b);
  }

  /** `"Alice"` is one clean item. */
  lemma {:induction false} ExampleHead(alice: string)
    requires alice == "Alice"
    ensures ParseList(alice) == [alice]
  {
    assert Trim(alice) == alice;
    ParseListPiece(alice);
  }

  /** `" Bob "` trims to the one item `"Bob"`. */
  lemma {:induction false} ExampleBob(bob: string)
    requires bob == " Bob "
    ensures ParseList(bob) == ["Bob"]
  {
    assert TrimStart(bob) == "Bob ";
    assert TrimEnd("Bob ") == "Bob";
    ParseListPiece(bob);
  }

  /** `","` has only empty pieces. */
  lemma {:induction false} ExampleEmpties(e: string)
    requires e == []
    ensures ParseList(e + "," + e) == []
  {
    ParseListPiece(e);
    ParseListConcat(e, e);
  }

  /** `" Bob ,,"`, the text after the first comma. */
  lemma {:induction false} ExampleTail(bob: string, e: string)
    requires bob == " Bob " && e == []
    ensures ParseList(bob + "," + (e + "," + e)) == ["Bob"]
  {
    ExampleEmpties(e);
    ExampleBob(bob);
    ParseListAt(bob + "," + (e + "," + e), bob, e + "," + e);
  }

  // ---------------------------------------------------------------------------
  // Timestamps

  /** `time || '00:00'`. */
  function TimeOrMidnight(time: string): string
  {
    if time == "" then "00:00" else time
  }

  /** `${date}T${startTime || '00:00'}`. */
  function StartTimestamp(date: string, time: string): string
  {
    date + "T" + TimeOrMidnight(time)
  }

  /** The end timestamp: absent without an end date, otherwise built like the start. */
  function EndTimestamp(endDate: string, endTime: string): (r: Option<string>)
    ensures r.None? <==> endDate == ""
  {
    if endDate != "" then Some(StartTimestamp(endDate, endTime)) else None
  }

  /** The text before and after the first `T` of a timestamp. */
  function SplitAtT(ts: string): (string, string)
  {
    if ts == [] then ([], [])
    else if ts[0] == 'T' then ([], ts[1..])
    else
      var (date, time) := SplitAtT(ts[1..]);
      ([ts[0]] + date, time)
  }

  /** A timestamp splits back into its date and the (defaulted) time. */
  lemma {:induction false} TimestampSplits(date: string, time: string)
    requires 'T' !in date
    ensures SplitAtT(StartTimestamp(date, time)) == (date, TimeOrMidnight(time))
  {
    var ts := StartTimestamp(date, time);
    if date == [] {
      assert ts == "T" + TimeOrMidnight(time);
    } else {
      assert ts[1..] == StartTimestamp(date[1..], time);
      assert date[0] in date;
      TimestampSplits(date[1..], time);
      assert [date[0]] + date[1..] == date;
    }
  }

  /** Same for the end timestamp, or its absence. */
  lemma {:induction false} EndTimestampSplits(endDate: string, endTime: string)
    requires 'T' !in endDate
    ensures match EndTimestamp(endDate, endTime)
      case None => endDate == ""
      case Some(ts) => endDate != "" && SplitAtT(ts) == (endDate, TimeOrMidnight(endTime))
  {
    if endDate != "" { TimestampSplits(endDate, endTime); }
  }

  // ---------------------------------------------------------------------------
  // Notes: the free-text notes, the category and the end, in one string

  const CategoryLabel: string := "类型："
  const EndLabel: string := "结束："
  const NotesSeparator: string := " | "

  function CategoryPart(category: string): string
  {
    if category == "" then "" else CategoryLabel + category
  }

  function EndPart(end: Option<string>): string
  {
    match end
    case None => ""
    case Some(ts) => EndLabel + ts
  }

  /** A part is blank exactly when what it labels is absent. */
  lemma {:induction false} PartsPresent(category: string, end: Option<string>)
    ensures CategoryPart(category) == "" <==> category == ""
    ensures EndPart(end) == "" <==> end.None?
  {
    assert |CategoryLabel| == 3 && |EndLabel| == 3;
  }

  /** `[notes, category part, end part].filter(Boolean).join(' | ')`. */
  function ComposeNotes(notes: string, category: string, end: Option<string>): string
  {
    Join(NonEmpty([notes, CategoryPart(category), EndPart(end)]), NotesSeparator)
  }

  /** The composed notes, written as plain concatenation: the present parts in
      order with one separator between neighbours. */
  lemma {:induction false} ComposeNotesClosedForm(notes: string, category: string, end: Option<string>)
    ensures var a, b, c := notes, CategoryPart(category), EndPart(end);
      ComposeNotes(notes, category, end)
        == a + (if a != "" && (b != "" || c != "") then NotesSeparator else "")
             + b + (if b != "" && c != "" then NotesSeparator else "")
             + c
  {
    JoinNonEmptyOfThree(notes, CategoryPart(category), EndPart(end), NotesSeparator);
  }

  /** What the composed notes promise: empty exactly when there is nothing to
      say, the bare notes when there is no category and no end, the notes
      first, the category next, the end last. */
  lemma {:induction false} ComposeNotesShape(notes: string, category: string, end: Option<string>)
    ensures ComposeNotes(notes, category, end) == "" <==> notes == "" && category == "" && end.None?
    ensures category == "" && end.None? ==> ComposeNotes(notes, category, end) == notes
    ensures notes <= ComposeNotes(notes, category, end)
    ensures category != "" ==>
      (if notes == "" then "" else notes + NotesSeparator) + CategoryLabel + category
        <= ComposeNotes(notes, category, end)
    ensures end.Some? ==>
      var r, tail := ComposeNotes(notes, category, end), EndLabel + end.value;
      |tail| <= |r| && r[|r| - |tail|..] == tail
  {
    var b, c := CategoryPart(category), EndPart(end);
    JoinNonEmptyOfThreeShape(notes, b, c, NotesSeparator);
    PartsPresent(category, end);
    if category != "" && notes != "" {
      ConcatAssoc(notes, NotesSeparator, b);
    }
  }

  // ---------------------------------------------------------------------------
  // The record

  /** `parseFloat(text) || 0`; `parseFloat` itself is a parameter (`None` is NaN). */
  function CostOf(parseFloat: string -> Option<real>, text: string): real
  {
    match parseFloat(text)
    case None => 0.0
    case Some(v) => v
  }

  /** The `data` object `handleFormSubmit` posts, given the uploaded image's
      path (`None` when no file was attached). The server assigns the id. */
  function DraftToRecord(d: Draft, imagePath: Option<string>,
                         parseFloat: string -> Option<real>): (r: DiningEvent)
    ensures r.id == None && r.title == d.title && r.location == d.location
    ensures r.image_path == imagePath
    ensures IsCleanList(r.participants) && IsCleanList(r.tags)
    ensures d.date + "T" <= r.date
    ensures r.notes == "" <==> d.notes == "" && d.category == "" && d.endDate == ""
    ensures d.category == "" && d.endDate == "" ==> r.notes == d.notes
  {
    var end := EndTimestamp(d.endDate, d.endTime);
    ParseListClean(d.participants);
    ParseListClean(d.tags);
    ComposeNotesShape(d.notes, d.category, end);
    DiningEvent(
      None,
      d.title,
      StartTimestamp(d.date, d.startTime),
      d.location,
      ParseList(d.participants),
      CostOf(parseFloat, d.cost_total),
      RatingOf(d.rating),
      ParseList(d.tags),
      ComposeNotes(d.notes, d.category, end),
      imagePath)
  }

  /** A draft with participants `"Alice, Bob ,,"`, cost `"abc"` and only a
      start date, at the default start time. */
  lemma {:induction false} SubmitExample(d: Draft, parseFloat: string -> Option<real>)
    requires d == InitialForm.(participants := "Alice, Bob ,,", cost_total := "abc", date := "2024-05-01")
    requires parseFloat("abc") == None
    ensures var r := DraftToRecord(d, None, parseFloat);
      && r.participants == ["Alice", "Bob"] && r.cost_total == 0.0
      && r.date == "2024-05-01T18:00" && r.notes == ""
  {
    DraftToRecordParts(d, None, parseFloat);
    ParticipantsExample();
    StartExample();
  }

  lemma {:induction false} StartExample()
    ensures StartTimestamp("2024-05-01", "18:00") == "2024-05-01T18:00"
  {
  }

  /** How each field of the posted record is computed. */
  lemma {:induction false} DraftToRecordParts(d: Draft, imagePath: Option<string>,
                                              parseFloat: string -> Option<real>)
    ensures var r := DraftToRecord(d, imagePath, parseFloat);
      && r.participants == ParseList(d.participants) && r.tags == ParseList(d.tags)
      && r.cost_total == CostOf(parseFloat, d.cost_total) && r.rating == RatingOf(d.rating)
      && r.date == StartTimestamp(d.date, d.startTime)
      && r.notes == ComposeNotes(d.notes, d.category, EndTimestamp(d.endDate, d.endTime))
  {
  }

  /** What a date click on a fresh form posts when nothing else is filled in. */
  lemma {:induction false} FreshDraftRecord(d: Draft, date: string, parseFloat: string -> Option<real>)
    requires d == InitialForm.(date := date)
    requires parseFloat("") == None
    ensures DraftToRecord(d, None, parseFloat)
         == DiningEvent(None, "", date + "T18:00", "", [], 0.0, 0, [], "", None)
  {
    DraftToRecordParts(d, None, parseFloat);
    EmptyList(d.participants);
    EmptyList(d.tags);
    NoDigitsRatesZero(d.rating);
    BlankNotes(d.notes, d.category, EndTimestamp(d.endDate, d.endTime));
    DefaultStart(date, d.startTime);
  }

  lemma {:induction false} BlankNotes(notes: string, category: string, end: Option<string>)
    requires notes == "" && category == "" && end == None
    ensures ComposeNotes(notes, category, end) == ""
  {
    NonEmptyOfThree(notes, CategoryPart(category), EndPart(end));
  }

  lemma {:induction false} DefaultStart(date: string, time: string)
    requires time == "18:00"
    ensures StartTimestamp(date, time) == date + "T18:00"
  {
    ConcatAssoc(date, "T", time);
  }

  /** An empty input yields no items. */
  lemma {:induction false} EmptyList(text: string)
    requires text == ""
    ensures ParseList(text) == []
  {
    assert Split(text, ',') == [[]];
  }
}
