/**
 * `fetchEvents`' mapping: each server record becomes a calendar entry whose
 * `start` is the record's `date` and whose `extendedProps` carry the rest.
 */
module Normalize {
  import opened Wrappers
  import opened Records

  function ToEntry(r: DiningEvent): CalendarEntry
  {
    CalendarEntry(r.id, r.title, r.date,
      ExtendedProps(r.location, r.participants, r.cost_total, r.rating,
                    r.tags, r.notes, r.image_path))
  }

  /** `response.data.map(...)`. */
  function ToEntries(rs: seq<DiningEvent>): seq<CalendarEntry>
  {
    if rs == [] then [] else [ToEntry(rs[0])] + ToEntries(rs[1..])
  }

  /** The record an entry was projected from. */
  function FromEntry(e: CalendarEntry): DiningEvent
  {
    DiningEvent(e.id, e.title, e.start, e.extendedProps.location,
      e.extendedProps.participants, e.extendedProps.cost_total,
      e.extendedProps.rating, e.extendedProps.tags, e.extendedProps.notes,
      e.extendedProps.image_path)
  }

  function FromEntries(es: seq<CalendarEntry>): seq<DiningEvent>
  {
    if es == [] then [] else [FromEntry(es[0])] + FromEntries(es[1..])
  }

  /** The projection is a renaming: it loses nothing and adds nothing. */
  lemma {:induction false} EntryRoundTrip(r: DiningEvent, e: CalendarEntry)
    ensures FromEntry(ToEntry(r)) == r
    ensures ToEntry(FromEntry(e)) == e
  {
  }

  /** The mapped list has one entry per record, in the same order. */
  lemma {:induction false} ToEntriesPointwise(rs: seq<DiningEvent>)
    ensures |ToEntries(rs)| == |rs|
    ensures forall i :: 0 <= i < |rs| ==> ToEntries(rs)[i] == ToEntry(rs[i])
  {
    if rs != [] {
      ToEntriesPointwise(rs[1..]);
      forall i | 0 < i < |rs| ensures ToEntries(rs)[i] == ToEntry(rs[i]) {
        assert ToEntries(rs)[i] == ToEntries(rs[1..])[i - 1];
      }
    }
  }

  /** Entry i keeps record i's id and title, its `start` is record i's
      `date`, and its `extendedProps` hold record i's remaining fields. */
  lemma {:induction false} ToEntriesFields(rs: seq<DiningEvent>, i: nat)
    requires i < |rs|
    ensures i < |ToEntries(rs)|
    ensures var e, r := ToEntries(rs)[i], rs[i];
      && e.id == r.id && e.title == r.title && e.start == r.date
      && e.extendedProps.location == r.location
      && e.extendedProps.participants == r.participants
      && e.extendedProps.cost_total == r.cost_total
      && e.extendedProps.rating == r.rating
      && e.extendedProps.tags == r.tags
      && e.extendedProps.notes == r.notes
      && e.extendedProps.image_path == r.image_path
  {
    ToEntriesPointwise(rs);
  }

  /** Mapping a concatenation maps each part (the map is element-wise). */
  lemma {:induction false} ToEntriesConcat(a: seq<DiningEvent>, b: seq<DiningEvent>)
    ensures ToEntries(a + b) == ToEntries(a) + ToEntries(b)
  {
    if a == [] {
      assert a + b == b;
    } else {
      assert (a + b)[1..] == a[1..] + b;
      ToEntriesConcat(a[1..], b);
    }
  }

  /** The whole list can be recovered from the mapped list. */
  lemma {:induction false} ToEntriesRoundTrip(rs: seq<DiningEvent>)
    ensures FromEntries(ToEntries(rs)) == rs
  {
    if rs != [] {
      ToEntriesRoundTrip(rs[1..]);
      assert ToEntries(rs)[1..] == ToEntries(rs[1..]);
    }
  }

  /** The records of `rs` whose id differs from `id`. */
  function WithoutRecord(rs: seq<DiningEvent>, id: Option<int>): seq<DiningEvent>
  {
    if rs == [] then []
    else (if rs[0].id == id then [] else [rs[0]]) + WithoutRecord(rs[1..], id)
  }

  /** The entries of `es` whose id differs from `id`. */
  function WithoutEntry(es: seq<CalendarEntry>, id: Option<int>): seq<CalendarEntry>
  {
    if es == [] then []
    else (if es[0].id == id then [] else [es[0]]) + WithoutEntry(es[1..], id)
  }

  /** When the server drops the record with a given id, the re-fetched
      calendar list is the old one without the entry of that id. */
  lemma {:induction false} RefetchAfterDelete(rs: seq<DiningEvent>, id: Option<int>)
    ensures ToEntries(WithoutRecord(rs, id)) == WithoutEntry(ToEntries(rs), id)
  {
    if rs != [] {
      RefetchAfterDelete(rs[1..], id);
      var head := if rs[0].id == id then [] else [rs[0]];
      ToEntriesConcat(head, WithoutRecord(rs[1..], id));
      assert ToEntries(rs)[1..] == ToEntries(rs[1..]);
    }
  }
}
