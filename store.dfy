/**
 * The booking store behind the HTTP handlers: an active list and an
 * archive, and one method per handler body. The handlers' JSON file
 * round-trip, routing and status codes are stripped away; each outcome
 * the client can observe is a value of `CreateOutcome` or `DeleteOutcome`.
 */
module Store {
  import opened LexOrder
  import opened Bookings

  /** What the create handler answers: the stored record (201) or a conflict (400). */
  datatype CreateOutcome = Created(booking: Booking) | Conflict

  /** What the delete handlers answer: removed (204) or no such position (404). */
  datatype DeleteOutcome = Deleted | NotFound

  class BookingStore {
    var bookings: seq<Booking>  // active bookings, in insertion order
    var past: seq<Booking>      // archived bookings, in the order they were archived

    /** The store as read when there is no data file or it cannot be parsed. */
    constructor ()
      ensures bookings == [] && past == []
    {
      bookings := [];
      past := [];
    }

    /**
     * The archival sweep: walks the active list once, appends every expired
     * booking to the archive and keeps the rest, in order, as the new
     * active list. `today` is the current date as "YYYY-MM-DD".
     */
    method ArchivePast(today: string)
      modifies this
      ensures past == old(past) + Expired(old(bookings), today)
      ensures bookings == Upcoming(old(bookings), today)
    {
      var upcoming: seq<Booking> := [];
      var i := 0;
      while i < |bookings|
        invariant 0 <= i <= |bookings|
        invariant bookings == old(bookings)
        invariant past == old(past) + Expired(bookings[..i], today)
        invariant upcoming == Upcoming(bookings[..i], today)
      {
        var b := bookings[i];
        assert bookings[..i + 1][..i] == bookings[..i];
        if IsExpired(b, today) {  // b.date < today
          past := past + [b];
        } else {
          upcoming := upcoming + [b];
        }
        i := i + 1;
      }
      assert bookings[..i] == bookings;
      bookings := upcoming;
    }

    /** GET of the active list: sweeps first, then answers the new active list. */
    method ListBookings(today: string) returns (r: seq<Booking>)
      modifies this
      ensures r == bookings
      ensures bookings == Upcoming(old(bookings), today)
      ensures past == old(past) + Expired(old(bookings), today)
    {
      ArchivePast(today);
      r := bookings;
    }

    /** GET of the archive: answers it and changes nothing. */
    method ListPast() returns (r: seq<Booking>)
      ensures r == past
    {
      r := past;
    }

    /**
     * POST of a new booking: rejected when some active booking clashes with
     * it (the archive is not consulted); otherwise appended to the active list.
     */
    method Create(booking: Booking) returns (r: CreateOutcome)
      modifies this
      ensures r.Conflict? <==> exists i :: 0 <= i < |old(bookings)| && Clashes(old(bookings)[i], booking)
      ensures r.Conflict? ==> bookings == old(bookings)
      ensures r.Created? ==> r.booking == booking && bookings == old(bookings) + [booking]
      ensures past == old(past)
    {
      if Conflicts(bookings, booking) {
        return Conflict;
      }
      bookings := bookings + [booking];
      r := Created(booking);
    }

    /** DELETE of the active booking at position `idx`; any other `idx` finds nothing. */
    method DeleteBooking(idx: int) returns (r: DeleteOutcome)
      modifies this
      ensures r.Deleted? <==> 0 <= idx < |old(bookings)|
      ensures r.Deleted? ==> bookings == RemoveAt(old(bookings), idx)
      ensures r.NotFound? ==> bookings == old(bookings)
      ensures past == old(past)
    {
      if 0 <= idx < |bookings| {
        bookings := RemoveAt(bookings, idx);
        return Deleted;
      }
      r := NotFound;
    }

    /** DELETE of the archived booking at position `idx`; any other `idx` finds nothing. */
    method DeletePast(idx: int) returns (r: DeleteOutcome)
      modifies this
      ensures r.Deleted? <==> 0 <= idx < |old(past)|
      ensures r.Deleted? ==> past == RemoveAt(old(past), idx)
      ensures r.NotFound? ==> past == old(past)
      ensures bookings == old(bookings)
    {
      if 0 <= idx < |past| {
        past := RemoveAt(past, idx);
        return Deleted;
      }
      r := NotFound;
    }
  }

  /** Two reads of the active list on the same day: the second one moves nothing. */
  method SweepTwiceOnOneDay(store: BookingStore, today: string)
    modifies store
  {
    ghost var past0, bookings0 := store.past, store.bookings;
    var first := store.ListBookings(today);
    ghost var past1 := store.past;
    var second := store.ListBookings(today);
    SweepIdempotent(past0, bookings0, today);
    assert second == first && store.past == past1;
    SweepKeepsEveryRecord(past0, bookings0, today);
    assert multiset(past0 + bookings0) == multiset(store.past + store.bookings);
  }

  /** The overlap examples: 09:30-10:30 clashes with 09:00-10:00, 10:00-11:00 does not. */
  method OverlapExamples() {
    var store := new BookingStore();
    var existing := Booking("A", "1", "2024-01-10", "09:00", "10:00");
    var r := store.Create(existing);
    assert r == Created(existing);

    var overlapping := Booking("A", "1", "2024-01-10", "09:30", "10:30");
    assert Clashes(store.bookings[0], overlapping);
    r := store.Create(overlapping);
    assert r == Conflict && store.bookings == [existing];

    var adjacent := Booking("A", "1", "2024-01-10", "10:00", "11:00");
    AdjacentDoNotClash(existing, adjacent);
    r := store.Create(adjacent);
    assert r == Created(adjacent) && store.bookings == [existing, adjacent];
  }

  /** An identical archived booking does not block a create. */
  method ArchivedTwinDoesNotBlock() {
    var store := new BookingStore();
    var lastWeek := Booking("A", "1", "2024-01-09", "09:00", "10:00");
    var r := store.Create(lastWeek);
    var listed := store.ListBookings("2024-01-10");
    assert store.past == [lastWeek] && listed == [];
    r := store.Create(lastWeek);
    assert r == Created(lastWeek);
  }

  /** Deleting position 5 of a three-booking list finds nothing and changes nothing. */
  method DeleteOutOfRange(store: BookingStore)
    requires |store.bookings| == 3
    modifies store
  {
    ghost var before := store.bookings;
    var r := store.DeleteBooking(5);
    assert r == NotFound && store.bookings == before;
  }
}
