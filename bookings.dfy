/**
 * Booking records, the overlap test that decides a conflict, and the two
 * halves of the archival sweep (expired and upcoming records), with the
 * properties the store's handlers rely on.
 */
module Bookings {
  import opened LexOrder

  /** One reservation of a room for a half-open time interval on a date. */
  datatype Booking = Booking(
    office: string,
    room: string,
    date: string,      // "YYYY-MM-DD", compared as a string
    startTime: string, // "HH:MM", compared as a string
    endTime: string)

  // ---------------------------------------------------------------------
  // Conflicts
  // ---------------------------------------------------------------------

  /**
   * The time test of the create handler: the candidate's interval and the
   * existing booking's interval overlap unless the candidate ends at or
   * before the existing one starts, or starts at or after it ends.
   */
  predicate Overlaps(candidate: Booking, existing: Booking) {
    !(AtMost(candidate.endTime, existing.startTime) || AtLeast(candidate.startTime, existing.endTime))
  }

  /** An existing booking blocks a candidate: same office, room and date, and overlapping times. */
  predicate Clashes(existing: Booking, candidate: Booking) {
    && existing.office == candidate.office
    && existing.room == candidate.room
    && existing.date == candidate.date
    && Overlaps(candidate, existing)
  }

  /** `bookings.some(b => clash)`: scans from the front and stops at the first clash. */
  function Conflicts(bookings: seq<Booking>, candidate: Booking): (r: bool)
    ensures r <==> exists i :: 0 <= i < |bookings| && Clashes(bookings[i], candidate)
  {
    if bookings == [] then false
    else if Clashes(bookings[0], candidate) then true
    else
      var rest := Conflicts(bookings[1..], candidate);
      assert forall i :: 1 <= i < |bookings| ==> bookings[i] == bookings[1..][i - 1];
      rest
  }

  /** The interval is non-empty: it starts before it ends. The source assumes this and does not check it. */
  predicate WellFormed(b: Booking) {
    Less(b.startTime, b.endTime)
  }

  /** The time of day `t` lies in the half-open interval [startTime, endTime) of `b`. */
  predicate Within(t: string, b: Booking) {
    AtMost(b.startTime, t) && Less(t, b.endTime)
  }

  /**
   * On well-formed intervals, the handler's overlap test means exactly
   * that some time of day lies in both half-open intervals.
   */
  lemma OverlapsMeansSharedTime(candidate: Booking, existing: Booking)
    requires WellFormed(candidate) && WellFormed(existing)
    ensures Overlaps(candidate, existing) <==>
            exists t :: Within(t, candidate) && Within(t, existing)
  {
    var c, e := candidate, existing;
    if Overlaps(c, e) {
      // the later of the two start times lies in both intervals
      LessTotal(c.startTime, e.startTime);
      LessIrreflexive(c.startTime);
      LessIrreflexive(e.startTime);
      if Less(c.startTime, e.startTime) {
        LessAsymmetric(c.startTime, e.startTime);
        assert Within(e.startTime, c) && Within(e.startTime, e);
      } else {
        assert Within(c.startTime, c) && Within(c.startTime, e);
      }
    }
    if t :| Within(t, c) && Within(t, e) {
      // e.startTime <= t < c.endTime and c.startTime <= t < e.endTime
      AtMostIsLessOrEqual(e.startTime, t);
      AtMostIsLessOrEqual(c.startTime, t);
      if Less(e.startTime, t) { LessTransitive(e.startTime, t, c.endTime); }
      if Less(c.startTime, t) { LessTransitive(c.startTime, t, e.endTime); }
    }
  }

  /** A booking whose end time does not come after its start time covers no time of day. */
  lemma IllFormedCoversNoTime(existing: Booking)
    requires !WellFormed(existing)
    ensures !exists t :: Within(t, existing)
  {
    forall t | Within(t, existing) ensures false {
      // startTime <= t < endTime would put startTime before endTime
      AtMostIsLessOrEqual(existing.startTime, t);
      if Less(existing.startTime, t) {
        LessTransitive(existing.startTime, t, existing.endTime);
      }
    }
  }

  /**
   * Without well-formedness the test and the shared-time reading part: an
   * existing booking that covers no time still blocks every candidate that
   * starts before its end time and ends after its start time.
   */
  lemma InvertedIntervalStillOverlaps(candidate: Booking, existing: Booking)
    requires !WellFormed(existing)
    requires Less(candidate.startTime, existing.endTime)
    requires Less(existing.startTime, candidate.endTime)
    ensures Overlaps(candidate, existing)
    ensures !exists t :: Within(t, existing)
  {
    IllFormedCoversNoTime(existing);
  }

  /** Touching intervals do not clash: one ends exactly where the other starts. */
  lemma AdjacentDoNotClash(existing: Booking, candidate: Booking)
    requires candidate.startTime == existing.endTime || candidate.endTime == existing.startTime
    ensures !Clashes(existing, candidate)
  {
    LessIrreflexive(existing.endTime);
    LessIrreflexive(existing.startTime);
  }

  /** Whether two bookings clash does not depend on which one came first. */
  lemma ClashSymmetric(a: Booking, b: Booking)
    ensures Clashes(a, b) <==> Clashes(b, a)
  {
  }

  // ---------------------------------------------------------------------
  // The archival sweep, as a specification
  // ---------------------------------------------------------------------

  /** A booking is expired when its date sorts strictly before today's. */
  predicate IsExpired(b: Booking, today: string) {
    Less(b.date, today)
  }

  /** The expired bookings of `bookings`, in their original order. */
  function Expired(bookings: seq<Booking>, today: string): (r: seq<Booking>)
    ensures |r| <= |bookings|
    ensures forall i :: 0 <= i < |r| ==> IsExpired(r[i], today)
    decreases |bookings|
  {
    if bookings == [] then []
    else
      var last := bookings[|bookings| - 1];
      Expired(bookings[..|bookings| - 1], today) + (if IsExpired(last, today) then [last] else [])
  }

  /** The bookings of `bookings` that are not expired, in their original order. */
  function Upcoming(bookings: seq<Booking>, today: string): (r: seq<Booking>)
    ensures |r| <= |bookings|
    ensures forall i :: 0 <= i < |r| ==> AtLeast(r[i].date, today)
    decreases |bookings|
  {
    if bookings == [] then []
    else
      var last := bookings[|bookings| - 1];
      Upcoming(bookings[..|bookings| - 1], today) + (if IsExpired(last, today) then [] else [last])
  }

  /**
   * `s` is an order-preserving merge of `a` and `u`: every element of `s`
   * comes from exactly one of them, and each keeps its relative order.
   */
  ghost predicate Interleaves(s: seq<Booking>, a: seq<Booking>, u: seq<Booking>)
    decreases |s|
  {
    if s == [] then a == [] && u == []
    else
      var x := s[|s| - 1];
      || (a != [] && a[|a| - 1] == x && Interleaves(s[..|s| - 1], a[..|a| - 1], u))
      || (u != [] && u[|u| - 1] == x && Interleaves(s[..|s| - 1], a, u[..|u| - 1]))
  }

  /** The sweep is a stable partition: the bookings are a merge of the expired and the upcoming ones. */
  lemma {:induction false} SweepInterleaves(bookings: seq<Booking>, today: string)
    ensures Interleaves(bookings, Expired(bookings, today), Upcoming(bookings, today))
    decreases |bookings|
  {
    if bookings != [] {
      var init := bookings[..|bookings| - 1];
      var last := bookings[|bookings| - 1];
      SweepInterleaves(init, today);
      var e, u := Expired(init, today), Upcoming(init, today);
      assert bookings[..|bookings| - 1] == init;
      if IsExpired(last, today) {
        assert Expired(bookings, today) == e + [last] && Upcoming(bookings, today) == u;
        assert (e + [last])[..|e|] == e;
      } else {
        assert Expired(bookings, today) == e && Upcoming(bookings, today) == u + [last];
        assert (u + [last])[..|u|] == u;
      }
    }
  }

  /** A merge loses and duplicates nothing. */
  lemma {:induction false} InterleavesMultiset(s: seq<Booking>, a: seq<Booking>, u: seq<Booking>)
    requires Interleaves(s, a, u)
    ensures multiset(s) == multiset(a) + multiset(u)
    decreases |s|
  {
    if s != [] {
      var x := s[|s| - 1];
      assert s == s[..|s| - 1] + [x];
      if a != [] && a[|a| - 1] == x && Interleaves(s[..|s| - 1], a[..|a| - 1], u) {
        InterleavesMultiset(s[..|s| - 1], a[..|a| - 1], u);
        assert a == a[..|a| - 1] + [x];
      } else {
        InterleavesMultiset(s[..|s| - 1], a, u[..|u| - 1]);
        assert u == u[..|u| - 1] + [x];
      }
    }
  }

  /**
   * The sweep loses and duplicates nothing: the old archive followed by the
   * old active list holds the same records as the new archive followed by
   * the new active list.
   */
  lemma SweepKeepsEveryRecord(past: seq<Booking>, bookings: seq<Booking>, today: string)
    ensures multiset(past + bookings) ==
            multiset((past + Expired(bookings, today)) + Upcoming(bookings, today))
  {
    SweepInterleaves(bookings, today);
    InterleavesMultiset(bookings, Expired(bookings, today), Upcoming(bookings, today));
  }

  /** Sweeping one more booking at the end extends exactly one of the two parts. */
  lemma SweepAppend(init: seq<Booking>, x: Booking, today: string)
    ensures Expired(init + [x], today) ==
            Expired(init, today) + (if IsExpired(x, today) then [x] else [])
    ensures Upcoming(init + [x], today) ==
            Upcoming(init, today) + (if IsExpired(x, today) then [] else [x])
  {
    assert (init + [x])[..|init|] == init;
  }

  /**
   * The sweep's split is the only stable partition by expiry: any merge of
   * an all-expired list and an all-upcoming list is exactly the split the
   * sweep computes.
   */
  lemma {:induction false} StablePartitionIsUnique(
    bookings: seq<Booking>, a: seq<Booking>, u: seq<Booking>, today: string)
    requires Interleaves(bookings, a, u)
    requires forall i :: 0 <= i < |a| ==> IsExpired(a[i], today)
    requires forall i :: 0 <= i < |u| ==> !IsExpired(u[i], today)
    ensures a == Expired(bookings, today) && u == Upcoming(bookings, today)
    decreases |bookings|
  {
    if bookings != [] {
      var init := bookings[..|bookings| - 1];
      var x := bookings[|bookings| - 1];
      assert bookings == init + [x];
      SweepAppend(init, x, today);
      if a != [] && a[|a| - 1] == x && Interleaves(init, a[..|a| - 1], u) {
        var a' := a[..|a| - 1];
        assert a == a' + [x];
        assert forall i :: 0 <= i < |a'| ==> a'[i] == a[i];
        StablePartitionIsUnique(init, a', u, today);
        assert IsExpired(x, today);
      } else {
        var u' := u[..|u| - 1];
        assert u != [] && u[|u| - 1] == x && Interleaves(init, a, u');
        assert u == u' + [x];
        assert forall i :: 0 <= i < |u'| ==> u'[i] == u[i];
        StablePartitionIsUnique(init, a, u', today);
        assert !IsExpired(x, today);
      }
    }
  }

  /** A list with nothing expired in it is left alone by the sweep. */
  lemma {:induction false} SweepOfUpcomingIsIdentity(bookings: seq<Booking>, today: string)
    requires forall b :: b in bookings ==> !IsExpired(b, today)
    ensures Expired(bookings, today) == []
    ensures Upcoming(bookings, today) == bookings
    decreases |bookings|
  {
    if bookings != [] {
      var init := bookings[..|bookings| - 1];
      forall b | b in init ensures !IsExpired(b, today) {
        assert b in bookings;
      }
      SweepOfUpcomingIsIdentity(init, today);
      assert bookings == init + [bookings[|bookings| - 1]];
    }
  }

  /** For a fixed today, sweeping a second time changes neither list. */
  lemma SweepIdempotent(past: seq<Booking>, bookings: seq<Booking>, today: string)
    ensures var past', bookings' := past + Expired(bookings, today), Upcoming(bookings, today);
            past' + Expired(bookings', today) == past' && Upcoming(bookings', today) == bookings'
  {
    var bookings' := Upcoming(bookings, today);
    forall b | b in bookings' ensures !IsExpired(b, today) {
    }
    SweepOfUpcomingIsIdentity(bookings', today);
  }

  // ---------------------------------------------------------------------
  // Removal by position
  // ---------------------------------------------------------------------

  /** `splice(idx, 1)`: the list without its element at `idx`, the rest shifted down. */
  function RemoveAt(s: seq<Booking>, idx: int): (r: seq<Booking>)
    requires 0 <= idx < |s|
    ensures |r| == |s| - 1
    ensures forall j :: 0 <= j < idx ==> r[j] == s[j]
    ensures forall j :: idx <= j < |r| ==> r[j] == s[j + 1]
  {
    s[..idx] + s[idx + 1..]
  }

  /** Removal takes away exactly one copy of the removed record. */
  lemma RemoveAtMultiset(s: seq<Booking>, idx: int)
    requires 0 <= idx < |s|
    ensures multiset(RemoveAt(s, idx)) == multiset(s) - multiset{s[idx]}
  {
    assert s == s[..idx] + [s[idx]] + s[idx + 1..];
  }

  /**
   * Records have no identity: the removed record is gone from the list
   * afterwards exactly when the list held no other copy of it.
   */
  lemma RemovedIsGoneIffUnique(s: seq<Booking>, idx: int)
    requires 0 <= idx < |s|
    ensures s[idx] !in RemoveAt(s, idx) <==> multiset(s)[s[idx]] == 1
  {
    var r := RemoveAt(s, idx);
    RemoveAtMultiset(s, idx);
    assert s[idx] in multiset(s);
    assert s[idx] in r <==> s[idx] in multiset(r);
  }
}
