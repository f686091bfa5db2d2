# Room-booking store

This project models the booking store of a small room-booking HTTP service
(`server/index.js`). The store keeps two ordered lists of booking records:
`bookings`, the active ones, and `past`, the archived ones. Each record names
an office, a room, a date (`YYYY-MM-DD`) and a start and an end time (`HH:MM`).
All of these are strings and are compared as strings. The handlers do the
following:

- Reading the active list first runs the archival sweep. The sweep moves every
  booking dated before today to the end of the archive and keeps the rest in
  order.
- Reading the archive changes nothing.
- A create is rejected when an active booking for the same office, room and
  date overlaps it in time. The intervals are half-open. Otherwise the booking
  is appended to the active list.
- A delete on either list removes the record at a position. A position that is
  out of range is answered with "not found".

The model has three modules:

- `LexOrder` (`lex_order.dfy`) defines JavaScript's `<`, `<=` and `>=` on
  strings. Dafny's built-in `<` on sequences means "proper prefix", so these
  are defined here. The module also proves that `Less` is a strict total
  order.
- `Bookings` (`bookings.dfy`) holds the `Booking` value and the overlap and
  conflict test. It specifies the sweep as two functions, `Expired` and
  `Upcoming`, and specifies the splice as `RemoveAt`. It also proves the
  properties of all of these.
- `Store` (`store.dfy`) holds the class `BookingStore`. It has the two lists
  as fields and one method per handler body. Each method states the new
  lists in terms of the old ones. A few client methods replay examples: overlap and adjacency, an archived twin that does not block a
  create, an out-of-range delete, and sweeping twice on one day.

The current date is a parameter `today` of the sweep. The delete position is
an `int`. An index that `parseInt` turns into NaN fails the bounds test like
any out-of-range integer.

Records have no identity, so two equal records can sit in the same list. A
reader might expect a deleted record to be gone from its list. The code does
not guarantee that. It removes one copy. `RemovedIsGoneIffUnique` proves
that the record is gone afterwards exactly when the list held one copy.

The overlap test treats a booking's interval as the set of times it covers only
when the interval is well-formed (start before end). The source assumes this
and never checks it. `OverlapsMeansSharedTime` proves the equivalence for
well-formed intervals. `IllFormedCoversNoTime` and
`InvertedIntervalStillOverlaps` show that an ill-formed interval covers no time
and still blocks a create.

## Model

| member | source | states |
|---|---|---|
| `LexOrder.LessIrreflexive` | server/index.js:26 | No date or time string sorts before itself. |
| `LexOrder.LessAsymmetric` | server/index.js:51 | Two strings are never each less than the other. |
| `LexOrder.LessTransitive` | server/index.js:51 | String order is transitive. |
| `LexOrder.LessTotal` | server/index.js:51 | Any two strings are equal or ordered one way or the other. |
| `LexOrder.AtMostIsLessOrEqual` | server/index.js:51 | JavaScript's `a <= b` on strings (`!(b < a)`) holds exactly when `a < b` or `a == b`. |
| `LexOrder.ProperPrefixIsLess` | server/index.js:26 | A proper prefix sorts before the longer string. |
| `Bookings.Conflicts` | server/index.js:47-52 | The `some` scan over the active list is true exactly when some active booking clashes with the candidate: same office, room and date, and the times overlap. |
| `Bookings.OverlapsMeansSharedTime` | server/index.js:51 | For well-formed intervals, the test "not (candidate ends at or before the other starts, or starts at or after it ends)" holds exactly when some time lies in both half-open intervals. |
| `Bookings.IllFormedCoversNoTime` | server/index.js:51 | An existing booking whose end time does not come after its start time covers no time of day. |
| `Bookings.InvertedIntervalStillOverlaps` | server/index.js:51 | Such an ill-formed booking still blocks every candidate that starts before its end time and ends after its start time, although the two share no time. |
| `Bookings.AdjacentDoNotClash` | server/index.js:51 | A candidate that starts exactly when an existing booking ends, or ends exactly when it starts, does not clash. |
| `Bookings.ClashSymmetric` | server/index.js:48-51 | Whether two bookings clash does not depend on which one is the candidate. |
| `Bookings.Expired` | server/index.js:25-26 | Every booking the sweep sends to the archive has a date before today. |
| `Bookings.Upcoming` | server/index.js:25-27 | Every booking the sweep keeps active has a date `>=` today. |
| `Bookings.SweepInterleaves` | server/index.js:22-30 | The sweep is a stable partition. The old active list is an order-preserving merge of the archived part and the kept part. |
| `Bookings.InterleavesMultiset` | server/index.js:22-30 | A merge of two lists holds exactly the records of the two lists together. |
| `Bookings.SweepKeepsEveryRecord` | server/index.js:22-30 | The sweep loses and duplicates nothing. The old archive plus the old active list is a permutation of the new archive plus the new active list. |
| `Bookings.StablePartitionIsUnique` | server/index.js:22-30 | Any order-preserving split of the active list into all-expired and all-upcoming parts equals the split the sweep computes. |
| `Bookings.SweepOfUpcomingIsIdentity` | server/index.js:25-28 | A list with no booking dated before today is neither archived nor reordered by the sweep. |
| `Bookings.SweepIdempotent` | server/index.js:22-30 | For a fixed today, a second sweep changes neither list. |
| `Bookings.RemoveAt` | server/index.js:63 | `splice(idx, 1)` shortens the list by one. Elements before `idx` stay in place and those after it shift down by one. |
| `Bookings.RemoveAtMultiset` | server/index.js:74 | A removal takes away exactly one copy of the removed record and nothing else. |
| `Bookings.RemovedIsGoneIffUnique` | server/index.js:63 | After a removal, the removed record is absent from the list exactly when the list held one copy of it. |
| `Store.BookingStore.constructor` | server/index.js:13-14 | A store read from a missing or unparsable file has empty active and archived lists. |
| `Store.BookingStore.ArchivePast` | server/index.js:22-30 | The loop appends the expired bookings, in order, to the archive. The active list becomes the non-expired bookings, in order. |
| `Store.BookingStore.ListBookings` | server/index.js:32-37 | The active-list read sweeps first. It answers the new active list and leaves the archive extended by the expired bookings. |
| `Store.BookingStore.ListPast` | server/index.js:39-42 | The archive read answers the archive as stored. |
| `Store.BookingStore.Create` | server/index.js:44-57 | The result is a conflict exactly when an active booking clashes with the candidate. The archive is never consulted. On a conflict nothing changes. Otherwise the booking becomes the last active record and is answered back. The archive is unchanged either way. |
| `Store.BookingStore.DeleteBooking` | server/index.js:59-68 | The result is "deleted" exactly when `idx` is a valid position in the active list. Then the active list loses the element at `idx` and keeps the rest in order. Otherwise it is "not found" and nothing changes. The archive is never touched. |
| `Store.BookingStore.DeletePast` | server/index.js:70-79 | The same as `DeleteBooking`, with the archive and the active list swapped. |

## Left out

- HTTP routing, the JSON body parser, status codes and starting the server (`server/index.js:1-6`, `81-82`). Each handler's answer is a value of `CreateOutcome` or `DeleteOutcome`.
- Reading and writing the data file (`readData`, `writeData`) and JSON encoding are library I/O. Each handler's read-modify-write is a method on the in-memory store. The fallback to an empty store when the file is missing or unparsable is the constructor. Persisting the sweep before answering is not modelled.
- The clock: `new Date().toISOString().slice(0, 10)` is replaced by the parameter `today`.
- `parseInt` of the path parameter is library parsing. The model takes the position as an `int`.
- Request bodies that are not five-string records. Missing fields, non-string fields and extra fields are not modelled, and neither are the comparisons JavaScript would make on `undefined`.
- JavaScript compares strings by UTF-16 code units. The model compares Dafny characters, which are Unicode scalar values. The two orders differ only between characters above U+FFFF and characters from U+E000 to U+FFFF, which do not occur in the zero-padded dates and times the store expects.
- Concurrent requests and their lost updates. Each handler is modelled as one atomic step.
- Other versions of the service in the repository (a weekly archival cutoff, clearing the archive, no conflict check) are not part of this model. Only `server/index.js` is modelled.
