/** The booking list shared by lib/store/useBookingStore.ts and lib/contexts/BookingContext.tsx:
    event bookings, newest first, which are confirmed when made and can be cancelled. */
module Bookings {
  import opened Basics

  datatype Status = Pending | Confirmed | Cancelled

  datatype Booking = Booking(
    id: string,
    eventId: string,
    eventTitle: string,
    date: string,
    time: string,
    guests: int,
    totalAmount: real,
    status: Status,
    createdAt: string)

  /** What the booking form supplies: a booking without id, status and creation time. */
  datatype BookingRequest = BookingRequest(
    eventId: string,
    eventTitle: string,
    date: string,
    time: string,
    guests: int,
    totalAmount: real)

  /** `addBooking`: the new booking, confirmed at once, goes in front of the list. The random id
      and the creation time are inputs. */
  function Added(bookings: seq<Booking>, request: BookingRequest, id: string, createdAt: string): (r: seq<Booking>)
    ensures |r| == |bookings| + 1 && r[1..] == bookings
    ensures r[0] == Booking(id, request.eventId, request.eventTitle, request.date, request.time,
                            request.guests, request.totalAmount, Confirmed, createdAt)
  {
    [Booking(id, request.eventId, request.eventTitle, request.date, request.time,
             request.guests, request.totalAmount, Confirmed, createdAt)] + bookings
  }

  function CancelledIf(b: Booking, id: string): Booking {
    if b.id == id then b.(status := Cancelled) else b
  }

  /** `cancelBooking(id)`: every booking with that id is marked cancelled; nothing else changes. */
  function CancelledAll(bookings: seq<Booking>, id: string): (r: seq<Booking>)
    ensures |r| == |bookings|
    ensures forall i :: 0 <= i < |bookings| ==> r[i].(status := bookings[i].status) == bookings[i]
    ensures forall i :: 0 <= i < |bookings| ==> r[i].status == if bookings[i].id == id then Cancelled else bookings[i].status
  {
    seq(|bookings|, i requires 0 <= i < |bookings| => CancelledIf(bookings[i], id))
  }

  /** `getEventBookings(eventId)`: the bookings of that event, in list order. */
  function EventBookings(bookings: seq<Booking>, eventId: string): (r: seq<Booking>)
    ensures forall b :: b in r <==> b in bookings && b.eventId == eventId
  {
    Filter(bookings, (b: Booking) => b.eventId == eventId)
  }

  /** The bookings of an event keep their list order: a booking anywhere in the list is in its
      place in the result exactly when it belongs to the event. */
  lemma EventBookingsInOrder(a: seq<Booking>, x: Booking, b: seq<Booking>, eventId: string)
    ensures EventBookings(a + [x] + b, eventId)
            == EventBookings(a, eventId) + (if x.eventId == eventId then [x] else []) + EventBookings(b, eventId)
  {
    FilterInOrder(a, x, b, (b: Booking) => b.eventId == eventId);
  }

  /** The bookings of an event in two lists are those of the first list, then those of the
      second. */
  lemma EventBookingsAppend(a: seq<Booking>, b: seq<Booking>, eventId: string)
    ensures EventBookings(a + b, eventId) == EventBookings(a, eventId) + EventBookings(b, eventId)
  {
    FilterAppend(a, b, (b: Booking) => b.eventId == eventId);
  }

  /** Each booking of the event appears as often as in the list; no other booking appears. */
  lemma EventBookingsCount(bookings: seq<Booking>, eventId: string, x: Booking)
    ensures multiset(EventBookings(bookings, eventId))[x] == if x.eventId == eventId then multiset(bookings)[x] else 0
  {
    FilterCount(bookings, (b: Booking) => b.eventId == eventId, x);
  }

  predicate NoPending(bookings: seq<Booking>) {
    forall i :: 0 <= i < |bookings| ==> bookings[i].status != Pending
  }

  /** Cancelling twice is cancelling once. */
  lemma CancelIdempotent(bookings: seq<Booking>, id: string)
    ensures CancelledAll(CancelledAll(bookings, id), id) == CancelledAll(bookings, id)
  {
    var once := CancelledAll(bookings, id);
    var twice := CancelledAll(once, id);
    forall i | 0 <= i < |bookings| ensures twice[i] == once[i] {
      assert twice[i].(status := once[i].status) == once[i];
    }
  }

  /** Cancelling an id no booking has changes nothing. */
  lemma CancelUnknown(bookings: seq<Booking>, id: string)
    requires forall b :: b in bookings ==> b.id != id
    ensures CancelledAll(bookings, id) == bookings
  {
    var r := CancelledAll(bookings, id);
    forall i | 0 <= i < |bookings| ensures r[i] == bookings[i] {
      assert bookings[i] in bookings;
      assert r[i].(status := bookings[i].status) == bookings[i];
    }
  }

  /** No operation produces a pending booking. */
  lemma NeverPending(bookings: seq<Booking>, request: BookingRequest, id: string, createdAt: string, cancelId: string)
    requires NoPending(bookings)
    ensures NoPending(Added(bookings, request, id, createdAt))
    ensures NoPending(CancelledAll(bookings, cancelId))
  {
    var r := Added(bookings, request, id, createdAt);
    forall i | 1 <= i < |r| ensures r[i].status != Pending {
      assert r[i] == bookings[i - 1];
    }
  }

  /** A new booking shows up first among the bookings of its event and nowhere else. */
  lemma EventBookingsOfAdded(bookings: seq<Booking>, request: BookingRequest, id: string, createdAt: string, eventId: string)
    ensures EventBookings(Added(bookings, request, id, createdAt), eventId) ==
              (if request.eventId == eventId then [Added(bookings, request, id, createdAt)[0]] else [])
              + EventBookings(bookings, eventId)
  {
    var r := Added(bookings, request, id, createdAt);
    assert r == [r[0]] + bookings;
    FilterAppend([r[0]], bookings, (b: Booking) => b.eventId == eventId);
    assert [r[0]][1..] == [];
  }
}
