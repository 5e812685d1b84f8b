/** The booking store of lib/store/useBookingStore.ts: one `bookings` field. The random id and the
    creation time of a new booking are inputs; the persistence under 'booking-storage' is left to
    the storage layer and is not modelled. */
module BookingStore {
  import opened Bookings

  class Store {
    var bookings: seq<Booking>

    constructor()
      ensures bookings == []
    {
      bookings := [];
    }

    /** `addBooking`: a confirmed booking with the given fields goes in front. */
    method AddBooking(request: BookingRequest, id: string, createdAt: string)
      modifies this
      ensures bookings == Added(old(bookings), request, id, createdAt)
      ensures bookings[0].status == Confirmed && bookings[0].id == id && bookings[1..] == old(bookings)
    {
      bookings := Added(bookings, request, id, createdAt);
    }

    /** `cancelBooking`: only the status of the bookings with that id changes. */
    method CancelBooking(id: string)
      modifies this
      ensures bookings == CancelledAll(old(bookings), id)
    {
      bookings := CancelledAll(bookings, id);
    }

    function GetEventBookings(eventId: string): (r: seq<Booking>)
      reads this
      ensures forall b :: b in r <==> b in bookings && b.eventId == eventId
      ensures r == EventBookings(bookings, eventId)
    {
      EventBookings(bookings, eventId)
    }
  }
}
