/** The booking provider of lib/contexts/BookingContext.tsx: the same list operations as the store,
    and an effect that writes the list to the 'fellbacher_bookings' storage key after every
    change. The stored value is held as the decoded list; an unreadable stored value is the same
    as none. */
module BookingContext {
  import opened Basics
  import opened Bookings

  class Provider {
    var bookings: seq<Booking>
    /** The 'fellbacher_bookings' entry of the browser storage. */
    var stored: Option<seq<Booking>>

    /** The first render and its effects: the restore effect reads the saved list and the persist
        effect writes the empty first state; the restored list then renders and is written again. */
    constructor(saved: Option<seq<Booking>>)
      ensures bookings == (if saved.Some? then saved.value else [])
      ensures stored == Some(bookings)
    {
      bookings := [];
      stored := saved;
      new;
      var restored := saved;
      Persist();
      if restored.Some? {
        bookings := restored.value;
        Persist();
      }
    }

    /** The persist effect. */
    method Persist()
      modifies this
      ensures bookings == old(bookings) && stored == Some(bookings)
    {
      stored := Some(bookings);
    }

    method AddBooking(request: BookingRequest, id: string, createdAt: string)
      modifies this
      ensures bookings == Added(old(bookings), request, id, createdAt)
      ensures stored == Some(bookings)
    {
      bookings := Added(bookings, request, id, createdAt);
      Persist();
    }

    method CancelBooking(id: string)
      modifies this
      ensures bookings == CancelledAll(old(bookings), id)
      ensures stored == Some(bookings)
    {
      bookings := CancelledAll(bookings, id);
      Persist();
    }

    function GetEventBookings(eventId: string): (r: seq<Booking>)
      reads this
      ensures forall b :: b in r <==> b in bookings && b.eventId == eventId
      ensures r == EventBookings(bookings, eventId)
    {
      EventBookings(bookings, eventId)
    }
  }
}
