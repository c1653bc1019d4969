/**
 * The records of the booking core (Theatre, Show, Booking, Payment, a booking
 * request) and the request validation of BookingSerializer.
 */
module BookingRules {
  import opened Wrappers
  import opened SeatNumbering
  import opened SeatQueries

  type ShowId = nat
  type TheatreId = nat
  type UserId = nat
  type BookingId = nat

  /** The nooftickets field accepts 1 to 10. */
  const MinTicketsPerBooking: int := 1
  const MaxTicketsPerBooking: int := 10

  /** The payment status for which the response says the booking is confirmed. */
  const CompletedStatus: string := "completed"

  /** A theatre as the catalog supplies it: its id and its noofseats. */
  datatype Theatre = Theatre(id: TheatreId, noofseats: nat)

  /**
   * A show's fields used by the core. available is a PositiveIntegerField, so a
   * stored show never holds a negative counter.
   */
  datatype Show = Show(theatre: TheatreId, totalTickets: nat, available: nat, ticketPrice: nat)

  /** A booking: who booked, where, the ticket count and the seat numbers linked to it. */
  datatype Booking = Booking(user: UserId, theatre: TheatreId, show: ShowId, nooftickets: nat, seats: set<string>)

  /** A payment; it is keyed by the booking it pays for (a one-to-one field). */
  datatype Payment = Payment(user: UserId, paymentMethod: string, amount: nat, status: string, transactionId: string)

  /**
   * The fields of a booking request: booking_name_id, theatre_id, show_id, the
   * client's nooftickets and selected_seats (after field parsing).
   */
  datatype BookingRequest = BookingRequest(
    user: UserId, theatre: TheatreId, show: ShowId, nooftickets: int, selected: seq<string>)

  datatype BookingError =
    | UnknownShow            // show_id names no show
    | TicketCountOutOfRange  // nooftickets outside 1..10
    | ShowNotInTheatre       // the show's theatre is not the requested theatre
    | SeatsUnavailable       // some selected seat is missing, booked, or named twice

  /** The seats the request names are all seats of the show, all unbooked, each named once. */
  predicate SelectionBookable(t: SeatTable, selected: seq<string>) {
    Distinct(selected) && forall i :: 0 <= i < |selected| ==> selected[i] in t && !t[selected[i]]
  }

  /**
   * BookingSerializer.is_valid: the field checks (the show exists, nooftickets is
   * in range), then validate(): the show belongs to the theatre, and the count of
   * matching unbooked seats of the show equals the length of the request.
   * show is the show that show_id names, if any; t is that show's seat table.
   */
  function ValidateBooking(req: BookingRequest, show: Option<Show>, t: SeatTable): (r: Outcome<BookingError>)
    ensures r.Pass? <==>
              && show.Some?
              && MinTicketsPerBooking <= req.nooftickets <= MaxTicketsPerBooking
              && show.value.theatre == req.theatre
              && SelectionBookable(t, req.selected)
    ensures r == Fail(UnknownShow) <==> show.None?
    ensures r == Fail(ShowNotInTheatre) ==> show.Some? && show.value.theatre != req.theatre
    ensures r == Fail(SeatsUnavailable) ==> show.Some? && !SelectionBookable(t, req.selected)
    ensures r.Pass? ==> |MatchingUnbooked(t, req.selected)| == |req.selected|
  {
    CountMatchesLength(t, req.selected);
    if show.None? then Fail(UnknownShow)
    else if !(MinTicketsPerBooking <= req.nooftickets <= MaxTicketsPerBooking) then Fail(TicketCountOutOfRange)
    else if show.value.theatre != req.theatre then Fail(ShowNotInTheatre)
    else if |MatchingUnbooked(t, req.selected)| != |req.selected| then Fail(SeatsUnavailable)
    else Pass
  }

  /** A request that names a seat twice is refused, whatever the seat table. */
  lemma DuplicateRequestRefused(req: BookingRequest, show: Option<Show>, t: SeatTable, i: nat, j: nat)
    requires i < j < |req.selected| && req.selected[i] == req.selected[j]
    ensures ValidateBooking(req, show, t).Fail?
  {
    DuplicateNeverMatches(t, req.selected, i, j);
  }
}
