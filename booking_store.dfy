/**
 * The database tables of the booking core and the operations that change them:
 * Show.save with its first-save seat generation, Show.reduce_available_seats,
 * Booking.cancel_booking, BookingSerializer.create, BookingView.create and
 * cancel, PaymentView.create and the two SeatView queries. Every request runs
 * as one sequential step; a request wrapped in transaction.atomic either
 * commits all its writes or, when a write fails, rolls back to the state it
 * started from.
 */
module BookingStore {
  import opened Wrappers
  import opened SeatNumbering
  import opened SeatQueries
  import opened BookingRules

  /** Response of the booking endpoint: 201 with the booking, 400 with the reason, or 500. */
  datatype BookingOutcome =
    | Created(id: BookingId)
    | Rejected(error: BookingError)
    | StorageFailure  // a show.save() met the non-negative available_seats column; rolled back

  /** Response of the cancel endpoint: 200 or 404. */
  datatype CancelOutcome = Cancelled | BookingNotFound

  datatype PaymentError = InvalidBookingId | PaymentExists

  /** Response of the payment endpoint: 201 (confirmed or not) or 400. */
  datatype PaymentOutcome = PaymentCreated(confirmed: bool) | PaymentRejected(error: PaymentError)

  /** Response of a seat query: 400 without show_id, else the seat numbers found. */
  datatype SeatListing = ShowIdRequired | Listing(seats: set<string>)

  /** The contents of the tables the core uses, with the next ids to hand out. */
  datatype Db = Db(
    shows: map<ShowId, Show>,
    seats: map<ShowId, SeatTable>,      // the Seat table, grouped by show
    bookings: map<BookingId, Booking>,
    payments: map<BookingId, Payment>,  // keyed by the booking paid for
    nextShowId: ShowId,
    nextBookingId: BookingId)

  function Min(a: nat, b: nat): nat {
    if a <= b then a else b
  }

  /** The booking's show exists, its linked seats are booked seats of that show, one per ticket. */
  ghost predicate BookingHeld(db: Db, b: Booking) {
    && b.show in db.shows && b.show in db.seats
    && (forall l :: l in b.seats ==> l in db.seats[b.show] && db.seats[b.show][l])
    && b.nooftickets == |b.seats|
  }

  /** No seat is linked to two bookings. */
  ghost predicate NoDoubleBooking(db: Db) {
    forall b1, b2 :: b1 in db.bookings && b2 in db.bookings && b1 != b2 && db.bookings[b1].show == db.bookings[b2].show ==>
      db.bookings[b1].seats !! db.bookings[b2].seats
  }

  /** The invariant every request keeps. */
  ghost predicate Consistent(db: Db) {
    && db.seats.Keys == db.shows.Keys
    && (forall s :: s in db.shows ==> s < db.nextShowId)
    && (forall b :: b in db.bookings ==> b < db.nextBookingId)
    && (forall b :: b in db.bookings ==> BookingHeld(db, db.bookings[b]))
    && NoDoubleBooking(db)
    && db.payments.Keys <= db.bookings.Keys
  }

  /**
   * The booking BookingSerializer.create inserts: nooftickets is the length of
   * the request, whatever the client sent, and the linked seats are the
   * matching unbooked seats of the show.
   */
  function NewBooking(req: BookingRequest, t: SeatTable): (b: Booking)
    ensures b.user == req.user && b.theatre == req.theatre && b.show == req.show
    ensures b.nooftickets == |req.selected|
    ensures b.seats <= Unbooked(t) && b.seats <= ElemSet(req.selected)
  {
    Booking(req.user, req.theatre, req.show, |req.selected|, MatchingUnbooked(t, req.selected))
  }

  /** The tables after Booking.objects.create: booking b under the next id. */
  function InsertBooking(db: Db, b: Booking): Db {
    db.(bookings := db.bookings[db.nextBookingId := b], nextBookingId := db.nextBookingId + 1)
  }

  /** The tables after booking the seats S of booking id's show and adding them to the booking. */
  function Linked(db: Db, id: BookingId, S: set<string>): Db
    requires id in db.bookings && db.bookings[id].show in db.seats
  {
    var b := db.bookings[id];
    db.(seats := db.seats[b.show := BookAll(db.seats[b.show], S)],
        bookings := db.bookings[id := b.(seats := b.seats + S)])
  }

  /** The tables after inserting booking b under the next id and booking its seats. */
  function BookSeats(db: Db, b: Booking): (r: Db)
    requires b.show in db.seats
    ensures r.bookings.Keys == db.bookings.Keys + {db.nextBookingId}
    ensures r.shows == db.shows && r.payments == db.payments
  {
    db.(seats := db.seats[b.show := BookAll(db.seats[b.show], b.seats)],
        bookings := db.bookings[db.nextBookingId := b],
        nextBookingId := db.nextBookingId + 1)
  }

  /** Inserting a booking without seats and then linking its seats one by one books it as a whole. */
  lemma InsertThenLink(db: Db, b: Booking)
    requires b.show in db.seats
    ensures var db' := InsertBooking(db, b.(seats := {}));
            db.nextBookingId in db'.bookings && b.show in db'.seats
            && Linked(db', db.nextBookingId, b.seats) == BookSeats(db, b)
  {
    assert b.(seats := {}).(seats := {} + b.seats) == b;
  }

  /** Linking seats that are already booked and already linked to the booking changes nothing. */
  lemma RelinkChangesNothing(db: Db, id: BookingId, S: set<string>)
    requires id in db.bookings && db.bookings[id].show in db.seats
    requires S <= db.bookings[id].seats && S <= Booked(db.seats[db.bookings[id].show])
    ensures Linked(db, id, S) == db
  {
    var b := db.bookings[id];
    assert BookAll(db.seats[b.show], S) == db.seats[b.show];
    assert b.(seats := b.seats + S) == b;
  }

  /** The tables after releasing booking id's seats and deleting it, with its payment. */
  function ReleaseBooking(db: Db, id: BookingId): (r: Db)
    requires id in db.bookings && db.bookings[id].show in db.seats
    ensures r.bookings == db.bookings - {id} && r.payments == db.payments - {id}
    ensures r.shows == db.shows && r.nextBookingId == db.nextBookingId
  {
    var b := db.bookings[id];
    db.(seats := db.seats[b.show := ReleaseAll(db.seats[b.show], b.seats)],
        bookings := db.bookings - {id},
        payments := db.payments - {id})
  }

  /** The tables with show id's available_seats set to n. */
  function SetAvailable(db: Db, id: ShowId, n: nat): (r: Db)
    requires id in db.shows
    ensures r.shows.Keys == db.shows.Keys && r.shows[id].available == n
    ensures r.shows[id] == db.shows[id].(available := n)
    ensures forall x :: x in db.shows && x != id ==> r.shows[x] == db.shows[x]
    ensures r.seats == db.seats && r.bookings == db.bookings && r.payments == db.payments
    ensures r.nextShowId == db.nextShowId && r.nextBookingId == db.nextBookingId
  {
    db.(shows := db.shows[id := db.shows[id].(available := n)])
  }

  /** A second write of the counter overrides the first. */
  lemma SetAvailableTwice(db: Db, id: ShowId, m: nat, n: nat)
    requires id in db.shows
    ensures SetAvailable(SetAvailable(db, id, m), id, n) == SetAvailable(db, id, n)
  {
  }

  /** Changing a show's record keeps the invariant: it does not depend on the show's fields. */
  lemma ShowRecordKeepsConsistent(db: Db, id: ShowId, s: Show)
    requires Consistent(db) && id in db.shows
    ensures Consistent(db.(shows := db.shows[id := s]))
  {
    var db' := db.(shows := db.shows[id := s]);
    forall b | b in db'.bookings ensures BookingHeld(db', db'.bookings[b]) {
      assert BookingHeld(db, db.bookings[b]);
    }
  }

  /** The tables after Show.save inserts show s under the next id, before its seats exist. */
  function InsertShow(db: Db, s: Show): Db {
    db.(shows := db.shows[db.nextShowId := s], seats := db.seats[db.nextShowId := map[]],
        nextShowId := db.nextShowId + 1)
  }

  /** Inserting a new show under the next id, with no seats yet, keeps the invariant; no booking refers to it. */
  lemma InsertShowKeepsConsistent(db: Db, s: Show)
    requires Consistent(db)
    ensures Consistent(InsertShow(db, s))
    ensures forall b :: b in db.bookings ==> db.bookings[b].show != db.nextShowId
  {
    var id := db.nextShowId;
    var db' := InsertShow(db, s);
    forall b | b in db'.bookings ensures BookingHeld(db', db'.bookings[b]) && db'.bookings[b].show != id {
      assert BookingHeld(db, db.bookings[b]);
    }
  }

  /** The tables with show id's seats replaced by t. */
  function WithSeats(db: Db, id: ShowId, t: SeatTable): Db {
    db.(seats := db.seats[id := t])
  }

  /**
   * The bookings after the Seat rows of show id are deleted: the deletion
   * cascades to the booking-seat links, so every booking of that show is left
   * with no seats; nothing else changes.
   */
  function Unlinked(bookings: map<BookingId, Booking>, id: ShowId): (r: map<BookingId, Booking>)
    ensures r.Keys == bookings.Keys
    ensures forall b :: b in bookings && bookings[b].show == id ==> r[b] == bookings[b].(seats := {})
    ensures forall b :: b in bookings && bookings[b].show != id ==> r[b] == bookings[b]
    ensures (forall b :: b in bookings ==> bookings[b].show != id) ==> r == bookings
  {
    map b | b in bookings :: if bookings[b].show == id then bookings[b].(seats := {}) else bookings[b]
  }

  /** Replacing the seats of a show no booking refers to by unbooked seats keeps the invariant. */
  lemma FreshSeatsKeepConsistent(db: Db, id: ShowId, t: SeatTable)
    requires Consistent(db) && id in db.shows
    requires forall b :: b in db.bookings ==> db.bookings[b].show != id
    requires forall l :: l in t ==> !t[l]
    ensures Consistent(WithSeats(db, id, t))
  {
    var db' := WithSeats(db, id, t);
    forall b | b in db'.bookings ensures BookingHeld(db', db'.bookings[b]) {
      assert BookingHeld(db, db.bookings[b]);
    }
  }

  /** The tables after creating show s of theatre th: the row is inserted, then its seats generated. */
  function ShowCreated(db: Db, th: Theatre, s: Show): (r: Db)
    requires th.noofseats <= MaxTheatreSeats
    ensures r.shows == db.shows[db.nextShowId := s] && r.nextShowId == db.nextShowId + 1
    ensures r.seats.Keys == db.seats.Keys + {db.nextShowId}
    ensures r.seats[db.nextShowId].Keys == GeneratedNumbers(Min(th.noofseats, s.totalTickets))
    ensures r.bookings == db.bookings && r.payments == db.payments
  {
    WithSeats(InsertShow(db, s), db.nextShowId, FreshSeats(Min(th.noofseats, s.totalTickets)))
  }

  /** Creating a show keeps the invariant. */
  lemma ShowCreatedKeepsConsistent(db: Db, th: Theatre, s: Show)
    requires Consistent(db) && th.noofseats <= MaxTheatreSeats
    ensures Consistent(ShowCreated(db, th, s))
  {
    InsertShowKeepsConsistent(db, s);
    FreshSeatsKeepConsistent(InsertShow(db, s), db.nextShowId, FreshSeats(Min(th.noofseats, s.totalTickets)));
  }

  /**
   * Creating a show gives it a new id, leaves every other show's seats alone
   * and gives the new show exactly min(noofseats, total_tickets) unbooked
   * seats, labelled with the first seat numbers.
   */
  lemma ShowCreatedEffects(db: Db, th: Theatre, s: Show)
    requires Consistent(db) && th.noofseats <= MaxTheatreSeats
    ensures var db', id, n := ShowCreated(db, th, s), db.nextShowId, Min(th.noofseats, s.totalTickets);
            && id !in db.shows && db'.shows == db.shows[id := s]
            && db'.seats.Keys == db.seats.Keys + {id}
            && (forall x :: x in db.seats ==> db'.seats[x] == db.seats[x])
            && db'.seats[id].Keys == GeneratedNumbers(n) && |db'.seats[id]| == n
            && (forall l :: l in db'.seats[id] ==> !db'.seats[id][l])
            && db'.bookings == db.bookings && db'.payments == db.payments
  {
    FreshSeatsCount(Min(th.noofseats, s.totalTickets));
  }

  /**
   * Inserting a booking whose seats are unbooked seats of its show, one per
   * ticket, and booking those seats keeps the invariant; in particular no seat
   * ends up linked to two bookings.
   */
  lemma BookSeatsKeepsConsistent(db: Db, b: Booking)
    requires Consistent(db) && b.show in db.shows
    requires b.seats <= Unbooked(db.seats[b.show]) && b.nooftickets == |b.seats|
    ensures Consistent(BookSeats(db, b))
  {
    BookSeatsKeepsHeld(db, b);
    BookSeatsKeepsSingle(db, b);
  }

  lemma BookSeatsKeepsHeld(db: Db, b: Booking)
    requires Consistent(db) && b.show in db.shows
    requires b.seats <= Unbooked(db.seats[b.show]) && b.nooftickets == |b.seats|
    ensures var db' := BookSeats(db, b); forall c :: c in db'.bookings ==> BookingHeld(db', db'.bookings[c])
  {
    var id := db.nextBookingId;
    var db' := BookSeats(db, b);
    forall c | c in db'.bookings ensures BookingHeld(db', db'.bookings[c]) {
      if c != id {
        assert db'.bookings[c] == db.bookings[c];
        assert BookingHeld(db, db.bookings[c]);
      }
    }
  }

  lemma BookSeatsKeepsSingle(db: Db, b: Booking)
    requires Consistent(db) && b.show in db.shows
    requires b.seats <= Unbooked(db.seats[b.show])
    ensures NoDoubleBooking(BookSeats(db, b))
  {
    var id := db.nextBookingId;
    var db' := BookSeats(db, b);
    forall b1, b2 | b1 in db'.bookings && b2 in db'.bookings && b1 != b2 && db'.bookings[b1].show == db'.bookings[b2].show
      ensures db'.bookings[b1].seats !! db'.bookings[b2].seats
    {
      if b1 == id {
        assert BookingHeld(db, db.bookings[b2]);
      } else if b2 == id {
        assert BookingHeld(db, db.bookings[b1]);
      }
    }
  }

  /** Releasing a booking's seats and deleting it (and its payment) keeps the invariant. */
  lemma ReleaseBookingKeepsConsistent(db: Db, id: BookingId)
    requires Consistent(db) && id in db.bookings
    ensures db.bookings[id].show in db.seats && Consistent(ReleaseBooking(db, id))
  {
    var b := db.bookings[id];
    assert BookingHeld(db, b);
    var db' := ReleaseBooking(db, id);
    forall c | c in db'.bookings ensures BookingHeld(db', db'.bookings[c]) {
      assert BookingHeld(db, db.bookings[c]);
      assert db.bookings[c].show == b.show ==> db.bookings[c].seats !! b.seats;
    }
  }

  /** The tables after a successful booking request: booked as the serializer does, and the counter lowered twice. */
  function BookingCreated(db: Db, req: BookingRequest): (r: Db)
    requires req.show in db.shows && req.show in db.seats
    requires 2 * |req.selected| <= db.shows[req.show].available
    ensures r.bookings.Keys == db.bookings.Keys + {db.nextBookingId}
    ensures r.bookings[db.nextBookingId].nooftickets == |req.selected|
    ensures req.show in r.shows && r.shows[req.show].available == db.shows[req.show].available - 2 * |req.selected|
    ensures r.payments == db.payments && r.nextBookingId == db.nextBookingId + 1
  {
    SetAvailable(BookSeats(db, NewBooking(req, db.seats[req.show])), req.show,
                 db.shows[req.show].available - 2 * |req.selected|)
  }

  /**
   * A validated booking request that succeeds keeps the invariant; it inserts
   * one booking under a new id, holding exactly the selected seats with one
   * ticket per seat; exactly the selected seats of the show turn booked, every
   * other seat keeps its flag; the show's counter ends 2 * len(selected_seats)
   * lower; payments are untouched.
   */
  lemma BookingCreatedEffects(db: Db, req: BookingRequest)
    requires Consistent(db) && req.show in db.shows
    requires ValidateBooking(req, Some(db.shows[req.show]), db.seats[req.show]).Pass?
    requires 2 * |req.selected| <= db.shows[req.show].available
    ensures var db', id, t := BookingCreated(db, req), db.nextBookingId, db.seats[req.show];
            && Consistent(db')
            && id !in db.bookings && db'.bookings.Keys == db.bookings.Keys + {id}
            && (forall c :: c in db.bookings ==> db'.bookings[c] == db.bookings[c])
            && db'.bookings[id].seats == ElemSet(req.selected) && db'.bookings[id].nooftickets == |req.selected|
            && db'.bookings[id].user == req.user && db'.bookings[id].show == req.show
            && (forall i :: 0 <= i < |req.selected| ==> !t[req.selected[i]] && db'.seats[req.show][req.selected[i]])
            && db'.seats[req.show].Keys == t.Keys
            && (forall l :: l in t && l !in req.selected ==> db'.seats[req.show][l] == t[l])
            && (forall x :: x in db.seats && x != req.show ==> db'.seats[x] == db.seats[x])
            && db'.shows[req.show].available == db.shows[req.show].available - 2 * |req.selected|
            && db'.shows == db.shows[req.show := db.shows[req.show].(available := db.shows[req.show].available - 2 * |req.selected|)]
            && db'.payments == db.payments
  {
    var b := NewBooking(req, db.seats[req.show]);
    CountMatchesLength(db.seats[req.show], req.selected);
    BookSeatsKeepsConsistent(db, b);
    ShowRecordKeepsConsistent(BookSeats(db, b), req.show,
      db.shows[req.show].(available := db.shows[req.show].available - 2 * |req.selected|));
  }

  /** The tables after Booking.cancel_booking: seats released, booking and payment deleted, counter raised. */
  function BookingCancelled(db: Db, id: BookingId): (r: Db)
    requires id in db.bookings && db.bookings[id].show in db.shows && db.bookings[id].show in db.seats
    ensures r.bookings == db.bookings - {id} && r.payments == db.payments - {id}
    ensures db.bookings[id].show in r.shows && r.shows[db.bookings[id].show].available == db.shows[db.bookings[id].show].available + db.bookings[id].nooftickets
  {
    var b := db.bookings[id];
    SetAvailable(ReleaseBooking(db, id), b.show, db.shows[b.show].available + b.nooftickets)
  }

  /**
   * Cancelling a booking keeps the invariant; every seat of the booking turns
   * unbooked, every other seat keeps its flag, the show's counter rises by
   * exactly nooftickets (with no cap at total_tickets), and the booking and its
   * payment are deleted.
   */
  lemma BookingCancelledEffects(db: Db, id: BookingId)
    requires Consistent(db) && id in db.bookings
    ensures var b := db.bookings[id];
            && b.show in db.shows && b.show in db.seats
            && var db' := BookingCancelled(db, id);
            && Consistent(db')
            && (forall l :: l in b.seats ==> l in db'.seats[b.show] && !db'.seats[b.show][l])
            && db'.seats.Keys == db.seats.Keys
            && (forall x :: x in db.seats ==> db'.seats[x].Keys == db.seats[x].Keys)
            && (forall x, l :: x in db.seats && l in db.seats[x] && !(x == b.show && l in b.seats) ==>
                  db'.seats[x][l] == db.seats[x][l])
            && db'.shows[b.show].available == db.shows[b.show].available + b.nooftickets
            && db'.shows == db.shows[b.show := db.shows[b.show].(available := db.shows[b.show].available + b.nooftickets)]
            && db'.bookings == db.bookings - {id} && db'.payments == db.payments - {id}
  {
    var b := db.bookings[id];
    ReleaseBookingKeepsConsistent(db, id);
    ShowRecordKeepsConsistent(ReleaseBooking(db, id), b.show,
      db.shows[b.show].(available := db.shows[b.show].available + b.nooftickets));
  }

  /**
   * Booking and then cancelling the new booking restores every seat flag, the
   * bookings and the payments, but leaves the show's counter len(selected_seats)
   * lower than before: the booking took 2k off and the cancel gives k back.
   */
  lemma CancelAfterCreate(db: Db, req: BookingRequest)
    requires Consistent(db) && req.show in db.shows
    requires ValidateBooking(req, Some(db.shows[req.show]), db.seats[req.show]).Pass?
    requires 2 * |req.selected| <= db.shows[req.show].available
    ensures var db1, id := BookingCreated(db, req), db.nextBookingId;
            && id in db1.bookings && db1.bookings[id].show in db1.shows && db1.bookings[id].show in db1.seats
            && var db2 := BookingCancelled(db1, id);
            && db2.seats == db.seats && db2.bookings == db.bookings && db2.payments == db.payments
            && db2.shows[req.show].available == db.shows[req.show].available - |req.selected|
  {
    var id, t := db.nextBookingId, db.seats[req.show];
    var b := NewBooking(req, t);
    assert id !in db.bookings;
    ReleaseUndoesBook(t, b.seats);
    var db1 := BookingCreated(db, req);
    assert db1.bookings - {id} == db.bookings;
    assert db.payments - {id} == db.payments;
  }

  /** The tables after inserting payment p for booking id. */
  function PaymentAdded(db: Db, id: BookingId, p: Payment): (r: Db)
    ensures r.payments.Keys == db.payments.Keys + {id} && r.payments[id] == p
    ensures forall x :: x in db.payments && x != id ==> r.payments[x] == db.payments[x]
    ensures r.shows == db.shows && r.seats == db.seats && r.bookings == db.bookings
  {
    db.(payments := db.payments[id := p])
  }

  /** The payment PaymentView.create inserts for booking id: the booking's user, its price as amount. */
  function PaymentFor(db: Db, id: BookingId, paymentMethod: string, status: string, transactionId: string): (p: Payment)
    requires id in db.bookings && db.bookings[id].show in db.shows
    ensures p.user == db.bookings[id].user
    ensures p.amount == db.bookings[id].nooftickets * db.shows[db.bookings[id].show].ticketPrice
    ensures p.paymentMethod == paymentMethod && p.status == status && p.transactionId == transactionId
  {
    var b := db.bookings[id];
    Payment(b.user, paymentMethod, b.nooftickets * db.shows[b.show].ticketPrice, status, transactionId)
  }

  /**
   * Paying for a booking that has no payment yet keeps the invariant; the new
   * payment's amount is the booking's ticket count at the show's ticket price,
   * which is also the number of seats linked to it times that price.
   */
  lemma PaymentAddedEffects(db: Db, id: BookingId, paymentMethod: string, status: string, transactionId: string)
    requires Consistent(db) && id in db.bookings && id !in db.payments
    ensures var b := db.bookings[id];
            && b.show in db.shows
            && var p := PaymentFor(db, id, paymentMethod, status, transactionId);
            && Consistent(PaymentAdded(db, id, p))
            && p.amount == b.nooftickets * db.shows[b.show].ticketPrice == |b.seats| * db.shows[b.show].ticketPrice
            && p.user == b.user && p.status == status
  {
    assert BookingHeld(db, db.bookings[id]);
  }

  /**
   * The loop of generate_seats on its own: seat i is created unbooked under the
   * i-th seat number, for i from 0 to total - 1.
   */
  method GenerateTable(total: nat) returns (table: SeatTable)
    requires total <= MaxTheatreSeats
    ensures table == FreshSeats(total)
  {
    table := map[];
    var i := 0;
    while i < total
      invariant 0 <= i <= total
      invariant table == FreshSeats(i)
    {
      FreshSeatsStep(i);
      table := table[SeatNumber(i) := false];
      i := i + 1;
    }
  }

  /**
   * The loop over the rows of a seat query on its own: each row's seat is set
   * booked and added to the booking's seats, given as linked.
   */
  method BookEach(t: SeatTable, linked: set<string>, rows: seq<string>) returns (t': SeatTable, linked': set<string>)
    requires forall i :: 0 <= i < |rows| ==> rows[i] in t
    ensures t' == BookAll(t, ElemSet(rows)) && linked' == linked + ElemSet(rows)
  {
    t', linked' := t, linked;
    var i := 0;
    while i < |rows|
      invariant 0 <= i <= |rows|
      invariant t'.Keys == t.Keys
      invariant forall l :: l in t ==> t'[l] == (t[l] || l in rows[..i])
      invariant linked' == linked + ElemSet(rows[..i])
    {
      assert rows[..i + 1] == rows[..i] + [rows[i]];
      t', linked' := t'[rows[i] := true], linked' + {rows[i]};
      i := i + 1;
    }
    assert rows[..i] == rows;
  }

  /**
   * A request with no seats passes validation (zero matches equal zero seats)
   * and stores a booking with zero tickets and no seats, outside the 1..10 the
   * nooftickets field allows, leaving the counter as it was.
   */
  lemma EmptySelectionBooksNothing(db: Db, req: BookingRequest)
    requires Consistent(db) && req.show in db.shows && req.selected == []
    requires MinTicketsPerBooking <= req.nooftickets <= MaxTicketsPerBooking
    requires db.shows[req.show].theatre == req.theatre
    ensures ValidateBooking(req, Some(db.shows[req.show]), db.seats[req.show]).Pass?
    ensures var db', id := BookingCreated(db, req), db.nextBookingId;
            && id in db'.bookings && db'.bookings[id].nooftickets == 0 && db'.bookings[id].seats == {}
            && db'.shows[req.show].available == db.shows[req.show].available
  {
    BookingCreatedEffects(db, req);
  }

  /** In a freshly generated 100-seat table, A1 and A2 can be booked together. */
  lemma FirstTwoSeatsBookable(t: SeatTable)
    requires t.Keys == GeneratedNumbers(100) && forall l :: l in t ==> !t[l]
    ensures SelectionBookable(t, ["A1", "A2"])
  {
    FirstSeatNumbers();
    assert SeatNumber(0) in GeneratedNumbers(100) && SeatNumber(1) in GeneratedNumbers(100);
  }

  /** The tables after creating, on empty tables, a show of a 100-seat theatre with the default counters. */
  function FirstShow(): Db {
    ShowCreated(Db(map[], map[], map[], map[], 0, 0), Theatre(0, 100), Show(0, 100, 100, 150))
  }

  /** On those tables a request for A1 and A2 passes validation. */
  lemma FirstShowAcceptsTwo()
    ensures Consistent(FirstShow()) && 0 in FirstShow().shows && FirstShow().shows[0].available == 100
    ensures ValidateBooking(BookingRequest(7, 0, 0, 2, ["A1", "A2"]), Some(FirstShow().shows[0]), FirstShow().seats[0]).Pass?
  {
    var db0, th, s := Db(map[], map[], map[], map[], 0, 0), Theatre(0, 100), Show(0, 100, 100, 150);
    ShowCreatedKeepsConsistent(db0, th, s);
    ShowCreatedEffects(db0, th, s);
    FirstTwoSeatsBookable(FirstShow().seats[0]);
  }

  /**
   * Booking A1 and A2 of that show takes 4 off its counter, and cancelling the
   * booking gives back only 2.
   */
  lemma BookTwoThenCancel()
    ensures var db1, req := FirstShow(), BookingRequest(7, 0, 0, 2, ["A1", "A2"]);
            && 0 in db1.shows && 0 in db1.seats && 4 <= db1.shows[0].available
            && var db2 := BookingCreated(db1, req);
            && db2.bookings.Keys == {0} && db2.bookings[0].seats == {"A1", "A2"}
            && db2.shows[0].available == 96
            && db2.bookings[0].show in db2.shows && db2.bookings[0].show in db2.seats
            && BookingCancelled(db2, 0).shows[0].available == 98
  {
    FirstShowAcceptsTwo();
    BookTwoThenCancelOn(FirstShow(), 0, 7);
  }

  /** The same on any tables where show x has A1 and A2 free and its counter at 100. */
  lemma BookTwoThenCancelOn(db: Db, x: ShowId, user: UserId)
    requires Consistent(db) && x in db.shows && db.shows[x].available == 100
    requires ValidateBooking(BookingRequest(user, db.shows[x].theatre, x, 2, ["A1", "A2"]),
                             Some(db.shows[x]), db.seats[x]).Pass?
    ensures var req := BookingRequest(user, db.shows[x].theatre, x, 2, ["A1", "A2"]);
            var db2, id := BookingCreated(db, req), db.nextBookingId;
            && db2.bookings.Keys == db.bookings.Keys + {id} && db2.bookings[id].seats == {"A1", "A2"}
            && db2.shows[x].available == 96
            && db2.bookings[id].show in db2.shows && db2.bookings[id].show in db2.seats
            && BookingCancelled(db2, id).shows[x].available == 98
  {
    var req := BookingRequest(user, db.shows[x].theatre, x, 2, ["A1", "A2"]);
    BookingCreatedEffects(db, req);
    assert ElemSet(req.selected) == {"A1", "A2"};
  }

  class Store {
    var shows: map<ShowId, Show>
    var seats: map<ShowId, SeatTable>
    var bookings: map<BookingId, Booking>
    var payments: map<BookingId, Payment>
    var nextShowId: ShowId
    var nextBookingId: BookingId

    /** The current contents of the tables. */
    function State(): (db: Db)
      reads this
      ensures db.shows == shows && db.seats == seats && db.bookings == bookings && db.payments == payments
      ensures db.nextShowId == nextShowId && db.nextBookingId == nextBookingId
    {
      Db(shows, seats, bookings, payments, nextShowId, nextBookingId)
    }

    ghost predicate Valid()
      reads this
    {
      Consistent(State())
    }

    constructor ()
      ensures State() == Db(map[], map[], map[], map[], 0, 0)
      ensures Valid()
    {
      shows, seats, bookings, payments := map[], map[], map[], map[];
      nextShowId, nextBookingId := 0, 0;
    }

    /** The show that show_id names, if any. */
    function LookupShow(id: ShowId): (r: Option<Show>)
      reads this
      ensures r.Some? <==> id in shows
      ensures r.Some? ==> r.value == shows[id]
    {
      if id in shows then Some(shows[id]) else None
    }

    /** The seats of a show; a show id without seats has none. */
    function SeatsOf(id: ShowId): (t: SeatTable)
      reads this
      ensures id in seats ==> t == seats[id]
      ensures id !in seats ==> t == map[]
    {
      if id in seats then seats[id] else map[]
    }

    /** The booking request's verdict in the current state. */
    function Verdict(req: BookingRequest): Outcome<BookingError>
      reads this
    {
      ValidateBooking(req, LookupShow(req.show), SeatsOf(req.show))
    }

    /** Writes every table back to db: the rollback at the end of a failed transaction.atomic block. */
    method Restore(db: Db)
      modifies this
      ensures State() == db
    {
      shows, seats, bookings, payments := db.shows, db.seats, db.bookings, db.payments;
      nextShowId, nextBookingId := db.nextShowId, db.nextBookingId;
    }

    /**
     * Show.save on a new show: the row is inserted, then, because this is the
     * first save, the show's seats are generated. The theatre is the one the
     * show's theatre_id names, with its validated noofseats.
     */
    method CreateShow(theatre: Theatre, totalTickets: nat, available: nat, ticketPrice: nat) returns (id: ShowId)
      requires Valid() && theatre.noofseats <= MaxTheatreSeats
      modifies this
      ensures id == old(nextShowId)
      ensures State() == ShowCreated(old(State()), theatre, Show(theatre.id, totalTickets, available, ticketPrice))
      ensures Valid()
    {
      var show := Show(theatre.id, totalTickets, available, ticketPrice);
      ShowCreatedKeepsConsistent(State(), theatre, show);
      id := nextShowId;
      shows := shows[id := show];
      seats := seats[id := map[]];
      nextShowId := nextShowId + 1;
      GenerateSeats(id, theatre);
    }

    /**
     * Show.save on a show already stored: the fields are written and, since this
     * is not the first save, the seats are left as they are.
     */
    method UpdateShow(id: ShowId, show: Show)
      requires Valid() && id in shows
      modifies this
      ensures State() == old(State()).(shows := old(shows)[id := show])
      ensures Valid()
    {
      ShowRecordKeepsConsistent(State(), id, show);
      shows := shows[id := show];
    }

    /**
     * Show.generate_seats: deletes the show's seats, which also drops their
     * links to bookings, then inserts min(noofseats, total_tickets) unbooked
     * seats numbered A1..A10, B1.. in order. Every inserted number is new to
     * the show, so the unique (show, seat_number) constraint never fires.
     */
    method GenerateSeats(id: ShowId, theatre: Theatre)
      requires id in shows && theatre.id == shows[id].theatre && theatre.noofseats <= MaxTheatreSeats
      modifies this
      ensures State() == WithSeats(old(State()).(bookings := Unlinked(old(bookings), id)), id,
                                   FreshSeats(Min(theatre.noofseats, old(shows[id].totalTickets))))
    {
      bookings := Unlinked(bookings, id);
      var table := GenerateTable(Min(theatre.noofseats, shows[id].totalTickets));
      seats := seats[id := table];
    }

    /**
     * Show.save after a change of available_seats to n. The column is a
     * PositiveIntegerField, so the database refuses a negative value: the save
     * then fails and writes nothing.
     */
    method SaveAvailable(id: ShowId, n: int) returns (stored: bool)
      requires id in shows
      modifies this
      ensures stored <==> n >= 0
      ensures n >= 0 ==> State() == SetAvailable(old(State()), id, n)
      ensures n < 0 ==> State() == old(State())
    {
      if n >= 0 {
        shows := shows[id := shows[id].(available := n)];
        stored := true;
      } else {
        stored := false;
      }
    }

    /**
     * Show.reduce_available_seats: lowers the counter by n and reports true when
     * at least n seats are available; otherwise reports false and changes nothing.
     */
    method ReduceAvailableSeats(id: ShowId, n: int) returns (ok: bool)
      requires Valid() && id in shows
      modifies this
      ensures ok <==> old(shows[id].available) >= n
      ensures State() == if old(shows[id].available) >= n
                         then SetAvailable(old(State()), id, old(shows[id].available) - n)
                         else old(State())
      ensures Valid()
    {
      var show := shows[id];
      if show.available >= n {
        ShowRecordKeepsConsistent(State(), id, show.(available := show.available - n));
        ok := SaveAvailable(id, show.available - n);
      } else {
        ok := false;
      }
    }

    /**
     * Booking.cancel_booking: unbooks every seat linked to the booking, raises
     * the show's counter by nooftickets with no upper cap, and deletes the
     * booking, which deletes its payment too.
     */
    method CancelBooking(id: BookingId)
      requires id in bookings && bookings[id].show in shows && bookings[id].show in seats
      modifies this
      ensures State() == BookingCancelled(old(State()), id)
    {
      var b := bookings[id];
      seats := seats[b.show := ReleaseAll(seats[b.show], b.seats)];
      var show := shows[b.show];
      shows := shows[b.show := show.(available := show.available + b.nooftickets)];
      bookings := bookings - {id};
      payments := payments - {id};
    }

    /** BookingView.cancel: 404 for an unknown booking, otherwise cancel_booking and 200. */
    method Cancel(id: BookingId) returns (outcome: CancelOutcome)
      requires Valid()
      modifies this
      ensures outcome == BookingNotFound <==> id !in old(bookings)
      ensures outcome == BookingNotFound ==> State() == old(State())
      ensures outcome == Cancelled ==>
                id in old(bookings) && old(bookings[id].show) in old(shows) && old(bookings[id].show) in old(seats)
                && State() == BookingCancelled(old(State()), id)
      ensures Valid()
    {
      if id !in bookings {
        return BookingNotFound;
      }
      BookingCancelledEffects(State(), id);
      CancelBooking(id);
      outcome := Cancelled;
    }

    /**
     * The loop BookingSerializer.create and BookingView.create both run over the
     * rows of their seat query: each seat is set booked, saved and added to the
     * booking.
     */
    method LinkSeats(id: BookingId, rows: seq<string>)
      requires id in bookings && bookings[id].show in seats
      requires forall i :: 0 <= i < |rows| ==> rows[i] in seats[bookings[id].show]
      modifies this
      ensures State() == Linked(old(State()), id, ElemSet(rows))
    {
      var b := bookings[id];
      var table, linked := BookEach(seats[b.show], b.seats, rows);
      seats := seats[b.show := table];
      bookings := bookings[id := b.(seats := linked)];
    }

    /**
     * BookingSerializer.create: inserts the booking with nooftickets replaced by
     * the length of the request, books every matching unbooked seat and links
     * it to the booking, then lowers the show's counter by that length and saves
     * the show. stored is false when that save meets the non-negative column; the
     * booking and the seat flags are then written and the enclosing transaction
     * has to roll them back.
     */
    method SaveBooking(req: BookingRequest) returns (id: BookingId, stored: bool)
      requires req.show in shows && req.show in seats
      modifies this
      ensures id == old(nextBookingId)
      ensures stored <==> |req.selected| <= old(shows[req.show].available)
      ensures var booked := BookSeats(old(State()), NewBooking(req, old(seats[req.show])));
              if |req.selected| <= old(shows[req.show].available)
              then State() == SetAvailable(booked, req.show, old(shows[req.show].available) - |req.selected|)
              else State() == booked
    {
      ghost var db := State();
      var b := NewBooking(req, seats[req.show]);
      InsertThenLink(db, b);
      id := nextBookingId;
      bookings := bookings[id := b.(seats := {})];
      nextBookingId := nextBookingId + 1;
      var rows := MatchingList(seats[req.show], req.selected);
      MatchingListSize(seats[req.show], req.selected);
      LinkSeats(id, rows);
      stored := SaveAvailable(req.show, shows[req.show].available - |req.selected|);
    }

    /**
     * The part of BookingView.create after serializer.save(): the pass over the
     * rows counted before the save, whose seats the serializer has already
     * booked and linked, and the second decrement of the show's counter by k.
     */
    method RelinkAndReduce(id: BookingId, show: ShowId, rows: seq<string>, k: nat) returns (stored: bool)
      requires id in bookings && bookings[id].show == show && show in shows && show in seats
      requires ElemSet(rows) <= bookings[id].seats && ElemSet(rows) <= Booked(seats[show])
      modifies this
      ensures stored <==> k <= old(shows[show].available)
      ensures stored ==> State() == SetAvailable(old(State()), show, old(shows[show].available) - k)
      ensures !stored ==> State() == old(State())
    {
      RelinkChangesNothing(State(), id, ElemSet(rows));
      LinkSeats(id, rows);
      stored := SaveAvailable(show, shows[show].available - k);
    }

    /**
     * The writes of the transaction.atomic block of BookingView.create, given
     * the rows of the recount: the serializer's save, then the view's own pass
     * over those rows (a repeat of the serializer's) and a second decrement of
     * the same show's counter. committed is false as soon as a counter save
     * meets the non-negative column; the writes made so far are then left for
     * the rollback.
     */
    method BookingWrites(req: BookingRequest, rows: seq<string>) returns (id: BookingId, committed: bool)
      requires req.show in shows && req.show in seats
      requires ElemSet(rows) == MatchingUnbooked(seats[req.show], req.selected)
      modifies this
      ensures id == old(nextBookingId)
      ensures committed <==> 2 * |req.selected| <= old(shows[req.show].available)
      ensures committed ==> State() == BookingCreated(old(State()), req)
    {
      ghost var booked := BookSeats(State(), NewBooking(req, seats[req.show]));
      ghost var avail := shows[req.show].available;
      var k := |req.selected|;
      var stored;
      id, stored := SaveBooking(req);
      if !stored {
        return id, false;
      }
      committed := RelinkAndReduce(id, req.show, rows, k);
      if committed {
        SetAvailableTwice(booked, req.show, avail - k, avail - 2 * k);
      }
    }

    /**
     * The transaction.atomic block of BookingView.create: the recount of the
     * matching unbooked seats, then the writes; when either counter save meets
     * the non-negative column, every write of the block is rolled back.
     */
    method BookAtomically(req: BookingRequest) returns (id: BookingId, committed: bool)
      requires req.show in shows && req.show in seats
      requires |MatchingUnbooked(seats[req.show], req.selected)| == |req.selected|
      modifies this
      ensures id == old(nextBookingId)
      ensures committed <==> 2 * |req.selected| <= old(shows[req.show].available)
      ensures committed ==> State() == BookingCreated(old(State()), req)
      ensures !committed ==> State() == old(State())
    {
      var saved := State();
      var rows := MatchingList(seats[req.show], req.selected);
      MatchingListSize(seats[req.show], req.selected);
      if |rows| != |req.selected| {
        // the recount sees the state validation saw: this branch is never taken
        assert false;
        return nextBookingId, false;
      }
      id, committed := BookingWrites(req, rows);
      if !committed {
        Restore(saved);
      }
    }

    /**
     * BookingView.create: 400 with the validation error; otherwise the
     * transaction, which answers 201 with the new booking, or 500 when a save
     * of the show's counter failed and everything was rolled back.
     */
    method CreateBooking(req: BookingRequest) returns (outcome: BookingOutcome)
      requires Valid()
      modifies this
      ensures outcome.Rejected? <==> old(Verdict(req)).Fail?
      ensures outcome.Rejected? ==> outcome.error == old(Verdict(req)).error
      ensures outcome == StorageFailure <==>
                old(Verdict(req)).Pass? && old(shows[req.show].available) < 2 * |req.selected|
      ensures !outcome.Created? ==> State() == old(State())
      ensures outcome.Created? ==>
                && old(Verdict(req)).Pass? && outcome.id == old(nextBookingId)
                && State() == BookingCreated(old(State()), req)
      ensures Valid()
    {
      var verdict := Verdict(req);
      if verdict.Fail? {
        return Rejected(verdict.error);
      }
      if 2 * |req.selected| <= shows[req.show].available {
        BookingCreatedEffects(State(), req);
      }
      var id, committed := BookAtomically(req);
      outcome := if committed then Created(id) else StorageFailure;
    }

    /**
     * PaymentView.create: 400 for a missing or unknown booking id and for a
     * booking that already has a payment; otherwise the payment is inserted with
     * the booking's user and price, and the response is 201, confirmed only when
     * the status is "completed".
     */
    method CreatePayment(bookingId: Option<BookingId>, paymentMethod: string, status: string, transactionId: string)
      returns (outcome: PaymentOutcome)
      requires Valid()
      modifies this
      ensures outcome == PaymentRejected(InvalidBookingId) <==> bookingId.None? || bookingId.value !in old(bookings)
      ensures outcome == PaymentRejected(PaymentExists) <==>
                bookingId.Some? && bookingId.value in old(bookings) && bookingId.value in old(payments)
      ensures outcome.PaymentRejected? ==> State() == old(State())
      ensures outcome.PaymentCreated? ==>
                && bookingId.Some? && bookingId.value in old(bookings) && old(bookings[bookingId.value].show) in old(shows)
                && State() == PaymentAdded(old(State()), bookingId.value,
                                PaymentFor(old(State()), bookingId.value, paymentMethod, status, transactionId))
                && outcome.confirmed == (status == CompletedStatus)
      ensures Valid()
    {
      if bookingId.None? || bookingId.value !in bookings {
        return PaymentRejected(InvalidBookingId);
      }
      var id := bookingId.value;
      if id in payments {
        return PaymentRejected(PaymentExists);
      }
      PaymentAddedEffects(State(), id, paymentMethod, status, transactionId);
      var b := bookings[id];
      var payment := Payment(b.user, paymentMethod, b.nooftickets * shows[b.show].ticketPrice, status, transactionId);
      payments := payments[id := payment];
      outcome := PaymentCreated(payment.status == CompletedStatus);
    }

    /** BookingSerializer.get_booking_price: the ticket count at the show's price, one ticket per linked seat. */
    function BookingPrice(id: BookingId): (r: nat)
      reads this
      requires Valid() && id in bookings
      ensures bookings[id].show in shows
      ensures r == |bookings[id].seats| * shows[bookings[id].show].ticketPrice
    {
      assert BookingHeld(State(), bookings[id]);
      bookings[id].nooftickets * shows[bookings[id].show].ticketPrice
    }

    /** BookingSerializer.get_seats: the numbers of the seats linked to the booking, all booked seats of its show. */
    function BookingSeats(id: BookingId): (r: set<string>)
      reads this
      requires Valid() && id in bookings
      ensures bookings[id].show in seats
      ensures r == bookings[id].seats
      ensures r <= Booked(seats[bookings[id].show]) && |r| == bookings[id].nooftickets
    {
      assert BookingHeld(State(), bookings[id]);
      bookings[id].seats
    }

    /** SeatView.available_seats without its cache: 400 without show_id, else the show's unbooked seats. */
    function AvailableSeats(showId: Option<ShowId>): (r: SeatListing)
      reads this
      ensures r == ShowIdRequired <==> showId.None?
      ensures r.Listing? ==> forall l :: l in r.seats <==>
                showId.value in seats && l in seats[showId.value] && !seats[showId.value][l]
    {
      if showId.None? then ShowIdRequired else Listing(Unbooked(SeatsOf(showId.value)))
    }

    /** SeatView.booked_seats: 400 without show_id, else the show's booked seats. */
    function BookedSeats(showId: Option<ShowId>): (r: SeatListing)
      reads this
      ensures r == ShowIdRequired <==> showId.None?
      ensures r.Listing? ==> forall l :: l in r.seats <==>
                showId.value in seats && l in seats[showId.value] && seats[showId.value][l]
    {
      if showId.None? then ShowIdRequired else Listing(Booked(SeatsOf(showId.value)))
    }
  }

  /** For a given show the two seat queries split its seats into two disjoint parts. */
  lemma SeatListingsPartition(st: Store, id: ShowId)
    ensures st.AvailableSeats(Some(id)).seats + st.BookedSeats(Some(id)).seats == st.SeatsOf(id).Keys
    ensures st.AvailableSeats(Some(id)).seats * st.BookedSeats(Some(id)).seats == {}
  {
    QueriesPartition(st.SeatsOf(id));
  }
}
