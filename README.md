# Seat inventory and booking of BMS_app

This project models the seat inventory and booking core of the BMS_app
movie-booking backend (a Django REST service), and proves properties of it.

- **Seats of a show.** When a show is saved for the first time,
  `Show.generate_seats` gives the show min(noofseats, total_tickets) seats,
  numbered A1..A10, B1..B10, and so on.
- **The counter.** Each show keeps an `available_seats` counter.
  - `reduce_available_seats` is a guarded decrement.
  - `cancel_booking` frees a booking's seats, raises the counter by the
    booking's ticket count with no cap, and deletes the booking and its payment.
- **Booking a list of seats.** A booking request names a list of seat numbers.
  - `BookingSerializer.validate` accepts it only when the show belongs to the
    requested theatre and the number of matching unbooked seats equals the
    length of the list.
  - `BookingView.create` repeats that count inside `transaction.atomic`, then
    runs `serializer.save()`.
  - `serializer.save()` calls `BookingSerializer.create`. That inserts the
    booking with `nooftickets := len(selected_seats)`, books and links the
    matching seats, and lowers the counter by the length.
  - Back in the view, the same seats are booked and linked again, and the
    counter is lowered a second time.
  - So a successful booking of k seats lowers the counter by 2k, and cancelling
    it gives back only k. The model reproduces this exactly.
  - The counter is a non-negative database column. When a save would store a
    negative value it fails, the whole atomic block rolls back, and the request
    ends in a 500 (`StorageFailure`). This happens exactly when the counter is
    below 2k.
- **Paying.** `PaymentView.create` refuses a missing or unknown booking id and a
  second payment for the same booking. It inserts the payment with the
  booking's user and the amount nooftickets × ticket_price, and answers 201
  whether or not the status is "completed".
- **Seat queries.** The two seat queries list a show's unbooked and booked seats.

Layout:

- `wrappers.dfy`: `Option` and a pass/fail `Outcome`.
- `seat_numbering.dfy`: seat numbers as a (row, number) position printed as a
  string. The decimal printing has a parser partner, so the round trip,
  injectivity and the count of generated numbers can be proved.
- `seat_queries.dfy`: one show's seats as a map from seat number to its
  `is_booked` flag. Holds the filter queries, the count-equals-length lemma,
  booking and releasing a set of seats, and the freshly generated table.
- `booking_rules.dfy`: the records (theatre, show, booking, payment, request)
  and `BookingSerializer.validate`.
- `booking_store.dfy`: the database as a value `Db`, and the class `Store`.
  - Each request's effect on `Db` is a function: `ShowCreated`,
    `BookingCreated`, `BookingCancelled`, `PaymentAdded`.
  - The invariant `Consistent` holds together with lemmas stating the effects
    of each request.
  - `Store`'s fields are the tables. Its methods are the requests, and each is
    proved to end in exactly the state that function gives.

The invariant `Consistent` says the following:

- every show has a seat table;
- every booking's show exists;
- every seat linked to a booking is a booked seat of that show;
- each booking holds one ticket per linked seat;
- no seat is linked to two bookings;
- every payment belongs to an existing booking;
- ids are below the next id to hand out.

Values from outside the tables are parameters: the theatre row a show refers
to, the user id, the payment's transaction id (a fresh UUID in the source) and
the request fields after DRF parsing.

## Model

| member | source | states |
|---|---|---|
| SeatNumbering.Decimal | BMS_app/models.py:125 | the decimal form of a number is a non-empty string of digits, with no leading zero unless the number is 0 |
| SeatNumbering.Format | BMS_app/models.py:125 | a printed seat number is the row letter followed by the decimal form of the number within the row |
| SeatNumbering.SeatNumber | BMS_app/models.py:124-125 | seat i's number is the letter Rows[i div 10] followed by the decimal form of (i mod 10)+1 |
| SeatNumbering.GeneratedNumbers | BMS_app/models.py:123-126 | the numbers generated for n > 0 seats include the first seat's and the n-th seat's |
| SeatNumbering.DecimalRoundTrip | BMS_app/models.py:125 | parsing the decimal form of a seat's number within its row gives the number back |
| SeatNumbering.FormatRoundTrip | BMS_app/models.py:124-125 | a printed seat number (row letter then decimal number) parses back to its position |
| SeatNumbering.FormatInjective | BMS_app/models.py:124-125 | two positions that print the same seat number are the same position |
| SeatNumbering.Position | BMS_app/models.py:121-125 | seat i sits in row i div 10 with number (i mod 10)+1 in 1..10, and the row index is at most 9 when i < 100 |
| SeatNumbering.SeatNumberInjective | BMS_app/models.py:123-126 | different seat indexes get different seat numbers |
| SeatNumbering.NextIsFresh | BMS_app/models.py:123-126 | the number created at step i is not among the numbers created before it, so the unique (show, seat_number) pair never clashes |
| SeatNumbering.GeneratedCount | BMS_app/models.py:121-126 | generating n seats yields exactly n distinct seat numbers |
| SeatNumbering.GeneratedStep | BMS_app/models.py:123-126 | the numbers after step n are those after step n-1 plus the n-th number |
| SeatNumbering.FirstSeatNumbers | BMS_app/models.py:119-125 | seats 0, 1, 9, 10 and 99 are numbered A1, A2, A10, B1 and J10 |
| SeatQueries.Unbooked | BMS_app/views.py:173 | the available-seats query holds exactly the show's seats whose flag is false |
| SeatQueries.Booked | BMS_app/views.py:185 | the booked-seats query holds exactly the show's seats whose flag is true |
| SeatQueries.QueriesPartition | BMS_app/views.py:173-185 | the two queries are disjoint and together cover all of the show's seats |
| SeatQueries.MatchingUnbooked | BMS_app/serializer.py:109 | the filter result is exactly the request's seat numbers that are unbooked seats of the show |
| SeatQueries.MatchingList | BMS_app/views.py:63 | the rows of the filter are duplicate-free and hold exactly the unbooked seats of the show named in the request |
| SeatQueries.MatchingListSize | BMS_app/views.py:63-64 | the rows are the filter result as a set, so len() of the rows is the number of matching seats |
| SeatQueries.ElemSetSize | BMS_app/serializer.py:110 | a list names at most as many seats as it is long, and exactly as many iff it has no duplicate |
| SeatQueries.CountMatchesLength | BMS_app/serializer.py:109-111 | the count equals len(selected_seats) iff the list is duplicate-free and every seat in it exists and is unbooked; then the filter is exactly the listed seats |
| SeatQueries.DuplicateNeverMatches | BMS_app/views.py:63-64 | a list naming a seat twice always yields fewer matches than its length |
| SeatQueries.BookAll | BMS_app/serializer.py:120-122 | booking a set of seats sets their flags and keeps every other seat's flag and the seat set |
| SeatQueries.ReleaseAll | BMS_app/models.py:150 | releasing a set of seats clears their flags and keeps every other seat's flag and the seat set |
| SeatQueries.BookAllQueries | BMS_app/serializer.py:119-123 | booking moves exactly the booked seats from the unbooked query to the booked query |
| SeatQueries.ReleaseUndoesBook | BMS_app/models.py:150 | releasing seats that were unbooked before booking them restores every flag |
| SeatQueries.FreshSeats | BMS_app/models.py:123-126 | the generated table holds exactly the first n seat numbers, all unbooked |
| SeatQueries.FreshSeatsCount | BMS_app/models.py:121-126 | the generated table for n seats has exactly n seats |
| SeatQueries.FreshSeatsStep | BMS_app/models.py:123-126 | each Seat.objects.create of the loop adds a new seat number, unbooked |
| BookingRules.ValidateBooking | BMS_app/serializer.py:101-112 | passes iff the show exists, nooftickets is in 1..10, the show belongs to the theatre and the selected seats are distinct, existing and unbooked; the show and seat errors are named; on pass the count equals the length |
| BookingRules.DuplicateRequestRefused | BMS_app/serializer.py:109-111 | a request listing a seat number twice fails validation whatever the seat table |
| BookingStore.NewBooking | BMS_app/serializer.py:115-119 | the booking create inserts has the request's user, theatre and show, len(selected_seats) tickets whatever nooftickets the client sent, and only unbooked seats named in the request |
| BookingStore.ShowCreated | BMS_app/models.py:110-126 | after creating a show, the show table has the new show under the next id, the new show's seat numbers are exactly the generated ones, and bookings and payments are unchanged |
| BookingStore.BookingCreated | BMS_app/views.py:68-74 | after a successful booking there is exactly one more booking, under the next id, holding len(selected_seats) tickets; the show's counter is 2·len(selected_seats) lower; payments are unchanged |
| BookingStore.BookingCancelled | BMS_app/models.py:148-154 | after a cancel the booking and its payment are gone and the show's counter is nooftickets higher |
| BookingStore.PaymentAdded | BMS_app/views.py:108-115 | inserting a payment adds exactly that payment under the booking's id; other payments and all other tables are unchanged |
| BookingStore.PaymentFor | BMS_app/views.py:108-115 | the inserted payment has the booking's user, amount nooftickets × ticket_price, and the request's payment_method and status with the given transaction id |
| BookingStore.BookSeats | BMS_app/serializer.py:117-123 | inserting a booking adds exactly the next id; the shows and payments are unchanged |
| BookingStore.InsertThenLink | BMS_app/serializer.py:117-123 | creating the booking without seats and then linking its seats gives the same tables as storing it with its seats |
| BookingStore.RelinkChangesNothing | BMS_app/views.py:69-72 | the view's second pass over seats already booked and linked changes nothing |
| BookingStore.ReleaseBooking | BMS_app/models.py:150-154 | the booking and its payment are deleted; the shows and the next id are unchanged |
| BookingStore.SetAvailable | BMS_app/serializer.py:124-125 | saving the counter changes only that show's available_seats: its other fields, every other show, the other tables and the next ids are unchanged |
| BookingStore.SetAvailableTwice | BMS_app/views.py:73-74 | the view's save of the counter overrides the value the serializer saved |
| BookingStore.ShowRecordKeepsConsistent | BMS_app/models.py:110-112 | writing a show's fields keeps the invariant |
| BookingStore.InsertShowKeepsConsistent | BMS_app/models.py:110-112 | inserting a new show keeps the invariant, and no booking refers to the new id |
| BookingStore.FreshSeatsKeepConsistent | BMS_app/models.py:117-126 | replacing the seats of a show that has no bookings with unbooked seats keeps the invariant |
| BookingStore.ShowCreatedKeepsConsistent | BMS_app/models.py:110-115 | creating a show, seats included, keeps the invariant |
| BookingStore.ShowCreatedEffects | BMS_app/models.py:110-126 | a new show gets a new id and exactly min(noofseats, total_tickets) unbooked seats with the first seat numbers; other shows' seats, bookings and payments are unchanged |
| BookingStore.BookSeatsKeepsConsistent | BMS_app/serializer.py:114-123 | inserting a booking of unbooked seats, one ticket per seat, keeps the invariant |
| BookingStore.BookSeatsKeepsHeld | BMS_app/serializer.py:114-123 | after the insert every booking's seats are booked seats of its show |
| BookingStore.BookSeatsKeepsSingle | BMS_app/serializer.py:114-123 | after the insert no seat is linked to two bookings |
| BookingStore.ReleaseBookingKeepsConsistent | BMS_app/models.py:148-154 | releasing and deleting a booking keeps the invariant |
| BookingStore.BookingCreatedEffects | BMS_app/views.py:52-79 | a validated booking that commits keeps the invariant and adds one booking under a new id; it holds exactly the selected seats and len(selected_seats) tickets; exactly those seats turn booked; no other seat, table or booking changes; the shows table differs only in that show's counter, which ends 2·len(selected_seats) lower; payments are unchanged |
| BookingStore.BookingCancelledEffects | BMS_app/models.py:148-154 | cancelling keeps the invariant; the booking's seats turn unbooked and no other seat changes; the shows table differs only in that show's counter, which rises by exactly nooftickets with no cap; the booking and its payment are deleted |
| BookingStore.CancelAfterCreate | BMS_app/views.py:68-74 | booking and then cancelling restores every seat, booking and payment, but leaves the counter len(selected_seats) lower |
| BookingStore.PaymentAddedEffects | BMS_app/views.py:106-115 | a first payment for a booking keeps the invariant; the amount is nooftickets × ticket_price, which is also the number of linked seats × ticket_price; user and status are the booking's user and the request's status |
| BookingStore.GenerateTable | BMS_app/models.py:123-126 | the loop of generate_seats builds exactly the generated table for total seats |
| BookingStore.BookEach | BMS_app/serializer.py:120-123 | the loop over the query rows books exactly the rows' seats and adds exactly them to the booking's seats |
| BookingStore.EmptySelectionBooksNothing | BMS_app/serializer.py:109-117 | a request with no seats passes validation and stores a booking with zero tickets and no seats, leaving the counter unchanged |
| BookingStore.FirstTwoSeatsBookable | BMS_app/models.py:123-126 | in a freshly generated 100-seat table, A1 and A2 can be booked together |
| BookingStore.FirstShowAcceptsTwo | BMS_app/models.py:110-126 | a new show of a 100-seat theatre with default counters is consistent, has 100 available, and accepts a request for A1 and A2 |
| BookingStore.BookTwoThenCancelOn | BMS_app/views.py:68-74 | where A1 and A2 are free and the counter is 100, booking them leaves 96 and cancelling leaves 98 |
| BookingStore.BookTwoThenCancel | BMS_app/views.py:68-74 | on a newly created show, booking A1 and A2 leaves the counter at 96 and cancelling leaves it at 98 |
| BookingStore.Store.LookupShow | BMS_app/serializer.py:88 | show_id resolves to a show iff the Show table has that id |
| BookingStore.Store.Restore | BMS_app/views.py:60 | the rollback of transaction.atomic puts every table back to its state at the start of the block |
| BookingStore.Store.CreateShow | BMS_app/models.py:110-115 | a first save inserts the show under the next id and generates its seats; the new state is exactly the tables after creating a show, and the invariant holds |
| BookingStore.Store.UpdateShow | BMS_app/models.py:110-115 | a later save writes the show's fields and leaves its seats alone; the invariant holds |
| BookingStore.Unlinked | BMS_app/models.py:118 | deleting a show's seats (which drops their rows in the booking–seat link table of models.py:140) leaves each of its bookings with no linked seats and every other booking as it was; when no booking refers to the show nothing changes |
| BookingStore.Store.GenerateSeats | BMS_app/models.py:117-126 | the show's old seats, and their links to bookings, are dropped and replaced by exactly min(noofseats, total_tickets) freshly generated seats; nothing else changes |
| BookingStore.Store.SaveAvailable | BMS_app/models.py:100 | saving the counter succeeds iff the value is non-negative; it then stores that value and otherwise changes nothing |
| BookingStore.Store.ReduceAvailableSeats | BMS_app/models.py:128-133 | returns true iff available ≥ n, lowering the counter by exactly n; otherwise nothing changes; the invariant holds |
| BookingStore.Store.CancelBooking | BMS_app/models.py:148-154 | the new state is exactly the tables after cancelling the booking |
| BookingStore.Store.Cancel | BMS_app/views.py:81-88 | 404 iff the booking does not exist, with nothing changed; otherwise the booking is cancelled with 200; the invariant holds |
| BookingStore.Store.LinkSeats | BMS_app/serializer.py:120-123 | the rows' seats are booked and added to the booking; nothing else changes |
| BookingStore.Store.SaveBooking | BMS_app/serializer.py:114-129 | inserts the booking under the next id with the matching seats booked and linked; the counter save succeeds iff len(selected_seats) ≤ available, lowering it by that length |
| BookingStore.Store.RelinkAndReduce | BMS_app/views.py:69-74 | the view's second pass changes nothing, and its counter save succeeds iff k ≤ available, lowering the counter by k |
| BookingStore.Store.BookingWrites | BMS_app/views.py:68-74 | the writes commit iff 2·len(selected_seats) ≤ available, and then leave exactly the tables after a successful booking |
| BookingStore.Store.BookAtomically | BMS_app/views.py:60-74 | commits iff 2·len(selected_seats) ≤ available, ending in exactly the tables after a successful booking; otherwise everything is rolled back |
| BookingStore.Store.CreateBooking | BMS_app/views.py:52-79 | 400 with the validation error iff validation fails; 500 iff validation passes but available < 2·len(selected_seats); both leave the state unchanged; a created booking gets the next id and leaves the tables after a successful booking; the invariant holds |
| BookingStore.Store.CreatePayment | BMS_app/views.py:94-125 | rejects a missing or unknown booking id, and a booking already paid for, changing nothing; otherwise inserts the payment for the booking with its price; confirmed iff status is "completed" (201 either way); the invariant holds |
| BookingStore.Store.BookingPrice | BMS_app/serializer.py:98-99 | a booking's price is nooftickets × ticket_price, which equals linked seats × ticket_price |
| BookingStore.Store.BookingSeats | BMS_app/serializer.py:81-82 | the result is exactly the booking's linked seat numbers, and they are booked seats of its show, one per ticket |
| BookingStore.Store.AvailableSeats | BMS_app/views.py:162-178 | 400 iff show_id is missing; otherwise exactly the show's unbooked seat numbers |
| BookingStore.Store.BookedSeats | BMS_app/views.py:181-187 | 400 iff show_id is missing; otherwise exactly the show's booked seat numbers |
| BookingStore.SeatListingsPartition | BMS_app/views.py:173-185 | for a show the two listings are disjoint and together cover all its seats |

## Left out

- Authentication, JWT tokens and password hashing (BMS_app/authentication.py, BMS_app/utils.py), role permissions and routing (BMS_app/permissions.py, BMS_app/urls.py): framework wiring and foreign library calls.
- The cache read-through of `SeatView.available_seats` and the `log_db_queries` timing and printing decorator: I/O and clock only. The model answers from the tables.
- The `print` calls in `BookingSerializer.create`: output only.
- Concurrency: each request is one sequential step, so the recount in `BookingView.create` always sees what validation saw, and its failure branch is dead in the model.
- `BlockedSeat`: only the table definition exists, and no modelled code reads or writes it.
- UUID generation, timestamps and the `Decimal` amount. The transaction id is a parameter, and the amount is an integer product.
- The catalog CRUD of users, movies, ratings, theatres and screens, the generic update and destroy of the viewsets, and the field validators they apply: the show_number range 0..5 and the ticket_price range 150..200. `CreateShow` takes any natural price and counters.
- `get_queryset` of `SeatView`: only the two seat queries are modelled.
- DRF parsing of the request: type coercion, strings that are not numbers, and the exact error bodies. `ValidateBooking` reports one error when several field errors apply.
- The lookups of `booking_name_id` and `theatre_id`: the user and theatre tables are not modelled, so an unknown user or theatre id (a 400 in the source) is not a case of the model.
- A `show_id` query parameter that is not a number (a 500 in the source): the model takes a show id or none.
- Store.CreatePayment: does not model the `payment_method` and `status` choices, `None` values for them, or the unique `transaction_id` constraint (a fresh UUID cannot clash).
- Store.CancelBooking: the `if self.show` guard is always true for a stored booking, since the show foreign key is not nullable, so the model has no branch for it.
- Store.Cancel: `get_object()` raising a 404 for an unknown id, and the handler for `Booking.DoesNotExist`, are modelled together as one 404 outcome.
- Store.LinkSeats: the per-seat `seat.save()` and `booking.seats.add()` writes of the loop are collected in local values and stored together after the loop. Within one sequential request the final tables are the same.
- Store.GenerateSeats: the loop builds the new table locally and stores it once. Its resulting state is proved for every show, including the dropped booking links. Only keeping the invariant (`FreshSeatsKeepConsistent`) needs a show that no booking refers to, which is the only case where the first save calls it. The cascade to `BlockedSeat` rows is not modelled, as that table is not.
- The positive-integer columns have no upper bound in the model. Integers are unbounded, so a counter raised past the database's integer range by repeated cancels is not modelled.
- Database ids are modelled as counters handed out in order. A booking attempt that is rolled back (the 500 path) puts the counter back, so `Store.CreateBooking` promises that a failed attempt uses no id. That is true of SQLite, but PostgreSQL sequences and MySQL InnoDB auto-increment are not rolled back, so there a failed attempt uses up an id.
- Seat numbers in a request are matched against the show's seats by exact string equality, as SQLite and PostgreSQL compare them. A case-insensitive collation, such as MySQL's default, would let `"a1"` match seat A1. That is not modelled.
- The 500 path (`StorageFailure`) assumes the database refuses a negative `available_seats`. PositiveIntegerField's CHECK constraint does this on SQLite and PostgreSQL, and an UNSIGNED column does it in MySQL strict mode. The database settings are not part of this model.
- The invariant does not say that every booked seat belongs to some booking. The modelled requests keep that property, since a failed save inside the atomic block is rolled back, but no property here needs it. It does not hold for the whole service: the generic `destroy` of the booking viewset deletes a booking without freeing its seats, and the generic seat update can set a flag directly. Both are outside the model.
