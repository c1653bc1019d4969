/**
 * Queries over one show's seat table. A show's seats are stored as a map from
 * seat number to the is_booked flag: the pair (show, seat_number) is unique, so
 * each seat number names at most one seat of the show.
 */
module SeatQueries {
  import opened SeatNumbering

  /** One show's seats: seat number to is_booked. */
  type SeatTable = map<string, bool>

  /** The seat numbers occurring in a request list. */
  function ElemSet(s: seq<string>): (r: set<string>)
    ensures forall i :: 0 <= i < |s| ==> s[i] in r
    ensures forall x :: x in r ==> exists i :: 0 <= i < |s| && s[i] == x
  {
    set x | x in s
  }

  predicate Distinct(s: seq<string>) {
    forall i, j :: 0 <= i < j < |s| ==> s[i] != s[j]
  }

  /** Seats of the show whose flag is false (the available_seats query). */
  function Unbooked(t: SeatTable): (r: set<string>)
    ensures r <= t.Keys
    ensures forall l :: l in t && !t[l] ==> l in r
    ensures forall l :: l in r ==> !t[l]
  {
    set l | l in t && !t[l]
  }

  /** Seats of the show whose flag is true (the booked_seats query). */
  function Booked(t: SeatTable): (r: set<string>)
    ensures r <= t.Keys
    ensures forall l :: l in t && t[l] ==> l in r
    ensures forall l :: l in r ==> t[l]
  {
    set l | l in t && t[l]
  }

  /** The two seat queries split a show's seats into two disjoint parts. */
  lemma QueriesPartition(t: SeatTable)
    ensures Unbooked(t) + Booked(t) == t.Keys
    ensures Unbooked(t) * Booked(t) == {}
  {
  }

  /**
   * The unbooked seats whose numbers occur in the request: the filter on
   * seat_number__in=selected and is_booked=False. Each seat appears once.
   */
  function MatchingUnbooked(t: SeatTable, selected: seq<string>): (r: set<string>)
    ensures r <= ElemSet(selected) && r <= Unbooked(t)
    ensures ElemSet(selected) * Unbooked(t) <= r
  {
    set l | l in t && !t[l] && l in selected
  }

  /**
   * The rows of that filter as a list, each seat once, in some order (the
   * query has no ordering and nothing that uses the rows depends on one):
   * what len() counts and what a for loop over the queryset visits.
   */
  function MatchingList(t: SeatTable, selected: seq<string>): (r: seq<string>)
    ensures Distinct(r)
    ensures forall l :: l in r <==> l in t && !t[l] && l in selected
    decreases |selected|
  {
    if |selected| == 0 then []
    else
      var rest, l := MatchingList(t, selected[..|selected| - 1]), selected[|selected| - 1];
      assert forall x :: x in selected <==> x in selected[..|selected| - 1] || x == l by {
        assert selected == selected[..|selected| - 1] + [l];
      }
      if l in t && !t[l] && l !in rest then rest + [l] else rest
  }

  lemma SubsetOfEqualSize<T>(a: set<T>, b: set<T>)
    requires a <= b && |a| == |b|
    ensures a == b
  {
    assert |b - a| == 0;
  }

  lemma SubsetSize<T>(a: set<T>, b: set<T>)
    requires a <= b
    ensures |a| <= |b|
  {
    assert b == a + (b - a);
  }

  /** A request list names at most as many seats as it is long, exactly as many iff duplicate-free. */
  lemma {:induction false} ElemSetSize(s: seq<string>)
    ensures |ElemSet(s)| <= |s|
    ensures |ElemSet(s)| == |s| <==> Distinct(s)
  {
    if |s| > 0 {
      var tail := s[1..];
      ElemSetSize(tail);
      assert ElemSet(s) == {s[0]} + ElemSet(tail) by {
        forall x | x in ElemSet(s) ensures x in {s[0]} + ElemSet(tail) {
          var i :| 0 <= i < |s| && s[i] == x;
          if i > 0 { assert tail[i - 1] == x; }
        }
      }
      if s[0] in ElemSet(tail) {
        var j :| 0 <= j < |tail| && tail[j] == s[0];
        assert s[0] == s[j + 1];
        assert ElemSet(s) == ElemSet(tail);
      } else {
        CardinalityOfAddFresh(ElemSet(tail), s[0]);
        assert ElemSet(s) == ElemSet(tail) + {s[0]};
        if Distinct(tail) {
          forall i, j | 0 <= i < j < |s| ensures s[i] != s[j] {
            if i > 0 { assert s[i] == tail[i - 1] && s[j] == tail[j - 1]; }
            else { assert s[j] == tail[j - 1]; }
          }
        } else {
          var i, j :| 0 <= i < j < |tail| && tail[i] == tail[j];
          assert s[i + 1] == s[j + 1];
        }
      }
    }
  }

  /**
   * The count the booking code compares: the number of matching unbooked seats
   * equals the length of the request exactly when the request is duplicate-free
   * and every seat it names exists in the show and is unbooked.
   */
  lemma CountMatchesLength(t: SeatTable, selected: seq<string>)
    ensures |MatchingUnbooked(t, selected)| <= |selected|
    ensures |MatchingUnbooked(t, selected)| == |selected| <==>
              Distinct(selected) && forall i :: 0 <= i < |selected| ==> selected[i] in t && !t[selected[i]]
    ensures |MatchingUnbooked(t, selected)| == |selected| ==> MatchingUnbooked(t, selected) == ElemSet(selected)
  {
    var m, e := MatchingUnbooked(t, selected), ElemSet(selected);
    ElemSetSize(selected);
    SubsetSize(m, e);
    if |m| == |selected| {
      SubsetOfEqualSize(m, e);
    }
    if Distinct(selected) && forall i :: 0 <= i < |selected| ==> selected[i] in t && !t[selected[i]] {
      assert m == e;
    }
  }

  /** The list holds exactly the matching unbooked seats, so its length is their number. */
  lemma MatchingListSize(t: SeatTable, selected: seq<string>)
    ensures ElemSet(MatchingList(t, selected)) == MatchingUnbooked(t, selected)
    ensures |MatchingList(t, selected)| == |MatchingUnbooked(t, selected)|
  {
    ElemSetSize(MatchingList(t, selected));
  }

  /** A request naming some seat twice never passes the count comparison. */
  lemma DuplicateNeverMatches(t: SeatTable, selected: seq<string>, i: nat, j: nat)
    requires i < j < |selected| && selected[i] == selected[j]
    ensures |MatchingUnbooked(t, selected)| < |selected|
  {
    CountMatchesLength(t, selected);
  }

  /** The flags after booking the seats S: S's seats are booked, all others keep their flag. */
  function BookAll(t: SeatTable, S: set<string>): (r: SeatTable)
    ensures r.Keys == t.Keys
    ensures forall l :: l in t && l in S ==> r[l]
    ensures forall l :: l in t && l !in S ==> r[l] == t[l]
  {
    map l | l in t :: t[l] || l in S
  }

  /** The flags after releasing the seats S: S's seats are unbooked, all others keep their flag. */
  function ReleaseAll(t: SeatTable, S: set<string>): (r: SeatTable)
    ensures r.Keys == t.Keys
    ensures forall l :: l in t && l in S ==> !r[l]
    ensures forall l :: l in t && l !in S ==> r[l] == t[l]
  {
    map l | l in t :: t[l] && l !in S
  }

  /** Booking seats moves exactly those seats from the unbooked query to the booked one. */
  lemma BookAllQueries(t: SeatTable, S: set<string>)
    ensures Booked(BookAll(t, S)) == Booked(t) + S * t.Keys
    ensures Unbooked(BookAll(t, S)) == Unbooked(t) - S
  {
  }

  /** Releasing seats that were unbooked before booking them restores every flag. */
  lemma ReleaseUndoesBook(t: SeatTable, S: set<string>)
    requires S <= Unbooked(t)
    ensures ReleaseAll(BookAll(t, S), S) == t
  {
    var r := ReleaseAll(BookAll(t, S), S);
    assert forall l :: l in t ==> r[l] == t[l];
  }

  /**
   * The table generate_seats builds for n seats: seat i is inserted, unbooked,
   * under the i-th seat number, for i from 0 to n - 1.
   */
  function FreshSeats(n: nat): (t: SeatTable)
    requires n <= MaxTheatreSeats
    ensures t.Keys == GeneratedNumbers(n)
    ensures forall l :: l in t ==> !t[l]
  {
    if n == 0 then map[]
    else
      GeneratedStep(n);
      FreshSeats(n - 1)[SeatNumber(n - 1) := false]
  }

  /** A freshly generated table holds exactly n seats. */
  lemma FreshSeatsCount(n: nat)
    requires n <= MaxTheatreSeats
    ensures |FreshSeats(n)| == n
  {
    GeneratedCount(n);
    assert FreshSeats(n).Keys == GeneratedNumbers(n);
  }

  /** Each step of generate_seats inserts a seat number the table does not hold yet. */
  lemma FreshSeatsStep(i: nat)
    requires i < MaxTheatreSeats
    ensures SeatNumber(i) !in FreshSeats(i)
    ensures FreshSeats(i + 1) == FreshSeats(i)[SeatNumber(i) := false]
  {
    NextIsFresh(i + 1);
  }
}
