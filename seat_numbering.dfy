/**
 * Seat numbering of a show (Show.generate_seats). Seat i of a show is labelled
 * with row letter Rows[i / 10] followed by the decimal form of (i % 10) + 1, so
 * the first ten seats are A1..A10, the next ten B1..B10, and so on.
 */
module SeatNumbering {
  import opened Wrappers

  /** The row letters the source indexes into. */
  const Rows: string := "ABCDEFGHIJKLMNOPQRSTUVWXYZ"

  /** Seats per row. */
  const SeatsPerRow: nat := 10

  /** A theatre holds at most 100 seats (the noofseats validator). */
  const MaxTheatreSeats: nat := 100

  /** A seat position: row index into Rows, and a 1-based number within the row. */
  datatype SeatLabel = SeatLabel(row: nat, number: nat)

  predicate IsDigit(c: char) {
    '0' <= c <= '9'
  }

  predicate AllDigits(s: string) {
    forall i :: 0 <= i < |s| ==> IsDigit(s[i])
  }

  function Digit(d: nat): (c: char)
    requires d < 10
    ensures IsDigit(c) && c as int - '0' as int == d
  {
    ('0' as int + d) as char
  }

  function DigitValue(c: char): (d: nat)
    requires IsDigit(c)
    ensures d < 10 && Digit(d) == c
  {
    c as int - '0' as int
  }

  /** The decimal form of n, as an f-string renders a non-negative int. */
  function Decimal(n: nat): (s: string)
    ensures 1 <= |s| && AllDigits(s)
    ensures s[0] == '0' ==> n == 0
    decreases n
  {
    if n < 10 then [Digit(n)] else Decimal(n / 10) + [Digit(n % 10)]
  }

  /** The value of a string of decimal digits (most significant first). */
  function ParseDecimal(s: string): nat
    requires AllDigits(s)
  {
    if |s| == 0 then 0 else ParseDecimal(s[..|s| - 1]) * 10 + DigitValue(s[|s| - 1])
  }

  lemma {:induction false} DecimalRoundTrip(n: nat)
    ensures ParseDecimal(Decimal(n)) == n
    decreases n
  {
    if n >= 10 {
      var s := Decimal(n);
      assert s[..|s| - 1] == Decimal(n / 10);
      DecimalRoundTrip(n / 10);
    }
  }

  /** The printed seat number of a seat position: row letter then number. */
  function Format(l: SeatLabel): (s: string)
    requires l.row < |Rows|
    ensures 2 <= |s| && s[0] == Rows[l.row] && s[1..] == Decimal(l.number)
  {
    [Rows[l.row]] + Decimal(l.number)
  }

  /** Reads a seat number back into its position; None when it is not of that shape. */
  function Parse(s: string): (r: Option<SeatLabel>)
    ensures r.Some? ==> r.value.row < |Rows|
  {
    if 2 <= |s| && 'A' <= s[0] <= 'Z' && AllDigits(s[1..])
    then Some(SeatLabel(s[0] as int - 'A' as int, ParseDecimal(s[1..])))
    else None
  }

  lemma FormatRoundTrip(l: SeatLabel)
    requires l.row < |Rows|
    ensures Parse(Format(l)) == Some(l)
  {
    DecimalRoundTrip(l.number);
  }

  /** Different positions print differently. */
  lemma FormatInjective(a: SeatLabel, b: SeatLabel)
    requires a.row < |Rows| && b.row < |Rows|
    requires Format(a) == Format(b)
    ensures a == b
  {
    FormatRoundTrip(a);
    FormatRoundTrip(b);
  }

  /** The position of the i-th generated seat. */
  function Position(i: nat): (l: SeatLabel)
    ensures 1 <= l.number <= SeatsPerRow
    ensures i == l.row * SeatsPerRow + l.number - 1
    ensures i < MaxTheatreSeats ==> l.row <= 9
  {
    SeatLabel(i / SeatsPerRow, i % SeatsPerRow + 1)
  }

  /** The seat number generated for index i; Rows is long enough for 260 seats. */
  function SeatNumber(i: nat): (s: string)
    requires i < SeatsPerRow * |Rows|
    ensures 2 <= |s| && s[0] == Rows[i / SeatsPerRow] && s[1..] == Decimal(i % SeatsPerRow + 1)
  {
    Format(Position(i))
  }

  /** Labels of the generated seats are pairwise distinct. */
  lemma SeatNumberInjective(i: nat, j: nat)
    requires i < SeatsPerRow * |Rows| && j < SeatsPerRow * |Rows|
    requires SeatNumber(i) == SeatNumber(j)
    ensures i == j
  {
    FormatInjective(Position(i), Position(j));
  }

  /** The seat numbers generated for a show of n seats. */
  function GeneratedNumbers(n: nat): (r: set<string>)
    requires n <= MaxTheatreSeats
    ensures 0 < n ==> SeatNumber(0) in r && SeatNumber(n - 1) in r
  {
    set i | 0 <= i < n :: SeatNumber(i)
  }

  lemma {:induction false} GeneratedCount(n: nat)
    requires n <= MaxTheatreSeats
    ensures |GeneratedNumbers(n)| == n
  {
    if n > 0 {
      GeneratedCount(n - 1);
      GeneratedStep(n);
      NextIsFresh(n);
      CardinalityOfAddFresh(GeneratedNumbers(n - 1), SeatNumber(n - 1));
    }
  }

  lemma NextIsFresh(n: nat)
    requires 0 < n <= MaxTheatreSeats
    ensures SeatNumber(n - 1) !in GeneratedNumbers(n - 1)
  {
    if SeatNumber(n - 1) in GeneratedNumbers(n - 1) {
      var j :| 0 <= j < n - 1 && SeatNumber(j) == SeatNumber(n - 1);
      SeatNumberInjective(j, n - 1);
    }
  }

  lemma CardinalityOfAddFresh<T>(a: set<T>, x: T)
    requires x !in a
    ensures |a + {x}| == |a| + 1
  {
  }

  lemma GeneratedStep(n: nat)
    requires 0 < n <= MaxTheatreSeats
    ensures GeneratedNumbers(n) == GeneratedNumbers(n - 1) + {SeatNumber(n - 1)}
  {
    var now, before := GeneratedNumbers(n), GeneratedNumbers(n - 1) + {SeatNumber(n - 1)};
    forall s | s in now ensures s in before {
      var i :| 0 <= i < n && s == SeatNumber(i);
      if i < n - 1 { assert s in GeneratedNumbers(n - 1); }
    }
    forall s | s in before ensures s in now {
      if s != SeatNumber(n - 1) {
        var i :| 0 <= i < n - 1 && s == SeatNumber(i);
      }
    }
  }

  /** The first row is A1..A10, the second starts at B1 and the tenth ends at J10. */
  lemma FirstSeatNumbers()
    ensures SeatNumber(0) == "A1" && SeatNumber(1) == "A2" && SeatNumber(9) == "A10"
    ensures SeatNumber(10) == "B1" && SeatNumber(99) == "J10"
  {
    assert Decimal(10) == Decimal(1) + [Digit(0)];
  }
}
