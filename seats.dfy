/**
 * The seat record and the generation of a fresh 4-row by 8-seat inventory.
 * The random draw that pre-books a seat is supplied as a sequence of booleans,
 * one per seat in generation order.
 */
module Seats {
  import opened Options

  /**
   * One seat. `id`, `row_label`, `seat_number` and `price` are fixed at
   * generation; `is_booked` and `booked_by` are what the session changes.
   */
  datatype Seat = Seat(
    id: int,
    row_label: string,
    seat_number: int,
    price: int,
    is_booked: bool,
    booked_by: Option<string>)

  /** Row labels, in the order rows are generated. */
  const ROWS: seq<string> := ["A", "B", "C", "D"]
  const SEATS_PER_ROW: nat := 8
  /** |ROWS| * SEATS_PER_ROW */
  const SEAT_COUNT: nat := 32
  /** Price of every seat of a row, by row label. */
  const ROW_PRICES: map<string, int> := map["A" := 12000, "B" := 5000, "C" := 2500, "D" := 450]

  /** Every row has a price. */
  lemma RowsPriced(r: nat)
    requires r < |ROWS|
    ensures ROWS[r] in ROW_PRICES
  {
    assert ROWS[r] in {"A", "B", "C", "D"};
  }

  /** Row labels are pairwise different. */
  lemma RowsDistinct()
    ensures forall i, j :: 0 <= i < j < |ROWS| ==> ROWS[i] != ROWS[j]
  {
    assert ROWS[0][0] == 'A' && ROWS[1][0] == 'B' && ROWS[2][0] == 'C' && ROWS[3][0] == 'D';
  }

  /** The row of the seat generated at 0-based position `k`. */
  function RowOf(k: nat): (row: string)
    requires k < SEAT_COUNT
    ensures row in ROW_PRICES
  {
    RowsPriced(k / SEATS_PER_ROW);
    ROWS[k / SEATS_PER_ROW]
  }

  /** The seat generation puts at 0-based position `k`, given the draw for it. */
  function InitialSeat(k: nat, booked: bool): Seat
    requires k < SEAT_COUNT
  {
    Seat(k + 1, RowOf(k), k % SEATS_PER_ROW + 1, ROW_PRICES[RowOf(k)], booked, None)
  }

  /**
   * The inventory generation produces for the given draws: the grid layout,
   * no holders, and the booking flags taken from the draws.
   */
  function Generated(draws: seq<bool>): (seats: seq<Seat>)
    requires |draws| == SEAT_COUNT
    ensures Layout(seats)
    ensures forall k :: 0 <= k < |seats| ==> seats[k].is_booked == draws[k] && seats[k].booked_by == None
  {
    seq(SEAT_COUNT, k requires 0 <= k < SEAT_COUNT => InitialSeat(k, draws[k]))
  }

  /** `s` carries the fixed attributes of position `k` of the grid. */
  predicate Placed(s: Seat, k: nat)
    requires k < SEAT_COUNT
  {
    && s.id == k + 1
    && s.row_label == RowOf(k)
    && s.seat_number == k % SEATS_PER_ROW + 1
    && s.price == ROW_PRICES[s.row_label]
  }

  /**
   * The grid layout: 32 seats in row-major order, whatever their booking
   * state. Generation establishes it and no session operation breaks it.
   */
  predicate Layout(seats: seq<Seat>)
  {
    && |seats| == SEAT_COUNT
    && forall k :: 0 <= k < |seats| ==> Placed(seats[k], k)
  }

  /** In a laid-out grid the id of a seat determines its position. */
  lemma LayoutIds(seats: seq<Seat>, i: int, j: int)
    requires Layout(seats)
    requires 0 <= i < |seats| && 0 <= j < |seats|
    ensures seats[i].id == seats[j].id <==> i == j
  {
    assert Placed(seats[i], i) && Placed(seats[j], j);
  }

  /**
   * Builds the inventory row by row, numbering seats from 1 with a running
   * counter; seat `k` is pre-booked exactly when `draws[k]` holds.
   */
  method GenerateSeats(draws: seq<bool>) returns (seats: seq<Seat>)
    requires |draws| == SEAT_COUNT
    ensures |seats| == SEAT_COUNT
    ensures forall k :: 0 <= k < |seats| ==>
      && seats[k].id == k + 1
      && seats[k].row_label == ROWS[k / SEATS_PER_ROW]
      && seats[k].seat_number == k % SEATS_PER_ROW + 1
    ensures forall k :: 0 <= k < |seats| ==>
      && seats[k].row_label in ROW_PRICES
      && seats[k].price == ROW_PRICES[seats[k].row_label]
      && seats[k].is_booked == draws[k]
      && seats[k].booked_by == None
    ensures seats == Generated(draws)
  {
    seats := [];
    var id := 1;
    var r := 0;
    while r < |ROWS|
      invariant 0 <= r <= |ROWS|
      invariant |seats| == r * SEATS_PER_ROW && id == |seats| + 1
      invariant forall k :: 0 <= k < |seats| ==> seats[k] == InitialSeat(k, draws[k])
    {
      var row := ROWS[r];
      RowsPriced(r);
      var i := 0;
      while i < SEATS_PER_ROW
        invariant 0 <= i <= SEATS_PER_ROW
        invariant |seats| == r * SEATS_PER_ROW + i && id == |seats| + 1
        invariant forall k :: 0 <= k < |seats| ==> seats[k] == InitialSeat(k, draws[k])
      {
        assert (r * SEATS_PER_ROW + i) / SEATS_PER_ROW == r;
        assert (r * SEATS_PER_ROW + i) % SEATS_PER_ROW == i;
        seats := seats + [Seat(id, row, i + 1, ROW_PRICES[row], draws[id - 1], None)];
        id := id + 1;
        i := i + 1;
      }
      r := r + 1;
    }
  }
}
