/**
 * Views the seat map derives from its state on every render: the available
 * and booked counters, the running total of the selection, the "is selected"
 * test of a seat, and the grouping of seats by row.
 */
module SeatViews {
  import opened Lists
  import opened Seats

  predicate IsFree(s: Seat) { !s.is_booked }

  predicate IsTaken(s: Seat) { s.is_booked }

  /** Number of seats booked. */
  function BookedCount(seats: seq<Seat>): (n: nat)
    ensures n <= |seats|
  {
    |Filter(seats, IsTaken)|
  }

  /**
   * Number of seats not booked. Every seat is counted by exactly one of the
   * two counters.
   */
  function AvailableCount(seats: seq<Seat>): (n: nat)
    ensures n + BookedCount(seats) == |seats|
  {
    FilterSplit(seats, IsFree, IsTaken);
    |Filter(seats, IsFree)|
  }

  /** Sum of the prices of the selection entries, folded left to right from 0. */
  function TotalPrice(selected: seq<Seat>): (total: int)
    ensures (forall i :: 0 <= i < |selected| ==> 0 <= selected[i].price) ==> 0 <= total
  {
    if selected == [] then 0
    else TotalPrice(selected[..|selected| - 1]) + selected[|selected| - 1].price
  }

  /** A one-entry selection is worth that entry's price. */
  lemma TotalPriceSingle(x: Seat)
    ensures TotalPrice([x]) == x.price
  {
    assert [x][..0] == [];
  }

  /** The total is additive over concatenation: every entry adds its own price. */
  lemma {:induction false} TotalPriceAppend(a: seq<Seat>, b: seq<Seat>)
    ensures TotalPrice(a + b) == TotalPrice(a) + TotalPrice(b)
  {
    if b == [] {
      assert a + b == a;
    } else {
      var front := b[..|b| - 1];
      assert (a + b)[..|a + b| - 1] == a + front;
      TotalPriceAppend(a, front);
    }
  }

  /**
   * Splitting the selection by a predicate and its negation splits the total,
   * duplicates included.
   */
  lemma {:induction false} TotalPriceSplit(selected: seq<Seat>, p: Seat -> bool, q: Seat -> bool)
    requires forall x :: q(x) == !p(x)
    ensures TotalPrice(Filter(selected, p)) + TotalPrice(Filter(selected, q)) == TotalPrice(selected)
  {
    if selected != [] {
      var front := selected[..|selected| - 1];
      var last := selected[|selected| - 1];
      TotalPriceSplit(front, p, q);
      TotalPriceAppend(Filter(front, p), if p(last) then [last] else []);
      TotalPriceAppend(Filter(front, q), if q(last) then [last] else []);
    }
  }

  /**
   * Whether the selection holds an entry with the given seat id, tested from
   * the first entry on and stopping at the first match.
   */
  function IsSelected(selected: seq<Seat>, id: int): (found: bool)
    ensures found <==> exists i :: 0 <= i < |selected| && selected[i].id == id
  {
    if selected == [] then false
    else selected[0].id == id || IsSelected(selected[1..], id)
  }

  /** The seats of one row, in their original order. */
  function WithLabel(seats: seq<Seat>, row: string): seq<Seat>
  {
    Filter(seats, (s: Seat) => s.row_label == row)
  }

  /**
   * The row labels that occur in `seats`, each once, in order of first
   * occurrence (the key order of the grouping object).
   */
  function Labels(seats: seq<Seat>): (rows: seq<string>)
    ensures |rows| <= |seats|
  {
    if seats == [] then []
    else
      var front := Labels(seats[..|seats| - 1]);
      var row := seats[|seats| - 1].row_label;
      if row in front then front else front + [row]
  }

  /** Appending a seat adds its row label to the key order when it is new. */
  lemma LabelsSnoc(seats: seq<Seat>, x: Seat)
    ensures Labels(seats + [x]) == if x.row_label in Labels(seats) then Labels(seats) else Labels(seats) + [x.row_label]
  {
    assert (seats + [x])[..|seats|] == seats;
  }

  /** Every row label that occurs in `seats` is a key. */
  lemma {:induction false} LabelsComplete(seats: seq<Seat>)
    ensures forall i :: 0 <= i < |seats| ==> seats[i].row_label in Labels(seats)
  {
    if seats != [] {
      var front, last := seats[..|seats| - 1], seats[|seats| - 1];
      assert seats == front + [last];
      LabelsComplete(front);
      LabelsSnoc(front, last);
      forall i | 0 <= i < |seats|
        ensures seats[i].row_label in Labels(seats)
      {
        if i < |front| {
          assert seats[i] == front[i];
        }
      }
    }
  }

  /** Every key is the row label of some seat. */
  lemma {:induction false} LabelsSound(seats: seq<Seat>)
    ensures forall j :: 0 <= j < |Labels(seats)| ==>
      exists i :: 0 <= i < |seats| && seats[i].row_label == Labels(seats)[j]
  {
    if seats != [] {
      var front, last := seats[..|seats| - 1], seats[|seats| - 1];
      LabelsSound(front);
      var keys, frontKeys := Labels(seats), Labels(front);
      assert keys == if last.row_label in frontKeys then frontKeys else frontKeys + [last.row_label];
      forall j | 0 <= j < |keys|
        ensures exists i :: 0 <= i < |seats| && seats[i].row_label == keys[j]
      {
        if j < |frontKeys| {
          assert keys[j] == frontKeys[j];
          var i :| 0 <= i < |front| && front[i].row_label == frontKeys[j];
          assert seats[i] == front[i];
        } else {
          assert keys[j] == last.row_label;
          assert seats[|seats| - 1] == last;
        }
      }
    } else {
      assert Labels(seats) == [];
    }
  }

  /** No key is listed twice. */
  lemma {:induction false} LabelsDistinct(seats: seq<Seat>)
    ensures forall j, k :: 0 <= j < k < |Labels(seats)| ==> Labels(seats)[j] != Labels(seats)[k]
  {
    if seats != [] {
      var front, last := seats[..|seats| - 1], seats[|seats| - 1];
      assert seats == front + [last];
      LabelsDistinct(front);
      LabelsSnoc(front, last);
    }
  }

  /** A row label absent from `Labels` has an empty group. */
  lemma UnlabelledEmpty(seats: seq<Seat>, row: string)
    requires row !in Labels(seats)
    ensures WithLabel(seats, row) == []
  {
    LabelsComplete(seats);
    FilterNone(seats, (s: Seat) => s.row_label == row);
  }

  /** Appending a seat extends its own row's group only. */
  lemma WithLabelSnoc(seats: seq<Seat>, x: Seat, row: string)
    ensures WithLabel(seats + [x], row) == WithLabel(seats, row) + (if x.row_label == row then [x] else [])
  {
    assert (seats + [x])[..|seats|] == seats;
  }

  /** One step of the grouping: `seat` joins the group of its row. */
  lemma GroupStep(prefix: seq<Seat>, seat: Seat, groups: map<string, seq<Seat>>, group: seq<Seat>)
    requires forall row :: row in groups ==> groups[row] == WithLabel(prefix, row)
    requires group == WithLabel(prefix, seat.row_label)
    ensures forall row :: row in groups[seat.row_label := group + [seat]] ==>
      groups[seat.row_label := group + [seat]][row] == WithLabel(prefix + [seat], row)
  {
    forall row | row in groups[seat.row_label := group + [seat]]
      ensures groups[seat.row_label := group + [seat]][row] == WithLabel(prefix + [seat], row)
    {
      WithLabelSnoc(prefix, seat, row);
    }
  }

  /** Every key of the grouping has at least one seat. */
  lemma GroupsNonEmpty(seats: seq<Seat>)
    ensures forall row :: row in Labels(seats) ==> WithLabel(seats, row) != []
  {
    LabelsSound(seats);
    forall row | row in Labels(seats) ensures WithLabel(seats, row) != [] {
      var j :| 0 <= j < |Labels(seats)| && Labels(seats)[j] == row;
      var i :| 0 <= i < |seats| && seats[i].row_label == row;
      FilterMembers(seats, (s: Seat) => s.row_label == row);
      assert seats[i] in WithLabel(seats, row);
    }
  }

  /**
   * The grouping object: each key in `Labels` mapped to that row's seats.
   * No group is empty.
   */
  function Grouped(seats: seq<Seat>): (groups: map<string, seq<Seat>>)
    ensures forall row :: row in groups ==> groups[row] != []
  {
    GroupsNonEmpty(seats);
    map row | row in Labels(seats) :: WithLabel(seats, row)
  }

  /**
   * Groups the seats by row label, appending each seat to its row's list
   * (created on first sight). `order` is the order in which keys were added.
   */
  method GroupSeats(seats: seq<Seat>) returns (order: seq<string>, groups: map<string, seq<Seat>>)
    ensures order == Labels(seats)
    ensures groups == Grouped(seats)
  {
    order := [];
    groups := map[];
    for i := 0 to |seats|
      invariant order == Labels(seats[..i])
      invariant forall row :: row in groups <==> row in order
      invariant forall row :: row in groups ==> groups[row] == WithLabel(seats[..i], row)
    {
      var seat := seats[i];
      assert seats[..i + 1] == seats[..i] + [seat];
      LabelsSnoc(seats[..i], seat);
      var group: seq<Seat>;
      if seat.row_label in groups {
        group := groups[seat.row_label];
      } else {
        UnlabelledEmpty(seats[..i], seat.row_label);
        group := [];
        order := order + [seat.row_label];
      }
      GroupStep(seats[..i], seat, groups, group);
      groups := groups[seat.row_label := group + [seat]];
    }
    assert seats[..|seats|] == seats;
    assert forall row :: row in groups <==> row in Grouped(seats);
  }

  /** The groups concatenated in key order. */
  function Concat(order: seq<string>, groups: map<string, seq<Seat>>): seq<Seat>
    requires forall j :: 0 <= j < |order| ==> order[j] in groups
  {
    if order == [] then [] else groups[order[0]] + Concat(order[1..], groups)
  }

  /** In a laid-out grid, seat `i` belongs to row `i / 8`. */
  lemma LayoutLabelAt(seats: seq<Seat>, i: nat, r: nat)
    requires Layout(seats) && i < SEAT_COUNT && r < |ROWS|
    ensures seats[i].row_label == ROWS[r] <==> i / SEATS_PER_ROW == r
  {
    assert Placed(seats[i], i);
    RowsDistinct();
  }

  /** How the number of rows started grows with one more seat. */
  lemma RowsStartedStep(k: nat)
    ensures k % SEATS_PER_ROW == 0 ==>
      (k + SEATS_PER_ROW - 1) / SEATS_PER_ROW == k / SEATS_PER_ROW
      && (k + SEATS_PER_ROW) / SEATS_PER_ROW == k / SEATS_PER_ROW + 1
    ensures k % SEATS_PER_ROW != 0 ==>
      (k + SEATS_PER_ROW - 1) / SEATS_PER_ROW == k / SEATS_PER_ROW + 1
      && (k + SEATS_PER_ROW) / SEATS_PER_ROW == k / SEATS_PER_ROW + 1
  {
  }

  /** Row `r` is new after the rows before it, and extends them to the first r+1 rows. */
  lemma RowsPrefixStep(r: nat)
    requires r < |ROWS|
    ensures ROWS[r] !in ROWS[..r] && ROWS[..r] + [ROWS[r]] == ROWS[..r + 1]
    ensures ROWS[r] in ROWS[..r + 1]
  {
    RowsDistinct();
  }

  /** In a laid-out grid, the keys met in the first `k` seats are the first ceil(k/8) rows. */
  lemma {:induction false} LayoutLabelsPrefix(seats: seq<Seat>, k: nat)
    requires Layout(seats) && k <= SEAT_COUNT
    ensures Labels(seats[..k]) == ROWS[..(k + SEATS_PER_ROW - 1) / SEATS_PER_ROW]
    decreases k
  {
    if k > 0 {
      var front, last := seats[..k - 1], seats[k - 1];
      assert seats[..k] == front + [last];
      LayoutLabelsPrefix(seats, k - 1);
      LabelsSnoc(front, last);
      RowsStartedStep(k - 1);
      var r := (k - 1) / SEATS_PER_ROW;
      LayoutLabelAt(seats, k - 1, r);
      RowsPrefixStep(r);
    }
  }

  /** Grouping commutes with concatenation. */
  lemma WithLabelAppend(a: seq<Seat>, b: seq<Seat>, row: string)
    ensures WithLabel(a + b, row) == WithLabel(a, row) + WithLabel(b, row)
  {
    FilterAppend(a, b, (s: Seat) => s.row_label == row);
  }

  /** A stretch of a laid-out grid lying outside row `r` contributes nothing to its group. */
  lemma LayoutOutsideRow(seats: seq<Seat>, lo: nat, hi: nat, r: nat)
    requires Layout(seats) && lo <= hi <= SEAT_COUNT && r < |ROWS|
    requires hi <= r * SEATS_PER_ROW || (r + 1) * SEATS_PER_ROW <= lo
    ensures WithLabel(seats[lo..hi], ROWS[r]) == []
  {
    forall i | 0 <= i < hi - lo ensures seats[lo..hi][i].row_label != ROWS[r] {
      assert (lo + i) / SEATS_PER_ROW != r;
      LayoutLabelAt(seats, lo + i, r);
    }
    FilterNone(seats[lo..hi], (s: Seat) => s.row_label == ROWS[r]);
  }

  /** A stretch of a laid-out grid lying inside row `r` is kept whole by its group. */
  lemma LayoutInsideRow(seats: seq<Seat>, lo: nat, hi: nat, r: nat)
    requires Layout(seats) && lo <= hi <= SEAT_COUNT && r < |ROWS|
    requires r * SEATS_PER_ROW <= lo && hi <= (r + 1) * SEATS_PER_ROW
    ensures WithLabel(seats[lo..hi], ROWS[r]) == seats[lo..hi]
  {
    forall i | 0 <= i < hi - lo ensures seats[lo..hi][i].row_label == ROWS[r] {
      assert (lo + i) / SEATS_PER_ROW == r;
      LayoutLabelAt(seats, lo + i, r);
    }
    FilterAll(seats[lo..hi], (s: Seat) => s.row_label == ROWS[r]);
  }

  /** Row `r` of a laid-out grid is the block of 8 seats it was generated as. */
  lemma LayoutRowBlock(seats: seq<Seat>, r: nat)
    requires Layout(seats) && r < |ROWS|
    ensures WithLabel(seats, ROWS[r]) == seats[r * SEATS_PER_ROW..(r + 1) * SEATS_PER_ROW]
  {
    var lo, hi := r * SEATS_PER_ROW, (r + 1) * SEATS_PER_ROW;
    assert hi == lo + SEATS_PER_ROW <= SEAT_COUNT;
    SplitThree(seats, lo, hi);
    WithLabelAppend(seats[0..lo] + seats[lo..hi], seats[hi..SEAT_COUNT], ROWS[r]);
    WithLabelAppend(seats[0..lo], seats[lo..hi], ROWS[r]);
    LayoutOutsideRow(seats, 0, lo, r);
    LayoutInsideRow(seats, lo, hi, r);
    LayoutOutsideRow(seats, hi, SEAT_COUNT, r);
  }

  /**
   * When each row's group is its block of 8 seats, the groups of rows `r`
   * onwards, concatenated, are the seats from row `r` on.
   */
  lemma {:induction false} ConcatBlocks(seats: seq<Seat>, groups: map<string, seq<Seat>>, r: nat)
    requires |seats| == SEAT_COUNT && r <= |ROWS|
    requires forall j :: 0 <= j < |ROWS| ==>
      ROWS[j] in groups && groups[ROWS[j]] == seats[j * SEATS_PER_ROW..(j + 1) * SEATS_PER_ROW]
    ensures Concat(ROWS[r..], groups) == seats[r * SEATS_PER_ROW..]
    decreases |ROWS| - r
  {
    if r < |ROWS| {
      assert ROWS[r..][1..] == ROWS[r + 1..];
      ConcatBlocks(seats, groups, r + 1);
      var lo, hi := r * SEATS_PER_ROW, (r + 1) * SEATS_PER_ROW;
      assert hi == lo + SEATS_PER_ROW <= SEAT_COUNT;
      assert seats[lo..] == seats[lo..hi] + seats[hi..];
    } else {
      assert ROWS[r..] == [];
    }
  }

  /**
   * Grouping a laid-out grid yields the keys A, B, C, D in that order, each
   * group holds its row's 8 seats in seat-number order, and concatenating the
   * groups in key order gives back the seats.
   */
  lemma GroupedLayout(seats: seq<Seat>)
    requires Layout(seats)
    ensures Labels(seats) == ROWS
    ensures forall r :: 0 <= r < |ROWS| ==>
      ROWS[r] in Grouped(seats) && Grouped(seats)[ROWS[r]] == seats[r * SEATS_PER_ROW..(r + 1) * SEATS_PER_ROW]
    ensures Concat(Labels(seats), Grouped(seats)) == seats
  {
    LayoutLabelsPrefix(seats, SEAT_COUNT);
    assert seats[..SEAT_COUNT] == seats;
    assert ROWS[..4] == ROWS;
    forall r | 0 <= r < |ROWS|
      ensures ROWS[r] in Grouped(seats) && Grouped(seats)[ROWS[r]] == seats[r * SEATS_PER_ROW..(r + 1) * SEATS_PER_ROW]
    {
      LayoutRowBlock(seats, r);
    }
    ConcatBlocks(seats, Grouped(seats), 0);
  }
}
