/**
 * The booking session: the seat map's two pieces of state (the seat list and
 * the list of pending selections) and the three operations that replace them.
 * Each operation is one atomic update of both fields.
 */
module Session {
  import opened Options
  import opened Lists
  import opened Seats
  import opened SeatViews

  /** The fields of the success message shown after a confirmation. */
  datatype Notice = Notice(row_label: string, seat_number: int, price: int, booked_by: Option<string>)

  /**
   * The seat list with every seat of the given id held under `name`. Only
   * the holder of those seats changes.
   */
  function WithHolder(seats: seq<Seat>, id: int, name: string): (held: seq<Seat>)
    ensures |held| == |seats|
    ensures forall i :: 0 <= i < |seats| ==>
      && held[i].id == seats[i].id && held[i].is_booked == seats[i].is_booked
      && (seats[i].id == id ==> held[i] == seats[i].(booked_by := Some(name)))
      && (seats[i].id != id ==> held[i] == seats[i])
  {
    seq(|seats|, i requires 0 <= i < |seats| =>
      if seats[i].id == id then seats[i].(booked_by := Some(name)) else seats[i])
  }

  /**
   * The seat list with every seat of the given id marked booked. Only the
   * booking flag of those seats changes; a seat already booked is untouched.
   */
  function WithBooked(seats: seq<Seat>, id: int): (booked: seq<Seat>)
    ensures |booked| == |seats|
    ensures forall i :: 0 <= i < |seats| ==>
      && booked[i].id == seats[i].id && booked[i].booked_by == seats[i].booked_by
      && booked[i].is_booked == (seats[i].is_booked || seats[i].id == id)
      && (seats[i].is_booked || seats[i].id != id ==> booked[i] == seats[i])
  {
    seq(|seats|, i requires 0 <= i < |seats| =>
      if seats[i].id == id then seats[i].(is_booked := true) else seats[i])
  }

  /** The selection without its entries of the given id, order kept. */
  function WithoutId(selected: seq<Seat>, id: int): (kept: seq<Seat>)
    ensures |kept| <= |selected|
    ensures forall i :: 0 <= i < |kept| ==> kept[i].id != id && kept[i] in selected
  {
    var kept := Filter(selected, (s: Seat) => s.id != id);
    FilterMembers(selected, (s: Seat) => s.id != id);
    assert forall i :: 0 <= i < |kept| ==> kept[i] in kept;
    kept
  }

  /** The entries of the selection that carry the given id. */
  function OnlyId(selected: seq<Seat>, id: int): (removed: seq<Seat>)
    ensures forall i :: 0 <= i < |removed| ==> removed[i].id == id && removed[i] in selected
  {
    var removed := Filter(selected, (s: Seat) => s.id == id);
    FilterMembers(selected, (s: Seat) => s.id == id);
    assert forall i :: 0 <= i < |removed| ==> removed[i] in removed;
    removed
  }

  /** Two seat lists that agree, position by position, on which seats are booked. */
  predicate SameBooking(s: seq<Seat>, t: seq<Seat>)
  {
    |s| == |t| && forall i :: 0 <= i < |s| ==> s[i].is_booked == t[i].is_booked
  }

  /** The counters depend only on which seats are booked. */
  lemma {:induction false} SameBookingSameCounts(s: seq<Seat>, t: seq<Seat>)
    requires SameBooking(s, t)
    ensures AvailableCount(s) == AvailableCount(t) && BookedCount(s) == BookedCount(t)
  {
    if s != [] {
      var n := |s| - 1;
      forall i | 0 <= i < n ensures s[..n][i].is_booked == t[..n][i].is_booked {
        assert s[..n][i] == s[i] && t[..n][i] == t[i];
      }
      SameBookingSameCounts(s[..n], t[..n]);
      assert s[n].is_booked == t[n].is_booked;
      assert |Filter(s, IsFree)| == |Filter(s[..n], IsFree)| + (if s[n].is_booked then 0 else 1);
      assert |Filter(t, IsFree)| == |Filter(t[..n], IsFree)| + (if t[n].is_booked then 0 else 1);
      assert |Filter(s, IsTaken)| == |Filter(s[..n], IsTaken)| + (if s[n].is_booked then 1 else 0);
      assert |Filter(t, IsTaken)| == |Filter(t[..n], IsTaken)| + (if t[n].is_booked then 1 else 0);
    }
  }

  /** Holding a seat leaves every counter as it was. */
  lemma HolderKeepsCounts(seats: seq<Seat>, id: int, name: string)
    ensures AvailableCount(WithHolder(seats, id, name)) == AvailableCount(seats)
    ensures BookedCount(WithHolder(seats, id, name)) == BookedCount(seats)
  {
    SameBookingSameCounts(WithHolder(seats, id, name), seats);
  }

  /** Holding a seat keeps the grid layout. */
  lemma HolderKeepsLayout(seats: seq<Seat>, id: int, name: string)
    requires Layout(seats)
    ensures Layout(WithHolder(seats, id, name))
  {
  }

  /**
   * Booking monotonicity of selection: when the seat handed in is the
   * current record of a laid-out grid and is free, no booked seat changes.
   */
  lemma HolderSparesBooked(seats: seq<Seat>, seat: Seat, name: string)
    requires Layout(seats) && seat in seats && !seat.is_booked
    ensures forall i :: 0 <= i < |seats| && seats[i].is_booked ==>
      WithHolder(seats, seat.id, name)[i] == seats[i]
  {
    var j :| 0 <= j < |seats| && seats[j] == seat;
    forall i | 0 <= i < |seats| && seats[i].is_booked
      ensures WithHolder(seats, seat.id, name)[i] == seats[i]
    {
      LayoutIds(seats, i, j);
    }
  }

  /** Confirming keeps the grid layout. */
  lemma BookedKeepsLayout(seats: seq<Seat>, id: int)
    requires Layout(seats)
    ensures Layout(WithBooked(seats, id))
  {
  }

  /** The counters of two lists that differ in one position only. */
  lemma {:induction false} CountsOneChange(before: seq<Seat>, x: Seat, y: Seat, after: seq<Seat>)
    ensures BookedCount(before + [y] + after) + (if x.is_booked then 1 else 0)
         == BookedCount(before + [x] + after) + (if y.is_booked then 1 else 0)
    ensures AvailableCount(before + [y] + after) + (if x.is_booked then 0 else 1)
         == AvailableCount(before + [x] + after) + (if y.is_booked then 0 else 1)
  {
    FilterAppend(before + [x], after, IsTaken);
    FilterAppend(before, [x], IsTaken);
    FilterAppend(before + [y], after, IsTaken);
    FilterAppend(before, [y], IsTaken);
    FilterAppend(before + [x], after, IsFree);
    FilterAppend(before, [x], IsFree);
    FilterAppend(before + [y], after, IsFree);
    FilterAppend(before, [y], IsFree);
  }

  /**
   * On a laid-out grid, confirming seat `id` moves it from the available to
   * the booked counter when it was free, and changes no counter otherwise.
   */
  lemma ConfirmCounts(seats: seq<Seat>, id: int)
    requires Layout(seats)
    ensures 1 <= id <= SEAT_COUNT && !seats[id - 1].is_booked ==>
      && BookedCount(WithBooked(seats, id)) == BookedCount(seats) + 1
      && AvailableCount(WithBooked(seats, id)) == AvailableCount(seats) - 1
    ensures !(1 <= id <= SEAT_COUNT && !seats[id - 1].is_booked) ==>
      && BookedCount(WithBooked(seats, id)) == BookedCount(seats)
      && AvailableCount(WithBooked(seats, id)) == AvailableCount(seats)
  {
    var after := WithBooked(seats, id);
    if 1 <= id <= SEAT_COUNT {
      var k := id - 1;
      assert Placed(seats[k], k);
      forall i | 0 <= i < |seats| && i != k ensures after[i] == seats[i] {
        assert Placed(seats[i], i);
      }
      assert seats == seats[..k] + [seats[k]] + seats[k + 1..];
      assert after == seats[..k] + [after[k]] + seats[k + 1..];
      CountsOneChange(seats[..k], seats[k], after[k], seats[k + 1..]);
    } else {
      forall i | 0 <= i < |seats| ensures after[i] == seats[i] {
        assert Placed(seats[i], i);
      }
      assert after == seats;
    }
  }

  /**
   * Removing an id clears it from the selection, leaves the other ids'
   * membership alone, keeps the remaining entries in order, and leaves a
   * selection without that id untouched.
   */
  lemma WithoutIdSpec(selected: seq<Seat>, id: int)
    ensures !IsSelected(WithoutId(selected, id), id)
    ensures forall other :: other != id ==>
      (IsSelected(WithoutId(selected, id), other) <==> IsSelected(selected, other))
    ensures |WithoutId(selected, id)| + |OnlyId(selected, id)| == |selected|
    ensures multiset(WithoutId(selected, id)) + multiset(OnlyId(selected, id)) == multiset(selected)
    ensures !IsSelected(selected, id) ==> WithoutId(selected, id) == selected
  {
    var kept := WithoutId(selected, id);
    FilterMembers(selected, (s: Seat) => s.id != id);
    forall i | 0 <= i < |kept| ensures kept[i].id != id {
      assert kept[i] in kept;
    }
    forall other | other != id
      ensures IsSelected(kept, other) <==> IsSelected(selected, other)
    {
      if IsSelected(selected, other) {
        var i :| 0 <= i < |selected| && selected[i].id == other;
        assert selected[i] in kept;
      }
      if IsSelected(kept, other) {
        var i :| 0 <= i < |kept| && kept[i].id == other;
        assert kept[i] in selected;
      }
    }
    FilterSplit(selected, (s: Seat) => s.id != id, (s: Seat) => s.id == id);
    FilterMultiset(selected, (s: Seat) => s.id != id, (s: Seat) => s.id == id);
    if !IsSelected(selected, id) {
      FilterAll(selected, (s: Seat) => s.id != id);
    }
  }

  /** Removing an id from a concatenation removes it from each part, order kept. */
  lemma WithoutIdAppend(a: seq<Seat>, b: seq<Seat>, id: int)
    ensures WithoutId(a + b, id) == WithoutId(a, id) + WithoutId(b, id)
  {
    FilterAppend(a, b, (s: Seat) => s.id != id);
  }

  /** Confirming takes the price of every removed entry, duplicates included, off the total. */
  lemma ConfirmTotal(selected: seq<Seat>, id: int)
    ensures TotalPrice(WithoutId(selected, id)) == TotalPrice(selected) - TotalPrice(OnlyId(selected, id))
  {
    TotalPriceSplit(selected, (s: Seat) => s.id != id, (s: Seat) => s.id == id);
  }

  /** The entries of one id in a concatenation are those of each part, in order. */
  lemma OnlyIdAppend(a: seq<Seat>, b: seq<Seat>, id: int)
    ensures OnlyId(a + b, id) == OnlyId(a, id) + OnlyId(b, id)
  {
    FilterAppend(a, b, (s: Seat) => s.id == id);
  }

  /**
   * Selecting the same free seat twice keeps both copies, each with its own
   * name, and counts the price twice; one confirmation removes both.
   */
  lemma SelectTwiceKeepsBothCopies(selected: seq<Seat>, seat: Seat, first: string, second: string)
    ensures var twice := selected + [seat.(booked_by := Some(first))] + [seat.(booked_by := Some(second))];
      && |OnlyId(twice, seat.id)| == |OnlyId(selected, seat.id)| + 2
      && TotalPrice(twice) == TotalPrice(selected) + 2 * seat.price
      && WithoutId(twice, seat.id) == WithoutId(selected, seat.id)
  {
    var a, b := seat.(booked_by := Some(first)), seat.(booked_by := Some(second));
    assert [a][..0] == [] && [b][..0] == [];
    OnlyIdAppend(selected + [a], [b], seat.id);
    OnlyIdAppend(selected, [a], seat.id);
    WithoutIdAppend(selected + [a], [b], seat.id);
    WithoutIdAppend(selected, [a], seat.id);
    TotalPriceAppend(selected + [a], [b]);
    TotalPriceAppend(selected, [a]);
    TotalPriceSingle(a);
    TotalPriceSingle(b);
  }

  /**
   * A walk through one booking: with seat 5 free, selecting it for "Alice"
   * gives a one-entry selection worth 12000; confirming it books seat A5 for
   * Alice, empties the selection and moves one seat to the booked counter.
   */
  lemma AliceBooksA5(draws: seq<bool>)
    requires |draws| == SEAT_COUNT && !draws[4]
    ensures var seats := Generated(draws);
      var entry := seats[4].(booked_by := Some("Alice"));
      var held := WithHolder(seats, 5, "Alice");
      && seats[4] == Seat(5, "A", 5, 12000, false, None)
      && entry == Seat(5, "A", 5, 12000, false, Some("Alice"))
      && TotalPrice([entry]) == 12000
      && WithBooked(held, 5)[4] == Seat(5, "A", 5, 12000, true, Some("Alice"))
      && WithoutId([entry], 5) == []
      && BookedCount(WithBooked(held, 5)) == BookedCount(seats) + 1
  {
    var seats := Generated(draws);
    var entry := seats[4].(booked_by := Some("Alice"));
    var held := WithHolder(seats, 5, "Alice");
    HolderKeepsCounts(seats, 5, "Alice");
    ConfirmCounts(held, 5);
    assert [entry][..0] == [];
    WithoutIdSpec([entry], 5);
  }

  /**
   * The booking session of one seat map. `seats` is the seat list and
   * `selectedSeats` the pending selections, in the order they were made.
   * The selection is not kept consistent with the seat list: it holds copies,
   * possibly several of one seat.
   */
  class SeatMap {
    var seats: seq<Seat>
    var selectedSeats: seq<Seat>

    /** The seat list keeps the generated grid layout. */
    ghost predicate Valid()
      reads this
    {
      Layout(seats)
    }

    /** Mounting: the seat list is generated and nothing is selected. */
    constructor (draws: seq<bool>)
      requires |draws| == SEAT_COUNT
      ensures Valid()
      ensures seats == Generated(draws) && selectedSeats == []
    {
      var generated := GenerateSeats(draws);
      seats := generated;
      selectedSeats := [];
    }

    /** Start over: a fresh inventory and an empty selection, whatever came before. */
    method ResetSeats(draws: seq<bool>)
      requires |draws| == SEAT_COUNT
      modifies this
      ensures Valid()
      ensures seats == Generated(draws) && selectedSeats == []
      ensures AvailableCount(seats) + BookedCount(seats) == SEAT_COUNT
      ensures TotalPrice(selectedSeats) == 0
      ensures Labels(seats) == ROWS && Concat(Labels(seats), Grouped(seats)) == seats
    {
      seats := GenerateSeats(draws);
      selectedSeats := [];
      GroupedLayout(seats);
    }

    /**
     * Selects `seat` for `name` (the answer to the name prompt; empty means
     * cancelled). A booked seat or an empty name leaves the state alone;
     * otherwise the seat's record gets the holder and a copy of the seat
     * with that holder is appended to the selection.
     */
    method SelectSeat(seat: Seat, name: string)
      requires Valid()
      modifies this
      ensures Valid()
      ensures seat.is_booked || name == "" ==>
        seats == old(seats) && selectedSeats == old(selectedSeats)
      ensures !seat.is_booked && name != "" ==>
        && seats == WithHolder(old(seats), seat.id, name)
        && selectedSeats == old(selectedSeats) + [seat.(booked_by := Some(name))]
        && IsSelected(selectedSeats, seat.id)
      ensures AvailableCount(seats) == old(AvailableCount(seats))
      ensures BookedCount(seats) == old(BookedCount(seats))
      ensures TotalPrice(selectedSeats) ==
        old(TotalPrice(selectedSeats)) + (if seat.is_booked || name == "" then 0 else seat.price)
      ensures seat in old(seats) ==>
        forall i :: 0 <= i < |seats| && old(seats)[i].is_booked ==> seats[i] == old(seats)[i]
    {
      if seat.is_booked {
        return;
      }
      if name == "" {
        return;
      }
      var entry := seat.(booked_by := Some(name));
      HolderKeepsLayout(seats, seat.id, name);
      HolderKeepsCounts(seats, seat.id, name);
      if seat in seats {
        HolderSparesBooked(seats, seat, name);
      }
      TotalPriceAppend(selectedSeats, [entry]);
      TotalPriceSingle(entry);
      seats := WithHolder(seats, seat.id, name);
      selectedSeats := selectedSeats + [entry];
      assert selectedSeats[|selectedSeats| - 1] == entry;
    }

    /**
     * Confirms `seat`: every seat of its id becomes booked (its holder kept),
     * every selection entry of its id is removed, and the notice reports the
     * label, price and holder carried by the seat handed in. Whether the seat
     * was selected is not checked.
     */
    method ConfirmCheckout(seat: Seat) returns (notice: Notice)
      requires Valid()
      modifies this
      ensures Valid()
      ensures seats == WithBooked(old(seats), seat.id)
      ensures selectedSeats == WithoutId(old(selectedSeats), seat.id)
      ensures !IsSelected(selectedSeats, seat.id)
      ensures forall other :: other != seat.id ==>
        (IsSelected(selectedSeats, other) <==> IsSelected(old(selectedSeats), other))
      ensures TotalPrice(selectedSeats) ==
        old(TotalPrice(selectedSeats)) - TotalPrice(OnlyId(old(selectedSeats), seat.id))
      ensures forall i :: 0 <= i < |seats| && old(seats)[i].is_booked ==> seats[i] == old(seats)[i]
      ensures notice == Notice(seat.row_label, seat.seat_number, seat.price, seat.booked_by)
    {
      BookedKeepsLayout(seats, seat.id);
      WithoutIdSpec(selectedSeats, seat.id);
      ConfirmTotal(selectedSeats, seat.id);
      seats := WithBooked(seats, seat.id);
      selectedSeats := WithoutId(selectedSeats, seat.id);
      notice := Notice(seat.row_label, seat.seat_number, seat.price, seat.booked_by);
    }
  }
}
