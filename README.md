# Seat booking: a verified model of the seat map

This project models the seat-booking logic of the `SeatMap` component of the
Seat-Booking-Demo application (`src/components/SeatMap.jsx`), and proves
properties of that model in Dafny.

The component works with a hall of 4 rows (A to D) of 8 seats. A row's price
comes from a fixed table: A 12000, B 5000, C 2500, D 450. The component's state
is the seat list and the list of pending selections. It has three operations:

- *select*: asks for a holder name and puts a seat on hold;
- *confirm*: books a selected seat;
- *reset*: regenerates the hall.

From the state it derives the available and booked counters, the selection
total, the "is selected" test and the grouping of seats by row.

Files and modules:

- `option.dfy` (`Options`): the optional holder name (`null` in the source).
- `lists.dfy` (`Lists`): the order-keeping filter (`Array.prototype.filter`)
  and its laws.
- `seats.dfy` (`Seats`): the `Seat` record, the row and price tables, and
  `GenerateSeats`. `GenerateSeats` is a loop with a running id counter,
  proved against the function `Generated`. The module also has the `Layout`
  predicate: the fixed shape of the grid, whatever the booking state.
- `views.dfy` (`SeatViews`): the derived views. `GroupSeats` is a loop that
  pushes each seat onto its row's list. It is proved against `Labels` (the key
  order) and `Grouped` (the grouping object).
- `session.dfy` (`Session`): the class `SeatMap`. Its fields are `seats` and
  `selectedSeats`. Its methods `ResetSeats`, `SelectSeat` and
  `ConfirmCheckout` each replace both fields in one atomic step. The module
  also has the pure list transitions the methods use (`WithHolder`,
  `WithBooked`, `WithoutId`) and the lemmas about them.

Where the model follows the code rather than what one might expect of a booking system:

- *Duplicates are allowed.* Only a booked seat is refused on selection. An
  already selected seat can be selected again, and each time a copy is appended
  to the selection. The copies can carry different names, and the total counts
  every copy. One confirmation removes every copy. A booking system would
  usually make selection idempotent, with unique ids in the selection; this
  code does not. The model follows the code, and `SelectTwiceKeepsBothCopies`
  states what the code does.
- *The selection is not kept in agreement with the seat list.* No invariant
  ties the two lists together.
- *Confirmation does not check membership.* It books every seat with the given
  id and drops every selection entry with that id, whether or not the seat was
  selected.
- *Selection checks the caller's copy.* The "already booked" test reads the
  seat handed in, not the state's record. The view always hands in the seat
  from the latest render. Booking monotonicity of `SelectSeat` is therefore
  stated for a seat that is the current record (`seat in seats`).

## Model

| member | source | states |
|---|---|---|
| `Lists.Filter` | src/components/SeatMap.jsx:60 | The filtered list is never longer than the input. |
| `Lists.FilterMembers` | src/components/SeatMap.jsx:60 | The filter keeps exactly the elements of the input that pass the test. |
| `Lists.FilterMultiset` | src/components/SeatMap.jsx:60 | Filtering by a test and by its negation splits the list as a multiset: every element, with its multiplicity, lands in exactly one of the two parts. |
| `Lists.FilterAppend` | src/components/SeatMap.jsx:60 | Filtering commutes with concatenation, so kept elements keep their relative order. |
| `Seats.RowOf` | src/components/SeatMap.jsx:4-14 | The row of every grid position is a key of the row price table. |
| `Seats.LayoutIds` | src/components/SeatMap.jsx:8-11 | In the grid layout, two seats have the same id exactly when they are the same position. |
| `Seats.GenerateSeats` | src/components/SeatMap.jsx:6-19 | Returns 32 seats. Seat k (0-based) has id k+1, row A/B/C/D for k/8, seat number k%8+1 and its row's price. It has no holder and is booked exactly when draw k is true. The result equals `Generated(draws)`. |
| `Seats.Generated` | src/components/SeatMap.jsx:6-19 | A generated list has the grid layout (32 seats, ids 1 to 32, rows A to D of 8, each at its row's price), has no holders, and takes its booking flags from the draws. |
| `SeatViews.BookedCount` | src/components/SeatMap.jsx:30 | The booked counter never exceeds the number of seats. |
| `SeatViews.AvailableCount` | src/components/SeatMap.jsx:29-30 | The available count plus the booked count is the number of seats: every seat is counted by exactly one of them. |
| `SeatViews.TotalPrice` | src/components/SeatMap.jsx:31 | When every selected entry has a non-negative price, the total is non-negative. |
| `SeatViews.TotalPriceAppend` | src/components/SeatMap.jsx:31 | The total of a concatenation is the sum of the totals, so each entry, duplicate or not, adds its own price. |
| `SeatViews.TotalPriceSplit` | src/components/SeatMap.jsx:31 | Splitting the selection by a test and its negation splits the total. |
| `SeatViews.IsSelected` | src/components/SeatMap.jsx:106 | A seat counts as selected exactly when some entry of the selection has its id. |
| `SeatViews.Labels` | src/components/SeatMap.jsx:64-68 | There are never more keys than seats. |
| `SeatViews.Grouped` | src/components/SeatMap.jsx:64-68 | No group of the grouping object is empty. |
| `SeatViews.GroupsNonEmpty` | src/components/SeatMap.jsx:64-68 | Every key of the grouping has at least one seat in its group. |
| `SeatViews.LabelsComplete` | src/components/SeatMap.jsx:64-68 | Every row label that occurs among the seats is a key of the grouping. |
| `SeatViews.LabelsSound` | src/components/SeatMap.jsx:64-68 | Every key of the grouping is the row label of some seat. |
| `SeatViews.LabelsDistinct` | src/components/SeatMap.jsx:64-68 | No key occurs twice in the key order. |
| `SeatViews.GroupSeats` | src/components/SeatMap.jsx:64-68 | The keys come out in first-occurrence order. Each key maps to exactly the seats with that row label, in their original order. Each step appends a seat's label to the key order only when the label is new, and pushes the seat onto the end of its own row's group. |
| `SeatViews.LayoutLabelsPrefix` | src/components/SeatMap.jsx:64-68 | On the grid layout, the keys met in the first k seats are the first ceil(k/8) row labels. |
| `SeatViews.LayoutRowBlock` | src/components/SeatMap.jsx:64-68 | On the grid layout, row r's group is the block of seats 8r to 8r+7. |
| `SeatViews.GroupedLayout` | src/components/SeatMap.jsx:64-68 | On the grid layout, the keys are A, B, C, D in that order. Each group is its row's 8 seats, and the groups joined in key order give back the seat list. |
| `Session.SameBookingSameCounts` | src/components/SeatMap.jsx:29-30 | Two lists that agree position by position on the booking flags have the same counters. |
| `Session.HolderKeepsCounts` | src/components/SeatMap.jsx:44-48 | Putting a seat on hold changes neither counter. |
| `Session.WithHolder` | src/components/SeatMap.jsx:45-47 | Putting a seat on hold sets the holder of the seats with that id and changes nothing else. Length, ids, booking flags and the other seats stay as they were. |
| `Session.HolderKeepsLayout` | src/components/SeatMap.jsx:44-48 | Putting a seat on hold keeps the grid layout. |
| `Session.HolderSparesBooked` | src/components/SeatMap.jsx:39-48 | When the seat handed in is the current, unbooked record, putting it on hold leaves every booked seat unchanged. |
| `Session.WithBooked` | src/components/SeatMap.jsx:55-57 | Confirming sets the booking flag of the seats with that id and keeps their holder. Every other seat, and every seat already booked, is unchanged. |
| `Session.BookedKeepsLayout` | src/components/SeatMap.jsx:54-58 | Confirming keeps the grid layout. |
| `Session.ConfirmCounts` | src/components/SeatMap.jsx:54-58 | On the grid layout, confirming a free seat moves exactly one seat from the available counter to the booked counter. Any other confirmation changes neither counter. |
| `Session.WithoutId` | src/components/SeatMap.jsx:60 | The remaining entries are entries of the selection, none of them with the removed id, and there are no more of them than before. |
| `Session.OnlyId` | src/components/SeatMap.jsx:60 | The entries dropped by confirmation are entries of the selection that carry the confirmed id. |
| `Session.WithoutIdSpec` | src/components/SeatMap.jsx:60 | Removing an id leaves no entry with that id and does not change whether any other id is selected. The kept and removed entries together are the whole selection, counted with multiplicity. A selection without that id is returned unchanged. |
| `Session.WithoutIdAppend` | src/components/SeatMap.jsx:60 | Removal distributes over concatenation, so the remaining entries keep their relative order. |
| `Session.ConfirmTotal` | src/components/SeatMap.jsx:31 | After removal the total drops by the price of every removed entry, duplicates included. |
| `Session.SelectTwiceKeepsBothCopies` | src/components/SeatMap.jsx:38-60 | Selecting a free seat twice appends two entries with that id. The total rises by twice the price, and one confirmation removes both entries. |
| `Session.AliceBooksA5` | src/components/SeatMap.jsx:38-62 | With seat 5 free, holding it for Alice gives a one-entry selection worth 12000. Confirming it books A5 for Alice, empties the selection and adds one to the booked counter. |
| `Session.SeatMap.constructor` | src/components/SeatMap.jsx:22-27 | Mounting generates the seat list from the draws, with nothing selected. |
| `Session.SeatMap.ResetSeats` | src/components/SeatMap.jsx:33-36 | Whatever the prior state, the seat list becomes a fresh generated list and the selection empties. Afterwards the two counters sum to 32, the total is 0, and the grouping gives back the seat list in rows A to D. |
| `Session.SeatMap.SelectSeat` | src/components/SeatMap.jsx:38-51 | A booked seat or an empty name leaves both lists unchanged. Otherwise the seats with that id get the holder, a copy of the seat with the holder is appended to the selection, and the seat counts as selected. The counters are unchanged. The total rises by the seat's price. Booked seats are untouched when the seat handed in is the current record. |
| `Session.SeatMap.ConfirmCheckout` | src/components/SeatMap.jsx:53-62 | The seats with that id become booked and keep their holder. Every selection entry with that id is removed, and the other ids stay selected as before. The total drops by those entries' prices. Booked seats are unchanged. The notice carries the label, number, price and holder of the seat handed in. |

## Left out

- Rendering, CSS classes, tooltip text and the footer markup (lines 70-174) are presentation only.
- The name prompt (line 41) is browser input. It is the `name` parameter of `SelectSeat`, and the empty string stands for both a cancelled and an empty answer.
- The success alert (line 61) is browser output. `ConfirmCheckout` returns its fields as a `Notice` instead of displaying it.
- `Math.random() < 0.25` (line 15) is a floating-point random draw. It is the `draws` parameter: one boolean per seat, in generation order.
- React's `useState`/`useEffect` scheduling and batched functional updates (lines 22-27, 44, 54) are left out. Each operation is one atomic update of both fields. Mounting is the constructor: it generates the seats and the selection starts empty. The empty seat list before the first effect runs is not modelled.
- JavaScript numbers are modelled as unbounded integers. Ids, prices and totals stay far below the range where floating-point precision matters.
- The `₱` currency formatting and the `A5`-style label strings have no behaviour to prove.
- SeatViews.GroupSeats: JavaScript lists integer-like keys first, and `acc[label] ||= []` finds inherited properties such as `constructor` or `__proto__`, after which `push` fails. The model keeps keys in insertion order for any label, which is what the source does for its labels A to D.
- Session.SeatMap.SelectSeat: booking monotonicity is promised only when the seat handed in is the current record (`seat in seats`). The guard reads the caller's copy, so a stale copy that claims a booked seat is free would overwrite that seat's holder.
