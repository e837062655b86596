# Bus stop display: filtering and ranking core

A Dafny model of the logic in `bus_stop.py` that decides which buses a
small OLED bus-stop display shows, and in what order. The program polls a
bus-location feed and keeps the buses whose position report is fresh. It
drops buses that lie, seen from the stop, in a configured "already passed"
direction. It ranks the rest by distance from the stop with a stable sort,
and draws the nearest three.

Modules, leaves first:

- `Wrappers`: `Option`.
- `Seqs`: the order-preserving `Filter` that every list filter of the program is an
  instance of, with its subsequence, multiplicity and membership lemmas.
- `Records`: `Location`, `Bus` and `BusStop` as datatypes. `GeoMath` holds the
  distance and bearing functions, which the caller supplies. Their results are typed
  `Meters` (at least 0) and `Degrees` (in [0, 360)).
- `Cardinal`: `get_cardinal_direction`, with Python's round-half-to-even `round()`.
- `Direction`: `is_in_filtered_direction` and `filter_buses_by_direction`.
- `Freshness`: `is_bus_data_fresh` (the age comparison) and `filter_buses_by_freshness`.
- `Ranking`: the loop that pairs each located bus with its distance, the in-place sort
  by distance, and the projection back to buses.
- `Display`: the top-3 cut and the right-hand state of each row of `display_buses_on_oled`.
- `Pipeline`: one cycle of `run_display_loop`, and end-to-end properties.

The code is followed where its comments say otherwise. The docstring at
`bus_stop.py:156` describes 90-degree ranges, but the code at lines 180-187 uses
half circles. The comment at line 31 says only N, S, E and W are accepted, but the
code also accepts the diagonals, matched against the eight-way label. The W range is
`180 <= b <= 359` as written, so bearings strictly between 359 and 360 degrees are not
excluded (`Direction.WestRangeGap`).

The sort is Python's `list.sort` (a stable sort). The model sorts in place by
insertion sort. `Ranking.StableSortUnique` proves that every sorted, stable
rearrangement equals that result, so the choice of algorithm does not matter.

## Model

| member | source | states |
|---|---|---|
| Seqs.Filter | bus_stop.py:236-241 | the order-preserving list filter that both filter loops compute; never longer than its input. Its properties are in `Seqs.FilterIsSubsequence`, `Seqs.FilterMultiplicity` and `Seqs.FilterMembers` |
| Records.DistanceFromBus | bus_stop.py:60-68 | `stop.distance_from_bus(bus)`, that is `calculate_distance(bus.location, stop.location)` for a located bus; the result is a distance, never negative (its type) |
| Cardinal.RoundHalfEven | bus_stop.py:149 | `round()` gives an integer within 0.5 of its argument, and an even one when the argument is exactly half-way |
| Cardinal.RoundHalfEvenUnique | bus_stop.py:149 | those two properties determine `round()` completely |
| Cardinal.GetCardinalDirection | bus_stop.py:148-150 | the result is always one of the eight labels |
| Cardinal.CardinalSectors | bus_stop.py:148-150 | on [0, 360) the label is the k-th one exactly when the bearing lies in the 45-degree sector centred on 45k; half-way bearings belong to the primary direction, and N takes both ends of the circle |
| Cardinal.SectorOfRound | bus_stop.py:149-150 | on [0, 360) the rounded index of bearing/45 is k (mod 8) exactly when the bearing lies in sector k |
| Cardinal.CardinalPeriodic | bus_stop.py:149 | bearings a whole turn apart get the same label (the index is taken mod 8) |
| Cardinal.CardinalExamples | bus_stop.py:148-150 | 0, 90, 180, 270 give N, E, S, W; 359 wraps to N; the eight half-way bearings 22.5 … 337.5 give N, E, E, S, S, W, W, N |
| Direction.Upper | bus_stop.py:172 | `filter_direction.upper()`: same length, and each ASCII lower-case letter mapped to its upper-case letter; `Direction.UpperPrimary` and `Direction.CaseInsensitive` hold its properties |
| Direction.IsInFilteredDirection | bus_stop.py:153-191 | only a non-empty filter excludes a bus; its decisions are stated by `Direction.EmptyFilterExcludesNothing`, `Direction.PrimaryRanges`, `Direction.DiagonalSector` and `Direction.UnrecognisedExcludesNothing` |
| Direction.EmptyFilterExcludesNothing | bus_stop.py:166-167 | an empty filter excludes no bus, whatever its bearing |
| Direction.UpperPrimary | bus_stop.py:172 | a filter upper-cases to N, E, S or W exactly when it is that letter in upper or lower case |
| Direction.CaseInsensitive | bus_stop.py:172 | a filter decides exactly as its upper-cased form does |
| Direction.PrimaryRanges | bus_stop.py:180-187 | N excludes b ≥ 270 or b < 90; E excludes b < 180; S excludes 90 ≤ b < 270; W excludes 180 ≤ b ≤ 359, in either case |
| Direction.WestRangeGap | bus_stop.py:186-187 | a bearing in (359, 360) is not excluded under W |
| Direction.WestExamples | bus_stop.py:186-187 | under W, 180 degrees is excluded and 179 and 0 degrees are kept |
| Direction.DiagonalSector | bus_stop.py:188-191 | a diagonal filter excludes exactly the bearings of its own 45-degree display sector |
| Direction.UnrecognisedExcludesNothing | bus_stop.py:188-191 | a filter that is none of the eight labels once upper-cased (such as "WEST") excludes nothing |
| Direction.HalfCircleCoversNeighbours | bus_stop.py:174-187 | a primary direction's half circle covers the display sectors of that direction and of both diagonals next to it |
| Direction.HalfCircleOfSector | bus_stop.py:180-187 | a bearing in the sector of a primary direction or of a diagonal next to it lies in that direction's half circle |
| Direction.FilterBusesByDirection | bus_stop.py:257-266 | with an empty filter the input is returned unchanged; otherwise the located, non-excluded buses in input order |
| Direction.DirectionFilterMembers | bus_stop.py:260-266 | a bus is kept exactly when it has a location and is not in the filtered direction |
| Direction.UnrecognisedDropsUnlocated | bus_stop.py:260-266 | an unrecognised non-empty filter still drops the buses without a location, and only those |
| Freshness.IsBusDataFresh | bus_stop.py:194-222 | only a present, parsed timestamp can be fresh; the age comparison is stated by `Freshness.FreshnessBoundary`, `Freshness.FreshnessMonotone` and `Freshness.FutureIsFresh` |
| Freshness.MissingTimestampIsStale | bus_stop.py:205-206 | a missing or unparsable timestamp is never fresh |
| Freshness.FreshnessBoundary | bus_stop.py:216-219 | the limit is inclusive: exactly the maximum age is fresh, one second more is stale |
| Freshness.FreshnessMonotone | bus_stop.py:216-219 | data fresh now was fresh earlier and stays fresh under a longer limit |
| Freshness.FutureIsFresh | bus_stop.py:216-219 | a timestamp in the future (negative age) is fresh |
| Freshness.DefaultLimitExamples | bus_stop.py:194-219 | with the default 15 minutes, 5 and 15 minutes old are fresh and 20 minutes old is stale |
| Freshness.FilterBusesByFreshness | bus_stop.py:236-241 | the loop returns the order-preserving filter of the buses with fresh data |
| Freshness.FreshnessFilterExact | bus_stop.py:236-241 | the result is a subsequence of the input, no longer than it, and holds every fresh bus as often as the input does and no stale one |
| Seqs.FilterIsSubsequence | bus_stop.py:260-266 | a filter's result is obtained from its input by deleting elements |
| Seqs.FilterMultiplicity | bus_stop.py:236-241 | a filter keeps each element satisfying the test exactly as often as it occurs, and no other |
| Ranking.WithDistances | bus_stop.py:690-694 | the (bus, distance) pairs, never more than the buses; `Ranking.WithDistancesFacts` states which pairs and in what order |
| Ranking.Insert | bus_stop.py:696 | one step of the stable sort: adds exactly one element; `Ranking.InsertAt` places it right after the last element not farther than it |
| Ranking.InsertionSorted | bus_stop.py:696 | the stable sort by distance; same length as its input, and `Ranking.InsertionSortedSorts`, `Ranking.InsertionSortedPermutes`, `Ranking.InsertionSortedStable` and `Ranking.StableSortUnique` state that it is `list.sort`'s result |
| Ranking.Buses | bus_stop.py:697 | `[bus for bus, _ in pairs]`: same length, and position i holds the bus of pair i |
| Ranking.WithDistancesFacts | bus_stop.py:690-694 | the pairs hold exactly the located buses in input order, each with its own distance |
| Ranking.InsertionSortedSorts | bus_stop.py:696 | the sort result is ascending by distance |
| Ranking.InsertionSortedPermutes | bus_stop.py:696 | the sort result is a permutation of its input |
| Ranking.InsertionSortedStable | bus_stop.py:696 | pairs at equal distance keep their input order |
| Ranking.StableSortUnique | bus_stop.py:696 | every sorted, stable rearrangement of the pairs equals the modelled sort |
| Ranking.SortByDistance | bus_stop.py:696 | the in-place sort leaves the array holding the stable sort of its old contents |
| Ranking.SortBusesByDistance | bus_stop.py:690-697 | the ranking block returns the buses of the stably sorted (bus, distance) pairs |
| Ranking.RankedBuses | bus_stop.py:690-697 | the ranked list, never longer than its input; `Ranking.RankedSorted`, `Ranking.RankedStable`, `Ranking.RankedPermutation` and `Ranking.RankedLocatedMembers` hold its properties |
| Ranking.RankedSorted | bus_stop.py:690-697 | every ranked bus has a location, and the ranked list is ascending by distance |
| Ranking.RankedStable | bus_stop.py:696-697 | the buses at any one distance keep the order they had among the located input buses |
| Ranking.RankedPermutation | bus_stop.py:690-697 | the ranked list is a permutation of the input buses that have a location |
| Display.TopBuses | bus_stop.py:600 | the first min(3, n) buses |
| Display.RowStateFor | bus_stop.py:629-641 | a progress bar is drawn only from 1 km on; `Display.RowStateRanges` gives the three ranges |
| Display.RowFor | bus_stop.py:603-641 | the row drawn for bus i: a progress bar shows the same km value as the row's distance text |
| Display.RowStateRanges | bus_stop.py:629-641 | "Arriving!" exactly below 100 m, "Leave now!" from 100 m to below 1 km, a progress bar of the distance in km from 1 km on |
| Display.DisplayBusesOnOled | bus_stop.py:600-641 | every located bus among the first three gets the row of its position and no other row is drawn, in order; on a ranked list row k shows bus k |
| Pipeline.RunCycle | bus_stop.py:681-700 | one cycle applies the freshness filter with 15 minutes, the direction filter, the ranking, and draws row k for the k-th nearest bus |
| Pipeline.Filtered | bus_stop.py:684-687 | the buses the two filters pass on, never more than the input; `Pipeline.FilteredMembers` states which |
| Pipeline.FilteredMembers | bus_stop.py:684-687 | the two filters pass on a bus exactly when it is in the input and fresh, and, with a filter set, located and not excluded |
| Ranking.RankedLocatedMembers | bus_stop.py:690-697 | ranking keeps a bus exactly when it is in the filtered list and has a location |
| Pipeline.RankedMembers | bus_stop.py:684-697 | a bus is ranked exactly when it is in the input, fresh and located, and is not excluded by a set filter |
| Pipeline.ThreeBusScenario | bus_stop.py:684-697 | fresh buses at 500 m, 2 km and 50 m with no filter are ranked 50 m, 500 m, 2 km |
| Pipeline.UnlocatedNeverRanked | bus_stop.py:690-697 | a bus without a position is never ranked |
| Pipeline.WestScenario | bus_stop.py:684-697 | a fresh bus bearing 200 degrees is dropped under W and ranked with no filter |

## Left out

- `calculate_distance` and `calculate_bearing` (bus_stop.py:83-135) are floating-point trigonometry, including the literal π at line 133. They are the caller-supplied fields of `GeoMath`. The model knows only their ranges: a distance is at least 0 and a bearing lies in [0, 360).
- `Bus.distance_to` returns infinity for a bus without a location (bus_stop.py:65-66). The model only asks for the distance of located buses, as every caller in the core does.
- ISO-8601 parsing, including the `Z` to `+00:00` replacement (bus_stop.py:210), is a library call. A timestamp arrives already parsed to whole seconds, with `None` for an empty or unparsable field. Sub-second precision is not modelled.
- A timestamp without a UTC offset parses as a naive datetime. Subtracting it from the aware current time (bus_stop.py:216) raises `TypeError`. The handler at line 220 does not catch it, and `run_display_loop` catches only `KeyboardInterrupt` (lines 678 and 717), so the error ends the display loop and the program. The model does not represent naive timestamps: in the program such a timestamp is a crash, not a stale reading.
- The clock: `datetime.now` is read once per bus inside `is_bus_data_fresh`. The model takes a single `now` per filter call.
- Floating-point rounding of `bearing / 45` and `distance_m / 1000`, and NaN bearings, are not modelled: arithmetic is on reals.
- `str.upper()` is modelled on ASCII letters only. Non-ASCII case mappings, such as U+017F upper-casing to "S", are not modelled.
- `fetch_bus_data`, `fetch_all_buses` and `parse_buses_from_xml` are HTTP and XML I/O.
- `draw_bus_icon`, the pixel and ratio arithmetic of `draw_progress_bar`, text positions, the distance text format and the clock line are drawing only.
- `display_bus_distances` (bus_stop.py:382-422) prints to the console. Its sort block (lines 405-413) is the same stable sort by distance, with a direction label added to each tuple. It is not modelled separately.
- The parse-error message printed by `is_bus_data_fresh` (bus_stop.py:221) is console output; the model keeps only its `False` result.
- The infinite poll loop, console summary, random jitter, `time.sleep`, `KeyboardInterrupt` handling, `main`, `test_with_sample_file` and the command line are not modelled.
- `ssd1322_advanced.py` and `clear_display.py` are hardware demo scripts that only call display libraries.
