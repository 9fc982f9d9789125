# SmartParkSim parking-stop injector, modelled in Dafny

This project models the part of SmartParkSim that decides where parked traffic
goes. It covers the weighted random parking-stop injector and the occupancy
arithmetic of a parking lot. Given the `<vehicle>` elements of a SUMO route file
and the `<parkingArea>` elements of an additional file, the injector does this:

- It loads a catalog of facilities. Each facility is weighted by its declared
  `roadsideCapacity`, else its `capacity`, else 1.
- It walks the vehicles in document order with one seeded generator.
- A vehicle that already has a `<stop>` is skipped, and no draw is consumed.
- Every other vehicle takes one `random()` draw, which is compared with the rate.
- On success, a weighted draw picks the facility and an inclusive `randint` picks
  the duration. A `<stop parkingArea=… duration=…>` is then appended as the
  vehicle's last child.

The injector exists twice, as near-identical copies: the standalone script
`scripts/inject_parking_stops.py`, and the pipeline `scripts/generate_parking_routes.py`.
The pipeline runs it once per scenario of a fixed table, with seed
`base + index * 1000`. The loader and the selector behave the same in both
files: `generate_parking_routes.py:59-92` repeats the logic of
`inject_parking_stops.py:7-42`. The copies differ only in output, namely an extra
`print` and the text of the error message when no parking area is found. The model therefore defines them once, in `Catalog` and
`Selector`. The per-vehicle loop is likewise defined once, in `Injector`. It has
one entry point per copy: `StandaloneInjector.InjectStops` raises on an empty
route file, and `ParkingRoutesPipeline.InjectParkingStops` does not.
`ParkingRoutesPipeline.CopiesAgree` proves that the two copies agree on every
non-empty route file.

Python's `random.Random` is modelled as an abstract state type `S` with four
step functions, bundled in `RandomSource.Generator`: `seed`, `random`, `uniform`
and `randInt`. Its documented ranges are stated by `RandomSource.Valid`:

- `random()` lies in [0, 1).
- `uniform(a, b)` lies in [a, b].
- `randint(lo, hi)` lies in [lo, hi].

Every run is a pure function of the generator and the seed, so determinism holds
by construction. The state is threaded explicitly, so the contracts can say
exactly which draws a vehicle consumes. Floats are modelled as `real`. An element
is modelled as its attribute map, and a vehicle as its attributes plus its
sequence of children.

Python exceptions are modelled as `Common.Error` values in a `Result`:

- `NoParkingAreaElements`: the loader finds no `<parkingArea>` with an id.
- `NoVehicleElements`: the standalone copy gets a route file with no vehicles.
- `EmptyParkingIdList`: `items[-1]` is evaluated on an empty id list. This happens
  only when a stop is actually drawn.
- `EmptyDurationRange`: `randint` is called with `dur_min > dur_max`. This also
  happens only when a stop is drawn.

Several behaviours of the code are easy to misread. The model follows the code as
written:

- An element without an id is skipped, not reported. The loader fails only when
  no element is left.
- A present but non-numeric `roadsideCapacity` shadows a numeric `capacity`,
  because `or` picks the first truthy string. The weight is then 1
  (`Catalog.WeightDefaultsToOne`).
- A declared capacity of `"0"` gives weight 0, so weights are `nat`, not positive.
  Such a facility is chosen only when the draw is exactly 0
  (`Selector.ZeroWeightNeverChosen`).
- `random()` lies in [0, 1), not [0, 1]. With rate 1.0, every eligible vehicle
  therefore gets a stop.
- The pipeline copy does not raise on an empty route file.
- In the pipeline's `main`, a failing scenario raises out of the loop. Later
  scenarios are therefore not run (`ParkingRoutesPipeline.RunScenarios` stops at
  the first error).

## Model

| member | source | states |
|---|---|---|
| Decimal.NatToString | scripts/inject_parking_stops.py:23 | the decimal text of n is a non-empty digit string that `int()` reads back as n, with no leading zero |
| Decimal.IntToString | scripts/inject_parking_stops.py:69 | `str(dur)` for any integer reads back as exactly that integer |
| Decimal.IntToStringInjective | scripts/inject_parking_stops.py:69 | distinct durations are written as distinct attribute texts |
| Catalog.Collect | scripts/inject_parking_stops.py:18-25 | the loader keeps at most one facility per element, every kept id is non-empty, and it keeps none exactly when no element has a truthy id |
| Catalog.ParseParkingAreas | scripts/inject_parking_stops.py:7-30 | fails with NoParkingAreaElements exactly when no element has an id; otherwise returns the non-empty catalog of (id, weight) pairs |
| Catalog.CollectAppend | scripts/inject_parking_stops.py:18-25 | document order is preserved: loading a concatenation is the concatenation of the loads |
| Catalog.CollectSingle | scripts/inject_parking_stops.py:19-25 | one element loads to its (id, weight) when its id is truthy and is dropped otherwise |
| Catalog.CollectMembership | scripts/inject_parking_stops.py:18-25 | a facility is in the catalog iff some element with an id loads to it |
| Catalog.WeightFromDeclaredCapacity | scripts/inject_parking_stops.py:22-23 | any declared digit string, leading zeros included, gives the weight it reads as (int("007") is 7); it is taken from roadsideCapacity first, and from capacity when roadsideCapacity is absent or empty |
| Catalog.WeightDefaultsToOne | scripts/inject_parking_stops.py:22-23 | the weight is 1 when no capacity attribute is truthy, when roadsideCapacity is not a digit string, and when only capacity is declared and it is not a digit string ("abc", "-5", "3.5") |
| Selector.Scan | scripts/inject_parking_stops.py:37-42 | from any turn of the loop, the result is the first index whose prefix sum reaches r, or the last index when none does |
| Selector.Choose | scripts/inject_parking_stops.py:33-42 | the chosen index is in range, is the smallest whose prefix sum is >= r when one exists, and is the last index otherwise |
| Selector.Pick | scripts/inject_parking_stops.py:38-42 | the selector returns an id of the catalog, and fails (IndexError) exactly when the catalog is empty |
| Selector.ChooseWeighted | scripts/generate_parking_routes.py:84-92 | the loop as written consumes one uniform(0, total) draw and returns the item the prefix-sum rule picks for that draw |
| Selector.FallbackNeedsDrawAboveTotal | scripts/inject_parking_stops.py:35-42 | some item qualifies iff r <= total, so the fallback to the last item fires only for a draw above the total |
| Selector.ChosenIntervalContainsDraw | scripts/inject_parking_stops.py:35-41 | for 0 < r <= total the chosen item i satisfies PrefixSum(i) < r <= PrefixSum(i+1) |
| Selector.DrawInIntervalSelects | scripts/inject_parking_stops.py:35-41 | conversely, a draw in item i's interval of length weight[i] selects item i |
| Selector.ZeroWeightNeverChosen | scripts/inject_parking_stops.py:35-41 | for a positive draw, the chosen facility has a positive weight |
| Injector.VisitVehicle | scripts/inject_parking_stops.py:59-72 | a vehicle with a stop is returned unchanged with the state untouched; otherwise one random() draw decides; a failed draw leaves the vehicle unchanged after exactly that one draw; a successful one appends the stop for the next uniform and randint draws, in that order, or fails when the catalog is empty or dur_min > dur_max |
| Injector.VisitSound | scripts/inject_parking_stops.py:63-72 | a visited vehicle is either unchanged or gains exactly one last child: a stop with only parkingArea and duration, naming a catalog id, with a duration in [dur_min, dur_max] |
| Injector.InjectAll | scripts/inject_parking_stops.py:57-72 | the loop writes one vehicle per input vehicle, fails only with EmptyParkingIdList or EmptyDurationRange, and cannot fail with a non-empty catalog and dur_min <= dur_max |
| Injector.InjectAllSound | scripts/inject_parking_stops.py:57-72 | every vehicle is written unchanged or with exactly one valid stop appended, and injected equals the number of vehicles that changed |
| Injector.InjectAppend | scripts/inject_parking_stops.py:47-72 | one shared generator: a run over a + b is a run over a followed by a run over b from the state a left |
| Injector.SkipInsensitive | scripts/inject_parking_stops.py:59-61 | inserting a vehicle that has a stop anywhere leaves it as it was, and leaves every other vehicle, the count and the final state as without it |
| Injector.AllStoppedIsUntouched | scripts/inject_parking_stops.py:59-61 | a document whose vehicles all have stops is written back unchanged, with 0 injected and the generator not advanced |
| Injector.FullRateInjectsEveryEligible | scripts/inject_parking_stops.py:63-72 | with rate >= 1, a non-empty catalog and a valid range, the number injected equals the number of vehicles without a stop |
| Injector.NegativeRateInjectsNothing | scripts/inject_parking_stops.py:63 | with rate < 0 the document is written back unchanged and nothing is injected |
| StandaloneInjector.InjectStops | scripts/inject_parking_stops.py:45-81 | fails with NoVehicleElements exactly on an empty vehicle list; otherwise returns (len(vehicles), injected), where injected is the number of changed vehicles, at most the total, and every vehicle is unchanged or gained one valid stop |
| StandaloneInjector.Run | scripts/inject_parking_stops.py:100-111 | the catalog is loaded first, so an id-less additional file fails with NoParkingAreaElements whatever the route file; otherwise it injects against the loaded catalog |
| StandaloneInjector.InjectedStopsNameDeclaredAreas | scripts/inject_parking_stops.py:64-71 | every written stop names the id of some parkingArea element of the additional file |
| StandaloneInjector.TenVehicleScenario | scripts/inject_parking_stops.py:57-81 | ten stop-less vehicles, facilities X and Y, rate 1.0 and duration 100..100 give ten stops, each at X or Y and lasting 100, for any generator |
| ParkingRoutesPipeline.ScenarioConfig | scripts/generate_parking_routes.py:179-189 | each scenario runs with a rate in [0, 1], dur_min <= dur_max, and a seed offset from the base by index * 1000 |
| ParkingRoutesPipeline.InjectParkingStops | scripts/generate_parking_routes.py:95-125 | a route file without vehicles is written back with no vehicle changed and 0 injected, and does not fail; otherwise the same guarantees as the standalone copy |
| ParkingRoutesPipeline.CopiesAgree | scripts/generate_parking_routes.py:102-116 | on a non-empty route file both copies succeed or fail together, with the same document, count and error |
| ParkingRoutesPipeline.RunScenarios | scripts/generate_parking_routes.py:143-190 | scenario i's output is exactly a single injector run with seed base + i * 1000; a failure ends the run and comes from some scenario; with a non-empty catalog nothing fails |
| ParkingRoutesPipeline.GenerateParkingRoutes | scripts/generate_parking_routes.py:132-192 | an id-less catalog fails before any scenario; otherwise all three scenarios succeed, each equal to its independent single run |
| ParkingRoutesPipeline.ScenarioSeedsDistinct | scripts/generate_parking_routes.py:179 | for every base seed, the three scenario seeds are pairwise distinct |
| ParkingRoutesPipeline.DefaultScenarioSeeds | scripts/generate_parking_routes.py:143 | in table order busy, default and quiet get seeds 42, 1042 and 2042 from the default base 42 |
| ParkingLot.SumCounts | scripts/data/parking_lot.py:13 | the sum over an empty list is 0, and it bounds every area's count |
| ParkingLot.TotalOccupancy | scripts/data/parking_lot.py:11-13 | the occupancy is 0 for a lot without areas, and at least the count of each of its areas |
| ParkingLot.SumCountsAppend | scripts/data/parking_lot.py:13 | the occupancy of a split area list is the sum of the parts |
| ParkingLot.SumCountsMonotone | scripts/data/parking_lot.py:13 | pointwise larger counts give a larger or equal occupancy |
| ParkingLot.Availability | scripts/data/parking_lot.py:15-17 | needs a capacity; the result is never negative, is at least capacity - occupancy, and is either 0 or exactly capacity - occupancy |
| ParkingLot.AvailabilityAntitone | scripts/data/parking_lot.py:15-17 | more vehicles in every area never gives more free spaces |
| ParkingLot.AvailabilityComplementsOccupancy | scripts/data/parking_lot.py:17 | free plus occupied equals the capacity while the lot is not over-full, and free is 0 otherwise |

## Left out

- XML parsing and serialisation are not modelled. This covers `ET.parse`, `findall`, `ET.indent`, `tree.write` and the XML declaration. Documents are taken as already-parsed sequences, and the attribute order of a written element is not modelled.
- The Mersenne Twister and float arithmetic are not modelled. Draws are abstract values with their documented ranges, and `real` stands for `float`. Seed-exact reproduction of Python's stream, and the rounding that could make `upto >= r` differ from exact arithmetic at the boundary, are out of reach.
- The statistical promises are not modelled: the injection rate over many seeds, and weight-proportional choice over many draws. In their place, the model proves the exact interval rule behind them (`Selector.ChosenIntervalContainsDraw` and `Selector.DrawInIntervalSelects`) and the rate extremes.
- `zip` truncation on `ids` and `weights` of unequal length is not modelled, because the catalog is one sequence of pairs. The loader never produces unequal lists.
- `str.isdigit` accepting non-ASCII digits is not modelled. Only ASCII `'0'..'9'` counts as a digit.
- Argument parsing, `print` reporting and the percentage line of the standalone `main` are not modelled. They are output only.
- Shell orchestration is not modelled. This covers `run_command`, `ensure_dirs`, the `randomTrips.py` and `duarouter` command strings, and the `period` and `SIM_END` values used only in those strings. These are external processes. The route files they produce are inputs to `ParkingRoutesPipeline.GenerateParkingRoutes`.
- `scripts/simulate_parking.py`, `scripts/generate_traffic.py` and `scripts/generate_parking.py` are not modelled. They are Firebase I/O, TraCI simulation stepping and external-tool invocation.
- `traci.parkingarea.getVehicleCount` is not modelled. It is a foreign simulator call and becomes the `count` parameter of `ParkingLot.TotalOccupancy`.
- The frozen dataclass needs no member. `ParkingLot.Lot` is an immutable datatype, so `lot_id`, `parking_area_ids` and `total_capacity` cannot change.
- A malformed input document is not modelled, because parsing is not modelled.
- Exception messages are not modelled. `Common.Error` names only the kind of failure, so the two copies' different `ValueError` texts for a catalog without parking areas are the same error here.
- ParkingRoutesPipeline.ScenarioSeedsDistinct is about seed values only. Python seeds an integer by its absolute value, so two distinct seeds such as -1000 and 1000 give the same stream. The abstract `seed` step does not model this, and the lemma does not claim distinct streams.
