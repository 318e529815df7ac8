# PG_HD_Data_Generator in Dafny

PG_HD_Data_Generator produces a synthetic police-operations dataset by running
a discrete-event simulation. It reads places, hires 80 policemen and generates
60 vehicles. It then processes a time-ordered queue of events, starting on
2015-06-01 and running until the terminal snapshot on 2017-06-10:

- resignations, and the hires that replace them a week later;
- incident reports every 10 to 40 minutes;
- patrols sent to each report with two Available policemen and an Available
  vehicle, and released when they finish;
- twenty surname changes;
- two snapshots, the second of which stops the loop.

This project models that engine and the generators it calls, and proves
properties of them.

- `Engine.Simulation` is the mutable world of `src/main.rs`. Its fields are the
  places, the registries of policemen, vehicles, reports and patrols, and the
  queue of pending events, kept as a multiset. One method handles each kind of
  event, and `Dispatch` picks the one for an event's kind. `Step` takes an
  earliest event off the queue and dispatches it. `Run` is the main loop; it
  records the run as a sequence of worlds, one step apart, whose steps are
  stated in `Transitions`. `Bootstrap` is the start of `main`.
- `Transitions` states each handler's effect as a relation between the world
  before and after, and what one step and a whole run are.
- `World` states the invariant that every handler keeps:
  - ids are indices;
  - patrols are well formed;
  - nothing pending is in the past;
  - each open patrol has exactly one pending `FinishedPatrol`;
  - the crew and vehicle of every open patrol are Occupied;
  - no policeman or vehicle is in two open patrols.

  `World` also holds one preservation lemma per kind of state change.
- `Events` models the event type. Its ordering compares times only.
- `Persons`, `Vehicles`, `Patrols` and `Reports` are the generators.
  Randomness enters them as explicit "draws" arguments whose ranges are stated
  by `InRange` predicates.
- `Places`, `StringOccurrences` and `Text` read the comma-separated data tables.
- `DateTimes` treats a Utc date as whole seconds since the epoch. A day is
  always 86400 seconds.

Where the source panics on an empty `gen_range`, an `unwrap` of `choose` on
an empty registry, an unknown patrol id, a `usize` underflow or a failed `u32`
parse, the model returns `None`, `Err` or `Outcome.Panic`. Two panics are not
modelled as such: the `get_mut(..).unwrap()` calls on a finished patrol's crew
and vehicle (src/main.rs:235 and 243). `FinishedPatrolEffect` requires the
vehicle id to be in range and skips crew ids that are not. Neither case arises
in a world that satisfies `World.Consistent`, where every patrol's crew and
vehicle ids are in range. Date arithmetic is plain addition; its overflow
panics are listed under "Left out".

## Model

| member | source | states |
|---|---|---|
| DateTimes.AddDays | src/person.rs:158-160 | adding `days` days moves a Utc time exactly `days * 86400` seconds later |
| DateTimes.SubDays | src/person.rs:147-149 | subtracting days is undone by adding them back |
| DateTimes.StartOfDay | src/person.rs:134-140 | the result is midnight of the day that holds `t`: a multiple of 86400, at most `t`, and less than a day before it |
| Text.JoinSplit | src/place.rs:20-21 | `split` loses no character: joining the pieces with the separator gives the text back |
| Text.SplitJoin | src/place.rs:20-21 | pieces free of the separator are recovered by splitting their join |
| Text.SplitPieces | src/place.rs:23 | no piece contains the separator, and there is one piece more than there are separators |
| Text.SecondFieldExists | src/place.rs:23-29 | a line has a second comma-separated field exactly when it contains a comma |
| Text.Split | src/place.rs:21-23 | `str::split`: there is always at least one piece, and a string without the separator is its own single piece |
| Text.Rows | src/place.rs:18-36 | the rows of a table text are exactly the field lists of its lines that contain a comma: each such line gives a row, and every row comes from such a line |
| Text.RowsOf | src/string_occurrences.rs:19-36 | for text cut into lines, no more rows than lines, each with at least two fields |
| Text.RowsOfKeeps | src/string_occurrences.rs:19-34 | every line that contains a comma gives its fields as a row |
| Text.RowsOfOnlyFields | src/place.rs:18-29 | every row is the field list of some line that contains a comma |
| Text.RowsOfSnoc | src/string_occurrences.rs:21-28 | a further line without a comma adds no row; one with a comma adds its split fields |
| Places.CreatePlacesFromStr | src/place.rs:18-36 | one place per line that has a comma, in line order, with ids 0, 1, 2, ... and city and street taken from the first two fields |
| StringOccurrences.ParseU32 | src/string_occurrences.rs:30 | an accepted string is an optional `+` followed by digits, and its value fits a `u32` |
| StringOccurrences.ParseDecimal | src/string_occurrences.rs:30 | every `u32` written in decimal parses back to itself |
| StringOccurrences.ParseRows | src/string_occurrences.rs:19-36 | one entry per row with the row's text and parsed count; it fails exactly when some count does not parse, with the first bad field as the error |
| StringOccurrences.FromStr | src/string_occurrences.rs:18-44 | the table holds the parsed rows and their total; it is refused on a parse failure or when the `u32` sum would overflow |
| StringOccurrences.SumBounds | src/string_occurrences.rs:38 | `Sum`, the total of the counts: no single count exceeds it, and it is zero exactly when every count is |
| StringOccurrences.SumAppend | src/string_occurrences.rs:38 | the total of the entries grows by each appended entry's count |
| StringOccurrences.DrawnIndexIsFirst | src/string_occurrences.rs:47-54 | the drawn index, as written, is the first one whose running total is at least the draw, and it exists whenever the draw is below the total |
| StringOccurrences.DrawnIndexUnique | src/string_occurrences.rs:49-53 | no other index satisfies that characterisation |
| StringOccurrences.GetRandomEntry | src/string_occurrences.rs:46-57 | the loop returns the entry at the as-written drawn index; with a total of 0 the `%` panics (`None`) |
| StringOccurrences.UnitWeightsNeverDrawSecond | src/string_occurrences.rs:51 | with two entries of count 1, the second entry is never drawn |
| StringOccurrences.WeightedIndexIsProportional | src/string_occurrences.rs:46-57 | with the corrected `<` comparison, entry `i` is drawn for exactly the values in `[Sum(es[..i]), Sum(es[..i+1]))`, i.e. with its own count of the total |
| StringOccurrences.GetWeightedEntry | src/string_occurrences.rs:46-57 | the loop with the corrected comparison returns the entry at `WeightedIndex`, which always exists when the total is positive |
| Persons.Pesel | src/person.rs:175-184 | the reference identifier: below 10^11 (11 digits counting leading zeros), at least 10^10 once the year digits are 10 or more, and its last five digits are the suffix |
| Persons.BirthDateToPesel | src/person.rs:175-184 | the accumulator yields the identifier of year digits, month, day and suffix, and it never leaves `u64` |
| Persons.YearDigits | src/person.rs:176 | `year as u64 % 100`: a two-digit number, equal to `year % 100` for non-negative years |
| Persons.DecodeEncodePesel | src/person.rs:175-184 | the identifier decodes back to its year digits, month, day and suffix |
| Persons.PeselInjective | src/person.rs:175-184 | two identifiers are equal only when their year digits, month, day and suffix are equal |
| Persons.GenerateBirthDate | src/person.rs:129-141 | the birth date is midnight of a day between 1970-01-01 and 1995-12-01, no later than the drawn time |
| Persons.BirthDateFromEmploymentDate | src/person.rs:143-152 | the birth date is 7670 to 12782 days before employment, and adding those days gives the employment date back |
| Persons.EmploymentDateFromBirthDate | src/person.rs:154-163 | the employment date is 7670 to 12782 days after birth, and subtracting those days gives the birth date back |
| Persons.ResignationDateFromEmploymentDate | src/person.rs:165-173 | resignation is 365 to 7304 days after employment, so strictly later |
| Persons.GeneratePerson | src/person.rs:67-78 | the id and names are stored, the birth date is a midnight in range, the phone number has nine digits, and the identifier decodes to the drawn calendar date and suffix |
| Persons.ChangeSurname | src/person.rs:80-87 | only the surname changes |
| Persons.GeneratePoliceman | src/person.rs:91-106 | the policeman is Available and born before employment, which comes before resignation, at the drawn day offsets; the service number has six digits |
| Persons.GenerateJustEmployedPoliceman | src/person.rs:108-126 | employed on the given date, born the drawn number of days earlier, resigning the drawn number of days later; the person is the generated one with only the birth date patched |
| Patrols.GeneratePatrol | src/patrol.rs:22-51 | report, crew, vehicle, id and sending time are stored; arrival and finish follow at the drawn delays, so a patrol lasts 10 to 40 minutes |
| Vehicles.Plate | src/vehicle.rs:54-68 | the reference plate: it exists exactly for codes of at most 7 characters, and is then 8 characters long, the code and a space followed by alphabet characters |
| Vehicles.GenerateRegistrationPlate | src/vehicle.rs:54-68 | the loop builds exactly `Plate(code, picks)`; a code longer than 7 characters underflows (`None`) |
| Vehicles.GenerateVehicle | src/vehicle.rs:41-51 | an Available five-seat "terenowy" with the given id, drawn model, a year in [2005, 2020) and the generated plate; `None` exactly when the plate panics |
| Reports.GenerateReport | src/report.rs:22-35 | a report exists exactly when there is a place; it has the given id and time, a place id below the count, the drawn type, and a reporter with person id 0 |
| Events.FromPolicemanResignation | src/event.rs:24-29 | the event is a resignation at the policeman's resignment date |
| Events.Cmp | src/event.rs:46-50 | events are ordered by time alone |
| Events.Eq | src/event.rs:32-38 | two events are equal exactly when `cmp` says `Equal`, that is when their times agree, whatever their actions |
| Events.CmpAntisymmetric | src/event.rs:46-50 | swapping the events swaps `Less` and `Greater` and keeps `Equal` |
| Events.PartialCmp | src/event.rs:40-44 | `partial_cmp` is never `None`; it says `Equal` exactly for equal events and `Less` exactly for an earlier time |
| Events.Le | src/event.rs:40-44 | `<=`, derived from `partial_cmp`, holds exactly when the first time is not later |
| Events.LeIsTotalPreorder | src/event.rs:40-50 | `<=` is reflexive, total and transitive, and holds both ways exactly for equal events |
| World.Consistent | src/main.rs:102-277 | the invariant every handler relies on; in particular every open patrol ends no earlier than the clock, and its crew and vehicle are Occupied |
| World.Released | src/main.rs:234-241 | a returning policeman is Available before their resignment date and Resigned from it on; nothing else about them changes |
| World.PushPreservesConsistent | src/main.rs:119-129 | queuing an event that is not a `FinishedPatrol`, no earlier than the clock, keeps the invariant |
| World.PushCopiesPreservesConsistent | src/main.rs:152-157 | queuing `n` copies of such an event keeps the invariant |
| World.ReportKeepsConsistent | src/main.rs:132-139 | appending a report whose id is its index keeps the invariant |
| World.DispatchPreservesConsistent | src/main.rs:190-227 | occupying two distinct Available policemen and an Available vehicle, appending the patrol and queuing its `FinishedPatrol` at its finish time keeps the invariant |
| World.EarliestExists | src/main.rs:102-108 | a non-empty queue has an earliest event |
| World.PopPreservesConsistent | src/main.rs:102-109 | taking an earliest event off the queue keeps the invariant with the clock moved to its time, which is no earlier; a popped `FinishedPatrol` names an existing patrol that is now closed |
| World.FinishPreservesConsistent | src/main.rs:229-244 | releasing a closed patrol's crew and vehicle keeps the invariant |
| World.RelabelPreservesConsistent | src/main.rs:268-275 | changing policemen without changing their ids or states keeps the invariant |
| Transitions.AvailablePolicemen | src/main.rs:172-174 | an index is listed exactly when it names an Available policeman |
| Transitions.AvailablePolicemenIncreasing | src/main.rs:172-175 | the Available indices come in increasing order, so two distinct picks name two distinct policemen |
| Transitions.AvailableVehicles | src/main.rs:190-193 | an index is listed exactly when it names an Available vehicle |
| Transitions.TwoAvailablePolicemen | src/main.rs:172-177 | `choose_multiple` finds two policemen exactly when two distinct Available policemen exist |
| Transitions.SomeVehicleAvailable | src/main.rs:190-195 | `choose` finds a vehicle exactly when an Available vehicle exists |
| Transitions.CanDispatch | src/main.rs:171-197 | a patrol can be sent exactly when two distinct policemen and one vehicle are Available; otherwise the request is re-queued |
| Transitions.SecondPickDiffers | src/main.rs:172-175 | the second of two picks from a pool of two or more differs from the first |
| Transitions.Resolve | src/main.rs:172-175 | the raw draws are reduced to choices that fit the world: a place, two distinct Available policemen, an Available vehicle, an existing policeman to rename; every other draw is kept |
| Transitions.TraceExtend | src/main.rs:102-109 | a run whose steps all continued, followed by one more step from an earliest event of its last state, is again a run |
| Engine.InitialEvents | src/main.rs:68-100 | the initial queue holds 23 events besides one per policeman: every policeman's resignation, the first snapshot at 2016-06-05, the terminal second snapshot at 2017-06-10, the twenty surname changes on the days from 2016-06-05 on, and the first report at the start date |
| Engine.InitialEventsShape | src/main.rs:68-100 | the initial queue holds one resignation per policeman plus 23 events, and exactly one of them is terminal: the second snapshot |
| Engine.GenerateFleet | src/main.rs:62-64 | vehicle `k` is generated with id `k`; the start aborts exactly when one vehicle's plate panics |
| Engine.InitialStateConsistent | src/main.rs:55-100 | the bootstrapped world satisfies the invariant at 2015-06-01 |
| Engine.Simulation.HandlePolicemanEmployment | src/main.rs:112-121 | a just-employed policeman with the next id joins Available and their resignation is queued; the invariant is kept |
| Engine.Simulation.HandlePolicemanResignation | src/main.rs:122-130 | a replacement hire is queued 7 days later and no policeman's state changes; the invariant is kept |
| Engine.Simulation.HandleReport | src/main.rs:131-168 | the report with the next id is filed; one or two `SendPatrol` events are queued 5 to 15 minutes later and the next report 10 to 40 minutes later; with no places it panics and changes nothing |
| Engine.Simulation.HandleSendPatrol | src/main.rs:170-227 | without two Available policemen and an Available vehicle, the same request is re-queued 5 to 15 minutes later; otherwise the crew and vehicle become Occupied, a patrol with the next id is added, and its `FinishedPatrol` is queued at its finish time; the invariant is kept |
| Engine.Simulation.HandleFinishedPatrol | src/main.rs:229-244 | panics exactly for an unknown patrol id; otherwise releases the crew (Available or Resigned by date) and makes the vehicle Available, changing nothing else |
| Engine.Simulation.HandleLastNameChange | src/main.rs:268-275 | panics exactly when there are no policemen; otherwise only the chosen policeman's surname changes |
| Engine.Simulation.Dispatch | src/main.rs:110-276 | the `match` on the action: the handler for the event's kind runs, and the new world is exactly that handler's effect on the old one; it halts exactly on a terminal snapshot, panics exactly on a report with no places or a surname change with no policemen, and a panic changes nothing |
| Engine.Simulation.Step | src/main.rs:102-277 | one loop iteration: the event leaves the queue, the clock moves to its time, and the new world is the effect of the handler for its kind on the queue without it; the invariant is kept; halts and panics as `Dispatch` |
| Engine.Simulation.Advance | src/main.rs:102-109 | pops an earliest pending event and steps on it with the draw resolved against the current world, extending the run by that step and keeping its events in time order |
| Engine.Simulation.Run | src/main.rs:102-277 | the loop as a sequence of worlds: each processed event is an earliest pending event of the world before it, each next world is that event's handler effect, and each step's choices are that step's draw resolved against the world it starts from, so a patrol is only ever sent with two distinct Available policemen and an Available vehicle; events come in time order, only the last can be terminal, and the loop stops on a terminal snapshot, a panic, an empty queue or when the draws run out |
| Engine.Simulation.Start | src/main.rs:65-100 | the registries are stored, reports and patrols are empty, the queue holds the initial events, and the world satisfies the invariant at the start date |
| Engine.Simulation.Bootstrap | src/main.rs:55-100 | places come from the place table, policeman `k` is hired at the start date with id `k`, the fleet is generated, and the queue is seeded; it aborts exactly when the fleet does |

## Left out

- Snapshots: writing the CSV and SQL files (`src/io.rs`) and the `dbg!` output are I/O and are not part of this model. A snapshot event only halts (when terminal) or continues.
- The `include_str!` data files and the `Lazy` statics that parse them are not modelled. The tables enter as arguments (`placesData`), and values drawn from them (names, models, plate codes, report types) are inputs to the generators.
- The random number generator, `gen_range`, `gen_bool(0.1)`, `choose` and `choose_multiple` are not modelled. Their results are arguments with stated ranges: `InRange`, and `Transitions.Resolve`, which reduces a draw modulo the size of the pool it picks from so that it `Fits` the world. The probability distributions are not modelled.
- Calendar conversion from seconds to year, month and day (chrono) is not modelled. `PersonDraws` carries the drawn timestamp together with its calendar date, so the model does not check that they agree.
- Date arithmetic with seconds: the `checked_add_signed(...).unwrap()` calls at src/main.rs:84-85, 143-145, 161-163, 180-182 and 197, and at src/patrol.rs:32-34 and 38-40, are modelled as plain addition. Their overflow panic is not modelled, because every reachable time lies within a few years of 2015.
- `DateTimes.AddDays`: chrono's `checked_add_days(...).unwrap()` overflow panic is not modelled. The dates reachable from the start date are far from chrono's limits.
- Integer widths: `u32` and `u64` are unbounded here, except where the source's width matters: the `u32` total in `StringOccurrences.FromStr` and the `u64` identifier in `Persons.BirthDateToPesel`. Release-build wrap-around is not modelled.
- `Engine.Simulation.Run` processes at most as many events as it is given draws. The source loop is unbounded and stops only at a terminal snapshot or an empty queue.
- `Engine.Simulation.HandleLastNameChange` and `Persons.GenerateJustEmployedPoliceman` are value updates of the registry entry, not updates through a mutable reference. The effect on the registry is the same.
- Plate characters, model names and codes are `char` sequences, and `Vehicles.Plate` counts characters where the source counts bytes. The model assumes the plate codes are ASCII; for a code with multi-byte characters the source's plate would be shorter.

## Findings

| source | as written | input that shows it | evidently intended | confidence | as-written member | corrected member |
|---|---|---|---|---|---|---|
| src/string_occurrences.rs:51 | `get_random_entry` returns the first entry with `value <= counter`. For a draw `value` in `[0, total)`, entry `i` is returned when `value` lies in `(S, S + occurrences]`, where `S` is the running total before entry `i`; the first entry also gets `value == 0`. So the first entry gets one value too many, and the last entry gets one too few. | the table `a,1` / `b,1` has a total of 2, so `value` is 0 or 1; both satisfy `value <= 1` at the first entry, so "b" is never drawn | `value < counter`: entry `i` is drawn for exactly `occurrences` of the `total` values | high (proved; not executed) | StringOccurrences.UnitWeightsNeverDrawSecond | StringOccurrences.GetWeightedEntry |

A second observation, not a finding: `Policeman::generate_just_employed_with_id` (src/person.rs:108-126) patches the birth date but keeps the PESEL computed from the originally drawn date. The two disagree. `Persons.GenerateJustEmployedPoliceman` states this: its person equals the generated one except for `birthDate`.
