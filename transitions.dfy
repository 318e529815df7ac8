/** The state transition of every event of the main loop of `src/main.rs`,
    stated on values.  A `WorldState` is a snapshot of the mutable world
    (the registries and the queue); each `...Effect` predicate relates the
    world before a handler runs (the event already taken off the queue) to
    the world after it, and `StepEffect` picks the one an event calls for.
    `Engine.Simulation` proves its handlers, its `Step` and its `Run`
    against these relations. */
module Transitions {
  import opened DateTimes
  import opened Persons
  import opened Vehicles
  import Reports
  import opened Patrols
  import opened Events
  import opened World

  /** 10 minutes */
  const MinSecondsBetweenReports: int := 600
  /** 40 minutes */
  const MaxSecondsBetweenReports: int := 2400
  /** 5 minutes */
  const MinReportToSendingSeconds: int := 300
  /** 15 minutes */
  const MaxReportToSendingSeconds: int := 900
  const TargetPolicemenCount: nat := 2
  /** A resigned policeman is replaced a week later. */
  const ReplacementDelayDays: nat := 7

  /** What handling one event leads to: go on, stop the loop (a terminal
      snapshot), or abort the process (a Rust panic). */
  datatype Outcome = Continue | Halt | Panic(reason: string)

  /** The random choices one step may consume.  `InRange` holds the ranges
      that do not depend on the state; `Fits` adds those that do. */
  datatype Choices = Choices(
    policeman: PolicemanDraws,
    report: Reports.ReportDraws,
    sendDelay: int,
    twoPatrols: bool,
    nextReportDelay: int,
    first: nat,
    second: nat,
    vehicle: nat,
    arriving: int,
    processing: int,
    retryDelay: int,
    renamed: nat,
    newLastName: string)
  {
    predicate InRange() {
      && policeman.InRange()
      && report.reporter.InRange()
      && MinReportToSendingSeconds <= sendDelay < MaxReportToSendingSeconds
      && MinSecondsBetweenReports <= nextReportDelay < MaxSecondsBetweenReports
      && MinSendingToArrivalSeconds <= arriving < MaxSendingToArrivalSeconds
      && MinArrivalToFinishSeconds <= processing < MaxArrivalToFinishSeconds
      && MinReportToSendingSeconds <= retryDelay < MaxReportToSendingSeconds
    }
  }

  /** `r` takes every draw from `c` except the indices into pools that
      depend on the state: the place, the two policemen, the vehicle and the
      policeman to rename. */
  predicate SameDraws(r: Choices, c: Choices)
  {
    && r.policeman == c.policeman
    && r.report.reportType == c.report.reportType && r.report.reporter == c.report.reporter
    && r.sendDelay == c.sendDelay && r.twoPatrols == c.twoPatrols && r.nextReportDelay == c.nextReportDelay
    && r.arriving == c.arriving && r.processing == c.processing && r.retryDelay == c.retryDelay
    && r.newLastName == c.newLastName
  }

  // ---------------------------------------------------------------------
  // The pools `choose_multiple` and `choose` pick from

  /** The indices of the Available policemen, in registry order (the
      `filter` before `choose_multiple`). */
  function AvailablePolicemen(ps: seq<Policeman>): (r: seq<nat>)
    ensures forall i: nat :: i in r <==> i < |ps| && ps[i].state == PolicemanState.Available
  {
    if |ps| == 0 then []
    else
      var last := |ps| - 1;
      AvailablePolicemen(ps[..last]) + (if ps[last].state == PolicemanState.Available then [last] else [])
  }

  /** The Available indices come in increasing order, so distinct positions
      name distinct policemen. */
  lemma {:induction false} AvailablePolicemenIncreasing(ps: seq<Policeman>)
    ensures forall a, b :: 0 <= a < b < |AvailablePolicemen(ps)| ==> AvailablePolicemen(ps)[a] < AvailablePolicemen(ps)[b]
  {
    if |ps| > 0 {
      var last := |ps| - 1;
      var earlier := AvailablePolicemen(ps[..last]);
      AvailablePolicemenIncreasing(ps[..last]);
      forall a | 0 <= a < |earlier| ensures earlier[a] < last { assert earlier[a] in earlier; }
    }
  }

  /** The indices of the Available vehicles, in registry order (the
      `filter` before `choose`). */
  function AvailableVehicles(vs: seq<Vehicle>): (r: seq<nat>)
    ensures forall i: nat :: i in r <==> i < |vs| && vs[i].state == VehicleState.Available
  {
    if |vs| == 0 then []
    else
      var last := |vs| - 1;
      AvailableVehicles(vs[..last]) + (if vs[last].state == VehicleState.Available then [last] else [])
  }

  /** `choose_multiple(2)` returns two policemen exactly when two distinct
      policemen are Available. */
  lemma TwoAvailablePolicemen(ps: seq<Policeman>)
    ensures |AvailablePolicemen(ps)| >= 2 <==>
      exists i, j :: 0 <= i < j < |ps| && ps[i].state == PolicemanState.Available && ps[j].state == PolicemanState.Available
  {
    var avail := AvailablePolicemen(ps);
    if |avail| >= 2 {
      AvailablePolicemenIncreasing(ps);
      assert avail[0] in avail && avail[1] in avail;
      assert 0 <= avail[0] < avail[1] < |ps|;
    }
    if i, j :| 0 <= i < j < |ps| && ps[i].state == PolicemanState.Available && ps[j].state == PolicemanState.Available {
      assert i in avail && j in avail;
      var a :| 0 <= a < |avail| && avail[a] == i;
      var b :| 0 <= b < |avail| && avail[b] == j;
      assert a != b;
    }
  }

  /** `choose` returns a vehicle exactly when one is Available. */
  lemma SomeVehicleAvailable(vs: seq<Vehicle>)
    ensures |AvailableVehicles(vs)| >= 1 <==> exists v :: 0 <= v < |vs| && vs[v].state == VehicleState.Available
  {
    var cars := AvailableVehicles(vs);
    if |cars| >= 1 {
      assert cars[0] in cars;
    }
  }

  /** A patrol can be sent: two distinct policemen and one vehicle are
      Available. */
  predicate CanDispatch(ps: seq<Policeman>, vs: seq<Vehicle>)
    ensures CanDispatch(ps, vs) <==>
      && (exists i, j :: 0 <= i < j < |ps| && ps[i].state == PolicemanState.Available && ps[j].state == PolicemanState.Available)
      && (exists v :: 0 <= v < |vs| && vs[v].state == VehicleState.Available)
  {
    TwoAvailablePolicemen(ps);
    SomeVehicleAvailable(vs);
    |AvailablePolicemen(ps)| >= TargetPolicemenCount && |AvailableVehicles(vs)| >= 1
  }
  /** The choices of a step fit the world: a place index when places
      exist, two distinct Available policemen when there are two, an
      Available vehicle when there is one, an existing policeman to rename
      when there is one. */
  predicate Fits(placeCount: nat, ps: seq<Policeman>, vs: seq<Vehicle>, c: Choices)
  {
    && c.InRange()
    && (placeCount > 0 ==> c.report.placeIndex < placeCount)
    && (|AvailablePolicemen(ps)| >= TargetPolicemenCount ==>
          && c.first < |ps| && c.second < |ps| && c.first != c.second
          && ps[c.first].state == PolicemanState.Available
          && ps[c.second].state == PolicemanState.Available)
    && (|AvailableVehicles(vs)| >= 1 ==>
          c.vehicle < |vs| && vs[c.vehicle].state == VehicleState.Available)
    && (|ps| > 0 ==> c.renamed < |ps|)
  }

  /** The second of two picks from a pool of `n`, taken among the `n - 1`
      indices after the first one (cyclically), differs from the first. */
  lemma SecondPickDiffers(n: nat, a: nat, s: nat)
    requires 2 <= n && a < n
    ensures (a + 1 + s % (n - 1)) % n != a
  {
    var x := a + 1 + s % (n - 1);
    assert a < x < a + n;
    if x < n {
      assert x % n == x;
    } else {
      assert x % n == x - n;
    }
  }

  /** The choices the raw draws `c` stand for in a world with `placeCount`
      places, policemen `ps` and vehicles `vs`: each state-dependent pick is
      taken the way `choose`, `choose_multiple` and `gen_range` take it, as
      an index into the non-empty pool, reduced modulo its size.  The
      result fits the world and keeps every other draw. */
  function Resolve(placeCount: nat, ps: seq<Policeman>, vs: seq<Vehicle>, c: Choices): (r: Choices)
    requires c.InRange()
    ensures Fits(placeCount, ps, vs, r)
    ensures SameDraws(r, c)
  {
    var avail := AvailablePolicemen(ps);
    var cars := AvailableVehicles(vs);
    var n := |avail|;
    var a := if n >= 2 then c.first % n else 0;
    var b := if n >= 2 then (a + 1 + c.second % (n - 1)) % n else 0;
    assert n >= 2 ==> a != b && avail[a] != avail[b] by {
      if n >= 2 {
        SecondPickDiffers(n, a, c.second);
        AvailablePolicemenIncreasing(ps);
        assert a < b ==> avail[a] < avail[b];
        assert b < a ==> avail[b] < avail[a];
      }
    }
    assert n >= 2 ==> avail[a] in avail && avail[b] in avail;
    assert |cars| > 0 ==> cars[c.vehicle % |cars|] in cars;
    c.(report := c.report.(placeIndex := if placeCount > 0 then c.report.placeIndex % placeCount else c.report.placeIndex),
       first := if n >= 2 then avail[a] else c.first,
       second := if n >= 2 then avail[b] else c.second,
       vehicle := if |cars| > 0 then cars[c.vehicle % |cars|] else c.vehicle,
       renamed := if |ps| > 0 then c.renamed % |ps| else c.renamed)
  }

  /** The choices `c` of a step taken in world `s` are the draw `draw`
      resolved against that world. */
  predicate DrawnAt(placeCount: nat, s: WorldState, c: Choices, draw: Choices)
  {
    draw.InRange() && c == Resolve(placeCount, s.policemen, s.vehicles, draw)
  }

  /** The choices of a run were made from its draws, one draw per step, each
      resolved against the world the step started from. */
  predicate FromDraws(placeCount: nat, states: seq<WorldState>, used: seq<Choices>, draws: seq<Choices>)
  {
    && |used| <= |draws| && |used| < |states|
    && forall k {:trigger DrawnAt(placeCount, states[k], used[k], draws[k])} :: 0 <= k < |used| ==>
         DrawnAt(placeCount, states[k], used[k], draws[k])
  }

  /** Helper for `Run`: choices made from the next draw in the last world
      extend a run's choices. */
  lemma FromDrawsExtend(placeCount: nat, states: seq<WorldState>, used: seq<Choices>, draws: seq<Choices>,
                        c: Choices, s': WorldState)
    requires FromDraws(placeCount, states, used, draws) && |used| < |draws| && |states| == |used| + 1
    requires DrawnAt(placeCount, states[|used|], c, draws[|used|])
    ensures FromDraws(placeCount, states + [s'], used + [c], draws)
  {
    forall k | 0 <= k < |used| + 1
      ensures DrawnAt(placeCount, (states + [s'])[k], (used + [c])[k], draws[k])
    {
      assert (states + [s'])[k] == states[k];
      if k < |used| {
        assert DrawnAt(placeCount, states[k], used[k], draws[k]);
      }
    }
  }


  // ---------------------------------------------------------------------
  // The effect of each event

  /** The mutable part of the world: the registries and the queue. */
  datatype WorldState = WorldState(
    policemen: seq<Policeman>,
    vehicles: seq<Vehicle>,
    reports: seq<Reports.Report>,
    patrols: seq<Patrol>,
    events: multiset<Event>)

  /** `PolicemanEmployment` at `t`: a just-employed policeman with the next
      id joins the registry and their resignation is queued. */
  predicate EmploymentEffect(s: WorldState, s': WorldState, t: Time, d: PolicemanDraws)
    requires d.InRange()
  {
    var p := GenerateJustEmployedPoliceman(d, t, |s.policemen|);
    s' == s.(policemen := s.policemen + [p], events := s.events + multiset{FromPolicemanResignation(p)})
  }

  /** `PolicemanResignation` at `t`: only a hire a week later is queued; no
      policeman's state changes. */
  predicate ResignationEffect(s: WorldState, s': WorldState, t: Time)
  {
    s' == s.(events := s.events + multiset{Event(AddDays(t, ReplacementDelayDays), PolicemanEmployment)})
  }

  /** `Report` at `t`: with no places `gen_range` panics and nothing
      changes; otherwise the report with the next id is filed, one or two
      `SendPatrol` events for it are queued `sendDelay` later and the next
      report `nextReportDelay` later. */
  predicate ReportEffect(placeCount: nat, s: WorldState, s': WorldState, t: Time, d: Reports.ReportDraws,
                         sendDelay: int, twoPatrols: bool, nextReportDelay: int, outcome: Outcome)
    requires d.reporter.InRange()
  {
    if placeCount == 0 then outcome.Panic? && s' == s
    else
      var id := |s.reports|;
      && d.placeIndex < placeCount
      && outcome == Continue
      && s' == s.(reports := s.reports + [Reports.GenerateReport(d, t, placeCount, id).value],
                  events := s.events
                    + multiset{}[Event(t + sendDelay, SendPatrol(id)) := if twoPatrols then 2 else 1]
                    + multiset{Event(t + nextReportDelay, Report)})
  }

  /** `SendPatrol(reportId)` at `t`: without two Available policemen and an
      Available vehicle, only the same request is queued again `retryDelay`
      later; otherwise two distinct Available policemen `first` and
      `second` and an Available vehicle `vehicle` become Occupied, the patrol with the next id is sent at `t` and its
      `FinishedPatrol` is queued at its finish time. */
  predicate SendPatrolEffect(s: WorldState, s': WorldState, t: Time, reportId: nat, first: nat, second: nat,
                             vehicle: nat, arriving: int, processing: int, retryDelay: int)
    requires MinSendingToArrivalSeconds <= arriving < MaxSendingToArrivalSeconds
    requires MinArrivalToFinishSeconds <= processing < MaxArrivalToFinishSeconds
  {
    if !CanDispatch(s.policemen, s.vehicles) then
      s' == s.(events := s.events + multiset{Event(t + retryDelay, SendPatrol(reportId))})
    else
      var id := |s.patrols|;
      var p := GeneratePatrol(reportId, [first, second], vehicle, t, id, arriving, processing);
      && first < |s.policemen| && second < |s.policemen| && vehicle < |s.vehicles|
      && first != second
      && s.policemen[first].state == PolicemanState.Available
      && s.policemen[second].state == PolicemanState.Available
      && s.vehicles[vehicle].state == VehicleState.Available
      && s' == s.(policemen := s.policemen[first := s.policemen[first].(state := PolicemanState.Occupied)]
                                          [second := s.policemen[second].(state := PolicemanState.Occupied)],
                  vehicles := s.vehicles[vehicle := s.vehicles[vehicle].(state := VehicleState.Occupied)],
                  patrols := s.patrols + [p],
                  events := s.events + multiset{Event(p.finishTime, FinishedPatrol(id))})
  }

  /** `FinishedPatrol(k)` at `t`: an id naming no patrol panics and
      nothing changes; otherwise the patrol's policemen are released
      (`Released`), its vehicle becomes Available, and nothing else
      changes. */
  predicate FinishedPatrolEffect(s: WorldState, s': WorldState, t: Time, k: nat, outcome: Outcome)
  {
    if k >= |s.patrols| then outcome.Panic? && s' == s
    else
      var p := s.patrols[k];
      && outcome == Continue
      && p.vehicleId < |s.vehicles|
      && s' == s.(policemen := s'.policemen,
                  vehicles := s.vehicles[p.vehicleId := s.vehicles[p.vehicleId].(state := VehicleState.Available)])
      && |s'.policemen| == |s.policemen|
      && forall i :: 0 <= i < |s.policemen| ==>
           s'.policemen[i] == if i in p.policemenIds then Released(s.policemen[i], t) else s.policemen[i]
  }

  /** `PolicemanLastNameChange`: with no policemen `choose` yields `None`
      and the `unwrap` panics, changing nothing; otherwise only policeman
      `renamed` gets the new surname. */
  predicate LastNameChangeEffect(s: WorldState, s': WorldState, renamed: nat, newLastName: string, outcome: Outcome)
  {
    if |s.policemen| == 0 then outcome.Panic? && s' == s
    else
      && renamed < |s.policemen|
      && outcome == Continue
      && s' == s.(policemen := s.policemen[renamed := s.policemen[renamed].(
                     person := ChangeSurname(s.policemen[renamed].person, newLastName))])
  }

  /** The `match` of the main loop: the handler `e.action` calls for, run on
      the world `s` that `e` has already left.  A snapshot changes nothing
      and halts exactly when it is terminal. */
  predicate HandlerEffect(placeCount: nat, s: WorldState, s': WorldState, e: Event, c: Choices, outcome: Outcome)
    requires c.InRange()
  {
    match e.action
    case PolicemanEmployment =>
      outcome == Continue && EmploymentEffect(s, s', e.time, c.policeman)
    case PolicemanResignation =>
      outcome == Continue && ResignationEffect(s, s', e.time)
    case Report =>
      ReportEffect(placeCount, s, s', e.time, c.report, c.sendDelay, c.twoPatrols, c.nextReportDelay, outcome)
    case SendPatrol(reportId) =>
      outcome == Continue
      && SendPatrolEffect(s, s', e.time, reportId, c.first, c.second, c.vehicle, c.arriving, c.processing, c.retryDelay)
    case FinishedPatrol(k) =>
      FinishedPatrolEffect(s, s', e.time, k, outcome)
    case Snapshot(_, isTerminal) =>
      outcome == (if isTerminal then Halt else Continue) && s' == s
    case PolicemanLastNameChange =>
      LastNameChangeEffect(s, s', c.renamed, c.newLastName, outcome)
  }

  /** One iteration of the main loop: `e` leaves the queue, then the
      handler its action calls for runs. */
  predicate StepEffect(placeCount: nat, s: WorldState, s': WorldState, e: Event, c: Choices, outcome: Outcome)
    requires c.InRange()
  {
    HandlerEffect(placeCount, s.(events := s.events - multiset{e}), s', e, c, outcome)
  }


  /** The event that ends the main loop. */
  predicate IsTerminal(e: Event)
  {
    e.action.Snapshot? && e.action.isTerminal
  }

  /** Step `k` of a run: `processed[k]` is an earliest event of the queue
      of `states[k]`, and `states[k + 1]` follows from it by `StepEffect`
      with the choices `used[k]`; every step but the last continued, and
      the last one ended with `last`. */
  predicate StepAt(placeCount: nat, states: seq<WorldState>, processed: seq<Event>, used: seq<Choices>, last: Outcome, k: nat)
    requires |states| == |processed| + 1 && |used| == |processed| && k < |processed|
  {
    && Earliest(states[k].events, processed[k])
    && used[k].InRange()
    && StepEffect(placeCount, states[k], states[k + 1], processed[k], used[k],
                  if k == |processed| - 1 then last else Continue)
  }

  /** A run of the main loop: `states[k]` is the world before the `k`-th
      processed event and every step is a `StepAt`. */
  predicate Trace(placeCount: nat, states: seq<WorldState>, processed: seq<Event>, used: seq<Choices>, last: Outcome)
  {
    && |states| == |processed| + 1
    && |used| == |processed|
    && forall k: nat :: k < |processed| ==> StepAt(placeCount, states, processed, used, last, k)
  }

  /** A run that has only continued so far extends by one step. */
  lemma TraceExtend(placeCount: nat, states: seq<WorldState>, processed: seq<Event>, used: seq<Choices>,
                    e: Event, c: Choices, outcome: Outcome, s': WorldState)
    requires Trace(placeCount, states, processed, used, Continue)
    requires Earliest(states[|states| - 1].events, e) && c.InRange()
    requires StepEffect(placeCount, states[|states| - 1], s', e, c, outcome)
    ensures Trace(placeCount, states + [s'], processed + [e], used + [c], outcome)
  {
    var states', processed', used' := states + [s'], processed + [e], used + [c];
    forall k: nat | k < |processed'|
      ensures StepAt(placeCount, states', processed', used', outcome, k)
    {
      if k < |processed| {
        assert StepAt(placeCount, states, processed, used, Continue, k);
        assert states'[k] == states[k] && states'[k + 1] == states[k + 1];
      }
    }
  }
}
