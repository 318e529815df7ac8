/** `src/main.rs`: the discrete-event engine.  One mutable world holds the
    registries of policemen, vehicles, reports and patrols and the queue of
    pending events; each step takes an earliest event off the queue, applies
    its state transition and queues the events that follow from it.

    The queue is the multiset of pending events.  The source keeps it in a
    `SortedVec` ordered by time alone, so among events of equal time the one
    at the front depends on where binary-search insertion put it; `Step`
    therefore accepts ANY event of minimal time, which covers every such
    tie-break. */
module Engine {
  import opened Wrappers
  import opened DateTimes
  import opened Persons
  import opened Vehicles
  import Reports
  import opened Patrols
  import opened Places
  import opened Events
  import opened Text
  import opened World
  import opened Transitions

  const PolicemenCount: nat := 80
  const VehiclesCount: nat := 60
  const PolicemanLastNameChangeEventsCount: nat := 20
  /** 2015-06-01 00:00:00 Utc */
  const DataStartDate: Time := 1433116800
  /** 2016-06-05 00:00:00 Utc */
  const SnapshotADate: Time := 1465084800
  /** 2017-06-10 00:00:00 Utc */
  const SnapshotBDate: Time := 1497052800

  /** The initial events: each policeman's resignation, the two snapshots
      (the second one terminal), twenty surname changes one day apart from
      the first snapshot on, and the first report. */
  function InitialEvents(policemen: seq<Policeman>): (r: multiset<Event>)
    ensures |r| == |policemen| + 23
    ensures Event(DataStartDate, Report) in r
    ensures forall k :: 0 <= k < |policemen| ==> FromPolicemanResignation(policemen[k]) in r
    ensures Event(SnapshotADate, Snapshot("SNAPSHOT_A_", false)) in r
    ensures Event(SnapshotBDate, Snapshot("SNAPSHOT_B_", true)) in r
    ensures forall i :: 0 <= i < PolicemanLastNameChangeEventsCount ==>
      Event(AddDays(SnapshotADate, i), PolicemanLastNameChange) in r
  {
    var resignations := Resignations(policemen);
    forall k | 0 <= k < |policemen|
      ensures FromPolicemanResignation(policemen[k]) in multiset(resignations)
    {
      assert resignations[k] in resignations;
    }
    forall i | 0 <= i < PolicemanLastNameChangeEventsCount
      ensures Event(AddDays(SnapshotADate, i), PolicemanLastNameChange) in multiset(SurnameChanges())
    {
      assert SurnameChanges()[i] in SurnameChanges();
    }
    assert Snapshots()[0] in Snapshots() && Snapshots()[1] in Snapshots();
    multiset(resignations) + multiset(Snapshots()) + multiset(SurnameChanges())
    + multiset{Event(DataStartDate, Report)}
  }

  function Resignations(policemen: seq<Policeman>): seq<Event>
  {
    seq(|policemen|, k requires 0 <= k < |policemen| => FromPolicemanResignation(policemen[k]))
  }

  function Snapshots(): seq<Event>
  {
    [Event(SnapshotADate, Snapshot("SNAPSHOT_A_", false)), Event(SnapshotBDate, Snapshot("SNAPSHOT_B_", true))]
  }

  function SurnameChanges(): seq<Event>
  {
    seq(PolicemanLastNameChangeEventsCount,
        i requires 0 <= i < PolicemanLastNameChangeEventsCount => Event(AddDays(SnapshotADate, i), PolicemanLastNameChange))
  }

  /** Exactly one initial event is a terminal snapshot: the second
      snapshot. */
  lemma InitialEventsShape(policemen: seq<Policeman>)
    ensures forall x :: x in InitialEvents(policemen) && x.action.Snapshot? && x.action.isTerminal <==>
      x == Event(SnapshotBDate, Snapshot("SNAPSHOT_B_", true))
  {
    var events := InitialEvents(policemen);
    forall x | x in events && x.action.Snapshot? && x.action.isTerminal
      ensures x == Event(SnapshotBDate, Snapshot("SNAPSHOT_B_", true))
    {
    }
    assert Snapshots()[1] in multiset(Snapshots());
  }

  /** The vehicles of the bootstrap, or `None` if one of them panics. */
  function GenerateFleet(draws: seq<VehicleDraws>): (r: Option<seq<Vehicle>>)
    requires forall k :: 0 <= k < |draws| ==> draws[k].InRange()
    ensures r.None? <==> exists k :: 0 <= k < |draws| && GenerateVehicle(draws[k], k).None?
    ensures r.Some? ==> |r.value| == |draws|
    ensures r.Some? ==> forall k :: 0 <= k < |draws| ==> Some(r.value[k]) == GenerateVehicle(draws[k], k)
  {
    if exists k :: 0 <= k < |draws| && GenerateVehicle(draws[k], k).None? then None
    else Some(seq(|draws|, k requires 0 <= k < |draws| => GenerateVehicle(draws[k], k).value))
  }

  /** The world the bootstrap builds is consistent at the start date:
      registry ids are indices, nothing is pending before the start date
      and no patrol is open. */
  lemma InitialStateConsistent(ps: seq<Policeman>, vs: seq<Vehicle>)
    requires forall i :: 0 <= i < |ps| ==> ps[i].person.id == i && ps[i].resignmentDate >= DataStartDate
    requires forall i :: 0 <= i < |vs| ==> vs[i].id == i
    ensures Consistent(ps, vs, [], [], InitialEvents(ps), DataStartDate)
  {
    var events := InitialEvents(ps);
    forall x | Pending(events, x)
      ensures x.time >= DataStartDate && !x.action.FinishedPatrol?
    {
      if x in multiset(Resignations(ps)) {
        var k :| 0 <= k < |ps| && Resignations(ps)[k] == x;
      } else if x in multiset(SurnameChanges()) {
        var i :| 0 <= i < PolicemanLastNameChangeEventsCount && SurnameChanges()[i] == x;
      }
    }
  }

  /** Events in time order, all between `lo` and `hi`. */
  ghost predicate InOrder(es: seq<Event>, lo: Time, hi: Time)
  {
    && (forall i :: 0 <= i < |es| ==> lo <= es[i].time <= hi)
    && (forall i, j :: 0 <= i < j < |es| ==> es[i].time <= es[j].time)
  }

  predicate NoneTerminal(es: seq<Event>)
  {
    forall i :: 0 <= i < |es| ==> !IsTerminal(es[i])
  }

  /** A non-terminal event extends a run with no terminal event. */
  lemma NoneTerminalAppend(es: seq<Event>, e: Event)
    requires NoneTerminal(es) && !IsTerminal(e)
    ensures NoneTerminal(es + [e])
  {
    assert forall i :: 0 <= i < |es| ==> (es + [e])[i] == es[i];
  }

  /** Helper for `Advance`: an event no earlier than `hi` extends an
      ordered run. */
  lemma InOrderAppend(es: seq<Event>, e: Event, lo: Time, hi: Time)
    requires InOrder(es, lo, hi) && lo <= hi <= e.time
    ensures InOrder(es + [e], lo, e.time)
  {
  }

  class Simulation {
    const places: seq<Place>
    var policemen: seq<Policeman>
    var vehicles: seq<Vehicle>
    var reports: seq<Reports.Report>
    var patrols: seq<Patrol>
    var events: multiset<Event>
    /** The time of the event processed last (the start date before the
        first one). */
    ghost var clock: Time

    ghost predicate Valid()
      reads this
    {
      Consistent(policemen, vehicles, reports, patrols, events, clock)
    }

    /** The registries and the queue as one value. */
    function State(): WorldState
      reads this
    {
      WorldState(policemen, vehicles, reports, patrols, events)
    }

    /** The choices of a step fit the current state. */
    ghost predicate Fits(c: Choices)
      reads this
    {
      Transitions.Fits(|places|, policemen, vehicles, c)
    }

    /** `PolicemanEmployment` at time `t`: a just-employed policeman with the
        next id joins the registry Available, and their resignation is
        queued.  Nothing else changes. */
    method HandlePolicemanEmployment(t: Time, d: PolicemanDraws)
      requires Valid() && clock <= t
      requires d.InRange()
      modifies this
      ensures Valid() && clock == old(clock)
      ensures EmploymentEffect(old(State()), State(), t, d)
    {
      var policeman := GenerateJustEmployedPoliceman(d, t, |policemen|);
      policemen := policemen + [policeman];
      var event := FromPolicemanResignation(policeman);
      events := events + multiset{event};
    }

    /** `PolicemanResignation` at time `t`: a replacement is hired a week
        later.  No policeman's state changes, so a policeman whose
        resignment date passes while they are idle stays Available. */
    method HandlePolicemanResignation(t: Time)
      requires Valid() && clock <= t
      modifies this
      ensures Valid() && clock == old(clock)
      ensures ResignationEffect(old(State()), State(), t)
    {
      var nextPolicemanEmploymentDate := AddDays(t, ReplacementDelayDays);
      events := events + multiset{Event(nextPolicemanEmploymentDate, PolicemanEmployment)};
    }

    /** `Report` at time `t`: a report with the next id is filed at time
        `t`; one or two `SendPatrol` events for it are queued, all at one
        time 5 to 15 minutes later, and the next report 10 to 40 minutes
        later.  With no places the report generator panics and nothing
        changes. */
    method HandleReport(t: Time, d: Reports.ReportDraws, sendDelay: int, twoPatrols: bool, nextReportDelay: int)
      returns (outcome: Outcome)
      requires Valid() && clock <= t
      requires d.reporter.InRange()
      requires |places| > 0 ==> d.placeIndex < |places|
      requires MinReportToSendingSeconds <= sendDelay < MaxReportToSendingSeconds
      requires MinSecondsBetweenReports <= nextReportDelay < MaxSecondsBetweenReports
      modifies this
      ensures Valid() && clock == old(clock)
      ensures ReportEffect(|places|, old(State()), State(), t, d, sendDelay, twoPatrols, nextReportDelay, outcome)
      ensures outcome != Halt && (outcome.Panic? <==> |places| == 0)
    {
      var reportId := |reports|;
      var report := Reports.GenerateReport(d, t, |places|, |reports|);
      if report.None? {
        return Panic("gen_range on the empty range of place ids");
      }
      ReportKeepsConsistent(policemen, vehicles, reports, patrols, events, clock, report.value);
      var filed := reports + [report.value];

      var nextSendingTime := t + sendDelay;
      var sending := Event(nextSendingTime, SendPatrol(reportId));
      var requiredPatrols := if twoPatrols then 2 else 1;
      var queue := events;
      var pushed := 0;
      while pushed < requiredPatrols
        invariant pushed <= requiredPatrols
        invariant queue == events + multiset{}[sending := pushed]
      {
        queue := queue + multiset{sending};
        pushed := pushed + 1;
      }
      PushCopiesPreservesConsistent(policemen, vehicles, filed, patrols, events, clock, sending, requiredPatrols);

      var nextReportTime := t + nextReportDelay;
      PushPreservesConsistent(policemen, vehicles, filed, patrols, queue, clock, Event(nextReportTime, Report));
      reports, events := filed, queue + multiset{Event(nextReportTime, Report)};
      return Continue;
    }

    /** `SendPatrol(reportId)` at time `t`.  With fewer than two Available
        policemen or no Available vehicle nothing changes but the same
        `SendPatrol` is queued again 5 to 15 minutes later.  Otherwise the two
        chosen Available policemen and the chosen Available vehicle become
        Occupied, a patrol with the next id is sent at `t`, and its
        `FinishedPatrol` is queued at its finish time. */
    method HandleSendPatrol(t: Time, reportId: nat, first: nat, second: nat, vehicle: nat,
                            arriving: int, processing: int, retryDelay: int)
      requires Valid() && clock <= t
      requires CanDispatch(policemen, vehicles) ==>
        && first < |policemen| && second < |policemen| && first != second
        && policemen[first].state == PolicemanState.Available
        && policemen[second].state == PolicemanState.Available
        && vehicle < |vehicles| && vehicles[vehicle].state == VehicleState.Available
      requires MinSendingToArrivalSeconds <= arriving < MaxSendingToArrivalSeconds
      requires MinArrivalToFinishSeconds <= processing < MaxArrivalToFinishSeconds
      requires MinReportToSendingSeconds <= retryDelay < MaxReportToSendingSeconds
      modifies this
      ensures Valid() && clock == old(clock)
      ensures SendPatrolEffect(old(State()), State(), t, reportId, first, second, vehicle, arriving, processing, retryDelay)
    {
      if !CanDispatch(policemen, vehicles) {
        var nextReportTime := t + retryDelay;
        PushPreservesConsistent(policemen, vehicles, reports, patrols, events, clock, Event(nextReportTime, SendPatrol(reportId)));
        events := events + multiset{Event(nextReportTime, SendPatrol(reportId))};
        return;
      }

      var policemenIds := [policemen[first].person.id, policemen[second].person.id];
      assert policemenIds == [first, second];
      assert vehicles[vehicle].id == vehicle;
      var patrolId := |patrols|;
      var patrol := GeneratePatrol(reportId, policemenIds, vehicles[vehicle].id, t, patrolId, arriving, processing);
      DispatchPreservesConsistent(policemen, vehicles, reports, patrols, events, clock, first, second, vehicle, patrol);
      policemen, vehicles, patrols, events :=
        policemen[first := policemen[first].(state := PolicemanState.Occupied)]
                 [second := policemen[second].(state := PolicemanState.Occupied)],
        vehicles[vehicle := vehicles[vehicle].(state := VehicleState.Occupied)],
        patrols + [patrol],
        events + multiset{Event(patrol.finishTime, FinishedPatrol(patrolId))};
    }

    /** `FinishedPatrol(k)` at time `t`, for a patrol closed at `t`.  An id
        naming no patrol panics and changes nothing.  Otherwise each of
        the patrol's policemen is released (Available before their
        resignment date, Resigned from it on) and its vehicle becomes
        Available; the queue is untouched. */
    method HandleFinishedPatrol(t: Time, k: nat) returns (outcome: Outcome)
      requires Valid() && clock <= t
      requires k < |patrols| ==> ClosedPatrol(events, patrols, k)
      modifies this
      ensures Valid() && clock == old(clock)
      ensures FinishedPatrolEffect(old(State()), State(), t, k, outcome)
      ensures outcome != Halt && (outcome.Panic? <==> k >= |old(patrols)|)
    {
      if k >= |patrols| {
        return Panic("a patrol_id should always point to a valid patrol");
      }
      var patrol := patrols[k];
      var ids := patrol.policemenIds;
      assert WellFormedPatrol(patrol, |policemen|, |vehicles|);
      ghost var before := policemen;
      var released := policemen;
      for n := 0 to |ids|
        invariant |released| == |before|
        invariant forall i :: 0 <= i < |released| ==>
          released[i] == if i in ids[..n] then Released(before[i], t) else before[i]
      {
        var id := ids[n];
        assert id !in ids[..n] by {
          if n == 1 { assert ids[..n] == [ids[0]]; }
        }
        released := released[id := Released(released[id], t)];
        assert ids[..n + 1] == ids[..n] + [id];
      }
      assert ids[..|ids|] == ids;
      var parked := vehicles[patrol.vehicleId := vehicles[patrol.vehicleId].(state := VehicleState.Available)];
      FinishPreservesConsistent(policemen, vehicles, reports, patrols, events, clock, k, t, released, parked);
      policemen, vehicles := released, parked;
      return Continue;
    }

    /** `PolicemanLastNameChange`: the policeman at index `renamed` takes a
        new surname; nothing else changes.  With no policemen at all the
        choice panics. */
    method HandleLastNameChange(renamed: nat, newLastName: string) returns (outcome: Outcome)
      requires Valid()
      requires |policemen| > 0 ==> renamed < |policemen|
      modifies this
      ensures Valid() && clock == old(clock)
      ensures LastNameChangeEffect(old(State()), State(), renamed, newLastName, outcome)
      ensures outcome != Halt && (outcome.Panic? <==> |old(policemen)| == 0)
    {
      if |policemen| == 0 {
        return Panic("choose on an empty iterator");
      }
      var renamedPolicemen := policemen[renamed := policemen[renamed].(person := ChangeSurname(policemen[renamed].person, newLastName))];
      RelabelPreservesConsistent(policemen, vehicles, reports, patrols, events, clock, renamedPolicemen);
      policemen := renamedPolicemen;
      return Continue;
    }

    /** The `match` of the main loop: the handler `e.action` calls for runs
        on the world `e` has already left (`HandlerEffect`).  Only a
        terminal snapshot halts, and only a report with no places or a
        surname change with no policemen panics, leaving the world as it
        was. */
    method Dispatch(e: Event, c: Choices) returns (outcome: Outcome)
      requires Valid() && clock == e.time && Fits(c)
      requires e.action.FinishedPatrol? ==>
        e.action.patrolId < |patrols| && ClosedPatrol(events, patrols, e.action.patrolId)
      modifies this
      ensures Valid() && clock == old(clock)
      ensures HandlerEffect(|places|, old(State()), State(), e, c, outcome)
      ensures outcome == Halt <==> IsTerminal(e)
      ensures outcome.Panic? <==>
        || (e.action == Report && |places| == 0)
        || (e.action == PolicemanLastNameChange && |old(policemen)| == 0)
      ensures outcome.Panic? ==> State() == old(State())
    {
      match e.action {
      case PolicemanEmployment =>
        HandlePolicemanEmployment(e.time, c.policeman);
        outcome := Continue;
      case PolicemanResignation =>
        HandlePolicemanResignation(e.time);
        outcome := Continue;
      case Report =>
        outcome := HandleReport(e.time, c.report, c.sendDelay, c.twoPatrols, c.nextReportDelay);
      case SendPatrol(reportId) =>
        HandleSendPatrol(e.time, reportId, c.first, c.second, c.vehicle, c.arriving, c.processing, c.retryDelay);
        outcome := Continue;
      case FinishedPatrol(k) =>
        outcome := HandleFinishedPatrol(e.time, k);
      case Snapshot(name, isTerminal) =>
        outcome := if isTerminal then Halt else Continue;
      case PolicemanLastNameChange =>
        outcome := HandleLastNameChange(c.renamed, c.newLastName);
      }
    }

    /** One iteration of the main loop: the earliest event `e` leaves the
        queue, the clock moves to its time and `Dispatch` runs its handler
        (`StepEffect`).  Only a terminal snapshot halts, and only a report
        with no places or a surname change with no policemen panics, leaving
        everything but the queue as it was. */
    method Step(e: Event, c: Choices) returns (outcome: Outcome)
      requires Valid() && Earliest(events, e)
      requires Fits(c)
      modifies this
      ensures Valid() && clock == e.time && old(clock) <= clock
      ensures StepEffect(|places|, old(State()), State(), e, c, outcome)
      ensures outcome == Halt <==> IsTerminal(e)
      ensures outcome.Panic? <==>
        || (e.action == Report && |places| == 0)
        || (e.action == PolicemanLastNameChange && |old(policemen)| == 0)
      ensures outcome.Panic? ==> State() == old(State()).(events := old(events) - multiset{e})
    {
      PopPreservesConsistent(policemen, vehicles, reports, patrols, events, clock, e);
      events, clock := events - multiset{e}, e.time;
      assert State() == old(State()).(events := old(events) - multiset{e});
      outcome := Dispatch(e, c);
    }

    /** One turn of the main loop: an earliest event leaves the queue and is
        handled with the draws resolved against the state.  The run so far
        grows by that event, the choices made and the world they lead to;
        the events stay in time order, and the outcome says whether the new
        event was a terminal snapshot or a panicking one. */
    method Advance(draw: Choices, ghost startClock: Time,
                   ghost states: seq<WorldState>, processed: seq<Event>, ghost used: seq<Choices>)
      returns (outcome: Outcome, e: Event, ghost c: Choices)
      requires Valid() && |events| > 0 && draw.InRange()
      requires Trace(|places|, states, processed, used, Continue) && states[|states| - 1] == State()
      requires startClock <= clock && InOrder(processed, startClock, clock) && NoneTerminal(processed)
      modifies this
      ensures Valid() && old(clock) <= clock
      ensures Trace(|places|, states + [State()], processed + [e], used + [c], outcome)
      ensures DrawnAt(|places|, states[|states| - 1], c, draw)
      ensures InOrder(processed + [e], startClock, clock)
      ensures outcome == Halt <==> IsTerminal(e)
      ensures outcome != Halt ==> NoneTerminal(processed + [e])
      ensures outcome.Panic? ==>
        || (e.action == Report && |places| == 0)
        || (e.action == PolicemanLastNameChange && |policemen| == 0)
    {
      EarliestExists(events);
      e :| Earliest(events, e);
      var choices := Resolve(|places|, policemen, vehicles, draw);
      c := choices;
      InOrderAppend(processed, e, startClock, clock);
      outcome := Step(e, choices);
      TraceExtend(|places|, states, processed, used, e, c, outcome, State());
      if outcome != Halt {
        NoneTerminalAppend(processed, e);
      }
    }

    /** The main loop, fed one set of draws per iteration.  It stops when
        the queue runs empty, at a terminal snapshot, at a panic, or when
        the draws run out.  The run is a `Trace`: each processed event was
        an earliest one of the queue it was taken from, and each world
        follows from the one before by `StepEffect`, with the choices made
        from that iteration's draws.  The events come in time order, no
        earlier than the clock the run started from, and only the last one
        can be a terminal snapshot or a panic. */
    method Run(draws: seq<Choices>)
      returns (outcome: Outcome, processed: seq<Event>, ghost states: seq<WorldState>, ghost used: seq<Choices>)
      requires Valid()
      requires forall k :: 0 <= k < |draws| ==> draws[k].InRange()
      modifies this
      ensures Valid() && old(clock) <= clock && |processed| <= |draws|
      ensures Trace(|places|, states, processed, used, outcome)
      ensures states[0] == old(State()) && states[|states| - 1] == State()
      ensures FromDraws(|places|, states, used, draws)
      ensures InOrder(processed, old(clock), clock)
      ensures outcome == Halt <==> |processed| > 0 && IsTerminal(processed[|processed| - 1])
      ensures |processed| > 0 ==> NoneTerminal(processed[..|processed| - 1])
      ensures outcome == Continue ==> NoneTerminal(processed) && (|processed| == |draws| || |events| == 0)
      ensures outcome.Panic? ==>
        && |processed| > 0 && NoneTerminal(processed)
        && var last := processed[|processed| - 1];
           || (last.action == Report && |places| == 0)
           || (last.action == PolicemanLastNameChange && |policemen| == 0)
    {
      outcome := Continue;
      processed, states, used := [], [State()], [];
      ghost var start := State();
      while |processed| < |draws| && |events| > 0
        invariant Valid() && old(clock) <= clock && |processed| <= |draws|
        invariant Trace(|places|, states, processed, used, Continue)
        invariant |states| > 0 && states[0] == start && states[|states| - 1] == State()
        invariant FromDraws(|places|, states, used, draws)
        invariant InOrder(processed, old(clock), clock)
        invariant NoneTerminal(processed) && outcome == Continue
        decreases |draws| - |processed|
      {
        var o, e, c := Advance(draws[|processed|], old(clock), states, processed, used);
        FromDrawsExtend(|places|, states, used, draws, c, State());
        assert (processed + [e])[..|processed|] == processed;
        assert (states + [State()])[0] == states[0];
        processed, states, used := processed + [e], states + [State()], used + [c];
        if o != Continue {
          outcome := o;
          return;
        }
      }
    }

    constructor Start(places: seq<Place>, policemen: seq<Policeman>, vehicles: seq<Vehicle>)
      requires forall i :: 0 <= i < |policemen| ==>
        policemen[i].person.id == i && policemen[i].resignmentDate >= DataStartDate
      requires forall i :: 0 <= i < |vehicles| ==> vehicles[i].id == i
      ensures this.places == places && this.policemen == policemen && this.vehicles == vehicles
      ensures reports == [] && patrols == [] && events == InitialEvents(policemen)
      ensures clock == DataStartDate && Valid()
    {
      this.places := places;
      this.policemen := policemen;
      this.vehicles := vehicles;
      reports := [];
      patrols := [];
      events := InitialEvents(policemen);
      clock := DataStartDate;
      InitialStateConsistent(policemen, vehicles);
    }

    /** The start of `main`: the places are read, 80 policemen are hired at
        the start date, 60 vehicles are generated (a vehicle whose plate
        panics aborts the start), and the queue is seeded. */
    static method Bootstrap(placesData: string, policemanDraws: seq<PolicemanDraws>, vehicleDraws: seq<VehicleDraws>)
      returns (r: Option<Simulation>)
      requires |policemanDraws| == PolicemenCount && forall k :: 0 <= k < |policemanDraws| ==> policemanDraws[k].InRange()
      requires |vehicleDraws| == VehiclesCount && forall k :: 0 <= k < |vehicleDraws| ==> vehicleDraws[k].InRange()
      ensures r.None? <==> GenerateFleet(vehicleDraws).None?
      ensures r.Some? ==>
        && fresh(r.value) && r.value.Valid() && r.value.clock == DataStartDate
        && |r.value.places| == |Rows(placesData)|
        && (forall k :: 0 <= k < |r.value.places| ==>
              r.value.places[k] == Place(k, Rows(placesData)[k][0], Rows(placesData)[k][1]))
        && |r.value.policemen| == PolicemenCount
        && (forall k :: 0 <= k < PolicemenCount ==>
              r.value.policemen[k] == GenerateJustEmployedPoliceman(policemanDraws[k], DataStartDate, k))
        && Some(r.value.vehicles) == GenerateFleet(vehicleDraws)
        && r.value.reports == [] && r.value.patrols == []
        && r.value.events == InitialEvents(r.value.policemen)
    {
      var places := CreatePlacesFromStr(placesData);
      var policemen := seq(PolicemenCount, k requires 0 <= k < PolicemenCount =>
                             GenerateJustEmployedPoliceman(policemanDraws[k], DataStartDate, k));
      var fleet := GenerateFleet(vehicleDraws);
      if fleet.None? {
        return None;
      }
      var simulation := new Simulation.Start(places, policemen, fleet.value);
      return Some(simulation);
    }
  }
}
