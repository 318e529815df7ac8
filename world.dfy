/** The engine's world as plain values (the registries of policemen,
    vehicles, reports and patrols, the queue of pending events and the
    clock) and the invariant every step of `src/main.rs` keeps, with one
    preservation lemma per kind of state change.

    A patrol is open while its `FinishedPatrol` event is pending.  The
    invariant says that ids are indices, patrols are well formed, nothing
    pending is in the past, each open patrol has exactly one pending
    `FinishedPatrol` at its finish time, the crew and vehicle of every open
    patrol are Occupied, and no policeman or vehicle is in two open
    patrols. */
module World {
  import opened DateTimes
  import opened Persons
  import opened Vehicles
  import Reports
  import opened Patrols
  import opened Events

  /** A policeman back from a patrol at time `t`: Available while `t` is
      before their resignment date, Resigned from that date on. */
  function Released(p: Policeman, t: Time): (r: Policeman)
    ensures r.state == PolicemanState.Available <==> t < p.resignmentDate
    ensures r.state == PolicemanState.Resigned <==> t >= p.resignmentDate
    ensures r.(state := p.state) == p
  {
    p.(state := if t < p.resignmentDate then PolicemanState.Available else PolicemanState.Resigned)
  }

  /** A patrol as the engine creates them: two distinct policemen and one
      vehicle, all existing, and a finish after the sending. */
  predicate WellFormedPatrol(p: Patrol, policemenCount: nat, vehiclesCount: nat)
  {
    && |p.policemenIds| == 2
    && p.policemenIds[0] != p.policemenIds[1]
    && p.policemenIds[0] < policemenCount && p.policemenIds[1] < policemenCount
    && p.vehicleId < vehiclesCount
    && p.sendingTime < p.finishTime
  }

  /** Two patrols share no policeman and no vehicle. */
  predicate Disjoint(p: Patrol, q: Patrol)
  {
    && (forall x :: x in p.policemenIds ==> x !in q.policemenIds)
    && p.vehicleId != q.vehicleId
  }

  /** Every registry entry's id is its index. */
  ghost predicate IdsAreIndices(ps: seq<Policeman>, vs: seq<Vehicle>, rs: seq<Reports.Report>, pts: seq<Patrol>)
  {
    && (forall i :: 0 <= i < |ps| ==> ps[i].person.id == i)
    && (forall i :: 0 <= i < |vs| ==> vs[i].id == i)
    && (forall i :: 0 <= i < |rs| ==> rs[i].id == i)
    && (forall i :: 0 <= i < |pts| ==> pts[i].id == i)
  }

  ghost predicate PatrolsWellFormed(pts: seq<Patrol>, policemenCount: nat, vehiclesCount: nat)
  {
    forall i :: 0 <= i < |pts| ==> WellFormedPatrol(pts[i], policemenCount, vehiclesCount)
  }

  /** `e` is in the queue.  Naming membership keeps the invariant's
      quantifiers from firing on every multiset term. */
  predicate Pending(events: multiset<Event>, e: Event)
  {
    e in events
  }

  /** Nothing pending is earlier than `t`. */
  ghost predicate NotBefore(events: multiset<Event>, t: Time)
  {
    forall e :: Pending(events, e) ==> e.time >= t
  }

  /** A patrol is open while its `FinishedPatrol` event is pending: that
      event names an existing patrol, is due at its finish time and is
      queued once. */
  ghost predicate FinishesPending(events: multiset<Event>, pts: seq<Patrol>)
  {
    forall e :: Pending(events, e) && e.action.FinishedPatrol? ==>
      && e.action.patrolId < |pts|
      && e.time == pts[e.action.patrolId].finishTime
      && events[e] == 1
  }

  /** The crew and vehicle of a patrol are Occupied. */
  ghost predicate Occupies(p: Patrol, ps: seq<Policeman>, vs: seq<Vehicle>)
    requires WellFormedPatrol(p, |ps|, |vs|)
  {
    && ps[p.policemenIds[0]].state == PolicemanState.Occupied
    && ps[p.policemenIds[1]].state == PolicemanState.Occupied
    && vs[p.vehicleId].state == VehicleState.Occupied
  }

  /** Exclusivity: the crew and vehicle of every open patrol are Occupied,
      and no policeman or vehicle is in two open patrols. */
  ghost predicate OpenPatrolsExclusive(ps: seq<Policeman>, vs: seq<Vehicle>, pts: seq<Patrol>, events: multiset<Event>)
    requires PatrolsWellFormed(pts, |ps|, |vs|) && FinishesPending(events, pts)
  {
    && (forall e :: Pending(events, e) && e.action.FinishedPatrol? ==> Occupies(pts[e.action.patrolId], ps, vs))
    && (forall e1, e2 :: Pending(events, e1) && Pending(events, e2) && e1.action.FinishedPatrol? && e2.action.FinishedPatrol?
          && e1.action.patrolId != e2.action.patrolId
          ==> Disjoint(pts[e1.action.patrolId], pts[e2.action.patrolId]))
  }

  /** The invariant the event loop keeps.  In particular, every open patrol
      ends no earlier than the clock, and its crew and vehicle are Occupied. */
  ghost predicate Consistent(ps: seq<Policeman>, vs: seq<Vehicle>, rs: seq<Reports.Report>, pts: seq<Patrol>,
                             events: multiset<Event>, clock: Time)
    ensures Consistent(ps, vs, rs, pts, events, clock) ==>
      && PatrolsWellFormed(pts, |ps|, |vs|) && FinishesPending(events, pts)
      && forall e :: Pending(events, e) && e.action.FinishedPatrol? ==>
        && clock <= pts[e.action.patrolId].finishTime
        && ps[pts[e.action.patrolId].policemenIds[0]].state == PolicemanState.Occupied
        && ps[pts[e.action.patrolId].policemenIds[1]].state == PolicemanState.Occupied
        && vs[pts[e.action.patrolId].vehicleId].state == VehicleState.Occupied
  {
    && IdsAreIndices(ps, vs, rs, pts)
    && PatrolsWellFormed(pts, |ps|, |vs|)
    && NotBefore(events, clock)
    && FinishesPending(events, pts)
    && OpenPatrolsExclusive(ps, vs, pts, events)
  }

  /** Queuing an event that is not a `FinishedPatrol`, no earlier than the
      clock, keeps the world consistent. */
  lemma PushPreservesConsistent(ps: seq<Policeman>, vs: seq<Vehicle>, rs: seq<Reports.Report>, pts: seq<Patrol>,
                                events: multiset<Event>, clock: Time, e: Event)
    requires Consistent(ps, vs, rs, pts, events, clock)
    requires !e.action.FinishedPatrol? && e.time >= clock
    ensures Consistent(ps, vs, rs, pts, events + multiset{e}, clock)
  {
    var events' := events + multiset{e};
    forall x | x in events' && x.action.FinishedPatrol?
      ensures x in events && events'[x] == events[x]
    {
    }
  }

  /** Queuing `n` copies of an event that is not a `FinishedPatrol`, no
      earlier than the clock, keeps the world consistent. */
  lemma PushCopiesPreservesConsistent(ps: seq<Policeman>, vs: seq<Vehicle>, rs: seq<Reports.Report>, pts: seq<Patrol>,
                                      events: multiset<Event>, clock: Time, e: Event, n: nat)
    requires Consistent(ps, vs, rs, pts, events, clock)
    requires !e.action.FinishedPatrol? && e.time >= clock
    ensures Consistent(ps, vs, rs, pts, events + multiset{}[e := n], clock)
  {
    var events' := events + multiset{}[e := n];
    forall x | x in events'
      ensures x == e || (x in events && events'[x] == events[x])
    {
    }
  }

  /** Filing a report with the next id keeps the world consistent. */
  lemma ReportKeepsConsistent(ps: seq<Policeman>, vs: seq<Vehicle>, rs: seq<Reports.Report>, pts: seq<Patrol>,
                              events: multiset<Event>, clock: Time, r: Reports.Report)
    requires Consistent(ps, vs, rs, pts, events, clock)
    requires r.id == |rs|
    ensures Consistent(ps, vs, rs + [r], pts, events, clock)
  {
    assert IdsAreIndices(ps, vs, rs + [r], pts) by {
      forall i | 0 <= i < |rs + [r]| ensures (rs + [r])[i].id == i {
        if i < |rs| { assert (rs + [r])[i] == rs[i]; }
      }
    }
  }

  /** Sending a patrol: two distinct Available policemen and an Available
      vehicle become Occupied and form a new patrol whose `FinishedPatrol`
      is queued.  Because they were Available, they were in no open patrol,
      so exclusivity is kept. */
  lemma DispatchPreservesConsistent(ps: seq<Policeman>, vs: seq<Vehicle>, rs: seq<Reports.Report>, pts: seq<Patrol>,
                                    events: multiset<Event>, clock: Time,
                                    first: nat, second: nat, vehicle: nat, p: Patrol)
    requires Consistent(ps, vs, rs, pts, events, clock)
    requires first < |ps| && second < |ps| && first != second && vehicle < |vs|
    requires ps[first].state == PolicemanState.Available && ps[second].state == PolicemanState.Available
    requires vs[vehicle].state == VehicleState.Available
    requires p.id == |pts| && p.policemenIds == [first, second] && p.vehicleId == vehicle
    requires p.sendingTime < p.finishTime && p.finishTime >= clock
    ensures var ps' := ps[first := ps[first].(state := PolicemanState.Occupied)]
                         [second := ps[second].(state := PolicemanState.Occupied)];
            var vs' := vs[vehicle := vs[vehicle].(state := VehicleState.Occupied)];
            Consistent(ps', vs', rs, pts + [p], events + multiset{Event(p.finishTime, FinishedPatrol(|pts|))}, clock)
  {
    var ps' := ps[first := ps[first].(state := PolicemanState.Occupied)]
                 [second := ps[second].(state := PolicemanState.Occupied)];
    var vs' := vs[vehicle := vs[vehicle].(state := VehicleState.Occupied)];
    var pts' := pts + [p];
    var fin := Event(p.finishTime, FinishedPatrol(|pts|));
    var events' := events + multiset{fin};

    assert IdsAreIndices(ps', vs', rs, pts');
    assert PatrolsWellFormed(pts', |ps'|, |vs'|) by {
      forall i | 0 <= i < |pts'| ensures WellFormedPatrol(pts'[i], |ps'|, |vs'|) {
        if i < |pts| { assert pts'[i] == pts[i]; }
      }
    }
    assert fin !in events by {
      if fin in events { assert false; }
    }
    assert FinishesPending(events', pts') by {
      forall x | x in events' && x.action.FinishedPatrol?
        ensures x.action.patrolId < |pts'| && x.time == pts'[x.action.patrolId].finishTime && events'[x] == 1
      {
        if x != fin {
          assert x in events;
          assert pts'[x.action.patrolId] == pts[x.action.patrolId];
        }
      }
    }
    // An open patrol's crew was Occupied, so it holds neither of the two
    // Available policemen nor the Available vehicle.
    forall x | x in events && x.action.FinishedPatrol?
      ensures Occupies(pts'[x.action.patrolId], ps', vs')
      ensures Disjoint(pts'[x.action.patrolId], p) && Disjoint(p, pts'[x.action.patrolId])
    {
      var q := pts[x.action.patrolId];
      assert pts'[x.action.patrolId] == q;
      assert Occupies(q, ps, vs);
      assert first !in q.policemenIds && second !in q.policemenIds;
      assert q.vehicleId != vehicle;
    }
    assert Occupies(p, ps', vs');
    assert OpenPatrolsExclusive(ps', vs', pts', events') by {
      forall e1, e2 | e1 in events' && e2 in events' && e1.action.FinishedPatrol? && e2.action.FinishedPatrol?
                      && e1.action.patrolId != e2.action.patrolId
        ensures Disjoint(pts'[e1.action.patrolId], pts'[e2.action.patrolId])
      {
        if e1 != fin && e2 != fin {
          assert pts'[e1.action.patrolId] == pts[e1.action.patrolId];
          assert pts'[e2.action.patrolId] == pts[e2.action.patrolId];
        }
      }
    }
  }

  /** `e` is an earliest pending event: the front of the queue, up to the
      order among events of equal time. */
  predicate Earliest(events: multiset<Event>, e: Event)
  {
    e in events && forall x :: x in events ==> e.time <= x.time
  }

  /** A non-empty queue has an earliest event. */
  lemma {:induction false} EarliestExists(events: multiset<Event>)
    requires |events| > 0
    ensures exists e :: Earliest(events, e)
    decreases |events|
  {
    var y :| y in events;
    var rest := events - multiset{y};
    if |rest| == 0 {
      assert events == multiset{y} by {
        assert rest == multiset{};
        assert events == rest + multiset{y};
      }
      assert Earliest(events, y);
    } else {
      EarliestExists(rest);
      var m :| Earliest(rest, m);
      assert events == rest + multiset{y};
      if m.time <= y.time {
        assert Earliest(events, m);
      } else {
        assert Earliest(events, y);
      }
    }
  }

  /** Patrol `k` is closed: no `FinishedPatrol` for it is pending, and it
      shares no policeman and no vehicle with any open patrol. */
  ghost predicate ClosedPatrol(events: multiset<Event>, pts: seq<Patrol>, k: nat)
    requires FinishesPending(events, pts) && k < |pts|
  {
    forall x :: Pending(events, x) && x.action.FinishedPatrol? ==>
      x.action.patrolId != k && Disjoint(pts[k], pts[x.action.patrolId])
  }

  /** Taking an earliest event off the queue keeps the world consistent,
      with the clock moved to that event's time; if it is a
      `FinishedPatrol`, that patrol is now closed. */
  lemma PopPreservesConsistent(ps: seq<Policeman>, vs: seq<Vehicle>, rs: seq<Reports.Report>, pts: seq<Patrol>,
                               events: multiset<Event>, clock: Time, e: Event)
    requires Consistent(ps, vs, rs, pts, events, clock)
    requires Earliest(events, e)
    ensures e.time >= clock
    ensures Consistent(ps, vs, rs, pts, events - multiset{e}, e.time)
    ensures e.action.FinishedPatrol? ==>
      e.action.patrolId < |pts| && ClosedPatrol(events - multiset{e}, pts, e.action.patrolId)
  {
    var events' := events - multiset{e};
    forall x | x in events'
      ensures x in events
      ensures x.action.FinishedPatrol? ==> events'[x] == 1
    {
      if x == e { assert events'[x] == events[x] - 1; }
    }
    if e.action.FinishedPatrol? {
      var k := e.action.patrolId;
      forall x | Pending(events', x) && x.action.FinishedPatrol?
        ensures x.action.patrolId != k && Disjoint(pts[k], pts[x.action.patrolId])
      {
        assert x in events;
        if x.action.patrolId == k {
          assert false;
        }
      }
    }
  }

  /** A patrol finishing at `t`: its policemen are released and its vehicle
      becomes Available.  As the patrol is closed, every open patrol stays
      Occupied. */
  lemma FinishPreservesConsistent(ps: seq<Policeman>, vs: seq<Vehicle>, rs: seq<Reports.Report>, pts: seq<Patrol>,
                                  events: multiset<Event>, clock: Time, k: nat, t: Time,
                                  ps': seq<Policeman>, vs': seq<Vehicle>)
    requires Consistent(ps, vs, rs, pts, events, clock)
    requires k < |pts| && ClosedPatrol(events, pts, k)
    requires |ps'| == |ps|
    requires forall i :: 0 <= i < |ps| ==>
      ps'[i] == if i in pts[k].policemenIds then Released(ps[i], t) else ps[i]
    requires vs' == vs[pts[k].vehicleId := vs[pts[k].vehicleId].(state := VehicleState.Available)]
    ensures Consistent(ps', vs', rs, pts, events, clock)
  {
    assert IdsAreIndices(ps', vs', rs, pts) by {
      forall i | 0 <= i < |ps'| ensures ps'[i].person.id == i {
        assert ps'[i].person == ps[i].person;
      }
    }
    forall x | Pending(events, x) && x.action.FinishedPatrol?
      ensures Occupies(pts[x.action.patrolId], ps', vs')
    {
      var q := pts[x.action.patrolId];
      assert Occupies(q, ps, vs);
      assert Disjoint(pts[k], q);
      assert q.policemenIds[0] !in pts[k].policemenIds && q.policemenIds[1] !in pts[k].policemenIds;
    }
  }

  /** Replacing policemen by ones with the same ids and states (a surname
      change) keeps the world consistent. */
  lemma RelabelPreservesConsistent(ps: seq<Policeman>, vs: seq<Vehicle>, rs: seq<Reports.Report>, pts: seq<Patrol>,
                                   events: multiset<Event>, clock: Time, ps': seq<Policeman>)
    requires Consistent(ps, vs, rs, pts, events, clock)
    requires |ps'| == |ps|
    requires forall i :: 0 <= i < |ps| ==> ps'[i].person.id == ps[i].person.id && ps'[i].state == ps[i].state
    ensures Consistent(ps', vs, rs, pts, events, clock)
  {
    forall x | Pending(events, x) && x.action.FinishedPatrol?
      ensures Occupies(pts[x.action.patrolId], ps', vs)
    {
      assert Occupies(pts[x.action.patrolId], ps, vs);
    }
  }
}
