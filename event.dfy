/** `src/event.rs`: the timestamped events of the simulation and their
    ordering, which looks at the time only. */
module Events {
  import opened Wrappers
  import opened DateTimes
  import opened Persons

  datatype EventAction =
    | PolicemanEmployment
    | PolicemanResignation
    | Report
    | SendPatrol(reportId: nat)
    | FinishedPatrol(patrolId: nat)
    | Snapshot(name: string, isTerminal: bool)
    | PolicemanLastNameChange

  datatype Event = Event(time: Time, action: EventAction)

  /** `Event::from_policeman_resignation_event`. */
  function FromPolicemanResignation(p: Policeman): (e: Event)
    ensures e.time == p.resignmentDate
    ensures e.action == PolicemanResignation
  {
    Event(p.resignmentDate, PolicemanResignation)
  }

  datatype Ordering = Less | Equal | Greater

  /** `PartialEq::eq`: events are equal when their times are, whatever
      their actions; `eq` agrees with `cmp`, as `Eq` and `Ord` together
      demand. */
  predicate Eq(a: Event, b: Event)
    ensures Eq(a, b) <==> Cmp(a, b) == Equal
  {
    a.time == b.time
  }

  /** `Ord::cmp`: the order of the times. */
  function Cmp(a: Event, b: Event): (o: Ordering)
    ensures o == Less <==> a.time < b.time
    ensures o == Equal <==> a.time == b.time
    ensures o == Greater <==> a.time > b.time
  {
    if a.time < b.time then Less else if a.time == b.time then Equal else Greater
  }

  /** `PartialOrd::partial_cmp`, which wraps `cmp`: never `None`, `Equal`
      exactly for `eq` events, and otherwise the order of the times. */
  function PartialCmp(a: Event, b: Event): (o: Option<Ordering>)
    ensures o.Some?
    ensures o.value == Equal <==> Eq(a, b)
    ensures o.value == Less <==> a.time < b.time
  {
    Some(Cmp(a, b))
  }

  /** `a <= b` as the derived operators compute it from `partial_cmp`: the
      order of the times. */
  predicate Le(a: Event, b: Event)
    ensures Le(a, b) <==> a.time <= b.time
  {
    PartialCmp(a, b) != Some(Greater)
  }

  /** `cmp` is antisymmetric: swapping the events swaps the answer. */
  lemma CmpAntisymmetric(a: Event, b: Event)
    ensures Cmp(a, b) == Less <==> Cmp(b, a) == Greater
    ensures Cmp(a, b) == Equal <==> Cmp(b, a) == Equal
  {
  }

  /** `<=` is a total preorder on events (a total order on their times). */
  lemma LeIsTotalPreorder(a: Event, b: Event, c: Event)
    ensures Le(a, a)
    ensures Le(a, b) || Le(b, a)
    ensures Le(a, b) && Le(b, c) ==> Le(a, c)
    ensures Le(a, b) && Le(b, a) <==> Eq(a, b)
  {
  }
}
