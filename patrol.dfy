/** `src/patrol.rs`: a patrol sent to a report, with its arrival and finish
    times derived from two sampled durations. */
module Patrols {
  import opened DateTimes

  /** 5 minutes */
  const MinSendingToArrivalSeconds: int := 300
  /** 20 minutes */
  const MaxSendingToArrivalSeconds: int := 1200
  /** 5 minutes */
  const MinArrivalToFinishSeconds: int := 300
  /** 20 minutes */
  const MaxArrivalToFinishSeconds: int := 1200

  datatype Patrol = Patrol(
    id: nat,
    reportId: nat,
    policemenIds: seq<nat>,
    vehicleId: nat,
    sendingTime: Time,
    arrivalTime: Time,
    finishTime: Time)

  /** `Patrol::generate_with_report_id_policemen_vehicles_and_sending_time_and_id`:
      arrives `arriving` seconds after it is sent and finishes `processing`
      seconds after it arrives; everything else is stored as given. */
  function GeneratePatrol(
    reportId: nat, policemenIds: seq<nat>, vehicleId: nat, sendingTime: Time, id: nat,
    arriving: int, processing: int): (p: Patrol)
    requires MinSendingToArrivalSeconds <= arriving < MaxSendingToArrivalSeconds
    requires MinArrivalToFinishSeconds <= processing < MaxArrivalToFinishSeconds
    ensures p.id == id && p.reportId == reportId && p.policemenIds == policemenIds
    ensures p.vehicleId == vehicleId && p.sendingTime == sendingTime
    ensures p.sendingTime < p.arrivalTime < p.finishTime
    ensures p.arrivalTime - p.sendingTime == arriving
    ensures p.finishTime - p.arrivalTime == processing
    ensures MinSendingToArrivalSeconds + MinArrivalToFinishSeconds
      <= p.finishTime - p.sendingTime
      < MaxSendingToArrivalSeconds + MaxArrivalToFinishSeconds
  {
    var arrival := sendingTime + arriving;
    Patrol(id, reportId, policemenIds, vehicleId, sendingTime, arrival, arrival + processing)
  }
}
