/** `src/report.rs`: an incident report at a place. */
module Reports {
  import opened Wrappers
  import opened DateTimes
  import opened Persons

  /** Reporters are not policemen and need no unique id. */
  const ReporterPersonId: nat := 0

  datatype Report = Report(
    id: nat,
    reportType: string,
    time: Time,
    reporter: Person,
    placeId: nat)

  /** The draws behind `Report::generate_with_time_and_id`: the place index,
      the report type drawn from its frequency table, and the reporter's
      person draws. */
  datatype ReportDraws = ReportDraws(placeIndex: nat, reportType: string, reporter: PersonDraws)

  /** `Report::generate_with_time_and_id`.  `gen_range(0..max_place_id)`
      panics on an empty range, so there is no report without a place. */
  function GenerateReport(d: ReportDraws, time: Time, maxPlaceId: nat, id: nat): (r: Option<Report>)
    requires d.reporter.InRange()
    requires maxPlaceId > 0 ==> d.placeIndex < maxPlaceId
    ensures r.Some? <==> maxPlaceId > 0
    ensures r.Some? ==> r.value.id == id && r.value.time == time
    ensures r.Some? ==> r.value.placeId < maxPlaceId
    ensures r.Some? ==> r.value.reporter.id == ReporterPersonId
    ensures r.Some? ==> r.value.reporter == GeneratePerson(d.reporter, ReporterPersonId)
    ensures r.Some? ==> r.value.reportType == d.reportType
  {
    if maxPlaceId == 0 then None
    else Some(Report(id, d.reportType, time, GeneratePerson(d.reporter, ReporterPersonId), d.placeIndex))
  }
}
