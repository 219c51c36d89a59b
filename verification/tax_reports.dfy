/** The draft-to-final life cycle of tax reports. Reports are keyed by
    their id; their payload and checksum are opaque strings here. */
module TaxReports {
  import opened Wrappers
  import opened Calendar
  import opened LedgerModels

  type ReportId = string

  /** `finalize_report`: a missing id is refused with `ReportNotFound` and a
      report already final with `AlreadyFinalized`; any other report (a
      draft, or a corrected one) becomes final, stamped with `now`. Nothing
      else about it or any other report changes. */
  function FinalizeReport(reports: map<ReportId, TaxReport>, id: ReportId, now: Instant)
    : (r: Result<map<ReportId, TaxReport>, LedgerError>)
    ensures id !in reports ==> r == Err(ReportNotFound(id))
    ensures id in reports && reports[id].status == Final ==> r == Err(AlreadyFinalized(id))
    ensures r.Ok? <==> id in reports && reports[id].status != Final
    ensures r.Ok? ==> r.value.Keys == reports.Keys
    ensures r.Ok? ==> r.value[id].status == Final && r.value[id].finalizedAt == Some(now)
    ensures r.Ok? ==> r.value[id].payload == reports[id].payload && r.value[id].checksum == reports[id].checksum
    ensures r.Ok? ==> r.value[id] == reports[id].(status := Final, finalizedAt := Some(now))
    ensures r.Ok? ==> forall k :: k in reports && k != id ==> r.value[k] == reports[k]
  {
    if id !in reports then Err(ReportNotFound(id))
    else if reports[id].status == Final then Err(AlreadyFinalized(id))
    else Ok(reports[id := reports[id].(status := Final, finalizedAt := Some(now))])
  }

  /** A report can be finalized at most once. */
  lemma FinalizeTwiceFails(reports: map<ReportId, TaxReport>, id: ReportId, t1: Instant, t2: Instant)
    requires FinalizeReport(reports, id, t1).Ok?
    ensures FinalizeReport(FinalizeReport(reports, id, t1).value, id, t2) == Err(AlreadyFinalized(id))
  {
  }

  /** A freshly issued report is a draft, so it can always be finalized. */
  lemma NewReportCanBeFinalized(reports: map<ReportId, TaxReport>, id: ReportId, report: TaxReport, now: Instant)
    requires report.status == DefaultReportStatus
    ensures FinalizeReport(reports[id := report], id, now).Ok?
  {
  }
}
