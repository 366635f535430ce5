/** The development-time check of the 3D scene's download size against its
    byte budget. */
module WebglBudget {
  import opened Wrappers

  /** The budget used when the caller gives none: 1.2 MB. */
  const DefaultBudgetBytes: int := 1_200_000

  datatype BudgetReport = BudgetReport(totalBytes: int, budgetBytes: int, withinBudget: bool)

  /** Reports `totalBytes` against `budgetBytes`, or against the default
      budget when that argument is omitted. */
  function ReportWebglBudget(totalBytes: int, budgetBytes: Option<int>): (report: BudgetReport)
    ensures report.totalBytes == totalBytes
    ensures report.budgetBytes == budgetBytes.GetOr(DefaultBudgetBytes)
    ensures report.withinBudget <==> report.totalBytes <= report.budgetBytes
  {
    var budget := if budgetBytes.Some? then budgetBytes.value else DefaultBudgetBytes;
    BudgetReport(totalBytes, budget, totalBytes <= budget)
  }

  /** Shrinking the scene or raising the budget never turns a report from
      within budget to exceeded. */
  lemma BudgetMonotone(smaller: int, larger: int, budget: int, roomier: int)
    requires smaller <= larger && budget <= roomier
    ensures ReportWebglBudget(larger, Some(budget)).withinBudget ==>
      ReportWebglBudget(smaller, Some(roomier)).withinBudget
  {
  }

  /** Omitting the budget is the same as passing the default, and a scene of
      exactly the budget is within it while one byte more is not. */
  lemma BudgetDefaultAndBoundary(totalBytes: int, budget: int)
    ensures ReportWebglBudget(totalBytes, None) == ReportWebglBudget(totalBytes, Some(DefaultBudgetBytes))
    ensures ReportWebglBudget(budget, Some(budget)).withinBudget
    ensures !ReportWebglBudget(budget + 1, Some(budget)).withinBudget
    ensures ReportWebglBudget(1_200_000, None).withinBudget && !ReportWebglBudget(1_200_001, None).withinBudget
  {
  }
}
