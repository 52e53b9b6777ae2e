/**
 * The results panel for the active scenario: the ROI status, the null and NaN
 * guards of the value formatters, and the net gain/loss line.
 */
module ScenarioResults {
  import opened Wrappers
  import opened ScenarioSidebar

  /** A value as the formatters receive it: `number | null | undefined`, where a number may be NaN. */
  datatype JsNumber = Null | Undefined | NaN | Finite(value: real)

  function FromNullable(x: Option<real>): JsNumber
  {
    if x.None? then Null else Finite(x.value)
  }

  /** A formatted cell. `Intl.NumberFormat`'s digits are not modelled: a cell records which format applies to which value. */
  datatype Cell = Placeholder | Currency(amount: real) | Grouped(value: real)

  /** `formatCurrency`: the placeholder for null, undefined and NaN, a dollar amount otherwise. */
  function FormatCurrency(v: JsNumber): (c: Cell)
    ensures c.Placeholder? <==> !v.Finite?
    ensures v.Finite? ==> c == Currency(v.value)
  {
    if v.Null? || v.Undefined? || v.NaN? then Placeholder else Currency(v.value)
  }

  /** `formatNumber`: the placeholder for null, undefined and NaN, a grouped number otherwise. */
  function FormatNumber(v: JsNumber): (c: Cell)
    ensures c.Placeholder? <==> !v.Finite?
    ensures v.Finite? ==> c == Grouped(v.value)
  {
    if v.Null? || v.Undefined? || v.NaN? then Placeholder else Grouped(v.value)
  }

  /** `formatPercent`: the em dash for null, undefined and NaN, the fraction times 100 otherwise. */
  function FormatPercent(v: JsNumber): (s: string)
    ensures s == Dash <==> !v.Finite?
    ensures v.Finite? ==> s == PercentLabel(v.value)
  {
    if v.Null? || v.Undefined? || v.NaN? then Dash else PercentLabel(v.value)
  }

  datatype Icon = Calculator | TrendingUp | TrendingDown

  datatype RoiStatus = RoiStatus(color: string, icon: Icon, caption: string)

  /** `getROIStatus`. */
  function GetRoiStatus(roi: Option<real>): (st: RoiStatus)
    ensures roi.None? <==> st == RoiStatus("secondary", Calculator, "Calculating...")
    ensures st.caption == "Positive ROI" <==> roi.Some? && roi.value >= 0.0
    ensures st.caption == "Negative ROI" <==> roi.Some? && roi.value < 0.0
  {
    if roi.None? then RoiStatus("secondary", Calculator, "Calculating...")
    else if roi.value >= 0.0 then RoiStatus("success", TrendingUp, "Positive ROI")
    else RoiStatus("destructive", TrendingDown, "Negative ROI")
  }

  /** The results panel and the sidebar classify every ROI the same way. */
  lemma StatusAgreesWithSidebar(roi: Option<real>)
    ensures GetRoiStatus(roi).color == RoiColor(roi)
  {
  }

  /** With the corrected placeholder the sidebar badge shows the same text as the results badge. */
  lemma SidebarLabelMatchesResults(roi: Option<real>)
    ensures FormatRoi(roi) == FormatPercent(FromNullable(roi))
  {
  }

  /** As written, a null ROI reads differently in the sidebar and in the results panel. */
  lemma AsWrittenSidebarDisagrees()
    ensures FormatRoiAsWritten(None) != FormatPercent(FromNullable(None))
  {
    AsWrittenPlaceholderIsNotDash();
  }

  /** `increase_revenue - inkline_investment`. */
  function NetGain(s: Scenario): (g: real)
    ensures g + s.inklineInvestment == s.increaseRevenue
    ensures g >= 0.0 <==> s.increaseRevenue >= s.inklineInvestment
  {
    s.increaseRevenue - s.inklineInvestment
  }

  /** The class of the net gain/loss figure. */
  function NetGainStyle(s: Scenario): (style: string)
    ensures style == "text-success" <==> s.increaseRevenue >= s.inklineInvestment
    ensures style == "text-destructive" <==> s.increaseRevenue < s.inklineInvestment
  {
    if NetGain(s) >= 0.0 then "text-success" else "text-destructive"
  }

  /** What the panel shows. */
  datatype Panel =
    | NoScenarioSelected
    | Results(
        updatedAt: string,
        status: RoiStatus,
        roiBadge: string,
        revenueIncrease: Cell,
        current: seq<Cell>,
        projected: seq<Cell>,
        increase: seq<Cell>,
        breakeven: seq<Cell>,
        investment: Cell,
        netGain: Cell,
        netGainStyle: string)

  /** `ScenarioResults`: the empty state for no scenario, the metrics otherwise. */
  function Render(scenario: Option<Scenario>): (p: Panel)
    ensures p.NoScenarioSelected? <==> scenario.None?
  {
    match scenario
    case None => NoScenarioSelected
    case Some(s) =>
      Results(
        s.updatedAt,
        GetRoiStatus(s.roi),
        FormatPercent(FromNullable(s.roi)),
        FormatCurrency(Finite(s.increaseRevenue)),
        [FormatNumber(Finite(s.currentOutreach)), FormatNumber(Finite(s.currentLeads)),
         FormatNumber(Finite(s.currentCustomers)), FormatCurrency(Finite(s.currentRevenue))],
        [FormatNumber(Finite(s.projectedOutreach)), FormatNumber(Finite(s.projectedLeads)),
         FormatNumber(Finite(s.projectedCustomers)), FormatCurrency(Finite(s.projectedRevenue))],
        [FormatNumber(Finite(s.increaseLeads)), FormatCurrency(Finite(s.increaseRevenue))],
        [FormatNumber(FromNullable(s.leadsNeeded)), FormatNumber(FromNullable(s.outreachNeeded))],
        FormatCurrency(Finite(s.inklineInvestment)),
        FormatCurrency(Finite(NetGain(s))),
        NetGainStyle(s))
  }

  /**
   * Of a selected scenario's cells only the nullable ones can show the placeholder, and they
   * show it exactly when they are null; the badge and the status follow the same ROI.
   */
  lemma RenderPlaceholders(s: Scenario)
    ensures var p := Render(Some(s));
      && (p.breakeven[0].Placeholder? <==> s.leadsNeeded.None?)
      && (p.breakeven[1].Placeholder? <==> s.outreachNeeded.None?)
      && (p.roiBadge == Dash <==> s.roi.None?)
      && (p.roiBadge == Dash <==> p.status.caption == "Calculating...")
      && (forall c :: c in p.current + p.projected + p.increase ==> !c.Placeholder?)
      && p.netGain == Currency(s.increaseRevenue - s.inklineInvestment)
  {
    var p := Render(Some(s));
    assert p.current + p.projected + p.increase == [
      FormatNumber(Finite(s.currentOutreach)), FormatNumber(Finite(s.currentLeads)),
      FormatNumber(Finite(s.currentCustomers)), FormatCurrency(Finite(s.currentRevenue)),
      FormatNumber(Finite(s.projectedOutreach)), FormatNumber(Finite(s.projectedLeads)),
      FormatNumber(Finite(s.projectedCustomers)), FormatCurrency(Finite(s.projectedRevenue)),
      FormatNumber(Finite(s.increaseLeads)), FormatCurrency(Finite(s.increaseRevenue))];
  }
}
