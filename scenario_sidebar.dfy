/**
 * The `Scenario` record as the store returns it, and the scenario list in the
 * sidebar: the ROI badge, its label, and which entry is highlighted.
 */
module ScenarioSidebar {
  import opened Wrappers
  import opened JsText

  /**
   * A stored scenario. Only `orgId`, `leadsNeeded`, `outreachNeeded` and `roi` may be
   * null; the derived metrics arrive already computed by the store.
   */
  datatype Scenario = Scenario(
    id: string,
    ownerId: string,
    orgId: Option<string>,
    name: string,
    currentOutreach: real,
    bookingPct: real,
    closePct: real,
    avgCustomerValue: real,
    projectedOutreach: real,
    inklineInvestment: real,
    currentLeads: real,
    currentCustomers: real,
    currentRevenue: real,
    projectedLeads: real,
    projectedCustomers: real,
    projectedRevenue: real,
    increaseLeads: real,
    increaseRevenue: real,
    leadsNeeded: Option<real>,
    outreachNeeded: Option<real>,
    roi: Option<real>,
    createdAt: string,
    updatedAt: string)

  /** No two scenarios in the list share an id (the store's primary key). */
  predicate UniqueIds(scenarios: seq<Scenario>)
  {
    forall i, j :: 0 <= i < j < |scenarios| ==> scenarios[i].id != scenarios[j].id
  }

  /** The em dash shown for a missing value. */
  const Dash: string := "\U{2014}"

  /** The literal the sidebar's placeholder holds: the em dash's UTF-8 bytes read as Windows-1252. */
  const MisencodedDash: string := "\U{E2}\U{20AC}\U{201D}"

  /** `${(x * 100).toFixed(1)}%`: a fraction shown as a percentage with one decimal. */
  function PercentLabel(x: real): (s: string)
    ensures s != [] && s[|s| - 1] == '%'
  {
    ToFixed1(x * 100.0) + ['%']
  }

  /** The label without its '%' reads back as the fraction times 100, rounded to one decimal. */
  lemma PercentLabelReads(x: real)
    ensures |PercentLabel(x)| >= 2
    ensures ToNumber(PercentLabel(x)[..|PercentLabel(x)| - 1]) == Some(RoundTenth(x * 100.0))
  {
    ToFixed1RoundTrip(x * 100.0);
    SuffixedReading(ToFixed1(x * 100.0), RoundTenth(x * 100.0));
  }

  /** Text that reads as `v` still does once a suffix character is added and removed again. */
  lemma SuffixedReading(t: string, v: real)
    requires ToNumber(t) == Some(v)
    ensures ToNumber((t + ['%'])[..|t + ['%']| - 1]) == Some(v)
  {
    assert (t + ['%'])[..|t + ['%']| - 1] == t;
  }

  /** `formatROI` as written: the null case returns the misencoded literal. */
  function FormatRoiAsWritten(roi: Option<real>): (s: string)
    ensures roi.None? <==> s == MisencodedDash
    ensures roi.Some? ==> s == FormatRoi(roi)
  {
    if roi.None? then MisencodedDash else PercentLabel(roi.value)
  }

  /** `formatROI` with the placeholder the results panel uses. */
  function FormatRoi(roi: Option<real>): (s: string)
    ensures roi.None? <==> s == Dash
  {
    if roi.None? then Dash else PercentLabel(roi.value)
  }

  /** The misencoded placeholder is not the em dash, and a reader sees three characters. */
  lemma AsWrittenPlaceholderIsNotDash()
    ensures FormatRoiAsWritten(None) != Dash
    ensures |FormatRoiAsWritten(None)| == 3
  {
  }

  /** The badge text of a null ROI can never be mistaken for a percentage. */
  lemma PlaceholderIsNeverAPercentage(r: real)
    ensures FormatRoi(Some(r)) != FormatRoi(None)
    ensures FormatRoiAsWritten(Some(r)) != FormatRoiAsWritten(None)
  {
    var p := PercentLabel(r);
    assert p[|p| - 1] == '%';
    assert MisencodedDash[2] != '%';
  }

  /** `getROIColor`: the badge variant for an ROI. */
  function RoiColor(roi: Option<real>): (color: string)
    ensures color == "secondary" <==> roi.None?
    ensures color == "success" <==> roi.Some? && roi.value >= 0.0
    ensures color == "destructive" <==> roi.Some? && roi.value < 0.0
  {
    if roi.None? then "secondary"
    else if roi.value >= 0.0 then "success"
    else "destructive"
  }

  /** One button of the list: what clicking it selects and how it is drawn. */
  datatype Entry = Entry(
    selects: string,
    name: string,
    highlighted: bool,
    badgeVariant: string,
    badgeLabel: string,
    updatedAt: string)

  function EntryOf(s: Scenario, activeId: Option<string>): (e: Entry)
    ensures e.selects == s.id && e.name == s.name
    ensures e.highlighted <==> activeId == Some(s.id)
    ensures e.badgeLabel == FormatRoi(s.roi) && (s.roi.None? <==> e.badgeLabel == Dash)
    ensures e.badgeVariant == RoiColor(s.roi)
  {
    Entry(s.id, s.name, activeId == Some(s.id), RoiColor(s.roi), FormatRoi(s.roi), s.updatedAt)
  }

  /** The sidebar's list: one entry per scenario, in list order. */
  function Entries(scenarios: seq<Scenario>, activeId: Option<string>): (r: seq<Entry>)
    ensures |r| == |scenarios|
    ensures forall i :: 0 <= i < |r| ==> r[i] == EntryOf(scenarios[i], activeId)
  {
    seq(|scenarios|, i requires 0 <= i < |scenarios| => EntryOf(scenarios[i], activeId))
  }

  /** An entry is highlighted exactly when it is the active id, and clicking it selects its own id. */
  lemma EntryHighlightRule(scenarios: seq<Scenario>, activeId: Option<string>, i: nat)
    requires i < |scenarios|
    ensures Entries(scenarios, activeId)[i].selects == scenarios[i].id
    ensures Entries(scenarios, activeId)[i].highlighted <==> activeId == Some(scenarios[i].id)
  {
  }

  /** With unique ids at most one entry is highlighted. */
  lemma AtMostOneHighlighted(scenarios: seq<Scenario>, activeId: Option<string>, i: nat, j: nat)
    requires UniqueIds(scenarios)
    requires i < |scenarios| && j < |scenarios|
    requires Entries(scenarios, activeId)[i].highlighted && Entries(scenarios, activeId)[j].highlighted
    ensures i == j
  {
  }
}
