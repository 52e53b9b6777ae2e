/**
 * The scenario working set of the calculator page: the list of the user's scenarios,
 * the active id, the saving flag and the seven form fields, with the save, delete,
 * new-scenario and sign-out handlers and the effect that fills the form from the
 * active scenario.
 */
module RoiCalculator {
  import opened Wrappers
  import opened JsText
  import opened Lists
  import opened ScenarioSidebar

  /**
   * A numeric form field: text the user typed, or `String(x)` of a stored number.
   * The digits of `String(x)` are not modelled; ECMAScript guarantees that
   * `Number(String(x))` is `x` for every finite number, and that is all the form relies on.
   */
  datatype FieldText = Text(chars: string) | StringOf(value: real)

  /** `Number(field)`, with `None` for NaN. */
  function FieldNumber(f: FieldText): Option<real>
  {
    match f
    case Text(t) => ToNumber(t)
    case StringOf(x) => Some(x)
  }

  datatype Form = Form(
    name: string,
    currentOutreach: FieldText,
    bookingPct: FieldText,
    closePct: FieldText,
    avgCustomerValue: FieldText,
    projectedOutreach: FieldText,
    inklineInvestment: FieldText)

  /** The form of a new scenario; percentages are entered as percents. */
  const DefaultForm: Form :=
    Form("New Scenario", Text("1000"), Text("8"), Text("30"), Text("8000"), Text("2000"), Text("24000"))

  /** The inputs sent to the store; the derived metrics are computed on the store's side. */
  datatype Payload = Payload(
    name: string,
    currentOutreach: real,
    bookingPct: real,
    closePct: real,
    avgCustomerValue: real,
    projectedOutreach: real,
    inklineInvestment: real)

  const UntitledName: string := "Untitled Scenario"

  /** `name.trim() || "Untitled Scenario"`: never empty and never padded with whitespace. */
  function PayloadName(name: string): (r: string)
    ensures r != [] && Trim(r) == r
    ensures !AllWhitespace(name) ==> r == Trim(name)
    ensures AllWhitespace(name) ==> r == UntitledName
  {
    TrimEmptyIffBlank(name);
    TrimIdempotent(name);
    var t := Trim(name);
    if t != [] then t
    else
      TrimKeepsUnpadded(UntitledName);
      UntitledName
  }

  /** `Number(field) || 0`: NaN becomes 0. */
  function NumberOrZero(f: FieldText): (x: real)
    ensures FieldNumber(f).None? ==> x == 0.0
    ensures FieldNumber(f).Some? ==> x == FieldNumber(f).value
  {
    match FieldNumber(f)
    case None => 0.0
    case Some(v) => v
  }

  /** `Number(field) / 100 || 0`: a percent becomes a fraction, NaN becomes 0. */
  function FractionOrZero(f: FieldText): (x: real)
    ensures FieldNumber(f).None? ==> x == 0.0
    ensures FieldNumber(f).Some? ==> x * 100.0 == FieldNumber(f).value
  {
    match FieldNumber(f)
    case None => 0.0
    case Some(v) => v / 100.0
  }

  /** An amount field saves the number it reads as, or 0 when it is not a number. */
  predicate SavesAmount(f: FieldText, x: real)
  {
    if FieldNumber(f).Some? then x == FieldNumber(f).value else x == 0.0
  }

  /** A percent field saves a hundredth of the number it reads as, or 0 when it is not a number. */
  predicate SavesPercent(f: FieldText, x: real)
  {
    if FieldNumber(f).Some? then x * 100.0 == FieldNumber(f).value else x == 0.0
  }

  /** `gatherPayload`. */
  function GatherPayload(form: Form): (p: Payload)
    ensures p.name != [] && Trim(p.name) == p.name
    ensures SavesAmount(form.currentOutreach, p.currentOutreach)
    ensures SavesPercent(form.bookingPct, p.bookingPct) && SavesPercent(form.closePct, p.closePct)
    ensures SavesAmount(form.avgCustomerValue, p.avgCustomerValue)
    ensures SavesAmount(form.projectedOutreach, p.projectedOutreach)
    ensures SavesAmount(form.inklineInvestment, p.inklineInvestment)
  {
    Payload(
      PayloadName(form.name),
      NumberOrZero(form.currentOutreach),
      FractionOrZero(form.bookingPct),
      FractionOrZero(form.closePct),
      NumberOrZero(form.avgCustomerValue),
      NumberOrZero(form.projectedOutreach),
      NumberOrZero(form.inklineInvestment))
  }

  /** A percentage between 0 and 100 is saved as a fraction between 0 and 1. */
  lemma PercentSavedAsFraction(f: FieldText)
    requires FieldNumber(f).Some? && 0.0 <= FieldNumber(f).value <= 100.0
    ensures 0.0 <= FractionOrZero(f) <= 1.0
  {
  }

  /** The inputs stored in a scenario, as a payload. */
  function InputsOf(s: Scenario): Payload
  {
    Payload(s.name, s.currentOutreach, s.bookingPct, s.closePct,
            s.avgCustomerValue, s.projectedOutreach, s.inklineInvestment)
  }

  /** A stored fraction shown in the form: `(f * 100).toFixed(1)`. */
  function PercentText(f: real): FieldText
  {
    Text(ToFixed1(f * 100.0))
  }

  /** The form-hydration effect's assignment: the form shows the scenario's inputs. */
  function Hydrate(s: Scenario): (f: Form)
    ensures f.name == s.name
    ensures FieldNumber(f.currentOutreach) == Some(s.currentOutreach)
    ensures FieldNumber(f.avgCustomerValue) == Some(s.avgCustomerValue)
    ensures FieldNumber(f.projectedOutreach) == Some(s.projectedOutreach)
    ensures FieldNumber(f.inklineInvestment) == Some(s.inklineInvestment)
  {
    Form(s.name, StringOf(s.currentOutreach), PercentText(s.bookingPct), PercentText(s.closePct),
         StringOf(s.avgCustomerValue), StringOf(s.projectedOutreach), StringOf(s.inklineInvestment))
  }

  /** A percent field whose text reads as `v` is saved as `v / 100`. */
  lemma FractionOfReading(t: string, v: real)
    requires ToNumber(t) == Some(v)
    ensures FractionOrZero(Text(t)) == v / 100.0
  {
  }

  /** A percent field filled by `toFixed(1)` is saved as the percent rounded to a tenth, over 100. */
  lemma PercentFieldReads(f: real)
    ensures FractionOrZero(PercentText(f)) == RoundTenth(f * 100.0) / 100.0
  {
    ToFixed1RoundTrip(f * 100.0);
    FractionOfReading(ToFixed1(f * 100.0), RoundTenth(f * 100.0));
  }

  /** Showing a fraction as a percent and saving it again moves it by at most 0.0005. */
  lemma PercentRoundTripIsClose(f: real)
    ensures -0.0005 <= FractionOrZero(PercentText(f)) - f <= 0.0005
  {
    PercentFieldReads(f);
    var y := f * 100.0;
    var r := RoundTenth(y);
    RoundTenthIsClose(y);
    assert r / 100.0 - f == (r - y) / 100.0;
  }

  /** A fraction whose percent has at most one decimal survives being shown and saved again. */
  lemma PercentRoundTrip(f: real)
    requires IsWholeTenths(f * 100.0)
    ensures FractionOrZero(PercentText(f)) == f
  {
    RoundTenthKeepsTenths(f * 100.0);
    PercentFieldReads(f);
  }

  /** Entering 8 in a percent field saves 0.08, which the form shows again as "8.0". */
  lemma EightPercentRoundTrip()
    ensures FractionOrZero(Text("8")) == 0.08
    ensures PercentText(0.08) == Text("8.0")
  {
    PercentNumerals();
    DigitFieldReads("8", 8);
    assert Tenths(0.08 * 100.0) == 80;
    assert NatDigits(8) == [DigitChar(8)];
    assert FixedBody(80) == "8.0";
  }

  /**
   * Saving right after selecting a scenario sends back its own inputs, provided its name
   * is unpadded and non-empty and its percentages have at most one decimal.
   */
  lemma HydrateThenGather(s: Scenario)
    requires s.name != [] && !IsWhitespace(s.name[0]) && !IsWhitespace(s.name[|s.name| - 1])
    requires IsWholeTenths(s.bookingPct * 100.0) && IsWholeTenths(s.closePct * 100.0)
    ensures GatherPayload(Hydrate(s)) == InputsOf(s)
  {
    UnpaddedNameIsKept(s.name);
    PercentsRoundTrip(s.bookingPct, s.closePct);
    GatherHydrated(s);
  }

  /** Both percent fields of a scenario survive being shown and saved again. */
  lemma PercentsRoundTrip(booking: real, close: real)
    requires IsWholeTenths(booking * 100.0) && IsWholeTenths(close * 100.0)
    ensures FractionOrZero(PercentText(booking)) == booking
    ensures FractionOrZero(PercentText(close)) == close
  {
    PercentRoundTrip(booking);
    PercentRoundTrip(close);
  }

  /** A name that is non-empty and not padded is saved as it is. */
  lemma UnpaddedNameIsKept(name: string)
    requires name != [] && !IsWhitespace(name[0]) && !IsWhitespace(name[|name| - 1])
    ensures PayloadName(name) == name
  {
    TrimKeepsUnpadded(name);
    TrimEmptyIffBlank(name);
  }

  /** A hydrated form is gathered back field by field: the name and both percent fields decide. */
  lemma GatherHydrated(s: Scenario)
    requires PayloadName(s.name) == s.name
    requires FractionOrZero(PercentText(s.bookingPct)) == s.bookingPct
    requires FractionOrZero(PercentText(s.closePct)) == s.closePct
    ensures GatherPayload(Hydrate(s)) == InputsOf(s)
  {
  }

  /** An amount field whose text reads as `v` is saved as `v`. */
  lemma NumberOfReading(t: string, v: real)
    requires ToNumber(t) == Some(v)
    ensures NumberOrZero(Text(t)) == v
  {
  }

  /** A field holding a run of digits is saved as the number they spell, or as that number over 100 in a percent field. */
  lemma DigitFieldReads(t: string, n: nat)
    requires t != [] && AllDigits(t) && DigitsValue(t) == n
    ensures NumberOrZero(Text(t)) == n as real
    ensures FractionOrZero(Text(t)) == n as real / 100.0
  {
    ReadsDigits(t);
    NumberOfReading(t, n as real);
    FractionOfReading(t, n as real);
  }

  /** The percent numerals of the default form spell the numbers they show. */
  lemma PercentNumerals()
    ensures AllDigits("8") && DigitsValue("8") == 8
    ensures AllDigits("30") && DigitsValue("30") == 30
  {
    assert AllDigits("8") && DigitsValue("8") == 8 by {
      var s := "8";
      assert s[0] == '8';
    }
    assert AllDigits("30") && DigitsValue("30") == 30 by {
      var s := "30";
      assert s[0] == '3' && s[1] == '0';
      assert ValueIn(s, 0, 1) == 3;
    }
  }

  /** The default current outreach numeral spells the number it shows. */
  lemma OutreachNumeral()
    ensures AllDigits("1000") && DigitsValue("1000") == 1000
  {
    var s := "1000";
    assert s[0] == '1' && s[1] == '0' && s[2] == '0' && s[3] == '0';
    assert ValueIn(s, 0, 1) == 1 && ValueIn(s, 0, 2) == 10 && ValueIn(s, 0, 3) == 100;
  }

  /** The default customer value numeral spells the number it shows. */
  lemma CustomerValueNumeral()
    ensures AllDigits("8000") && DigitsValue("8000") == 8000
  {
    var s := "8000";
    assert s[0] == '8' && s[1] == '0' && s[2] == '0' && s[3] == '0';
    assert ValueIn(s, 0, 1) == 8 && ValueIn(s, 0, 2) == 80 && ValueIn(s, 0, 3) == 800;
  }

  /** The default projected outreach numeral spells the number it shows. */
  lemma ProjectedNumeral()
    ensures AllDigits("2000") && DigitsValue("2000") == 2000
  {
    var s := "2000";
    assert s[0] == '2' && s[1] == '0' && s[2] == '0' && s[3] == '0';
    assert ValueIn(s, 0, 1) == 2 && ValueIn(s, 0, 2) == 20 && ValueIn(s, 0, 3) == 200;
  }

  /** The default investment numeral spells the number it shows. */
  lemma InvestmentNumeral()
    ensures AllDigits("24000") && DigitsValue("24000") == 24000
  {
    var s := "24000";
    assert s[0] == '2' && s[1] == '4' && s[2] == '0' && s[3] == '0' && s[4] == '0';
    assert ValueIn(s, 0, 1) == 2 && ValueIn(s, 0, 2) == 24 && ValueIn(s, 0, 3) == 240;
    assert ValueIn(s, 0, 4) == 2400;
  }

  /** The default amounts read as the numbers they spell. */
  lemma DefaultAmounts()
    ensures NumberOrZero(DefaultForm.currentOutreach) == 1000.0
    ensures NumberOrZero(DefaultForm.avgCustomerValue) == 8000.0
    ensures NumberOrZero(DefaultForm.projectedOutreach) == 2000.0
    ensures NumberOrZero(DefaultForm.inklineInvestment) == 24000.0
  {
    OutreachNumeral();
    CustomerValueNumeral();
    ProjectedNumeral();
    InvestmentNumeral();
    DigitFieldReads("1000", 1000);
    DigitFieldReads("8000", 8000);
    DigitFieldReads("2000", 2000);
    DigitFieldReads("24000", 24000);
  }

  /** The default percentages are saved as fractions. */
  lemma DefaultRates()
    ensures FractionOrZero(DefaultForm.bookingPct) == 0.08
    ensures FractionOrZero(DefaultForm.closePct) == 0.3
  {
    PercentNumerals();
    DigitFieldReads("8", 8);
    DigitFieldReads("30", 30);
  }

  /** A new scenario saved untouched stores the defaults, with the percentages as fractions. */
  lemma DefaultPayload()
    ensures GatherPayload(DefaultForm) == Payload("New Scenario", 1000.0, 0.08, 0.3, 8000.0, 2000.0, 24000.0)
  {
    TrimKeepsUnpadded(DefaultForm.name);
    TrimEmptyIffBlank(DefaultForm.name);
    DefaultAmounts();
    DefaultRates();
  }

  /** `scenarios.find(s => s.id === activeId) || null`. */
  function FindById(scenarios: seq<Scenario>, id: Option<string>): (r: Option<Scenario>)
    ensures r.Some? ==> id.Some? && r.value in scenarios && r.value.id == id.value
    ensures r.None? <==> id.None? || forall s :: s in scenarios ==> s.id != id.value
  {
    if id.None? then None else Find(scenarios, (s: Scenario) => s.id == id.value)
  }

  /** With unique ids the lookup finds exactly the entry carrying the id. */
  lemma FindByIdUnique(scenarios: seq<Scenario>, i: nat)
    requires UniqueIds(scenarios) && i < |scenarios|
    ensures FindById(scenarios, Some(scenarios[i].id)) == Some(scenarios[i])
  {
    var r := FindById(scenarios, Some(scenarios[i].id));
    assert scenarios[i] in scenarios;
    var k :| 0 <= k < |scenarios| && scenarios[k] == r.value;
    assert k == i;
  }

  /** Clicking the sidebar entry `i` makes that entry the active scenario and the only highlighted one. */
  lemma SelectingAnEntry(scenarios: seq<Scenario>, i: nat)
    requires UniqueIds(scenarios) && i < |scenarios|
    ensures var id := Entries(scenarios, None)[i].selects;
      && FindById(scenarios, Some(id)) == Some(scenarios[i])
      && forall j :: 0 <= j < |scenarios| ==> (Entries(scenarios, Some(id))[j].highlighted <==> j == i)
  {
    FindByIdUnique(scenarios, i);
  }

  /** `prev.map(s => s.id === id ? record : s)`. */
  function ReplaceById(scenarios: seq<Scenario>, id: string, record: Scenario): (r: seq<Scenario>)
    ensures |r| == |scenarios|
    ensures forall i :: 0 <= i < |r| ==> r[i] == if scenarios[i].id == id then record else scenarios[i]
  {
    seq(|scenarios|, i requires 0 <= i < |scenarios| => if scenarios[i].id == id then record else scenarios[i])
  }

  /** An update whose record keeps its id keeps the ids unique and makes the record the one found under that id. */
  lemma ReplaceKeepsIdentity(scenarios: seq<Scenario>, id: string, record: Scenario)
    requires UniqueIds(scenarios) && record.id == id
    ensures UniqueIds(ReplaceById(scenarios, id, record))
    ensures (exists s :: s in scenarios && s.id == id) ==> FindById(ReplaceById(scenarios, id, record), Some(id)) == Some(record)
    ensures (forall s :: s in scenarios ==> s.id != id) ==> ReplaceById(scenarios, id, record) == scenarios
  {
    var r := ReplaceById(scenarios, id, record);
    assert forall i :: 0 <= i < |r| ==> r[i].id == scenarios[i].id;
    if s :| s in scenarios && s.id == id {
      var i :| 0 <= i < |scenarios| && scenarios[i] == s;
      FindByIdUnique(r, i);
    }
  }

  /** `prev.filter(s => s.id !== id)`. */
  function RemoveById(scenarios: seq<Scenario>, id: string): (r: seq<Scenario>)
    ensures forall s :: s in r <==> s in scenarios && s.id != id
  {
    Filter(scenarios, (s: Scenario) => s.id != id)
  }

  /** Removing keeps the order: it works block by block, and leaves alone a list without the id. */
  lemma RemoveByIdKeepsOrder(front: seq<Scenario>, back: seq<Scenario>, id: string)
    ensures RemoveById(front + back, id) == RemoveById(front, id) + RemoveById(back, id)
    ensures (forall s :: s in front ==> s.id != id) ==> RemoveById(front, id) == front
  {
    FilterAppend(front, back, (s: Scenario) => s.id != id);
    if forall s :: s in front ==> s.id != id {
      FilterKeepsAll(front, (s: Scenario) => s.id != id);
    }
  }

  /** A delete keeps the ids unique. */
  lemma {:induction false} RemoveKeepsIdsUnique(scenarios: seq<Scenario>, id: string)
    requires UniqueIds(scenarios)
    ensures UniqueIds(RemoveById(scenarios, id))
  {
    if scenarios != [] {
      UniqueSplit(scenarios);
      RemoveKeepsIdsUnique(scenarios[1..], id);
      if scenarios[0].id != id {
        UniqueCons(scenarios[0], RemoveById(scenarios[1..], id));
      }
    }
  }

  /** In a list with unique ids the head's id is not used again, and the tail has unique ids. */
  lemma UniqueSplit(scenarios: seq<Scenario>)
    requires UniqueIds(scenarios) && scenarios != []
    ensures UniqueIds(scenarios[1..])
    ensures forall s :: s in scenarios[1..] ==> s.id != scenarios[0].id
  {
    forall s | s in scenarios[1..]
      ensures s.id != scenarios[0].id
    {
      var m :| 0 <= m < |scenarios[1..]| && scenarios[1..][m] == s;
      assert scenarios[m + 1] == s;
    }
  }

  /** A scenario whose id the list does not use can be put in front of it. */
  lemma UniqueCons(first: Scenario, rest: seq<Scenario>)
    requires UniqueIds(rest) && forall s :: s in rest ==> s.id != first.id
    ensures UniqueIds([first] + rest)
  {
    var r := [first] + rest;
    forall i, j | 0 <= i < j < |r|
      ensures r[i].id != r[j].id
    {
      assert r[j] == rest[j - 1] && rest[j - 1] in rest;
      if i > 0 {
        assert r[i] == rest[i - 1];
      }
    }
  }

  /** `remaining[0]?.id ?? null`: the id selected after a delete, never the deleted one. */
  function NextActive(scenarios: seq<Scenario>, id: string): (next: Option<string>)
    ensures next != Some(id)
    ensures next.None? <==> forall s :: s in scenarios ==> s.id == id
    ensures next.Some? ==> FindById(RemoveById(scenarios, id), next) == Some(RemoveById(scenarios, id)[0])
  {
    var remaining := RemoveById(scenarios, id);
    if remaining == [] then None
    else
      assert remaining[0] in remaining;
      Some(remaining[0].id)
  }

  /** Deleting the only scenario leaves nothing selected, and the results panel shows its empty state. */
  lemma DeleteOnlyScenario(s: Scenario)
    ensures RemoveById([s], s.id) == []
    ensures NextActive([s], s.id) == None
    ensures FindById(RemoveById([s], s.id), NextActive([s], s.id)) == None
  {
    var r := RemoveById([s], s.id);
    assert forall i :: 0 <= i < |r| ==> r[i] in r;
  }

  /** JavaScript truthiness of the active id: null and the empty string are both "no scenario". */
  predicate IsSet(activeId: Option<string>)
  {
    activeId.Some? && activeId.value != []
  }

  /** The store request `handleSave` issues: an update keyed by the active id, or an insert owned by the user. */
  datatype SaveRequest = Update(id: string, payload: Payload) | Insert(payload: Payload, ownerId: string)

  /** Which request a save dispatches: an active id means update, none means create. */
  function SaveRequestFor(activeId: Option<string>, form: Form, userId: string): (r: SaveRequest)
    ensures r.Update? <==> IsSet(activeId)
    ensures r.Update? ==> r.id == activeId.value
    ensures r.Insert? ==> r.ownerId == userId
    ensures r.payload == GatherPayload(form)
  {
    if IsSet(activeId) then Update(activeId.value, GatherPayload(form))
    else Insert(GatherPayload(form), userId)
  }

  /** The list after the store answered a save request. */
  function AfterSave(scenarios: seq<Scenario>, request: SaveRequest, reply: Result<Scenario>): (r: seq<Scenario>)
    ensures reply.Err? ==> r == scenarios
    ensures forall s :: s in r ==> s in scenarios || reply == Ok(s)
    ensures request.Update? ==> |r| == |scenarios|
    ensures reply.Ok? && request.Insert? ==> |r| == |scenarios| + 1 && r[0] == reply.value && r[1..] == scenarios
  {
    match reply
    case Err(_) => scenarios
    case Ok(record) =>
      match request
      case Update(id, _) => ReplaceById(scenarios, id, record)
      case Insert(_, _) => [record] + scenarios
  }

  /** The active id after the store answered a save request: only a created record changes it. */
  function ActiveAfterSave(activeId: Option<string>, request: SaveRequest, reply: Result<Scenario>): (r: Option<string>)
    ensures r != activeId ==> reply.Ok? && request.Insert? && r == Some(reply.value.id)
  {
    if reply.Ok? && request.Insert? then Some(reply.value.id) else activeId
  }

  /**
   * What a save does to the working set: a failure changes nothing; an update keeps the
   * length and the active id; a create adds one entry in front and makes it active.
   */
  lemma SaveOutcome(scenarios: seq<Scenario>, activeId: Option<string>, request: SaveRequest, reply: Result<Scenario>)
    ensures reply.Err? ==> AfterSave(scenarios, request, reply) == scenarios && ActiveAfterSave(activeId, request, reply) == activeId
    ensures request.Update? ==> |AfterSave(scenarios, request, reply)| == |scenarios| && ActiveAfterSave(activeId, request, reply) == activeId
    ensures reply.Ok? && request.Insert? ==>
      && |AfterSave(scenarios, request, reply)| == |scenarios| + 1
      && AfterSave(scenarios, request, reply)[1..] == scenarios
      && FindById(AfterSave(scenarios, request, reply), ActiveAfterSave(activeId, request, reply)) == Some(reply.value)
  {
    if reply.Ok? && request.Insert? {
      var r := [reply.value] + scenarios;
      assert r[1..] == scenarios;
      assert r[0] == reply.value;
    }
  }

  /**
   * A save keeps the ids unique, provided the store answers an update with the row it
   * updated and a create with a fresh id (the table's primary key).
   */
  lemma SaveKeepsIdsUnique(scenarios: seq<Scenario>, request: SaveRequest, reply: Result<Scenario>)
    requires UniqueIds(scenarios)
    requires reply.Ok? && request.Update? ==> reply.value.id == request.id
    requires reply.Ok? && request.Insert? ==> forall s :: s in scenarios ==> s.id != reply.value.id
    ensures UniqueIds(AfterSave(scenarios, request, reply))
  {
    if reply.Ok? {
      if request.Update? {
        ReplaceKeepsIdentity(scenarios, request.id, reply.value);
      } else {
        UniqueCons(reply.value, scenarios);
      }
    }
  }

  /** The working set of the calculator page. */
  class Workspace {
    var scenarios: seq<Scenario>
    var activeId: Option<string>
    var saving: bool
    var form: Form

    /** The initial state: nothing loaded, nothing selected, the default form. */
    constructor ()
      ensures scenarios == [] && activeId == None && !saving && form == DefaultForm
    {
      scenarios := [];
      activeId := None;
      saving := false;
      form := DefaultForm;
    }

    /** `activeScenario`. */
    function ActiveScenario(): (r: Option<Scenario>)
      reads this
      ensures r.Some? ==> r.value in scenarios && Some(r.value.id) == activeId
    {
      FindById(scenarios, activeId)
    }

    /** The form-hydration effect: with an active scenario the form shows its inputs; without one the form is kept. */
    method SyncForm()
      modifies this`form
      ensures form == if ActiveScenario().Some? then Hydrate(ActiveScenario().value) else old(form)
    {
      var active := ActiveScenario();
      if active.Some? {
        form := Hydrate(active.value);
      }
    }

    /** `onScenarioSelect`: a sidebar click sets the active id. */
    method Select(id: string)
      modifies this`activeId
      ensures activeId == Some(id)
    {
      activeId := Some(id);
    }

    /**
     * `handleSave` up to its store call: without a signed-in user nothing happens; otherwise
     * `saving` is set and the request is the one `SaveRequestFor` dispatches.
     */
    method BeginSave(user: Option<string>) returns (request: Option<SaveRequest>)
      modifies this`saving
      ensures user.None? ==> request.None? && saving == old(saving)
      ensures user.Some? ==> request == Some(SaveRequestFor(activeId, form, user.value)) && saving
    {
      if user.None? {
        return None;
      }
      saving := true;
      request := Some(SaveRequestFor(activeId, form, user.value));
    }

    /** `handleSave` after the store answered: the list and active id are updated on success; `saving` is cleared either way. */
    method FinishSave(request: SaveRequest, reply: Result<Scenario>)
      modifies this`scenarios, this`activeId, this`saving
      ensures scenarios == AfterSave(old(scenarios), request, reply)
      ensures activeId == ActiveAfterSave(old(activeId), request, reply)
      ensures !saving
    {
      match reply {
        case Ok(record) =>
          match request {
            case Update(id, _) =>
              scenarios := ReplaceById(scenarios, id, record);
            case Insert(_, _) =>
              scenarios := [record] + scenarios;
              activeId := Some(record.id);
          }
        case Err(_) =>
      }
      saving := false;
    }

    /** `handleSave` run to completion without other handlers in between. */
    method Save(user: Option<string>, reply: Result<Scenario>) returns (request: Option<SaveRequest>)
      modifies this`scenarios, this`activeId, this`saving
      ensures user.None? ==> request.None? && scenarios == old(scenarios) && activeId == old(activeId) && saving == old(saving)
      ensures user.Some? ==> request == Some(SaveRequestFor(old(activeId), form, user.value))
      ensures user.Some? ==> scenarios == AfterSave(old(scenarios), request.value, reply)
      ensures user.Some? ==> activeId == ActiveAfterSave(old(activeId), request.value, reply)
      ensures user.Some? ==> !saving
    {
      request := BeginSave(user);
      if request.Some? {
        FinishSave(request.value, reply);
      }
    }

    /**
     * `handleDelete`: without an active id or without confirmation nothing happens and no
     * request is sent; a failed delete changes nothing; a successful one drops every entry
     * with the id and selects the first remaining one.
     */
    method Delete(confirmed: bool, reply: Result<()>) returns (request: Option<string>)
      modifies this`scenarios, this`activeId
      ensures request == if confirmed && IsSet(old(activeId)) then old(activeId) else None
      ensures request.None? || reply.Err? ==> scenarios == old(scenarios) && activeId == old(activeId)
      ensures request.Some? && reply.Ok? ==>
        && scenarios == RemoveById(old(scenarios), request.value)
        && activeId == NextActive(old(scenarios), request.value)
    {
      if !IsSet(activeId) || !confirmed {
        return None;
      }
      var id := activeId.value;
      request := Some(id);
      if reply.Ok? {
        var before := scenarios;
        scenarios := RemoveById(before, id);
        activeId := NextActive(before, id);
      }
    }

    /** `handleNewScenario`: nothing selected and the default form. */
    method NewScenario()
      modifies this`activeId, this`form
      ensures activeId == None && form == DefaultForm
      ensures ActiveScenario() == None
    {
      activeId := None;
      form := DefaultForm;
    }

    /** The sign-out branch of the auth listener: the list is emptied and nothing is selected. */
    method SignedOut()
      modifies this`scenarios, this`activeId
      ensures scenarios == [] && activeId == None
    {
      scenarios := [];
      activeId := None;
    }
  }
}
