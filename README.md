# Inkline Smart Returns: the scenario working set and its rules, in Dafny

Inkline Smart Returns is a calculator page where a signed-in user keeps a list of ROI
scenarios. Each scenario stores six inputs (outreach, booking and close rates, customer
value, projected outreach, Inkline investment) and the metrics the store computes from
them. Admin pages list every user and every scenario and show totals.

This project models the client-side logic of that page and of the admin pages:

- `RoiCalculator` (`roi_calculator.dfy`) is the calculator's working set: the scenario list,
  the active id, the `saving` flag and the seven form fields. It is a `Workspace` class whose
  methods are the save, delete, new-scenario and sign-out handlers, the sidebar selection and
  the effect that fills the form from the active scenario. The form normalisation
  (`gatherPayload`) and the hydration are functions, and lemmas prove the round trips
  between them.
- `JsText` (`js_text.dfy`) gives the JavaScript conversions the form relies on:
  `String.prototype.trim`, `Number(text)` for decimal text (`None` stands for NaN) and
  `toFixed(1)` over reals. It proves that reading back what `toFixed(1)` shows gives the
  value rounded to a tenth.
- `ScenarioSidebar` and `ScenarioResults` hold the `Scenario` record and the display rules:
  the three-way ROI classification, the null and NaN guards of the formatters, the list
  highlight and the net gain/loss style. In the record, only `org_id`, `leads_needed`,
  `outreach_needed` and `roi` are `Option`s.
- `UserRole` is the role hook: the role query, its fall-back to `user`, and `isAdmin`/`isUser`.
- `UserManagement`, `ScenarioManagement` and `AdminStats` are the admin pages. They cover
  the profile/role merge, the owner-email join, the local list edits after a store call, the
  invitation form, and the totals and mean ROI.
- `Wrappers` and `Lists` are shared `Option`/`Result` types and `Filter`/`Find`.

Store calls, `confirm()` and the signed-in user are parameters. A store reply is a
`Result`, so every handler is specified for both the success path and the failure path.
Numbers are `real`.

The code is followed wherever a description of the system says something different:

- No client code computes the derived metrics (leads, customers, revenue, ROI, breakeven).
  The saved record comes back from the store complete, and the model treats it as opaque.
- `handleSave` does not reject a second save while one is running, and it does not skip a
  save when nothing was edited. The only guard is the disabled button at
  src/components/roi/ScenarioInputs.tsx:159. The model's `Save` therefore has no such
  precondition.
- Inputs are not checked for being non-negative. Unparseable text becomes 0.
- A save that finishes after the user has moved on is applied anyway. No check compares the
  save's scenario with the current one.
- Starting a new scenario clears the active id, but the reload effect (src/components/ROICalculator.tsx:89-91) runs again when the active id changes and selects the first loaded scenario once the reload lands. That effect is not modelled, so `Workspace.NewScenario`'s "no scenario active" holds only until then.
- After a delete, the new active scenario is the first remaining entry of the list. The list
  order is the store's `updated_at` order, changed by later creates and in-place updates.

## Model

| member | source | states |
|---|---|---|
| JsText.Trim | src/components/ROICalculator.tsx:119 | the trimmed text is no longer than the input and, unless empty, neither starts nor ends with whitespace; TrimDropsOnlyBlanks fixes its contents |
| JsText.TrimDropsOnlyBlanks | src/components/ROICalculator.tsx:119 | `trim()` returns a contiguous middle of the text, and everything it drops before and after that middle is whitespace |
| JsText.TrimEmptyIffBlank | src/components/ROICalculator.tsx:119 | `trim()` gives the empty string exactly when every character is whitespace |
| JsText.TrimIdempotent | src/components/ROICalculator.tsx:119 | trimming a trimmed name changes nothing |
| JsText.ToNumber | src/components/ROICalculator.tsx:120-125 | `Number(text)` for decimal text, NaN as no value: surrounding whitespace ignored, blank text 0, optional sign, digits with an optional fraction and exponent; its readings are the lemmas below |
| JsText.BlankReadsZero | src/components/ROICalculator.tsx:120-125 | blank text, the empty string included, reads as 0 |
| JsText.ReadsDigits | src/components/ROICalculator.tsx:120 | `Number` of text made only of digits is the number those digits spell |
| JsText.ToFixed1 | src/components/ROICalculator.tsx:103-104 | `x.toFixed(1)` is non-empty, starts without whitespace and ends in a digit; ToFixed1RoundTrip says which number it shows |
| JsText.ToFixed1RoundTrip | src/components/ROICalculator.tsx:103-104 | `Number(x.toFixed(1))` is x rounded to the nearest tenth, ties away from zero, for every real x |
| JsText.RoundTenthIsClose | src/components/ROICalculator.tsx:103-104 | rounding to a tenth moves a value by at most 0.05 |
| JsText.RoundTenthKeepsTenths | src/components/ROICalculator.tsx:103-104 | a value with at most one decimal is left unchanged by the rounding |
| RoiCalculator.PayloadName | src/components/ROICalculator.tsx:119 | the saved name is never empty and never padded; it is the trimmed name when that has a visible character, otherwise "Untitled Scenario" |
| RoiCalculator.NumberOrZero | src/components/ROICalculator.tsx:120-125 | an unparseable (NaN) field saves 0, and a parseable one saves its number |
| RoiCalculator.FractionOrZero | src/components/ROICalculator.tsx:121-122 | an unparseable percent field saves 0; a parseable one saves its number divided by 100 |
| RoiCalculator.GatherPayload | src/components/ROICalculator.tsx:118-126 | the payload's name is non-empty and unpadded; each amount field saves its number and each percent field a hundredth of its number, with 0 for a field that is not a number |
| RoiCalculator.Hydrate | src/components/ROICalculator.tsx:98-108 | the form shows the scenario's name, and its amount fields read back as exactly the stored amounts; the percent fields hold `(f * 100).toFixed(1)` (see PercentFieldReads) |
| RoiCalculator.PercentSavedAsFraction | src/components/ROICalculator.tsx:121-122 | a percentage in [0, 100] is saved as a fraction in [0, 1] |
| RoiCalculator.PercentFieldReads | src/components/ROICalculator.tsx:103-104 | a hydrated percent field saves the stored fraction rounded to a tenth of a percent |
| RoiCalculator.PercentRoundTripIsClose | src/components/ROICalculator.tsx:103-104 | hydrating a fraction and saving it again moves it by at most 0.0005 |
| RoiCalculator.PercentRoundTrip | src/components/ROICalculator.tsx:103-104 | a fraction whose percent has at most one decimal survives hydration and saving unchanged |
| RoiCalculator.EightPercentRoundTrip | src/components/ROICalculator.tsx:121 | entering "8" saves 0.08, and 0.08 is shown again as "8.0" |
| RoiCalculator.HydrateThenGather | src/components/ROICalculator.tsx:98-126 | saving right after hydration sends back the scenario's own inputs, when its name is unpadded and non-empty and its percentages have at most one decimal |
| RoiCalculator.DigitFieldReads | src/components/ROICalculator.tsx:120-125 | a field holding a run of digits saves the number they spell, or that number over 100 in a percent field |
| RoiCalculator.UnpaddedNameIsKept | src/components/ROICalculator.tsx:119 | a non-empty name without surrounding whitespace is saved exactly as typed |
| RoiCalculator.DefaultAmounts | src/components/ROICalculator.tsx:27-33 | the default amounts read as 1000, 8000, 2000 and 24000 |
| RoiCalculator.DefaultRates | src/components/ROICalculator.tsx:29-30 | the default rates "8" and "30" are saved as 0.08 and 0.3 |
| RoiCalculator.DefaultPayload | src/components/ROICalculator.tsx:27-33 | an untouched new scenario saves "New Scenario", 1000, 0.08, 0.3, 8000, 2000, 24000 |
| RoiCalculator.FindById | src/components/ROICalculator.tsx:35-38 | the active scenario is absent exactly when no id is set or no entry has it; when present it is in the list and carries the id |
| RoiCalculator.FindByIdUnique | src/components/ROICalculator.tsx:35-38 | with unique ids the lookup returns exactly the entry carrying the id |
| RoiCalculator.SelectingAnEntry | src/components/ROICalculator.tsx:290 | clicking entry i makes scenario i the active scenario and the only highlighted entry |
| RoiCalculator.ReplaceById | src/components/ROICalculator.tsx:153 | the update keeps the length; entries with the id become the record and every other entry is unchanged |
| RoiCalculator.ReplaceKeepsIdentity | src/components/ROICalculator.tsx:153 | an update keeps ids unique, makes the record the active scenario, and changes nothing when no entry has the id |
| RoiCalculator.RemoveById | src/components/ROICalculator.tsx:196-197 | after a delete no entry has the id, and every other entry is kept |
| RoiCalculator.RemoveByIdKeepsOrder | src/components/ROICalculator.tsx:196-197 | removal works block by block, so the remaining entries keep their order, and a list without the id is left unchanged |
| RoiCalculator.RemoveKeepsIdsUnique | src/components/ROICalculator.tsx:196-197 | a delete keeps the ids of the list unique |
| RoiCalculator.NextActive | src/components/ROICalculator.tsx:197-198 | the next active id is never the deleted one; it is null exactly when nothing else remains, otherwise the first remaining entry |
| RoiCalculator.DeleteOnlyScenario | src/components/ROICalculator.tsx:196-198 | deleting the only scenario leaves an empty list and no active scenario |
| RoiCalculator.SaveRequestFor | src/components/ROICalculator.tsx:142-162 | a save updates by the active id when one is set (non-empty), and otherwise creates a record owned by the user; either way it sends the gathered form |
| RoiCalculator.AfterSave | src/components/ROICalculator.tsx:151-169 | a failure keeps the list; an update keeps its length; a create puts the returned record in front of the old list; no entry appears that was neither there nor returned |
| RoiCalculator.ActiveAfterSave | src/components/ROICalculator.tsx:151-169 | the active id changes only after a successful create, and then to the created record's id |
| RoiCalculator.SaveOutcome | src/components/ROICalculator.tsx:151-169 | a failure changes nothing; an update keeps the length and the active id; a create prepends one record and makes it active |
| RoiCalculator.SaveKeepsIdsUnique | src/components/ROICalculator.tsx:151-169 | a save keeps the ids unique when the store answers an update with the row it updated and a create with a fresh id |
| RoiCalculator.Workspace.constructor | src/components/ROICalculator.tsx:19-33 | the initial state is an empty list, no active id, not saving, and the default form |
| RoiCalculator.Workspace.ActiveScenario | src/components/ROICalculator.tsx:35-38 | the active scenario is a list entry whose id is the active id |
| RoiCalculator.Workspace.SyncForm | src/components/ROICalculator.tsx:98-108 | with an active scenario the form shows its inputs; without one the form is kept |
| RoiCalculator.Workspace.Select | src/components/ROICalculator.tsx:290 | a sidebar click sets the active id |
| RoiCalculator.Workspace.BeginSave | src/components/ROICalculator.tsx:128-139 | without a user nothing is sent and nothing changes; with one `saving` is set and the dispatched request is issued |
| RoiCalculator.Workspace.FinishSave | src/components/ROICalculator.tsx:141-184 | the list and active id follow the save outcome, the form is untouched, and `saving` is false after either outcome |
| RoiCalculator.Workspace.Save | src/components/ROICalculator.tsx:128-185 | the whole handler: no user means no request and no change; otherwise the request, the new list and active id, and `saving` false |
| RoiCalculator.Workspace.Delete | src/components/ROICalculator.tsx:187-212 | no active id or no confirmation sends nothing; failure changes nothing; success removes the id and selects the first remaining entry |
| RoiCalculator.Workspace.NewScenario | src/components/ROICalculator.tsx:214-223 | no scenario is active and the form holds the defaults |
| RoiCalculator.Workspace.SignedOut | src/components/ROICalculator.tsx:47-50 | signing out empties the list and clears the active id |
| ScenarioSidebar.PercentLabel | src/components/roi/ScenarioSidebar.tsx:56 | a non-null ROI is shown as a non-empty text ending in "%"; PercentLabelReads gives its value |
| ScenarioSidebar.PercentLabelReads | src/components/roi/ScenarioSidebar.tsx:56 | the label without its "%" reads back as the ROI fraction times 100, rounded to one decimal |
| ScenarioSidebar.FormatRoiAsWritten | src/components/roi/ScenarioSidebar.tsx:54-57 | as written, the badge text is the misencoded literal exactly for a null ROI, and otherwise the same percent label as the corrected `FormatRoi` |
| ScenarioSidebar.FormatRoi | src/components/roi/ScenarioSidebar.tsx:54-57 | the badge text is the placeholder exactly when the ROI is null |
| ScenarioSidebar.AsWrittenPlaceholderIsNotDash | src/components/roi/ScenarioSidebar.tsx:55 | the literal written for a null ROI is three characters and is not the em dash |
| ScenarioSidebar.PlaceholderIsNeverAPercentage | src/components/roi/ScenarioSidebar.tsx:54-57 | no ROI value is shown with the null placeholder, with either literal |
| ScenarioSidebar.RoiColor | src/components/roi/ScenarioSidebar.tsx:59-62 | "secondary" exactly for null, "success" exactly for roi >= 0, "destructive" exactly for roi < 0 |
| ScenarioSidebar.EntryOf | src/components/roi/ScenarioSidebar.tsx:85-113 | a button selects its scenario's id and shows its name, is highlighted exactly for the active id, and its badge uses RoiColor and the corrected FormatRoi, so it shows the em dash exactly for a null ROI |
| ScenarioSidebar.Entries | src/components/roi/ScenarioSidebar.tsx:85-113 | one button per scenario, in list order |
| ScenarioSidebar.EntryHighlightRule | src/components/roi/ScenarioSidebar.tsx:88-93 | an entry is highlighted exactly when its id is the active id, and clicking it selects its own id |
| ScenarioSidebar.AtMostOneHighlighted | src/components/roi/ScenarioSidebar.tsx:89-93 | with unique ids at most one entry is highlighted |
| ScenarioResults.FormatCurrency | src/components/roi/ScenarioResults.tsx:12-19 | null, undefined and NaN give the placeholder; a number gives its currency amount |
| ScenarioResults.FormatNumber | src/components/roi/ScenarioResults.tsx:21-24 | null, undefined and NaN give the placeholder; a number gives its grouped form |
| ScenarioResults.FormatPercent | src/components/roi/ScenarioResults.tsx:26-29 | the em dash exactly for null, undefined and NaN; otherwise the fraction times 100 with one decimal and "%" |
| ScenarioResults.GetRoiStatus | src/components/roi/ScenarioResults.tsx:31-35 | null gives secondary/Calculating...; "Positive ROI" exactly for roi >= 0 and "Negative ROI" exactly for roi < 0 |
| ScenarioResults.StatusAgreesWithSidebar | src/components/roi/ScenarioResults.tsx:31-35 | the results status colour equals the sidebar colour for every ROI |
| ScenarioResults.SidebarLabelMatchesResults | src/components/roi/ScenarioResults.tsx:26-29 | with the corrected placeholder, the sidebar badge text equals the results badge text for every ROI |
| ScenarioResults.AsWrittenSidebarDisagrees | src/components/roi/ScenarioSidebar.tsx:55 | as written, a null ROI reads differently in the sidebar and in the results panel |
| ScenarioResults.NetGain | src/components/roi/ScenarioResults.tsx:207-209 | the net figure plus the investment is the revenue increase, so it is non-negative exactly when the increase covers the investment |
| ScenarioResults.NetGainStyle | src/components/roi/ScenarioResults.tsx:207-208 | the net figure is styled as success exactly when the revenue increase covers the investment |
| ScenarioResults.Render | src/components/roi/ScenarioResults.tsx:37-49 | the "No Scenario Selected" state is shown exactly when there is no scenario |
| ScenarioResults.RenderPlaceholders | src/components/roi/ScenarioResults.tsx:51-208 | only the nullable breakeven and ROI cells can show the placeholder, and only when they are null; the net cell is revenue increase minus investment |
| UserRole.LeastRole | src/hooks/useUserRole.tsx:18-26 | the role query finds nothing exactly when the user has no row, and finds admin exactly when the user has an admin row |
| UserRole.StoreReply | src/hooks/useUserRole.tsx:18-28 | the `single()` reply is a query error exactly when the user has no role row, and otherwise the user's role as the table gives it, never an empty role |
| UserRole.ResolvedRole | src/hooks/useUserRole.tsx:11-36 | no role exactly when there is no user; admin exactly when the store answered admin; every error falls back to user |
| UserRole.AdminIffAdminRow | src/hooks/useUserRole.tsx:18-32 | a signed-in user resolves to admin exactly when the role table has an admin row for them |
| UserRole.RoleHook.constructor | src/hooks/useUserRole.tsx:8-9 | the hook starts with no role, loading |
| UserRole.RoleHook.Resolve | src/hooks/useUserRole.tsx:11-43 | the role becomes the resolved role and `loading` is false after every outcome |
| UserRole.RoleHook.IsAdmin | src/hooks/useUserRole.tsx:45-50 | `isAdmin` holds exactly when the role is admin; ResolvedIsAdminXorUser relates it to the store's answer |
| UserRole.RoleHook.IsUser | src/hooks/useUserRole.tsx:45-50 | `isUser` holds exactly when the role is user |
| UserRole.ResolvedIsAdminXorUser | src/hooks/useUserRole.tsx:45-50 | once resolved, exactly one of isAdmin and isUser holds when a user is present; isAdmin only on an admin answer |
| UserManagement.RowsOf | src/components/admin/UserManagement.tsx:72 | a user's role rows are exactly the table's rows with their id |
| UserManagement.PrimaryRole | src/components/admin/UserManagement.tsx:74-75 | the primary role is admin exactly when some row is admin; otherwise it is user, also with no rows |
| UserManagement.MergedAdminIffAdminRow | src/components/admin/UserManagement.tsx:71-80 | a merged user is admin exactly when the table has an admin row for their id |
| UserManagement.MergeAgreesWithRoleHook | src/components/admin/UserManagement.tsx:74-75 | the admin list and the role hook give every user the same role |
| UserManagement.MergeUsers | src/components/admin/UserManagement.tsx:71-80 | one user per profile, same length and order, profile fields kept, admin exactly with an admin row |
| UserManagement.SetRole | src/components/admin/UserManagement.tsx:164-166 | length and profile fields kept; only entries with the id take the new role |
| UserManagement.RemoveUser | src/components/admin/UserManagement.tsx:205 | exactly the entries with the id are removed |
| UserManagement.RemoveUserKeepsOrder | src/components/admin/UserManagement.tsx:205 | removal works block by block, so order is kept, and it leaves a list without the id unchanged |
| UserManagement.InvitedBy | src/components/admin/UserManagement.tsx:119 | the inviter is never empty; it is the profile email, else the auth email, else "Administrator", with empty emails skipped |
| UserManagement.UserDirectory.constructor | src/components/admin/UserManagement.tsx:36-41 | no users, loading, an empty invitation form for a user role, dialog closed |
| UserManagement.UserDirectory.LoadUsers | src/components/admin/UserManagement.tsx:48-93 | with both tables read the list is the merge; on an error it is kept; `loading` ends false |
| UserManagement.UserDirectory.UpdateUserRole | src/components/admin/UserManagement.tsx:154-180 | on success the list is the role edit; on error it is unchanged |
| UserManagement.UserDirectory.DeleteUser | src/components/admin/UserManagement.tsx:182-219 | declined sends nothing; the role delete is sent only after the profile delete worked; the list changes only when both worked |
| UserManagement.UserDirectory.SendInvitation | src/components/admin/UserManagement.tsx:95-152 | a blank email sends nothing and changes nothing; otherwise the trimmed email, role and inviter are sent, success resets the form and closes the dialog, and `isInviting` ends false |
| ScenarioManagement.OwnerEmail | src/components/admin/ScenarioManagement.tsx:51 | the email of the first profile with the owner's id, and absent exactly when none matches |
| ScenarioManagement.JoinEmails | src/components/admin/ScenarioManagement.tsx:49-52 | same length and order, every record unchanged, each with its owner's email |
| ScenarioManagement.OwnerLabel | src/components/admin/ScenarioManagement.tsx:149 | a missing or empty email shows as "Unknown", any other email as itself |
| ScenarioManagement.BadgeVariant | src/components/admin/ScenarioManagement.tsx:156-159 | "secondary" exactly for null, "default" exactly for roi >= 0, "destructive" exactly for roi < 0 |
| ScenarioManagement.BadgeAgreesWithSidebar | src/components/admin/ScenarioManagement.tsx:156-159 | the admin badge splits ROIs exactly as the sidebar colour does |
| ScenarioManagement.RemoveListed | src/components/admin/ScenarioManagement.tsx:81 | exactly the entries with the id are removed |
| ScenarioManagement.RemoveListedKeepsOrder | src/components/admin/ScenarioManagement.tsx:81 | removal works block by block, so order is kept, and it leaves a list without the id unchanged |
| ScenarioManagement.ScenarioAdmin.constructor | src/components/admin/ScenarioManagement.tsx:23-24 | nothing loaded, loading |
| ScenarioManagement.ScenarioAdmin.LoadScenarios | src/components/admin/ScenarioManagement.tsx:31-65 | with both tables read the list is the join; on an error it is kept; `loading` ends false |
| ScenarioManagement.ScenarioAdmin.DeleteScenario | src/components/admin/ScenarioManagement.tsx:67-95 | declined sends nothing; the list changes only when the store deleted the row |
| AdminStats.TotalInvestment | src/components/admin/AdminStats.tsx:43 | the `reduce` over investments with a missing one as 0; TotalInvestmentAppend and TotalInvestmentNonNegative state its laws |
| AdminStats.TotalInvestmentAppend | src/components/admin/AdminStats.tsx:43 | the investment total of two row lists together is the sum of their totals |
| AdminStats.TotalInvestmentNonNegative | src/components/admin/AdminStats.tsx:43 | rows without a negative investment have a non-negative total |
| AdminStats.ValidRois | src/components/admin/AdminStats.tsx:44 | the present ROIs are exactly the non-null ones, and there are none exactly when every ROI is null |
| AdminStats.ValidRoisAppend | src/components/admin/AdminStats.tsx:44 | the present ROIs of two row lists together are those of the first followed by those of the second |
| AdminStats.ValidRoisOfRow | src/components/admin/AdminStats.tsx:44 | a single row contributes its ROI when it has one and nothing otherwise, so every non-null row counts once, duplicates included |
| AdminStats.SumBounds | src/components/admin/AdminStats.tsx:46 | a sum of values between lo and hi lies between n copies of lo and n copies of hi |
| AdminStats.AvgRoi | src/components/admin/AdminStats.tsx:44-47 | the sum of the present ROIs over their number, or 0 with none; AvgRoiBounds and AvgRoiIsMean state what it means |
| AdminStats.AvgRoiBounds | src/components/admin/AdminStats.tsx:44-47 | the mean is 0 with no present ROI, and otherwise lies between the least and greatest present ROI |
| AdminStats.AvgRoiIsMean | src/components/admin/AdminStats.tsx:45-47 | with present ROIs, as many copies of the mean as there are ROIs add up to their sum (so it is their arithmetic mean) |
| AdminStats.ComputeStats | src/components/admin/AdminStats.tsx:42-54 | the scenario count is the number of rows, the user count is the returned count or 0, and the totals are the investment sum and the mean ROI |
| AdminStats.StatsPanel.constructor | src/components/admin/AdminStats.tsx:14-20 | all figures start at zero, loading |
| AdminStats.StatsPanel.LoadStats | src/components/admin/AdminStats.tsx:26-60 | with both queries answered the figures are recomputed; on an error they keep their values; `loading` ends false |

## Left out

- The auth listener, session handling and the effect that reloads the list and selects its first entry (src/components/ROICalculator.tsx:41-95) are asynchronous I/O. Only their sign-out clearing is modelled, as `Workspace.SignedOut`.
- Supabase queries, the edge functions under supabase/functions, toasts and `confirm()` dialogs are I/O. Store replies and confirmations are parameters.
- Interleavings of asynchronous handlers are not modelled. Each handler runs to completion, or in two halves for `handleSave`.
- RoiCalculator.Workspace.Delete: the remaining list is computed once. The source filters `prev` for the new list but the closure's `scenarios` for the next active id, and the two differ only when another update lands between them.
- JsText.ToNumber: hexadecimal, octal and binary literals and "Infinity" read as NaN here. JavaScript reads them as numbers.
- JsText.ToFixed1: values of 1e21 or more, which JavaScript prints in exponent form, are not distinguished.
- Numbers are exact reals, not IEEE doubles. Floating-point rounding in `x * 100`, in sums and in the mean is not modelled.
- `Intl.NumberFormat` and `toLocaleDateString` output is not modelled. A cell records which format applies to which value.
- `String(x)` for the hydrated amount fields is kept symbolic (`FieldText.StringOf`). The model only uses the ECMAScript guarantee that `Number(String(x))` is `x`.
- The formatters of src/components/admin/ScenarioManagement.tsx:97-109 are the same guards as those of the results panel and are modelled once, in `ScenarioResults`.
- A list query that answers with neither an error nor data is not modelled. The source then uses an empty list (src/components/ROICalculator.tsx:88, src/components/admin/UserManagement.tsx:72-80, src/components/admin/ScenarioManagement.tsx:52, src/components/admin/AdminStats.tsx:44). A missing role or user count is modelled.
- UserManagement.UserDirectory.SendInvitation: the two inviter lookups before the invitation are taken to succeed. An exception thrown by them would send nothing. The list reload after a successful invitation is returned as a flag rather than performed, because the source does not await it.
- UserRole.RoleHook.Resolve: a reply that arrives after the user has changed is applied as if it were current, as in the source, and the race is not modelled.
- The pure rendering files (src/components/ROIResults.tsx, src/components/roi/ScenarioInputs.tsx, src/components/admin/AdminDashboard.tsx, src/components/InklineHeader.tsx, src/components/Footer.tsx, src/components/FloatingLogo.tsx, src/pages/Index.tsx) are not part of this model.

## Findings

| source | as written | input that shows it | evidently intended | confidence | as-written member | corrected member |
|---|---|---|---|---|---|---|
| src/components/roi/ScenarioSidebar.tsx:55 | the null-ROI placeholder is the UTF-8 bytes of an em dash read as Windows-1252, so the badge shows the three characters "â€”" | a scenario whose `roi` is null | the em dash "—", as the results panel shows at src/components/roi/ScenarioResults.tsx:27 | high (not executed) | ScenarioResults.AsWrittenSidebarDisagrees | ScenarioResults.SidebarLabelMatchesResults |
