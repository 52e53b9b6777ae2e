/**
 * The admin scenario list: every scenario joined with its owner's email, the local
 * removal after a delete, and the ROI badge.
 */
module ScenarioManagement {
  import opened Wrappers
  import opened Lists
  import opened ScenarioSidebar

  /** A row of the profile query `select('user_id, email')`. */
  datatype EmailRow = EmailRow(userId: string, email: string)

  /** A listed scenario: the stored record and its owner's email when one was found. */
  datatype Listed = Listed(scenario: Scenario, userEmail: Option<string>)

  /** `profiles.find(p => p.user_id === ownerId)?.email`: the email of the first matching profile. */
  function OwnerEmail(profiles: seq<EmailRow>, ownerId: string): (email: Option<string>)
    ensures email.None? <==> forall k :: 0 <= k < |profiles| ==> profiles[k].userId != ownerId
    ensures email.Some? ==>
      exists k :: 0 <= k < |profiles| && profiles[k] == EmailRow(ownerId, email.value)
        && (forall j :: 0 <= j < k ==> profiles[j].userId != ownerId)
  {
    var found := Find(profiles, (p: EmailRow) => p.userId == ownerId);
    if found.None? then
      assert forall k :: 0 <= k < |profiles| ==> profiles[k] in profiles;
      None
    else Some(found.value.email)
  }

  /** The join in `loadScenarios`: one entry per scenario, in order, each record unchanged. */
  function JoinEmails(scenarios: seq<Scenario>, profiles: seq<EmailRow>): (listed: seq<Listed>)
    ensures |listed| == |scenarios|
    ensures forall i :: 0 <= i < |listed| ==> listed[i].scenario == scenarios[i]
    ensures forall i :: 0 <= i < |listed| ==> listed[i].userEmail == OwnerEmail(profiles, scenarios[i].ownerId)
  {
    seq(|scenarios|, i requires 0 <= i < |scenarios| => Listed(scenarios[i], OwnerEmail(profiles, scenarios[i].ownerId)))
  }

  /** `user_email || 'Unknown'`: a missing or empty email shows as "Unknown". */
  function OwnerLabel(email: Option<string>): (shown: string)
    ensures shown != []
    ensures email.Some? && email.value != [] ==> shown == email.value
    ensures email.None? || email.value == [] ==> shown == "Unknown"
  {
    if email.Some? && email.value != [] then email.value else "Unknown"
  }

  /** The variant of the ROI badge: null, non-negative and negative ROIs each have their own. */
  function BadgeVariant(roi: Option<real>): (variant: string)
    ensures variant == "secondary" <==> roi.None?
    ensures variant == "default" <==> roi.Some? && roi.value >= 0.0
    ensures variant == "destructive" <==> roi.Some? && roi.value < 0.0
  {
    if roi.None? then "secondary" else if roi.value >= 0.0 then "default" else "destructive"
  }

  /** The admin badge and the sidebar colour split the ROIs the same way. */
  lemma BadgeAgreesWithSidebar(roi: Option<real>)
    ensures BadgeVariant(roi) == "secondary" <==> RoiColor(roi) == "secondary"
    ensures BadgeVariant(roi) == "default" <==> RoiColor(roi) == "success"
    ensures BadgeVariant(roi) == "destructive" <==> RoiColor(roi) == "destructive"
  {
  }

  /** `prev.filter(s => s.id !== id)`. */
  function RemoveListed(listed: seq<Listed>, id: string): (r: seq<Listed>)
    ensures forall l :: l in r <==> l in listed && l.scenario.id != id
  {
    Filter(listed, (l: Listed) => l.scenario.id != id)
  }

  /** Removing keeps the order: it works block by block, and leaves alone a list without the id. */
  lemma RemoveListedKeepsOrder(front: seq<Listed>, back: seq<Listed>, id: string)
    ensures RemoveListed(front + back, id) == RemoveListed(front, id) + RemoveListed(back, id)
    ensures (forall l :: l in front ==> l.scenario.id != id) ==> RemoveListed(front, id) == front
  {
    FilterAppend(front, back, (l: Listed) => l.scenario.id != id);
    if forall l :: l in front ==> l.scenario.id != id {
      FilterKeepsAll(front, (l: Listed) => l.scenario.id != id);
    }
  }

  /** The admin scenario list's state. */
  class ScenarioAdmin {
    var scenarios: seq<Listed>
    var loading: bool

    /** Nothing loaded yet. */
    constructor ()
      ensures scenarios == [] && loading
    {
      scenarios := [];
      loading := true;
    }

    /** `loadScenarios`: with both tables read the list is the join; on an error it is kept. */
    method LoadScenarios(stored: Result<seq<Scenario>>, profiles: Result<seq<EmailRow>>)
      modifies this
      ensures scenarios == if stored.Ok? && profiles.Ok? then JoinEmails(stored.value, profiles.value) else old(scenarios)
      ensures !loading
    {
      if stored.Ok? && profiles.Ok? {
        scenarios := JoinEmails(stored.value, profiles.value);
      }
      loading := false;
    }

    /** `deleteScenario`: declined, nothing is sent; the list changes only when the store deleted the row. */
    method DeleteScenario(id: string, confirmed: bool, reply: Result<()>) returns (sent: bool)
      modifies this`scenarios
      ensures sent == confirmed
      ensures scenarios == if confirmed && reply.Ok? then RemoveListed(old(scenarios), id) else old(scenarios)
    {
      if !confirmed {
        return false;
      }
      sent := true;
      if reply.Ok? {
        scenarios := RemoveListed(scenarios, id);
      }
    }
  }
}
