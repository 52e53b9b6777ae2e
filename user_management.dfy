/**
 * The admin user list: profiles merged with their roles, local edits after a role change
 * or a removal, and the invitation form.
 */
module UserManagement {
  import opened Wrappers
  import opened JsText
  import opened Lists
  import opened UserRole

  /** A row of the profile table. */
  datatype Profile = Profile(id: string, userId: string, email: string, createdAt: string)

  /** A listed user: a profile with its primary role. */
  datatype UserProfile = UserProfile(id: string, userId: string, email: string, createdAt: string, role: AppRole)

  function ProfileOf(u: UserProfile): Profile
  {
    Profile(u.id, u.userId, u.email, u.createdAt)
  }

  /** `roles.filter(r => r.user_id === userId)`. */
  function RowsOf(roles: seq<RoleRow>, userId: string): (rows: seq<RoleRow>)
    ensures forall r :: r in rows <==> r in roles && r.userId == userId
  {
    Filter(roles, (r: RoleRow) => r.userId == userId)
  }

  /** `primaryRole`: an admin row wins, then a user row, and with no row the role is `User`. */
  function PrimaryRole(rows: seq<RoleRow>): (role: AppRole)
    ensures role == Admin <==> exists r :: r in rows && r.role == Admin
  {
    match Find(rows, (r: RoleRow) => r.role == Admin)
    case Some(r) => r.role
    case None =>
      match Find(rows, (r: RoleRow) => r.role == User)
      case Some(r) => r.role
      case None => User
  }

  /** A merged user is an admin exactly when the role table has an admin row for them. */
  lemma MergedAdminIffAdminRow(roles: seq<RoleRow>, userId: string)
    ensures PrimaryRole(RowsOf(roles, userId)) == Admin
        <==> exists k :: 0 <= k < |roles| && roles[k] == RoleRow(userId, Admin)
  {
    var rows := RowsOf(roles, userId);
    if PrimaryRole(rows) == Admin {
      var r :| r in rows && r.role == Admin;
      assert r == RoleRow(userId, Admin);
    }
    if k :| 0 <= k < |roles| && roles[k] == RoleRow(userId, Admin) {
      assert roles[k] in rows;
    }
  }

  /** The admin list and the role hook agree on every signed-in user's role. */
  lemma MergeAgreesWithRoleHook(roles: seq<RoleRow>, userId: string)
    ensures ResolvedRole(Some(userId), StoreReply(roles, userId)) == Some(PrimaryRole(RowsOf(roles, userId)))
  {
    MergedAdminIffAdminRow(roles, userId);
    AdminIffAdminRow(roles, userId);
    var hook: AppRole := ResolvedRole(Some(userId), StoreReply(roles, userId)).value;
    var merged: AppRole := PrimaryRole(RowsOf(roles, userId));
    assert hook == Admin || hook == User;
    assert merged == Admin || merged == User;
  }

  function WithRole(p: Profile, role: AppRole): UserProfile
  {
    UserProfile(p.id, p.userId, p.email, p.createdAt, role)
  }

  /** The merge in `loadUsers`: one entry per profile, in the profiles' order, each with its primary role. */
  function MergeUsers(profiles: seq<Profile>, roles: seq<RoleRow>): (users: seq<UserProfile>)
    ensures |users| == |profiles|
    ensures forall i :: 0 <= i < |users| ==> ProfileOf(users[i]) == profiles[i]
    ensures forall i :: 0 <= i < |users| ==>
      (users[i].role == Admin <==> exists k :: 0 <= k < |roles| && roles[k] == RoleRow(profiles[i].userId, Admin))
  {
    var users := seq(|profiles|, i requires 0 <= i < |profiles| => WithRole(profiles[i], PrimaryRole(RowsOf(roles, profiles[i].userId))));
    assert forall i :: 0 <= i < |users| ==> users[i].role == PrimaryRole(RowsOf(roles, profiles[i].userId));
    forall i | 0 <= i < |users|
      ensures users[i].role == Admin <==> exists k :: 0 <= k < |roles| && roles[k] == RoleRow(profiles[i].userId, Admin)
    {
      MergedAdminIffAdminRow(roles, profiles[i].userId);
    }
    users
  }

  /** The local edit after a role change: matching entries take the new role, the others stay. */
  function SetRole(users: seq<UserProfile>, userId: string, role: AppRole): (r: seq<UserProfile>)
    ensures |r| == |users|
    ensures forall i :: 0 <= i < |r| ==> ProfileOf(r[i]) == ProfileOf(users[i])
    ensures forall i :: 0 <= i < |r| ==> r[i].role == if users[i].userId == userId then role else users[i].role
  {
    seq(|users|, i requires 0 <= i < |users| => if users[i].userId == userId then users[i].(role := role) else users[i])
  }

  /** The local edit after a removal: every entry with the id goes, the others stay. */
  function RemoveUser(users: seq<UserProfile>, userId: string): (r: seq<UserProfile>)
    ensures forall u :: u in r <==> u in users && u.userId != userId
  {
    Filter(users, (u: UserProfile) => u.userId != userId)
  }

  /** Removing keeps the order: it works block by block, and leaves alone a list without the id. */
  lemma RemoveUserKeepsOrder(front: seq<UserProfile>, back: seq<UserProfile>, userId: string)
    ensures RemoveUser(front + back, userId) == RemoveUser(front, userId) + RemoveUser(back, userId)
    ensures (forall u :: u in front ==> u.userId != userId) ==> RemoveUser(front, userId) == front
  {
    FilterAppend(front, back, (u: UserProfile) => u.userId != userId);
    if forall u :: u in front ==> u.userId != userId {
      FilterKeepsAll(front, (u: UserProfile) => u.userId != userId);
    }
  }

  /** `currentProfile?.email || currentUser?.user?.email || 'Administrator'`: an empty email counts as missing. */
  function InvitedBy(profileEmail: Option<string>, authEmail: Option<string>): (who: string)
    ensures who != []
    ensures profileEmail.Some? && profileEmail.value != [] ==> who == profileEmail.value
    ensures who == "Administrator" || profileEmail == Some(who) || authEmail == Some(who)
    ensures (profileEmail.None? || profileEmail.value == []) && authEmail.Some? && authEmail.value != [] ==>
      who == authEmail.value
  {
    if profileEmail.Some? && profileEmail.value != [] then profileEmail.value
    else if authEmail.Some? && authEmail.value != [] then authEmail.value
    else "Administrator"
  }

  /** The body of the invitation request. */
  datatype Invitation = Invitation(email: string, role: AppRole, invitedBy: string)

  /** The admin user list's state. */
  class UserDirectory {
    var users: seq<UserProfile>
    var loading: bool
    var inviteEmail: string
    var inviteRole: AppRole
    var isInviteDialogOpen: bool
    var isInviting: bool

    /** Nothing loaded yet, an empty invitation form for an ordinary user. */
    constructor ()
      ensures users == [] && loading
      ensures inviteEmail == [] && inviteRole == User && !isInviteDialogOpen && !isInviting
    {
      users := [];
      loading := true;
      inviteEmail := [];
      inviteRole := User;
      isInviteDialogOpen := false;
      isInviting := false;
    }

    /** `loadUsers`: with both tables read the list is the merge; on an error it is kept. */
    method LoadUsers(profiles: Result<seq<Profile>>, roles: Result<seq<RoleRow>>)
      modifies this`users, this`loading
      ensures users == if profiles.Ok? && roles.Ok? then MergeUsers(profiles.value, roles.value) else old(users)
      ensures !loading
    {
      if profiles.Ok? && roles.Ok? {
        users := MergeUsers(profiles.value, roles.value);
      }
      loading := false;
    }

    /** `updateUserRole`: the list changes only when the store accepted the change. */
    method UpdateUserRole(userId: string, newRole: AppRole, reply: Result<()>)
      modifies this`users
      ensures users == if reply.Ok? then SetRole(old(users), userId, newRole) else old(users)
    {
      if reply.Ok? {
        users := SetRole(users, userId, newRole);
      }
    }

    /**
     * `deleteUser`: declined, nothing is sent; otherwise the profile rows are deleted and,
     * only if that worked, the role rows. The list changes only when both deletes worked.
     * The number of store calls made is returned.
     */
    method DeleteUser(userId: string, confirmed: bool, profileReply: Result<()>, roleReply: Result<()>) returns (calls: nat)
      modifies this`users
      ensures calls == if !confirmed then 0 else if profileReply.Err? then 1 else 2
      ensures users == if confirmed && profileReply.Ok? && roleReply.Ok? then RemoveUser(old(users), userId) else old(users)
    {
      if !confirmed {
        return 0;
      }
      calls := 1;
      if profileReply.Err? {
        return;
      }
      calls := 2;
      if roleReply.Err? {
        return;
      }
      users := RemoveUser(users, userId);
    }

    /**
     * `sendInvitation`: a blank email is refused before anything is sent. Otherwise the
     * trimmed email is sent with the chosen role and the inviter's name; a success clears
     * the form, closes the dialog and asks for the list to be reloaded. `isInviting` ends false.
     */
    method SendInvitation(profileEmail: Option<string>, authEmail: Option<string>, reply: Result<()>)
      returns (invitation: Option<Invitation>, reload: bool)
      modifies this`inviteEmail, this`inviteRole, this`isInviteDialogOpen, this`isInviting
      ensures AllWhitespace(old(inviteEmail)) ==>
        && invitation.None? && !reload
        && inviteEmail == old(inviteEmail) && inviteRole == old(inviteRole)
        && isInviteDialogOpen == old(isInviteDialogOpen) && isInviting == old(isInviting)
      ensures !AllWhitespace(old(inviteEmail)) ==>
        && invitation == Some(Invitation(Trim(old(inviteEmail)), old(inviteRole), InvitedBy(profileEmail, authEmail)))
        && invitation.value.email != []
        && !isInviting
        && reload == reply.Ok?
      ensures !AllWhitespace(old(inviteEmail)) && reply.Ok? ==>
        inviteEmail == [] && inviteRole == User && !isInviteDialogOpen
      ensures !AllWhitespace(old(inviteEmail)) && reply.Err? ==>
        inviteEmail == old(inviteEmail) && inviteRole == old(inviteRole) && isInviteDialogOpen == old(isInviteDialogOpen)
    {
      TrimEmptyIffBlank(inviteEmail);
      var email := Trim(inviteEmail);
      if email == [] {
        return None, false;
      }
      isInviting := true;
      invitation := Some(Invitation(email, inviteRole, InvitedBy(profileEmail, authEmail)));
      reload := false;
      if reply.Ok? {
        inviteEmail := [];
        inviteRole := User;
        isInviteDialogOpen := false;
        reload := true;
      }
      isInviting := false;
    }
  }
}
