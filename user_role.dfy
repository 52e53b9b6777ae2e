/**
 * The role hook: which role the signed-in user has, read from the role table, with
 * every failure falling back to the ordinary user role.
 */
module UserRole {
  import opened Wrappers

  /** The two application roles; `admin` sorts before `user`. */
  datatype AppRole = Admin | User

  /** A row of the role table: a user may have several. */
  datatype RoleRow = RoleRow(userId: string, role: AppRole)

  /**
   * The answer of the role query `order('role').limit(1).single()` for one user: the
   * least of their roles, so `Admin` whenever they have an admin row; nothing when
   * they have no row at all.
   */
  function LeastRole(table: seq<RoleRow>, userId: string): (r: Option<AppRole>)
    ensures r.None? <==> forall k :: 0 <= k < |table| ==> table[k].userId != userId
    ensures r == Some(Admin) <==> exists k :: 0 <= k < |table| && table[k] == RoleRow(userId, Admin)
  {
    if table == [] then None
    else
      var rest := LeastRole(table[1..], userId);
      assert forall k :: 1 <= k < |table| ==> table[k] == table[1..][k - 1];
      if table[0].userId != userId then rest
      else if table[0].role == Admin || rest == Some(Admin) then Some(Admin)
      else Some(User)
  }

  /** What the hook's query brings back: an error, a thrown exception, or a row whose role may be empty. */
  datatype RoleReply = QueryError | Thrown | Data(role: Option<AppRole>)

  /** The reply of a reachable store: `single()` reports an error when the user has no row. */
  function StoreReply(table: seq<RoleRow>, userId: string): (reply: RoleReply)
    ensures reply == QueryError || reply == Data(LeastRole(table, userId))
    ensures reply.QueryError? <==> forall k :: 0 <= k < |table| ==> table[k].userId != userId
    ensures reply.Data? ==> reply.role.Some?
  {
    match LeastRole(table, userId)
    case None => QueryError
    case Some(role) => Data(Some(role))
  }

  /**
   * The role the hook settles on: none without a user; otherwise the role read, with
   * an error, an exception or an empty role all meaning `User`.
   */
  function ResolvedRole(user: Option<string>, reply: RoleReply): (r: Option<AppRole>)
    ensures r.None? <==> user.None?
    ensures r == Some(Admin) <==> user.Some? && reply == Data(Some(Admin))
  {
    if user.None? then None
    else
      match reply
      case QueryError => Some(User)
      case Thrown => Some(User)
      case Data(role) => Some(role.GetOr(User))
  }

  /** A signed-in user is an admin exactly when the role table holds an admin row for them. */
  lemma AdminIffAdminRow(table: seq<RoleRow>, userId: string)
    ensures ResolvedRole(Some(userId), StoreReply(table, userId)) == Some(Admin)
        <==> exists k :: 0 <= k < |table| && table[k] == RoleRow(userId, Admin)
  {
  }

  /** The hook's state: the role once known, and whether it is still being read. */
  class RoleHook {
    var role: Option<AppRole>
    var loading: bool

    /** The hook starts with no role, loading. */
    constructor ()
      ensures role.None? && loading
    {
      role := None;
      loading := true;
    }

    /** The hook's effect run to completion for `user`, with the store's reply. */
    method Resolve(user: Option<string>, reply: RoleReply)
      modifies this
      ensures role == ResolvedRole(user, reply)
      ensures !loading
    {
      if user.None? {
        role := None;
        loading := false;
        return;
      }
      match reply {
        case QueryError => role := Some(User);
        case Thrown => role := Some(User);
        case Data(r) => role := Some(r.GetOr(User));
      }
      loading := false;
    }

    /** `isAdmin`. */
    predicate IsAdmin()
      reads this
    {
      role == Some(Admin)
    }

    /** `isUser`. */
    predicate IsUser()
      reads this
    {
      role == Some(User)
    }
  }

  /** Once a signed-in user's role is resolved, exactly one of `isAdmin` and `isUser` holds. */
  lemma ResolvedIsAdminXorUser(hook: RoleHook, user: Option<string>, reply: RoleReply)
    requires hook.role == ResolvedRole(user, reply)
    ensures user.Some? <==> hook.IsAdmin() != hook.IsUser()
    ensures hook.IsAdmin() ==> reply == Data(Some(Admin))
  {
    if user.Some? {
      var r: AppRole := hook.role.value;
      assert r == Admin || r == User;
    }
  }
}
