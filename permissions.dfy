/** Read-only role lookups over the `groupMembers` table (_lib/permissions.ts). */
module Permissions {
  import opened Schema
  import opened Store

  /** The `by_group_and_user` index of `groupMembers`. */
  function MembershipIndex(members: seq<GroupMember>, groupId: GroupId, userId: UserId): (r: Option<nat>)
    ensures r.Some? ==> r.value < |members| && members[r.value].groupId == groupId && members[r.value].userId == userId
    ensures forall j :: 0 <= j < |members| && (r.None? || j < r.value) ==>
      !(members[j].groupId == groupId && members[j].userId == userId)
  {
    FirstIndexFrom(members, (m: GroupMember) => m.groupId == groupId && m.userId == userId, 0)
  }

  ghost predicate IsMember(members: seq<GroupMember>, groupId: GroupId, userId: UserId)
  {
    exists i :: 0 <= i < |members| && members[i].groupId == groupId && members[i].userId == userId
  }

  /** The role of the (group, user) membership, or None for a non-member. */
  function GetUserRoleInGroup(members: seq<GroupMember>, userId: UserId, groupId: GroupId): (r: Option<Role>)
    ensures r.None? <==> !IsMember(members, groupId, userId)
    ensures r.Some? ==> exists i :: 0 <= i < |members| && members[i].groupId == groupId
                                   && members[i].userId == userId && members[i].role == r.value
    ensures UniqueMemberships(members) ==>
      forall i :: 0 <= i < |members| && members[i].groupId == groupId && members[i].userId == userId ==>
        r == Some(members[i].role)
  {
    match MembershipIndex(members, groupId, userId)
    case None => None
    case Some(i) => Some(members[i].role)
  }

  /** False only when the user's `canCreateGroups` flag is explicitly false; a missing user
      or a missing flag allows group creation. */
  function CanUserCreateGroups(users: seq<User>, userId: UserId): (r: bool)
    ensures (forall i :: 0 <= i < |users| ==> users[i].id != userId) ==> r
    ensures forall i :: 0 <= i < |users| && users[i].id == userId && (forall j :: 0 <= j < i ==> users[j].id != userId) ==>
      (r <==> users[i].canCreateGroups != Some(false))
  {
    match UserIndexById(users, userId)
    case None => true
    case Some(i) => users[i].canCreateGroups != Some(false)
  }

  /** Some membership of the user, in any group, has role owner. */
  function IsUserOwnerAnywhere(members: seq<GroupMember>, userId: UserId): (r: bool)
    ensures r <==> exists i :: 0 <= i < |members| && members[i].userId == userId && members[i].role == Owner
  {
    FirstIndexFrom(members, (m: GroupMember) => m.userId == userId && m.role == Owner, 0).Some?
  }

  /** The `requiredRole` argument: one role, or a list of allowed roles. */
  datatype RoleRequirement = One(role: Role) | AnyOf(roles: seq<Role>)

  function AllowedRoles(req: RoleRequirement): (r: seq<Role>)
    ensures req.One? ==> r == [req.role]
    ensures req.AnyOf? ==> r == req.roles
  {
    match req
    case One(role) => [role]
    case AnyOf(roles) => roles
  }

  /** Fails for a non-member and for a role outside the allowed list; otherwise returns the
      member's role, which is then in the allowed list. */
  function RequireRoleInGroup(members: seq<GroupMember>, userId: UserId, groupId: GroupId, req: RoleRequirement): (r: Result<Role>)
    ensures r == Err(NotMember) <==> !IsMember(members, groupId, userId)
    ensures r.Ok? <==> IsMember(members, groupId, userId) && GetUserRoleInGroup(members, userId, groupId).value in AllowedRoles(req)
    ensures r.Ok? ==> r.value in AllowedRoles(req) && GetUserRoleInGroup(members, userId, groupId) == Some(r.value)
    ensures r.Err? && IsMember(members, groupId, userId) ==> r.error == RoleRequired(AllowedRoles(req))
  {
    match GetUserRoleInGroup(members, userId, groupId)
    case None => Err(NotMember)
    case Some(role) =>
      if role in AllowedRoles(req) then Ok(role) else Err(RoleRequired(AllowedRoles(req)))
  }

  /** The coarse hierarchy owner(3) > scrum_master(2) > attendee(1). */
  function Rank(role: Role): (n: nat)
    ensures 1 <= n <= 3
    ensures role == Owner <==> n == 3
    ensures role == ScrumMaster <==> n == 2
    ensures role == Attendee <==> n == 1
  {
    match role
    case Owner => 3
    case ScrumMaster => 2
    case Attendee => 1
  }

  /** True exactly for a member whose role ranks at least `minimum`. */
  function HasMinimumRole(members: seq<GroupMember>, userId: UserId, groupId: GroupId, minimum: Role): (r: bool)
    ensures !IsMember(members, groupId, userId) ==> !r
    ensures IsMember(members, groupId, userId) ==>
      (r <==> Rank(GetUserRoleInGroup(members, userId, groupId).value) >= Rank(minimum))
    ensures minimum == Attendee ==> (r <==> IsMember(members, groupId, userId))
    ensures GetUserRoleInGroup(members, userId, groupId) == Some(Owner) ==> r
  {
    match GetUserRoleInGroup(members, userId, groupId)
    case None => false
    case Some(role) => Rank(role) >= Rank(minimum)
  }

  /** The roles that rank at least `minimum`, best first. */
  function RolesAtLeast(minimum: Role): (r: seq<Role>)
    ensures forall role :: role in r <==> Rank(role) >= Rank(minimum)
  {
    match minimum
    case Owner => [Owner]
    case ScrumMaster => [Owner, ScrumMaster]
    case Attendee => [Owner, ScrumMaster, Attendee]
  }

  /** The hierarchy check and the explicit allowed-list check agree: a minimum role is the
      same as the list of every role at or above it. */
  lemma MinimumRoleIsAllowedList(members: seq<GroupMember>, userId: UserId, groupId: GroupId, minimum: Role)
    ensures HasMinimumRole(members, userId, groupId, minimum) <==>
            RequireRoleInGroup(members, userId, groupId, AnyOf(RolesAtLeast(minimum))).Ok?
  {
  }
}
