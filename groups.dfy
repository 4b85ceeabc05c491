/** Groups and their membership/role table (groups.ts). Each mutation first decides, as a
    pure check over the tables, whether the caller may act; the method then applies the
    write. The decisive invariant is that every group keeps at least one owner. */
module Groups {
  import opened Schema
  import opened Store
  import opened Permissions
  import opened Ordering
  import Users

  // ---------------------------------------------------------------------------
  // Counting owners

  lemma {:induction false} OwnerCountAppend(a: seq<GroupMember>, b: seq<GroupMember>, g: GroupId)
    ensures OwnerCount(a + b, g) == OwnerCount(a, g) + OwnerCount(b, g)
  {
    if a == [] {
      assert a + b == b;
    } else {
      assert (a + b)[0] == a[0];
      assert (a + b)[1..] == a[1..] + b;
      OwnerCountAppend(a[1..], b, g);
    }
  }

  /** Some membership of group `g` has role owner. */
  ghost predicate SomeOwner(members: seq<GroupMember>, g: GroupId)
  {
    exists i :: 0 <= i < |members| && members[i].groupId == g && members[i].role == Owner
  }

  /** A group has an owner exactly when one of its memberships has role owner. */
  lemma {:induction false} OwnerCountPositive(members: seq<GroupMember>, g: GroupId)
    ensures HasOwner(members, g) <==> SomeOwner(members, g)
  {
    if members != [] {
      OwnerCountPositive(members[1..], g);
      if SomeOwner(members[1..], g) {
        var i :| 0 <= i < |members[1..]| && members[1..][i].groupId == g && members[1..][i].role == Owner;
        assert members[i + 1] == members[1..][i];
      }
      if SomeOwner(members, g) && !(members[0].groupId == g && members[0].role == Owner) {
        var i :| 0 <= i < |members| && members[i].groupId == g && members[i].role == Owner;
        assert members[1..][i - 1] == members[i];
      }
    }
  }

  function IsOwnerOf(m: GroupMember, g: GroupId): nat
  {
    if m.groupId == g && m.role == Owner then 1 else 0
  }

  lemma OwnerCountSingle(m: GroupMember, g: GroupId)
    ensures OwnerCount([m], g) == IsOwnerOf(m, g)
  {
    assert [m][1..] == [];
  }

  /** Deleting one membership lowers the owner count by at most that membership's share. */
  lemma OwnerCountRemoveAt(members: seq<GroupMember>, t: nat, g: GroupId)
    requires t < |members|
    ensures OwnerCount(RemoveAt(members, t), g) == OwnerCount(members, g) - IsOwnerOf(members[t], g)
  {
    assert members == members[..t] + [members[t]] + members[t + 1..];
    OwnerCountAppend(members[..t] + [members[t]], members[t + 1..], g);
    OwnerCountAppend(members[..t], [members[t]], g);
    OwnerCountAppend(members[..t], members[t + 1..], g);
    OwnerCountSingle(members[t], g);
  }

  /** Replacing one membership changes the owner count by the difference of the two shares. */
  lemma OwnerCountUpdate(members: seq<GroupMember>, t: nat, m: GroupMember, g: GroupId)
    requires t < |members|
    ensures OwnerCount(members[t := m], g) == OwnerCount(members, g) - IsOwnerOf(members[t], g) + IsOwnerOf(m, g)
  {
    assert members == members[..t] + [members[t]] + members[t + 1..];
    assert members[t := m] == members[..t] + [m] + members[t + 1..];
    OwnerCountAppend(members[..t] + [members[t]], members[t + 1..], g);
    OwnerCountAppend(members[..t], [members[t]], g);
    OwnerCountAppend(members[..t] + [m], members[t + 1..], g);
    OwnerCountAppend(members[..t], [m], g);
    OwnerCountSingle(members[t], g);
    OwnerCountSingle(m, g);
  }

  // ---------------------------------------------------------------------------
  // The membership invariant under the writes of this module

  lemma GroupPatchKeepsInvariants(members: seq<GroupMember>, groups: seq<Group>, k: nat, g: Group, next: nat)
    requires MembersOk(members, groups, next)
    requires k < |groups| && g.id == groups[k].id
    ensures MembersOk(members, groups[k := g], next)
  {
    var after := groups[k := g];
    forall j | 0 <= j < |members|
      ensures GroupExists(after, members[j].groupId)
    {
      assert GroupExists(groups, members[j].groupId);
      var q :| 0 <= q < |groups| && groups[q].id == members[j].groupId;
      assert after[q].id == groups[q].id;
    }
    forall q | 0 <= q < |after|
      ensures HasOwner(members, after[q].id)
    {
      assert after[q].id == groups[q].id;
    }
  }

  /** A group id taken from the counter has no memberships yet. */
  lemma NoMembersBeforeCreation(members: seq<GroupMember>, groups: seq<Group>, next: nat, g: GroupId)
    requires MembersOk(members, groups, next) && next <= g
    ensures MembersOf(members, g) == []
  {
    forall j | 0 <= j < |members|
      ensures members[j].groupId != g
    {
      assert GroupExists(groups, members[j].groupId);
    }
    FilterNone(members, OfGroup(g));
  }

  lemma AppendGroupKeepsInvariants(members: seq<GroupMember>, groups: seq<Group>, next: nat, group: Group,
                                   owner: GroupMember, next': nat)
    requires MembersOk(members, groups, next)
    requires next <= group.id < next'
    requires owner.groupId == group.id && owner.role == Owner
    ensures MembersOk(members + [owner], groups + [group], next')
  {
    var ms := members + [owner];
    var gs := groups + [group];
    forall j | 0 <= j < |members|
      ensures members[j].groupId != group.id && GroupExists(gs, members[j].groupId)
    {
      assert GroupExists(groups, members[j].groupId);
      var q :| 0 <= q < |groups| && groups[q].id == members[j].groupId;
      assert gs[q] == groups[q];
    }
    assert GroupExists(gs, owner.groupId) by {
      assert gs[|groups|] == group;
    }
    forall q | 0 <= q < |gs|
      ensures HasOwner(ms, gs[q].id)
    {
      OwnerCountAppend(members, [owner], gs[q].id);
      OwnerCountSingle(owner, gs[q].id);
      if q < |groups| {
        assert gs[q] == groups[q];
      }
    }
  }

  lemma AppendMemberKeepsInvariants(members: seq<GroupMember>, groups: seq<Group>, next: nat, m: GroupMember, next': nat)
    requires MembersOk(members, groups, next) && next <= next'
    requires GroupExists(groups, m.groupId) && !IsMember(members, m.groupId, m.userId)
    ensures MembersOk(members + [m], groups, next')
  {
    var ms := members + [m];
    forall q | 0 <= q < |groups|
      ensures HasOwner(ms, groups[q].id)
    {
      OwnerCountAppend(members, [m], groups[q].id);
    }
  }

  lemma RemoveMemberKeepsInvariants(members: seq<GroupMember>, groups: seq<Group>, next: nat, t: nat)
    requires MembersOk(members, groups, next) && t < |members|
    requires EveryGroupHasOwner(groups, RemoveAt(members, t))
    ensures MembersOk(RemoveAt(members, t), groups, next)
  {
    var after := RemoveAt(members, t);
    forall i, j | 0 <= i < j < |after|
      ensures !(after[i].groupId == after[j].groupId && after[i].userId == after[j].userId)
    {
      var i' := if i < t then i else i + 1;
      var j' := if j < t then j else j + 1;
      assert after[i] == members[i'] && after[j] == members[j'];
    }
  }

  lemma UpdateMemberKeepsInvariants(members: seq<GroupMember>, groups: seq<Group>, next: nat, t: nat, m: GroupMember)
    requires MembersOk(members, groups, next) && t < |members|
    requires m.groupId == members[t].groupId && m.userId == members[t].userId
    requires EveryGroupHasOwner(groups, members[t := m])
    ensures MembersOk(members[t := m], groups, next)
  {
  }

  // ---------------------------------------------------------------------------
  // createGroup

  const DefaultStatusNames: seq<string> := ["To Do", "In Progress", "Done"]
  const DefaultStatusColors: seq<string> := ["#64748b", "#f59e0b", "#10b981"]

  /** The `i`-th default status of a new group. */
  function DefaultStatus(groupId: GroupId, id: StatusId, i: nat, now: int): TaskStatus
    requires i < 3
  {
    TaskStatus(id, groupId, DefaultStatusNames[i], i, DefaultStatusColors[i], true, now)
  }

  /** The three statuses createGroup inserts, with consecutive ids from `firstId`: "To Do",
      "In Progress" and "Done", in that order, all marked default and belonging to the group. */
  function DefaultStatuses(groupId: GroupId, firstId: StatusId, now: int): (r: seq<TaskStatus>)
    ensures |r| == 3
    ensures r[0].name == "To Do" && r[1].name == "In Progress" && r[2].name == "Done"
    ensures forall k :: 0 <= k < 3 ==>
      && r[k].order == k && r[k].isDefault && r[k].groupId == groupId
      && r[k].id == firstId + k && r[k].createdAt == now
  {
    [DefaultStatus(groupId, firstId, 0, now), DefaultStatus(groupId, firstId + 1, 1, now),
     DefaultStatus(groupId, firstId + 2, 2, now)]
  }

  function OfGroup(groupId: GroupId): GroupMember -> bool
  {
    (x: GroupMember) => x.groupId == groupId
  }

  /** The memberships of one group, in table order (the `by_group` index). */
  function MembersOf(members: seq<GroupMember>, groupId: GroupId): seq<GroupMember>
  {
    Filter(members, OfGroup(groupId))
  }

  /** The `by_group` index holds exactly the group's memberships. */
  lemma MembersOfMeaning(members: seq<GroupMember>, groupId: GroupId)
    ensures forall x :: x in MembersOf(members, groupId) <==> x in members && x.groupId == groupId
  {
    FilterMeaning(members, OfGroup(groupId));
  }

  /** Inserts the three default statuses of group `g`. */
  method SeedDefaultStatuses(db: Db, g: GroupId, firstId: StatusId, now: int)
    requires db.Valid() && firstId == db.nextId
    modifies db`taskStatuses, db`nextId
    ensures db.Valid()
    ensures db.taskStatuses == old(db.taskStatuses) + DefaultStatuses(g, firstId, now)
    ensures db.nextId == old(db.nextId) + 3
  {
    var i := 0;
    while i < 3
      invariant 0 <= i <= 3 && db.Valid()
      invariant db.nextId == old(db.nextId) + i
      invariant db.taskStatuses == old(db.taskStatuses) + DefaultStatuses(g, firstId, now)[..i]
    {
      db.taskStatuses := db.taskStatuses + [DefaultStatus(g, db.nextId, i, now)];
      db.nextId := db.nextId + 1;
      i := i + 1;
    }
    assert DefaultStatuses(g, firstId, now)[..3] == DefaultStatuses(g, firstId, now);
  }

  /** The checks of createGroup: an authenticated, registered caller whose `defaultRole`
      is owner. On success, the caller. */
  function CreateGroupCheck(users: seq<User>, identity: Option<Identity>): (r: Result<User>)
    ensures r.Ok? <==> Me(users, identity).Ok? && Me(users, identity).value.defaultRole == Some(Owner)
    ensures r.Ok? ==> r.value == Me(users, identity).value
    ensures Me(users, identity).Err? ==> r == Err(Me(users, identity).error)
    ensures Me(users, identity).Ok? && r.Err? ==> r.error == OnlyOwnersCreateGroups
  {
    match Me(users, identity)
    case Err(e) => Err(e)
    case Ok(me) => if me.defaultRole != Some(Owner) then Err(OnlyOwnersCreateGroups) else Ok(me)
  }

  /** createGroup: the creator becomes the group's only member, as owner, and the three
      default statuses are seeded. */
  method CreateGroup(db: Db, identity: Option<Identity>, now: int, name: string, description: Option<string>,
                     color: Option<string>) returns (r: Result<Group>)
    requires db.Valid()
    modifies db`groups, db`groupMembers, db`taskStatuses, db`nextId
    ensures db.Valid()
    ensures CreateGroupCheck(db.users, identity).Err? ==>
      && r == Err(CreateGroupCheck(db.users, identity).error)
      && db.groups == old(db.groups) && db.groupMembers == old(db.groupMembers)
      && db.taskStatuses == old(db.taskStatuses) && db.nextId == old(db.nextId)
    ensures CreateGroupCheck(db.users, identity).Ok? ==>
      var me := CreateGroupCheck(db.users, identity).value;
      var g := old(db.nextId);
      && r == Ok(Group(g, name, description, me.id, color, now, now))
      && db.groups == old(db.groups) + [r.value]
      && db.groupMembers == old(db.groupMembers) + [GroupMember(g + 1, g, me.id, Owner, now)]
      && MembersOf(db.groupMembers, g) == [GroupMember(g + 1, g, me.id, Owner, now)]
      && db.taskStatuses == old(db.taskStatuses) + DefaultStatuses(g, g + 2, now)
      && db.nextId == g + 5
  {
    var check := CreateGroupCheck(db.users, identity);
    if check.Err? {
      return Err(check.error);
    }
    var g := db.nextId;
    var group := Group(g, name, description, check.value.id, color, now, now);
    var owner := GroupMember(g + 1, g, check.value.id, Owner, now);
    InsertGroup(db, group, owner);
    SeedDefaultStatuses(db, g, g + 2, now);
    r := Ok(group);
  }

  /** The group and owner-membership inserts of createGroup. */
  method InsertGroup(db: Db, group: Group, owner: GroupMember)
    requires db.Valid() && group.id == db.nextId
    requires owner.groupId == group.id && owner.role == Owner
    modifies db`groups, db`groupMembers, db`nextId
    ensures db.Valid()
    ensures db.groups == old(db.groups) + [group]
    ensures db.groupMembers == old(db.groupMembers) + [owner]
    ensures MembersOf(db.groupMembers, group.id) == [owner]
    ensures db.nextId == old(db.nextId) + 2
  {
    NoMembersBeforeCreation(db.groupMembers, db.groups, db.nextId, group.id);
    AppendGroupKeepsInvariants(db.groupMembers, db.groups, db.nextId, group, owner, db.nextId + 2);
    FilterAppend(db.groupMembers, owner, OfGroup(group.id));
    db.groups := db.groups + [group];
    db.groupMembers := db.groupMembers + [owner];
    db.nextId := db.nextId + 2;
  }

  // ---------------------------------------------------------------------------
  // updateGroup

  /** The patch of updateGroup: the supplied fields and `updatedAt` change, nothing else. */
  function PatchGroup(g: Group, name: Option<string>, description: Option<string>, color: Option<string>, now: int): (r: Group)
    ensures r.name == (if name.Some? then name.value else g.name)
    ensures r.description == (if description.Some? then description else g.description)
    ensures r.color == (if color.Some? then color else g.color)
    ensures r.updatedAt == now
    ensures r.id == g.id && r.creatorId == g.creatorId && r.createdAt == g.createdAt
  {
    g.(name := if name.Some? then name.value else g.name,
       description := if description.Some? then description else g.description,
       color := if color.Some? then color else g.color,
       updatedAt := now)
  }

  /** The check of updateGroup: only an owner member may edit; a missing group makes the
      patch fail. On success the index of the group row. */
  function UpdateGroupCheck(members: seq<GroupMember>, groups: seq<Group>, meId: UserId, groupId: GroupId): (r: Result<nat>)
    ensures r.Ok? <==> GetUserRoleInGroup(members, meId, groupId) == Some(Owner) && GroupIndex(groups, groupId).Some?
    ensures GetUserRoleInGroup(members, meId, groupId) != Some(Owner) ==> r == Err(OnlyOwnersEditGroup)
    ensures GetUserRoleInGroup(members, meId, groupId) == Some(Owner) && GroupIndex(groups, groupId).None? ==>
      r == Err(NonexistentDocument)
    ensures r.Ok? ==> r.value < |groups| && groups[r.value].id == groupId
  {
    if GetUserRoleInGroup(members, meId, groupId) != Some(Owner) then Err(OnlyOwnersEditGroup)
    else match GroupIndex(groups, groupId)
      case None => Err(NonexistentDocument)
      case Some(k) => Ok(k)
  }

  method UpdateGroup(db: Db, identity: Option<Identity>, now: int, groupId: GroupId, name: Option<string>,
                     description: Option<string>, color: Option<string>) returns (r: Result<()>)
    requires db.Valid()
    modifies db`groups
    ensures db.Valid()
    ensures Me(db.users, identity).Err? ==> r == Err(Me(db.users, identity).error)
    ensures Me(db.users, identity).Ok? ==>
      var check := UpdateGroupCheck(db.groupMembers, old(db.groups), Me(db.users, identity).value.id, groupId);
      && (check.Err? ==> r == Err(check.error))
      && (check.Ok? ==> r == Ok(()) && db.groups == old(db.groups)[check.value := PatchGroup(old(db.groups)[check.value], name, description, color, now)])
    ensures r.Err? ==> db.groups == old(db.groups)
  {
    var me := Me(db.users, identity);
    if me.Err? {
      return Err(me.error);
    }
    var check := UpdateGroupCheck(db.groupMembers, db.groups, me.value.id, groupId);
    if check.Err? {
      return Err(check.error);
    }
    GroupPatchKeepsInvariants(db.groupMembers, db.groups, check.value,
                              PatchGroup(db.groups[check.value], name, description, color, now), db.nextId);
    db.groups := db.groups[check.value := PatchGroup(db.groups[check.value], name, description, color, now)];
    r := Ok(());
  }

  // ---------------------------------------------------------------------------
  // getAvailableUsers

  /** getAvailableUsers: the users without a membership in the group, in table order. */
  function GetAvailableUsers(users: seq<User>, members: seq<GroupMember>, groupId: GroupId): (r: seq<Users.UserSummary>)
    ensures |r| <= |users|
    ensures forall k :: 0 <= k < |r| ==> !IsMember(members, groupId, r[k].id)
    ensures forall k :: 0 <= k < |r| ==> exists i :: 0 <= i < |users| && r[k] == Users.Summary(users[i])
    ensures forall i :: 0 <= i < |users| && !IsMember(members, groupId, users[i].id) ==> Users.Summary(users[i]) in r
  {
    if users == [] then []
    else
      var rest := GetAvailableUsers(users[1..], members, groupId);
      assert forall k :: 0 <= k < |rest| ==> exists i :: 0 <= i < |users| && rest[k] == Users.Summary(users[i]) by {
        forall k | 0 <= k < |rest| ensures exists i :: 0 <= i < |users| && rest[k] == Users.Summary(users[i]) {
          var i :| 0 <= i < |users[1..]| && rest[k] == Users.Summary(users[1..][i]);
          assert users[1..][i] == users[i + 1];
        }
      }
      if MembershipIndex(members, groupId, users[0].id).Some? then rest
      else [Users.Summary(users[0])] + rest
  }

  // ---------------------------------------------------------------------------
  // addMember / addMemberById

  /** `toLowerCase` of one character, for the ASCII letters. */
  function LowerChar(c: char): (r: char)
    ensures !('A' <= r <= 'Z')
    ensures 'A' <= c <= 'Z' ==> r as int == c as int + 32
    ensures !('A' <= c <= 'Z') ==> r == c
  {
    if 'A' <= c <= 'Z' then (c as int + 32) as char else c
  }

  /** `String.prototype.toLowerCase` on ASCII letters. */
  function ToLowerAscii(s: string): (r: string)
    ensures |r| == |s|
    ensures forall k :: 0 <= k < |s| ==> r[k] == LowerChar(s[k])
  {
    if s == [] then [] else [LowerChar(s[0])] + ToLowerAscii(s[1..])
  }

  /** The checks addMember and addMemberById share, in their order: the caller must be an
      owner or scrum_master member, the target must exist, and must not be a member yet. */
  function AddMemberCheck(members: seq<GroupMember>, meId: UserId, groupId: GroupId, target: Option<User>,
                          notFound: Error): (r: Result<User>)
    ensures r.Ok? <==>
      && GetUserRoleInGroup(members, meId, groupId) in {Some(Owner), Some(ScrumMaster)}
      && target.Some? && !IsMember(members, groupId, target.value.id)
    ensures r.Ok? ==> r == Ok(target.value)
    ensures !IsMember(members, groupId, meId) ==> r == Err(NotMember)
    ensures GetUserRoleInGroup(members, meId, groupId) == Some(Attendee) ==> r == Err(CannotAddMembers)
    ensures GetUserRoleInGroup(members, meId, groupId) in {Some(Owner), Some(ScrumMaster)} ==>
      (target.None? ==> r == Err(notFound)) && (target.Some? && IsMember(members, groupId, target.value.id) ==> r == Err(AlreadyMember))
  {
    match GetUserRoleInGroup(members, meId, groupId)
    case None => Err(NotMember)
    case Some(role) =>
      if role != Owner && role != ScrumMaster then Err(CannotAddMembers)
      else if target.None? then Err(notFound)
      else if MembershipIndex(members, groupId, target.value.id).Some? then Err(AlreadyMember)
      else Ok(target.value)
  }

  /** The `group_invite` notification sent to a new member. */
  function InviteNotification(id: NotificationId, target: UserId, me: User, group: Group, now: int): Notification
  {
    Notification(id, target, GroupInvite, None, Some(group.id), Some(me.id), "Added to Group",
                 me.name + " added you to \"" + group.name + "\"", false, now)
  }

  /** The shared write of addMember and addMemberById: one membership with the requested
      role and one invite notification, or no change at all. */
  method AddResolvedMember(db: Db, identity: Option<Identity>, now: int, groupId: GroupId, target: Option<User>,
                           notFound: Error, role: Role) returns (r: Result<()>)
    requires db.Valid()
    requires target.Some? ==> target.value in db.users
    modifies db`groupMembers, db`notifications, db`nextId
    ensures db.Valid()
    ensures Me(db.users, identity).Err? ==> r == Err(Me(db.users, identity).error)
    ensures Me(db.users, identity).Ok? ==>
      var check := AddMemberCheck(old(db.groupMembers), Me(db.users, identity).value.id, groupId, target, notFound);
      && (check.Err? ==> r == Err(check.error))
      && (check.Ok? ==> r == Ok(()))
    ensures r.Err? ==> db.groupMembers == old(db.groupMembers) && db.notifications == old(db.notifications) && db.nextId == old(db.nextId)
    ensures r.Ok? ==>
      var me := Me(db.users, identity).value;
      var n := old(db.nextId);
      && db.groupMembers == old(db.groupMembers) + [GroupMember(n, groupId, target.value.id, role, now)]
      && db.notifications == old(db.notifications)
           + [InviteNotification(n + 1, target.value.id, me, db.groups[GroupIndex(db.groups, groupId).value], now)]
      && db.nextId == n + 2
  {
    var me := Me(db.users, identity);
    if me.Err? {
      return Err(me.error);
    }
    var check := AddMemberCheck(db.groupMembers, me.value.id, groupId, target, notFound);
    if check.Err? {
      return Err(check.error);
    }
    var n := db.nextId;
    var member := GroupMember(n, groupId, target.value.id, role, now);
    // the caller's membership puts the group in the table
    assert GroupExists(db.groups, groupId) by {
      var c := MembershipIndex(db.groupMembers, groupId, me.value.id).value;
      assert GroupExists(db.groups, db.groupMembers[c].groupId);
    }
    var k := GroupIndex(db.groups, groupId).value;
    var invite := InviteNotification(n + 1, target.value.id, me.value, db.groups[k], now);
    InsertMembership(db, member, invite);
    r := Ok(());
  }

  /** The two inserts of a successful addMember. */
  method InsertMembership(db: Db, member: GroupMember, invite: Notification)
    requires db.Valid()
    requires GroupExists(db.groups, member.groupId) && !IsMember(db.groupMembers, member.groupId, member.userId)
    modifies db`groupMembers, db`notifications, db`nextId
    ensures db.Valid()
    ensures db.groupMembers == old(db.groupMembers) + [member]
    ensures db.notifications == old(db.notifications) + [invite]
    ensures db.nextId == old(db.nextId) + 2
  {
    AppendMemberKeepsInvariants(db.groupMembers, db.groups, db.nextId, member, db.nextId + 2);
    db.groupMembers := db.groupMembers + [member];
    db.notifications := db.notifications + [invite];
    db.nextId := db.nextId + 2;
  }

  /** addMember: the target is looked up by the lower-cased email. */
  method AddMember(db: Db, identity: Option<Identity>, now: int, groupId: GroupId, userEmail: string, role: Role)
    returns (r: Result<()>)
    requires db.Valid()
    modifies db`groupMembers, db`notifications, db`nextId
    ensures db.Valid()
    ensures var target := match UserIndexByEmail(db.users, ToLowerAscii(userEmail))
                          case Some(i) => Some(db.users[i]) case None => None;
      && (Me(db.users, identity).Err? ==> r == Err(Me(db.users, identity).error))
      && (Me(db.users, identity).Ok? ==>
            var check := AddMemberCheck(old(db.groupMembers), Me(db.users, identity).value.id, groupId, target, UserNotFoundWithEmail);
            (check.Err? ==> r == Err(check.error)) && (check.Ok? ==> r == Ok(())))
      && (r.Ok? ==>
            var n := old(db.nextId);
            && db.groupMembers == old(db.groupMembers) + [GroupMember(n, groupId, target.value.id, role, now)]
            && db.notifications == old(db.notifications)
                 + [InviteNotification(n + 1, target.value.id, Me(db.users, identity).value, db.groups[GroupIndex(db.groups, groupId).value], now)]
            && db.nextId == n + 2)
    ensures r.Err? ==> db.groupMembers == old(db.groupMembers) && db.notifications == old(db.notifications) && db.nextId == old(db.nextId)
  {
    var target: Option<User> := match UserIndexByEmail(db.users, ToLowerAscii(userEmail))
                                case Some(i) => Some(db.users[i]) case None => None;
    r := AddResolvedMember(db, identity, now, groupId, target, UserNotFoundWithEmail, role);
  }

  /** addMemberById: the target is looked up by id. */
  method AddMemberById(db: Db, identity: Option<Identity>, now: int, groupId: GroupId, userId: UserId, role: Role)
    returns (r: Result<()>)
    requires db.Valid()
    modifies db`groupMembers, db`notifications, db`nextId
    ensures db.Valid()
    ensures var target := match UserIndexById(db.users, userId)
                          case Some(i) => Some(db.users[i]) case None => None;
      && (Me(db.users, identity).Err? ==> r == Err(Me(db.users, identity).error))
      && (Me(db.users, identity).Ok? ==>
            var check := AddMemberCheck(old(db.groupMembers), Me(db.users, identity).value.id, groupId, target, UserNotFound);
            (check.Err? ==> r == Err(check.error)) && (check.Ok? ==> r == Ok(())))
      && (r.Ok? ==>
            var n := old(db.nextId);
            && db.groupMembers == old(db.groupMembers) + [GroupMember(n, groupId, userId, role, now)]
            && db.notifications == old(db.notifications)
                 + [InviteNotification(n + 1, userId, Me(db.users, identity).value, db.groups[GroupIndex(db.groups, groupId).value], now)]
            && db.nextId == n + 2)
    ensures r.Err? ==> db.groupMembers == old(db.groupMembers) && db.notifications == old(db.notifications) && db.nextId == old(db.nextId)
  {
    var target: Option<User> := match UserIndexById(db.users, userId)
                                case Some(i) => Some(db.users[i]) case None => None;
    r := AddResolvedMember(db, identity, now, groupId, target, UserNotFound, role);
  }

  // ---------------------------------------------------------------------------
  // removeMember

  /** The checks of removeMember, in their order. On success, the index of the membership
      to delete. */
  function RemoveMemberCheck(members: seq<GroupMember>, meId: UserId, groupId: GroupId, userId: UserId): (r: Result<nat>)
    ensures !IsMember(members, groupId, meId) ==> r == Err(NotMember)
    ensures GetUserRoleInGroup(members, meId, groupId) == Some(Attendee) ==> r == Err(CannotRemoveMembers)
    ensures IsMember(members, groupId, meId) && !IsMember(members, groupId, userId) ==> r.Err?
    ensures GetUserRoleInGroup(members, meId, groupId) in {Some(Owner), Some(ScrumMaster)} ==>
      && (!IsMember(members, groupId, userId) ==> r == Err(MemberNotFound))
      && (IsMember(members, groupId, userId) ==>
            var t := members[MembershipIndex(members, groupId, userId).value];
            && (t.role == Owner && GetUserRoleInGroup(members, meId, groupId) != Some(Owner) ==> r == Err(OnlyOwnersRemoveOwners))
            && (meId == userId && t.role == Owner && OwnerCount(members, groupId) == 1 ==> r == Err(LastOwnerRemoval)))
    ensures r.Ok? ==> r.value == MembershipIndex(members, groupId, userId).value
    ensures r.Ok? && members[r.value].role == Owner ==> GetUserRoleInGroup(members, meId, groupId) == Some(Owner)
    ensures r.Ok? && meId == userId && members[r.value].role == Owner ==> OwnerCount(members, groupId) != 1
    ensures r.Ok? <==>
      && GetUserRoleInGroup(members, meId, groupId) in {Some(Owner), Some(ScrumMaster)}
      && IsMember(members, groupId, userId)
      && var t := members[MembershipIndex(members, groupId, userId).value];
         && (t.role == Owner ==> GetUserRoleInGroup(members, meId, groupId) == Some(Owner))
         && (meId == userId && t.role == Owner ==> OwnerCount(members, groupId) != 1)
  {
    match MembershipIndex(members, groupId, meId)
    case None => Err(NotMember)
    case Some(c) =>
      if members[c].role != Owner && members[c].role != ScrumMaster then Err(CannotRemoveMembers)
      else match MembershipIndex(members, groupId, userId)
        case None => Err(MemberNotFound)
        case Some(t) =>
          if members[t].role == Owner && members[c].role != Owner then Err(OnlyOwnersRemoveOwners)
          else if meId == userId && members[t].role == Owner && OwnerCount(members, groupId) == 1 then Err(LastOwnerRemoval)
          else Ok(t)
  }

  /** A removal that passes the checks leaves every group that had an owner with an owner. */
  lemma RemoveMemberKeepsOwner(members: seq<GroupMember>, meId: UserId, groupId: GroupId, userId: UserId, g: GroupId)
    requires RemoveMemberCheck(members, meId, groupId, userId).Ok?
    requires HasOwner(members, g)
    ensures HasOwner(RemoveAt(members, RemoveMemberCheck(members, meId, groupId, userId).value), g)
  {
    var t := RemoveMemberCheck(members, meId, groupId, userId).value;
    var after := RemoveAt(members, t);
    OwnerCountPositive(members, g);
    OwnerCountRemoveAt(members, t, g);
    OwnerCountPositive(after, g);
    if IsOwnerOf(members[t], g) == 1 && meId != userId {
      // removing an owner takes an owner caller, whose membership stays
      var c := MembershipIndex(members, groupId, meId).value;
      var c' := if c < t then c else c - 1;
      assert after[c'] == members[c];
    }
  }

  method RemoveMember(db: Db, identity: Option<Identity>, groupId: GroupId, userId: UserId) returns (r: Result<()>)
    requires db.Valid()
    modifies db`groupMembers
    ensures db.Valid()
    ensures Me(db.users, identity).Err? ==> r == Err(Me(db.users, identity).error)
    ensures Me(db.users, identity).Ok? ==>
      var check := RemoveMemberCheck(old(db.groupMembers), Me(db.users, identity).value.id, groupId, userId);
      && (check.Err? ==> r == Err(check.error))
      && (check.Ok? ==> r == Ok(()) && db.groupMembers == RemoveAt(old(db.groupMembers), check.value))
    ensures r.Err? ==> db.groupMembers == old(db.groupMembers)
    ensures forall k :: 0 <= k < |db.groups| ==> HasOwner(db.groupMembers, db.groups[k].id)
  {
    var me := Me(db.users, identity);
    if me.Err? {
      return Err(me.error);
    }
    var check := RemoveMemberCheck(db.groupMembers, me.value.id, groupId, userId);
    if check.Err? {
      return Err(check.error);
    }
    ghost var oldMembers := db.groupMembers;
    forall k | 0 <= k < |db.groups|
      ensures HasOwner(RemoveAt(oldMembers, check.value), db.groups[k].id)
    {
      RemoveMemberKeepsOwner(oldMembers, me.value.id, groupId, userId, db.groups[k].id);
    }
    RemoveMemberKeepsInvariants(oldMembers, db.groups, db.nextId, check.value);
    db.groupMembers := RemoveAt(db.groupMembers, check.value);
    r := Ok(());
  }

  // ---------------------------------------------------------------------------
  // updateMemberRole

  /** The checks of updateMemberRole, in their order. On success, the index of the
      membership whose role changes. */
  function UpdateRoleCheck(members: seq<GroupMember>, meId: UserId, groupId: GroupId, userId: UserId, newRole: Role): (r: Result<nat>)
    ensures !IsMember(members, groupId, meId) ==> r == Err(NotMember)
    ensures IsMember(members, groupId, meId) && GetUserRoleInGroup(members, meId, groupId) != Some(Owner) ==> r == Err(OnlyOwnersChangeRoles)
    ensures GetUserRoleInGroup(members, meId, groupId) == Some(Owner) && !IsMember(members, groupId, userId) ==>
      r == Err(MemberNotFound)
    ensures GetUserRoleInGroup(members, meId, groupId) == Some(Owner) && IsMember(members, groupId, userId)
            && meId == userId && newRole != Owner && OwnerCount(members, groupId) == 1 ==>
      r == Err(LastOwnerDemotion)
    ensures r.Ok? <==>
      && GetUserRoleInGroup(members, meId, groupId) == Some(Owner)
      && IsMember(members, groupId, userId)
      && (meId == userId && newRole != Owner ==> OwnerCount(members, groupId) != 1)
    ensures r.Ok? ==> r.value == MembershipIndex(members, groupId, userId).value
  {
    match MembershipIndex(members, groupId, meId)
    case None => Err(NotMember)
    case Some(c) =>
      if members[c].role != Owner then Err(OnlyOwnersChangeRoles)
      else match MembershipIndex(members, groupId, userId)
        case None => Err(MemberNotFound)
        case Some(t) =>
          if meId == userId && members[t].role == Owner && newRole != Owner && OwnerCount(members, groupId) == 1 then Err(LastOwnerDemotion)
          else Ok(t)
  }

  /** A role change that passes the checks leaves every group that had an owner with an owner. */
  lemma UpdateRoleKeepsOwner(members: seq<GroupMember>, meId: UserId, groupId: GroupId, userId: UserId, newRole: Role, g: GroupId)
    requires UpdateRoleCheck(members, meId, groupId, userId, newRole).Ok?
    requires HasOwner(members, g)
    ensures var t := UpdateRoleCheck(members, meId, groupId, userId, newRole).value;
            HasOwner(members[t := members[t].(role := newRole)], g)
  {
    var t := UpdateRoleCheck(members, meId, groupId, userId, newRole).value;
    var after := members[t := members[t].(role := newRole)];
    OwnerCountPositive(members, g);
    OwnerCountUpdate(members, t, members[t].(role := newRole), g);
    OwnerCountPositive(after, g);
    if meId != userId {
      // the caller is an owner of the group and keeps that membership
      var c := MembershipIndex(members, groupId, meId).value;
      assert after[c] == members[c];
    }
  }

  method UpdateMemberRole(db: Db, identity: Option<Identity>, groupId: GroupId, userId: UserId, newRole: Role) returns (r: Result<()>)
    requires db.Valid()
    modifies db`groupMembers
    ensures db.Valid()
    ensures Me(db.users, identity).Err? ==> r == Err(Me(db.users, identity).error)
    ensures Me(db.users, identity).Ok? ==>
      var check := UpdateRoleCheck(old(db.groupMembers), Me(db.users, identity).value.id, groupId, userId, newRole);
      && (check.Err? ==> r == Err(check.error))
      && (check.Ok? ==> r == Ok(()) && db.groupMembers == old(db.groupMembers)[check.value := old(db.groupMembers)[check.value].(role := newRole)])
    ensures r.Err? ==> db.groupMembers == old(db.groupMembers)
    ensures forall k :: 0 <= k < |db.groups| ==> HasOwner(db.groupMembers, db.groups[k].id)
  {
    var me := Me(db.users, identity);
    if me.Err? {
      return Err(me.error);
    }
    var check := UpdateRoleCheck(db.groupMembers, me.value.id, groupId, userId, newRole);
    if check.Err? {
      return Err(check.error);
    }
    ghost var oldMembers := db.groupMembers;
    var t := check.value;
    var updated := db.groupMembers[t].(role := newRole);
    forall k | 0 <= k < |db.groups|
      ensures HasOwner(oldMembers[t := updated], db.groups[k].id)
    {
      UpdateRoleKeepsOwner(oldMembers, me.value.id, groupId, userId, newRole, db.groups[k].id);
    }
    UpdateMemberKeepsInvariants(oldMembers, db.groups, db.nextId, t, updated);
    db.groupMembers := db.groupMembers[t := updated];
    r := Ok(());
  }

  // ---------------------------------------------------------------------------
  // myGroupsWithStats

  datatype Stats = Stats(total: nat, completed: nat, pending: int)
  datatype GroupWithStats = GroupWithStats(group: Group, role: Role, stats: Stats)

  function TaskOfGroup(groupId: GroupId): Task -> bool
  {
    (t: Task) => t.groupId == groupId
  }

  /** The tasks of one group, in table order (the `by_group` index). */
  function TasksOf(tasks: seq<Task>, groupId: GroupId): seq<Task>
  {
    Filter(tasks, TaskOfGroup(groupId))
  }

  /** The `by_group` index of tasks holds exactly the group's tasks. */
  lemma TasksOfMeaning(tasks: seq<Task>, groupId: GroupId)
    ensures forall t :: t in TasksOf(tasks, groupId) <==> t in tasks && t.groupId == groupId
  {
    FilterMeaning(tasks, TaskOfGroup(groupId));
  }

  /** `statuses.find(s => s.name === "Done")` over the group's statuses. */
  function DoneStatus(statuses: seq<TaskStatus>, groupId: GroupId): (r: Option<TaskStatus>)
    ensures r.Some? ==> r.value in statuses && r.value.name == "Done" && r.value.groupId == groupId
    ensures r.None? ==> forall s :: s in statuses && s.groupId == groupId ==> s.name != "Done"
  {
    match FirstIndexFrom(statuses, (s: TaskStatus) => s.groupId == groupId && s.name == "Done", 0)
    case Some(k) => Some(statuses[k])
    case None => None
  }

  /** The number of tasks in status `statusId`. */
  function CountInStatus(tasks: seq<Task>, statusId: StatusId): (n: nat)
    ensures n <= |tasks|
    ensures n == 0 <==> forall t :: t in tasks ==> t.statusId != statusId
    ensures n == |tasks| <==> forall t :: t in tasks ==> t.statusId == statusId
  {
    if tasks == [] then 0
    else
      assert forall t :: t in tasks ==> t == tasks[0] || t in tasks[1..];
      (if tasks[0].statusId == statusId then 1 else 0) + CountInStatus(tasks[1..], statusId)
  }

  /** The number of tasks flagged `isCompleted`. */
  function CountCompleted(tasks: seq<Task>): (n: nat)
    ensures n <= |tasks|
    ensures n == 0 <==> forall t :: t in tasks ==> !t.isCompleted
    ensures n == |tasks| <==> forall t :: t in tasks ==> t.isCompleted
  {
    if tasks == [] then 0
    else
      assert forall t :: t in tasks ==> t == tasks[0] || t in tasks[1..];
      (if tasks[0].isCompleted then 1 else 0) + CountCompleted(tasks[1..])
  }

  /** The stats of one group: completed tasks are those in the group's "Done" status, or the
      `isCompleted` ones when the group has no such status; pending is the rest. */
  function GroupStats(tasks: seq<Task>, statuses: seq<TaskStatus>, groupId: GroupId): (s: Stats)
    ensures s.total == |TasksOf(tasks, groupId)|
    ensures s.completed <= s.total && s.pending >= 0 && s.completed + s.pending == s.total
    ensures DoneStatus(statuses, groupId).Some? ==>
      s.completed == CountInStatus(TasksOf(tasks, groupId), DoneStatus(statuses, groupId).value.id)
    ensures DoneStatus(statuses, groupId).None? ==> s.completed == CountCompleted(TasksOf(tasks, groupId))
  {
    var own := TasksOf(tasks, groupId);
    var completed := match DoneStatus(statuses, groupId)
      case Some(d) => CountInStatus(own, d.id)
      case None => CountCompleted(own);
    Stats(|own|, completed, |own| - completed)
  }

  function OfUser(userId: UserId): GroupMember -> bool
  {
    (x: GroupMember) => x.userId == userId
  }

  /** The memberships of one user, in table order (the `by_user` index). */
  function MembershipsOf(members: seq<GroupMember>, userId: UserId): seq<GroupMember>
  {
    Filter(members, OfUser(userId))
  }

  lemma MembershipsOfMeaning(members: seq<GroupMember>, userId: UserId)
    ensures forall x :: x in MembershipsOf(members, userId) <==> x in members && x.userId == userId
  {
    FilterMeaning(members, OfUser(userId));
  }

  /** What myGroupsWithStats promises about the list it builds for user `userId`. */
  lemma CallerEntries(groups: seq<Group>, members: seq<GroupMember>, userId: UserId, tasks: seq<Task>,
                      statuses: seq<TaskStatus>)
    ensures forall e :: e in StatsFor(groups, MembershipsOf(members, userId), tasks, statuses) ==>
      && e.group in groups
      && e.stats == GroupStats(tasks, statuses, e.group.id)
      && exists m :: m in members && m.userId == userId && m.groupId == e.group.id && m.role == e.role
    ensures MembershipGroupsExist(members, groups) ==>
      |StatsFor(groups, MembershipsOf(members, userId), tasks, statuses)| == |MembershipsOf(members, userId)|
  {
    var ms := MembershipsOf(members, userId);
    MembershipsOfMeaning(members, userId);
    StatsForEntries(groups, ms, tasks, statuses);
    if MembershipGroupsExist(members, groups) {
      forall x | x in ms
        ensures GroupExists(groups, x.groupId)
      {
        var j :| 0 <= j < |members| && members[j] == x;
      }
      StatsForLength(groups, ms, tasks, statuses);
    }
  }

  /** What the loop of myGroupsWithStats accumulates over the caller's memberships: one entry
      per membership whose group exists. */
  function StatsFor(groups: seq<Group>, ms: seq<GroupMember>, tasks: seq<Task>, statuses: seq<TaskStatus>): (r: seq<GroupWithStats>)
    ensures |r| <= |ms|
  {
    if ms == [] then []
    else StatsFor(groups, ms[..|ms| - 1], tasks, statuses) + EntryFor(groups, ms[|ms| - 1], tasks, statuses)
  }

  /** The entry the loop of myGroupsWithStats adds for one membership. */
  function EntryFor(groups: seq<Group>, m: GroupMember, tasks: seq<Task>, statuses: seq<TaskStatus>): (r: seq<GroupWithStats>)
    ensures |r| <= 1
    ensures GroupExists(groups, m.groupId) ==> |r| == 1
    ensures forall e :: e in r ==>
      e.group in groups && e.group.id == m.groupId && e.role == m.role && e.stats == GroupStats(tasks, statuses, m.groupId)
  {
    match GroupIndex(groups, m.groupId)
    case Some(k) => [GroupWithStats(groups[k], m.role, GroupStats(tasks, statuses, groups[k].id))]
    case None => []
  }

  /** Every entry names a stored group, carries the role of one of the given memberships in
      that group, and the group's stats. */
  lemma {:induction false} StatsForEntries(groups: seq<Group>, ms: seq<GroupMember>, tasks: seq<Task>, statuses: seq<TaskStatus>)
    ensures forall e :: e in StatsFor(groups, ms, tasks, statuses) ==>
      && e.group in groups
      && e.stats == GroupStats(tasks, statuses, e.group.id)
      && exists m :: m in ms && m.groupId == e.group.id && m.role == e.role
  {
    if ms != [] {
      var front := ms[..|ms| - 1];
      var m := ms[|ms| - 1];
      StatsForEntries(groups, front, tasks, statuses);
      assert StatsFor(groups, ms, tasks, statuses) == StatsFor(groups, front, tasks, statuses) + EntryFor(groups, m, tasks, statuses);
      assert forall x :: x in front ==> x in ms;
      assert m in ms;
    }
  }

  /** No membership is dropped whose group exists. */
  lemma {:induction false} StatsForLength(groups: seq<Group>, ms: seq<GroupMember>, tasks: seq<Task>, statuses: seq<TaskStatus>)
    requires forall m :: m in ms ==> GroupExists(groups, m.groupId)
    ensures |StatsFor(groups, ms, tasks, statuses)| == |ms|
  {
    if ms != [] {
      var front := ms[..|ms| - 1];
      assert forall x :: x in front ==> x in ms;
      StatsForLength(groups, front, tasks, statuses);
      assert StatsFor(groups, ms, tasks, statuses) == StatsFor(groups, front, tasks, statuses) + EntryFor(groups, ms[|ms| - 1], tasks, statuses);
    }
  }

  /** The loop of myGroupsWithStats over the caller's memberships. */
  method CollectStats(groups: seq<Group>, ms: seq<GroupMember>, tasks: seq<Task>, statuses: seq<TaskStatus>)
    returns (acc: seq<GroupWithStats>)
    ensures acc == StatsFor(groups, ms, tasks, statuses)
  {
    acc := [];
    var i := 0;
    while i < |ms|
      invariant i <= |ms|
      invariant acc == StatsFor(groups, ms[..i], tasks, statuses)
    {
      assert ms[..i + 1][..i] == ms[..i];
      var m := ms[i];
      var k := GroupIndex(groups, m.groupId);
      if k.Some? {
        acc := acc + [GroupWithStats(groups[k.value], m.role, GroupStats(tasks, statuses, groups[k.value].id))];
      }
      i := i + 1;
    }
    assert ms[..i] == ms;
  }

  /** myGroupsWithStats: fails without an identity, answers [] for an unregistered caller,
      and otherwise lists the caller's groups with their stats. */
  method MyGroupsWithStats(users: seq<User>, groups: seq<Group>, members: seq<GroupMember>, tasks: seq<Task>,
                           statuses: seq<TaskStatus>, identity: Option<Identity>) returns (r: Result<seq<GroupWithStats>>)
    ensures identity.None? <==> r == Err(NotAuthenticated)
    ensures identity.Some? && Caller(users, identity).None? ==> r == Ok([])
    ensures Caller(users, identity).Some? ==>
      r == Ok(StatsFor(groups, MembershipsOf(members, Caller(users, identity).value.id), tasks, statuses))
    ensures r.Ok? ==> forall e :: e in r.value ==>
      && e.group in groups
      && e.stats == GroupStats(tasks, statuses, e.group.id)
      && exists m :: m in members && m.userId == Caller(users, identity).value.id && m.groupId == e.group.id && m.role == e.role
    ensures r.Ok? && Caller(users, identity).Some? && MembershipGroupsExist(members, groups) ==>
      |r.value| == |MembershipsOf(members, Caller(users, identity).value.id)|
  {
    if identity.None? {
      return Err(NotAuthenticated);
    }
    var me := Caller(users, identity);
    if me.None? {
      return Ok([]);
    }
    var ms := MembershipsOf(members, me.value.id);
    var acc := CollectStats(groups, ms, tasks, statuses);
    CallerEntries(groups, members, me.value.id, tasks, statuses);
    r := Ok(acc);
  }
}
