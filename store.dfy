/** The Convex document store the handlers run against: one sequence per table, in
    insertion order, and the lookups the handlers perform through its indexes. Each
    handler is one atomic read-validate-write step over a `Db`. */
module Store {
  import opened Schema

  /** The first position at or after `from` whose element satisfies `p` (a `.first()` query). */
  function FirstIndexFrom<T>(s: seq<T>, p: T -> bool, from: nat): (r: Option<nat>)
    requires from <= |s|
    ensures r.Some? ==> from <= r.value < |s| && p(s[r.value])
    ensures forall j :: from <= j < |s| && (r.None? || j < r.value) ==> !p(s[j])
    decreases |s| - from
  {
    if from == |s| then None
    else if p(s[from]) then Some(from)
    else FirstIndexFrom(s, p, from + 1)
  }

  /** The `by_clerk_id` index of `users`. */
  function UserIndexByClerk(users: seq<User>, clerk: ClerkId): (r: Option<nat>)
    ensures r.Some? ==> r.value < |users| && users[r.value].clerkId == clerk
    ensures forall j :: 0 <= j < |users| && (r.None? || j < r.value) ==> users[j].clerkId != clerk
  {
    FirstIndexFrom(users, (u: User) => u.clerkId == clerk, 0)
  }

  /** `ctx.db.get` on the `users` table. */
  function UserIndexById(users: seq<User>, id: UserId): (r: Option<nat>)
    ensures r.Some? ==> r.value < |users| && users[r.value].id == id
    ensures forall j :: 0 <= j < |users| && (r.None? || j < r.value) ==> users[j].id != id
  {
    FirstIndexFrom(users, (u: User) => u.id == id, 0)
  }

  /** The `by_email` index of `users`. */
  function UserIndexByEmail(users: seq<User>, email: string): (r: Option<nat>)
    ensures r.Some? ==> r.value < |users| && users[r.value].email == email
    ensures forall j :: 0 <= j < |users| && (r.None? || j < r.value) ==> users[j].email != email
  {
    FirstIndexFrom(users, (u: User) => u.email == email, 0)
  }

  function GroupIndex(groups: seq<Group>, id: GroupId): (r: Option<nat>)
    ensures r.Some? ==> r.value < |groups| && groups[r.value].id == id
    ensures forall j :: 0 <= j < |groups| && (r.None? || j < r.value) ==> groups[j].id != id
  {
    FirstIndexFrom(groups, (g: Group) => g.id == id, 0)
  }

  function StatusIndex(statuses: seq<TaskStatus>, id: StatusId): (r: Option<nat>)
    ensures r.Some? ==> r.value < |statuses| && statuses[r.value].id == id
    ensures forall j :: 0 <= j < |statuses| && (r.None? || j < r.value) ==> statuses[j].id != id
  {
    FirstIndexFrom(statuses, (s: TaskStatus) => s.id == id, 0)
  }

  function TaskIndex(tasks: seq<Task>, id: TaskId): (r: Option<nat>)
    ensures r.Some? ==> r.value < |tasks| && tasks[r.value].id == id
    ensures forall j :: 0 <= j < |tasks| && (r.None? || j < r.value) ==> tasks[j].id != id
  {
    FirstIndexFrom(tasks, (t: Task) => t.id == id, 0)
  }

  function SubtaskIndex(subtasks: seq<Subtask>, id: SubtaskId): (r: Option<nat>)
    ensures r.Some? ==> r.value < |subtasks| && subtasks[r.value].id == id
    ensures forall j :: 0 <= j < |subtasks| && (r.None? || j < r.value) ==> subtasks[j].id != id
  {
    FirstIndexFrom(subtasks, (s: Subtask) => s.id == id, 0)
  }

  function NotificationIndex(notifications: seq<Notification>, id: NotificationId): (r: Option<nat>)
    ensures r.Some? ==> r.value < |notifications| && notifications[r.value].id == id
    ensures forall j :: 0 <= j < |notifications| && (r.None? || j < r.value) ==> notifications[j].id != id
  {
    FirstIndexFrom(notifications, (n: Notification) => n.id == id, 0)
  }

  /** The `by_task_and_user` index of `userTasks`. */
  function GrantIndex(grants: seq<UserTask>, taskId: TaskId, userId: UserId): (r: Option<nat>)
    ensures r.Some? ==> r.value < |grants| && grants[r.value].taskId == taskId && grants[r.value].userId == userId
    ensures forall j :: 0 <= j < |grants| && (r.None? || j < r.value) ==> !(grants[j].taskId == taskId && grants[j].userId == userId)
  {
    FirstIndexFrom(grants, (g: UserTask) => g.taskId == taskId && g.userId == userId, 0)
  }

  function TodoIndex(todos: seq<Todo>, id: TodoId): (r: Option<nat>)
    ensures r.Some? ==> r.value < |todos| && todos[r.value].id == id
    ensures forall j :: 0 <= j < |todos| && (r.None? || j < r.value) ==> todos[j].id != id
  {
    FirstIndexFrom(todos, (t: Todo) => t.id == id, 0)
  }

  /** The registered user behind an identity, or None when there is no identity or no such
      user (the handlers that answer `[]`, `0` or `null` instead of throwing). */
  function Caller(users: seq<User>, identity: Option<Identity>): (r: Option<User>)
    ensures r.Some? <==> identity.Some? && exists i :: 0 <= i < |users| && users[i].clerkId == identity.value.subject
    ensures r.Some? ==> r.value in users && r.value.clerkId == identity.value.subject
  {
    if identity.None? then None
    else match UserIndexByClerk(users, identity.value.subject)
      case None => None
      case Some(i) => Some(users[i])
  }

  /** `requireIdentity` followed by the `by_clerk_id` lookup and "User not found". */
  function Me(users: seq<User>, identity: Option<Identity>): (r: Result<User>)
    ensures r == Err(NotAuthenticated) <==> identity.None?
    ensures r.Ok? <==> Caller(users, identity).Some?
    ensures r.Err? ==> r.error in {NotAuthenticated, UserNotFound}
    ensures r.Ok? ==> r.value in users && r.value.clerkId == identity.value.subject
  {
    if identity.None? then Err(NotAuthenticated)
    else match Caller(users, identity)
      case None => Err(UserNotFound)
      case Some(u) => Ok(u)
  }

  /** Deleting the element at position `t` (a `ctx.db.delete` of that document). */
  function RemoveAt<T>(s: seq<T>, t: nat): (r: seq<T>)
    requires t < |s|
    ensures |r| == |s| - 1
    ensures forall k :: 0 <= k < t ==> r[k] == s[k]
    ensures forall k :: t <= k < |r| ==> r[k] == s[k + 1]
  {
    s[..t] + s[t + 1..]
  }

  /** A delete removes exactly one occurrence of the deleted row and nothing else. */
  lemma RemoveAtMultiset<T>(s: seq<T>, t: nat)
    requires t < |s|
    ensures multiset(RemoveAt(s, t)) == multiset(s) - multiset{s[t]}
  {
    assert s == s[..t] + [s[t]] + s[t + 1..];
  }

  // The invariants the handlers keep. Ids of the other tables are fresh by construction
  // (every insert takes the counter), and nothing below depends on them.

  /** At most one user per Clerk subject: what the upsert by `by_clerk_id` keeps. */
  ghost predicate UniqueClerkIds(users: seq<User>)
  {
    forall i, j :: 0 <= i < j < |users| ==> users[i].clerkId != users[j].clerkId
  }

  /** Every group id was handed out by the counter. */
  ghost predicate GroupIdsBelow(groups: seq<Group>, next: nat)
  {
    forall i :: 0 <= i < |groups| ==> groups[i].id < next
  }

  ghost predicate GroupExists(groups: seq<Group>, g: GroupId)
  {
    exists k :: 0 <= k < |groups| && groups[k].id == g
  }

  /** The number of owner memberships of group `g` (the `ownerCount` of the handlers). */
  function OwnerCount(members: seq<GroupMember>, g: GroupId): (n: nat)
    ensures n <= |members|
  {
    if members == [] then 0
    else (if members[0].groupId == g && members[0].role == Owner then 1 else 0) + OwnerCount(members[1..], g)
  }

  /** Group `g` has an owner. Stated by count rather than by a witness, so that the two
      invariants below do not feed each other new terms. */
  ghost predicate HasOwner(members: seq<GroupMember>, g: GroupId)
  {
    OwnerCount(members, g) > 0
  }

  /** At most one membership per (group, user): what addMember's "already a member" check keeps. */
  ghost predicate UniqueMemberships(members: seq<GroupMember>)
  {
    forall i, j :: 0 <= i < j < |members| ==>
      !(members[i].groupId == members[j].groupId && members[i].userId == members[j].userId)
  }

  /** Every membership belongs to a stored group. */
  ghost predicate MembershipGroupsExist(members: seq<GroupMember>, groups: seq<Group>)
  {
    forall i :: 0 <= i < |members| ==> GroupExists(groups, members[i].groupId)
  }

  /** Every group keeps at least one owner. */
  ghost predicate EveryGroupHasOwner(groups: seq<Group>, members: seq<GroupMember>)
  {
    forall k :: 0 <= k < |groups| ==> HasOwner(members, groups[k].id)
  }

  /** The membership invariants together. */
  ghost predicate MembersOk(members: seq<GroupMember>, groups: seq<Group>, next: nat)
  {
    && GroupIdsBelow(groups, next)
    && UniqueMemberships(members)
    && MembershipGroupsExist(members, groups)
    && EveryGroupHasOwner(groups, members)
  }

  /** No task ever holds more than three assignments. */
  ghost predicate AssignmentsBounded(tasks: seq<Task>)
  {
    forall i :: 0 <= i < |tasks| ==> |tasks[i].assignments| <= 3
  }

  /** At most one key grant per (task, user): what grantAccess's upsert keeps. */
  ghost predicate UniqueGrants(grants: seq<UserTask>)
  {
    forall i, j :: 0 <= i < j < |grants| ==>
      !(grants[i].taskId == grants[j].taskId && grants[i].userId == grants[j].userId)
  }

  /** The tables of the backend. Each field is one Convex table in insertion order. */
  class Db {
    var users: seq<User>
    var groups: seq<Group>
    var groupMembers: seq<GroupMember>
    var taskStatuses: seq<TaskStatus>
    var tasks: seq<Task>
    var userTasks: seq<UserTask>
    var subtasks: seq<Subtask>
    var notifications: seq<Notification>
    var comments: seq<Comment>
    var auditLogs: seq<AuditLog>
    var todos: seq<Todo>
    /** The id the next inserted document receives. */
    var nextId: nat

    ghost predicate Valid()
      reads this
    {
      && UniqueClerkIds(users)
      && MembersOk(groupMembers, groups, nextId)
      && AssignmentsBounded(tasks)
      && UniqueGrants(userTasks)
    }

    /** An empty deployment. */
    constructor ()
      ensures Valid()
      ensures users == [] && groups == [] && groupMembers == [] && taskStatuses == []
      ensures tasks == [] && userTasks == [] && subtasks == [] && notifications == []
      ensures comments == [] && auditLogs == [] && todos == [] && nextId == 0
    {
      users, groups, groupMembers, taskStatuses := [], [], [], [];
      tasks, userTasks, subtasks, notifications := [], [], [], [];
      comments, auditLogs, todos, nextId := [], [], [], 0;
    }
  }
}
