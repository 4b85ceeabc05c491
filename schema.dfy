/** The tables of the Convex backend (packages/backend/convex/schema.ts) as Dafny values,
    plus the error kinds the handlers raise and the result type that replaces `throw`. */
module Schema {

  /** Document ids. Convex ids are globally unique opaque strings; here they are naturals
      handed out by one store-wide counter. */
  type UserId = nat
  type GroupId = nat
  type StatusId = nat
  type TaskId = nat
  type SubtaskId = nat
  type NotificationId = nat
  type TodoId = nat

  /** The external (Clerk) subject identifier of a user. */
  type ClerkId = string

  datatype Option<+T> = None | Some(value: T)

  /** `a || b` of JavaScript, for an optional string: an absent or empty string is falsy. */
  predicate Truthy(s: Option<string>)
  {
    s.Some? && s.value != ""
  }

  /** A member's role inside one group. */
  datatype Role = Owner | ScrumMaster | Attendee

  /** The role of a person inside one task's `assignments` list. */
  datatype TaskRole = TaskOwner | TaskAttendee | TaskScrumMaster

  datatype Priority = Low | Medium | High | Urgent

  /** Notification kinds; `TaskDelegated` is accepted by createNotification although the
      schema does not list it. */
  datatype NotificationType =
    | TaskAssigned | TaskCompleted | TaskUpdated | SubtaskCompleted
    | DeadlineApproaching | GroupInvite | Mention | TaskDelegated

  /** The entity kinds an audit entry can describe. */
  datatype EntityType =
    | TaskEntity | SubtaskEntity | GroupEntity | UserEntity
    | GroupMemberEntity | NotificationEntity | CommentEntity | TodoEntity

  /** What the identity provider says about the caller: the stable subject and optional claims. */
  datatype Identity = Identity(subject: ClerkId, email: Option<string>, name: Option<string>, picture: Option<string>)

  datatype User = User(
    id: UserId,
    clerkId: ClerkId,
    email: string,
    name: string,
    profilePicture: Option<string>,
    description: Option<string>,
    contact: Option<string>,
    defaultRole: Option<Role>,
    publicKey: Option<string>,
    canCreateGroups: Option<bool>,
    createdAt: int,
    updatedAt: int)

  datatype Group = Group(
    id: GroupId,
    name: string,
    description: Option<string>,
    creatorId: UserId,
    color: Option<string>,
    createdAt: int,
    updatedAt: int)

  datatype GroupMember = GroupMember(id: nat, groupId: GroupId, userId: UserId, role: Role, joinedAt: int)

  datatype TaskStatus = TaskStatus(
    id: StatusId,
    groupId: GroupId,
    name: string,
    order: int,
    color: string,
    isDefault: bool,
    createdAt: int)

  datatype Assignment = Assignment(userId: UserId, taskRole: TaskRole)

  datatype Task = Task(
    id: TaskId,
    groupId: GroupId,
    encryptedTitle: string,
    encryptedDescription: Option<string>,
    statusId: StatusId,
    priority: Priority,
    deadline: Option<int>,
    assignments: seq<Assignment>,
    creatorId: UserId,
    isCompleted: bool,
    completedAt: Option<int>,
    createdAt: int,
    updatedAt: int)

  /** A per-(task, user) grant of the task's wrapped symmetric key. */
  datatype UserTask = UserTask(id: nat, taskId: TaskId, userId: UserId, encryptedTaskKey: string, grantedAt: int, grantedBy: UserId)

  datatype Subtask = Subtask(
    id: SubtaskId,
    parentTaskId: TaskId,
    encryptedTitle: string,
    encryptedDescription: Option<string>,
    order: int,
    isCompleted: bool,
    completedAt: Option<int>,
    completedBy: Option<UserId>,
    assignedTo: Option<UserId>,
    createdAt: int,
    updatedAt: int)

  datatype Notification = Notification(
    id: NotificationId,
    userId: UserId,
    kind: NotificationType,
    relatedTaskId: Option<TaskId>,
    relatedGroupId: Option<GroupId>,
    relatedUserId: Option<UserId>,
    encryptedTitle: string,
    encryptedMessage: string,
    isRead: bool,
    createdAt: int)

  datatype Comment = Comment(id: nat, taskId: TaskId, userId: UserId, encryptedContent: string, createdAt: int, updatedAt: int, isEdited: bool)

  /** A row of the `auditLogs` table (written by _lib/auditLog.ts; absent from the schema file). */
  datatype AuditLog = AuditLog(
    id: nat,
    userId: UserId,
    userName: string,
    action: string,
    entityType: EntityType,
    entityId: nat,
    entityName: Option<string>,
    groupId: Option<GroupId>,
    description: string,
    metadata: Option<string>,
    timestamp: int)

  datatype Todo = Todo(id: TodoId, text: string, completed: bool)

  /** One constructor per distinct `throw` of the handlers. */
  datatype Error =
    | NotAuthenticated
    | UserNotFound
    | NotUnique
    | NonexistentDocument
    | OnlyOwnersCreateGroups
    | OnlyOwnersEditGroup
    | NotMember
    | RoleRequired(allowed: seq<Role>)
    | CannotAddMembers
    | UserNotFoundWithEmail
    | AlreadyMember
    | CannotRemoveMembers
    | MemberNotFound
    | OnlyOwnersRemoveOwners
    | LastOwnerRemoval
    | OnlyOwnersChangeRoles
    | LastOwnerDemotion
    | MaxAssignments
    | MaxAssignmentsReached
    | TaskNotFound
    | AlreadyAssigned
    | SubtasksIncomplete(count: nat)
    | SubtaskNotFound

  datatype Result<+T> = Ok(value: T) | Err(error: Error)
}
