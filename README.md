# Convex task backend, modelled in Dafny

This project models the server half of a collaborative task manager built on Convex. In it, groups
of users (owners, scrum masters, attendees) share tasks, assignments, subtasks, notifications,
comments and an audit trail. Each Convex handler is one atomic read-validate-write step over a small
document store. The model treats it that way:

- `Store.Db` is a class with one sequence per table: `users`, `groups`, `groupMembers`,
  `taskStatuses`, `tasks`, `subtasks`, `notifications`, `userTasks`, `comments`, `auditLogs` and
  `todos`. A counter `nextId` hands out document ids.
- Every mutation is a module-level method that takes the `Db`, the authenticated identity and
  the current time as parameters, and returns a `Result` in place of a thrown `Error`. Its
  `modifies` clause names only the tables it may write.
- Every query is a function of the table contents.
- `Db.Valid()` is the store invariant that every mutation preserves:
  - at most one user per Clerk subject;
  - at most one membership per (group, user);
  - every membership belongs to a stored group;
  - **every group keeps at least one owner**;
  - no task has more than three assignments;
  - at most one key grant per (task, user).

Modules follow the source files:

| module | file |
|---|---|
| `Schema` | `schema.ts`: the document types, the role and notification enums, errors |
| `Store` | the tables, the index lookups, caller resolution, the invariant |
| `Permissions` | `_lib/permissions.ts` |
| `AuditLog` | `_lib/auditLog.ts` |
| `Json` | the `JSON.stringify` of audit metadata, and a parser for what it writes |
| `Ordering` | index ranges and `.filter`, stable sort, `.order("desc")` and `.take(n)` |
| `Users`, `Groups`, `Tasks`, `Subtasks`, `Notifications`, `AuditLogs`, `Comments`, `Todos` | the handler files of the same names |

Shared conventions:

- A handler's checks are a pure function (`…Check`) whose contract states every error case and
  the exact success condition. The method then performs the writes and states the whole new
  state against `old(...)`.
- A Convex `patch` or `delete` of a missing document throws, and the mutation's earlier writes
  are rolled back. The model decides this before any write: the result is
  `Err(NonexistentDocument)` and the state is unchanged.
- `.unique()` throws when two documents match. It is modelled as `Err(NotUnique)`, and lemmas
  show that the store invariant rules this out.

The model follows the handler code:

- There is no delegation chain, `assignmentChain` or `currentAssignee`. Tasks carry only the
  `assignments` list (at most three entries).
- Unchecking a subtask does reopen its parent task (`subtasks.ts:115-122`).
- `toggleSelfAssignment` always adds the caller as an attendee. It never makes the first occupant
  an owner.
- `subtasks.create` and the task assignment mutations perform no role check.
- The audit trail and its access rules are modelled, since the handlers implement them.
- No mutation rejects a repeated assignee. `tasks.create` stores the `assignments` argument as
  given (`tasks.ts:34-56`). `tasks.createSimple` with `assigneeIds` `[u, u]` stores
  `(u, owner), (u, attendee)` (`tasks.ts:292-299`). So "each user holds at most one assignment
  of a task" is not part of `Db.Valid()`. `Tasks.DistinctUsers` states it, and the lemmas that
  preserve it assume it of their inputs.
- `schema.ts` declares no `auditLogs` table, so none of the three indexes the handlers of
  `auditLogs.ts` read (`by_timestamp`, `by_group_and_timestamp`, `by_user`) is declared. The
  model gives each index the fields its name describes; "## Left out" lists these assumptions.

## Model

| member | source | states |
|---|---|---|
| Store.Caller | packages/backend/convex/users.ts:48-58 | getCurrentUser: the record whose Clerk id is the identity's subject, or None without an identity or a record |
| Store.Me | packages/backend/convex/tasks.ts:4-18 | requireIdentity plus lookup: NotAuthenticated without an identity, UserNotFound without a record, otherwise a stored user with that Clerk id |
| Store.RemoveAtMultiset | packages/backend/convex/notifications.ts:98 | a delete removes exactly one occurrence of the deleted row and nothing else |
| Permissions.GetUserRoleInGroup | packages/backend/convex/_lib/permissions.ts:8-21 | the role of the (group, user) membership, or None exactly when there is no such membership |
| Permissions.CanUserCreateGroups | packages/backend/convex/_lib/permissions.ts:27-34 | false exactly when the user exists and its flag is explicitly false |
| Permissions.IsUserOwnerAnywhere | packages/backend/convex/_lib/permissions.ts:40-51 | true exactly when some membership of the user, in any group, has role owner |
| Permissions.AllowedRoles | packages/backend/convex/_lib/permissions.ts:73-75 | a single required role becomes the one-element allowed list; a list is kept as given |
| Permissions.RequireRoleInGroup | packages/backend/convex/_lib/permissions.ts:57-82 | NotMember for a non-member, RoleRequired for a role outside the allowed list, otherwise the member's role, which is then in the list |
| Permissions.Rank | packages/backend/convex/_lib/permissions.ts:97-101 | owner 3, scrum_master 2, attendee 1 |
| Permissions.HasMinimumRole | packages/backend/convex/_lib/permissions.ts:88-104 | false for non-members; for members, true exactly when the rank reaches the minimum; with minimum attendee, true exactly for members; always true for an owner |
| Permissions.MinimumRoleIsAllowedList | packages/backend/convex/_lib/permissions.ts:88-104 | a minimum-role check agrees with requireRoleInGroup given every role at or above the minimum |
| AuditLog.StoredMetadata | packages/backend/convex/_lib/auditLog.ts:35 | no metadata is stored as absent; metadata is stored as its JSON serialization |
| AuditLog.Entry | packages/backend/convex/_lib/auditLog.ts:26-37 | the row copies userId, userName, action, entityType, entityId, entityName, groupId and description verbatim and is stamped with the call time |
| AuditLog.CreateAuditLog | packages/backend/convex/_lib/auditLog.ts:4-38 | appends exactly one row, modifies no existing row, and consumes one id |
| Json.Serialize | packages/backend/convex/_lib/auditLog.ts:35 | the text of a JSON object: opens with `{` and closes with `}` |
| Json.SerializeRoundTrip | packages/backend/convex/_lib/auditLog.ts:35 | parsing the serialized object gives back the metadata, every member in order |
| Json.RestRoundTrip | packages/backend/convex/_lib/auditLog.ts:35 | the comma-separated members after the first parse back to those members, whatever follows that does not start with a comma |
| Json.MemberRoundTrip | packages/backend/convex/_lib/auditLog.ts:35 | a serialized `"key":value` member parses back to that key and value, whatever follows |
| Json.ValueRoundTrip | packages/backend/convex/_lib/auditLog.ts:35 | a serialized string or boolean value parses back to that value, whatever follows |
| Json.ScanQuoted | packages/backend/convex/_lib/auditLog.ts:35 | the closing quote of a serialized string is its first unescaped quote: reading stops there and gives back the string |
| Json.EscapeChar | packages/backend/convex/_lib/auditLog.ts:35 | the escape of a character never starts with a quote, and starts with a backslash exactly when the character is a quote, a backslash or a control character |
| Json.Escape | packages/backend/convex/_lib/auditLog.ts:35 | escaping never shortens a string |
| Json.DecodeShort | packages/backend/convex/_lib/auditLog.ts:35 | each two-character escape decodes back to its character and takes two characters |
| Json.DecodeControl | packages/backend/convex/_lib/auditLog.ts:35 | each \u00xx escape of a control character decodes back to it and takes six characters |
| Json.HexDigitValue | packages/backend/convex/_lib/auditLog.ts:35 | a hex digit written for a value below 16 reads back as that value |
| Json.DecodeEscaped | packages/backend/convex/_lib/auditLog.ts:35 | an escaped character followed by any text decodes back to that character and consumes exactly its escape |
| Json.EscapeRoundTrip | packages/backend/convex/_lib/auditLog.ts:35 | the serialized string text decodes back to the original string |
| Ordering.InsertDesc | packages/backend/convex/notifications.ts:20 | insertion into a descending list keeps it sorted and adds exactly that element |
| Ordering.SortDesc | packages/backend/convex/notifications.ts:20 | the result is sorted by descending key and is a permutation of the input |
| Ordering.Take | packages/backend/convex/auditLogs.ts:34 | the first min(n, length) elements, a prefix of the input |
| Ordering.Reverse | packages/backend/convex/auditLogs.ts:33 | same length, element k is element length-1-k of the input |
| Ordering.ReversePermutes | packages/backend/convex/auditLogs.ts:33 | reversing keeps the multiset of elements |
| Ordering.SortedAppendLeast | packages/backend/convex/comments.ts:37 | appending an element with the smallest key keeps a list sorted |
| Ordering.InsertDescAppendLeast | packages/backend/convex/comments.ts:37 | inserting into a list ending in a least element keeps that element last |
| Ordering.SortDescAppendLeast | packages/backend/convex/comments.ts:37 | stability: sorting a list whose last element has the least key leaves it last, after the sorted rest |
| Ordering.SortDescSorted | packages/backend/convex/comments.ts:37 | sorting a list already in descending order leaves it unchanged |
| Ordering.InsertDescStable | packages/backend/convex/comments.ts:37 | an inserted element goes in front of every element with its key, whose order is kept |
| Ordering.SortDescStable | packages/backend/convex/comments.ts:37 | stability: for every key, the elements with that key come out in their input order |
| Ordering.FilterMeaning | packages/backend/convex/subtasks.ts:78-80 | a filter holds exactly the elements satisfying its predicate |
| Ordering.FilterAppend | packages/backend/convex/subtasks.ts:78-80 | filtering a list with one more element adds that element at the end exactly when it satisfies the predicate |
| Ordering.FilterConcat | packages/backend/convex/subtasks.ts:78-80 | filtering a concatenation is the concatenation of the filtered parts |
| Ordering.FilterNone | packages/backend/convex/subtasks.ts:78-80 | when no element satisfies the predicate the filter is empty |
| Ordering.FilterTwice | packages/backend/convex/notifications.ts:14-18 | filtering by one predicate and then another is filtering once by their conjunction |
| Users.OrElse | packages/backend/convex/users.ts:25-27 | `claim \|\| fallback`: the claim when it is a non-empty string, else the fallback |
| Users.EmailLocalPart | packages/backend/convex/users.ts:35 | the prefix of the email before its first "@", or all of it |
| Users.NewUserName | packages/backend/convex/users.ts:35 | never empty: the name claim, else the email's local part, else "User" |
| Users.NewUser | packages/backend/convex/users.ts:32-42 | email "" when absent, the name fallback, the picture claim, contact from the email, no description, role, public key or group-creation flag |
| Users.MergeClaims | packages/backend/convex/users.ts:24-29 | each of email, name and picture keeps its stored value when the claim is empty; nothing else but `updatedAt` changes |
| Users.MergeClaimsIdempotent | packages/backend/convex/users.ts:24-29 | signing in twice with the same claims changes nothing the second time |
| Users.UpsertCurrentUser | packages/backend/convex/users.ts:12-45 | NotAuthenticated without an identity; otherwise patches the existing record or inserts a new one, and afterwards every record with the caller's Clerk id is the returned one |
| Users.EditProfile | packages/backend/convex/users.ts:82-89 | an omitted argument keeps the stored field, a given one (even "") replaces it, nothing else but `updatedAt` changes |
| Users.UpdateProfile | packages/backend/convex/users.ts:61-92 | fails exactly when the caller cannot be resolved, then changing nothing; otherwise replaces the caller's record with its edited form |
| Users.SetDefaultRole | packages/backend/convex/users.ts:95-113 | fails exactly when the caller cannot be resolved; otherwise only `defaultRole` and `updatedAt` of the caller's record change |
| Users.HydrateMeaning | packages/backend/convex/users.ts:116-126 | hydration yields only stored records, whose ids are the found ids in the given order |
| Users.PresentIdsAllFound | packages/backend/convex/users.ts:120-123 | when every id names a user, no id is skipped |
| Users.ListUsers | packages/backend/convex/users.ts:116-126 | the loop returns stored users, in the order of the ids, skipping missing ids |
| Users.GetAllUsers | packages/backend/convex/users.ts:129-140 | one summary per user, in table order, with exactly the id, name, email and picture |
| Groups.OwnerCountPositive | packages/backend/convex/groups.ts:480 | the owner count of a group is positive exactly when some membership of it has role owner |
| Groups.OwnerCountRemoveAt | packages/backend/convex/groups.ts:488 | deleting a membership lowers the owner count by that membership's share |
| Groups.OwnerCountUpdate | packages/backend/convex/groups.ts:558 | re-roling a membership changes the owner count by the difference of the shares |
| Groups.AppendGroupKeepsInvariants | packages/backend/convex/groups.ts:54-69 | creating a group with an owner membership keeps the membership invariants |
| Groups.AppendMemberKeepsInvariants | packages/backend/convex/groups.ts:317-322 | adding a non-member to a stored group keeps the membership invariants |
| Groups.RemoveMemberKeepsInvariants | packages/backend/convex/groups.ts:488 | a deletion that leaves every group an owner keeps the membership invariants |
| Groups.UpdateMemberKeepsInvariants | packages/backend/convex/groups.ts:558 | a role change that leaves every group an owner keeps the membership invariants |
| Groups.GroupPatchKeepsInvariants | packages/backend/convex/groups.ts:198 | patching a group's fields keeps the membership invariants |
| Groups.NoMembersBeforeCreation | packages/backend/convex/groups.ts:54-69 | a fresh group id has no memberships yet |
| Groups.DefaultStatuses | packages/backend/convex/groups.ts:72-87 | exactly "To Do", "In Progress", "Done" with order 0, 1, 2, all default, in the new group, with consecutive ids |
| Groups.MembersOfMeaning | packages/backend/convex/groups.ts:96-99 | the `by_group` index holds exactly the group's memberships |
| Groups.SeedDefaultStatuses | packages/backend/convex/groups.ts:77-87 | the loop appends exactly the three default statuses and consumes three ids |
| Groups.CreateGroupCheck | packages/backend/convex/groups.ts:39-51 | succeeds exactly for a registered caller whose default role is owner; otherwise the identity error or OnlyOwnersCreateGroups |
| Groups.CreateGroup | packages/backend/convex/groups.ts:32-91 | on failure nothing changes; otherwise the group is appended, the creator is its only member, as owner, and the three default statuses are seeded |
| Groups.InsertGroup | packages/backend/convex/groups.ts:54-69 | appends the group and its owner membership, which is then the group's only membership |
| Groups.PatchGroup | packages/backend/convex/groups.ts:193-198 | only the supplied name, description and color change, plus `updatedAt` |
| Groups.UpdateGroupCheck | packages/backend/convex/groups.ts:182-191 | succeeds exactly for an owner member of an existing group; a non-owner gets OnlyOwnersEditGroup, an owner of a missing group NonexistentDocument |
| Groups.UpdateGroup | packages/backend/convex/groups.ts:166-201 | on failure nothing changes; otherwise only the group's row is replaced by its patch |
| Groups.GetAvailableUsers | packages/backend/convex/groups.ts:231-257 | exactly the summaries of the users with no membership in the group |
| Groups.LowerChar | packages/backend/convex/groups.ts:297 | upper-case ASCII letters map 32 code points down, every other character is kept |
| Groups.ToLowerAscii | packages/backend/convex/groups.ts:297 | lower-cases character by character, keeping the length |
| Groups.AddMemberCheck | packages/backend/convex/groups.ts:278-314 | succeeds exactly for an owner or scrum_master caller, an existing target and a non-member target; each failure in that order gives its error |
| Groups.AddResolvedMember | packages/backend/convex/groups.ts:277-339 | on failure nothing changes; otherwise exactly one membership with the requested role and one group_invite notification to the new member are appended |
| Groups.AddMember | packages/backend/convex/groups.ts:259-343 | the same outcome, with the target looked up by lower-cased email |
| Groups.AddMemberById | packages/backend/convex/groups.ts:345-425 | the same outcome, with the target looked up by id |
| Groups.RemoveMemberCheck | packages/backend/convex/groups.ts:441-486 | NotMember, CannotRemoveMembers for an attendee, MemberNotFound, OnlyOwnersRemoveOwners, LastOwnerRemoval for the sole owner removing themself; succeeds exactly when none applies, with the target's position |
| Groups.RemoveMemberKeepsOwner | packages/backend/convex/groups.ts:469-488 | a removal that passes the checks leaves every owned group with an owner |
| Groups.RemoveMember | packages/backend/convex/groups.ts:427-491 | on failure nothing changes; otherwise exactly the target membership is deleted; every group still has an owner |
| Groups.UpdateRoleCheck | packages/backend/convex/groups.ts:512-556 | NotMember, OnlyOwnersChangeRoles, MemberNotFound, LastOwnerDemotion for the sole owner demoting themself; succeeds exactly for an owner caller, a member target and no such self-demotion |
| Groups.UpdateRoleKeepsOwner | packages/backend/convex/groups.ts:540-558 | a role change that passes the checks leaves every owned group with an owner |
| Groups.UpdateMemberRole | packages/backend/convex/groups.ts:493-561 | on failure nothing changes; otherwise only the target's role changes; every group still has an owner |
| Groups.TasksOfMeaning | packages/backend/convex/groups.ts:125-128 | the `by_group` index of tasks holds exactly the group's tasks |
| Groups.DoneStatus | packages/backend/convex/groups.ts:136 | a stored status of the group named "Done", or None when the group has none |
| Groups.CountInStatus | packages/backend/convex/groups.ts:140 | counts the tasks in the status: 0 exactly when none is, all exactly when all are |
| Groups.CountCompleted | packages/backend/convex/groups.ts:141 | counts the `isCompleted` tasks: 0 exactly when none is, all exactly when all are |
| Groups.GroupStats | packages/backend/convex/groups.ts:136-151 | total is the group's task count; completed counts the tasks in "Done", or the `isCompleted` ones without such a status; completed + pending = total |
| Groups.MembershipsOfMeaning | packages/backend/convex/groups.ts:114-117 | the `by_user` index holds exactly the user's memberships |
| Groups.StatsForEntries | packages/backend/convex/groups.ts:120-153 | every entry names a stored group, carries a given membership's role and the group's stats |
| Groups.StatsForLength | packages/backend/convex/groups.ts:120-153 | no membership whose group exists is dropped |
| Groups.CallerEntries | packages/backend/convex/groups.ts:119-155 | for the caller's memberships: entries as above, one per membership under the invariant |
| Groups.CollectStats | packages/backend/convex/groups.ts:120-153 | the loop accumulates exactly the entries of the memberships whose group exists |
| Groups.MyGroupsWithStats | packages/backend/convex/groups.ts:104-157 | NotAuthenticated exactly without an identity, [] for an unregistered caller, otherwise one entry per caller membership with its role and the group's stats |
| Tasks.FindAssignment | packages/backend/convex/tasks.ts:177-179 | the position of an entry of the user, or None exactly when there is none |
| Tasks.WithoutUser | packages/backend/convex/tasks.ts:212-214 | no entry of the user survives and the list does not grow |
| Tasks.WithoutUserConcat | packages/backend/convex/tasks.ts:212-214 | the filter distributes over concatenation |
| Tasks.WithoutUserKeepsOthers | packages/backend/convex/tasks.ts:212-214 | a list without the user is kept unchanged, in order |
| Tasks.WithoutUserMembers | packages/backend/convex/tasks.ts:212-214 | exactly the entries of other users survive |
| Tasks.WithoutUserIdempotent | packages/backend/convex/tasks.ts:209-220 | removeAssignment is idempotent |
| Tasks.WithoutUserDistinct | packages/backend/convex/tasks.ts:183-185 | filtering keeps a list free of duplicate users |
| Tasks.AddAssignmentTo | packages/backend/convex/tasks.ts:159-165 | AlreadyAssigned for an assigned user, then MaxAssignments at three entries; otherwise appends at the end, keeping length ≤ 3 and distinct users |
| Tasks.ToggleSelf | packages/backend/convex/tasks.ts:177-203 | a present caller loses every entry (false); an absent caller is refused at three entries or appended as attendee (true); the flag says whether the caller is assigned afterwards |
| Tasks.ToggleSelfTwice | packages/backend/convex/tasks.ts:177-203 | toggling oneself on and then off restores the list |
| Tasks.SubtasksOfMeaning | packages/backend/convex/tasks.ts:124-127 | the `by_parent_task` index holds exactly the task's subtasks |
| Tasks.IncompleteCount | packages/backend/convex/tasks.ts:130 | 0 exactly when every subtask is completed |
| Tasks.CreateTaskCheck | packages/backend/convex/tasks.ts:46-47 | the identity error, then MaxAssignments for more than three; otherwise the caller |
| Tasks.NewTask | packages/backend/convex/tasks.ts:49-62 | the new task copies group, status, title, description, priority and deadline from the arguments, is open and not completed, created and updated now, with the caller as creator and the given assignments |
| Tasks.Create | packages/backend/convex/tasks.ts:45-64 | on failure nothing changes; otherwise exactly that task is appended |
| Tasks.BuildAssignments | packages/backend/convex/tasks.ts:289-300 | the first three ids at most, the first as owner and the rest as attendees; no ids gives [] |
| Tasks.CreateSimple | packages/backend/convex/tasks.ts:284-319 | on failure nothing changes; otherwise the task appended is exactly the new-task document for the arguments, the caller and now, with the first three assignees, the first as owner and the rest as attendees |
| Tasks.UpdateStatusCheck | packages/backend/convex/tasks.ts:121-141 | a move into a status named "Done" fails with the incomplete count exactly when a subtask is open; otherwise only a missing task fails |
| Tasks.UpdateStatus | packages/backend/convex/tasks.ts:117-143 | no role check; on failure nothing changes; otherwise only `statusId` and `updatedAt` of the task change |
| Tasks.AddAssignment | packages/backend/convex/tasks.ts:146-168 | TaskNotFound, then the list's refusal; otherwise only the task's list and `updatedAt` change |
| Tasks.ToggleSelfAssignment | packages/backend/convex/tasks.ts:170-205 | the identity error, TaskNotFound, or the toggle's refusal; otherwise the task's list is toggled and the answer says whether the caller is assigned |
| Tasks.RemoveAssignment | packages/backend/convex/tasks.ts:207-221 | TaskNotFound with no change; otherwise every entry of the user is dropped and the others keep their order |
| Tasks.UniqueGrantsAtMostOne | packages/backend/convex/tasks.ts:233-253 | under the grant invariant a (task, user) pair has at most one row, and one exactly when the index finds it |
| Tasks.GrantAccess | packages/backend/convex/tasks.ts:223-256 | overwrites an existing row's key, time and granter, or inserts exactly one row; afterwards the pair has exactly one row, holding the new key |
| Tasks.InsertTask | packages/backend/convex/tasks.ts:49 | appends a task whose list respects the bound |
| Tasks.SetTask | packages/backend/convex/tasks.ts:162-165 | replaces one task whose new list respects the bound |
| Tasks.SetGrant | packages/backend/convex/tasks.ts:240-244 | overwrites one grant row, keeping its pair |
| Tasks.InsertGrant | packages/backend/convex/tasks.ts:247-253 | appends the row of a pair that had none |
| Subtasks.Create | packages/backend/convex/subtasks.ts:10-32 | no role check; appends a subtask with `order` = the parent's subtask count, not completed, with no completer or assignee |
| Subtasks.CreatedIsLastSibling | packages/backend/convex/subtasks.ts:13-23 | the new subtask is the last of its siblings, at position `order` |
| Subtasks.PatchedSubtask | packages/backend/convex/subtasks.ts:59-64 | `isCompleted` := completed; `completedBy` and `completedAt` set when completed and cleared otherwise; nothing else but `updatedAt` changes |
| Subtasks.ScrumMastersExceptMeaning | packages/backend/convex/subtasks.ts:78-81 | the filter keeps exactly the scrum masters other than the actor |
| Subtasks.RecipientsMeaning | packages/backend/convex/subtasks.ts:73-81 | the recipients are exactly the scrum-master memberships of the group other than the actor |
| Subtasks.CompletionNotices | packages/backend/convex/subtasks.ts:84-98 | one subtask_completed notification per recipient, in order, with consecutive ids |
| Subtasks.NoticesFor | packages/backend/convex/subtasks.ts:57 | none unless the subtask goes from open to completed, and none when the parent is missing |
| Subtasks.NoticesReachScrumMasters | packages/backend/convex/subtasks.ts:67-98 | a new completion sends exactly one unread subtask_completed notice to each scrum master of the parent's group other than the actor |
| Subtasks.ParentActionFor | packages/backend/convex/subtasks.ts:109-122 | complete exactly when the parent has subtasks and all are done; reopen exactly when unchecking without that; otherwise leave |
| Subtasks.PatchedParent | packages/backend/convex/subtasks.ts:110-121 | `statusId`, assignments and group are never touched; completing sets `completedAt`, reopening clears it |
| Subtasks.ToggleCheck | packages/backend/convex/subtasks.ts:53-122 | SubtaskNotFound exactly for a missing subtask; for an existing one, NonexistentDocument exactly when the parent action is not LeaveParent and the parent is missing, success otherwise; the subtask's position and the parent action over the patched siblings |
| Subtasks.NotifyScrumMasters | packages/backend/convex/subtasks.ts:84-98 | the loop appends exactly the completion notices |
| Subtasks.NotifyOnCompletion | packages/backend/convex/subtasks.ts:67-100 | appends the notices of a new completion, nothing when the parent is missing |
| Subtasks.UpdateParent | packages/backend/convex/subtasks.ts:109-122 | replaces the parent by its patch |
| Subtasks.ToggleComplete | packages/backend/convex/subtasks.ts:53-124 | on failure nothing changes; otherwise the subtask is patched, the notices are sent, and the parent is patched by the action or left as it was |
| Subtasks.ToggleParentOutcome | packages/backend/convex/subtasks.ts:103-122 | the parent is completed exactly when all its subtasks are done, is reopened by an uncheck, and keeps its `statusId` |
| Notifications.NotificationsOfMeaning | packages/backend/convex/notifications.ts:14-17 | the `by_user` index holds exactly the user's notifications |
| Notifications.UnreadOnlyMeaning | packages/backend/convex/notifications.ts:18 | the filter keeps exactly the unread notifications |
| Notifications.UnreadOfIsFilteredInbox | packages/backend/convex/notifications.ts:115-120 | the `by_user_and_read` index is the user's notifications filtered to unread |
| Notifications.MyNotifications | packages/backend/convex/notifications.ts:4-22 | [] without a registered caller; otherwise only the caller's notifications, only unread ones when asked, newest first, a permutation of that selection |
| Notifications.GetUnreadCount | packages/backend/convex/notifications.ts:104-124 | 0 without a registered caller; otherwise the number of the caller's unread notifications |
| Notifications.UnreadCountMatchesInbox | packages/backend/convex/notifications.ts:106-123 | the unread count equals the length of the unread-only inbox |
| Notifications.MarkedRead | packages/backend/convex/notifications.ts:27 | NonexistentDocument exactly for a missing id; otherwise only that notification's `isRead` becomes true |
| Notifications.MarkReadIdempotent | packages/backend/convex/notifications.ts:27 | marking read twice is marking read once |
| Notifications.MarkRead | packages/backend/convex/notifications.ts:24-30 | no ownership check; the table becomes the marked-read table, or stays as it was on failure |
| Notifications.UnreadPositionsMeaning | packages/backend/convex/notifications.ts:43-47 | the query returns exactly the positions of the user's unread notifications |
| Notifications.ReadAll | packages/backend/convex/notifications.ts:49-51 | exactly the user's unread notifications become read |
| Notifications.ReadAllClears | packages/backend/convex/notifications.ts:43-53 | afterwards the user has nothing unread and other users' notifications are unchanged |
| Notifications.MarkAllAsRead | packages/backend/convex/notifications.ts:32-55 | the identity error with no change; otherwise the count of previously unread notifications, and all of them are read |
| Notifications.CreateNotification | packages/backend/convex/notifications.ts:58-92 | no authorization; appends exactly one unread notification with the given fields and returns its id |
| Notifications.DeleteNotification | packages/backend/convex/notifications.ts:95-101 | NonexistentDocument with no change for a missing id; otherwise removes exactly that record |
| AuditLogs.CountWhereAtMostOne | packages/backend/convex/auditLogs.ts:18 | with no two matches, a `.unique()` query sees at most one |
| AuditLogs.UniqueCaller | packages/backend/convex/auditLogs.ts:15-22 | NotUnique exactly when two users share the subject; otherwise the caller or None |
| AuditLogs.UniqueCallerNeverThrows | packages/backend/convex/auditLogs.ts:15-18 | with one user per subject the caller lookup never throws, and agrees with the `.first()` lookup |
| AuditLogs.UniqueMembership | packages/backend/convex/auditLogs.ts:61-70 | NotUnique exactly when two memberships share the pair; otherwise the membership or None |
| AuditLogs.UniqueMembershipNeverThrows | packages/backend/convex/auditLogs.ts:61-66 | with one membership per pair the lookup never throws |
| AuditLogs.MembershipRole | packages/backend/convex/auditLogs.ts:61-75 | the membership found carries the role the permission helpers report |
| AuditLogs.Newest | packages/backend/convex/auditLogs.ts:30-33 | newest first, a permutation of the trail |
| AuditLogs.NewestPrefix | packages/backend/convex/auditLogs.ts:30-34 | the n newest with the rest make up the trail, and none of the rest is newer than any returned |
| AuditLogs.FilterEverything | packages/backend/convex/auditLogs.ts:30-32 | the `by_timestamp` range is the whole trail |
| AuditLogs.LimitOr | packages/backend/convex/auditLogs.ts:92 | the given limit, or the default when none is given |
| AuditLogs.Page | packages/backend/convex/auditLogs.ts:77-81 | min(n, matches) entries, newest first, a prefix of the newest-first matches |
| AuditLogs.PageMeaning | packages/backend/convex/auditLogs.ts:77-81 | a page holds only matching entries of the trail, and all of them when the limit allows |
| AuditLogs.ListAll | packages/backend/convex/auditLogs.ts:5-38 | [] unless the caller is registered and owns some group; otherwise the page of the whole trail with limit default 100 |
| AuditLogs.ListByGroup | packages/backend/convex/auditLogs.ts:40-85 | [] unless the caller's membership of the group has role owner; otherwise only the group's entries, newest first, default 100 |
| AuditLogs.ListByGroupNeverThrows | packages/backend/convex/auditLogs.ts:51-66 | under the store invariant listByGroup never throws |
| AuditLogs.ListByUser | packages/backend/convex/auditLogs.ts:87-121 | permitted exactly for an owner anywhere or for the user themself; then the user's `limit` (default 50) most recently inserted entries; every entry returned has that `userId` |
| AuditLogs.RecentPage | packages/backend/convex/auditLogs.ts:113-117 | min(n, matches) entries, the k-th being the k-th most recently inserted match |
| AuditLogs.RecentPageMeaning | packages/backend/convex/auditLogs.ts:113-117 | a recent page holds only matching entries of the trail, and all of them when the limit allows |
| AuditLogs.FilterTimeOrdered | packages/backend/convex/_lib/auditLog.ts:26-37 | the entries of a trail written in time order are in time order |
| AuditLogs.RecentPageIsPage | packages/backend/convex/auditLogs.ts:113-117 | for a trail written in time order, most recently inserted first is the same page as newest `timestamp` first |
| Comments.CommentsOfMeaning | packages/backend/convex/comments.ts:33-36 | the `by_task` index holds exactly the task's comments |
| Comments.List | packages/backend/convex/comments.ts:30-39 | exactly the task's comments, ascending by `createdAt`, a permutation of the index range |
| Comments.Add | packages/backend/convex/comments.ts:4-28 | the identity error with nothing inserted; otherwise appends the caller's unedited comment with `createdAt` = `updatedAt` = now |
| Comments.ListKeepsAddOrder | packages/backend/convex/comments.ts:37 | comments created at the same moment are listed in the order they were added |
| Comments.AddedCommentListedLast | packages/backend/convex/comments.ts:18-25 | a comment no older than the others is listed last, after the earlier list unchanged |
| Todos.TodoAudit | packages/backend/convex/todos.ts:33-43 | a todo audit entry names the caller, the action, the todo and its text, in no group |
| Todos.Create | packages/backend/convex/todos.ts:11-48 | always appends an open todo with the text; one "create" audit entry exactly when the caller is registered |
| Todos.Toggled | packages/backend/convex/todos.ts:67 | NonexistentDocument exactly for a missing todo; otherwise only its `completed` changes, to the argument |
| Todos.ToggleIdempotent | packages/backend/convex/todos.ts:67 | toggling to the same value twice is toggling once; toggling back restores the table |
| Todos.Toggle | packages/backend/convex/todos.ts:50-88 | on failure nothing changes; otherwise the patch, and one "complete" or "update" entry exactly when the caller is registered |
| Todos.Deleted | packages/backend/convex/todos.ts:106 | NonexistentDocument exactly for a missing todo; otherwise exactly one occurrence of it is removed |
| Todos.DeletedRemovesOnlyTarget | packages/backend/convex/todos.ts:106 | with unique ids the deleted todo is gone and every other one stays |
| Todos.DeleteTodo | packages/backend/convex/todos.ts:90-125 | on failure nothing changes; otherwise the delete, and one "delete" entry naming the deleted text exactly when the caller is registered |

## Left out

- `apps/native/lib/crypto.ts` and `secure-store.ts`: the libsodium box and secretbox, random nonces and keychain access are foreign code. Task content is modelled as opaque strings.
- UI components and routing: rendering only.
- `myGroups`, `groupMembersList`, `getGroup` and `getMembersWithUserInfo` (groups.ts), and `tasks.listByGroup` and `getStatuses` (tasks.ts): read-side joins outside the modelled handlers. Their index lookups are the `MembersOf`, `MembershipsOf`, `TasksOf` functions above.
- `todos.getAll` returns the table unchanged, and `subtasks.list` is the `Tasks.SubtasksOf` index range. Neither has a member of its own.
- The handlers call `Date.now()` several times. The model passes one `now` per handler, so all timestamps of one call are equal.
- `toLowerCase` lowercases only the ASCII letters A-Z. Non-ASCII case mapping is not modelled.
- `limit` is a natural number. Negative, fractional or NaN limits passed to `.take` are not modelled.
- Json.EscapeChar: strings are sequences of Unicode scalar values, not JavaScript's UTF-16 code units. A lone surrogate in a text (a todo text holding `\ud800`, say) cannot be expressed, so QuoteJSONString's `\udxxx` escape of lone surrogates is not modelled. The decoder refuses surrogate escapes for the same reason.
- Audit metadata is a flat object of string and boolean values, which is what the callers pass. Nested values and numbers in `JSON.stringify` are not modelled.
- Convex's runtime schema validation: `task_delegated` (accepted by createNotification) and `canCreateGroups` (read by the permission helper) are absent from `schema.ts`. The model follows the handler code and includes both.
- Rollback is modelled by deciding every error before the first write, not by undoing writes.
- Id uniqueness within the tables is not part of the store invariant. Ids come from one global counter, so they are unique in every state the modelled handlers reach. Only `Todos.DeletedRemovesOnlyTarget` assumes it explicitly.
- Convex document ids are natural numbers from one counter, not opaque strings per table.
- Error message texts are opaque: `Error` constructors stand for the thrown messages, and the human-readable notification and audit texts are opaque strings.
- Reactivity, subscriptions and concurrent transactions: every handler is one atomic step.
- AuditLogs.ListByUser: the `auditLogs` table and its indexes are not declared in `schema.ts` (its `activityLogs` table is a different one). The model assumes `by_user` = [`userId`], so `.order("desc")` returns the user's entries most recently inserted first, since Convex orders equal index keys by creation time.
- AuditLogs.ListByGroup: assumes `by_group_and_timestamp` = [`groupId`, `timestamp`], so the group's entries come newest `timestamp` first, and later insertions first on equal timestamps.
- AuditLogs.ListAll: assumes `by_timestamp` = [`timestamp`], with the same order over the whole trail.
- Permissions.RequireRoleInGroup: accepts any list of allowed roles. The TypeScript signature restricts a list to owner and scrum_master.
