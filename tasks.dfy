/** Tasks (tasks.ts): creation, the "Done" gate on status moves, the per-task assignment
    list (at most three entries) and the per-(task, user) key grants. */
module Tasks {
  import opened Schema
  import opened Store
  import opened Ordering

  // ---------------------------------------------------------------------------
  // Assignment lists

  /** `assignments.findIndex(a => a.userId === userId)`, or None for -1. */
  function FindAssignment(assignments: seq<Assignment>, userId: UserId): (r: Option<nat>)
    ensures r.Some? ==> r.value < |assignments| && assignments[r.value].userId == userId
    ensures r.None? ==> forall j :: 0 <= j < |assignments| ==> assignments[j].userId != userId
  {
    FirstIndexFrom(assignments, (a: Assignment) => a.userId == userId, 0)
  }

  /** No user appears twice in an assignment list. */
  ghost predicate DistinctUsers(assignments: seq<Assignment>)
  {
    forall i, j :: 0 <= i < j < |assignments| ==> assignments[i].userId != assignments[j].userId
  }

  /** `assignments.filter(a => a.userId !== userId)`. */
  function WithoutUser(assignments: seq<Assignment>, userId: UserId): (r: seq<Assignment>)
    ensures |r| <= |assignments|
    ensures forall j :: 0 <= j < |r| ==> r[j].userId != userId
  {
    if assignments == [] then []
    else (if assignments[0].userId == userId then [] else [assignments[0]]) + WithoutUser(assignments[1..], userId)
  }

  /** The filter works entry by entry: it distributes over concatenation. */
  lemma {:induction false} WithoutUserConcat(a: seq<Assignment>, b: seq<Assignment>, userId: UserId)
    ensures WithoutUser(a + b, userId) == WithoutUser(a, userId) + WithoutUser(b, userId)
  {
    if a == [] {
      assert a + b == b;
    } else {
      assert (a + b)[0] == a[0];
      assert (a + b)[1..] == a[1..] + b;
      WithoutUserConcat(a[1..], b, userId);
    }
  }

  /** Entries of other users are all kept, in their original order. */
  lemma {:induction false} WithoutUserKeepsOthers(assignments: seq<Assignment>, userId: UserId)
    requires forall j :: 0 <= j < |assignments| ==> assignments[j].userId != userId
    ensures WithoutUser(assignments, userId) == assignments
  {
    if assignments != [] {
      WithoutUserKeepsOthers(assignments[1..], userId);
      assert assignments == [assignments[0]] + assignments[1..];
    }
  }

  /** Exactly the entries of other users survive the filter. */
  lemma {:induction false} WithoutUserMembers(assignments: seq<Assignment>, userId: UserId)
    ensures forall x :: x in WithoutUser(assignments, userId) <==> x in assignments && x.userId != userId
  {
    if assignments != [] {
      WithoutUserMembers(assignments[1..], userId);
      assert assignments == [assignments[0]] + assignments[1..];
    }
  }

  /** removeAssignment is idempotent: filtering a second time changes nothing. */
  lemma WithoutUserIdempotent(assignments: seq<Assignment>, userId: UserId)
    ensures WithoutUser(WithoutUser(assignments, userId), userId) == WithoutUser(assignments, userId)
  {
    WithoutUserKeepsOthers(WithoutUser(assignments, userId), userId);
  }

  /** Filtering keeps a list free of duplicate users. */
  lemma {:induction false} WithoutUserDistinct(assignments: seq<Assignment>, userId: UserId)
    requires DistinctUsers(assignments)
    ensures DistinctUsers(WithoutUser(assignments, userId))
  {
    if assignments != [] {
      var rest := assignments[1..];
      assert DistinctUsers(rest) by {
        forall i, j | 0 <= i < j < |rest| ensures rest[i].userId != rest[j].userId {
          assert rest[i] == assignments[i + 1] && rest[j] == assignments[j + 1];
        }
      }
      WithoutUserDistinct(rest, userId);
      WithoutUserMembers(rest, userId);
      var tail := WithoutUser(rest, userId);
      if assignments[0].userId != userId {
        var r := [assignments[0]] + tail;
        forall i, j | 0 <= i < j < |r| ensures r[i].userId != r[j].userId {
          if i == 0 {
            assert r[j] == tail[j - 1];
            assert tail[j - 1] in rest;
          } else {
            assert r[i] == tail[i - 1] && r[j] == tail[j - 1];
          }
        }
      }
    }
  }

  /** The list addAssignment stores, or why it refuses: a user already on the list, then a
      full list. */
  function AddAssignmentTo(assignments: seq<Assignment>, userId: UserId, taskRole: TaskRole): (r: Result<seq<Assignment>>)
    ensures FindAssignment(assignments, userId).Some? ==> r == Err(AlreadyAssigned)
    ensures FindAssignment(assignments, userId).None? && |assignments| >= 3 ==> r == Err(MaxAssignments)
    ensures r.Ok? <==> FindAssignment(assignments, userId).None? && |assignments| < 3
    ensures r.Ok? ==> r.value == assignments + [Assignment(userId, taskRole)] && |r.value| <= 3
    ensures r.Ok? && DistinctUsers(assignments) ==> DistinctUsers(r.value)
  {
    if FindAssignment(assignments, userId).Some? then Err(AlreadyAssigned)
    else if |assignments| >= 3 then Err(MaxAssignments)
    else Ok(assignments + [Assignment(userId, taskRole)])
  }

  /** What toggleSelfAssignment stores and answers: the caller's entries removed (`false`),
      or one attendee entry for the caller appended (`true`) unless the list is full. */
  function ToggleSelf(assignments: seq<Assignment>, me: UserId): (r: Result<(seq<Assignment>, bool)>)
    ensures FindAssignment(assignments, me).Some? ==> r == Ok((WithoutUser(assignments, me), false))
    ensures FindAssignment(assignments, me).None? ==> (r.Err? <==> |assignments| >= 3)
    ensures r.Err? ==> r.error == MaxAssignmentsReached
    ensures r.Ok? && r.value.1 ==> r.value.0 == assignments + [Assignment(me, TaskAttendee)]
    ensures r.Ok? ==> (r.value.1 <==> FindAssignment(r.value.0, me).Some?)
    ensures r.Ok? && |assignments| <= 3 ==> |r.value.0| <= 3
    ensures r.Ok? && DistinctUsers(assignments) ==> DistinctUsers(r.value.0)
  {
    if FindAssignment(assignments, me).Some? then
      var kept := WithoutUser(assignments, me);
      WithoutUserDistinct2(assignments, me);
      Ok((kept, false))
    else if |assignments| >= 3 then Err(MaxAssignmentsReached)
    else
      var added := assignments + [Assignment(me, TaskAttendee)];
      assert added[|assignments|].userId == me;
      Ok((added, true))
  }

  /** WithoutUserDistinct, stated as an implication so a function body can use it. */
  lemma WithoutUserDistinct2(assignments: seq<Assignment>, userId: UserId)
    ensures DistinctUsers(assignments) ==> DistinctUsers(WithoutUser(assignments, userId))
  {
    if DistinctUsers(assignments) {
      WithoutUserDistinct(assignments, userId);
    }
  }

  /** Toggling oneself on and then off again restores the list. */
  lemma ToggleSelfTwice(assignments: seq<Assignment>, me: UserId)
    requires ToggleSelf(assignments, me).Ok? && ToggleSelf(assignments, me).value.1
    ensures ToggleSelf(ToggleSelf(assignments, me).value.0, me) == Ok((assignments, false))
  {
    var added := assignments + [Assignment(me, TaskAttendee)];
    WithoutUserConcat(assignments, [Assignment(me, TaskAttendee)], me);
    WithoutUserKeepsOthers(assignments, me);
    assert WithoutUser([Assignment(me, TaskAttendee)], me) == [];
  }

  // ---------------------------------------------------------------------------
  // Subtasks as seen from their parent

  function ChildOf(taskId: TaskId): Subtask -> bool
  {
    (x: Subtask) => x.parentTaskId == taskId
  }

  /** The subtasks of one task, in table order (the `by_parent_task` index). */
  function SubtasksOf(subtasks: seq<Subtask>, taskId: TaskId): (r: seq<Subtask>)
    ensures forall j :: 0 <= j < |r| ==> r[j].parentTaskId == taskId
  {
    FilterMeaning(subtasks, ChildOf(taskId));
    var r := Filter(subtasks, ChildOf(taskId));
    assert forall j :: 0 <= j < |r| ==> r[j] in r;
    r
  }

  /** The `by_parent_task` index holds exactly the task's subtasks. */
  lemma SubtasksOfMeaning(subtasks: seq<Subtask>, taskId: TaskId)
    ensures forall x :: x in SubtasksOf(subtasks, taskId) <==> x in subtasks && x.parentTaskId == taskId
  {
    FilterMeaning(subtasks, ChildOf(taskId));
  }

  /** The number of subtasks not yet completed. */
  function IncompleteCount(subs: seq<Subtask>): (n: nat)
    ensures n <= |subs|
    ensures n == 0 <==> forall j :: 0 <= j < |subs| ==> subs[j].isCompleted
  {
    if subs == [] then 0
    else
      var rest := IncompleteCount(subs[1..]);
      assert forall j :: 1 <= j < |subs| ==> subs[j] == subs[1..][j - 1];
      (if subs[0].isCompleted then 0 else 1) + rest
  }

  // ---------------------------------------------------------------------------
  // create and createSimple

  /** The checks of create: a registered caller, and at most three initial assignments. */
  function CreateTaskCheck(users: seq<User>, identity: Option<Identity>, assignments: seq<Assignment>): (r: Result<User>)
    ensures Me(users, identity).Err? ==> r == Err(Me(users, identity).error)
    ensures Me(users, identity).Ok? && |assignments| > 3 ==> r == Err(MaxAssignments)
    ensures r.Ok? <==> Me(users, identity).Ok? && |assignments| <= 3
    ensures r.Ok? ==> r.value == Me(users, identity).value
  {
    var me := Me(users, identity);
    if me.Err? then Err(me.error)
    else if |assignments| > 3 then Err(MaxAssignments)
    else me
  }

  /** The fields a caller supplies for a new task. */
  datatype TaskArgs = TaskArgs(
    groupId: GroupId,
    statusId: StatusId,
    encryptedTitle: string,
    encryptedDescription: Option<string>,
    priority: Priority,
    deadline: Option<int>)

  /** The document create and createSimple insert: open, unfinished, stamped `now`. */
  function NewTask(id: TaskId, a: TaskArgs, assignments: seq<Assignment>, creator: UserId, now: int): (t: Task)
    ensures t.id == id && t.creatorId == creator && t.assignments == assignments
    ensures !t.isCompleted && t.completedAt.None? && t.createdAt == now && t.updatedAt == now
    ensures t.groupId == a.groupId && t.statusId == a.statusId && t.priority == a.priority
    ensures t.encryptedTitle == a.encryptedTitle && t.encryptedDescription == a.encryptedDescription
    ensures t.deadline == a.deadline
  {
    Task(id, a.groupId, a.encryptedTitle, a.encryptedDescription, a.statusId, a.priority, a.deadline,
         assignments, creator, false, None, now, now)
  }

  /** Appends a task; its assignment list must respect the bound. */
  method InsertTask(db: Db, t: Task)
    requires db.Valid() && t.id == db.nextId && |t.assignments| <= 3
    modifies db`tasks, db`nextId
    ensures db.Valid()
    ensures db.tasks == old(db.tasks) + [t] && db.nextId == old(db.nextId) + 1
  {
    db.tasks := db.tasks + [t];
    db.nextId := db.nextId + 1;
  }

  /** Replaces the task at position `k`; the new assignment list must respect the bound. */
  method SetTask(db: Db, k: nat, t: Task)
    requires db.Valid() && k < |db.tasks| && |t.assignments| <= 3
    modifies db`tasks
    ensures db.Valid()
    ensures db.tasks == old(db.tasks)[k := t]
  {
    db.tasks := db.tasks[k := t];
  }

  /** create: inserts the task with the given assignments and the caller as creator. */
  method Create(db: Db, identity: Option<Identity>, now: int, a: TaskArgs, assignments: seq<Assignment>)
    returns (r: Result<Task>)
    requires db.Valid()
    modifies db`tasks, db`nextId
    ensures db.Valid()
    ensures CreateTaskCheck(db.users, identity, assignments).Err? ==>
      r == Err(CreateTaskCheck(db.users, identity, assignments).error)
      && db.tasks == old(db.tasks) && db.nextId == old(db.nextId)
    ensures CreateTaskCheck(db.users, identity, assignments).Ok? ==>
      && r == Ok(NewTask(old(db.nextId), a, assignments, CreateTaskCheck(db.users, identity, assignments).value.id, now))
      && db.tasks == old(db.tasks) + [r.value] && db.nextId == old(db.nextId) + 1
  {
    var check := CreateTaskCheck(db.users, identity, assignments);
    if check.Err? {
      return Err(check.error);
    }
    var t := NewTask(db.nextId, a, assignments, check.value.id, now);
    InsertTask(db, t);
    r := Ok(t);
  }

  /** The assignments createSimple builds: the first three ids, the first as owner and the
      rest as attendees. */
  method BuildAssignments(assigneeIds: Option<seq<UserId>>) returns (r: seq<Assignment>)
    ensures assigneeIds.None? ==> r == []
    ensures assigneeIds.Some? ==>
      && |r| == (if |assigneeIds.value| < 3 then |assigneeIds.value| else 3)
      && forall k :: 0 <= k < |r| ==> r[k] == Assignment(assigneeIds.value[k], if k == 0 then TaskOwner else TaskAttendee)
  {
    r := [];
    if assigneeIds.Some? && |assigneeIds.value| > 0 {
      var ids := assigneeIds.value;
      var toAdd := if |ids| < 3 then ids else ids[..3];
      var i := 0;
      while i < |toAdd|
        invariant 0 <= i <= |toAdd|
        invariant |r| == i
        invariant forall k :: 0 <= k < i ==> r[k] == Assignment(ids[k], if k == 0 then TaskOwner else TaskAttendee)
      {
        var taskRole := if |r| == 0 then TaskOwner else TaskAttendee;
        r := r + [Assignment(toAdd[i], taskRole)];
        i := i + 1;
      }
    }
  }

  /** createSimple: a registered caller; no bound to check, since at most three ids are kept. */
  method CreateSimple(db: Db, identity: Option<Identity>, now: int, a: TaskArgs, assigneeIds: Option<seq<UserId>>)
    returns (r: Result<Task>)
    requires db.Valid()
    modifies db`tasks, db`nextId
    ensures db.Valid()
    ensures Me(db.users, identity).Err? ==>
      r == Err(Me(db.users, identity).error) && db.tasks == old(db.tasks) && db.nextId == old(db.nextId)
    ensures Me(db.users, identity).Ok? ==>
      && r.Ok? && r.value == NewTask(old(db.nextId), a, r.value.assignments, Me(db.users, identity).value.id, now)
      && db.tasks == old(db.tasks) + [r.value] && db.nextId == old(db.nextId) + 1
      && (assigneeIds.None? ==> r.value.assignments == [])
      && (assigneeIds.Some? ==>
            && |r.value.assignments| == (if |assigneeIds.value| < 3 then |assigneeIds.value| else 3)
            && forall k :: 0 <= k < |r.value.assignments| ==>
                 r.value.assignments[k] == Assignment(assigneeIds.value[k], if k == 0 then TaskOwner else TaskAttendee))
  {
    var me := Me(db.users, identity);
    if me.Err? {
      return Err(me.error);
    }
    var assignments := BuildAssignments(assigneeIds);
    var t := NewTask(db.nextId, a, assignments, me.value.id, now);
    InsertTask(db, t);
    r := Ok(t);
  }

  // ---------------------------------------------------------------------------
  // updateStatus

  /** The target status exists and is named "Done". */
  predicate IsDoneStatus(statuses: seq<TaskStatus>, statusId: StatusId)
  {
    match StatusIndex(statuses, statusId)
    case Some(k) => statuses[k].name == "Done"
    case None => false
  }

  /** The checks of updateStatus: a move into "Done" needs every subtask completed; the
      patch then needs the task to exist. On success, the task's position. */
  function UpdateStatusCheck(tasks: seq<Task>, statuses: seq<TaskStatus>, subtasks: seq<Subtask>,
                             taskId: TaskId, statusId: StatusId): (r: Result<nat>)
    ensures IsDoneStatus(statuses, statusId) && IncompleteCount(SubtasksOf(subtasks, taskId)) > 0 ==>
      r == Err(SubtasksIncomplete(IncompleteCount(SubtasksOf(subtasks, taskId))))
    ensures r.Ok? <==>
      && TaskIndex(tasks, taskId).Some?
      && (IsDoneStatus(statuses, statusId) ==> forall s :: s in subtasks && s.parentTaskId == taskId ==> s.isCompleted)
    ensures r.Err? && !r.error.SubtasksIncomplete? ==> r.error == NonexistentDocument
    ensures r.Ok? ==> r.value == TaskIndex(tasks, taskId).value
  {
    var own := SubtasksOf(subtasks, taskId);
    SubtasksOfMeaning(subtasks, taskId);
    assert forall s :: s in own ==> exists j :: 0 <= j < |own| && own[j] == s;
    if IsDoneStatus(statuses, statusId) && |own| > 0 && IncompleteCount(own) > 0 then
      assert exists j :: 0 <= j < |own| && !own[j].isCompleted;
      Err(SubtasksIncomplete(IncompleteCount(own)))
    else match TaskIndex(tasks, taskId)
      case None => Err(NonexistentDocument)
      case Some(k) => Ok(k)
  }

  /** updateStatus: no role check; only `statusId` and `updatedAt` of the task change. */
  method UpdateStatus(db: Db, now: int, taskId: TaskId, statusId: StatusId) returns (r: Result<()>)
    requires db.Valid()
    modifies db`tasks
    ensures db.Valid()
    ensures var check := UpdateStatusCheck(old(db.tasks), db.taskStatuses, db.subtasks, taskId, statusId);
      && (check.Err? ==> r == Err(check.error) && db.tasks == old(db.tasks))
      && (check.Ok? ==>
            r == Ok(()) && db.tasks == old(db.tasks)[check.value := old(db.tasks)[check.value].(statusId := statusId, updatedAt := now)])
  {
    var check := UpdateStatusCheck(db.tasks, db.taskStatuses, db.subtasks, taskId, statusId);
    if check.Err? {
      return Err(check.error);
    }
    SetTask(db, check.value, db.tasks[check.value].(statusId := statusId, updatedAt := now));
    r := Ok(());
  }

  // ---------------------------------------------------------------------------
  // addAssignment, toggleSelfAssignment, removeAssignment

  /** addAssignment: no role check; appends one entry unless the user is already on the list
      or the list is full. */
  method AddAssignment(db: Db, now: int, taskId: TaskId, userId: UserId, taskRole: TaskRole) returns (r: Result<()>)
    requires db.Valid()
    modifies db`tasks
    ensures db.Valid()
    ensures TaskIndex(old(db.tasks), taskId).None? ==> r == Err(TaskNotFound)
    ensures TaskIndex(old(db.tasks), taskId).Some? ==>
      var k := TaskIndex(old(db.tasks), taskId).value;
      var next := AddAssignmentTo(old(db.tasks)[k].assignments, userId, taskRole);
      && (next.Err? ==> r == Err(next.error))
      && (next.Ok? ==> r == Ok(()) && db.tasks == old(db.tasks)[k := old(db.tasks)[k].(assignments := next.value, updatedAt := now)])
    ensures r.Err? ==> db.tasks == old(db.tasks)
  {
    var k := TaskIndex(db.tasks, taskId);
    if k.None? {
      return Err(TaskNotFound);
    }
    var t := db.tasks[k.value];
    var next := AddAssignmentTo(t.assignments, userId, taskRole);
    if next.Err? {
      return Err(next.error);
    }
    SetTask(db, k.value, t.(assignments := next.value, updatedAt := now));
    r := Ok(());
  }

  /** toggleSelfAssignment: answers whether the caller is assigned afterwards. */
  method ToggleSelfAssignment(db: Db, identity: Option<Identity>, now: int, taskId: TaskId) returns (r: Result<bool>)
    requires db.Valid()
    modifies db`tasks
    ensures db.Valid()
    ensures Me(db.users, identity).Err? ==> r == Err(Me(db.users, identity).error)
    ensures Me(db.users, identity).Ok? && TaskIndex(old(db.tasks), taskId).None? ==> r == Err(TaskNotFound)
    ensures Me(db.users, identity).Ok? && TaskIndex(old(db.tasks), taskId).Some? ==>
      var k := TaskIndex(old(db.tasks), taskId).value;
      var next := ToggleSelf(old(db.tasks)[k].assignments, Me(db.users, identity).value.id);
      && (next.Err? ==> r == Err(next.error))
      && (next.Ok? ==>
            r == Ok(next.value.1) && db.tasks == old(db.tasks)[k := old(db.tasks)[k].(assignments := next.value.0, updatedAt := now)])
    ensures r.Err? ==> db.tasks == old(db.tasks)
  {
    var me := Me(db.users, identity);
    if me.Err? {
      return Err(me.error);
    }
    var k := TaskIndex(db.tasks, taskId);
    if k.None? {
      return Err(TaskNotFound);
    }
    var t := db.tasks[k.value];
    var next := ToggleSelf(t.assignments, me.value.id);
    if next.Err? {
      return Err(next.error);
    }
    SetTask(db, k.value, t.(assignments := next.value.0, updatedAt := now));
    r := Ok(next.value.1);
  }

  /** removeAssignment: no role check; drops every entry of the user. */
  method RemoveAssignment(db: Db, now: int, taskId: TaskId, userId: UserId) returns (r: Result<()>)
    requires db.Valid()
    modifies db`tasks
    ensures db.Valid()
    ensures TaskIndex(old(db.tasks), taskId).None? ==> r == Err(TaskNotFound) && db.tasks == old(db.tasks)
    ensures TaskIndex(old(db.tasks), taskId).Some? ==>
      var k := TaskIndex(old(db.tasks), taskId).value;
      && r == Ok(())
      && db.tasks == old(db.tasks)[k := old(db.tasks)[k].(assignments := WithoutUser(old(db.tasks)[k].assignments, userId),
                                                          updatedAt := now)]
  {
    var k := TaskIndex(db.tasks, taskId);
    if k.None? {
      return Err(TaskNotFound);
    }
    var t := db.tasks[k.value];
    SetTask(db, k.value, t.(assignments := WithoutUser(t.assignments, userId), updatedAt := now));
    r := Ok(());
  }

  // ---------------------------------------------------------------------------
  // grantAccess

  /** The number of grant rows for one (task, user) pair. */
  function GrantCount(grants: seq<UserTask>, taskId: TaskId, userId: UserId): (n: nat)
    ensures n <= |grants|
  {
    if grants == [] then 0
    else
      var last := grants[|grants| - 1];
      GrantCount(grants[..|grants| - 1], taskId, userId) + (if last.taskId == taskId && last.userId == userId then 1 else 0)
  }

  /** Under the grant invariant a pair has at most one row. */
  lemma {:induction false} UniqueGrantsAtMostOne(grants: seq<UserTask>, taskId: TaskId, userId: UserId)
    requires UniqueGrants(grants)
    ensures GrantCount(grants, taskId, userId) <= 1
    ensures GrantCount(grants, taskId, userId) == 1 <==> GrantIndex(grants, taskId, userId).Some?
  {
    if grants != [] {
      var front := grants[..|grants| - 1];
      var last := grants[|grants| - 1];
      assert UniqueGrants(front) by {
        forall i, j | 0 <= i < j < |front| ensures !(front[i].taskId == front[j].taskId && front[i].userId == front[j].userId) {
          assert front[i] == grants[i] && front[j] == grants[j];
        }
      }
      UniqueGrantsAtMostOne(front, taskId, userId);
      if GrantIndex(front, taskId, userId).Some? {
        var i := GrantIndex(front, taskId, userId).value;
        assert grants[i] == front[i];
      }
    }
  }

  /** grantAccess: an existing row for the pair is overwritten with the new key, time and
      granter; otherwise one row is inserted. */
  method GrantAccess(db: Db, identity: Option<Identity>, now: int, taskId: TaskId, userId: UserId, key: string)
    returns (r: Result<()>)
    requires db.Valid()
    modifies db`userTasks, db`nextId
    ensures db.Valid()
    ensures Me(db.users, identity).Err? ==>
      r == Err(Me(db.users, identity).error) && db.userTasks == old(db.userTasks) && db.nextId == old(db.nextId)
    ensures Me(db.users, identity).Ok? ==>
      var me := Me(db.users, identity).value;
      && r == Ok(())
      && match GrantIndex(old(db.userTasks), taskId, userId)
         case Some(k) =>
           && db.userTasks == old(db.userTasks)[k := old(db.userTasks)[k].(encryptedTaskKey := key, grantedAt := now, grantedBy := me.id)]
           && db.nextId == old(db.nextId)
         case None =>
           && db.userTasks == old(db.userTasks) + [UserTask(old(db.nextId), taskId, userId, key, now, me.id)]
           && db.nextId == old(db.nextId) + 1
    ensures r.Ok? ==>
      var k := GrantIndex(db.userTasks, taskId, userId);
      && GrantCount(db.userTasks, taskId, userId) == 1
      && k.Some? && db.userTasks[k.value].encryptedTaskKey == key && db.userTasks[k.value].grantedAt == now
  {
    var me := Me(db.users, identity);
    if me.Err? {
      return Err(me.error);
    }
    var existing := GrantIndex(db.userTasks, taskId, userId);
    if existing.Some? {
      var k := existing.value;
      var row := db.userTasks[k].(encryptedTaskKey := key, grantedAt := now, grantedBy := me.value.id);
      SetGrant(db, k, row);
    } else {
      InsertGrant(db, UserTask(db.nextId, taskId, userId, key, now, me.value.id));
    }
    UniqueGrantsAtMostOne(db.userTasks, taskId, userId);
    r := Ok(());
  }

  /** Overwrites the grant row at `k`, keeping its (task, user) pair. */
  method SetGrant(db: Db, k: nat, row: UserTask)
    requires db.Valid() && k < |db.userTasks|
    requires row.taskId == db.userTasks[k].taskId && row.userId == db.userTasks[k].userId
    modifies db`userTasks
    ensures db.Valid()
    ensures db.userTasks == old(db.userTasks)[k := row]
    ensures GrantIndex(db.userTasks, row.taskId, row.userId) == Some(k)
  {
    ghost var before := db.userTasks;
    db.userTasks := db.userTasks[k := row];
    forall j | 0 <= j < k ensures !(db.userTasks[j].taskId == row.taskId && db.userTasks[j].userId == row.userId) {
      assert db.userTasks[j] == before[j];
    }
    assert db.userTasks[k] == row;
  }

  /** Appends a grant row for a pair that has none. */
  method InsertGrant(db: Db, row: UserTask)
    requires db.Valid() && row.id == db.nextId && GrantIndex(db.userTasks, row.taskId, row.userId).None?
    modifies db`userTasks, db`nextId
    ensures db.Valid()
    ensures db.userTasks == old(db.userTasks) + [row] && db.nextId == old(db.nextId) + 1
    ensures GrantIndex(db.userTasks, row.taskId, row.userId) == Some(|old(db.userTasks)|)
  {
    ghost var before := db.userTasks;
    db.userTasks := db.userTasks + [row];
    db.nextId := db.nextId + 1;
    forall j | 0 <= j < |before| ensures !(db.userTasks[j].taskId == row.taskId && db.userTasks[j].userId == row.userId) {
      assert db.userTasks[j] == before[j];
    }
    assert db.userTasks[|before|] == row;
  }
}
