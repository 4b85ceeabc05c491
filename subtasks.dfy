/** Subtasks (subtasks.ts): creation with `order` = number of siblings, and the completion
    toggle, which patches the subtask, notifies the group's scrum masters of a new
    completion and then completes or reopens the parent task. */
module Subtasks {
  import opened Schema
  import opened Store
  import opened Tasks
  import opened Ordering
  import Groups

  // ---------------------------------------------------------------------------
  // create

  /** create: no role check and no check that the parent exists. */
  method Create(db: Db, now: int, parentTaskId: TaskId, encryptedTitle: string, encryptedDescription: Option<string>)
    returns (r: Subtask)
    requires db.Valid()
    modifies db`subtasks, db`nextId
    ensures db.Valid()
    ensures db.subtasks == old(db.subtasks) + [r] && db.nextId == old(db.nextId) + 1
    ensures r.id == old(db.nextId) && r.parentTaskId == parentTaskId
    ensures r.encryptedTitle == encryptedTitle && r.encryptedDescription == encryptedDescription
    ensures r.order == |SubtasksOf(old(db.subtasks), parentTaskId)|
    ensures !r.isCompleted && r.completedAt.None? && r.completedBy.None? && r.assignedTo.None?
    ensures r.createdAt == now && r.updatedAt == now
  {
    var existing := SubtasksOf(db.subtasks, parentTaskId);
    r := Subtask(db.nextId, parentTaskId, encryptedTitle, encryptedDescription, |existing|,
                 false, None, None, None, now, now);
    db.subtasks := db.subtasks + [r];
    db.nextId := db.nextId + 1;
  }

  /** A created subtask is the last of its parent's subtasks, so its `order` is its
      position among them. */
  lemma CreatedIsLastSibling(subtasks: seq<Subtask>, r: Subtask)
    requires r.order == |SubtasksOf(subtasks, r.parentTaskId)|
    ensures SubtasksOf(subtasks + [r], r.parentTaskId) == SubtasksOf(subtasks, r.parentTaskId) + [r]
    ensures var sibs := SubtasksOf(subtasks + [r], r.parentTaskId); sibs[r.order] == r && |sibs| == r.order + 1
  {
    FilterAppend(subtasks, r, ChildOf(r.parentTaskId));
  }

  // ---------------------------------------------------------------------------
  // toggleComplete: the pieces

  /** The patch applied to the toggled subtask. */
  function PatchedSubtask(st: Subtask, completed: bool, userId: UserId, now: int): (s: Subtask)
    ensures s.isCompleted == completed
    ensures s.completedBy == (if completed then Some(userId) else None)
    ensures s.completedAt == (if completed then Some(now) else None)
    ensures s == st.(isCompleted := s.isCompleted, completedAt := s.completedAt, completedBy := s.completedBy, updatedAt := now)
  {
    st.(isCompleted := completed,
        completedAt := if completed then Some(now) else None,
        completedBy := if completed then Some(userId) else None,
        updatedAt := now)
  }

  function OtherScrumMaster(actor: UserId): GroupMember -> bool
  {
    (m: GroupMember) => m.role == ScrumMaster && m.userId != actor
  }

  /** `groupMembers.filter(m => m.role === "scrum_master" && m.userId !== actor)`. */
  function ScrumMastersExcept(members: seq<GroupMember>, actor: UserId): seq<GroupMember>
  {
    Filter(members, OtherScrumMaster(actor))
  }

  /** The filter keeps exactly the scrum masters other than the actor. */
  lemma ScrumMastersExceptMeaning(members: seq<GroupMember>, actor: UserId)
    ensures forall m :: m in ScrumMastersExcept(members, actor) <==> m in members && m.role == ScrumMaster && m.userId != actor
  {
    FilterMeaning(members, OtherScrumMaster(actor));
  }

  /** The scrum masters of group `groupId` to notify: every scrum-master membership of the
      group except the actor's. */
  lemma RecipientsMeaning(members: seq<GroupMember>, groupId: GroupId, actor: UserId)
    ensures forall m :: m in ScrumMastersExcept(Groups.MembersOf(members, groupId), actor) <==>
      m in members && m.groupId == groupId && m.role == ScrumMaster && m.userId != actor
  {
    Groups.MembersOfMeaning(members, groupId);
    ScrumMastersExceptMeaning(Groups.MembersOf(members, groupId), actor);
  }

  /** The notification sent to one scrum master. */
  function CompletionNotice(id: NotificationId, recipient: UserId, taskId: TaskId, groupId: GroupId, actor: UserId,
                            message: string, now: int): Notification
  {
    Notification(id, recipient, SubtaskCompleted, Some(taskId), Some(groupId), Some(actor),
                 "Subtask Completed", message, false, now)
  }

  /** The notifications the loop inserts, one per recipient in order, with consecutive ids. */
  function CompletionNotices(sms: seq<GroupMember>, firstId: nat, taskId: TaskId, groupId: GroupId, actor: UserId,
                             message: string, now: int): (r: seq<Notification>)
    ensures |r| == |sms|
    ensures forall k :: 0 <= k < |r| ==> r[k] == CompletionNotice(firstId + k, sms[k].userId, taskId, groupId, actor, message, now)
  {
    if sms == [] then []
    else
      var front := sms[..|sms| - 1];
      CompletionNotices(front, firstId, taskId, groupId, actor, message, now)
        + [CompletionNotice(firstId + |front|, sms[|front|].userId, taskId, groupId, actor, message, now)]
  }

  /** The text of the notification: the actor's name when the actor is a stored user. */
  function CompletionMessage(users: seq<User>, actor: UserId): string
  {
    match UserIndexById(users, actor)
    case Some(i) => users[i].name + " completed a subtask"
    case None => "A subtask was completed"
  }

  /** What happens to the parent task after the subtask is patched. */
  datatype ParentAction = CompleteParent | ReopenParent | LeaveParent

  /** Complete the parent when it has subtasks and all are done; otherwise reopen it when
      the toggle unchecked a subtask; otherwise leave it. */
  function ParentActionFor(siblings: seq<Subtask>, completed: bool): (a: ParentAction)
    ensures a == CompleteParent <==> |siblings| > 0 && forall j :: 0 <= j < |siblings| ==> siblings[j].isCompleted
    ensures a == ReopenParent <==> !completed && !(|siblings| > 0 && forall j :: 0 <= j < |siblings| ==> siblings[j].isCompleted)
  {
    if |siblings| > 0 && IncompleteCount(siblings) == 0 then CompleteParent
    else if !completed then ReopenParent
    else LeaveParent
  }

  /** The patch of the parent; `statusId` is never touched. */
  function PatchedParent(t: Task, a: ParentAction, now: int): (p: Task)
    ensures p.statusId == t.statusId && p.assignments == t.assignments && p.groupId == t.groupId
    ensures a == LeaveParent ==> p == t
    ensures a != LeaveParent ==>
      && p.isCompleted == (a == CompleteParent)
      && p.completedAt == (if a == CompleteParent then Some(now) else None)
      && p == t.(isCompleted := p.isCompleted, completedAt := p.completedAt, updatedAt := now)
  {
    match a
    case CompleteParent => t.(isCompleted := true, completedAt := Some(now), updatedAt := now)
    case ReopenParent => t.(isCompleted := false, completedAt := None, updatedAt := now)
    case LeaveParent => t
  }

  /** The checks of toggleComplete. The subtask must exist; and since a patch of a missing
      parent throws and rolls the whole mutation back, a parent that is to be patched must
      exist too. On success, the subtask's position and the parent action. */
  function ToggleCheck(subtasks: seq<Subtask>, tasks: seq<Task>, subtaskId: SubtaskId, completed: bool,
                       userId: UserId, now: int): (r: Result<(nat, ParentAction)>)
    ensures SubtaskIndex(subtasks, subtaskId).None? <==> r == Err(SubtaskNotFound)
    ensures r.Err? ==> r.error in {SubtaskNotFound, NonexistentDocument}
    ensures SubtaskIndex(subtasks, subtaskId).Some? ==>
      var st := subtasks[SubtaskIndex(subtasks, subtaskId).value];
      var after := subtasks[SubtaskIndex(subtasks, subtaskId).value := PatchedSubtask(st, completed, userId, now)];
      var action := ParentActionFor(SubtasksOf(after, st.parentTaskId), completed);
      && (r.Ok? <==> (action == LeaveParent || TaskIndex(tasks, st.parentTaskId).Some?))
      && (r == Err(NonexistentDocument) <==> action != LeaveParent && TaskIndex(tasks, st.parentTaskId).None?)
    ensures r.Ok? ==>
      && r.value.0 == SubtaskIndex(subtasks, subtaskId).value
      && var st := subtasks[r.value.0];
         && r.value.1 == ParentActionFor(SubtasksOf(subtasks[r.value.0 := PatchedSubtask(st, completed, userId, now)], st.parentTaskId), completed)
         && (r.value.1 != LeaveParent ==> TaskIndex(tasks, st.parentTaskId).Some?)
  {
    match SubtaskIndex(subtasks, subtaskId)
    case None => Err(SubtaskNotFound)
    case Some(i) =>
      var st := subtasks[i];
      var after := subtasks[i := PatchedSubtask(st, completed, userId, now)];
      var action := ParentActionFor(SubtasksOf(after, st.parentTaskId), completed);
      if action != LeaveParent && TaskIndex(tasks, st.parentTaskId).None? then Err(NonexistentDocument)
      else Ok((i, action))
  }

  /** The notifications a toggle sends: only for a new completion (the subtask was open and
      `completed` is true) of a subtask whose parent exists. */
  function NoticesFor(users: seq<User>, members: seq<GroupMember>, tasks: seq<Task>, st: Subtask, completed: bool,
                      userId: UserId, firstId: nat, now: int): (r: seq<Notification>)
    ensures !(completed && !st.isCompleted) ==> r == []
    ensures TaskIndex(tasks, st.parentTaskId).None? ==> r == []
  {
    if completed && !st.isCompleted then
      match TaskIndex(tasks, st.parentTaskId)
      case None => []
      case Some(k) =>
        CompletionNotices(ScrumMastersExcept(Groups.MembersOf(members, tasks[k].groupId), userId), firstId,
                          st.parentTaskId, tasks[k].groupId, userId, CompletionMessage(users, userId), now)
    else []
  }

  // ---------------------------------------------------------------------------
  // toggleComplete

  /** The notification loop: one insert per recipient. */
  method NotifyScrumMasters(db: Db, sms: seq<GroupMember>, taskId: TaskId, groupId: GroupId, actor: UserId,
                            message: string, now: int)
    requires db.Valid()
    modifies db`notifications, db`nextId
    ensures db.Valid()
    ensures db.notifications == old(db.notifications) + CompletionNotices(sms, old(db.nextId), taskId, groupId, actor, message, now)
    ensures db.nextId == old(db.nextId) + |sms|
  {
    var i := 0;
    while i < |sms|
      invariant 0 <= i <= |sms| && db.Valid()
      invariant db.nextId == old(db.nextId) + i
      invariant db.notifications == old(db.notifications) + CompletionNotices(sms[..i], old(db.nextId), taskId, groupId, actor, message, now)
    {
      assert sms[..i + 1][..i] == sms[..i];
      db.notifications := db.notifications + [CompletionNotice(db.nextId, sms[i].userId, taskId, groupId, actor, message, now)];
      db.nextId := db.nextId + 1;
      i := i + 1;
    }
    assert sms[..i] == sms;
  }

  /** toggleComplete: patches the subtask, notifies on a new completion, then completes or
      reopens the parent. The error cases change nothing. */
  method ToggleComplete(db: Db, now: int, subtaskId: SubtaskId, completed: bool, userId: UserId) returns (r: Result<()>)
    requires db.Valid()
    modifies db`subtasks, db`notifications, db`tasks, db`nextId
    ensures db.Valid()
    ensures var check := ToggleCheck(old(db.subtasks), old(db.tasks), subtaskId, completed, userId, now);
      && (check.Err? ==>
            && r == Err(check.error)
            && db.subtasks == old(db.subtasks) && db.notifications == old(db.notifications)
            && db.tasks == old(db.tasks) && db.nextId == old(db.nextId))
      && (check.Ok? ==>
            var i := check.value.0;
            var st := old(db.subtasks)[i];
            var notices := NoticesFor(db.users, db.groupMembers, old(db.tasks), st, completed, userId, old(db.nextId), now);
            && r == Ok(())
            && db.subtasks == old(db.subtasks)[i := PatchedSubtask(st, completed, userId, now)]
            && db.notifications == old(db.notifications) + notices
            && db.nextId == old(db.nextId) + |notices|
            && (check.value.1 == LeaveParent ==> db.tasks == old(db.tasks))
            && (check.value.1 != LeaveParent ==>
                  var k := TaskIndex(old(db.tasks), st.parentTaskId).value;
                  db.tasks == old(db.tasks)[k := PatchedParent(old(db.tasks)[k], check.value.1, now)]))
  {
    var check := ToggleCheck(db.subtasks, db.tasks, subtaskId, completed, userId, now);
    if check.Err? {
      return Err(check.error);
    }
    var i := check.value.0;
    var st := db.subtasks[i];
    var wasNotCompleted := !st.isCompleted;
    db.subtasks := db.subtasks[i := PatchedSubtask(st, completed, userId, now)];
    if completed && wasNotCompleted {
      NotifyOnCompletion(db, st, userId, now);
    }
    var action := ParentActionFor(SubtasksOf(db.subtasks, st.parentTaskId), completed);
    if action != LeaveParent {
      UpdateParent(db, st.parentTaskId, action, now);
    }
    r := Ok(());
  }

  /** The notification step of a new completion: nothing when the parent is missing. */
  method NotifyOnCompletion(db: Db, st: Subtask, userId: UserId, now: int)
    requires db.Valid() && !st.isCompleted
    modifies db`notifications, db`nextId
    ensures db.Valid()
    ensures db.notifications == old(db.notifications) + NoticesFor(db.users, db.groupMembers, db.tasks, st, true, userId, old(db.nextId), now)
    ensures db.nextId == old(db.nextId) + |NoticesFor(db.users, db.groupMembers, db.tasks, st, true, userId, old(db.nextId), now)|
  {
    var k := TaskIndex(db.tasks, st.parentTaskId);
    if k.Some? {
      var task := db.tasks[k.value];
      var sms := ScrumMastersExcept(Groups.MembersOf(db.groupMembers, task.groupId), userId);
      NotifyScrumMasters(db, sms, st.parentTaskId, task.groupId, userId, CompletionMessage(db.users, userId), now);
    }
  }

  /** The parent patch: complete or reopen the stored parent task. */
  method UpdateParent(db: Db, parentTaskId: TaskId, action: ParentAction, now: int)
    requires db.Valid() && TaskIndex(db.tasks, parentTaskId).Some?
    modifies db`tasks
    ensures db.Valid()
    ensures var k := TaskIndex(old(db.tasks), parentTaskId).value;
      db.tasks == old(db.tasks)[k := PatchedParent(old(db.tasks)[k], action, now)]
  {
    var k := TaskIndex(db.tasks, parentTaskId).value;
    SetTask(db, k, PatchedParent(db.tasks[k], action, now));
  }

  // ---------------------------------------------------------------------------
  // Properties of a toggle

  /** After a successful toggle the parent is completed exactly when it has subtasks and all
      of them are done; unchecking a subtask reopens it; it keeps its `statusId`. */
  lemma ToggleParentOutcome(subtasks: seq<Subtask>, tasks: seq<Task>, subtaskId: SubtaskId, completed: bool,
                            userId: UserId, now: int)
    requires ToggleCheck(subtasks, tasks, subtaskId, completed, userId, now).Ok?
    ensures var c := ToggleCheck(subtasks, tasks, subtaskId, completed, userId, now).value;
      var st := subtasks[c.0];
      var after := subtasks[c.0 := PatchedSubtask(st, completed, userId, now)];
      && (c.1 == CompleteParent <==> forall s :: s in after && s.parentTaskId == st.parentTaskId ==> s.isCompleted)
      && (!completed ==> c.1 == ReopenParent)
      && (c.1 != LeaveParent ==>
            var k := TaskIndex(tasks, st.parentTaskId).value;
            && PatchedParent(tasks[k], c.1, now).isCompleted == (c.1 == CompleteParent)
            && PatchedParent(tasks[k], c.1, now).statusId == tasks[k].statusId)
  {
    var c := ToggleCheck(subtasks, tasks, subtaskId, completed, userId, now).value;
    var st := subtasks[c.0];
    var patched := PatchedSubtask(st, completed, userId, now);
    var after := subtasks[c.0 := patched];
    var sibs := SubtasksOf(after, st.parentTaskId);
    SubtasksOfMeaning(after, st.parentTaskId);
    assert after[c.0] == patched;
    assert forall s :: s in sibs ==> exists j :: 0 <= j < |sibs| && sibs[j] == s;
  }

  /** A new completion sends exactly one notification to each scrum master of the parent's
      group other than the actor, and to nobody else. */
  lemma NoticesReachScrumMasters(users: seq<User>, members: seq<GroupMember>, tasks: seq<Task>, st: Subtask,
                                 userId: UserId, firstId: nat, now: int)
    requires !st.isCompleted && TaskIndex(tasks, st.parentTaskId).Some?
    ensures var g := tasks[TaskIndex(tasks, st.parentTaskId).value].groupId;
      var notices := NoticesFor(users, members, tasks, st, true, userId, firstId, now);
      var sms := ScrumMastersExcept(Groups.MembersOf(members, g), userId);
      && |notices| == |sms|
      && (forall k :: 0 <= k < |notices| ==>
            notices[k].userId == sms[k].userId && notices[k].kind == SubtaskCompleted && !notices[k].isRead)
      && (forall m :: m in sms <==> m in members && m.groupId == g && m.role == ScrumMaster && m.userId != userId)
  {
    var g := tasks[TaskIndex(tasks, st.parentTaskId).value].groupId;
    RecipientsMeaning(members, g, userId);
  }
}
