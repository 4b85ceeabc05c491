/** The todo list (todos.ts): anonymous writes that leave an audit entry whenever the caller
    is a registered user. */
module Todos {
  import opened Schema
  import opened Store
  import opened AuditLog
  import Json

  /** The audit parameters of a todo mutation by `me`: entity type todo, no group. */
  function TodoAudit(me: User, action: string, todoId: TodoId, text: string, description: string,
                     metadata: Json.Metadata): (p: AuditParams)
    ensures p.userId == me.id && p.userName == me.name && p.action == action
    ensures p.entityType == TodoEntity && p.entityId == todoId && p.entityName == Some(text)
    ensures p.groupId.None? && p.description == description && p.metadata == Some(metadata)
  {
    AuditParams(me.id, me.name, action, TodoEntity, todoId, Some(text), None, description, Some(metadata))
  }

  // ---------------------------------------------------------------------------
  // create

  function CreateParams(me: User, todoId: TodoId, text: string): AuditParams
  {
    TodoAudit(me, "create", todoId, text, "Created todo: " + text, [("text", Json.MetaText(text))])
  }

  /** create: appends an open todo with the given text and returns it; a registered caller
      is recorded with one "create" entry, an anonymous one with none. */
  method Create(db: Db, identity: Option<Identity>, now: int, text: string) returns (r: Todo)
    requires db.Valid()
    modifies db`todos, db`auditLogs, db`nextId
    ensures db.Valid()
    ensures r == Todo(old(db.nextId), text, false)
    ensures db.todos == old(db.todos) + [r]
    ensures Caller(db.users, identity).None? ==>
      db.auditLogs == old(db.auditLogs) && db.nextId == old(db.nextId) + 1
    ensures Caller(db.users, identity).Some? ==>
      && db.auditLogs == old(db.auditLogs)
         + [Entry(old(db.nextId) + 1, now, CreateParams(Caller(db.users, identity).value, r.id, text))]
      && db.nextId == old(db.nextId) + 2
  {
    var me := Caller(db.users, identity);
    r := Todo(db.nextId, text, false);
    db.todos := db.todos + [r];
    db.nextId := db.nextId + 1;
    if me.Some? {
      CreateAuditLog(db, now, CreateParams(me.value, r.id, text));
    }
  }

  // ---------------------------------------------------------------------------
  // toggle

  /** The table after the `completed` patch, or an error when the todo is missing. */
  function Toggled(todos: seq<Todo>, id: TodoId, completed: bool): (r: Result<seq<Todo>>)
    ensures r.Err? <==> TodoIndex(todos, id).None?
    ensures r.Err? ==> r.error == NonexistentDocument
    ensures r.Ok? ==>
      var k := TodoIndex(todos, id).value;
      && |r.value| == |todos|
      && r.value[k] == todos[k].(completed := completed)
      && forall j :: 0 <= j < |todos| && j != k ==> r.value[j] == todos[j]
  {
    match TodoIndex(todos, id)
    case None => Err(NonexistentDocument)
    case Some(k) => Ok(todos[k := todos[k].(completed := completed)])
  }

  /** Toggling to the same value twice is toggling once, and toggling back restores the
      table whenever the todo already had that value. */
  lemma ToggleIdempotent(todos: seq<Todo>, id: TodoId, completed: bool)
    requires Toggled(todos, id, completed).Ok?
    ensures Toggled(Toggled(todos, id, completed).value, id, completed) == Toggled(todos, id, completed)
    ensures var k := TodoIndex(todos, id).value;
      Toggled(Toggled(todos, id, !completed).value, id, todos[k].completed) == Ok(todos)
  {
    var k := TodoIndex(todos, id).value;
    var once := Toggled(todos, id, completed).value;
    assert forall j :: 0 <= j < k ==> once[j] == todos[j];
    assert TodoIndex(once, id) == Some(k);
    assert once[k := once[k].(completed := completed)] == once;
    var flipped := Toggled(todos, id, !completed).value;
    assert forall j :: 0 <= j < k ==> flipped[j] == todos[j];
    assert TodoIndex(flipped, id) == Some(k);
    assert flipped[k := flipped[k].(completed := todos[k].completed)] == todos;
  }

  function ToggleParams(me: User, id: TodoId, text: string, completed: bool): AuditParams
  {
    if completed then
      TodoAudit(me, "complete", id, text, "Marked todo as complete: " + text, [("completed", Json.MetaFlag(true))])
    else
      TodoAudit(me, "update", id, text, "Marked todo as incomplete: " + text, [("completed", Json.MetaFlag(false))])
  }

  /** toggle: sets `completed`. A missing todo makes the patch throw, and the mutation
      leaves nothing behind; otherwise a registered caller is recorded with one "complete"
      or "update" entry naming the todo's text. */
  method Toggle(db: Db, identity: Option<Identity>, now: int, id: TodoId, completed: bool) returns (r: Result<()>)
    requires db.Valid()
    modifies db`todos, db`auditLogs, db`nextId
    ensures db.Valid()
    ensures r.Err? <==> TodoIndex(old(db.todos), id).None?
    ensures r.Err? ==>
      && r.error == NonexistentDocument
      && db.todos == old(db.todos) && db.auditLogs == old(db.auditLogs) && db.nextId == old(db.nextId)
    ensures r.Ok? ==> Toggled(old(db.todos), id, completed) == Ok(db.todos)
    ensures r.Ok? && Caller(db.users, identity).None? ==>
      db.auditLogs == old(db.auditLogs) && db.nextId == old(db.nextId)
    ensures r.Ok? && Caller(db.users, identity).Some? ==>
      var text := old(db.todos)[TodoIndex(old(db.todos), id).value].text;
      && db.auditLogs == old(db.auditLogs)
         + [Entry(old(db.nextId), now, ToggleParams(Caller(db.users, identity).value, id, text, completed))]
      && db.nextId == old(db.nextId) + 1
  {
    var me := Caller(db.users, identity);
    match Toggled(db.todos, id, completed)
    case Err(e) =>
      r := Err(e);
    case Ok(after) =>
      var text := db.todos[TodoIndex(db.todos, id).value].text;
      db.todos := after;
      if me.Some? {
        CreateAuditLog(db, now, ToggleParams(me.value, id, text, completed));
      }
      r := Ok(());
  }

  // ---------------------------------------------------------------------------
  // deleteTodo

  /** The table after the delete, or an error when the todo is missing. */
  function Deleted(todos: seq<Todo>, id: TodoId): (r: Result<seq<Todo>>)
    ensures r.Err? <==> TodoIndex(todos, id).None?
    ensures r.Err? ==> r.error == NonexistentDocument
    ensures r.Ok? ==>
      var k := TodoIndex(todos, id).value;
      && multiset(r.value) == multiset(todos) - multiset{todos[k]}
      && |r.value| == |todos| - 1
  {
    match TodoIndex(todos, id)
    case None => Err(NonexistentDocument)
    case Some(k) =>
      RemoveAtMultiset(todos, k);
      Ok(RemoveAt(todos, k))
  }

  /** With ids unique, the deleted todo is gone and every other one stays. */
  lemma DeletedRemovesOnlyTarget(todos: seq<Todo>, id: TodoId)
    requires forall i, j :: 0 <= i < j < |todos| ==> todos[i].id != todos[j].id
    requires Deleted(todos, id).Ok?
    ensures forall t :: t in Deleted(todos, id).value <==> t in todos && t.id != id
  {
    var k := TodoIndex(todos, id).value;
    var after := Deleted(todos, id).value;
    assert after == todos[..k] + todos[k + 1..];
    forall t | t in todos && t.id != id ensures t in after {
      var i :| 0 <= i < |todos| && todos[i] == t;
      if i < k { assert after[i] == t; } else { assert after[i - 1] == t; }
    }
  }

  function DeleteParams(me: User, id: TodoId, text: string): AuditParams
  {
    TodoAudit(me, "delete", id, text, "Deleted todo: " + text, [("text", Json.MetaText(text))])
  }

  /** deleteTodo: removes the todo. A missing todo makes the delete throw, and the
      mutation leaves nothing behind; otherwise a registered caller is recorded with one
      "delete" entry naming the deleted text. */
  method DeleteTodo(db: Db, identity: Option<Identity>, now: int, id: TodoId) returns (r: Result<()>)
    requires db.Valid()
    modifies db`todos, db`auditLogs, db`nextId
    ensures db.Valid()
    ensures r.Err? <==> TodoIndex(old(db.todos), id).None?
    ensures r.Err? ==>
      && r.error == NonexistentDocument
      && db.todos == old(db.todos) && db.auditLogs == old(db.auditLogs) && db.nextId == old(db.nextId)
    ensures r.Ok? ==> Deleted(old(db.todos), id) == Ok(db.todos)
    ensures r.Ok? && Caller(db.users, identity).None? ==>
      db.auditLogs == old(db.auditLogs) && db.nextId == old(db.nextId)
    ensures r.Ok? && Caller(db.users, identity).Some? ==>
      var text := old(db.todos)[TodoIndex(old(db.todos), id).value].text;
      && db.auditLogs == old(db.auditLogs)
         + [Entry(old(db.nextId), now, DeleteParams(Caller(db.users, identity).value, id, text))]
      && db.nextId == old(db.nextId) + 1
  {
    var me := Caller(db.users, identity);
    match Deleted(db.todos, id)
    case Err(e) =>
      r := Err(e);
    case Ok(after) =>
      var text := db.todos[TodoIndex(db.todos, id).value].text;
      db.todos := after;
      if me.Some? {
        CreateAuditLog(db, now, DeleteParams(me.value, id, text));
      }
      r := Ok(());
  }
}
