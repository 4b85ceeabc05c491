/** Task comments (comments.ts): an authenticated append and a chronological listing. */
module Comments {
  import opened Schema
  import opened Store
  import opened Ordering

  function OnTask(taskId: TaskId): Comment -> bool
  {
    (c: Comment) => c.taskId == taskId
  }

  /** The `by_task` index of `comments`: the task's comments in insertion order. */
  function CommentsOf(comments: seq<Comment>, taskId: TaskId): seq<Comment>
  {
    Filter(comments, OnTask(taskId))
  }

  lemma CommentsOfMeaning(comments: seq<Comment>, taskId: TaskId)
    ensures forall c :: c in CommentsOf(comments, taskId) <==> c in comments && c.taskId == taskId
  {
    FilterMeaning(comments, OnTask(taskId));
  }

  /** The sort key of `(a, b) => a.createdAt - b.createdAt`: descending on its negation is
      ascending on the creation time. */
  function Earliness(c: Comment): int
  {
    -c.createdAt
  }

  /** list: the task's comments, oldest first; comments created at the same moment keep
      their insertion order, as JavaScript's sort is stable. */
  function List(comments: seq<Comment>, taskId: TaskId): (r: seq<Comment>)
    ensures forall i, j :: 0 <= i < j < |r| ==> r[i].createdAt <= r[j].createdAt
    ensures multiset(r) == multiset(CommentsOf(comments, taskId))
    ensures forall c :: c in r <==> c in comments && c.taskId == taskId
  {
    var mine := CommentsOf(comments, taskId);
    CommentsOfMeaning(comments, taskId);
    var sorted := SortDesc(mine, Earliness);
    assert forall c :: c in sorted <==> c in multiset(mine);
    assert forall i, j :: 0 <= i < j < |sorted| ==> Earliness(sorted[i]) >= Earliness(sorted[j]);
    sorted
  }

  /** add: appends the caller's comment, created and updated now and not edited. Throws
      "Not authenticated" without an identity and "User not found" without a user. The
      task id is not checked. */
  method Add(db: Db, identity: Option<Identity>, now: int, taskId: TaskId, encryptedContent: string)
    returns (r: Result<Comment>)
    requires db.Valid()
    modifies db`comments, db`nextId
    ensures db.Valid()
    ensures r.Err? <==> Me(db.users, identity).Err?
    ensures r.Err? ==>
      && r.error == Me(db.users, identity).error
      && db.comments == old(db.comments) && db.nextId == old(db.nextId)
    ensures r.Ok? ==>
      && r.value == Comment(old(db.nextId), taskId, Me(db.users, identity).value.id, encryptedContent, now, now, false)
      && db.comments == old(db.comments) + [r.value]
      && db.nextId == old(db.nextId) + 1
  {
    match Me(db.users, identity)
    case Err(e) =>
      r := Err(e);
    case Ok(me) =>
      var c := Comment(db.nextId, taskId, me.id, encryptedContent, now, now, false);
      db.comments := db.comments + [c];
      db.nextId := db.nextId + 1;
      r := Ok(c);
  }

  /** A comment added no earlier than every existing one is listed last, after all the
      task's earlier comments in their listed order. */
  lemma AddedCommentListedLast(comments: seq<Comment>, c: Comment)
    requires forall k :: 0 <= k < |comments| ==> comments[k].createdAt <= c.createdAt
    ensures List(comments + [c], c.taskId) == List(comments, c.taskId) + [c]
  {
    var tid := c.taskId;
    var mine := CommentsOf(comments, tid);
    FilterAppend(comments, c, OnTask(tid));
    CommentsOfMeaning(comments, tid);
    forall k | 0 <= k < |mine| ensures Earliness(c) <= Earliness(mine[k]) {
      assert mine[k] in comments;
    }
    SortDescAppendLeast(mine, c, Earliness);
  }

  lemma EarlinessStable(sorted: seq<Comment>, mine: seq<Comment>, createdAt: int)
    requires sorted == SortDesc(mine, Earliness)
    ensures Filter(sorted, HasKey(Earliness, -createdAt)) == Filter(mine, HasKey(Earliness, -createdAt))
  {
    SortDescStable(mine, Earliness, -createdAt);
  }

  /** Comments created at the same moment are listed in the order they were added. */
  lemma ListKeepsAddOrder(comments: seq<Comment>, taskId: TaskId, createdAt: int)
    ensures Filter(List(comments, taskId), HasKey(Earliness, -createdAt))
         == Filter(CommentsOf(comments, taskId), HasKey(Earliness, -createdAt))
  {
    var mine := CommentsOf(comments, taskId);
    EarlinessStable(List(comments, taskId), mine, createdAt);
  }
}
