/** Runs of the task database: any finite sequence of serialised service calls, failed ones included,
    and what holds after every one of them. */
module TaskHistory {
  import opened Common
  import opened TaskStore

  datatype Call =
    | AddUser(user: UserId, email: string)
    | AddMember(project: ProjectId, user: UserId)
    | AddLabel(l: LabelId, project: ProjectId, name: string, actor: UserId)
    | CreateTask(t: TaskId, project: ProjectId, fields: Fields, parent: Option<TaskId>, actor: UserId)
    | UpdateTask(t: TaskId, updates: map<Field, Value>, labelIds: Option<seq<LabelId>>, actor: UserId)
    | DeleteTask(t: TaskId, actor: UserId)
    | Attach(a: AttachmentId, t: TaskId, key: string, actor: UserId)
    | Unattach(a: AttachmentId, actor: UserId)
    | Comment(c: CommentId, t: TaskId, body: string, actor: UserId)

  const EMPTY := Db(map[], {}, map[], map[], map[], map[], [], map[])

  /** Fresh identifiers and storage keys are fresh. */
  predicate Fresh(db: Db, call: Call) {
    match call
    case AddUser(u, email) => u !in db.users && email !in db.users.Values
    case AddLabel(l, _, _, _) => l !in db.labels
    case CreateTask(t, _, _, _, _) => t !in db.births
    case Attach(a, _, key, _) =>
      a !in db.attachments && forall b :: b in db.attachments ==> db.attachments[b].key != key
    case Comment(c, _, _, _) => c !in db.comments
    case _ => true
  }

  ghost function MaxPosition(tasks: map<TaskId, Task>, project: ProjectId, status: Value): (m: int)
    ensures IsMaxPosition(tasks, project, status, m)
  {
    MaxPositionExists(tasks, project, status);
    var m :| IsMaxPosition(tasks, project, status, m); m
  }

  lemma MaxPositionExists(tasks: map<TaskId, Task>, project: ProjectId, status: Value)
    ensures exists m :: IsMaxPosition(tasks, project, status, m)
    decreases |tasks|
  {
    if forall t :: t in tasks ==> !InColumn(tasks[t], project, status) {
      assert IsMaxPosition(tasks, project, status, 0);
    } else {
      var t :| t in tasks && InColumn(tasks[t], project, status);
      var rest := tasks - {t};
      MaxPositionExists(rest, project, status);
      var m :| IsMaxPosition(rest, project, status, m);
      var p := tasks[t].position;
      assert forall u :: u in tasks ==> u == t || (u in rest && rest[u] == tasks[u]);
      if (forall u :: u in rest ==> !InColumn(rest[u], project, status)) || p >= m {
        assert IsMaxPosition(tasks, project, status, p);
      } else {
        assert IsMaxPosition(tasks, project, status, m);
      }
    }
  }

  // ----- the forest -----

  ghost predicate ForestInv(db: Db) {
    && (forall t :: t in db.tasks ==> t in db.births)
    && (forall t :: t in db.births ==> db.births[t].serial < |db.births|)
    && (forall t :: t in db.tasks && db.tasks[t].parent.Some? ==>
          var p := db.tasks[t].parent.value;
          p in db.tasks && db.tasks[p].project == db.tasks[t].project &&
          db.births[p].serial < db.births[t].serial)
  }

  /** `x` is `t` or one of its descendants, read off the parent links. */
  ghost predicate InSubtree(db: Db, t: TaskId, x: TaskId)
    requires ForestInv(db) && x in db.tasks
    decreases db.births[x].serial
  {
    x == t || (db.tasks[x].parent.Some? && InSubtree(db, t, db.tasks[x].parent.value))
  }

  ghost function Subtree(db: Db, t: TaskId): set<TaskId>
    requires ForestInv(db)
  {
    set x | x in db.tasks && InSubtree(db, t, x)
  }

  function Children(db: Db, t: TaskId): set<TaskId> {
    set c | c in db.tasks && db.tasks[c].parent == Some(t)
  }

  /** What the ORM's "all, delete-orphan" cascade on `subtasks` removes: the task, and the cascade of
      each child. The recursion ends because a child is younger than its parent. */
  ghost function Cascade(db: Db, t: TaskId): set<TaskId>
    requires ForestInv(db) && t in db.tasks
    decreases |db.births| - db.births[t].serial
  {
    {t} + set c, x | c in Children(db, t) && x in Cascade(db, c) :: x
  }

  lemma {:induction false} CascadeInsideSubtree(db: Db, t: TaskId)
    requires ForestInv(db) && t in db.tasks
    ensures Cascade(db, t) <= Subtree(db, t)
    decreases |db.births| - db.births[t].serial
  {
    forall x | x in Cascade(db, t) ensures x in Subtree(db, t) {
      if x != t {
        var c :| c in Children(db, t) && x in Cascade(db, c);
        CascadeInsideSubtree(db, c);
        SubtreeOfChild(db, t, c, x);
      }
    }
  }

  lemma {:induction false} SubtreeOfChild(db: Db, t: TaskId, c: TaskId, x: TaskId)
    requires ForestInv(db) && c in Children(db, t) && x in db.tasks && InSubtree(db, c, x)
    ensures t in db.tasks && InSubtree(db, t, x)
    decreases db.births[x].serial
  {
    if x == c {
      assert InSubtree(db, t, t);
    } else {
      SubtreeOfChild(db, t, c, db.tasks[x].parent.value);
    }
  }

  lemma {:induction false} SubtreeInsideCascade(db: Db, t: TaskId, x: TaskId)
    requires ForestInv(db) && t in db.tasks && x in db.tasks && InSubtree(db, t, x)
    ensures x in Cascade(db, t)
    decreases db.births[x].serial
  {
    if x != t {
      var p := db.tasks[x].parent.value;
      SubtreeInsideCascade(db, t, p);
      CascadeClosed(db, t, p, x);
    }
  }

  lemma {:induction false} CascadeClosed(db: Db, t: TaskId, p: TaskId, x: TaskId)
    requires ForestInv(db) && t in db.tasks && p in Cascade(db, t) && x in Children(db, p)
    ensures x in Cascade(db, t)
    decreases |db.births| - db.births[t].serial
  {
    if p == t {
      assert x in Children(db, t) && x in Cascade(db, x);
    } else {
      var c :| c in Children(db, t) && p in Cascade(db, c);
      CascadeClosed(db, c, p, x);
    }
  }

  /** The cascade down the child links removes exactly the subtree the parent links describe. */
  lemma CascadeIsSubtree(db: Db, t: TaskId)
    requires ForestInv(db) && t in db.tasks
    ensures Cascade(db, t) == Subtree(db, t)
  {
    CascadeInsideSubtree(db, t);
    forall x | x in Subtree(db, t) ensures x in Cascade(db, t) {
      SubtreeInsideCascade(db, t, x);
    }
  }

  /** Follow parent links `n` times. */
  ghost function Ancestor(db: Db, t: TaskId, n: nat): Option<TaskId>
    decreases n
  {
    if n == 0 then Some(t)
    else if t in db.tasks && db.tasks[t].parent.Some? then Ancestor(db, db.tasks[t].parent.value, n - 1)
    else None
  }

  /** No task is its own ancestor, and every ancestor lives in the same project. */
  lemma {:induction false} AncestorsAreOlder(db: Db, t: TaskId, n: nat)
    requires ForestInv(db) && t in db.tasks
    ensures n > 0 ==> Ancestor(db, t, n) != Some(t)
    ensures Ancestor(db, t, n).Some? ==>
      var a := Ancestor(db, t, n).value;
      a in db.tasks && db.tasks[a].project == db.tasks[t].project &&
      (n > 0 ==> db.births[a].serial < db.births[t].serial)
    decreases n
  {
    if n > 0 && db.tasks[t].parent.Some? {
      AncestorsAreOlder(db, db.tasks[t].parent.value, n - 1);
    }
  }

  // ----- one call -----

  function CallError(db: Db, call: Call): Option<Error> {
    match call
    case AddLabel(l, project, name, _) =>
      if exists m :: m in db.labels && db.labels[m] == Label(project, name) then Some(DuplicateLabelName) else None
    case CreateTask(_, project, fields, parent, _) => CreateError(db, project, fields, parent)
    case UpdateTask(t, updates, labelIds, _) => UpdateError(db, t, updates, labelIds)
    case DeleteTask(t, _) => if t in db.tasks then None else Some(TaskNotFound)
    case Attach(_, t, _, _) => if t in db.tasks then None else Some(TaskNotFound)
    case Unattach(a, _) => if a in db.attachments then None else Some(AttachmentNotFound)
    case Comment(_, t, _, _) => if t in db.tasks then None else Some(TaskNotFound)
    case _ => None
  }

  /** The committed state after a call; a call that fails commits nothing. */
  ghost function After(db: Db, call: Call): Db
    requires ForestInv(db) && LabelsKnown(db)
  {
    if CallError(db, call).Some? then db
    else
      match call
      case AddUser(u, email) => db.(users := db.users[u := email])
      case AddMember(p, u) => db.(members := db.members + {(p, u)})
      case AddLabel(l, project, name, actor) => Labelled(db, l, project, name, actor)
      case CreateTask(t, project, fields, parent, actor) =>
        Created(db, t, project, fields, parent, actor, MaxPosition(db.tasks, project, fields.status))
      case UpdateTask(t, updates, labelIds, actor) => Updated(db, t, updates, labelIds, actor)
      case DeleteTask(t, actor) => Deleted(db, t, actor, Cascade(db, t))
      case Attach(a, t, key, actor) => Attached(db, a, t, key, actor)
      case Unattach(a, actor) => Unattached(db, a, db.attachments[a].task, actor)
      case Comment(c, t, body, actor) => Commented(db, c, t, body, actor)
  }
}
