/** What each call does and refuses, and what the log says, in terms of columns, rows and texts alone
    (backend/app/services/task_service.py, attachment_service.py, comment_service.py). */
module TaskEffects {
  import opened Common
  import opened Text
  import opened TaskStore
  import opened TaskHistory
  import opened TaskInvariants

  // ----- what is refused -----

  /** A value for the assignee column that names no member of the project. */
  predicate NamesStranger(members: set<(ProjectId, UserId)>, project: ProjectId, assignee: Value) {
    assignee != Null && !(assignee.User? && (project, assignee.user) in members)
  }

  /** Why a creation is refused, if it is: the first of these reasons that applies. */
  lemma CreateRefusedIff(db: Db, project: ProjectId, fields: Fields, parent: Option<TaskId>)
    ensures var error := CreateError(db, project, fields, parent);
      var stranger := NamesStranger(db.members, project, fields.assignee);
      var badParent := parent.Some? && !(parent.value in db.tasks && db.tasks[parent.value].project == project);
      var missing := Null in [fields.title, fields.status, fields.priority];
      && (error == Some(AssigneeNotMember) <==> stranger)
      && (error == Some(ParentNotInProject) <==> !stranger && badParent)
      && (error == Some(NotNullViolation) <==> !stranger && !badParent && missing)
      && (error == None <==> !stranger && !badParent && !missing)
  {
    var columns := [fields.title, fields.status, fields.priority];
    assert Null in columns <==> columns[0] == Null || columns[1] == Null || columns[2] == Null;
  }

  /** A column after an update. */
  function NewValue(was: Value, updates: map<Field, Value>, f: Field): Value {
    if f in updates then updates[f] else was
  }

  /** Each column by its name. */
  lemma ColumnsAfterUpdate(was: Fields, updates: map<Field, Value>)
    ensures var now := was.Merge(updates);
      && now.title == NewValue(was.title, updates, Title)
      && now.description == NewValue(was.description, updates, Description)
      && now.status == NewValue(was.status, updates, Status)
      && now.priority == NewValue(was.priority, updates, Priority)
      && now.assignee == NewValue(was.assignee, updates, Assignee)
      && now.dueDate == NewValue(was.dueDate, updates, DueDate)
  {
    var now := was.Merge(updates);
    assert now.Get(Title) == now.title && now.Get(Description) == now.description;
    assert now.Get(Status) == now.status && now.Get(Priority) == now.priority;
    assert now.Get(Assignee) == now.assignee && now.Get(DueDate) == now.dueDate;
    assert was.Get(Title) == was.title && was.Get(Description) == was.description;
    assert was.Get(Status) == was.status && was.Get(Priority) == was.priority;
    assert was.Get(Assignee) == was.assignee && was.Get(DueDate) == was.dueDate;
  }

  ghost predicate SomeForeignLabel(db: Db, project: ProjectId, ids: seq<LabelId>) {
    exists l :: l in ids && !(l in db.labels && db.labels[l].project == project)
  }

  ghost predicate RepeatsUnattached(attached: seq<LabelId>, ids: seq<LabelId>) {
    exists i, j :: 0 <= i < j < |ids| && ids[i] == ids[j] && ids[i] !in attached
  }

  lemma ResolvesIffNoneForeign(db: Db, project: ProjectId, ids: seq<LabelId>)
    ensures LabelsResolve(db, project, ids) <==> !SomeForeignLabel(db, project, ids)
  {
    if !LabelsResolve(db, project, ids) {
      var k :| 0 <= k < |ids| && !(ids[k] in db.labels && db.labels[ids[k]].project == project);
      assert ids[k] in ids;
    }
  }

  lemma FlushRefusedIff(was: Fields, updates: map<Field, Value>, stored: seq<LabelId>, labelIds: Option<seq<LabelId>>)
    ensures var error := FlushError(was.Merge(updates), stored, labelIds);
      var missing := NewValue(was.title, updates, Title) == Null || NewValue(was.status, updates, Status) == Null ||
        NewValue(was.priority, updates, Priority) == Null;
      var twice := labelIds.Some? && RepeatsUnattached(stored, labelIds.value);
      && (error == Some(NotNullViolation) <==> missing)
      && (error == Some(DuplicateLabelRow) <==> !missing && twice)
      && (error == None <==> !missing && !twice)
  {
    ColumnsAfterUpdate(was, updates);
  }

  /** Why an update is refused, if it is: the first of these reasons that applies. */
  lemma UpdateRefusedIff(db: Db, t: TaskId, updates: map<Field, Value>, labelIds: Option<seq<LabelId>>)
    requires t in db.tasks
    ensures var error, task := UpdateError(db, t, updates, labelIds), db.tasks[t];
      var stranger := Assignee in updates && NamesStranger(db.members, task.project, updates[Assignee]);
      var foreign := labelIds.Some? && SomeForeignLabel(db, task.project, labelIds.value);
      && (error == Some(AssigneeNotMember) <==> stranger)
      && (error == Some(LabelNotInProject) <==> !stranger && foreign)
      && (!stranger && !foreign ==> error == FlushError(task.fields.Merge(updates), task.labels, labelIds))
  {
    if labelIds.Some? {
      ResolvesIffNoneForeign(db, db.tasks[t].project, labelIds.value);
    }
  }

  /** Calls on what is not there are refused, and nothing else is. */
  lemma OtherCallsRefusedIff(db: Db, call: Call)
    requires !call.CreateTask? && !call.UpdateTask?
    ensures CallError(db, call) ==
      match call
      case AddLabel(l, project, name, _) =>
        if exists m :: m in db.labels && db.labels[m].project == project && db.labels[m].name == name
        then Some(DuplicateLabelName) else None
      case DeleteTask(t, _) => if t in db.tasks then None else Some(TaskNotFound)
      case Attach(_, t, _, _) => if t in db.tasks then None else Some(TaskNotFound)
      case Unattach(a, _) => if a in db.attachments then None else Some(AttachmentNotFound)
      case Comment(_, t, _, _) => if t in db.tasks then None else Some(TaskNotFound)
      case _ => None
  {
    if call.AddLabel? &&
       exists m :: m in db.labels && db.labels[m].project == call.project && db.labels[m].name == call.name {
      var m :| m in db.labels && db.labels[m].project == call.project && db.labels[m].name == call.name;
      assert db.labels[m] == Label(call.project, call.name);
    }
  }

  // ----- what is done -----

  /** Everything but tasks, their history and the log. */
  ghost predicate OtherTablesKept(db: Db, db': Db) {
    db'.users == db.users && db'.members == db.members && db'.labels == db.labels &&
    db'.comments == db.comments && db'.attachments == db.attachments
  }

  /** The log with one more entry at its end. */
  ghost predicate LogsOne(log: seq<LogEntry>, log': seq<LogEntry>, task: Option<TaskId>, actor: UserId, kind: Kind,
                          subject: Subject) {
    && |log'| == |log| + 1 && log'[..|log|] == log
    && log'[|log|].task == task && log'[|log|].actor == actor
    && log'[|log|].kind == kind && log'[|log|].subject == subject
  }

  /** Where a new task stands: one behind the last task of its project with its status, or first. */
  ghost predicate StandsLast(tasks: map<TaskId, Task>, project: ProjectId, status: Value, position: int) {
    && (forall u :: u in tasks && tasks[u].project == project && tasks[u].fields.status == status ==>
          tasks[u].position < position)
    && if forall u :: u in tasks ==> tasks[u].project != project || tasks[u].fields.status != status
       then position == 1
       else exists u :: u in tasks && tasks[u].project == project && tasks[u].fields.status == status &&
              tasks[u].position == position - 1
  }

  lemma PositionStandsLast(tasks: map<TaskId, Task>, project: ProjectId, status: Value)
    ensures StandsLast(tasks, project, status, MaxPosition(tasks, project, status) + 1)
  {
    var m := MaxPosition(tasks, project, status);
    assert IsMaxPosition(tasks, project, status, m);
    if exists u :: u in tasks && InColumn(tasks[u], project, status) && tasks[u].position == m {
      var u :| u in tasks && InColumn(tasks[u], project, status) && tasks[u].position == m;
      assert tasks[u].project == project && tasks[u].fields.status == status;
    } else {
      assert forall u :: u in tasks ==> !InColumn(tasks[u], project, status);
    }
  }

  /** create_task adds one row, without labels and last in its column, and logs it; all else is kept. */
  lemma CreateAddsTask(db: Db, call: Call)
    requires ForestInv(db) && LabelsKnown(db) && call.CreateTask? && CallError(db, call) == None
    ensures var db' := After(db, call);
      && call.t in db'.tasks
      && var task := db'.tasks[call.t];
        && task.project == call.project && task.fields == call.fields && task.parent == call.parent
        && task.createdBy == call.actor && task.labels == []
        && StandsLast(db.tasks, call.project, call.fields.status, task.position)
        && db'.tasks == db.tasks[call.t := task]
        && call.t in db'.births && db'.births[call.t].fields == call.fields
        && OtherTablesKept(db, db')
        && LogsOne(db.log, db'.log, Some(call.t), call.actor, TaskCreated, OfTask(call.t))
  {
    PositionStandsLast(db.tasks, call.project, call.fields.status);
  }

  /** update_task writes the columns and labels given; everything else about the task, and every other row,
      is kept. */
  lemma UpdateWritesColumns(db: Db, t: TaskId, updates: map<Field, Value>, labelIds: Option<seq<LabelId>>,
                            actor: UserId)
    requires LabelsKnown(db) && UpdateError(db, t, updates, labelIds) == None
    ensures var db' := Updated(db, t, updates, labelIds, actor);
      && db'.tasks.Keys == db.tasks.Keys && (forall u :: u in db.tasks && u != t ==> db'.tasks[u] == db.tasks[u])
      && var was, now := db.tasks[t], db'.tasks[t];
        && now.fields == was.fields.Merge(updates)
        && now.project == was.project && now.parent == was.parent && now.createdBy == was.createdBy
        && now.position == was.position
        && (if labelIds.Some? then forall l :: l in now.labels <==> l in labelIds.value else now.labels == was.labels)
        && OtherTablesKept(db, db')
        && (db'.log == db.log ||
            (LogsOne(db.log, db'.log, Some(t), actor, TaskUpdated, OfTask(t)) &&
             db'.log[|db.log|].changes == Changes(was.fields, updates)))
  {
  }

  /** delete_task removes exactly the subtree, with its comments and attachments; the log keeps every entry,
      without its task column where that task is gone. */
  lemma DeleteRemovesSubtree(db: Db, t: TaskId, actor: UserId)
    requires ForestInv(db) && LabelsKnown(db) && t in db.tasks
    ensures var db', gone := After(db, DeleteTask(t, actor)), Subtree(db, t);
      && t in gone && db'.tasks.Keys == db.tasks.Keys - gone
      && (forall u :: u in db'.tasks ==> db'.tasks[u] == db.tasks[u])
      && (forall c :: c in db'.comments <==> c in db.comments && db.comments[c] !in gone)
      && (forall c :: c in db'.comments ==> db'.comments[c] == db.comments[c])
      && (forall a :: a in db'.attachments <==> a in db.attachments && db.attachments[a].task !in gone)
      && (forall a :: a in db'.attachments ==> db'.attachments[a] == db.attachments[a])
      && db'.users == db.users && db'.members == db.members && db'.labels == db.labels && db'.births == db.births
  {
    CascadeIsSubtree(db, t);
    assert InSubtree(db, t, t);
  }

  lemma DeleteDetachesLog(db: Db, t: TaskId, actor: UserId)
    requires ForestInv(db) && LabelsKnown(db) && t in db.tasks
    ensures var log', gone := After(db, DeleteTask(t, actor)).log, Subtree(db, t);
      && |log'| == |db.log| + 1
      && (forall k :: 0 <= k < |db.log| ==>
            log'[k].(task := None) == db.log[k].(task := None) &&
            (log'[k].task == None <==> db.log[k].task == None || db.log[k].task.value in gone) &&
            (log'[k].task.Some? ==> log'[k].task == db.log[k].task))
      && log'[|db.log|].task == None && log'[|db.log|].actor == actor
      && log'[|db.log|].kind == TaskDeleted && log'[|db.log|].subject == OfTask(t)
  {
    CascadeIsSubtree(db, t);
    var e := LogEntry(None, actor, TaskDeleted, OfTask(t), map[], None, Nothing);
    var log := db.log + [e];
    assert After(db, DeleteTask(t, actor)).log == Detached(log, Cascade(db, t));
    assert log[|db.log|] == e && forall k :: 0 <= k < |db.log| ==> log[k] == db.log[k];
  }

  /** A comment and an attachment are stored for their task, and an attachment is removed, with one log entry
      about it each; every other row is kept. */
  lemma RowsStoredAndRemoved(db: Db, call: Call)
    requires ForestInv(db) && LabelsKnown(db) && CallError(db, call) == None
    ensures var db' := After(db, call);
      && (call.Comment? ==>
            && db'.comments == db.comments[call.c := call.t] && db'.attachments == db.attachments
            && LogsOne(db.log, db'.log, Some(call.t), call.actor, CommentAdded, OfComment(call.c, call.t)))
      && (call.Attach? ==>
            && db'.attachments == db.attachments[call.a := Attachment(call.t, call.key)] && db'.comments == db.comments
            && LogsOne(db.log, db'.log, Some(call.t), call.actor, AttachmentAdded, OfAttachment(call.a, call.t)))
      && (call.Unattach? ==>
            var t := db.attachments[call.a].task;
            && db'.attachments.Keys == db.attachments.Keys - {call.a} && db'.comments == db.comments
            && (forall a :: a in db'.attachments ==> db'.attachments[a] == db.attachments[a])
            && LogsOne(db.log, db'.log, Some(t), call.actor, AttachmentRemoved, OfAttachment(call.a, t)))
      && (call.Comment? || call.Attach? || call.Unattach? ==>
            db'.tasks == db.tasks && db'.users == db.users && db'.members == db.members && db'.labels == db.labels)
  {
  }

  /** Users, memberships and labels are stored as given; every other row is kept. */
  lemma PeopleStored(db: Db, user: UserId, email: string, project: ProjectId)
    requires ForestInv(db) && LabelsKnown(db)
    ensures After(db, AddUser(user, email)) == db.(users := db.users[user := email])
    ensures After(db, AddMember(project, user)) == db.(members := db.members + {(project, user)})
  {
  }

  lemma LabelStored(db: Db, l: LabelId, project: ProjectId, name: string, actor: UserId)
    requires ForestInv(db) && LabelsKnown(db) && CallError(db, AddLabel(l, project, name, actor)) == None
    ensures var db' := After(db, AddLabel(l, project, name, actor));
      && db'.labels == db.labels[l := Label(project, name)]
      && db'.(labels := db.labels, log := db.log) == db
      && LogsOne(db.log, db'.log, None, actor, LabelCreated, OfLabel(l))
  {
  }

  // ----- what the log says -----

  /** What one field's change is logged as: texts as they are, nothing as "None", a user by a name no other
      user has and that is not "None". */
  lemma ChangeIsLoggedInFull(was: Fields, updates: map<Field, Value>, f: Field)
    requires f in updates
    ensures f in Changes(was, updates) <==> was.Get(f) != updates[f]
    ensures f in Changes(was, updates) ==>
      var (before, after) := Changes(was, updates)[f];
      && (was.Get(f).Text? ==> before == was.Get(f).text) && (updates[f].Text? ==> after == updates[f].text)
      && (was.Get(f) == Null ==> before == "None") && (updates[f] == Null ==> after == "None")
      && (!was.Get(f).Text? && !updates[f].Text? ==> before != after)
  {
    var x, y := was.Get(f), updates[f];
    if x.User? && y.User? && Str(x) == Str(y) {
      DecimalInjective(x.user.id, y.user.id);
    }
    assert "None"[0] == 'N';
  }

  lemma UsersAreLoggedApart(u: UserId, v: UserId)
    ensures Str(User(u)) == Str(User(v)) <==> u == v
    ensures Str(User(u)) != Str(Null)
  {
    if Str(User(u)) == Str(User(v)) {
      DecimalInjective(u.id, v.id);
    }
    assert "None"[0] == 'N' && Decimal(u.id)[0] <= '9';
  }

  lemma {:induction false} LinkedMeans<T(!new)>(trail: seq<(T, T)>, first: T, last: T)
    requires Linked(trail, first, last)
    ensures trail == [] ==> first == last
    ensures trail != [] ==> trail[0].0 == first && trail[|trail| - 1].1 == last
    ensures forall k :: 0 <= k < |trail| - 1 ==> trail[k].1 == trail[k + 1].0
    decreases |trail|
  {
    if trail != [] {
      var init := trail[..|trail| - 1];
      LinkedMeans(init, first, trail[|trail| - 1].0);
      assert forall k :: 0 <= k < |init| ==> init[k] == trail[k];
    }
  }

  /** The audit trail of a text column, over every run: from the very text the task was created with, each
      change starting with the text the one before it ended with, to the very text it has now. */
  lemma TextTrailRunsFromBirthToNow(calls: seq<Call>, t: TaskId, f: Field, born: string, now: string)
    requires AfterRun(calls).Some? && t in AfterRun(calls).value.tasks
    requires AfterRun(calls).value.births[t].fields.Get(f) == Text(born)
    requires AfterRun(calls).value.tasks[t].fields.Get(f) == Text(now)
    ensures var trail := Trail(AfterRun(calls).value.log, t, f);
      && (trail == [] ==> born == now)
      && (trail != [] ==> trail[0].0 == born && trail[|trail| - 1].1 == now)
      && (forall k :: 0 <= k < |trail| - 1 ==> trail[k].1 == trail[k + 1].0)
  {
    var db := AfterRun(calls).value;
    assert FieldTrailLinked(db, t, f);
    LinkedMeans(Trail(db.log, t, f), born, now);
  }
}
