/** The database side of tasks: rows, and the transaction each service call commits. One function per
    call gives the next committed state or the error that leaves it untouched
    (backend/app/services/task_service.py, backend/app/crud/task.py, backend/app/models/). */
module TaskStore {
  import opened Common
  import opened Text

  datatype CommentId = CommentId(id: nat)

  /** The updatable columns of a task, by attribute name. */
  datatype Field = Title | Description | Status | Priority | Assignee | DueDate

  /** A column value: null, a user id, or anything else by its canonical text. */
  datatype Value = Null | Text(text: string) | User(user: UserId)

  /** Python's `str` of a value. It is not injective: null and the text "None" print alike. */
  function Str(v: Value): string {
    match v
    case Null => "None"
    case Text(text) => text
    case User(user) => Decimal(user.id)
  }

  datatype Fields = Fields(
    title: Value, description: Value, status: Value, priority: Value, assignee: Value, dueDate: Value)
  {
    function Get(f: Field): Value {
      match f
      case Title => title
      case Description => description
      case Status => status
      case Priority => priority
      case Assignee => assignee
      case DueDate => dueDate
    }

    function Set(f: Field, v: Value): (r: Fields)
      ensures forall g :: r.Get(g) == if g == f then v else Get(g)
    {
      match f
      case Title => this.(title := v)
      case Description => this.(description := v)
      case Status => this.(status := v)
      case Priority => this.(priority := v)
      case Assignee => this.(assignee := v)
      case DueDate => this.(dueDate := v)
    }

    function Merge(updates: map<Field, Value>): (r: Fields)
      ensures forall f :: r.Get(f) == if f in updates then updates[f] else Get(f)
    {
      Fields(Pick(updates, Title), Pick(updates, Description), Pick(updates, Status),
             Pick(updates, Priority), Pick(updates, Assignee), Pick(updates, DueDate))
    }

    function Pick(updates: map<Field, Value>, f: Field): Value {
      if f in updates then updates[f] else Get(f)
    }

    /** title, status and priority are NOT NULL columns. */
    predicate Storable() {
      title != Null && status != Null && priority != Null
    }
  }

  datatype Task = Task(
    project: ProjectId, fields: Fields, parent: Option<TaskId>, createdBy: UserId,
    position: int, labels: seq<LabelId>)

  datatype Label = Label(project: ProjectId, name: string)

  datatype Attachment = Attachment(task: TaskId, key: string)

  datatype Kind =
    | TaskCreated | TaskUpdated | TaskDeleted | CommentAdded | LabelCreated | AttachmentAdded | AttachmentRemoved

  /** What an entry or event is about. */
  datatype Subject =
    | OfTask(task: TaskId) | OfComment(comment: CommentId, task: TaskId)
    | OfAttachment(attachment: AttachmentId, task: TaskId) | OfLabel(tag: LabelId)

  /** What an action said beyond its activity row: whom it left as assignee, or a comment's text. */
  datatype Content = Nothing | AssignedTo(assignee: Value) | Said(project: ProjectId, body: string)

  /** One activity row. Sorted lists of label names are kept as multisets, which they determine and
      are determined by. `subject` and `content` are history: they survive the SET NULL of the `task`
      column. */
  datatype LogEntry = LogEntry(
    task: Option<TaskId>, actor: UserId, kind: Kind, subject: Subject,
    changes: map<Field, (string, string)>, labelChange: Option<(multiset<string>, multiset<string>)>,
    content: Content)

  /** History: when a task was created relative to others, and with which column values. */
  datatype Birth = Birth(serial: nat, fields: Fields)

  datatype Db = Db(
    users: map<UserId, string>, members: set<(ProjectId, UserId)>,
    labels: map<LabelId, Label>, tasks: map<TaskId, Task>,
    comments: map<CommentId, TaskId>, attachments: map<AttachmentId, Attachment>,
    log: seq<LogEntry>, births: map<TaskId, Birth>)

  datatype Error =
    | TaskNotFound | AssigneeNotMember | ParentNotInProject | LabelNotInProject
    | NotNullViolation | DuplicateLabelRow | DuplicateLabelName
    | AttachmentNotFound | FileEmpty | FileTooLarge | FilenameMissing

  // ----- creation -----

  predicate InColumn(task: Task, project: ProjectId, status: Value) {
    task.project == project && task.fields.status == status
  }

  /** `max_position or 0`: the largest position in the column, or 0 for an empty one. */
  ghost predicate IsMaxPosition(tasks: map<TaskId, Task>, project: ProjectId, status: Value, m: int) {
    && (forall t :: t in tasks && InColumn(tasks[t], project, status) ==> tasks[t].position <= m)
    && ((exists t :: t in tasks && InColumn(tasks[t], project, status) && tasks[t].position == m) ||
        (m == 0 && forall t :: t in tasks ==> !InColumn(tasks[t], project, status)))
  }

  predicate MayAssign(db: Db, project: ProjectId, assignee: Value) {
    match assignee
    case Null => true
    case User(u) => (project, u) in db.members
    case Text(_) => false
  }

  function CreateError(db: Db, project: ProjectId, fields: Fields, parent: Option<TaskId>): Option<Error> {
    if !MayAssign(db, project, fields.assignee) then Some(AssigneeNotMember)
    else if parent.Some? && (parent.value !in db.tasks || db.tasks[parent.value].project != project) then
      Some(ParentNotInProject)
    else if !fields.Storable() then Some(NotNullViolation)
    else None
  }

  function Created(db: Db, id: TaskId, project: ProjectId, fields: Fields, parent: Option<TaskId>,
                   actor: UserId, maxPosition: int): Db
  {
    db.(tasks := db.tasks[id := Task(project, fields, parent, actor, maxPosition + 1, [])],
        births := db.births[id := Birth(|db.births|, fields)],
        log := db.log + [LogEntry(Some(id), actor, TaskCreated, OfTask(id), map[], None, AssignedTo(fields.assignee))])
  }

  // ----- update -----

  function Changes(was: Fields, updates: map<Field, Value>): map<Field, (string, string)> {
    map f | f in updates && was.Get(f) != updates[f] :: (Str(was.Get(f)), Str(updates[f]))
  }

  predicate LabelsResolve(db: Db, project: ProjectId, ids: seq<LabelId>) {
    forall k :: 0 <= k < |ids| ==> ids[k] in db.labels && db.labels[ids[k]].project == project
  }

  /** `sorted(label.name for label in labels)`. */
  function Names(labels: map<LabelId, Label>, ids: seq<LabelId>): multiset<string>
    requires forall k :: 0 <= k < |ids| ==> ids[k] in labels
  {
    multiset(seq(|ids|, k requires 0 <= k < |ids| => labels[ids[k]].name))
  }

  /** A repeated label id that is not attached yet makes the flush insert its row twice. */
  predicate InsertsRowTwice(attached: seq<LabelId>, ids: seq<LabelId>) {
    exists i, j :: 0 <= i < j < |ids| && ids[i] == ids[j] && ids[i] !in attached
  }

  /** The rows a label list amounts to: each id once. */
  function Rows(ids: seq<LabelId>): (r: seq<LabelId>)
    ensures forall l :: l in r <==> l in ids
  {
    if ids == [] then []
    else
      var init, last := Rows(ids[..|ids| - 1]), ids[|ids| - 1];
      assert ids == ids[..|ids| - 1] + [last];
      if last in init then init else init + [last]
  }

  /** The constraint a flush of the row and of its label rows runs into, if any. */
  function FlushError(fields: Fields, stored: seq<LabelId>, labelIds: Option<seq<LabelId>>): Option<Error> {
    if !fields.Storable() then Some(NotNullViolation)
    else if labelIds.Some? && InsertsRowTwice(stored, labelIds.value) then Some(DuplicateLabelRow)
    else None
  }

  function UpdateError(db: Db, t: TaskId, updates: map<Field, Value>, labelIds: Option<seq<LabelId>>): Option<Error> {
    if t !in db.tasks then Some(TaskNotFound)
    else
      var task := db.tasks[t];
      if Assignee in updates && !MayAssign(db, task.project, updates[Assignee]) then Some(AssigneeNotMember)
      else if labelIds.Some? && !LabelsResolve(db, task.project, labelIds.value) then Some(LabelNotInProject)
      else FlushError(task.fields.Merge(updates), task.labels, labelIds)
  }

  ghost predicate LabelsKnown(db: Db) {
    forall t :: t in db.tasks ==> LabelsResolve(db, db.tasks[t].project, db.tasks[t].labels)
  }

  function LabelChange(db: Db, t: TaskId, labelIds: Option<seq<LabelId>>): Option<(multiset<string>, multiset<string>)>
    requires t in db.tasks && LabelsResolve(db, db.tasks[t].project, db.tasks[t].labels)
    requires labelIds.Some? ==> LabelsResolve(db, db.tasks[t].project, labelIds.value)
  {
    if labelIds == None then None
    else
      var before, after := Names(db.labels, db.tasks[t].labels), Names(db.labels, labelIds.value);
      if before != after then Some((before, after)) else None
  }

  function Updated(db: Db, t: TaskId, updates: map<Field, Value>, labelIds: Option<seq<LabelId>>, actor: UserId): Db
    requires UpdateError(db, t, updates, labelIds) == None
    requires LabelsResolve(db, db.tasks[t].project, db.tasks[t].labels)
  {
    var task := db.tasks[t];
    var changes, labelChange := Changes(task.fields, updates), LabelChange(db, t, labelIds);
    var task' := task.(fields := task.fields.Merge(updates),
                       labels := if labelIds.Some? then Rows(labelIds.value) else task.labels);
    db.(tasks := db.tasks[t := task'],
        log := if changes == map[] && labelChange == None then db.log
               else db.log + [LogEntry(Some(t), actor, TaskUpdated, OfTask(t), changes, labelChange,
                                       AssignedTo(task'.fields.assignee))])
  }

  // ----- deletion -----

  /** ON DELETE SET NULL on the log's task column. */
  function Detached(log: seq<LogEntry>, gone: set<TaskId>): (r: seq<LogEntry>)
    ensures |r| == |log|
    ensures forall k :: 0 <= k < |log| ==>
      r[k] == if log[k].task.Some? && log[k].task.value in gone then log[k].(task := None) else log[k]
  {
    seq(|log|, k requires 0 <= k < |log| =>
      if log[k].task.Some? && log[k].task.value in gone then log[k].(task := None) else log[k])
  }

  function Deleted(db: Db, t: TaskId, actor: UserId, gone: set<TaskId>): Db {
    db.(tasks := db.tasks - gone,
        comments := map c | c in db.comments && db.comments[c] !in gone :: db.comments[c],
        attachments := map a | a in db.attachments && db.attachments[a].task !in gone :: db.attachments[a],
        log := Detached(db.log + [LogEntry(None, actor, TaskDeleted, OfTask(t), map[], None, Nothing)], gone))
  }

  // ----- the rest -----

  function Attached(db: Db, a: AttachmentId, t: TaskId, key: string, actor: UserId): Db {
    db.(attachments := db.attachments[a := Attachment(t, key)],
        log := db.log + [LogEntry(Some(t), actor, AttachmentAdded, OfAttachment(a, t), map[], None, Nothing)])
  }

  function Unattached(db: Db, a: AttachmentId, t: TaskId, actor: UserId): Db {
    db.(attachments := db.attachments - {a},
        log := db.log + [LogEntry(Some(t), actor, AttachmentRemoved, OfAttachment(a, t), map[], None, Nothing)])
  }

  function Commented(db: Db, c: CommentId, t: TaskId, body: string, actor: UserId): Db
    requires t in db.tasks
  {
    db.(comments := db.comments[c := t],
        log := db.log + [LogEntry(Some(t), actor, CommentAdded, OfComment(c, t), map[], None,
                                  Said(db.tasks[t].project, body))])
  }

  function Labelled(db: Db, l: LabelId, project: ProjectId, name: string, actor: UserId): Db {
    db.(labels := db.labels[l := Label(project, name)],
        log := db.log + [LogEntry(None, actor, LabelCreated, OfLabel(l), map[], None, Nothing)])
  }
}
