/** What holds after every run of service calls: the task forest, the label rules, the audit trail
    and the order of tasks within a column. */
module TaskInvariants {
  import opened Common
  import opened TaskStore
  import opened TaskHistory

  ghost predicate LabelInv(db: Db) {
    && LabelsKnown(db)
    && (forall t :: t in db.tasks ==> Distinct(db.tasks[t].labels))
    && (forall l, m :: l in db.labels && m in db.labels && db.labels[l] == db.labels[m] ==> l == m)
  }

  /** Every reference to a task is to a live one. */
  ghost predicate ReferencesLive(db: Db) {
    && (forall k :: 0 <= k < |db.log| && db.log[k].task.Some? ==> db.log[k].task.value in db.tasks)
    && (forall a :: a in db.attachments ==> db.attachments[a].task in db.tasks)
    && (forall c :: c in db.comments ==> db.comments[c] in db.tasks)
  }

  // ----- the audit trail -----

  /** The logged (old, new) pairs of one field of one task, oldest first. */
  ghost function Trail(log: seq<LogEntry>, t: TaskId, f: Field): seq<(string, string)>
    decreases |log|
  {
    if log == [] then []
    else
      var last := log[|log| - 1];
      Trail(log[..|log| - 1], t, f) +
      if last.task == Some(t) && f in last.changes then [last.changes[f]] else []
  }

  ghost function LabelTrail(log: seq<LogEntry>, t: TaskId): seq<(multiset<string>, multiset<string>)>
    decreases |log|
  {
    if log == [] then []
    else
      var last := log[|log| - 1];
      LabelTrail(log[..|log| - 1], t) +
      if last.task == Some(t) && last.labelChange.Some? then [last.labelChange.value] else []
  }

  /** The pairs link up from `first` to `last`: each one starts where the one before it ended. */
  ghost predicate Linked<T(!new)>(trail: seq<(T, T)>, first: T, last: T)
    decreases |trail|
  {
    if trail == [] then first == last
    else
      var end := trail[|trail| - 1];
      end.1 == last && Linked(trail[..|trail| - 1], first, end.0)
  }

  lemma LinkedAppend<T(!new)>(trail: seq<(T, T)>, first: T, middle: T, logged: T, last: T)
    ensures Linked(trail + [(middle, logged)], first, last) <==> Linked(trail, first, middle) && logged == last
  {
    assert (trail + [(middle, logged)])[..|trail|] == trail;
  }

  ghost predicate FieldTrailLinked(db: Db, t: TaskId, f: Field)
    requires t in db.tasks && t in db.births
  {
    Linked(Trail(db.log, t, f), Str(db.births[t].fields.Get(f)), Str(db.tasks[t].fields.Get(f)))
  }

  ghost predicate LabelTrailLinked(db: Db, t: TaskId)
    requires t in db.tasks && LabelsKnown(db)
  {
    Linked(LabelTrail(db.log, t), multiset{}, Names(db.labels, db.tasks[t].labels))
  }

  lemma TrailAppend(log: seq<LogEntry>, e: LogEntry, t: TaskId)
    ensures forall f ::
      Trail(log + [e], t, f) == Trail(log, t, f) + (if e.task == Some(t) && f in e.changes then [e.changes[f]] else [])
    ensures LabelTrail(log + [e], t) ==
      LabelTrail(log, t) + if e.task == Some(t) && e.labelChange.Some? then [e.labelChange.value] else []
  {
    assert (log + [e])[..|log|] == log;
  }

  lemma {:induction false} TrailUntouched(log: seq<LogEntry>, t: TaskId)
    requires forall k :: 0 <= k < |log| ==> log[k].task != Some(t)
    ensures forall f :: Trail(log, t, f) == []
    ensures LabelTrail(log, t) == []
    decreases |log|
  {
    if log != [] {
      TrailUntouched(log[..|log| - 1], t);
    }
  }

  /** SET NULL on other tasks' entries leaves a task's trail alone. */
  lemma {:induction false} TrailDetached(log: seq<LogEntry>, gone: set<TaskId>, t: TaskId)
    requires t !in gone
    ensures forall f :: Trail(Detached(log, gone), t, f) == Trail(log, t, f)
    ensures LabelTrail(Detached(log, gone), t) == LabelTrail(log, t)
    decreases |log|
  {
    if log != [] {
      TrailDetached(log[..|log| - 1], gone, t);
      assert Detached(log, gone)[..|log| - 1] == Detached(log[..|log| - 1], gone);
    }
  }

  // ----- label names -----

  lemma {:induction false} NamesCount(labels: map<LabelId, Label>, ids: seq<LabelId>, n: string)
    requires forall k :: 0 <= k < |ids| ==> ids[k] in labels
    requires Distinct(ids)
    requires forall i, j | 0 <= i < |ids| && 0 <= j < |ids| ::
      labels[ids[i]].name == labels[ids[j]].name ==> ids[i] == ids[j]
    ensures Names(labels, ids)[n] == if exists l :: l in ids && labels[l].name == n then 1 else 0
    decreases |ids|
  {
    if ids != [] {
      var init, last := ids[..|ids| - 1], ids[|ids| - 1];
      NamesCount(labels, init, n);
      NamesAppend(labels, init, last);
      assert ids == init + [last];
      if labels[last].name == n {
        assert forall l :: l in init ==> labels[l].name != n;
        assert last in ids;
      } else {
        assert forall l :: l in ids && labels[l].name == n ==> l in init;
      }
    }
  }

  lemma NamesAppend(labels: map<LabelId, Label>, ids: seq<LabelId>, l: LabelId)
    requires forall k :: 0 <= k < |ids| ==> ids[k] in labels
    requires l in labels
    ensures Names(labels, ids + [l]) == Names(labels, ids) + multiset{labels[l].name}
  {
    var names := seq(|ids|, k requires 0 <= k < |ids| => labels[ids[k]].name);
    var longer := seq(|ids| + 1, k requires 0 <= k < |ids| + 1 => labels[(ids + [l])[k]].name);
    assert longer == names + [labels[l].name];
  }

  lemma {:induction false} NameListed(labels: map<LabelId, Label>, ids: seq<LabelId>, n: string)
    requires forall k :: 0 <= k < |ids| ==> ids[k] in labels
    ensures n in Names(labels, ids) <==> exists l :: l in ids && labels[l].name == n
    ensures |Names(labels, ids)| == |ids|
    decreases |ids|
  {
    if ids != [] {
      var init, last := ids[..|ids| - 1], ids[|ids| - 1];
      NameListed(labels, init, n);
      NamesAppend(labels, init, last);
      assert ids == init + [last];
    }
  }

  /** Comparing sorted label names is exact: names are unique within a project, so two label lists
      without repeats have the same names if and only if they are the same labels. */
  lemma SameNamesIffSameLabels(db: Db, project: ProjectId, a: seq<LabelId>, b: seq<LabelId>)
    requires LabelInv(db) && LabelsResolve(db, project, a) && LabelsResolve(db, project, b)
    requires Distinct(a) && Distinct(b)
    ensures Names(db.labels, a) == Names(db.labels, b) <==> Elements(a) == Elements(b)
  {
    forall l, m | l in a + b && m in a + b && db.labels[l].name == db.labels[m].name ensures l == m {
      assert db.labels[l] == db.labels[m];
    }
    if Names(db.labels, a) == Names(db.labels, b) {
      SameNamesSubset(db, project, a, b);
      SameNamesSubset(db, project, b, a);
    } else {
      var n :| Names(db.labels, a)[n] != Names(db.labels, b)[n];
      NamesCount(db.labels, a, n);
      NamesCount(db.labels, b, n);
      assert forall l :: l in a <==> l in Elements(a);
      assert forall l :: l in b <==> l in Elements(b);
    }
  }

  lemma SameNamesSubset(db: Db, project: ProjectId, a: seq<LabelId>, b: seq<LabelId>)
    requires LabelInv(db) && LabelsResolve(db, project, a) && LabelsResolve(db, project, b)
    requires Names(db.labels, a) == Names(db.labels, b)
    ensures Elements(a) <= Elements(b)
  {
    forall l | l in a ensures l in b {
      var n := db.labels[l].name;
      NameListed(db.labels, a, n);
      NameListed(db.labels, b, n);
      var m :| m in b && db.labels[m].name == n;
      assert db.labels[m] == db.labels[l];
    }
  }

  lemma {:induction false} RowsOf(ids: seq<LabelId>)
    ensures Distinct(Rows(ids)) && |Rows(ids)| <= |ids|
    ensures Distinct(ids) <==> |Rows(ids)| == |ids|
    ensures Distinct(ids) ==> Rows(ids) == ids
    decreases |ids|
  {
    if ids != [] {
      var init, last := ids[..|ids| - 1], ids[|ids| - 1];
      assert ids == init + [last];
      RowsOf(init);
      if Distinct(ids) {
        assert last !in init;
      } else if Distinct(init) {
        assert last in init;
      }
    }
  }

  /** The label names an update logs are the names stored afterwards if and only if the request
      repeats no label id. */
  lemma LoggedNamesAreStoredIffNoRepeats(db: Db, project: ProjectId, ids: seq<LabelId>)
    requires LabelsResolve(db, project, ids)
    ensures LabelsResolve(db, project, Rows(ids))
    ensures Names(db.labels, Rows(ids)) == Names(db.labels, ids) <==> Distinct(ids)
  {
    forall k | 0 <= k < |Rows(ids)|
      ensures Rows(ids)[k] in db.labels && db.labels[Rows(ids)[k]].project == project
    {
      assert Rows(ids)[k] in ids;
    }
    RowsOf(ids);
    NameListed(db.labels, ids, "");
    NameListed(db.labels, Rows(ids), "");
  }

  /** A request that repeats a label id never has the names that are stored. */
  lemma RepeatsNeverMatch(db: Db, project: ProjectId, stored: seq<LabelId>, ids: seq<LabelId>)
    requires LabelInv(db) && LabelsResolve(db, project, stored) && LabelsResolve(db, project, ids)
    requires Distinct(stored) && Names(db.labels, stored) == Names(db.labels, ids)
    ensures Distinct(ids)
  {
    SameNamesSubset(db, project, stored, ids);
    SameNamesSubset(db, project, ids, stored);
    RowsOf(ids);
    assert Elements(Rows(ids)) == Elements(ids) == Elements(stored);
    DistinctSize(stored);
    DistinctSize(Rows(ids));
    assert |Names(db.labels, stored)| == |stored| && |Names(db.labels, ids)| == |ids|;
  }

  lemma NamesDifferIff(db: Db, project: ProjectId, stored: seq<LabelId>, ids: seq<LabelId>)
    requires LabelInv(db) && LabelsResolve(db, project, stored) && LabelsResolve(db, project, ids)
    requires Distinct(stored)
    ensures Names(db.labels, stored) != Names(db.labels, ids) <==>
      Elements(Rows(ids)) != Elements(stored) || !Distinct(ids)
  {
    RowsOf(ids);
    if Names(db.labels, stored) == Names(db.labels, ids) {
      RepeatsNeverMatch(db, project, stored, ids);
    }
    if Distinct(ids) {
      SameNamesIffSameLabels(db, project, stored, ids);
    }
  }

  /** An update writes a log entry if and only if it changed the task or its request repeats a label id;
      so without repeats, an entry exists exactly when something changed. */
  lemma EntryIffSomethingChanged(db: Db, t: TaskId, updates: map<Field, Value>,
                                 labelIds: Option<seq<LabelId>>, actor: UserId)
    requires LabelInv(db) && UpdateError(db, t, updates, labelIds) == None
    ensures var db' := Updated(db, t, updates, labelIds, actor);
      (db'.log != db.log <==>
        db'.tasks[t].fields != db.tasks[t].fields ||
        Elements(db'.tasks[t].labels) != Elements(db.tasks[t].labels) ||
        (labelIds.Some? && !Distinct(labelIds.value)))
  {
    var task := db.tasks[t];
    FieldsChangeIffChanges(task.fields, updates);
    if labelIds.Some? {
      NamesDifferIff(db, task.project, task.labels, labelIds.value);
    }
  }

  lemma FieldsChangeIffChanges(fields: Fields, updates: map<Field, Value>)
    ensures Changes(fields, updates) == map[] <==> fields.Merge(updates) == fields
  {
    var changes := Changes(fields, updates);
    if changes == map[] {
      assert forall f :: f in updates && f !in changes ==> fields.Get(f) == updates[f];
      SameFields(fields.Merge(updates), fields);
    } else {
      var f :| f in changes;
      assert fields.Merge(updates).Get(f) != fields.Get(f);
    }
  }

  lemma SameFields(a: Fields, b: Fields)
    requires forall f :: a.Get(f) == b.Get(f)
    ensures a == b
  {
    assert a.Get(Title) == b.Get(Title) && a.Get(Description) == b.Get(Description);
    assert a.Get(Status) == b.Get(Status) && a.Get(Priority) == b.Get(Priority);
    assert a.Get(Assignee) == b.Get(Assignee) && a.Get(DueDate) == b.Get(DueDate);
  }

  // ----- order within a column -----

  /** The task has never changed status. */
  ghost predicate NeverMoved(db: Db, t: TaskId) {
    Trail(db.log, t, Status) == []
  }

  /** Both tasks have stayed in the column they were created in, and `t` is the older one. */
  ghost predicate OlderInColumn(db: Db, t: TaskId, u: TaskId)
    requires ForestInv(db) && t in db.tasks && u in db.tasks
  {
    NeverMoved(db, t) && NeverMoved(db, u) &&
    InColumn(db.tasks[t], db.tasks[u].project, db.tasks[u].fields.status) &&
    db.births[t].serial < db.births[u].serial
  }

  ghost predicate ColumnInv(db: Db)
    requires ForestInv(db)
  {
    && (forall t :: t in db.tasks && NeverMoved(db, t) ==>
          db.tasks[t].fields.status == db.births[t].fields.status)
    && (forall t, u :: t in db.tasks && u in db.tasks && OlderInColumn(db, t, u) ==>
          db.tasks[t].position < db.tasks[u].position)
  }

  // ----- every call keeps them -----

  ghost predicate TrailInv(db: Db)
    requires ForestInv(db)
  {
    forall t, f :: t in db.tasks ==> FieldTrailLinked(db, t, f)
  }

  ghost predicate Inv(db: Db) {
    ForestInv(db) && LabelInv(db) && ReferencesLive(db) && ColumnInv(db) && TrailInv(db)
  }

  /** The task is as it was, and so are its trails. */
  ghost predicate Kept(db: Db, db': Db, t: TaskId) {
    && t in db.tasks && t in db'.tasks && db'.tasks[t] == db.tasks[t]
    && t in db.births && t in db'.births && db'.births[t] == db.births[t]
    && (forall f :: Trail(db'.log, t, f) == Trail(db.log, t, f))
    && LabelTrail(db'.log, t) == LabelTrail(db.log, t)
  }

  lemma KeptTasksKeepTrails(db: Db, db': Db)
    requires ForestInv(db) && ForestInv(db') && forall t :: t in db'.tasks ==> Kept(db, db', t)
    requires TrailInv(db)
    ensures TrailInv(db')
  {
    forall t, f | t in db'.tasks ensures FieldTrailLinked(db', t, f) {
      assert Kept(db, db', t) && FieldTrailLinked(db, t, f);
    }
  }

  lemma KeptTasksKeepColumns(db: Db, db': Db)
    requires ForestInv(db) && ForestInv(db') && forall t :: t in db'.tasks ==> Kept(db, db', t)
    requires ColumnInv(db)
    ensures ColumnInv(db')
  {
    forall t | t in db'.tasks ensures (NeverMoved(db', t) <==> NeverMoved(db, t)) && db'.tasks[t] == db.tasks[t] {
      assert Kept(db, db', t);
    }
    forall t, u | t in db'.tasks && u in db'.tasks && OlderInColumn(db', t, u)
      ensures db'.tasks[t].position < db'.tasks[u].position
    {
      assert Kept(db, db', t) && Kept(db, db', u);
      assert OlderInColumn(db, t, u);
    }
  }

  ghost predicate NoChanges(e: LogEntry) {
    e.changes == map[] && e.labelChange == None
  }

  lemma AppendKeeps(db: Db, db': Db, e: LogEntry, t: TaskId)
    requires db'.log == db.log + [e] && (NoChanges(e) || e.task != Some(t))
    requires t in db.tasks && t in db'.tasks && db'.tasks[t] == db.tasks[t]
    requires t in db.births && t in db'.births && db'.births[t] == db.births[t]
    ensures Kept(db, db', t)
  {
    TrailAppend(db.log, e, t);
  }

  /** A call that touches no task and logs at most an entry without changes. */
  lemma QuietCallKeepsInv(db: Db, db': Db)
    requires Inv(db) && LabelInv(db') && ReferencesLive(db')
    requires db'.tasks == db.tasks && db'.births == db.births
    requires db'.log == db.log || (exists e: LogEntry :: NoChanges(e) && db'.log == db.log + [e])
    ensures Inv(db')
    ensures forall t :: t in db'.tasks ==> Kept(db, db', t)
  {
    forall t | t in db'.tasks ensures Kept(db, db', t) {
      if db'.log != db.log {
        var e: LogEntry :| NoChanges(e) && db'.log == db.log + [e];
        AppendKeeps(db, db', e, t);
      }
    }
    KeptTasksKeepTrails(db, db');
    KeptTasksKeepColumns(db, db');
  }

  lemma CreateKeepsForest(db: Db, db': Db, t: TaskId, project: ProjectId, fields: Fields,
                          parent: Option<TaskId>, actor: UserId, m: int)
    requires ForestInv(db) && t !in db.births && CreateError(db, project, fields, parent) == None
    requires db' == Created(db, t, project, fields, parent, actor, m)
    ensures ForestInv(db')
  {
    assert |db'.births| == |db.births| + 1;
    assert forall u :: u in db.tasks ==> db'.tasks[u] == db.tasks[u];
  }

  /** A new task starts with empty trails, and nobody else's trail changes. */
  lemma CreateStartsTrails(db: Db, db': Db, t: TaskId, project: ProjectId, fields: Fields,
                           parent: Option<TaskId>, actor: UserId, m: int)
    requires ForestInv(db) && ForestInv(db') && ReferencesLive(db) && TrailInv(db) && t !in db.births
    requires db' == Created(db, t, project, fields, parent, actor, m)
    ensures TrailInv(db') && LabelTrail(db'.log, t) == []
    ensures forall u :: u in db.tasks ==> Kept(db, db', u)
  {
    var e := LogEntry(Some(t), actor, TaskCreated, OfTask(t), map[], None, AssignedTo(fields.assignee));
    forall u | u in db.tasks ensures Kept(db, db', u) {
      AppendKeeps(db, db', e, u);
    }
    TrailUntouched(db.log, t);
    TrailAppend(db.log, e, t);
    forall u, f | u in db'.tasks ensures FieldTrailLinked(db', u, f) {
      if u != t {
        assert Kept(db, db', u) && FieldTrailLinked(db, u, f);
      }
    }
  }

  lemma CreateKeepsInv(db: Db, db': Db, t: TaskId, project: ProjectId, fields: Fields,
                       parent: Option<TaskId>, actor: UserId, m: int)
    requires Inv(db) && t !in db.births && CreateError(db, project, fields, parent) == None
    requires IsMaxPosition(db.tasks, project, fields.status, m)
    requires db' == Created(db, t, project, fields, parent, actor, m)
    ensures Inv(db')
    ensures forall u :: u in db.tasks ==> Kept(db, db', u)
    ensures LabelTrail(db'.log, t) == []
  {
    CreateKeepsForest(db, db', t, project, fields, parent, actor, m);
    CreateStartsTrails(db, db', t, project, fields, parent, actor, m);
    CreateKeepsColumns(db, db', t, project, fields, parent, actor, m);
    CreateKeepsRest(db, db', t, project, fields, parent, actor, m);
  }

  lemma CreateKeepsRest(db: Db, db': Db, t: TaskId, project: ProjectId, fields: Fields,
                        parent: Option<TaskId>, actor: UserId, m: int)
    requires LabelInv(db) && ReferencesLive(db) && db' == Created(db, t, project, fields, parent, actor, m)
    ensures LabelInv(db') && ReferencesLive(db')
  {
    assert forall u :: u in db.tasks && u != t ==> db'.tasks[u] == db.tasks[u];
  }

  /** The new task goes behind every task of its column. */
  lemma CreateKeepsColumns(db: Db, db': Db, t: TaskId, project: ProjectId, fields: Fields,
                           parent: Option<TaskId>, actor: UserId, m: int)
    requires ForestInv(db) && ForestInv(db') && ColumnInv(db) && t !in db.births
    requires IsMaxPosition(db.tasks, project, fields.status, m)
    requires db' == Created(db, t, project, fields, parent, actor, m)
    requires forall u :: u in db.tasks ==> Kept(db, db', u)
    ensures ColumnInv(db')
    ensures forall u :: u in db.tasks && InColumn(db.tasks[u], project, fields.status) ==>
      db'.tasks[u].position < db'.tasks[t].position
  {
    forall u | u in db.tasks ensures (NeverMoved(db', u) <==> NeverMoved(db, u)) && db'.tasks[u] == db.tasks[u] {
      assert Kept(db, db', u);
    }
    forall u, v | u in db'.tasks && v in db'.tasks && OlderInColumn(db', u, v)
      ensures db'.tasks[u].position < db'.tasks[v].position
    {
      if u != t && v != t {
        assert OlderInColumn(db, u, v);
      } else {
        assert v == t && u in db.tasks;
      }
    }
  }

  lemma DeleteKeepsTask(db: Db, db': Db, t: TaskId, actor: UserId, gone: set<TaskId>, u: TaskId)
    requires ForestInv(db) && db' == Deleted(db, t, actor, gone) && u in db'.tasks
    ensures Kept(db, db', u)
  {
    var e := LogEntry(None, actor, TaskDeleted, OfTask(t), map[], None, Nothing);
    TrailAppend(db.log, e, u);
    TrailDetached(db.log + [e], gone, u);
  }

  /** Deleting a whole subtree leaves no parent link dangling. */
  lemma DeleteKeepsForest(db: Db, db': Db, t: TaskId, actor: UserId)
    requires ForestInv(db) && t in db.tasks && db' == Deleted(db, t, actor, Subtree(db, t))
    ensures ForestInv(db')
  {
    forall u | u in db'.tasks && db'.tasks[u].parent.Some? ensures db'.tasks[u].parent.value in db'.tasks {
      assert !InSubtree(db, t, u);
    }
  }

  lemma DeleteKeepsReferences(db: Db, db': Db, t: TaskId, actor: UserId, gone: set<TaskId>)
    requires ReferencesLive(db) && db' == Deleted(db, t, actor, gone)
    ensures ReferencesLive(db')
    ensures LabelInv(db) ==> LabelInv(db')
  {
    var log := db.log + [LogEntry(None, actor, TaskDeleted, OfTask(t), map[], None, Nothing)];
    forall k | 0 <= k < |db'.log| && db'.log[k].task.Some? ensures db'.log[k].task.value in db'.tasks {
      assert db'.log[k].task == log[k].task;
    }
  }

  lemma DeleteKeepsInv(db: Db, db': Db, t: TaskId, actor: UserId)
    requires Inv(db) && t in db.tasks && db' == Deleted(db, t, actor, Cascade(db, t))
    ensures Inv(db')
    ensures forall u :: u in db'.tasks ==> Kept(db, db', u)
  {
    CascadeIsSubtree(db, t);
    DeleteKeepsForest(db, db', t, actor);
    DeleteKeepsReferences(db, db', t, actor, Cascade(db, t));
    forall u | u in db'.tasks ensures Kept(db, db', u) {
      DeleteKeepsTask(db, db', t, actor, Cascade(db, t), u);
    }
    KeptTasksKeepTrails(db, db');
    KeptTasksKeepColumns(db, db');
  }

  /** What an update does to its own task and to the log. */
  ghost predicate FieldsUpdated(db: Db, db': Db, t: TaskId, updates: map<Field, Value>) {
    && t in db.tasks && t in db.births && db'.births == db.births
    && db'.tasks.Keys == db.tasks.Keys
    && (forall u :: u in db.tasks && u != t ==> db'.tasks[u] == db.tasks[u])
    && db'.tasks[t] == db.tasks[t].(fields := db.tasks[t].fields.Merge(updates), labels := db'.tasks[t].labels)
    && if db'.log == db.log then Changes(db.tasks[t].fields, updates) == map[]
       else |db'.log| == |db.log| + 1 && db'.log == db.log + [db'.log[|db.log|]] &&
            db'.log[|db.log|].task == Some(t) &&
            db'.log[|db.log|].changes == Changes(db.tasks[t].fields, updates)
  }

  lemma UpdateIsFieldsUpdated(db: Db, db': Db, t: TaskId, updates: map<Field, Value>,
                              labelIds: Option<seq<LabelId>>, actor: UserId)
    requires ForestInv(db) && LabelsKnown(db) && UpdateError(db, t, updates, labelIds) == None
    requires db' == Updated(db, t, updates, labelIds, actor)
    ensures FieldsUpdated(db, db', t, updates)
  {
  }

  /** An update extends exactly the trails of the fields it changed. */
  lemma UpdateLinksTrail(db: Db, db': Db, t: TaskId, updates: map<Field, Value>, f: Field)
    requires FieldsUpdated(db, db', t, updates) && FieldTrailLinked(db, t, f)
    ensures FieldTrailLinked(db', t, f)
    ensures Trail(db'.log, t, f) == [] ==>
      Trail(db.log, t, f) == [] && db'.tasks[t].fields.Get(f) == db.tasks[t].fields.Get(f)
  {
    var fields := db.tasks[t].fields;
    var before, after := Trail(db.log, t, f), Trail(db'.log, t, f);
    UpdateExtendsTrail(db, db', t, updates, f);
    if f in Changes(fields, updates) {
      LinkedAppend(before, Str(db.births[t].fields.Get(f)), Str(fields.Get(f)),
                   Str(db'.tasks[t].fields.Get(f)), Str(db'.tasks[t].fields.Get(f)));
    } else {
      assert db'.tasks[t].fields.Get(f) == fields.Get(f);
    }
  }

  lemma UpdateExtendsTrail(db: Db, db': Db, t: TaskId, updates: map<Field, Value>, f: Field)
    requires FieldsUpdated(db, db', t, updates)
    ensures var fields := db.tasks[t].fields;
      Trail(db'.log, t, f) ==
        if f in Changes(fields, updates)
        then Trail(db.log, t, f) + [(Str(fields.Get(f)), Str(db'.tasks[t].fields.Get(f)))]
        else Trail(db.log, t, f)
  {
    if db'.log != db.log {
      TrailAppend(db.log, db'.log[|db.log|], t);
      assert Trail(db.log, t, f) + [] == Trail(db.log, t, f);
    }
  }

  lemma UpdateKeepsOthers(db: Db, db': Db, t: TaskId, updates: map<Field, Value>, u: TaskId)
    requires ForestInv(db) && FieldsUpdated(db, db', t, updates) && u in db.tasks && u != t
    ensures Kept(db, db', u)
  {
    if db'.log != db.log {
      AppendKeeps(db, db', db'.log[|db.log|], u);
    }
  }

  lemma UpdateKeepsTrails(db: Db, db': Db, t: TaskId, updates: map<Field, Value>)
    requires ForestInv(db) && ForestInv(db') && TrailInv(db) && FieldsUpdated(db, db', t, updates)
    ensures TrailInv(db')
  {
    forall u, f | u in db'.tasks ensures FieldTrailLinked(db', u, f) {
      assert FieldTrailLinked(db, u, f);
      if u == t {
        UpdateLinksTrail(db, db', t, updates, f);
      } else {
        UpdateKeepsOthers(db, db', t, updates, u);
      }
    }
  }

  /** An update leaves positions alone, so a task that stays in its column keeps its place. */
  lemma UpdateKeepsColumns(db: Db, db': Db, t: TaskId, updates: map<Field, Value>)
    requires ForestInv(db) && ForestInv(db') && ColumnInv(db) && FieldsUpdated(db, db', t, updates)
    requires FieldTrailLinked(db, t, Status)
    ensures ColumnInv(db')
  {
    forall u | u in db'.tasks && NeverMoved(db', u)
      ensures NeverMoved(db, u) && db'.tasks[u].fields.status == db.tasks[u].fields.status
    {
      if u != t {
        UpdateKeepsOthers(db, db', t, updates, u);
      } else {
        UpdateLinksTrail(db, db', t, updates, Status);
        assert db'.tasks[t].fields.Get(Status) == db.tasks[t].fields.Get(Status);
      }
    }
    forall u, v | u in db'.tasks && v in db'.tasks && OlderInColumn(db', u, v)
      ensures db'.tasks[u].position < db'.tasks[v].position
    {
      assert OlderInColumn(db, u, v);
    }
  }

  lemma UpdateKeepsLabels(db: Db, db': Db, t: TaskId, updates: map<Field, Value>, labelIds: Option<seq<LabelId>>,
                          actor: UserId)
    requires LabelInv(db) && UpdateError(db, t, updates, labelIds) == None
    requires db' == Updated(db, t, updates, labelIds, actor)
    ensures LabelInv(db')
  {
    var labels := db'.tasks[t].labels;
    assert Distinct(labels) && LabelsResolve(db, db.tasks[t].project, labels) by {
      if labelIds.Some? {
        RowsOf(labelIds.value);
        LoggedNamesAreStoredIffNoRepeats(db, db.tasks[t].project, labelIds.value);
      }
    }
    assert forall u :: u in db.tasks && u != t ==> db'.tasks[u] == db.tasks[u];
  }

  lemma UpdateKeepsForest(db: Db, db': Db, t: TaskId, updates: map<Field, Value>, labelIds: Option<seq<LabelId>>,
                          actor: UserId)
    requires ForestInv(db) && LabelsKnown(db) && UpdateError(db, t, updates, labelIds) == None
    requires db' == Updated(db, t, updates, labelIds, actor)
    ensures ForestInv(db')
    ensures ReferencesLive(db) ==> ReferencesLive(db')
  {
  }

  lemma UpdateKeepsInv(db: Db, db': Db, t: TaskId, updates: map<Field, Value>, labelIds: Option<seq<LabelId>>,
                       actor: UserId)
    requires Inv(db) && UpdateError(db, t, updates, labelIds) == None
    requires db' == Updated(db, t, updates, labelIds, actor)
    ensures Inv(db')
  {
    UpdateKeepsLabels(db, db', t, updates, labelIds, actor);
    UpdateIsFieldsUpdated(db, db', t, updates, labelIds, actor);
    UpdateKeepsForest(db, db', t, updates, labelIds, actor);
    assert FieldTrailLinked(db, t, Status);
    UpdateKeepsTrails(db, db', t, updates);
    UpdateKeepsColumns(db, db', t, updates);
  }

  predicate Quiet(call: Call) {
    !call.CreateTask? && !call.UpdateTask? && !call.DeleteTask?
  }

  lemma QuietCallShape(db: Db, call: Call)
    requires ForestInv(db) && LabelsKnown(db) && Quiet(call) && CallError(db, call) == None
    ensures var db' := After(db, call);
      && db'.tasks == db.tasks && db'.births == db.births
      && (db'.log == db.log ||
          (|db'.log| == |db.log| + 1 && db'.log == db.log + [db'.log[|db.log|]] && NoChanges(db'.log[|db.log|])))
  {
    var db' := After(db, call);
    match call
    case AddLabel(_, _, _, _) => assert db'.log == db.log + [db'.log[|db.log|]];
    case Attach(_, _, _, _) => assert db'.log == db.log + [db'.log[|db.log|]];
    case Unattach(_, _) => assert db'.log == db.log + [db'.log[|db.log|]];
    case Comment(_, _, _, _) => assert db'.log == db.log + [db'.log[|db.log|]];
    case AddUser(_, _) =>
    case AddMember(_, _) =>
  }

  lemma QuietCallKeepsLabels(db: Db, call: Call)
    requires ForestInv(db) && LabelInv(db)
    requires Quiet(call) && Fresh(db, call) && CallError(db, call) == None
    ensures LabelInv(After(db, call))
  {
  }

  lemma QuietCallKeepsReferences(db: Db, call: Call)
    requires ForestInv(db) && LabelsKnown(db) && ReferencesLive(db)
    requires Quiet(call) && CallError(db, call) == None
    ensures ReferencesLive(After(db, call))
  {
  }

  /** The calls that touch neither a task nor its trails. */
  lemma QuietCallsKeepInv(db: Db, call: Call)
    requires Inv(db) && Fresh(db, call) && CallError(db, call) == None && Quiet(call)
    ensures Inv(After(db, call))
    ensures forall t :: t in After(db, call).tasks ==> Kept(db, After(db, call), t)
  {
    QuietCallShape(db, call);
    QuietCallKeepsLabels(db, call);
    QuietCallKeepsReferences(db, call);
    QuietCallKeepsInv(db, After(db, call));
  }

  lemma AfterKeepsInv(db: Db, call: Call)
    requires Inv(db) && Fresh(db, call)
    ensures Inv(After(db, call))
  {
    if CallError(db, call) == None {
      match call
      case CreateTask(t, project, fields, parent, actor) =>
        CreateKeepsInv(db, After(db, call), t, project, fields, parent, actor,
                       MaxPosition(db.tasks, project, fields.status));
      case UpdateTask(t, updates, labelIds, actor) =>
        UpdateKeepsInv(db, After(db, call), t, updates, labelIds, actor);
      case DeleteTask(t, actor) => DeleteKeepsInv(db, After(db, call), t, actor);
      case _ =>
      QuietCallsKeepInv(db, call);
    }
  }

  /** The committed state after a run of calls, None if some identifier was not fresh. After every run
      the parent links form a forest inside each project, every reference is live, each field's
      logged changes link up from its creation value to its current one, and tasks that never left
      their column stand in creation order. */
  ghost function AfterRun(calls: seq<Call>): (r: Option<Db>)
    ensures r.Some? ==> Inv(r.value)
    decreases |calls|
  {
    if calls == [] then
      assert Inv(EMPTY);
      Some(EMPTY)
    else
      var r, call := AfterRun(calls[..|calls| - 1]), calls[|calls| - 1];
      if r.Some? && Fresh(r.value, call) then
        AfterKeepsInv(r.value, call);
        Some(After(r.value, call))
      else None
  }

  /** A new task stands behind every other task of its column. */
  lemma NewTaskGoesLast(db: Db, call: Call, u: TaskId)
    requires Inv(db) && Fresh(db, call) && call.CreateTask? && CallError(db, call) == None
    ensures var db' := After(db, call);
      var task := db'.tasks[call.t];
      u in db'.tasks && u != call.t && InColumn(db'.tasks[u], call.project, call.fields.status) ==>
        InColumn(task, call.project, call.fields.status) && db'.tasks[u].position < task.position
  {
    assert IsMaxPosition(db.tasks, call.project, call.fields.status,
                         MaxPosition(db.tasks, call.project, call.fields.status));
  }

  /** Every task has its required columns, and nobody or a member of its project as assignee. */
  ghost predicate RowsValid(db: Db) {
    forall t :: t in db.tasks ==>
      db.tasks[t].fields.Storable() && MayAssign(db, db.tasks[t].project, db.tasks[t].fields.assignee)
  }

  lemma UpdatedRowValid(db: Db, t: TaskId, updates: map<Field, Value>, labelIds: Option<seq<LabelId>>)
    requires RowsValid(db) && UpdateError(db, t, updates, labelIds) == None
    ensures var fields := db.tasks[t].fields.Merge(updates);
      fields.Storable() && MayAssign(db, db.tasks[t].project, fields.assignee)
  {
    assert db.tasks[t].fields.Merge(updates).Get(Assignee) ==
      if Assignee in updates then updates[Assignee] else db.tasks[t].fields.Get(Assignee);
  }

  lemma RowsValidStep(db: Db, call: Call)
    requires ForestInv(db) && LabelsKnown(db) && RowsValid(db)
    ensures RowsValid(After(db, call))
  {
    if CallError(db, call) == None {
      if Quiet(call) {
        QuietCallShape(db, call);
        MembersGrow(db, call);
      } else {
        TaskCallKeepsRowsValid(db, call);
      }
    }
  }

  lemma MembersGrow(db: Db, call: Call)
    requires ForestInv(db) && LabelsKnown(db)
    ensures db.members <= After(db, call).members
  {
  }

  lemma TaskCallKeepsRowsValid(db: Db, call: Call)
    requires ForestInv(db) && LabelsKnown(db) && RowsValid(db) && !Quiet(call) && CallError(db, call) == None
    ensures RowsValid(After(db, call))
  {
    if call.UpdateTask? {
      UpdateKeepsRowsValid(db, call);
    }
  }

  lemma UpdateKeepsRowsValid(db: Db, call: Call)
    requires ForestInv(db) && LabelsKnown(db) && RowsValid(db) && call.UpdateTask? && CallError(db, call) == None
    ensures RowsValid(After(db, call))
  {
    UpdatedRowValid(db, call.t, call.updates, call.labelIds);
  }

  lemma {:induction false} RowsValidHolds(calls: seq<Call>)
    requires AfterRun(calls).Some?
    ensures RowsValid(AfterRun(calls).value)
    decreases |calls|
  {
    if calls != [] {
      RowsValidHolds(calls[..|calls| - 1]);
      RowsValidStep(AfterRun(calls[..|calls| - 1]).value, calls[|calls| - 1]);
    }
  }

  /** In every run an assignee is a member of the task's project, and required columns are never null. */
  lemma AssigneesAreMembers(calls: seq<Call>, t: TaskId)
    requires AfterRun(calls).Some? && t in AfterRun(calls).value.tasks
    ensures var db := AfterRun(calls).value;
      var task := db.tasks[t];
      && task.fields.title != Null && task.fields.status != Null && task.fields.priority != Null
      && !task.fields.assignee.Text?
      && (task.fields.assignee.User? ==> (task.project, task.fields.assignee.user) in db.members)
  {
    RowsValidHolds(calls);
  }

  // ----- the label trail -----

  /** New labels do not change the names of old ones. */
  lemma NamesStable(labels: map<LabelId, Label>, labels': map<LabelId, Label>, ids: seq<LabelId>)
    requires forall k :: 0 <= k < |ids| ==> ids[k] in labels
    requires forall l :: l in labels ==> l in labels' && labels'[l] == labels[l]
    ensures Names(labels', ids) == Names(labels, ids)
  {
    assert seq(|ids|, k requires 0 <= k < |ids| => labels'[ids[k]].name) ==
           seq(|ids|, k requires 0 <= k < |ids| => labels[ids[k]].name);
  }

  lemma KeptTaskKeepsLabelTrail(db: Db, db': Db, t: TaskId)
    requires LabelsKnown(db) && LabelsKnown(db') && Kept(db, db', t)
    requires forall l :: l in db.labels ==> l in db'.labels && db'.labels[l] == db.labels[l]
    ensures LabelTrailLinked(db', t) <==> LabelTrailLinked(db, t)
  {
    NamesStable(db.labels, db'.labels, db.tasks[t].labels);
  }

  lemma UpdateExtendsLabelTrail(db: Db, db': Db, t: TaskId, updates: map<Field, Value>,
                                labelIds: Option<seq<LabelId>>, actor: UserId)
    requires LabelsKnown(db) && UpdateError(db, t, updates, labelIds) == None
    requires db' == Updated(db, t, updates, labelIds, actor)
    ensures var change := LabelChange(db, t, labelIds);
      LabelTrail(db'.log, t) == if change.Some? then LabelTrail(db.log, t) + [change.value] else LabelTrail(db.log, t)
  {
    if db'.log != db.log {
      TrailAppend(db.log, db'.log[|db.log|], t);
    } else {
      assert LabelTrail(db.log, t) + [] == LabelTrail(db.log, t);
    }
  }

  /** A trail of names goes on linking through a new label list if and only if the list has no repeats. */
  lemma RelabellingLinks(db: Db, project: ProjectId, stored: seq<LabelId>, ids: seq<LabelId>,
                         trail: seq<(multiset<string>, multiset<string>)>, first: multiset<string>)
    requires LabelInv(db) && LabelsResolve(db, project, stored) && LabelsResolve(db, project, ids)
    requires Distinct(stored)
    ensures LabelsResolve(db, project, Rows(ids))
    ensures var before, logged := Names(db.labels, stored), Names(db.labels, ids);
      var trail' := if before != logged then trail + [(before, logged)] else trail;
      Linked(trail', first, Names(db.labels, Rows(ids))) <==> Linked(trail, first, before) && Distinct(ids)
  {
    LoggedNamesAreStoredIffNoRepeats(db, project, ids);
    var before, logged := Names(db.labels, stored), Names(db.labels, ids);
    LinkedAppend(trail, first, before, logged, Names(db.labels, Rows(ids)));
    if before == logged {
      RepeatsNeverMatch(db, project, stored, ids);
    }
  }

  /** An update keeps the trail of label names linked if and only if it repeats no label id. */
  lemma UpdateLinksLabelTrail(db: Db, db': Db, t: TaskId, updates: map<Field, Value>,
                              labelIds: Option<seq<LabelId>>, actor: UserId)
    requires LabelInv(db) && UpdateError(db, t, updates, labelIds) == None
    requires db' == Updated(db, t, updates, labelIds, actor)
    ensures LabelsKnown(db')
    ensures LabelTrailLinked(db', t) <==> LabelTrailLinked(db, t) && (labelIds.Some? ==> Distinct(labelIds.value))
  {
    UpdateKeepsLabels(db, db', t, updates, labelIds, actor);
    UpdateExtendsLabelTrail(db, db', t, updates, labelIds, actor);
    LabelsAfterUpdate(db, db', t, updates, labelIds, actor);
    var task, trail := db.tasks[t], LabelTrail(db.log, t);
    if labelIds.Some? {
      RelabellingLinks(db, task.project, task.labels, labelIds.value, trail, multiset{});
      assert LabelTrail(db'.log, t) ==
        if LabelChange(db, t, labelIds).Some? then trail + [LabelChange(db, t, labelIds).value] else trail;
    } else {
      assert LabelTrail(db'.log, t) == trail;
    }
  }

  lemma LabelsAfterUpdate(db: Db, db': Db, t: TaskId, updates: map<Field, Value>,
                          labelIds: Option<seq<LabelId>>, actor: UserId)
    requires UpdateError(db, t, updates, labelIds) == None
    requires LabelsResolve(db, db.tasks[t].project, db.tasks[t].labels)
    requires db' == Updated(db, t, updates, labelIds, actor)
    ensures t in db'.tasks && db'.labels == db.labels
    ensures db'.tasks[t].labels == if labelIds.Some? then Rows(labelIds.value) else db.tasks[t].labels
  {
  }

  lemma NewTaskLabelTrail(db: Db, call: Call)
    requires ForestInv(db) && ReferencesLive(db) && LabelsKnown(db)
    requires call.CreateTask? && Fresh(db, call) && CallError(db, call) == None
    requires LabelsKnown(After(db, call))
    ensures LabelTrailLinked(After(db, call), call.t)
  {
    var e := LogEntry(Some(call.t), call.actor, TaskCreated, OfTask(call.t), map[], None,
                      AssignedTo(call.fields.assignee));
    TrailUntouched(db.log, call.t);
    TrailAppend(db.log, e, call.t);
    assert After(db, call).log == db.log + [e];
    NameListed(db.labels, [], "");
    assert After(db, call).labels == db.labels && After(db, call).tasks[call.t].labels == [];
  }

  lemma OtherTaskLabelTrail(db: Db, call: Call, t: TaskId)
    requires Inv(db) && Fresh(db, call) && CallError(db, call) == None
    requires !((call.UpdateTask? || call.CreateTask?) && call.t == t)
    requires LabelsKnown(After(db, call)) && t in After(db, call).tasks
    ensures t in db.tasks && (LabelTrailLinked(After(db, call), t) <==> LabelTrailLinked(db, t))
  {
    OtherTasksKept(db, call, t);
    LabelsOnlyGrow(db, call);
    KeptTaskKeepsLabelTrail(db, After(db, call), t);
  }

  lemma UpdatedTaskLabelTrail(db: Db, call: Call)
    requires ForestInv(db) && LabelInv(db) && call.UpdateTask? && CallError(db, call) == None
    ensures LabelsKnown(After(db, call))
    ensures LabelTrailLinked(After(db, call), call.t) <==>
      LabelTrailLinked(db, call.t) && (call.labelIds.Some? ==> Distinct(call.labelIds.value))
  {
    UpdateLinksLabelTrail(db, After(db, call), call.t, call.updates, call.labelIds, call.actor);
  }

  /** The call is an update of the task that succeeds although it repeats a label id. */
  ghost predicate RepeatsLabelOf(db: Db, call: Call, t: TaskId) {
    call.UpdateTask? && call.t == t && CallError(db, call) == None &&
    call.labelIds.Some? && !Distinct(call.labelIds.value)
  }

  lemma LabelTrailStep(db: Db, call: Call, t: TaskId)
    requires Inv(db) && Fresh(db, call) && t in After(db, call).tasks && LabelsKnown(After(db, call))
    ensures call.CreateTask? && call.t == t ==> LabelTrailLinked(After(db, call), t)
    ensures !(call.CreateTask? && call.t == t) ==>
      t in db.tasks &&
      (LabelTrailLinked(After(db, call), t) <==> LabelTrailLinked(db, t) && !RepeatsLabelOf(db, call, t))
  {
    if CallError(db, call) == None {
      if call.CreateTask? && call.t == t {
        NewTaskLabelTrail(db, call);
      } else if call.UpdateTask? && call.t == t {
        UpdatedTaskLabelTrail(db, call);
      } else {
        OtherTaskLabelTrail(db, call, t);
      }
    }
  }

  lemma LabelsOnlyGrow(db: Db, call: Call)
    requires ForestInv(db) && LabelsKnown(db) && Fresh(db, call)
    ensures forall l :: l in db.labels ==> l in After(db, call).labels && After(db, call).labels[l] == db.labels[l]
  {
  }

  lemma OtherTasksKept(db: Db, call: Call, t: TaskId)
    requires Inv(db) && Fresh(db, call) && CallError(db, call) == None
    requires t in After(db, call).tasks && !((call.UpdateTask? || call.CreateTask?) && call.t == t)
    ensures Kept(db, After(db, call), t)
  {
    match call
    case CreateTask(u, project, fields, parent, actor) =>
      CreateKeepsInv(db, After(db, call), u, project, fields, parent, actor,
                     MaxPosition(db.tasks, project, fields.status));
    case UpdateTask(u, updates, labelIds, actor) =>
      UpdateIsFieldsUpdated(db, After(db, call), u, updates, labelIds, actor);
      UpdateKeepsOthers(db, After(db, call), u, updates, t);
    case DeleteTask(u, actor) => DeleteKeepsInv(db, After(db, call), u, actor);
    case _ =>
      QuietCallsKeepInv(db, call);
  }

  /** Some update of the task in the run succeeded although it repeated a label id. */
  ghost predicate RepeatedLabelOf(calls: seq<Call>, t: TaskId)
    requires AfterRun(calls).Some?
    decreases |calls|
  {
    calls != [] &&
    var init, call := calls[..|calls| - 1], calls[|calls| - 1];
    RepeatedLabelOf(init, t) || RepeatsLabelOf(AfterRun(init).value, call, t)
  }

  lemma BirthsStay(db: Db, call: Call, t: TaskId)
    requires ForestInv(db) && LabelsKnown(db) && t in db.births
    ensures t in After(db, call).births
  {
  }

  lemma {:induction false} RepeatedMeansBorn(calls: seq<Call>, t: TaskId)
    requires AfterRun(calls).Some? && RepeatedLabelOf(calls, t)
    ensures t in AfterRun(calls).value.births
    decreases |calls|
  {
    var init, call := calls[..|calls| - 1], calls[|calls| - 1];
    if RepeatedLabelOf(init, t) {
      RepeatedMeansBorn(init, t);
    }
    BirthsStay(AfterRun(init).value, call, t);
  }

  /** Over every run, the logged label changes of a live task link up, from the empty list it was created
      with to the names it has now, if and only if no successful update of it repeated a label id. */
  lemma {:induction false} LabelTrailLinksIffNoRepeats(calls: seq<Call>, t: TaskId)
    requires AfterRun(calls).Some? && t in AfterRun(calls).value.tasks
    ensures LabelTrailLinked(AfterRun(calls).value, t) <==> !RepeatedLabelOf(calls, t)
    decreases |calls|
  {
    var init, call := calls[..|calls| - 1], calls[|calls| - 1];
    var db := AfterRun(init).value;
    LabelTrailStep(db, call, t);
    if call.CreateTask? && call.t == t {
      if RepeatedLabelOf(init, t) {
        RepeatedMeansBorn(init, t);
      }
    } else {
      LabelTrailLinksIffNoRepeats(init, t);
    }
  }

  // ----- a move keeps the position -----

  ghost predicate Reachable(db: Db) {
    exists calls :: AfterRun(calls) == Some(db)
  }

  lemma ExtendRun(calls: seq<Call>, call: Call)
    requires AfterRun(calls).Some? && Fresh(AfterRun(calls).value, call)
    ensures AfterRun(calls + [call]) == Some(After(AfterRun(calls).value, call))
  {
    assert (calls + [call])[..|calls|] == calls;
  }

  lemma Extend(db: Db, call: Call)
    requires Reachable(db) && Fresh(db, call)
    ensures ForestInv(db) && LabelsKnown(db) && Reachable(After(db, call))
  {
    var calls :| AfterRun(calls) == Some(db);
    ExtendRun(calls, call);
  }

  lemma EmptyColumnStartsAtZero(tasks: map<TaskId, Task>, project: ProjectId, status: Value)
    requires forall u :: u in tasks ==> !InColumn(tasks[u], project, status)
    ensures MaxPosition(tasks, project, status) == 0
  {
    assert IsMaxPosition(tasks, project, status, MaxPosition(tasks, project, status));
  }

  lemma FirstInColumn(db: Db, call: Call)
    requires ForestInv(db) && LabelsKnown(db) && call.CreateTask? && CallError(db, call) == None
    requires forall u :: u in db.tasks ==> !InColumn(db.tasks[u], call.project, call.fields.status)
    ensures After(db, call).tasks ==
      db.tasks[call.t := Task(call.project, call.fields, call.parent, call.actor, 1, [])]
    ensures After(db, call).births.Keys == db.births.Keys + {call.t}
    ensures After(db, call).labels == db.labels && After(db, call).attachments == db.attachments
  {
    EmptyColumnStartsAtZero(db.tasks, call.project, call.fields.status);
    assert After(db, call) == Created(db, call.t, call.project, call.fields, call.parent, call.actor, 0);
  }

  lemma MoveKeepsPosition(db: Db, t: TaskId, status: Value, actor: UserId)
    requires ForestInv(db) && LabelsKnown(db)
    requires t in db.tasks && db.tasks[t].fields.Storable() && status != Null
    ensures var db' := After(db, UpdateTask(t, map[Status := status], None, actor));
      && t in db'.tasks && InColumn(db'.tasks[t], db.tasks[t].project, status)
      && db'.tasks[t].position == db.tasks[t].position
      && forall u :: u in db.tasks && u != t ==> u in db'.tasks && db'.tasks[u] == db.tasks[u]
  {
    assert db.tasks[t].fields.Merge(map[Status := status]).Get(Status) == status;
  }

  function Card(status: string): Fields {
    Fields(Text("a"), Null, Text(status), Text("low"), Null, Null)
  }

  lemma OneTask(t: TaskId) returns (db: Db)
    ensures Reachable(db) && db.births.Keys == {t} && db.labels == map[] && db.attachments == map[]
    ensures db.tasks == map[t := Task(ProjectId(0), Card("todo"), None, UserId(0), 1, [])]
  {
    var call := CreateTask(t, ProjectId(0), Card("todo"), None, UserId(0));
    assert AfterRun([]) == Some(EMPTY) && Reachable(EMPTY);
    Extend(EMPTY, call);
    FirstInColumn(EMPTY, call);
    db := After(EMPTY, call);
  }

  lemma TwoTasks(t: TaskId, u: TaskId) returns (db: Db)
    requires t != u
    ensures Reachable(db)
    ensures db.tasks == map[t := Task(ProjectId(0), Card("todo"), None, UserId(0), 1, []),
                            u := Task(ProjectId(0), Card("done"), None, UserId(0), 1, [])]
  {
    db := OneTask(t);
    var call := CreateTask(u, ProjectId(0), Card("done"), None, UserId(0));
    assert "todo"[0] != "done"[0];
    Extend(db, call);
    FirstInColumn(db, call);
    db := After(db, call);
  }

  /** Positions follow creation only among tasks that never moved: a task that moves keeps its position
      and may tie with one already in its new column. */
  lemma MovedTasksMayTie() returns (db: Db, t: TaskId, u: TaskId)
    ensures Reachable(db) && t in db.tasks && u in db.tasks && t != u
    ensures InColumn(db.tasks[t], db.tasks[u].project, db.tasks[u].fields.status)
    ensures db.tasks[t].position == db.tasks[u].position
  {
    t, u := TaskId(1), TaskId(2);
    db := TwoTasks(t, u);
    var move := UpdateTask(u, map[Status := Text("todo")], None, UserId(0));
    Extend(db, move);
    MoveKeepsPosition(db, u, Text("todo"), UserId(0));
    db := After(db, move);
  }

  // ----- a repeated label -----

  /** An update that gives labels only. */
  lemma OnlyRelabels(db: Db, t: TaskId, ids: seq<LabelId>, actor: UserId)
    requires t in db.tasks && db.tasks[t].fields.Storable()
    requires LabelsResolve(db, db.tasks[t].project, db.tasks[t].labels)
    requires LabelsResolve(db, db.tasks[t].project, ids) && !InsertsRowTwice(db.tasks[t].labels, ids)
    ensures UpdateError(db, t, map[], Some(ids)) == None
    ensures var db' := Updated(db, t, map[], Some(ids), actor);
      db'.tasks == db.tasks[t := db.tasks[t].(labels := Rows(ids))] && db'.labels == db.labels
  {
    SameFields(db.tasks[t].fields.Merge(map[]), db.tasks[t].fields);
  }

  lemma Relabel(db: Db, t: TaskId, ids: seq<LabelId>) returns (db': Db)
    requires Reachable(db) && t in db.tasks && db.tasks[t].fields.Storable() && db.tasks[t].labels == []
    requires LabelsResolve(db, db.tasks[t].project, ids) && Distinct(ids)
    ensures Reachable(db')
    ensures db'.tasks == db.tasks[t := db.tasks[t].(labels := ids)] && db'.labels == db.labels
  {
    var call := UpdateTask(t, map[], Some(ids), UserId(0));
    Extend(db, call);
    OnlyRelabels(db, t, ids, UserId(0));
    RowsOf(ids);
    db' := After(db, call);
  }

  lemma AddFirstLabel(db: Db, l: LabelId, project: ProjectId) returns (db': Db)
    requires Reachable(db) && db.labels == map[]
    ensures Reachable(db') && db'.labels == map[l := Label(project, "urgent")] && db'.tasks == db.tasks
  {
    var call := AddLabel(l, project, "urgent", UserId(0));
    Extend(db, call);
    db' := After(db, call);
  }

  lemma RepeatedPair(l: LabelId)
    ensures !Distinct([l, l]) && Rows([l, l]) == [l] && !InsertsRowTwice([l], [l, l])
  {
    var ids := [l, l];
    assert ids[0] == ids[1] && ids[..1] == [l] && Rows([l]) == [l];
    assert forall k :: 0 <= k < |ids| ==> ids[k] in [l];
  }

  lemma RepeatIsLogged(db: Db, t: TaskId, ids: seq<LabelId>)
    requires LabelInv(db) && UpdateError(db, t, map[], Some(ids)) == None && !Distinct(ids)
    ensures Updated(db, t, map[], Some(ids), UserId(0)).log != db.log
  {
    EntryIffSomethingChanged(db, t, map[], Some(ids), UserId(0));
  }

  /** Repeating the one label a task has succeeds, leaves the task as it was, and is logged. */
  lemma RepeatChangesNothing(db: Db, t: TaskId, l: LabelId)
    requires LabelInv(db) && t in db.tasks && db.tasks[t].fields.Storable() && db.tasks[t].labels == [l]
    ensures UpdateError(db, t, map[], Some([l, l])) == None
    ensures var db' := Updated(db, t, map[], Some([l, l]), UserId(0));
      db'.tasks == db.tasks && db'.log != db.log
  {
    RepeatedPair(l);
    RepeatResolves(db, db.tasks[t].project, l);
    OnlyRelabels(db, t, [l, l], UserId(0));
    RepeatIsLogged(db, t, [l, l]);
    assert db.tasks[t := db.tasks[t].(labels := [l])] == db.tasks;
  }

  lemma RepeatResolves(db: Db, project: ProjectId, l: LabelId)
    requires LabelsResolve(db, project, [l])
    ensures LabelsResolve(db, project, [l, l])
  {
    assert [l][0] == l;
  }

  /** A reachable update that repeats an attached label: it succeeds, leaves the task as it was, and logs
      a change of names that did not happen. */
  lemma RepeatedLabelLogsNoChange() returns (db: Db, t: TaskId, ids: seq<LabelId>)
    ensures Reachable(db) && LabelsKnown(db)
    ensures UpdateError(db, t, map[], Some(ids)) == None && !Distinct(ids)
    ensures var db' := Updated(db, t, map[], Some(ids), UserId(0));
      db'.tasks == db.tasks && db'.log != db.log
  {
    var l := LabelId(0);
    t, ids := TaskId(0), [l, l];
    db := OneTask(t);
    db := AddFirstLabel(db, l, ProjectId(0));
    db := Relabel(db, t, [l]);
    ReachableMeansInv(db);
    RepeatedPair(l);
    RepeatChangesNothing(db, t, l);
  }

  lemma ReachableMeansInv(db: Db)
    requires Reachable(db)
    ensures Inv(db)
  {
    var calls :| AfterRun(calls) == Some(db);
  }
}
