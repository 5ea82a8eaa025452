/** What deleting a task leaves behind in the object store
    (backend/app/services/task_service.py, `delete_task`). */
module OrphanedObjects {
  import opened Common
  import opened TaskStore
  import opened TaskHistory
  import opened TaskInvariants

  ghost predicate KeysUnique(db: Db) {
    forall a, b | a in db.attachments && b in db.attachments ::
      db.attachments[a].key == db.attachments[b].key ==> a == b
  }

  function KeysOf(db: Db, tasks: set<TaskId>): set<string> {
    set a | a in db.attachments && db.attachments[a].task in tasks :: db.attachments[a].key
  }

  function AllKeys(db: Db): set<string> {
    set a | a in db.attachments :: db.attachments[a].key
  }

  /** The objects no attachment row points to. */
  function Orphans(db: Db, objects: set<string>): set<string> {
    objects - AllKeys(db)
  }

  /** Deleting a task removes the objects of its own attachments and the rows of its whole subtree.
      The objects newly left without a row are exactly those of its proper descendants. */
  lemma DeleteOrphansDescendants(db: Db, t: TaskId, actor: UserId, objects: set<string>)
    requires ForestInv(db) && KeysUnique(db) && t in db.tasks && AllKeys(db) <= objects
    ensures var db' := Deleted(db, t, actor, Cascade(db, t));
      var objects' := objects - KeysOf(db, {t});
      && AllKeys(db') <= objects'
      && Orphans(db', objects') - Orphans(db, objects) == KeysOf(db, Subtree(db, t) - {t})
  {
    CascadeIsSubtree(db, t);
    var db' := Deleted(db, t, actor, Cascade(db, t));
    forall k ensures k in AllKeys(db') <==> k in AllKeys(db) && k !in KeysOf(db, Subtree(db, t)) {
      if k in AllKeys(db) && k !in KeysOf(db, Subtree(db, t)) {
        var a :| a in db.attachments && db.attachments[a].key == k;
        assert a in db'.attachments;
      }
      if k in AllKeys(db') {
        var a :| a in db'.attachments && db'.attachments[a].key == k;
        assert a in db.attachments && db.attachments[a].task !in Subtree(db, t);
      }
    }
    assert InSubtree(db, t, t) && t in Subtree(db, t);
    forall k ensures k in KeysOf(db, Subtree(db, t)) <==>
      k in KeysOf(db, {t}) || k in KeysOf(db, Subtree(db, t) - {t}) {}
  }

  lemma NoKeysIffNoRows(db: Db, tasks: set<TaskId>)
    ensures KeysOf(db, tasks) == {} <==> forall a :: a in db.attachments ==> db.attachments[a].task !in tasks
  {
    forall a | a in db.attachments && db.attachments[a].task in tasks
      ensures db.attachments[a].key in KeysOf(db, tasks) {}
  }

  lemma InsideIffNothingBeyond(a: set<string>, b: set<string>)
    ensures a <= b <==> a - b == {}
  {
    if a - b == {} {
      forall x | x in a ensures x in b {
        assert x !in a - b;
      }
    }
  }

  /** So a delete orphans nothing exactly when no proper descendant has an attachment. */
  lemma DeleteIsCleanIffDescendantsHaveNoFiles(db: Db, t: TaskId, actor: UserId, objects: set<string>)
    requires ForestInv(db) && KeysUnique(db) && t in db.tasks && AllKeys(db) <= objects
    ensures Orphans(Deleted(db, t, actor, Cascade(db, t)), objects - KeysOf(db, {t})) <= Orphans(db, objects) <==>
      forall a :: a in db.attachments ==> db.attachments[a].task !in Subtree(db, t) - {t}
  {
    DeleteOrphansDescendants(db, t, actor, objects);
    InsideIffNothingBeyond(Orphans(Deleted(db, t, actor, Cascade(db, t)), objects - KeysOf(db, {t})),
                           Orphans(db, objects));
    NoKeysIffNoRows(db, Subtree(db, t) - {t});
  }

  lemma SubtaskAdded(db: Db, t: TaskId, u: TaskId)
    requires ForestInv(db) && LabelsKnown(db) && t in db.tasks && u !in db.births
    requires db.tasks[t].project == ProjectId(0)
    ensures var db' := After(db, CreateTask(u, ProjectId(0), Card("todo"), Some(t), UserId(0)));
      && db'.tasks.Keys == db.tasks.Keys + {u} && db'.tasks[u].parent == Some(t)
      && db'.attachments == db.attachments
  {
  }

  lemma TaskWithSubtask(t: TaskId, u: TaskId) returns (db: Db)
    requires t != u
    ensures Reachable(db) && db.attachments == map[]
    ensures db.tasks.Keys == {t, u} && db.tasks[u].parent == Some(t)
  {
    db := OneTask(t);
    ReachableMeansInv(db);
    var call := CreateTask(u, ProjectId(0), Card("todo"), Some(t), UserId(0));
    SubtaskAdded(db, t, u);
    Extend(db, call);
    db := After(db, call);
  }

  /** A reachable database in which deleting a task orphans the file of its subtask. */
  lemma SubtaskFileIsOrphaned() returns (db: Db, t: TaskId, key: string)
    ensures Reachable(db) && ForestInv(db) && t in db.tasks && key in AllKeys(db)
    ensures var objects := AllKeys(db);
      key in Orphans(Deleted(db, t, UserId(0), Cascade(db, t)), objects - KeysOf(db, {t}))
  {
    var u, a := TaskId(1), AttachmentId(0);
    t, key := TaskId(0), "k";
    db := TaskWithSubtask(t, u);
    var call := Attach(a, u, key, UserId(0));
    Extend(db, call);
    db := After(db, call);
    ReachableMeansInv(db);
    assert InSubtree(db, t, t) && InSubtree(db, t, u);
    assert db.attachments[a].key == key && u in Subtree(db, t) - {t};
    assert key in KeysOf(db, Subtree(db, t) - {t}) && key in AllKeys(db);
    DeleteOrphansDescendants(db, t, UserId(0), AllKeys(db));
  }
}
