/** Uploads, attachment deletes and task deletes running side by side over two stores, the committed
    rows and the object store, any of them stopping for good at any point
    (backend/app/services/attachment_service.py, backend/app/services/task_service.py). */
module AttachmentStores {
  import opened Common

  datatype RequestId = RequestId(id: nat)
  datatype Key = Key(id: nat)
  datatype Row = Row(task: TaskId, key: Key)

  datatype UploadStage = Validated | Stored | Saved
  datatype RemoveStage = Loaded | RowGone | ObjectGone

  /** A request and how far it got. `erased` are the objects a task delete has deleted so far, `swept`
      the keys of the rows its commit removed. */
  datatype Request =
    | Upload(a: AttachmentId, row: Row, up: UploadStage)
    | Remove(a: AttachmentId, row: Row, down: RemoveStage)
    | Drop(task: TaskId, listed: set<Key>, erased: set<Key>, committed: bool, swept: set<Key>)

  datatype State = State(
    tasks: set<TaskId>, rows: map<AttachmentId, Row>, objects: set<Key>,
    requests: map<RequestId, Request>, stopped: set<RequestId>)

  const INIT := State({}, map[], {}, map[], {})

  datatype Action =
    | NewTask(t: TaskId)
    | BeginUpload(r: RequestId, a: AttachmentId, row: Row)
    | PutObject(r: RequestId)
    | CommitUpload(r: RequestId)
    | BeginRemove(r: RequestId, a: AttachmentId)
    | CommitRemove(r: RequestId)
    | DeleteObject(r: RequestId)
    | BeginDrop(r: RequestId, t: TaskId)
    | DeleteListed(r: RequestId, key: Key)
    | CommitDrop(r: RequestId, gone: set<TaskId>)
    | Stop(r: RequestId)

  function Keys(rows: map<AttachmentId, Row>, tasks: set<TaskId>): set<Key> {
    set a | a in rows && rows[a].task in tasks :: rows[a].key
  }

  predicate Running(s: State, r: RequestId) {
    r in s.requests && r !in s.stopped
  }

  /** Attachment ids and storage keys are fresh UUIDs. */
  ghost predicate Unused(s: State, a: AttachmentId, key: Key) {
    forall r :: r in s.requests && s.requests[r].Upload? ==> s.requests[r].a != a && s.requests[r].row.key != key
  }

  /** Both commits that log against the task need it to be there still. */
  ghost predicate Enabled(s: State, a: Action) {
    match a
    case NewTask(t) => t !in s.tasks
    case BeginUpload(r, a, row) => r !in s.requests && row.task in s.tasks && Unused(s, a, row.key)
    case PutObject(r) => Running(s, r) && s.requests[r].Upload? && s.requests[r].up == Validated
    case CommitUpload(r) =>
      Running(s, r) && s.requests[r].Upload? && s.requests[r].up == Stored && s.requests[r].row.task in s.tasks
    case BeginRemove(r, a) => r !in s.requests && a in s.rows
    case CommitRemove(r) =>
      Running(s, r) && s.requests[r].Remove? && s.requests[r].down == Loaded && s.requests[r].row.task in s.tasks
    case DeleteObject(r) => Running(s, r) && s.requests[r].Remove? && s.requests[r].down == RowGone
    case BeginDrop(r, t) => r !in s.requests && t in s.tasks
    case DeleteListed(r, key) =>
      Running(s, r) && s.requests[r].Drop? && key in s.requests[r].listed - s.requests[r].erased
    case CommitDrop(r, gone) =>
      Running(s, r) && s.requests[r].Drop? && !s.requests[r].committed &&
      s.requests[r].erased == s.requests[r].listed && s.requests[r].task in gone
    case Stop(r) => Running(s, r)
  }

  /** A task delete's commit removes the rows its tasks have at that moment; `gone` stands for the
      subtree of its task. */
  function Apply(s: State, a: Action): State
    requires Enabled(s, a)
  {
    match a
    case NewTask(t) => s.(tasks := s.tasks + {t})
    case BeginUpload(r, a, row) => s.(requests := s.requests[r := Upload(a, row, Validated)])
    case PutObject(r) =>
      s.(objects := s.objects + {s.requests[r].row.key}, requests := s.requests[r := s.requests[r].(up := Stored)])
    case CommitUpload(r) =>
      s.(rows := s.rows[s.requests[r].a := s.requests[r].row],
         requests := s.requests[r := s.requests[r].(up := Saved)])
    case BeginRemove(r, a) => s.(requests := s.requests[r := Remove(a, s.rows[a], Loaded)])
    case CommitRemove(r) =>
      s.(rows := s.rows - {s.requests[r].a}, requests := s.requests[r := s.requests[r].(down := RowGone)])
    case DeleteObject(r) =>
      s.(objects := s.objects - {s.requests[r].row.key},
         requests := s.requests[r := s.requests[r].(down := ObjectGone)])
    case BeginDrop(r, t) => s.(requests := s.requests[r := Drop(t, Keys(s.rows, {t}), {}, false, {})])
    case DeleteListed(r, key) =>
      s.(objects := s.objects - {key},
         requests := s.requests[r := s.requests[r].(erased := s.requests[r].erased + {key})])
    case CommitDrop(r, gone) =>
      s.(tasks := s.tasks - gone,
         rows := map a | a in s.rows && s.rows[a].task !in gone :: s.rows[a],
         requests := s.requests[r := s.requests[r].(committed := true, swept := Keys(s.rows, gone))])
    case Stop(r) => s.(stopped := s.stopped + {r})
  }

  ghost function Exec(run: seq<Action>): Option<State>
    decreases |run|
  {
    if run == [] then Some(INIT)
    else
      var before := Exec(run[..|run| - 1]);
      if before.Some? && Enabled(before.value, run[|run| - 1])
      then Some(Apply(before.value, run[|run| - 1])) else None
  }

  // ----- what the requests say about one key -----

  ghost predicate HasRow(s: State, k: Key) {
    exists a :: a in s.rows && s.rows[a].key == k
  }

  predicate Uploads(q: Request, k: Key, up: UploadStage) {
    q.Upload? && q.row.key == k && q.up == up
  }

  predicate Removes(q: Request, k: Key) {
    (q.Remove? && q.row.key == k && q.down != Loaded) || (q.Drop? && k in q.swept)
  }

  predicate Erases(q: Request, k: Key) {
    (q.Remove? && q.row.key == k && q.down == ObjectGone) || (q.Drop? && k in q.erased)
  }

  ghost predicate Uploaded(s: State, k: Key, up: UploadStage) {
    exists r :: r in s.requests && Uploads(s.requests[r], k, up)
  }

  ghost predicate Removed(s: State, k: Key) {
    exists r :: r in s.requests && Removes(s.requests[r], k)
  }

  ghost predicate Erased(s: State, k: Key) {
    exists r :: r in s.requests && Erases(s.requests[r], k)
  }

  /** The row that a saved upload of the key wrote. */
  ghost predicate Wrote(s: State, a: AttachmentId, row: Row) {
    exists r :: r in s.requests && s.requests[r] == Upload(a, row, Saved)
  }

  ghost predicate KeyInv(s: State, k: Key) {
    && (k in s.objects <==> (Uploaded(s, k, Stored) || Uploaded(s, k, Saved)) && !Erased(s, k))
    && (HasRow(s, k) <==> Uploaded(s, k, Saved) && !Removed(s, k))
  }

  /** One upload per key and per attachment. */
  ghost predicate UploadsDiffer(s: State) {
    forall q, r :: q in s.requests && r in s.requests && s.requests[q].Upload? && s.requests[r].Upload? && q != r ==>
      s.requests[q].a != s.requests[r].a && s.requests[q].row.key != s.requests[r].row.key
  }

  ghost predicate RowsWritten(s: State) {
    forall a :: a in s.rows ==> Wrote(s, a, s.rows[a])
  }

  ghost predicate RequestInv(s: State, q: Request) {
    match q
    case Upload(_, _, _) => true
    case Remove(a, row, down) => Wrote(s, a, row)
    case Drop(t, listed, erased, committed, swept) =>
      && erased <= listed
      && (forall k :: k in listed ==> exists a :: Wrote(s, a, Row(t, k)))
      && (forall k :: k in swept ==> Uploaded(s, k, Saved))
      && (if committed then erased == listed && forall k :: k in listed ==> !HasRow(s, k) else swept == {})
  }

  ghost predicate RequestsInv(s: State) {
    forall r :: r in s.requests ==> RequestInv(s, s.requests[r])
  }

  ghost predicate StoresInv(s: State) {
    UploadsDiffer(s) && RowsWritten(s) && RequestsInv(s) && forall k :: KeyInv(s, k)
  }

  // ----- one step -----

  /** The one request an action touches. */
  function Target(a: Action): Option<RequestId> {
    match a
    case NewTask(_) => None
    case BeginUpload(r, _, _) => Some(r)
    case PutObject(r) => Some(r)
    case CommitUpload(r) => Some(r)
    case BeginRemove(r, _) => Some(r)
    case CommitRemove(r) => Some(r)
    case DeleteObject(r) => Some(r)
    case BeginDrop(r, _) => Some(r)
    case DeleteListed(r, _) => Some(r)
    case CommitDrop(r, _) => Some(r)
    case Stop(_) => None
  }

  /** All other requests stay as they are, and the touched one goes forward. */
  lemma OthersStay(s: State, a: Action)
    requires Enabled(s, a)
    ensures var s' := Apply(s, a);
      forall q :: q in s.requests && Target(a) != Some(q) ==> q in s'.requests && s'.requests[q] == s.requests[q]
    ensures var s' := Apply(s, a);
      forall q :: q in s'.requests && Target(a) != Some(q) ==> q in s.requests
  {
  }

  lemma WroteStays(s: State, act: Action, a: AttachmentId, row: Row)
    requires Enabled(s, act) && Wrote(s, a, row)
    ensures Wrote(Apply(s, act), a, row)
  {
    var r :| r in s.requests && s.requests[r] == Upload(a, row, Saved);
    OthersStay(s, act);
    assert Target(act) != Some(r);
    assert Apply(s, act).requests[r] == Upload(a, row, Saved);
  }

  predicate Puts(s: State, a: Action, k: Key)
    requires Enabled(s, a)
  {
    a.PutObject? && s.requests[a.r].row.key == k
  }

  predicate Saves(s: State, a: Action, k: Key)
    requires Enabled(s, a)
  {
    a.CommitUpload? && s.requests[a.r].row.key == k
  }

  predicate Unlists(s: State, a: Action, k: Key)
    requires Enabled(s, a)
  {
    (a.CommitRemove? && s.requests[a.r].row.key == k) || (a.CommitDrop? && k in Keys(s.rows, a.gone))
  }

  predicate Deletes(s: State, a: Action, k: Key)
    requires Enabled(s, a)
  {
    (a.DeleteObject? && s.requests[a.r].row.key == k) || (a.DeleteListed? && a.key == k)
  }

  lemma SavedStep(s: State, a: Action, k: Key)
    requires Enabled(s, a)
    ensures Uploaded(Apply(s, a), k, Saved) <==> Uploaded(s, k, Saved) || Saves(s, a, k)
  {
    var s' := Apply(s, a);
    OthersStay(s, a);
    if Uploaded(s, k, Saved) {
      var r :| r in s.requests && Uploads(s.requests[r], k, Saved);
      assert Uploads(s'.requests[r], k, Saved);
    }
    if Saves(s, a, k) {
      assert Uploads(s'.requests[a.r], k, Saved);
    }
  }

  lemma StoredStep(s: State, a: Action, k: Key)
    requires Enabled(s, a) && UploadsDiffer(s)
    ensures Uploaded(Apply(s, a), k, Stored) <==> (Uploaded(s, k, Stored) || Puts(s, a, k)) && !Saves(s, a, k)
  {
    var s' := Apply(s, a);
    OthersStay(s, a);
    if Uploaded(s, k, Stored) && !Saves(s, a, k) {
      var r :| r in s.requests && Uploads(s.requests[r], k, Stored);
      assert Uploads(s'.requests[r], k, Stored);
    }
    if Puts(s, a, k) {
      assert Uploads(s'.requests[a.r], k, Stored);
    }
  }

  lemma RemovedStep(s: State, a: Action, k: Key)
    requires Enabled(s, a) && RequestsInv(s)
    ensures Removed(Apply(s, a), k) <==> Removed(s, k) || Unlists(s, a, k)
  {
    var s' := Apply(s, a);
    OthersStay(s, a);
    if Removed(s, k) {
      var r :| r in s.requests && Removes(s.requests[r], k);
      assert RequestInv(s, s.requests[r]);
      assert Removes(s'.requests[r], k);
    }
    if Unlists(s, a, k) {
      assert Removes(s'.requests[a.r], k);
    }
  }

  lemma ErasedStep(s: State, a: Action, k: Key)
    requires Enabled(s, a)
    ensures Erased(Apply(s, a), k) <==> Erased(s, k) || Deletes(s, a, k)
  {
    var s' := Apply(s, a);
    OthersStay(s, a);
    if Erased(s, k) {
      var r :| r in s.requests && Erases(s.requests[r], k);
      assert Erases(s'.requests[r], k);
    }
    if Deletes(s, a, k) {
      assert Erases(s'.requests[a.r], k);
    }
  }

  /** A key names one attachment. */
  lemma OneWriter(s: State, a: AttachmentId, b: AttachmentId, row: Row, row': Row)
    requires UploadsDiffer(s) && Wrote(s, a, row) && Wrote(s, b, row')
    ensures row.key == row'.key ==> a == b
    ensures a == b ==> row == row'
  {
    var q :| q in s.requests && s.requests[q] == Upload(a, row, Saved);
    var r :| r in s.requests && s.requests[r] == Upload(b, row', Saved);
    assert q == r || (s.requests[q].a != s.requests[r].a && s.requests[q].row.key != s.requests[r].row.key);
  }

  lemma RowStep(s: State, a: Action, b: AttachmentId)
    requires Enabled(s, a) && UploadsDiffer(s) && RowsWritten(s) && RequestsInv(s) && b in s.rows
    ensures var s' := Apply(s, a);
      (b in s'.rows <==> !Unlists(s, a, s.rows[b].key)) && (b in s'.rows ==> s'.rows[b] == s.rows[b])
  {
    var row := s.rows[b];
    assert Wrote(s, b, row);
    if a.CommitUpload? {
      var q :| q in s.requests && s.requests[q] == Upload(b, row, Saved);
      assert q != a.r;
    } else if a.CommitRemove? {
      assert RequestInv(s, s.requests[a.r]);
      OneWriter(s, b, s.requests[a.r].a, row, s.requests[a.r].row);
    } else if a.CommitDrop? && row.key in Keys(s.rows, a.gone) {
      var c :| c in s.rows && s.rows[c].task in a.gone && s.rows[c].key == row.key;
      assert Wrote(s, c, s.rows[c]);
      OneWriter(s, b, c, row, s.rows[c]);
    }
  }

  lemma HasRowStep(s: State, a: Action, k: Key)
    requires Enabled(s, a) && UploadsDiffer(s) && RowsWritten(s) && RequestsInv(s)
    ensures HasRow(Apply(s, a), k) <==> Saves(s, a, k) || (HasRow(s, k) && !Unlists(s, a, k))
  {
    var s' := Apply(s, a);
    if Saves(s, a, k) {
      assert s'.rows[s.requests[a.r].a].key == k;
    } else {
      if HasRow(s, k) {
        var b :| b in s.rows && s.rows[b].key == k;
        RowStep(s, a, b);
      }
      if HasRow(s', k) {
        var b :| b in s'.rows && s'.rows[b].key == k;
        assert b in s.rows && s.rows[b].key == k;
        RowStep(s, a, b);
      }
    }
  }

  lemma MentionedWasSaved(s: State, k: Key)
    requires RequestsInv(s)
    ensures Removed(s, k) || Erased(s, k) ==> Uploaded(s, k, Saved)
  {
    if Removed(s, k) || Erased(s, k) {
      var r :| r in s.requests && (Removes(s.requests[r], k) || Erases(s.requests[r], k));
      var q := s.requests[r];
      assert RequestInv(s, q);
      if q.Remove? {
        WroteMeansSaved(s, q.a, q.row);
      } else if q.Drop? && k in q.listed {
        var a :| Wrote(s, a, Row(q.task, k));
        WroteMeansSaved(s, a, Row(q.task, k));
      }
    }
  }

  lemma WroteMeansSaved(s: State, a: AttachmentId, row: Row)
    requires Wrote(s, a, row)
    ensures Uploaded(s, row.key, Saved)
  {
    var r :| r in s.requests && s.requests[r] == Upload(a, row, Saved);
    assert Uploads(s.requests[r], row.key, Saved);
  }

  lemma OneStage(s: State, k: Key)
    requires UploadsDiffer(s)
    ensures forall u, v :: Uploaded(s, k, u) && Uploaded(s, k, v) ==> u == v
  {
    forall u, v | Uploaded(s, k, u) && Uploaded(s, k, v) ensures u == v {
      var q :| q in s.requests && Uploads(s.requests[q], k, u);
      var r :| r in s.requests && Uploads(s.requests[r], k, v);
      assert q == r;
    }
  }

  /** What putting or saving an upload tells about the stages before it. */
  lemma StageBefore(s: State, a: Action, k: Key)
    requires Enabled(s, a) && UploadsDiffer(s)
    ensures Puts(s, a, k) ==> !Uploaded(s, k, Stored) && !Uploaded(s, k, Saved)
    ensures Saves(s, a, k) ==> Uploaded(s, k, Stored) && !Uploaded(s, k, Saved)
  {
    OneStage(s, k);
    if Puts(s, a, k) {
      assert Uploads(s.requests[a.r], k, Validated);
    } else if Saves(s, a, k) {
      assert Uploads(s.requests[a.r], k, Stored);
    }
  }

  lemma ObjectsStep(s: State, a: Action, k: Key)
    requires Enabled(s, a)
    ensures k in Apply(s, a).objects <==> Puts(s, a, k) || (k in s.objects && !Deletes(s, a, k))
  {
  }

  lemma KeyInvStep(s: State, a: Action, k: Key)
    requires Enabled(s, a) && UploadsDiffer(s) && RowsWritten(s) && RequestsInv(s) && KeyInv(s, k)
    ensures KeyInv(Apply(s, a), k)
  {
    StageBefore(s, a, k);
    ObjectsStep(s, a, k);
    SavedStep(s, a, k);
    StoredStep(s, a, k);
    RemovedStep(s, a, k);
    ErasedStep(s, a, k);
    HasRowStep(s, a, k);
    MentionedWasSaved(s, k);
  }

  lemma UploadsDifferStep(s: State, a: Action)
    requires Enabled(s, a) && UploadsDiffer(s)
    ensures UploadsDiffer(Apply(s, a))
  {
    OthersStay(s, a);
  }

  lemma RowsWrittenStep(s: State, a: Action)
    requires Enabled(s, a) && RowsWritten(s)
    ensures RowsWritten(Apply(s, a))
  {
    var s' := Apply(s, a);
    forall b | b in s'.rows ensures Wrote(s', b, s'.rows[b]) {
      if a.CommitUpload? && b == s.requests[a.r].a {
        assert s'.requests[a.r] == Upload(b, s'.rows[b], Saved);
      } else {
        assert b in s.rows && s'.rows[b] == s.rows[b];
        WroteStays(s, a, b, s.rows[b]);
      }
    }
  }

  /** What a request knows stays true while others act. */
  lemma KnowledgeStays(s: State, a: Action, q: Request)
    requires Enabled(s, a) && UploadsDiffer(s) && RowsWritten(s) && RequestsInv(s) && RequestInv(s, q)
    ensures RequestInv(Apply(s, a), q)
  {
    var s' := Apply(s, a);
    if q.Remove? {
      WroteStays(s, a, q.a, q.row);
    } else if q.Drop? {
      forall k | k in q.listed ensures exists b :: Wrote(s', b, Row(q.task, k)) {
        var b :| Wrote(s, b, Row(q.task, k));
        WroteStays(s, a, b, Row(q.task, k));
      }
      forall k | k in q.swept ensures Uploaded(s', k, Saved) {
        SavedStep(s, a, k);
      }
      if q.committed {
        forall k | k in q.listed ensures !HasRow(s', k) {
          var b :| Wrote(s, b, Row(q.task, k));
          NoSecondSave(s, a, b, Row(q.task, k));
          HasRowStep(s, a, k);
        }
      }
    }
  }

  lemma NoSecondSave(s: State, a: Action, b: AttachmentId, row: Row)
    requires Enabled(s, a) && UploadsDiffer(s) && Wrote(s, b, row)
    ensures !Saves(s, a, row.key)
  {
    var q :| q in s.requests && s.requests[q] == Upload(b, row, Saved);
  }

  /** What the acting request learns. */
  lemma TargetKnows(s: State, a: Action)
    requires Enabled(s, a) && UploadsDiffer(s) && RowsWritten(s) && RequestsInv(s) && Target(a).Some?
    ensures RequestInv(Apply(s, a), Apply(s, a).requests[Target(a).value])
  {
    var s', r := Apply(s, a), Target(a).value;
    if r in s.requests {
      KnowledgeStays(s, a, s.requests[r]);
    }
    if a.BeginRemove? {
      assert Wrote(s, a.a, s.rows[a.a]);
      WroteStays(s, a, a.a, s.rows[a.a]);
    } else if a.BeginDrop? {
      forall k | k in Keys(s.rows, {a.t}) ensures exists b :: Wrote(s', b, Row(a.t, k)) {
        var b :| b in s.rows && s.rows[b].task == a.t && s.rows[b].key == k;
        assert Wrote(s, b, s.rows[b]);
        WroteStays(s, a, b, s.rows[b]);
        assert s.rows[b] == Row(a.t, k);
      }
    } else if a.CommitDrop? {
      CommitDropKnows(s, a);
    }
  }

  /** When a task delete commits, nothing it listed has a row any more, and all it sweeps was saved. */
  lemma CommitDropKnows(s: State, a: Action)
    requires Enabled(s, a) && UploadsDiffer(s) && RowsWritten(s) && RequestsInv(s) && a.CommitDrop?
    ensures forall k :: k in s.requests[a.r].listed ==> !HasRow(Apply(s, a), k)
    ensures forall k :: k in Keys(s.rows, a.gone) ==> Uploaded(Apply(s, a), k, Saved)
  {
    var s', q := Apply(s, a), s.requests[a.r];
    assert RequestInv(s, q);
    forall k | k in q.listed ensures !HasRow(s', k) {
      var b :| Wrote(s, b, Row(q.task, k));
      if HasRow(s', k) {
        var c :| c in s'.rows && s'.rows[c].key == k;
        assert Wrote(s, c, s.rows[c]);
        OneWriter(s, b, c, Row(q.task, k), s.rows[c]);
        assert false;
      }
    }
    forall k | k in Keys(s.rows, a.gone) ensures Uploaded(s', k, Saved) {
      var c :| c in s.rows && s.rows[c].task in a.gone && s.rows[c].key == k;
      assert Wrote(s, c, s.rows[c]);
      WroteMeansSaved(s, c, s.rows[c]);
      SavedStep(s, a, k);
    }
  }

  lemma RequestsInvStep(s: State, a: Action)
    requires Enabled(s, a) && UploadsDiffer(s) && RowsWritten(s) && RequestsInv(s)
    ensures RequestsInv(Apply(s, a))
  {
    var s' := Apply(s, a);
    OthersStay(s, a);
    forall r | r in s'.requests ensures RequestInv(s', s'.requests[r]) {
      if Target(a) == Some(r) {
        TargetKnows(s, a);
      } else {
        KnowledgeStays(s, a, s.requests[r]);
      }
    }
  }

  lemma StoresInvStep(s: State, a: Action)
    requires Enabled(s, a) && StoresInv(s)
    ensures StoresInv(Apply(s, a))
  {
    UploadsDifferStep(s, a);
    RowsWrittenStep(s, a);
    RequestsInvStep(s, a);
    forall k ensures KeyInv(Apply(s, a), k) {
      assert KeyInv(s, k);
      KeyInvStep(s, a, k);
    }
  }

  lemma {:induction false} StoresInvHolds(run: seq<Action>)
    requires Exec(run).Some?
    ensures StoresInv(Exec(run).value)
    decreases |run|
  {
    if run == [] {
      InitInv();
    } else {
      StoresInvHolds(run[..|run| - 1]);
      StoresInvStep(Exec(run[..|run| - 1]).value, run[|run| - 1]);
    }
  }

  lemma InitInv()
    ensures StoresInv(INIT)
  {
    forall k ensures KeyInv(INIT, k) {}
  }

  // ----- what it means -----

  /** A task delete that has deleted the object and not committed, whether still running or stopped. */
  ghost predicate DroppedMidway(s: State, k: Key) {
    exists r :: r in s.requests && s.requests[r].Drop? && !s.requests[r].committed && k in s.requests[r].erased
  }

  ghost predicate RemovedMidway(s: State, k: Key) {
    exists r :: r in s.requests && s.requests[r].Remove? && s.requests[r].row.key == k && s.requests[r].down == RowGone
  }

  ghost predicate Swept(s: State, k: Key) {
    exists r :: r in s.requests && s.requests[r].Drop? && k in s.requests[r].swept
  }

  /** In every run, a committed row lacks its object exactly when a task delete has deleted that object
      and not committed. */
  lemma DanglingIffDroppedMidway(run: seq<Action>, s: State, a: AttachmentId)
    requires Exec(run) == Some(s) && a in s.rows
    ensures s.rows[a].key !in s.objects <==> DroppedMidway(s, s.rows[a].key)
  {
    StoresInvHolds(run);
    var k := s.rows[a].key;
    assert KeyInv(s, k) && HasRow(s, k);
    if Erased(s, k) {
      var r :| r in s.requests && Erases(s.requests[r], k);
      var q := s.requests[r];
      assert RequestInv(s, q);
      assert q.Remove? ==> Removes(q, k);
    }
    if DroppedMidway(s, k) {
      var r :| r in s.requests && s.requests[r].Drop? && !s.requests[r].committed && k in s.requests[r].erased;
      assert Erases(s.requests[r], k);
    }
  }

  /** In every run, an object has no row exactly when its upload has not committed, or an attachment
      delete has committed and not reached it, or a task delete's commit swept its row away. */
  lemma LeftoverIffMidwayOrSwept(run: seq<Action>, s: State, k: Key)
    requires Exec(run) == Some(s) && k in s.objects
    ensures !HasRow(s, k) <==> Uploaded(s, k, Stored) || RemovedMidway(s, k) || Swept(s, k)
  {
    StoresInvHolds(run);
    assert KeyInv(s, k);
    MentionedWasSaved(s, k);
    if Removed(s, k) {
      var r :| r in s.requests && Removes(s.requests[r], k);
      assert !Erases(s.requests[r], k);
    }
    if RemovedMidway(s, k) {
      var r :| r in s.requests && s.requests[r].Remove? && s.requests[r].row.key == k && s.requests[r].down == RowGone;
      assert Removes(s.requests[r], k);
    }
    if Swept(s, k) {
      var r :| r in s.requests && s.requests[r].Drop? && k in s.requests[r].swept;
      assert Removes(s.requests[r], k);
    }
    OneStage(s, k);
  }

  ghost predicate NoDrops(s: State) {
    forall r :: r in s.requests ==> !s.requests[r].Drop?
  }

  /** Without task deletes: however uploads and attachment deletes interleave, and wherever they stop,
      every committed row has its object, and the objects beyond are those of uploads and deletes cut
      off between their two stores. */
  lemma UploadsAndRemovesNeverDangle(run: seq<Action>, s: State)
    requires Exec(run) == Some(s) && NoDrops(s)
    ensures forall a :: a in s.rows ==> s.rows[a].key in s.objects
    ensures forall k :: k in s.objects ==> (!HasRow(s, k) <==> Uploaded(s, k, Stored) || RemovedMidway(s, k))
  {
    forall a | a in s.rows ensures s.rows[a].key in s.objects {
      DanglingIffDroppedMidway(run, s, a);
    }
    forall k | k in s.objects ensures !HasRow(s, k) <==> Uploaded(s, k, Stored) || RemovedMidway(s, k) {
      LeftoverIffMidwayOrSwept(run, s, k);
    }
  }

  /** A request that did not end between its two stores; for a task delete, also one whose commit swept
      away only rows whose objects it had deleted. */
  predicate NotCutOff(q: Request) {
    match q
    case Upload(_, _, up) => up != Stored
    case Remove(_, _, down) => down != RowGone
    case Drop(_, _, erased, committed, swept) => (committed || erased == {}) && swept <= erased
  }

  /** If no request was cut off, the two stores agree: the objects are exactly those of the rows. */
  lemma StoresAgreeUnlessCutOff(run: seq<Action>, s: State, k: Key)
    requires Exec(run) == Some(s)
    requires forall r :: r in s.requests ==> NotCutOff(s.requests[r])
    ensures k in s.objects <==> HasRow(s, k)
  {
    if HasRow(s, k) {
      var a :| a in s.rows && s.rows[a].key == k;
      DanglingIffDroppedMidway(run, s, a);
    }
    if k in s.objects {
      LeftoverIffMidwayOrSwept(run, s, k);
      StoresInvHolds(run);
      assert KeyInv(s, k);
      if Swept(s, k) {
        var r :| r in s.requests && s.requests[r].Drop? && k in s.requests[r].swept;
        assert NotCutOff(s.requests[r]);
        assert Erases(s.requests[r], k);
      }
    }
  }

  lemma Then(run: seq<Action>, s: State, a: Action) returns (run': seq<Action>, s': State)
    requires Exec(run) == Some(s) && Enabled(s, a)
    ensures Exec(run') == Some(s') && s' == Apply(s, a)
  {
    run', s' := run + [a], Apply(s, a);
    assert run'[..|run|] == run;
  }

  lemma UploadOne(t: TaskId, a: AttachmentId, key: Key) returns (run: seq<Action>, s: State)
    ensures Exec(run) == Some(s)
    ensures s == State({t}, map[a := Row(t, key)], {key},
                       map[RequestId(0) := Upload(a, Row(t, key), Saved)], {})
  {
    run, s := [], INIT;
    run, s := Then(run, s, NewTask(t));
    run, s := Then(run, s, BeginUpload(RequestId(0), a, Row(t, key)));
    run, s := Then(run, s, PutObject(RequestId(0)));
    run, s := Then(run, s, CommitUpload(RequestId(0)));
  }

  /** A task delete that stops between its first object delete and its commit leaves a committed row
      without its object, for good: the request will not come back. */
  lemma StoppedDropLeavesDanglingRow() returns (run: seq<Action>, s: State, a: AttachmentId)
    ensures Exec(run) == Some(s) && a in s.rows && s.rows[a].key !in s.objects
    ensures forall r :: r in s.requests && s.requests[r].Drop? ==> !Running(s, r)
  {
    a := AttachmentId(0);
    run, s := UploadOne(TaskId(0), a, Key(0));
    assert Keys(s.rows, {TaskId(0)}) == {Key(0)} by {
      assert s.rows[a].key in Keys(s.rows, {TaskId(0)});
    }
    run, s := Then(run, s, BeginDrop(RequestId(1), TaskId(0)));
    run, s := Then(run, s, DeleteListed(RequestId(1), Key(0)));
    run, s := Then(run, s, Stop(RequestId(1)));
  }

  /** A task delete lists the objects of exactly its own task's attachments. */
  lemma DropListsItsTask(s: State, r: RequestId, t: TaskId, k: Key)
    requires Enabled(s, BeginDrop(r, t))
    ensures var q := Apply(s, BeginDrop(r, t)).requests[r];
      k in q.listed <==> exists a :: a in s.rows && s.rows[a] == Row(t, k)
  {
    if k in Keys(s.rows, {t}) {
      var a :| a in s.rows && s.rows[a].task in {t} && s.rows[a].key == k;
      assert s.rows[a] == Row(t, k);
    }
  }

  /** Over every run, a task delete that has committed has deleted every object it listed, for good. */
  lemma CommittedDropErasedAll(run: seq<Action>, s: State, r: RequestId, k: Key)
    requires Exec(run) == Some(s) && r in s.requests && s.requests[r].Drop? && s.requests[r].committed
    requires k in s.requests[r].listed
    ensures k !in s.objects && !HasRow(s, k)
  {
    StoresInvHolds(run);
    assert RequestInv(s, s.requests[r]) && KeyInv(s, k);
    assert Erases(s.requests[r], k);
  }

  // ----- which tasks are there -----

  /** The task was created, and no task delete has removed it since. */
  ghost predicate TaskIsThere(run: seq<Action>, t: TaskId)
    decreases |run|
  {
    run != [] &&
    var a := run[|run| - 1];
    if a == NewTask(t) then true
    else !(a.CommitDrop? && t in a.gone) && TaskIsThere(run[..|run| - 1], t)
  }

  /** A task is there from its creation until a task delete commits its removal, and only then can it have
      attachments: every committed row belongs to a task that is there. */
  lemma {:induction false} RowsBelongToTasks(run: seq<Action>, s: State, t: TaskId)
    requires Exec(run) == Some(s)
    ensures t in s.tasks <==> TaskIsThere(run, t)
    ensures forall a :: a in s.rows ==> s.rows[a].task in s.tasks
    decreases |run|
  {
    if run != [] {
      var init := run[..|run| - 1];
      RowsBelongToTasks(init, Exec(init).value, t);
    }
  }
}
