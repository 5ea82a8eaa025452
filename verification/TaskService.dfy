/** The service calls as the code runs them: effects on the session, the committed database, the
    object store and the channel, one after another, with a crash possible before each of them.
    `crash` counts the durable or visible effects that still happen; a crash loses the session
    (backend/app/services/task_service.py, attachment_service.py, comment_service.py,
    notification_service.py). */
module TaskService {
  import opened Common
  import opened TaskStore
  import opened TaskHistory
  import opened TaskInvariants
  import opened Mentions
  import opened MentionDelivery
  import opened Announcements
  import opened OrphanedObjects

  datatype Outcome = Finished | Rejected(error: Error) | Crashed

  /** The dict of a PATCH body, from its items in order. */
  function AsMap(items: seq<(Field, Value)>): map<Field, Value>
    decreases |items|
  {
    if items == [] then map[] else AsMap(items[..|items| - 1])[items[|items| - 1].0 := items[|items| - 1].1]
  }

  ghost predicate KeysDistinct(items: seq<(Field, Value)>) {
    forall i, j :: 0 <= i < j < |items| ==> items[i].0 != items[j].0
  }

  lemma {:induction false} AsMapKeys(items: seq<(Field, Value)>, f: Field)
    ensures f in AsMap(items) <==> exists k :: 0 <= k < |items| && items[k].0 == f
    decreases |items|
  {
    if items != [] {
      AsMapKeys(items[..|items| - 1], f);
      if f in AsMap(items[..|items| - 1]) {
        var k :| 0 <= k < |items| - 1 && items[..|items| - 1][k].0 == f;
        assert items[k].0 == f;
      }
      if exists k :: 0 <= k < |items| && items[k].0 == f {
        var k :| 0 <= k < |items| && items[k].0 == f;
        assert k < |items| - 1 ==> items[..|items| - 1][k].0 == f;
      }
    }
  }

  /** The setattr loop on the columns, one item at a time. */
  ghost function SetAll(fields: Fields, items: seq<(Field, Value)>): Fields
    decreases |items|
  {
    if items == [] then fields
    else SetAll(fields, items[..|items| - 1]).Set(items[|items| - 1].0, items[|items| - 1].1)
  }

  /** What the loop notes down: each column's value just before it is set, where that differs. */
  ghost function Noted(fields: Fields, items: seq<(Field, Value)>): map<Field, (string, string)>
    decreases |items|
  {
    if items == [] then map[]
    else
      var init := items[..|items| - 1];
      var (f, v) := items[|items| - 1];
      var was := SetAll(fields, init).Get(f);
      if was != v then Noted(fields, init)[f := (Str(was), Str(v))] else Noted(fields, init)
  }

  /** For a dict, whose keys are distinct, the loop merges it and notes exactly the changes. */
  lemma {:induction false} SetAllMerges(fields: Fields, items: seq<(Field, Value)>)
    requires KeysDistinct(items)
    ensures SetAll(fields, items) == fields.Merge(AsMap(items))
    ensures Noted(fields, items) == Changes(fields, AsMap(items))
    decreases |items|
  {
    if items == [] {
      SameFields(fields, fields.Merge(map[]));
    } else {
      var init := items[..|items| - 1];
      var (f, v) := items[|items| - 1];
      SetAllMerges(fields, init);
      AsMapKeys(init, f);
      SameFields(fields.Merge(AsMap(items)), fields.Merge(AsMap(init)).Set(f, v));
      UnsetKeeps(fields, AsMap(init), f);
      ChangesStep(fields, AsMap(init), f, v);
    }
  }

  lemma UnsetKeeps(fields: Fields, done: map<Field, Value>, f: Field)
    requires f !in done
    ensures fields.Merge(done).Get(f) == fields.Get(f)
  {
  }

  lemma ChangesStep(fields: Fields, done: map<Field, Value>, f: Field, v: Value)
    requires f !in done
    ensures Changes(fields, done[f := v]) ==
      if fields.Get(f) != v then Changes(fields, done)[f := (Str(fields.Get(f)), Str(v))] else Changes(fields, done)
  {
  }

  lemma MaxPositionUnique(tasks: map<TaskId, Task>, project: ProjectId, status: Value, m: int, n: int)
    requires IsMaxPosition(tasks, project, status, m) && IsMaxPosition(tasks, project, status, n)
    ensures m == n
  {
  }

  /** `SELECT max(position)` over one column, `or 0`. */
  method SelectMaxPosition(tasks: map<TaskId, Task>, project: ProjectId, status: Value) returns (m: int)
    ensures IsMaxPosition(tasks, project, status, m)
  {
    var rest := set t | t in tasks && InColumn(tasks[t], project, status);
    if rest == {} {
      assert forall t :: t in tasks && InColumn(tasks[t], project, status) ==> t in rest;
      return 0;
    }
    var first :| first in rest;
    ghost var all := rest;
    m := tasks[first].position;
    while rest != {}
      invariant rest <= all
      invariant exists t :: t in all && tasks[t].position == m
      invariant forall t :: t in all - rest ==> tasks[t].position <= m
      decreases rest
    {
      var t :| t in rest;
      rest := rest - {t};
      if m < tasks[t].position {
        m := tasks[t].position;
      }
    }
  }

  /** The parts of soundness, kept apart so that a proof opens only the one it names. */
  datatype Part = Shape | Structure | Keys | Addresses

  ghost predicate Holds(part: Part, db: Db) {
    match part
    case Shape => ForestInv(db) && LabelsKnown(db)
    case Structure => Inv(db)
    case Keys => KeysUnique(db)
    case Addresses => EmailsUnique(db.users)
  }

  /** What every committed state satisfies. */
  ghost predicate Sound(db: Db) {
    forall part :: Holds(part, db)
  }

  lemma SoundMeans(db: Db)
    ensures Sound(db) <==> Inv(db) && KeysUnique(db) && EmailsUnique(db.users)
  {
    assert Holds(Shape, db) <==> ForestInv(db) && LabelsKnown(db);
    assert Holds(Structure, db) <==> Inv(db);
    assert Holds(Keys, db) <==> KeysUnique(db);
    assert Holds(Addresses, db) <==> EmailsUnique(db.users);
  }

  lemma DeleteGrowsLog(db: Db, t: TaskId, actor: UserId, gone: set<TaskId>)
    ensures var db' := Deleted(db, t, actor, gone);
      |db'.log| == |db.log| + 1 && SameEntries(db.log, db'.log[..|db.log|])
  {
  }

  lemma CallGrowsLog(db: Db, call: Call)
    requires ForestInv(db) && LabelsKnown(db) && CallError(db, call) == None
    ensures |db.log| <= |After(db, call).log| <= |db.log| + 1
    ensures SameEntries(db.log, After(db, call).log[..|db.log|])
  {
    if call.DeleteTask? {
      DeleteGrowsLog(db, call.t, call.actor, Cascade(db, call.t));
    } else if Quiet(call) {
      QuietCallShape(db, call);
    }
  }

  lemma CallGrows(db: Db, call: Call)
    requires ForestInv(db) && LabelsKnown(db) && Fresh(db, call) && CallError(db, call) == None
    requires EmailsUnique(After(db, call).users)
    ensures Grew(db, After(db, call)) && |After(db, call).log| <= |db.log| + 1
  {
    CallGrowsLog(db, call);
    MembersGrow(db, call);
  }

  lemma CallKeepsUniqueness(db: Db, call: Call)
    requires ForestInv(db) && LabelsKnown(db) && Fresh(db, call) && CallError(db, call) == None
    requires KeysUnique(db) && EmailsUnique(db.users)
    ensures KeysUnique(After(db, call)) && EmailsUnique(After(db, call).users)
  {
    var db' := After(db, call);
    assert forall a :: a in db'.attachments && a in db.attachments && !call.Attach? ==>
      db'.attachments[a] == db.attachments[a];
  }

  /** What committing one call's transaction gives: every invariant again, and the right to announce what
      its log entry calls for. */
  lemma CommitCall(w: char -> bool, db: Db, call: Call, channel: seq<Event>, notices: seq<Notice>, inbox: seq<Notice>)
    requires Sound(db) && Holds(Shape, db) && Fresh(db, call) && CallError(db, call) == None
    requires AnnouncedAfterCommit(w, db, channel, notices, inbox)
    ensures Sound(After(db, call))
    ensures AnnouncedAfterCommit(w, After(db, call), channel, notices, inbox)
    ensures |After(db, call).log| > |db.log| ==>
      AnnouncedAfterCommit(w, After(db, call), channel + [EventOf(After(db, call).log[|db.log|])], notices, inbox) &&
      LastUntold(w, After(db, call), notices)
  {
    SoundMeans(db);
    AfterKeepsInv(db, call);
    CallKeepsUniqueness(db, call);
    CallGrows(db, call);
    SoundMeans(After(db, call));
    CommitKeepsAnnounced(w, db, After(db, call), channel, notices, inbox);
  }

  function WithFields(db: Db, t: TaskId, fields: Fields): Db
    requires t in db.tasks
  {
    db.(tasks := db.tasks[t := db.tasks[t].(fields := fields)])
  }

  function WithLabels(db: Db, t: TaskId, ids: seq<LabelId>): Db
    requires t in db.tasks
  {
    db.(tasks := db.tasks[t := db.tasks[t].(labels := ids)])
  }

  function WithRow(db: Db, t: TaskId, fields: Fields, labels: seq<LabelId>): Db
    requires t in db.tasks
  {
    db.(tasks := db.tasks[t := db.tasks[t].(fields := fields, labels := labels)])
  }

  function WithLog(db: Db, t: TaskId, actor: UserId, changes: map<Field, (string, string)>,
                   labelChange: Option<(multiset<string>, multiset<string>)>): Db
    requires t in db.tasks
  {
    if changes == map[] && labelChange == None then db
    else db.(log := db.log + [LogEntry(Some(t), actor, TaskUpdated, OfTask(t), changes, labelChange,
                                       AssignedTo(db.tasks[t].fields.assignee))])
  }

  function RowsOr(labelIds: Option<seq<LabelId>>, stored: seq<LabelId>): seq<LabelId> {
    if labelIds.Some? then Rows(labelIds.value) else stored
  }

  lemma LabelsUnset(db: Db, t: TaskId)
    requires t in db.tasks
    ensures WithLabels(db, t, db.tasks[t].labels) == db
  {
    assert WithLabels(db, t, db.tasks[t].labels).tasks == db.tasks;
  }

  lemma SetTwice(db: Db, t: TaskId, first: Fields, second: Fields)
    requires t in db.tasks
    ensures WithFields(WithFields(db, t, first), t, second) == WithFields(db, t, second)
  {
    assert WithFields(WithFields(db, t, first), t, second).tasks == WithFields(db, t, second).tasks;
  }

  lemma FieldsThenLabels(db: Db, t: TaskId, fields: Fields, labels: seq<LabelId>)
    requires t in db.tasks
    ensures WithFields(db, t, fields) == WithRow(db, t, fields, db.tasks[t].labels)
    ensures WithLabels(WithFields(db, t, fields), t, labels) == WithRow(db, t, fields, labels)
  {
    assert WithLabels(WithFields(db, t, fields), t, labels).tasks == WithRow(db, t, fields, labels).tasks;
  }

  lemma RowThenLabels(db: Db, t: TaskId, fields: Fields, ids: seq<LabelId>, labels: seq<LabelId>)
    requires t in db.tasks
    ensures WithLabels(WithRow(db, t, fields, ids), t, labels) == WithRow(db, t, fields, labels)
  {
    assert WithLabels(WithRow(db, t, fields, ids), t, labels).tasks == WithRow(db, t, fields, labels).tasks;
  }

  lemma UpdateErrorBySteps(db: Db, t: TaskId, items: seq<(Field, Value)>, labelIds: Option<seq<LabelId>>)
    requires t in db.tasks && KeysDistinct(items)
    ensures UpdateError(db, t, AsMap(items), labelIds) ==
      var task := db.tasks[t];
      if Assignee in AsMap(items) && !MayAssign(db, task.project, AsMap(items)[Assignee]) then Some(AssigneeNotMember)
      else if labelIds.Some? && !LabelsResolve(db, task.project, labelIds.value) then Some(LabelNotInProject)
      else FlushError(SetAll(task.fields, items), task.labels, labelIds)
  {
    SetAllMerges(db.tasks[t].fields, items);
  }

  /** The update of a task is: its fields one by one, its labels, then the log entry. */
  lemma UpdateBySteps(db: Db, t: TaskId, items: seq<(Field, Value)>, labelIds: Option<seq<LabelId>>, actor: UserId)
    requires t in db.tasks && LabelsResolve(db, db.tasks[t].project, db.tasks[t].labels) && KeysDistinct(items)
    requires UpdateError(db, t, AsMap(items), labelIds) == None
    ensures Noted(db.tasks[t].fields, items) == Changes(db.tasks[t].fields, AsMap(items))
    ensures Updated(db, t, AsMap(items), labelIds, actor) ==
      WithLog(WithRow(db, t, SetAll(db.tasks[t].fields, items), RowsOr(labelIds, db.tasks[t].labels)),
              t, actor, Noted(db.tasks[t].fields, items), LabelChange(db, t, labelIds))
  {
    SetAllMerges(db.tasks[t].fields, items);
  }

  /** An update that changes the assignee calls for one notice, unless the actor is the new assignee. */
  lemma UpdateNotices(w: char -> bool, db: Db, t: TaskId, updates: map<Field, Value>,
                      labelIds: Option<seq<LabelId>>, actor: UserId)
    requires UpdateError(db, t, updates, labelIds) == None
    requires LabelsResolve(db, db.tasks[t].project, db.tasks[t].labels)
    requires Assignee in Changes(db.tasks[t].fields, updates)
    ensures var db' := Updated(db, t, updates, labelIds, actor);
      && db'.tasks[t].fields.assignee == updates[Assignee]
      && |db'.log| == |db.log| + 1
      && NoticesOf(w, db', db'.log[|db.log|]) ==
           if Told(updates[Assignee], actor) then [Notice(updates[Assignee].user, Assigned, t)] else []
  {
    assert db.tasks[t].fields.Merge(updates).Get(Assignee) == updates[Assignee];
  }

  lemma {:induction false} RecipientsPrefix(db: Db, project: ProjectId, author: UserId, emails: seq<string>, i: nat)
    requires i <= |emails|
    ensures Recipients(db, project, author, emails[..i]) <= Recipients(db, project, author, emails)
    decreases |emails| - i
  {
    if i < |emails| {
      RecipientsPrefix(db, project, author, emails, i + 1);
      assert emails[..i + 1][..i] == emails[..i];
    } else {
      assert emails[..i] == emails;
    }
  }

  lemma {:induction false} SameRecipients(db: Db, db': Db, project: ProjectId, author: UserId, emails: seq<string>)
    requires db.users == db'.users && db.members == db'.members
    ensures Recipients(db, project, author, emails) == Recipients(db', project, author, emails)
    decreases |emails|
  {
    if emails != [] {
      SameRecipients(db, db', project, author, emails[..|emails| - 1]);
    }
  }

  ghost function CascadeOf(db: Db, children: set<TaskId>): set<TaskId>
    requires ForestInv(db) && children <= db.tasks.Keys
  {
    set c, x | c in children && x in Cascade(db, c) :: x
  }

  /** ORM cascade over `subtasks`: the task and, for each child loaded, its cascade in turn. */
  method CollectCascade(db: Db, t: TaskId) returns (gone: set<TaskId>)
    requires ForestInv(db) && t in db.tasks
    ensures gone == Cascade(db, t)
    decreases |db.births| - db.births[t].serial
  {
    var rest := Children(db, t);
    ghost var done: set<TaskId> := {};
    gone := {t};
    while rest != {}
      invariant done + rest == Children(db, t)
      invariant gone == {t} + CascadeOf(db, done)
      decreases rest
    {
      var c :| c in rest;
      var more := CollectCascade(db, c);
      assert CascadeOf(db, done + {c}) == CascadeOf(db, done) + more;
      done := done + {c};
      rest := rest - {c};
      gone := gone + more;
    }
    assert done == Children(db, t);
    assert Cascade(db, t) == {t} + CascadeOf(db, done);
  }

  /** The keys of a listing of attachments. */
  function KeysListed(db: Db, listing: seq<AttachmentId>): set<string>
    requires forall k :: 0 <= k < |listing| ==> listing[k] in db.attachments
  {
    set k | 0 <= k < |listing| :: db.attachments[listing[k]].key
  }

  /** `list_by_task`: every attachment of the task, in some order. */
  ghost predicate Lists(db: Db, t: TaskId, listing: seq<AttachmentId>) {
    && (forall k :: 0 <= k < |listing| ==> listing[k] in db.attachments && db.attachments[listing[k]].task == t)
    && (forall a :: a in db.attachments && db.attachments[a].task == t ==> a in listing)
  }

  lemma ListedKeys(db: Db, t: TaskId, listing: seq<AttachmentId>)
    requires Lists(db, t, listing)
    ensures KeysListed(db, listing) == KeysOf(db, {t})
  {
    forall key | key in KeysOf(db, {t}) ensures key in KeysListed(db, listing) {
      var a :| a in db.attachments && db.attachments[a].task == t && db.attachments[a].key == key;
      var k :| 0 <= k < |listing| && listing[k] == a;
    }
  }

  function Min(a: nat, b: nat): nat {
    if a <= b then a else b
  }

  /** The `_validate` check of an upload, in its order. */
  function UploadError(space: char -> bool, filename: string, size: nat, maxBytes: nat): (r: Option<Error>)
    ensures r == None <==> 0 < size <= maxBytes && exists k :: 0 <= k < |filename| && !space(filename[k])
    ensures r == Some(FileEmpty) <==> size == 0
    ensures r == Some(FileTooLarge) <==> size > 0 && size > maxBytes
  {
    if size == 0 then Some(FileEmpty)
    else if size > maxBytes then Some(FileTooLarge)
    else if forall k :: 0 <= k < |filename| ==> space(filename[k]) then Some(FilenameMissing)
    else None
  }

  /** One more email: what it adds, and what a crash while it is being told leaves done. */
  lemma NextRecipient(db: Db, project: ProjectId, author: UserId, emails: seq<string>, i: nat, t: TaskId,
                      left: nat, crash: nat)
    requires i < |emails| && crash == left + 2 * |Recipients(db, project, author, emails[..i])|
    ensures var told, heard := Recipients(db, project, author, emails[..i]), Recipient(db, project, author, emails[i]);
      var all := MentionNotices(t, Recipients(db, project, author, emails));
      && Recipients(db, project, author, emails[..i + 1]) == told + heard
      && MentionNotices(t, told + heard) == MentionNotices(t, told) + MentionNotices(t, heard)
      && (|heard| == 1 && left <= 1 ==>
            && crash < 2 * |all|
            && MentionNotices(t, told) == all[..Min(crash / 2, |all|)]
            && MentionNotices(t, told) + (if left > 0 then MentionNotices(t, heard) else []) ==
                 all[..Min((crash + 1) / 2, |all|)])
      && MentionNotices(t, told + heard) <= all
  {
    assert emails[..i + 1][..i] == emails[..i];
    RecipientsPrefix(db, project, author, emails, i + 1);
    var told, heard := Recipients(db, project, author, emails[..i]), Recipient(db, project, author, emails[i]);
    if |heard| == 1 && left <= 1 {
      MentionsCut(t, told, heard, Recipients(db, project, author, emails), left, crash);
    }
  }

  /** Cut off while telling the last of `told`, the notices so far are a prefix of all of them. */
  lemma MentionsCut(t: TaskId, init: seq<UserId>, last: seq<UserId>, all: seq<UserId>, left: nat, crash: nat)
    requires init + last <= all && |last| == 1 && left <= 1 && crash == left + 2 * |init|
    ensures MentionNotices(t, init) == MentionNotices(t, all)[..Min(crash / 2, |all|)]
    ensures MentionNotices(t, init) + (if left > 0 then MentionNotices(t, last) else [])
         == MentionNotices(t, all)[..Min((crash + 1) / 2, |all|)]
  {
    var n := |init|;
    assert crash / 2 == n && (crash + 1) / 2 == n + left;
    assert all[n] == (init + last)[n];
    assert forall k :: 0 <= k < n ==> all[k] == (init + last)[k];
  }

  /** The notices a comment gives rise to: one for each recipient of its body's mentions. */
  ghost function ToldOf(w: char -> bool, db: Db, body: string, t: TaskId, author: UserId): seq<Notice>
    requires t in db.tasks
  {
    MentionNotices(t, Recipients(db, db.tasks[t].project, author, FirstSeen(Emails(body, Scan(w, body, 0)))))
  }

  /** A committed comment calls for exactly those notices. */
  lemma CommentNotices(w: char -> bool, db: Db, c: CommentId, t: TaskId, body: string, author: UserId)
    requires t in db.tasks
    ensures var db' := Commented(db, c, t, body, author);
      && |db'.log| == |db.log| + 1
      && NoticesOf(w, db', db'.log[|db.log|]) == ToldOf(w, db', body, t, author)
      && ToldOf(w, db', body, t, author) == ToldOf(w, db, body, t, author)
  {
    SameRecipients(db, Commented(db, c, t, body, author), db.tasks[t].project, author,
                   FirstSeen(Emails(body, Scan(w, body, 0))));
  }

  lemma TellMore(given: seq<Notice>, t: TaskId, told: seq<UserId>, heard: seq<UserId>)
    ensures given + MentionNotices(t, told) + MentionNotices(t, heard) == given + MentionNotices(t, told + heard)
    ensures given + MentionNotices(t, told) + [] == given + MentionNotices(t, told)
    ensures MentionNotices(t, told) + [] == MentionNotices(t, told)
  {
    assert MentionNotices(t, told + heard) == MentionNotices(t, told) + MentionNotices(t, heard);
  }

  lemma AllTold(t: TaskId, all: seq<UserId>, left: nat, crash: nat)
    requires crash == left + 2 * |all|
    ensures var told := MentionNotices(t, all);
      told[..Min((crash + 1) / 2, |told|)] == told && told[..Min(crash / 2, |told|)] == told
  {
  }

  method GetByEmail(users: map<UserId, string>, email: string) returns (r: Option<UserId>)
    requires EmailsUnique(users)
    ensures r == UserByEmail(users, email)
  {
    var found := set u | u in users && users[u] == email;
    if found == {} {
      assert forall u :: u in users && users[u] == email ==> u in found;
      return None;
    }
    var u :| u in found;
    return Some(u);
  }

  class Backend {
    /** The class of characters `\w` stands for. */
    const word: char -> bool
    var committed: Db
    var session: Db
    var objects: set<string>
    var channel: seq<Event>
    var notices: seq<Notice>
    var inbox: seq<Notice>

    ghost predicate Announced()
      reads this
    {
      AnnouncedAfterCommit(word, committed, channel, notices, inbox)
    }

    /** Nothing is left uncommitted in the session. */
    ghost predicate Settled()
      reads this
    {
      session == committed && Announced()
    }

    /** What holds between two calls. */
    ghost predicate Valid()
      reads this
    {
      IsWordClass(word) && Sound(committed) && Settled()
    }

    /** A service starting over a sound database, with nothing announced yet. */
    constructor (w: char -> bool, db: Db, stored: set<string>)
      requires IsWordClass(w) && Sound(db)
      ensures Valid() && committed == db && objects == stored && channel == [] && notices == [] && inbox == []
    {
      word, committed, session, objects, channel, notices, inbox := w, db, db, stored, [], [], [];
      PrefixIsSubsequence([], EventsOf(db.log));
      PrefixIsSubsequence<Notice>([], []);
      PrefixIsSubsequence([], Due(w, db, db.log));
      AnnouncedMeans(w, db, [], [], []);
    }

    ghost predicate MayPublish(e: Event)
      reads this
    {
      AnnouncedAfterCommit(word, committed, channel + [e], notices, inbox)
    }

    /** The last log entry is committed, and none of its notices given yet. */
    ghost predicate NoticesOwed()
      reads this
    {
      LastUntold(word, committed, notices)
    }

    /** The session's changes become durable, all at once. */
    method Commit(ghost call: Call)
      requires IsWordClass(word) && Sound(committed) && Holds(Shape, committed) && Announced()
      requires Fresh(committed, call) && CallError(committed, call) == None
      requires session == After(committed, call)
      modifies this`committed
      ensures Valid() && committed == session
      ensures |committed.log| > |old(committed).log| ==>
        MayPublish(EventOf(committed.log[|old(committed).log|])) && NoticesOwed()
    {
      CommitCall(word, committed, call, channel, notices, inbox);
      committed := session;
    }

    method Publish(e: Event)
      requires Settled() && MayPublish(e)
      modifies this`channel
      ensures Settled() && channel == old(channel) + [e]
    {
      channel := channel + [e];
    }

    /** Commit, then publish the event of the entry the transaction logged. */
    method CommitAndPublish(ghost call: Call, e: Event, crash: nat) returns (done: bool)
      requires IsWordClass(word) && Sound(committed) && Holds(Shape, committed) && Announced()
      requires Fresh(committed, call) && CallError(committed, call) == None
      requires session == After(committed, call)
      requires |session.log| > |committed.log| && EventOf(session.log[|committed.log|]) == e
      modifies this`session, this`committed, this`channel
      ensures Valid()
      ensures committed == if crash == 0 then old(committed) else old(session)
      ensures channel == old(channel) + (if crash <= 1 then [] else [e])
      ensures done <==> crash > 1
      ensures done ==> NoticesOwed()
    {
      if crash == 0 {
        session := committed;
        return false;
      }
      Commit(call);
      if crash == 1 {
        return false;
      }
      Publish(e);
      done := true;
    }

    /** create_and_dispatch: a notification row in its own transaction, then the live message. The notice
        must be one that a committed entry calls for and that has not been given yet. */
    method Dispatch(n: Notice, crash: nat) returns (done: bool)
      requires Settled() && Subsequence(notices + [n], Due(word, committed, committed.log))
      modifies this`notices, this`inbox
      ensures Settled()
      ensures notices == old(notices) + (if crash == 0 then [] else [n])
      ensures inbox == old(inbox) + (if crash <= 1 then [] else [n])
      ensures done <==> crash > 1
    {
      NoticeKeepsAnnounced(word, committed, channel, notices, inbox, n);
      if crash == 0 {
        return false;
      }
      notices := notices + [n];
      if crash == 1 {
        return false;
      }
      inbox := inbox + [n];
      done := true;
    }

    /** Tell a newly assigned user, unless they did it themselves. */
    method NotifyAssignee(t: TaskId, assignee: Value, actor: UserId, crash: nat) returns (r: Outcome)
      requires Settled() && NoticesOwed()
      requires NoticesOf(word, committed, committed.log[|committed.log| - 1]) ==
        if Told(assignee, actor) then [Notice(assignee.user, Assigned, t)] else []
      modifies this`notices, this`inbox
      ensures Settled()
      ensures notices == old(notices) +
        (if Told(assignee, actor) && crash > 0 then [Notice(assignee.user, Assigned, t)] else [])
      ensures inbox == old(inbox) +
        (if Told(assignee, actor) && crash > 1 then [Notice(assignee.user, Assigned, t)] else [])
      ensures r == if Told(assignee, actor) && crash <= 1 then Crashed else Finished
    {
      r := Finished;
      if Told(assignee, actor) {
        LastMayBeTold(word, committed, notices, [Notice(assignee.user, Assigned, t)]);
        var done := Dispatch(Notice(assignee.user, Assigned, t), crash);
        if !done {
          r := Crashed;
        }
      }
    }

    /** create_task up to the commit: checks, position at the end of the column, row and log entry. */
    method PrepareTask(t: TaskId, project: ProjectId, fields: Fields, parent: Option<TaskId>, actor: UserId)
      returns (error: Option<Error>)
      requires session == committed && ForestInv(committed) && LabelsKnown(committed)
      modifies this`session
      ensures error == CreateError(committed, project, fields, parent)
      ensures session == After(committed, Call.CreateTask(t, project, fields, parent, actor))
    {
      error := CreateError(session, project, fields, parent);
      if error == None {
        var maxPosition := SelectMaxPosition(session.tasks, project, fields.status);
        MaxPositionUnique(session.tasks, project, fields.status, maxPosition,
                          MaxPosition(session.tasks, project, fields.status));
        session := Created(session, t, project, fields, parent, actor, maxPosition);
      }
    }

    /** create_task. The effects are the commit, the event and, for an assignee other than the creator,
        the notification row and message. */
    method CreateTask(t: TaskId, project: ProjectId, fields: Fields, parent: Option<TaskId>,
                      actor: UserId, crash: nat) returns (r: Outcome)
      requires Valid() && t !in committed.births
      modifies this`committed, this`session, this`channel, this`notices, this`inbox
      ensures Valid()
      ensures var error := CreateError(old(committed), project, fields, parent);
        error.Some? ==>
          r == Rejected(error.value) && committed == old(committed) && channel == old(channel) &&
          notices == old(notices) && inbox == old(inbox)
      ensures CreateError(old(committed), project, fields, parent) == None ==>
        var told := Told(fields.assignee, actor);
        && committed == (if crash == 0 then old(committed)
                         else Created(old(committed), t, project, fields, parent, actor,
                                      MaxPosition(old(committed).tasks, project, fields.status)))
        && channel == old(channel) + (if crash > 1 then [Event(TaskCreated, OfTask(t), map[], None)] else [])
        && notices == old(notices) + (if told && crash > 2 then [Notice(fields.assignee.user, Assigned, t)] else [])
        && inbox == old(inbox) + (if told && crash > 3 then [Notice(fields.assignee.user, Assigned, t)] else [])
        && r == if crash > (if told then 3 else 1) then Finished else Crashed
    {
      assert Holds(Shape, committed);
      var error := PrepareTask(t, project, fields, parent, actor);
      if error.Some? {
        return Rejected(error.value);
      }
      var done := CommitAndPublish(Call.CreateTask(t, project, fields, parent, actor),
                                   Event(TaskCreated, OfTask(t), map[], None), crash);
      if !done {
        return Crashed;
      }
      r := NotifyAssignee(t, fields.assignee, actor, crash - 2);
    }

    /** The setattr loop: what differs is noted before it is overwritten. */
    method SetFields(t: TaskId, items: seq<(Field, Value)>) returns (changes: map<Field, (string, string)>)
      requires t in session.tasks
      modifies this`session
      ensures session == WithFields(old(session), t, SetAll(old(session).tasks[t].fields, items))
      ensures changes == Noted(old(session).tasks[t].fields, items)
    {
      ghost var before, fields := session, session.tasks[t].fields;
      changes := map[];
      assert session.tasks[t := session.tasks[t]] == session.tasks;
      for k := 0 to |items|
        invariant session == WithFields(before, t, SetAll(fields, items[..k]))
        invariant changes == Noted(fields, items[..k])
      {
        var (f, v) := items[k];
        var row := session.tasks[t];
        assert items[..k + 1][..k] == items[..k];
        SetTwice(before, t, row.fields, row.fields.Set(f, v));
        if row.fields.Get(f) != v {
          changes := changes[f := (Str(row.fields.Get(f)), Str(v))];
        }
        session := WithFields(session, t, row.fields.Set(f, v));
      }
      assert items[..|items|] == items;
    }

    /** _resolve_labels: stop at the first id that is not a label of the project. */
    method ResolveLabels(project: ProjectId, ids: seq<LabelId>) returns (ok: bool, resolved: seq<LabelId>)
      ensures ok <==> LabelsResolve(session, project, ids)
      ensures ok ==> resolved == ids
    {
      resolved := [];
      for k := 0 to |ids|
        invariant LabelsResolve(session, project, ids[..k])
        invariant resolved == ids[..k]
      {
        if ids[k] !in session.labels || session.labels[ids[k]].project != project {
          return false, resolved;
        }
        resolved := resolved + [ids[k]];
      }
      ok := true;
    }

    /** `task.labels = ...`, with the names before and after where they differ. */
    method SetLabels(t: TaskId, ids: seq<LabelId>)
      returns (ok: bool, labelChange: Option<(multiset<string>, multiset<string>)>)
      requires t in session.tasks && LabelsResolve(session, session.tasks[t].project, session.tasks[t].labels)
      modifies this`session
      ensures ok <==> LabelsResolve(old(session), old(session).tasks[t].project, ids)
      ensures ok ==> session == WithLabels(old(session), t, ids)
      ensures ok ==> labelChange == LabelChange(old(session), t, Some(ids))
    {
      var task := session.tasks[t];
      var oldNames := Names(session.labels, task.labels);
      var found, resolved := ResolveLabels(task.project, ids);
      ok, labelChange := found, None;
      if ok {
        session := WithLabels(session, t, resolved);
        var newNames := Names(session.labels, resolved);
        if oldNames != newNames {
          labelChange := Some((oldNames, newNames));
        }
      }
    }

    /** The flush of one changed task row and of its label rows, or the constraint it violates. */
    method Flush(t: TaskId, stored: seq<LabelId>, labelIds: Option<seq<LabelId>>) returns (error: Option<Error>)
      requires t in session.tasks
      requires session.tasks[t].labels == labelIds.GetOr(stored)
      modifies this`session
      ensures error == FlushError(old(session).tasks[t].fields, stored, labelIds)
      ensures error == None ==> session == WithLabels(old(session), t, RowsOr(labelIds, stored))
    {
      var row := session.tasks[t];
      if !row.fields.Storable() {
        return Some(NotNullViolation);
      }
      error := None;
      if labelIds.Some? {
        if InsertsRowTwice(stored, row.labels) {
          return Some(DuplicateLabelRow);
        }
        session := WithLabels(session, t, Rows(row.labels));
      } else {
        LabelsUnset(session, t);
      }
    }

    /** Set the fields, then the labels if any are given. */
    method SetRow(t: TaskId, items: seq<(Field, Value)>, labelIds: Option<seq<LabelId>>)
      returns (ok: bool, changes: map<Field, (string, string)>,
               labelChange: Option<(multiset<string>, multiset<string>)>)
      requires t in session.tasks && LabelsResolve(session, session.tasks[t].project, session.tasks[t].labels)
      modifies this`session
      ensures ok <==> labelIds.Some? ==> LabelsResolve(old(session), old(session).tasks[t].project, labelIds.value)
      ensures ok ==> changes == Noted(old(session).tasks[t].fields, items)
      ensures ok ==> labelChange == LabelChange(old(session), t, labelIds)
      ensures ok ==> session == WithRow(old(session), t, SetAll(old(session).tasks[t].fields, items),
                                        labelIds.GetOr(old(session).tasks[t].labels))
    {
      ghost var before := session;
      ok, labelChange := true, None;
      changes := SetFields(t, items);
      FieldsThenLabels(before, t, session.tasks[t].fields, labelIds.GetOr(before.tasks[t].labels));
      if labelIds.Some? {
        ok, labelChange := SetLabels(t, labelIds.value);
      }
    }

    /** Set the fields and labels, then flush. */
    method ApplyUpdate(t: TaskId, items: seq<(Field, Value)>, labelIds: Option<seq<LabelId>>)
      returns (error: Option<Error>, changes: map<Field, (string, string)>,
               labelChange: Option<(multiset<string>, multiset<string>)>)
      requires t in session.tasks && LabelsResolve(session, session.tasks[t].project, session.tasks[t].labels)
      modifies this`session
      ensures var task := old(session).tasks[t];
        error == if labelIds.Some? && !LabelsResolve(old(session), task.project, labelIds.value)
                 then Some(LabelNotInProject) else FlushError(SetAll(task.fields, items), task.labels, labelIds)
      ensures error == None ==>
        var task := old(session).tasks[t];
        && changes == Noted(task.fields, items) && labelChange == LabelChange(old(session), t, labelIds)
        && session == WithRow(old(session), t, SetAll(task.fields, items), RowsOr(labelIds, task.labels))
    {
      ghost var before := session;
      var stored := session.tasks[t].labels;
      var ok;
      ok, changes, labelChange := SetRow(t, items, labelIds);
      if !ok {
        return Some(LabelNotInProject), changes, labelChange;
      }
      RowThenLabels(before, t, session.tasks[t].fields, session.tasks[t].labels, RowsOr(labelIds, stored));
      error := Flush(t, stored, labelIds);
    }

    method LogUpdate(t: TaskId, actor: UserId, changes: map<Field, (string, string)>,
                     labelChange: Option<(multiset<string>, multiset<string>)>)
      requires t in session.tasks
      modifies this`session
      ensures session == WithLog(old(session), t, actor, changes, labelChange)
    {
      if changes != map[] || labelChange != None {
        var e := LogEntry(Some(t), actor, TaskUpdated, OfTask(t), changes, labelChange,
                          AssignedTo(session.tasks[t].fields.assignee));
        session := session.(log := session.log + [e]);
      }
    }

    /** Fields, labels, flush and log entry of an update whose assignee has been accepted. */
    method StageUpdate(t: TaskId, items: seq<(Field, Value)>, labelIds: Option<seq<LabelId>>, actor: UserId)
      returns (error: Option<Error>, changes: map<Field, (string, string)>,
               labelChange: Option<(multiset<string>, multiset<string>)>)
      requires t in session.tasks && KeysDistinct(items)
      requires LabelsResolve(session, session.tasks[t].project, session.tasks[t].labels)
      requires Assignee in AsMap(items) ==> MayAssign(session, session.tasks[t].project, AsMap(items)[Assignee])
      modifies this`session
      ensures error == UpdateError(old(session), t, AsMap(items), labelIds)
      ensures error == None ==>
        && session == Updated(old(session), t, AsMap(items), labelIds, actor)
        && changes == Changes(old(session).tasks[t].fields, AsMap(items))
        && labelChange == LabelChange(old(session), t, labelIds)
    {
      ghost var before := session;
      UpdateErrorBySteps(before, t, items, labelIds);
      error, changes, labelChange := ApplyUpdate(t, items, labelIds);
      if error == None {
        UpdateBySteps(before, t, items, labelIds, actor);
        LogUpdate(t, actor, changes, labelChange);
      }
    }

    /** The part of update_task before the commit: on success the session holds the update; on failure
        it is rolled back, even where fields had been set before the labels were refused. */
    method PrepareUpdate(t: TaskId, items: seq<(Field, Value)>, labelIds: Option<seq<LabelId>>, actor: UserId)
      returns (error: Option<Error>, changes: map<Field, (string, string)>,
               labelChange: Option<(multiset<string>, multiset<string>)>)
      requires session == committed && KeysDistinct(items)
      requires t in committed.tasks ==>
        LabelsResolve(committed, committed.tasks[t].project, committed.tasks[t].labels)
      modifies this`session
      ensures error == UpdateError(committed, t, AsMap(items), labelIds)
      ensures error.Some? ==> session == committed
      ensures error == None ==>
        && session == Updated(committed, t, AsMap(items), labelIds, actor)
        && changes == Changes(committed.tasks[t].fields, AsMap(items))
        && labelChange == LabelChange(committed, t, labelIds)
    {
      changes, labelChange := map[], None;
      if t !in session.tasks {
        return Some(TaskNotFound), changes, labelChange;
      }
      var updates := AsMap(items);
      if Assignee in updates && !MayAssign(session, session.tasks[t].project, updates[Assignee]) {
        return Some(AssigneeNotMember), changes, labelChange;
      }
      error, changes, labelChange := StageUpdate(t, items, labelIds, actor);
      if error.Some? {
        session := committed;
      }
    }

    /** Commit a prepared update, and publish it if it changed anything. */
    method SaveUpdate(t: TaskId, ghost items: seq<(Field, Value)>, ghost labelIds: Option<seq<LabelId>>,
                      ghost actor: UserId, changes: map<Field, (string, string)>,
                      labelChange: Option<(multiset<string>, multiset<string>)>, crash: nat) returns (done: bool)
      requires IsWordClass(word) && Sound(committed) && Holds(Shape, committed) && Announced()
      requires UpdateError(committed, t, AsMap(items), labelIds) == None
      requires changes == Changes(committed.tasks[t].fields, AsMap(items))
      requires labelChange == LabelChange(committed, t, labelIds)
      requires session == Updated(committed, t, AsMap(items), labelIds, actor)
      modifies this`session, this`committed, this`channel
      ensures Valid()
      ensures committed == if crash == 0 then old(committed) else old(session)
      ensures var changed := changes != map[] || labelChange != None;
        && channel == old(channel) +
             (if changed && crash > 1 then [Event(TaskUpdated, OfTask(t), changes, labelChange)] else [])
        && (done <==> crash > if changed then 1 else 0)
        && (done && changed ==> NoticesOwed())
    {
      ghost var call := Call.UpdateTask(t, AsMap(items), labelIds, actor);
      assert session == After(committed, call);
      if changes != map[] || labelChange != None {
        done := CommitAndPublish(call, Event(TaskUpdated, OfTask(t), changes, labelChange), crash);
      } else if crash == 0 {
        session := committed;
        done := false;
      } else {
        Commit(call);
        done := true;
      }
    }

    /** The word to a new assignee, once the update that made them one is committed. */
    method NotifyUpdate(ghost before: Db, t: TaskId, ghost updates: map<Field, Value>,
                        ghost labelIds: Option<seq<LabelId>>, actor: UserId, crash: nat) returns (r: Outcome)
      requires UpdateError(before, t, updates, labelIds) == None
      requires LabelsResolve(before, before.tasks[t].project, before.tasks[t].labels)
      requires Assignee in Changes(before.tasks[t].fields, updates)
      requires Settled() && NoticesOwed() && committed == Updated(before, t, updates, labelIds, actor)
      modifies this`notices, this`inbox
      ensures Settled()
      ensures var assignee := updates[Assignee];
        && notices == old(notices) +
             (if Told(assignee, actor) && crash > 0 then [Notice(assignee.user, Assigned, t)] else [])
        && inbox == old(inbox) +
             (if Told(assignee, actor) && crash > 1 then [Notice(assignee.user, Assigned, t)] else [])
        && r == if Told(assignee, actor) && crash <= 1 then Crashed else Finished
    {
      UpdateNotices(word, before, t, updates, labelIds, actor);
      r := NotifyAssignee(t, session.tasks[t].fields.assignee, actor, crash);
    }

    /** update_task: validate, set, log, commit, then announce what changed. */
    method UpdateTask(t: TaskId, items: seq<(Field, Value)>, labelIds: Option<seq<LabelId>>,
                      actor: UserId, crash: nat) returns (r: Outcome)
      requires Valid() && Holds(Shape, committed) && KeysDistinct(items)
      modifies this`committed, this`session, this`channel, this`notices, this`inbox
      ensures Valid()
      ensures var error := UpdateError(old(committed), t, AsMap(items), labelIds);
        error.Some? ==>
          r == Rejected(error.value) && committed == old(committed) && channel == old(channel) &&
          notices == old(notices) && inbox == old(inbox)
      ensures UpdateError(old(committed), t, AsMap(items), labelIds) == None ==>
        committed == if crash == 0 then old(committed) else Updated(old(committed), t, AsMap(items), labelIds, actor)
      ensures UpdateError(old(committed), t, AsMap(items), labelIds) == None ==>
        var changes := Changes(old(committed).tasks[t].fields, AsMap(items));
        var labelChange := LabelChange(old(committed), t, labelIds);
        var changed := changes != map[] || labelChange != None;
        var told := Assignee in changes && Told(AsMap(items)[Assignee], actor);
        && channel == old(channel) +
             (if changed && crash > 1 then [Event(TaskUpdated, OfTask(t), changes, labelChange)] else [])
        && notices == old(notices) +
             (if told && crash > 2 then [Notice(AsMap(items)[Assignee].user, Assigned, t)] else [])
        && inbox == old(inbox) +
             (if told && crash > 3 then [Notice(AsMap(items)[Assignee].user, Assigned, t)] else [])
        && r == if crash > (if told then 3 else if changed then 1 else 0) then Finished else Crashed
    {
      ghost var before := committed;
      var error, changes, labelChange := PrepareUpdate(t, items, labelIds, actor);
      if error.Some? {
        return Rejected(error.value);
      }
      var done := SaveUpdate(t, items, labelIds, actor, changes, labelChange, crash);
      if !done {
        return Crashed;
      }
      r := Finished;
      if Assignee in changes {
        r := NotifyUpdate(before, t, AsMap(items), labelIds, actor, crash - 2);
      }
    }

    /** The object loop of delete_task, cut off after `crash` deletes. */
    method DeleteObjects(listing: seq<AttachmentId>, crash: nat) returns (done: bool)
      requires forall k :: 0 <= k < |listing| ==> listing[k] in session.attachments
      modifies this`objects
      ensures objects == old(objects) - KeysListed(session, listing[..Min(crash, |listing|)])
      ensures done <==> crash >= |listing|
    {
      for k := 0 to |listing|
        invariant k <= crash
        invariant objects == old(objects) - KeysListed(session, listing[..k])
      {
        if k == crash {
          return false;
        }
        objects := objects - {session.attachments[listing[k]].key};
        assert forall j :: 0 <= j < k ==> listing[..k + 1][j] == listing[..k][j];
        assert KeysListed(session, listing[..k + 1]) ==
          KeysListed(session, listing[..k]) + {session.attachments[listing[k]].key};
      }
      done := true;
    }

    /** delete_task: the objects of the task's own attachments go first, one by one; then the rows of its
        whole subtree in one commit; then the event. */
    method DeleteTask(t: TaskId, listing: seq<AttachmentId>, actor: UserId, crash: nat) returns (r: Outcome)
      requires Valid() && Holds(Shape, committed) && Lists(committed, t, listing)
      modifies this`committed, this`session, this`objects, this`channel
      ensures Valid()
      ensures t !in old(committed).tasks ==>
        r == Rejected(TaskNotFound) && committed == old(committed) && objects == old(objects) && channel == old(channel)
      ensures t in old(committed).tasks ==>
        && objects == old(objects) - KeysListed(old(committed), listing[..Min(crash, |listing|)])
        && (crash >= |listing| ==> objects == old(objects) - KeysOf(old(committed), {t}))
        && committed == (if crash <= |listing| then old(committed)
                         else Deleted(old(committed), t, actor, Subtree(old(committed), t)))
        && channel == old(channel) +
             (if crash > |listing| + 1 then [Event(TaskDeleted, OfTask(t), map[], None)] else [])
        && r == if crash > |listing| + 1 then Finished else Crashed
    {
      if t !in session.tasks {
        return Rejected(TaskNotFound);
      }
      ListedKeys(session, t, listing);
      assert listing[..|listing|] == listing;
      var done := DeleteObjects(listing, crash);
      if !done {
        return Crashed;
      }
      var gone := CollectCascade(session, t);
      CascadeIsSubtree(session, t);
      session := Deleted(session, t, actor, gone);
      done := CommitAndPublish(Call.DeleteTask(t, actor), Event(TaskDeleted, OfTask(t), map[], None),
                               crash - |listing|);
      r := if done then Finished else Crashed;
    }

    /** upload_attachment: the object first, so that no committed row ever lacks its object. */
    method UploadAttachment(a: AttachmentId, t: TaskId, key: string, space: char -> bool, filename: string,
                            size: nat, maxBytes: nat, actor: UserId, crash: nat) returns (r: Outcome)
      requires Valid() && Fresh(committed, Call.Attach(a, t, key, actor))
      modifies this`committed, this`session, this`objects, this`channel
      ensures Valid()
      ensures var error := if t !in old(committed).tasks then Some(TaskNotFound)
                     else UploadError(space, filename, size, maxBytes);
        && (error.Some? ==> r == Rejected(error.value))
        && objects == old(objects) + (if error == None && crash > 0 then {key} else {})
        && committed == (if error == None && crash > 1
                         then Attached(old(committed), a, t, key, actor) else old(committed))
        && channel == old(channel) +
             (if error == None && crash > 2 then [Event(AttachmentAdded, OfAttachment(a, t), map[], None)] else [])
        && (error == None ==> r == if crash > 2 then Finished else Crashed)
    {
      if t !in session.tasks {
        return Rejected(TaskNotFound);
      }
      var error := UploadError(space, filename, size, maxBytes);
      if error.Some? {
        return Rejected(error.value);
      }
      if crash == 0 {
        return Crashed;
      }
      assert Holds(Shape, committed);
      objects := objects + {key};
      session := Attached(session, a, t, key, actor);
      var done := CommitAndPublish(Call.Attach(a, t, key, actor),
                                   Event(AttachmentAdded, OfAttachment(a, t), map[], None), crash - 1);
      r := if done then Finished else Crashed;
    }

    /** delete_attachment: the row first, then the object, then the event. */
    method DeleteAttachment(a: AttachmentId, actor: UserId, crash: nat) returns (r: Outcome)
      requires Valid()
      modifies this`committed, this`session, this`objects, this`channel
      ensures Valid()
      ensures a !in old(committed).attachments ==>
        r == Rejected(AttachmentNotFound) && committed == old(committed) && objects == old(objects) &&
        channel == old(channel)
      ensures a in old(committed).attachments ==>
        var row := old(committed).attachments[a];
        && committed == (if crash > 0 then Unattached(old(committed), a, row.task, actor) else old(committed))
        && objects == old(objects) - (if crash > 1 then {row.key} else {})
        && channel == old(channel) +
             (if crash > 2 then [Event(AttachmentRemoved, OfAttachment(a, row.task), map[], None)] else [])
        && r == if crash > 2 then Finished else Crashed
    {
      if a !in session.attachments {
        return Rejected(AttachmentNotFound);
      }
      assert Holds(Shape, committed);
      var row := session.attachments[a];
      session := Unattached(session, a, row.task, actor);
      if crash == 0 {
        session := committed;
        return Crashed;
      }
      Commit(Call.Unattach(a, actor));
      if crash == 1 {
        return Crashed;
      }
      objects := objects - {row.key};
      if crash == 2 {
        return Crashed;
      }
      Publish(Event(AttachmentRemoved, OfAttachment(a, row.task), map[], None));
      r := Finished;
    }

    /** One turn of the mention loop: look the email up, skip the author and strangers, tell the rest. */
    method NotifyMention(email: string, project: ProjectId, t: TaskId, author: UserId, crash: nat)
      returns (told: bool, done: bool)
      requires Settled() && EmailsUnique(committed.users)
      requires Subsequence(notices + MentionNotices(t, Recipient(committed, project, author, email)),
                           Due(word, committed, committed.log))
      modifies this`notices, this`inbox
      ensures Settled()
      ensures var heard := Recipient(committed, project, author, email);
        && |heard| == (if told then 1 else 0)
        && notices == old(notices) + (if crash > 0 then MentionNotices(t, heard) else [])
        && inbox == old(inbox) + (if crash > 1 then MentionNotices(t, heard) else [])
      ensures done <==> told ==> crash > 1
    {
      var user := GetByEmail(session.users, email);
      if user == None || user.value == author || (project, user.value) !in session.members {
        return false, true;
      }
      told := true;
      assert Recipient(committed, project, author, email) == [user.value];
      assert MentionNotices(t, [user.value]) == [Notice(user.value, Mentioned, t)];
      done := Dispatch(Notice(user.value, Mentioned, t), crash);
    }

    /** _notify_mentions: one row and one message per recipient, in the order of first mention. */
    method NotifyMentions(body: string, t: TaskId, author: UserId, crash: nat, ghost told: seq<Notice>)
      returns (r: Outcome)
      requires Settled() && EmailsUnique(committed.users) && IsWordClass(word) && t in session.tasks
      requires NoticesOwed() && told == ToldOf(word, committed, body, t, author)
      requires NoticesOf(word, committed, committed.log[|committed.log| - 1]) == told
      modifies this`notices, this`inbox
      ensures Settled()
      ensures notices == old(notices) + told[..Min((crash + 1) / 2, |told|)]
      ensures inbox == old(inbox) + told[..Min(crash / 2, |told|)]
      ensures r == if crash >= 2 * |told| then Finished else Crashed
    {
      var emails := ExtractMentionedEmails(word, body);
      var project := session.tasks[t].project;
      r := NotifyEmails(emails, project, t, author, crash);
    }

    /** One turn, given what the turns before it have done. */
    method NotifyNext(emails: seq<string>, i: nat, project: ProjectId, t: TaskId, author: UserId, left: nat,
                      ghost crash: nat, ghost rows: seq<Notice>, ghost messages: seq<Notice>)
      returns (hears: bool, done: bool)
      requires Settled() && EmailsUnique(committed.users) && LastUntold(word, committed, rows) && i < |emails|
      requires NoticesOf(word, committed, committed.log[|committed.log| - 1]) ==
        MentionNotices(t, Recipients(committed, project, author, emails))
      requires var told := Recipients(committed, project, author, emails[..i]);
        && crash == left + 2 * |told|
        && notices == rows + MentionNotices(t, told) && inbox == messages + MentionNotices(t, told)
      modifies this`notices, this`inbox
      ensures Settled()
      ensures done ==>
        var told := Recipients(committed, project, author, emails[..i + 1]);
        && crash == (if hears then left - 2 else left) + 2 * |told| && (hears ==> left >= 2)
        && notices == rows + MentionNotices(t, told) && inbox == messages + MentionNotices(t, told)
      ensures !done ==>
        var all := MentionNotices(t, Recipients(committed, project, author, emails));
        && notices == rows + all[..Min((crash + 1) / 2, |all|)]
        && inbox == messages + all[..Min(crash / 2, |all|)] && crash < 2 * |all|
    {
      ghost var told := Recipients(committed, project, author, emails[..i]);
      ghost var heard := Recipient(committed, project, author, emails[i]);
      NextRecipient(committed, project, author, emails, i, t, left, crash);
      TellMore(rows, t, told, heard);
      TellMore(messages, t, told, heard);
      LastMayBeTold(word, committed, rows, MentionNotices(t, told + heard));
      hears, done := NotifyMention(emails[i], project, t, author, left);
    }

    method NotifyEmails(emails: seq<string>, project: ProjectId, t: TaskId, author: UserId, crash: nat)
      returns (r: Outcome)
      requires Settled() && EmailsUnique(committed.users) && NoticesOwed()
      requires NoticesOf(word, committed, committed.log[|committed.log| - 1]) ==
        MentionNotices(t, Recipients(committed, project, author, emails))
      modifies this`notices, this`inbox
      ensures Settled()
      ensures var told := MentionNotices(t, Recipients(committed, project, author, emails));
        && notices == old(notices) + told[..Min((crash + 1) / 2, |told|)]
        && inbox == old(inbox) + told[..Min(crash / 2, |told|)]
        && r == if crash >= 2 * |told| then Finished else Crashed
    {
      var left: nat := crash;
      assert notices + MentionNotices(t, []) == notices && inbox + MentionNotices(t, []) == inbox;
      for i := 0 to |emails|
        invariant Settled()
        invariant crash == left + 2 * |Recipients(committed, project, author, emails[..i])|
        invariant notices == old(notices) + MentionNotices(t, Recipients(committed, project, author, emails[..i]))
        invariant inbox == old(inbox) + MentionNotices(t, Recipients(committed, project, author, emails[..i]))
      {
        var hears, done := NotifyNext(emails, i, project, t, author, left, crash, old(notices), old(inbox));
        if !done {
          return Crashed;
        }
        if hears {
          left := left - 2;
        }
      }
      assert emails[..|emails|] == emails;
      AllTold(t, Recipients(committed, project, author, emails), left, crash);
      r := Finished;
    }

    /** create_comment up to the event. */
    method PostComment(c: CommentId, t: TaskId, body: string, author: UserId, crash: nat) returns (done: bool)
      requires Valid() && c !in committed.comments && t in committed.tasks
      modifies this`committed, this`session, this`channel
      ensures Valid()
      ensures committed == if crash > 0 then Commented(old(committed), c, t, body, author) else old(committed)
      ensures channel == old(channel) +
        (if crash > 1 then [Event(CommentAdded, OfComment(c, t), map[], None)] else [])
      ensures done <==> crash > 1
      ensures done ==> NoticesOwed()
    {
      assert Holds(Shape, committed);
      session := Commented(session, c, t, body, author);
      done := CommitAndPublish(Call.Comment(c, t, body, author),
                               Event(CommentAdded, OfComment(c, t), map[], None), crash);
    }

    /** create_comment: commit, publish, then the notifications. */
    method CreateComment(c: CommentId, t: TaskId, body: string, author: UserId, crash: nat) returns (r: Outcome)
      requires Valid() && c !in committed.comments
      modifies this`committed, this`session, this`channel, this`notices, this`inbox
      ensures Valid()
      ensures t !in old(committed).tasks ==>
        r == Rejected(TaskNotFound) && committed == old(committed) && channel == old(channel) &&
        notices == old(notices) && inbox == old(inbox)
      ensures t in old(committed).tasks ==>
        var told := ToldOf(word, old(committed), body, t, author);
        && committed == (if crash > 0 then Commented(old(committed), c, t, body, author) else old(committed))
        && channel == old(channel) +
             (if crash > 1 then [Event(CommentAdded, OfComment(c, t), map[], None)] else [])
        && notices == old(notices) + (if crash > 1 then told[..Min((crash - 2 + 1) / 2, |told|)] else [])
        && inbox == old(inbox) + (if crash > 1 then told[..Min((crash - 2) / 2, |told|)] else [])
        && r == if crash >= 2 + 2 * |told| then Finished else Crashed
    {
      if t !in session.tasks {
        return Rejected(TaskNotFound);
      }
      ghost var before, told := committed, ToldOf(word, committed, body, t, author);
      var done := PostComment(c, t, body, author, crash);
      if !done {
        return Crashed;
      }
      assert Holds(Addresses, committed);
      CommentNotices(word, before, c, t, body, author);
      r := NotifyMentions(body, t, author, crash - 2, told);
    }
  }
}
