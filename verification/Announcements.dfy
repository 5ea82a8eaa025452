/** What may be published, and when: only what is already committed
    (backend/app/services/task_service.py, attachment_service.py, comment_service.py,
    notification_service.py). */
module Announcements {
  import opened Common
  import opened TaskStore
  import opened Mentions
  import opened MentionDelivery

  /** What is published on a project's channel about one logged action. */
  datatype Event = Event(
    kind: Kind, subject: Subject,
    changes: map<Field, (string, string)>, labelChange: Option<(multiset<string>, multiset<string>)>)

  datatype NoticeKind = Assigned | Mentioned

  /** A notification row, and the live message about it. */
  datatype Notice = Notice(user: UserId, kind: NoticeKind, task: TaskId)

  function EventOf(e: LogEntry): Event {
    Event(e.kind, e.subject, e.changes, e.labelChange)
  }

  function EventsOf(log: seq<LogEntry>): (r: seq<Event>)
    ensures |r| == |log| && forall k :: 0 <= k < |log| ==> r[k] == EventOf(log[k])
  {
    seq(|log|, k requires 0 <= k < |log| => EventOf(log[k]))
  }

  /** `at` places the elements of `xs` in `ys`, in order. */
  ghost predicate Places<T(!new)>(at: seq<nat>, xs: seq<T>, ys: seq<T>) {
    && |at| == |xs|
    && (forall i :: 0 <= i < |at| ==> at[i] < |ys| && ys[at[i]] == xs[i])
    && (forall i, j :: 0 <= i < j < |at| ==> at[i] < at[j])
  }

  /** `xs` is what remains of `ys` after leaving some elements out. */
  ghost predicate Subsequence<T(!new)>(xs: seq<T>, ys: seq<T>) {
    exists at :: Places(at, xs, ys)
  }

  lemma PrefixIsSubsequence<T(!new)>(xs: seq<T>, ys: seq<T>)
    requires xs <= ys
    ensures Subsequence(xs, ys)
  {
    var at: seq<nat> := seq(|xs|, i => i);
    assert Places(at, xs, ys);
  }

  lemma SubsequenceConcat<T(!new)>(a: seq<T>, b: seq<T>, c: seq<T>, d: seq<T>)
    requires Subsequence(a, b) && Subsequence(c, d)
    ensures Subsequence(a + c, b + d)
  {
    var p: seq<nat> :| Places(p, a, b);
    var q: seq<nat> :| Places(q, c, d);
    var at: seq<nat> := p + seq(|q|, i requires 0 <= i < |q| => |b| + q[i]);
    assert Places(at, a + c, b + d);
  }

  lemma SubsequenceTransitive<T(!new)>(xs: seq<T>, ys: seq<T>, zs: seq<T>)
    requires Subsequence(xs, ys) && Subsequence(ys, zs)
    ensures Subsequence(xs, zs)
  {
    var p: seq<nat> :| Places(p, xs, ys);
    var q: seq<nat> :| Places(q, ys, zs);
    var at: seq<nat> := seq(|p|, i requires 0 <= i < |p| => q[p[i]]);
    assert Places(at, xs, zs);
  }

  lemma SubsequenceMember<T(!new)>(xs: seq<T>, ys: seq<T>, x: T)
    requires Subsequence(xs, ys) && x in xs
    ensures x in ys
  {
    var at: seq<nat> :| Places(at, xs, ys);
    var i :| 0 <= i < |xs| && xs[i] == x;
    assert ys[at[i]] == x;
  }

  lemma SubsequenceAppend<T(!new)>(xs: seq<T>, ys: seq<T>, y: T)
    requires Subsequence(xs, ys)
    ensures Subsequence(xs, ys + [y])
    ensures Subsequence(xs + [y], ys + [y])
  {
    PrefixIsSubsequence([], [y]);
    PrefixIsSubsequence([y], [y]);
    SubsequenceConcat(xs, ys, [], [y]);
    SubsequenceConcat(xs, ys, [y], [y]);
    assert xs + [] == xs;
  }

  // ----- the notices an action calls for -----

  /** A user is told of an assignment, unless it is their own doing. */
  predicate Told(assignee: Value, actor: UserId) {
    assignee.User? && assignee.user != actor
  }

  /** The action gave the task this assignee: at its creation, or by a logged change to it. */
  predicate Assigns(e: LogEntry, assignee: Value) {
    e.kind == TaskCreated ||
    (e.kind == TaskUpdated && Assignee in e.changes && e.changes[Assignee].1 == Str(assignee))
  }

  function MentionNotices(task: TaskId, users: seq<UserId>): (r: seq<Notice>)
    ensures |r| == |users|
  {
    seq(|users|, k requires 0 <= k < |users| => Notice(users[k], Mentioned, task))
  }

  /** The notices of one logged action, in the order in which they are to be given. */
  ghost function NoticesOf(w: char -> bool, db: Db, e: LogEntry): seq<Notice> {
    if e.kind == CommentAdded then
      if e.subject.OfComment? && e.content.Said? then
        MentionNotices(e.subject.task, Recipients(db, e.content.project, e.actor,
                                                  FirstSeen(Emails(e.content.body, Scan(w, e.content.body, 0)))))
      else []
    else if e.subject.OfTask? && e.content.AssignedTo? && Told(e.content.assignee, e.actor) &&
            Assigns(e, e.content.assignee)
    then [Notice(e.content.assignee.user, Assigned, e.subject.task)]
    else []
  }

  /** All notices the logged actions call for. */
  ghost function Due(w: char -> bool, db: Db, log: seq<LogEntry>): seq<Notice>
    decreases |log|
  {
    if log == [] then [] else Due(w, db, log[..|log| - 1]) + NoticesOf(w, db, log[|log| - 1])
  }

  /** The three lines of announcements. */
  datatype Line = Published | Stored | Sent

  ghost predicate InStep(line: Line, w: char -> bool, db: Db, channel: seq<Event>,
                         notices: seq<Notice>, inbox: seq<Notice>) {
    match line
    case Published => Subsequence(channel, EventsOf(db.log))
    case Stored => Subsequence(notices, Due(w, db, db.log))
    case Sent => Subsequence(inbox, notices)
  }

  /** Nothing is announced before it is durable. The published events are, in order, events of committed
      log entries, each entry announced at most once. The notification rows are, in order, notices that
      committed entries call for, each given at most once; and the live messages are such rows. */
  ghost predicate AnnouncedAfterCommit(w: char -> bool, db: Db, channel: seq<Event>,
                                       notices: seq<Notice>, inbox: seq<Notice>) {
    forall line :: InStep(line, w, db, channel, notices, inbox)
  }

  /** The three lines spelled out. */
  lemma AnnouncedMeans(w: char -> bool, db: Db, channel: seq<Event>, notices: seq<Notice>, inbox: seq<Notice>)
    ensures AnnouncedAfterCommit(w, db, channel, notices, inbox) <==>
      && Subsequence(channel, EventsOf(db.log))
      && Subsequence(notices, Due(w, db, db.log))
      && Subsequence(inbox, notices)
  {
    assert InStep(Published, w, db, channel, notices, inbox) <==> Subsequence(channel, EventsOf(db.log));
    assert InStep(Stored, w, db, channel, notices, inbox) <==> Subsequence(notices, Due(w, db, db.log));
    assert InStep(Sent, w, db, channel, notices, inbox) <==> Subsequence(inbox, notices);
  }

  /** The action that justifies a notification: it made this very user the assignee of the task, or
      mentioned them in a comment on it, and was somebody else's doing. */
  ghost predicate Causes(w: char -> bool, db: Db, e: LogEntry, n: Notice) {
    n.user != e.actor &&
    match n.kind
    case Assigned =>
      e.subject == OfTask(n.task) && e.content == AssignedTo(User(n.user)) && Assigns(e, User(n.user))
    case Mentioned =>
      && e.kind == CommentAdded && e.subject.OfComment? && e.subject.task == n.task && e.content.Said?
      && ShouldHear(db, e.content.project, e.actor, Emails(e.content.body, Scan(w, e.content.body, 0)), n.user)
  }

  lemma MentionNoticesExact(task: TaskId, users: seq<UserId>, n: Notice)
    ensures n in MentionNotices(task, users) <==> n.kind == Mentioned && n.task == task && n.user in users
    ensures Distinct(users) ==> Distinct(MentionNotices(task, users))
  {
    if n.kind == Mentioned && n.task == task && n.user in users {
      var k :| 0 <= k < |users| && users[k] == n.user;
      assert MentionNotices(task, users)[k] == n;
    }
  }

  lemma MentionsHaveCause(w: char -> bool, db: Db, e: LogEntry, n: Notice)
    requires EmailsUnique(db.users) && e.kind == CommentAdded && e.subject.OfComment? && e.content.Said?
    ensures n in NoticesOf(w, db, e) <==> Causes(w, db, e, n)
    ensures Distinct(NoticesOf(w, db, e))
  {
    var spans := Scan(w, e.content.body, 0);
    var users := Recipients(db, e.content.project, e.actor, FirstSeen(Emails(e.content.body, spans)));
    DeliveryIsExact(w, db, e.content.project, e.actor, e.content.body);
    MentionNoticesExact(e.subject.task, users, n);
    assert NoticesOf(w, db, e) == MentionNotices(e.subject.task, users);
  }

  /** An action calls for a notice exactly when it justifies it, and for each notice once. */
  lemma NoticesHaveCause(w: char -> bool, db: Db, e: LogEntry, n: Notice)
    requires EmailsUnique(db.users)
    ensures n in NoticesOf(w, db, e) <==> Causes(w, db, e, n)
    ensures Distinct(NoticesOf(w, db, e))
  {
    if e.kind == CommentAdded && e.subject.OfComment? && e.content.Said? {
      MentionsHaveCause(w, db, e, n);
    }
  }

  lemma {:induction false} DueHasCause(w: char -> bool, db: Db, log: seq<LogEntry>, n: Notice)
    requires EmailsUnique(db.users) && n in Due(w, db, log)
    ensures exists k :: 0 <= k < |log| && Causes(w, db, log[k], n)
    decreases |log|
  {
    var init, last := log[..|log| - 1], log[|log| - 1];
    if n in Due(w, db, init) {
      DueHasCause(w, db, init, n);
      var k :| 0 <= k < |init| && Causes(w, db, init[k], n);
      assert Causes(w, db, log[k], n);
    } else {
      NoticesHaveCause(w, db, last, n);
    }
  }

  /** So each notification, stored or sent, has a committed action that assigned or mentioned that user. */
  lemma EveryNoticeHasItsCause(w: char -> bool, db: Db, channel: seq<Event>, notices: seq<Notice>,
                               inbox: seq<Notice>, n: Notice)
    requires AnnouncedAfterCommit(w, db, channel, notices, inbox) && EmailsUnique(db.users)
    requires n in notices || n in inbox
    ensures exists k :: 0 <= k < |db.log| && Causes(w, db, db.log[k], n)
  {
    AnnouncedMeans(w, db, channel, notices, inbox);
    if n !in notices {
      SubsequenceMember(inbox, notices, n);
    }
    SubsequenceMember(notices, Due(w, db, db.log), n);
    DueHasCause(w, db, db.log, n);
  }

  // ----- growth -----

  /** Apart from task columns set to null, the same entries. */
  ghost predicate SameEntries(log: seq<LogEntry>, log': seq<LogEntry>) {
    |log| == |log'| && forall k :: 0 <= k < |log| ==> log'[k].(task := None) == log[k].(task := None)
  }

  /** Users, memberships and log entries are only ever added. */
  ghost predicate Grew(db: Db, db': Db) {
    && (forall u :: u in db.users ==> u in db'.users && db'.users[u] == db.users[u])
    && db.members <= db'.members && EmailsUnique(db'.users)
    && |db.log| <= |db'.log| && SameEntries(db.log, db'.log[..|db.log|])
  }

  lemma {:induction false} RecipientsGrow(db: Db, db': Db, project: ProjectId, author: UserId, emails: seq<string>)
    requires Grew(db, db')
    ensures Subsequence(Recipients(db, project, author, emails), Recipients(db', project, author, emails))
    decreases |emails|
  {
    if emails == [] {
      PrefixIsSubsequence<UserId>([], []);
    } else {
      var init, last := emails[..|emails| - 1], emails[|emails| - 1];
      RecipientsGrow(db, db', project, author, init);
      var one, one' := Recipient(db, project, author, last), Recipient(db', project, author, last);
      assert one == [] || one == one';
      PrefixIsSubsequence(one, one');
      SubsequenceConcat(Recipients(db, project, author, init), Recipients(db', project, author, init), one, one');
    }
  }

  lemma MentionNoticesGrow(t: TaskId, us: seq<UserId>, vs: seq<UserId>)
    requires Subsequence(us, vs)
    ensures Subsequence(MentionNotices(t, us), MentionNotices(t, vs))
  {
    var at: seq<nat> :| Places(at, us, vs);
    assert Places(at, MentionNotices(t, us), MentionNotices(t, vs));
  }

  lemma NoticesGrow(w: char -> bool, db: Db, db': Db, e: LogEntry, e': LogEntry)
    requires Grew(db, db') && e'.(task := None) == e.(task := None)
    ensures Subsequence(NoticesOf(w, db, e), NoticesOf(w, db', e'))
  {
    if e.kind == CommentAdded && e.subject.OfComment? && e.content.Said? {
      var emails := FirstSeen(Emails(e.content.body, Scan(w, e.content.body, 0)));
      RecipientsGrow(db, db', e.content.project, e.actor, emails);
      MentionNoticesGrow(e.subject.task, Recipients(db, e.content.project, e.actor, emails),
                         Recipients(db', e.content.project, e.actor, emails));
    } else {
      PrefixIsSubsequence(NoticesOf(w, db, e), NoticesOf(w, db', e'));
    }
  }

  lemma {:induction false} DueGrows(w: char -> bool, db: Db, db': Db, log: seq<LogEntry>, log': seq<LogEntry>)
    requires Grew(db, db') && SameEntries(log, log')
    ensures Subsequence(Due(w, db, log), Due(w, db', log'))
    decreases |log|
  {
    if log == [] {
      PrefixIsSubsequence(Due(w, db, log), Due(w, db', log'));
    } else {
      var n := |log| - 1;
      assert forall k :: 0 <= k < n ==> log[..n][k] == log[k] && log'[..n][k] == log'[k];
      DueGrows(w, db, db', log[..n], log'[..n]);
      NoticesGrow(w, db, db', log[n], log'[n]);
      SubsequenceConcat(Due(w, db, log[..n]), Due(w, db', log'[..n]),
                        NoticesOf(w, db, log[n]), NoticesOf(w, db', log'[n]));
    }
  }

  /** The notices of all entries but the last are given or skipped; those of the last are all to come. */
  ghost predicate LastUntold(w: char -> bool, db: Db, notices: seq<Notice>) {
    db.log != [] && Subsequence(notices, Due(w, db, db.log[..|db.log| - 1]))
  }

  lemma EventsGrow(log: seq<LogEntry>, log': seq<LogEntry>)
    requires SameEntries(log, log')
    ensures EventsOf(log') == EventsOf(log)
  {
    forall k | 0 <= k < |log| ensures EventsOf(log')[k] == EventsOf(log)[k] {
      assert log'[k].(task := None) == log[k].(task := None);
    }
  }

  /** A commit that adds at most one log entry keeps the rule, and allows the event and the notices of
      that entry, and only those, to come next. */
  lemma CommitKeepsAnnounced(w: char -> bool, db: Db, db': Db, channel: seq<Event>,
                             notices: seq<Notice>, inbox: seq<Notice>)
    requires AnnouncedAfterCommit(w, db, channel, notices, inbox)
    requires Grew(db, db') && |db'.log| <= |db.log| + 1
    ensures AnnouncedAfterCommit(w, db', channel, notices, inbox)
    ensures |db'.log| == |db.log| + 1 ==>
      AnnouncedAfterCommit(w, db', channel + [EventOf(db'.log[|db.log|])], notices, inbox) &&
      LastUntold(w, db', notices)
  {
    var log' := db'.log[..|db.log|];
    AnnouncedMeans(w, db, channel, notices, inbox);
    AnnouncedMeans(w, db', channel, notices, inbox);
    EventsGrow(db.log, log');
    DueGrows(w, db, db', db.log, log');
    SubsequenceTransitive(notices, Due(w, db, db.log), Due(w, db', log'));
    if |db'.log| == |db.log| {
      assert db'.log == log';
    } else {
      var last := db'.log[|db.log|];
      assert db'.log == log' + [last];
      assert EventsOf(db'.log) == EventsOf(log') + [EventOf(last)];
      SubsequenceAppend(channel, EventsOf(log'), EventOf(last));
      AnnouncedMeans(w, db', channel + [EventOf(last)], notices, inbox);
      PrefixIsSubsequence([], NoticesOf(w, db', last));
      SubsequenceConcat(notices, Due(w, db', log'), [], NoticesOf(w, db', last));
      assert notices + [] == notices;
    }
  }

  /** While the last entry's notices are to come, the first few of them may be given. */
  lemma LastMayBeTold(w: char -> bool, db: Db, notices: seq<Notice>, some: seq<Notice>)
    requires LastUntold(w, db, notices) && some <= NoticesOf(w, db, db.log[|db.log| - 1])
    ensures Subsequence(notices + some, Due(w, db, db.log))
  {
    var last := db.log[|db.log| - 1];
    PrefixIsSubsequence(some, NoticesOf(w, db, last));
    SubsequenceConcat(notices, Due(w, db, db.log[..|db.log| - 1]), some, NoticesOf(w, db, last));
  }

  lemma NoticeKeepsAnnounced(w: char -> bool, db: Db, channel: seq<Event>, notices: seq<Notice>,
                             inbox: seq<Notice>, n: Notice)
    requires AnnouncedAfterCommit(w, db, channel, notices, inbox)
    requires Subsequence(notices + [n], Due(w, db, db.log))
    ensures AnnouncedAfterCommit(w, db, channel, notices + [n], inbox)
    ensures AnnouncedAfterCommit(w, db, channel, notices + [n], inbox + [n])
  {
    AnnouncedMeans(w, db, channel, notices, inbox);
    SubsequenceAppend(inbox, notices, n);
    AnnouncedMeans(w, db, channel, notices + [n], inbox);
    AnnouncedMeans(w, db, channel, notices + [n], inbox + [n]);
  }
}
