# CollabFlow: a verified model

CollabFlow is a collaborative project board: a FastAPI backend that may run as several instances over
PostgreSQL, Redis and an S3-compatible object store, and a React client. This project models the parts
of it that carry state and ordering, and proves what they keep over every run.

Check everything with `dafny verify dfyconfig.toml`.

**Presence and event fan-out.** Any number of WebSocket handlers on any number of instances share one
Redis hash of connection counts and one ordered channel; each instance relays the channel to its own
sockets; each page folds a snapshot and deltas into a list. `PresenceProtocol` is a step relation with one
program counter per handler and one cursor per instance, in which every stretch between two awaits is one
action. `PresenceCounts`, `PresenceRelay`, `PresenceClient` and `PresenceConvergence` prove the invariants
over all its runs; `PresenceWitnesses` holds the short runs that show why each premise of the convergence
theorem is there. `PresenceHash`, `ConnectionManager` and `RedisListener` are the objects and loops the
handlers use, as classes and methods.

**Tasks, attachments and the audit log.** `TaskStore` gives each service call as a function on the committed
database, `TaskHistory` runs of calls and the task forest, `TaskInvariants` what every run keeps, and
`TaskEffects` what each call does, refuses and logs, spelled out in columns, rows and texts.
`TaskService` is the service layer as the code performs it: a class with a session, a committed database,
an object store, a channel and notification rows, whose methods take effect step by step and may be cut off
by a crash before any durable or visible effect. `Announcements` says what may be published when,
`OrphanedObjects` what a task delete leaves behind, and `AttachmentStores` lets uploads, attachment deletes
and task deletes interleave and stop anywhere. `TaskQuery` is the list with its join, count and pages.

**Browser event loops.** `TokenRefresh` is the single-flight refresh with one retry per request,
`Reconnect` the reconnecting WebSocket effect: each a step function with its runs, and a class whose
callbacks perform the steps.

**Text.** `Mentions` and `MentionDelivery` are the mention scanner, against a backtracking matcher and the
definition of `finditer`, and the notification fan-out; `Slugs` is slugify and the probe for a free slug.

Where the code does less than its comments or documentation say, the model follows the code:

- PROGRESS.md:532-535 expects two concurrent disconnects to leave a stale zero entry. No interleaving does:
  an entry nobody holds stays only if the handler of the last decrement died at its HDEL
  (`PresenceCounts.EntryWithoutHoldersIff`, `PresenceWitnesses.DeathLeavesZeroEntry`). The race can do the
  opposite and erase a live user (`PresenceWitnesses.HdelErasesLiveUser`); `PresenceConvergence.KeyIsRightIff`
  says exactly when the keys are right.
- backend/app/api/routers/ws.py:29-33 orders a handler's own messages only. A page can still end up wrong, by a
  LEFT that overtakes a newer JOINED or by a snapshot that overwrites a delta;
  `PresenceConvergence.PageIsRightIff` says exactly when it does.
- backend/app/models/attachment.py:13-15 wants a task's files to go with it. Files of its subtasks stay
  behind (`OrphanedObjects.DeleteOrphansDescendants`).
- frontend/src/api/client.ts:24-27 promises one refresh for requests that share an expired token. That
  covers exactly the 401s that arrive before the refresh settles (`TokenRefresh.LaterUnauthorizedSharesIffUnsettled`).
- A repeated label id in an update is refused by the database if the label is not attached yet; otherwise
  the update succeeds and logs names that are not stored (`TaskInvariants.EntryIffSomethingChanged`,
  `TaskInvariants.RepeatedLabelLogsNoChange`).
- Sorting by a column with ties leaves the order open, and pages may repeat one task and lose another,
  exactly when a tie crosses a page boundary (`TaskQuery.EachTaskOnceIffNoTieAcrossPages`).

## Model

| member | source | states |
|---|---|---|
| PresenceHash.LeaveIsAtomicIffNothingSlippedIn | backend/app/ws/presence.py:21-26 | a leave that reaches zero acts like one atomic command exactly when the same user's joins and leaves between its HINCRBY and its HDEL, since the last other HDEL among them, cancel out |
| PresenceHash.InterferenceMovesCountByNetJoins | backend/app/ws/presence.py:10-26 | any commands leave a user's count at what it was, or zero if they delete it, plus that user's joins minus leaves since the last deletion |
| PresenceHash.PresenceStore.Join | backend/app/ws/presence.py:10-18 | increments the count and returns the new one |
| PresenceHash.PresenceStore.Leave | backend/app/ws/presence.py:21-26 | returns the decremented count; deletes the field afterwards if that is at most zero, whatever ran in between |
| PresenceHash.PresenceStore.OnlineUserIds | backend/app/ws/presence.py:29-30 | each listed user exactly once |
| PresenceCounts.HoldersAreStoredPlusErased | backend/app/ws/presence.py:10-26 | in every interleaving, deaths included, the handlers that incremented and have not decremented are the stored count plus what HDELs erased; every key at or below zero is due to a handler that stands, or died, between its decrement and its HDEL |
| PresenceCounts.PresenceNeverOverstates | backend/app/ws/presence.py:10-30 | a stored count never exceeds those handlers; a listed user has one unless a handler of theirs stands, or died, right before its HDEL |
| PresenceCounts.ExactIffOnlyZeroErased | backend/app/ws/presence.py:21-26 | the counts are exact at every moment if and only if no HDEL removed anything but a zero |
| PresenceCounts.UninterruptedLeavesAreExact | backend/app/ws/presence.py:21-26 | if no other count change of the user falls between a decrement to zero and its HDEL, counts are always exact, every user with such a handler is listed, and nobody else is unless an HDEL is pending or was missed by a death |
| PresenceCounts.EntryWithoutHoldersIff | backend/app/ws/presence.py:21-26 | a user without holders is listed exactly when the last command on the key was a decrement; once no HDEL is pending, such an entry stays if and only if the handler of that decrement died at its HDEL |
| PresenceProtocol.DeathsOnlyOutsideTheLoop | backend/app/api/routers/ws.py:26-72 | a handler may end without cleanup at any point but inside the receive loop |
| PresenceRelay.RelayInvHolds | backend/app/ws/redis_listener.py:37-52 | over every run, each socket, each instance and each table entry stay in step with the channel |
| PresenceRelay.RelayedEventsAreContiguous | backend/app/ws/connection_manager.py:50-72 | the events a socket gets are a contiguous stretch of the channel in publish order, up to its instance's cursor while it is in the table |
| PresenceRelay.OwnJoinedComesAfterSnapshot | backend/app/api/routers/ws.py:29-52 | the JOINED a handler publishes reaches its own socket only after its snapshot |
| PresenceRelay.InTableIff | backend/app/ws/connection_manager.py:62-72 | over every run, a socket is in its instance's table if and only if it connected, its handler has not unregistered, and no relay that has ended failed to send to that very socket |
| PresenceRelay.ChannelCarriesOthers | backend/app/ws/redis_listener.py:37-52 | over every run, the channel carries the task, comment and attachment events in the order they were published, none lost or repeated |
| PresenceRelay.NothingFromBeforeSubscription | backend/app/ws/redis_listener.py:32-37 | no socket is sent anything published before its instance subscribed |
| PresenceClient.FoldMembership | frontend/src/pages/ProjectPage.tsx:92-101 | after any deltas a user is listed as the last delta about the user says, or as before if there is none |
| PresenceClient.ViewAfterSnapshot | frontend/src/pages/ProjectPage.tsx:89-101 | the page is the snapshot overlaid with the deltas after it; what came before is overwritten |
| PresenceClient.ViewsListUsersOnce | frontend/src/pages/ProjectPage.tsx:89-101 | no message makes the page list a user twice |
| PresenceConvergence.UserInvHolds | backend/app/api/routers/ws.py:27-72 | over every run in which no HDEL of the user erased more than a zero and none of the user's handlers died after its HINCRBY: the stored count is the holders; with holders and no JOINED owed, the channel has the user online unless a LEFT overtook; without holders, any announcement or overtaking LEFT still has a LEFT owed |
| PresenceConvergence.ChannelIsRightIffNotOvertaken | backend/app/api/routers/ws.py:45-72 | in such runs, with the user's handlers at rest, the channel has the user online exactly when connected, if and only if the last delta is not a LEFT published while a handler of the user held a count |
| PresenceConvergence.ListedIffNotAllErased | backend/app/ws/presence.py:10-30 | at any moment of any run, with no HDEL of the user pending or missed, the user is listed exactly when HDELs erased less than all the holders' counts |
| PresenceConvergence.KeyIsRightIff | backend/app/api/routers/ws.py:34-72 | with the user's handlers at rest, dead ones included, and no HDEL missed: the user is listed exactly when connected, if and only if HDELs erased less than all counts of a connected user, and exactly the dead handlers' counts of one who is not |
| PresenceConvergence.KeysAreConnectedUsers | backend/app/api/routers/ws.py:54-72 | so if no HDEL of the user erased more than a zero and none of the user's handlers died holding a count, the user is listed exactly when connected |
| PresenceConvergence.WaitingJoinsAreSafe | backend/app/api/routers/ws.py:34-72 | when the user's joins wait for its leaves, no HDEL erases more than a zero, no LEFT overtakes a JOINED, and nobody holds a count while a LEFT is owed |
| PresenceConvergence.PageIsRightIff | backend/app/api/routers/ws.py:27-72 | convergence, whatever the order of the user's joins and leaves: with the user's handlers at rest and the page's instance through the channel, the page shows the user correctly if and only if a delta after its snapshot was not an overtaking LEFT, or, without one, the last delta the snapshot overwrote, if any, agrees with the snapshot, or disagrees and was an overtaking LEFT |
| PresenceConvergence.PageConvergesIffNoDeltaLost | backend/app/api/routers/ws.py:27-52 | in particular, when the user's joins wait for its leaves: if and only if the last delta the snapshot overwrote was followed by another or says what the snapshot says |
| PresenceConvergence.PageShowsConnectedUsers | frontend/src/pages/ProjectPage.tsx:71-103 | when nothing overtakes the snapshot and every user is unharmed, not overtaken and at rest, the page lists each connected user once and nobody else, and so does Redis |
| PresenceConvergence.LastOfChannel | frontend/src/pages/ProjectPage.tsx:89-101 | the channel's last delta about a user is the last one after the snapshot, else the last one the snapshot overwrote, else none since the keys were read |
| PresenceConvergence.KeysExplainedHolds | backend/app/api/routers/ws.py:35 | the keys any handler read list a user exactly if somebody holds a count now, unless news about the user has been published since or is owed |
| PresenceWitnesses.HdelErasesLiveUser | backend/app/ws/presence.py:23-25 | a run in which a join between HINCRBY -1 and HDEL leaves a connected user unlisted |
| PresenceWitnesses.LeftOvertakesJoined | backend/app/api/routers/ws.py:64-72 | a run, outside the condition of `ChannelIsRightIffNotOvertaken`, in which LEFT is published after a newer JOINED and a connected user vanishes from the page |
| PresenceWitnesses.SnapshotOverwritesDelta | backend/app/api/routers/ws.py:35-36 | a run in which a JOINED relayed between HKEYS and the snapshot is lost to that page for good |
| PresenceWitnesses.DeathLeavesUserListed | backend/app/api/routers/ws.py:34-54 | a run, outside the condition of `KeyIsRightIff`, in which a failure before the `try` leaves a user listed with no connection |
| PresenceWitnesses.DeathLeavesZeroEntry | backend/app/ws/presence.py:23-25 | a run in which a failing HDEL leaves a zero entry for good, with no connection and no step left to any handler |
| ConnectionManager.TablesEqualIffEntriesEqual | backend/app/ws/connection_manager.py:24-27 | without empty inner containers the nested table is exactly a set of (project, user, socket) triples |
| ConnectionManager.ConnectionTable.Connect | backend/app/ws/connection_manager.py:29-30 | adds exactly one triple |
| ConnectionManager.ConnectionTable.Disconnect | backend/app/ws/connection_manager.py:32-43 | removes exactly one triple and leaves no empty container at either level |
| ConnectionManager.ConnectionTable.OnlineUserIds | backend/app/ws/connection_manager.py:45-48 | exactly the users with a triple in the project |
| ConnectionManager.ConnectionTable.SendToProject | backend/app/ws/connection_manager.py:50-72 | under any table changes at each await, tries every pair of the starting room exactly once and ends with those changes applied, minus exactly the pairs whose send raised |
| ConnectionManager.SnapshotOf | backend/app/ws/connection_manager.py:60 | copies both levels: every user and every socket once |
| RedisListener.RunPatternListener | backend/app/ws/redis_listener.py:36-52 | skips other message types, unknown channels and malformed payloads; whatever happens to the table between messages and at each send, a socket that connects and stays is sent exactly what was published to its project since, in order |
| RedisListener.Relay | backend/app/ws/redis_listener.py:38-52 | one message: dropped if it is of another type, of an unknown channel or malformed, else sent once to each socket its project has then |
| TaskHistory.CascadeIsSubtree | backend/app/models/task.py:86-88 | the recursive cascade over child links removes exactly the subtree that the parent links describe |
| TaskHistory.AncestorsAreOlder | backend/app/services/task_service.py:59-62 | no task is its own ancestor at any distance; every ancestor is a live, older task of the same project |
| TaskHistory.MaxPosition | backend/app/crud/task.py:39-43 | the position select has exactly one answer: the column's largest, 0 when the column is empty |
| TaskInvariants.AfterRun | backend/app/services/task_service.py:42-209 | after every run of calls, failed ones included: parent links form a forest inside each project, references are live, each field's logged old/new pairs link from its creation value to its current one, tasks that never left their column stand in creation order |
| TaskInvariants.AfterKeepsInv | backend/app/services/task_service.py:42-209 | each single call keeps all of that |
| TaskInvariants.AssigneesAreMembers | backend/app/services/task_service.py:56-57 | in every run the assignee of a task is nobody or a user with a membership in the task's project, and title, status and priority are never null |
| TaskInvariants.DeleteKeepsForest | backend/app/services/task_service.py:200-201 | deleting a whole subtree leaves no parent link dangling |
| TaskInvariants.UpdateLinksTrail | backend/app/services/task_service.py:129-134 | an update extends exactly the trails of the fields it changed, each from its old to its new value |
| TaskInvariants.UpdateLinksLabelTrail | backend/app/services/task_service.py:136-141 | an update keeps the trail of label names linked if and only if it repeats no label id |
| TaskInvariants.SameNamesIffSameLabels | backend/app/services/task_service.py:136-141 | comparing sorted label names is exact: equal names if and only if equal label sets |
| TaskInvariants.LoggedNamesAreStoredIffNoRepeats | backend/app/services/task_service.py:136-141 | the names an update logs are the names it stores if and only if the request repeats no label id |
| TaskInvariants.EntryIffSomethingChanged | backend/app/services/task_service.py:143-153 | an update writes a log entry if and only if it changed a field or the label set, or its request repeats a label id |
| TaskInvariants.LabelTrailLinksIffNoRepeats | backend/app/services/task_service.py:136-141 | over every run, the logged label names of a live task link from the empty list to the current ones if and only if no successful update of it repeated a label id |
| TaskInvariants.RepeatedLabelLogsNoChange | backend/app/services/task_service.py:136-153 | a reachable update that repeats an attached label, leaves the task as it was and still logs a change |
| TaskInvariants.NewTaskGoesLast | backend/app/crud/task.py:37-55 | a new task's position exceeds every other position in its column |
| TaskInvariants.CreateKeepsColumns | backend/app/crud/task.py:37-55 | creation keeps the order of every column, however the tasks in it got there |
| TaskInvariants.MovedTasksMayTie | backend/app/services/task_service.py:129-134 | a reachable state in which a moved task ties with one in its new column, because a move keeps the position |
| TaskEffects.CreateRefusedIff | backend/app/services/task_service.py:56-62 | a creation is refused exactly for an assignee without membership in the project, else a parent that is missing or elsewhere, else a missing required column |
| TaskEffects.UpdateRefusedIff | backend/app/services/task_service.py:109-125 | an update is refused exactly for a new assignee without membership, else a label that is missing or elsewhere, else what the flush refuses |
| TaskEffects.FlushRefusedIff | backend/app/models/label.py:9-14 | the flush refuses exactly a required column set to null, else a repeated label id that is not attached yet |
| TaskEffects.OtherCallsRefusedIff | backend/app/core/deps.py:174-176 | calls on a missing task or attachment, and a label name taken in the project, are refused, and nothing else |
| TaskEffects.CreateAddsTask | backend/app/crud/task.py:39-58 | a creation adds one row with the given columns, no labels and the position right behind the last task of its project and status, or 1, and one log entry; all else is kept |
| TaskEffects.UpdateWritesColumns | backend/app/services/task_service.py:129-153 | an update writes the given columns and labels of its task and nothing else anywhere, and logs at most one entry with exactly the changes |
| TaskEffects.ColumnsAfterUpdate | backend/app/services/task_service.py:129-134 | each of the six columns, by its name, holds the new value if one was given and the old one otherwise |
| TaskEffects.DeleteRemovesSubtree | backend/app/services/task_service.py:200-201 | a delete removes exactly the tasks of the subtree and the comments and attachments of those, and changes no other row |
| TaskEffects.DeleteDetachesLog | backend/app/models/activity.py:45-49 | the log keeps every entry, without its task column exactly where that task is in the subtree, and gains one about the delete |
| TaskEffects.RowsStoredAndRemoved | backend/app/services/comment_service.py:51-63 | a comment or attachment is stored for its task and an attachment removed, with one log entry each; every other row is kept |
| TaskEffects.ChangeIsLoggedInFull | backend/app/services/task_service.py:130-133 | a field is logged exactly if its value changed: texts as they are, nothing as "None", and two users, or a user and nobody, never alike |
| TaskEffects.UsersAreLoggedApart | backend/app/services/task_service.py:133 | two users are logged alike only if they are the same, and never like nobody |
| TaskEffects.TextTrailRunsFromBirthToNow | backend/app/services/task_service.py:129-153 | over every run, the logged changes of a text column run from the very text the task was created with, each starting where the one before ended, to the very text it has now |
| Announcements.CommitKeepsAnnounced | backend/app/services/task_service.py:84-93 | a commit keeps every announcement matched, in order, to an entry of its own, and allows its own entry's event next, with all that entry's notices still to come |
| Announcements.NoticesHaveCause | backend/app/services/comment_service.py:19-45 | an action calls for a notice exactly when it made that user, not its actor, the assignee of the task or mentioned them as a member in a comment on it, and calls for each notice once |
| Announcements.EveryNoticeHasItsCause | backend/app/services/notification_service.py:31-53 | each notification stored or sent has a committed entry that assigned or mentioned that very user |
| Announcements.DueGrows | backend/app/services/comment_service.py:22-34 | what committed entries call for is never taken back: users, memberships and entries only grow |
| Announcements.LastMayBeTold | backend/app/services/notification_service.py:31-53 | after a commit, the notices its entry calls for may be given one after another, in order, and no others |
| OrphanedObjects.DeleteOrphansDescendants | backend/app/services/task_service.py:181-201 | a task delete removes exactly the rows of its subtree, and the objects newly left without a row are exactly those of its proper descendants |
| OrphanedObjects.DeleteIsCleanIffDescendantsHaveNoFiles | backend/app/models/attachment.py:13-15 | it orphans nothing if and only if no proper descendant has an attachment |
| OrphanedObjects.SubtaskFileIsOrphaned | backend/app/services/task_service.py:188-201 | a reachable database in which deleting a task orphans the file of its subtask |
| TaskService.SelectMaxPosition | backend/app/crud/task.py:39-43 | the largest position of the column, or 0 |
| TaskService.SetAllMerges | backend/app/services/task_service.py:129-134 | the setattr loop merges the whole dict and notes exactly the fields whose value differed before the call |
| TaskService.UpdateBySteps | backend/app/services/task_service.py:129-153 | fields one by one, then labels, then the log entry make up one update |
| TaskService.UpdateErrorBySteps | backend/app/services/task_service.py:121-138 | and the checks made on the way refuse exactly the updates that the transaction refuses |
| TaskService.UpdateNotices | backend/app/services/task_service.py:167-177 | an update that changes the assignee calls for one notice, to a new assignee other than the actor |
| TaskService.CommentNotices | backend/app/services/comment_service.py:79 | a committed comment calls for exactly the notices of its recipients |
| TaskService.CollectCascade | backend/app/models/task.py:86-88 | the recursion over children collects exactly the cascade |
| TaskService.GetByEmail | backend/app/services/comment_service.py:23 | the one user with that email, or none |
| TaskService.CommitCall | backend/app/services/task_service.py:84 | committing a call keeps every invariant and gives the right to announce what its entry calls for |
| TaskService.Backend.Dispatch | backend/app/services/notification_service.py:12-53 | only a notice that a committed entry calls for, and that is still to come, is given; its row is durable before the live message, wherever a crash falls |
| TaskService.Backend.CreateTask | backend/app/services/task_service.py:42-106 | for every crash point: a refused call changes nothing; else commit, event and assignee notice happen in that order and the notice goes to an assignee other than the creator |
| TaskService.Backend.SetFields | backend/app/services/task_service.py:129-134 | sets the fields in the session in item order, noting each old value before it is overwritten |
| TaskService.Backend.ResolveLabels | backend/app/services/task_service.py:109-118 | succeeds if and only if every id is a label of the project, and then returns them in order |
| TaskService.Backend.PrepareUpdate | backend/app/services/task_service.py:121-153 | on any error, labels refused after fields were set included, the session is back at the committed state; otherwise it holds exactly the update |
| TaskService.Backend.UpdateTask | backend/app/services/task_service.py:121-178 | for every crash point: a failed update leaves everything untouched; otherwise commit, one event if something changed, one notice if the assignee changed to somebody else |
| TaskService.Backend.DeleteObjects | backend/app/services/task_service.py:188-190 | deletes the objects of the listed attachments one by one, exactly as many as happen before a crash |
| TaskService.Backend.DeleteTask | backend/app/services/task_service.py:181-209 | for every crash point: own objects go first, then the whole subtree's rows in one commit, then the event; before the commit no row is gone |
| TaskService.Backend.UploadAttachment | backend/app/services/attachment_service.py:35-86 | for every crash point: nothing on a validation error; else the object, then the row with its log entry, then the event |
| TaskService.Backend.DeleteAttachment | backend/app/services/attachment_service.py:89-127 | for every crash point: the row with its log entry, then the object, then the event |
| TaskService.Backend.NotifyMention | backend/app/services/comment_service.py:22-45 | one turn: skips unknown users, the author and non-members, tells everybody else once |
| TaskService.Backend.NotifyMentions | backend/app/services/comment_service.py:19-45 | wherever a crash falls, the rows and messages so far are prefixes of the exact recipient list |
| TaskService.Backend.CreateComment | backend/app/services/comment_service.py:48-79 | for every crash point: comment and log entry in one commit, then the event, then the mention notices |
| AttachmentStores.StoresInvHolds | backend/app/services/attachment_service.py:46-119 | over every interleaving with stops anywhere: a key's object and row are there exactly as the stages of the requests about it say |
| AttachmentStores.DanglingIffDroppedMidway | backend/app/services/task_service.py:188-201 | a committed row lacks its object if and only if a task delete deleted that object and has not committed |
| AttachmentStores.StoppedDropLeavesDanglingRow | backend/app/services/task_service.py:188-201 | a run in which a task delete stopped in between leaves such a row for good |
| AttachmentStores.LeftoverIffMidwayOrSwept | backend/app/services/attachment_service.py:48-119 | an object lacks a row if and only if its upload has not committed, an attachment delete committed and has not reached it, or a task delete's commit swept its row |
| AttachmentStores.UploadsAndRemovesNeverDangle | backend/app/services/attachment_service.py:46-119 | without task deletes every committed row has its object, and leftovers are exactly those of uploads and deletes cut off midway |
| AttachmentStores.StoresAgreeUnlessCutOff | backend/app/services/attachment_service.py:46-119 | if no request was cut off between its two stores, objects and rows agree exactly |
| AttachmentStores.DropListsItsTask | backend/app/services/task_service.py:188 | a task delete lists the objects of exactly its own task's attachments |
| AttachmentStores.CommittedDropErasedAll | backend/app/services/task_service.py:188-201 | over every run, a task delete that has committed has deleted every object it listed, for good |
| AttachmentStores.RowsBelongToTasks | backend/app/services/task_service.py:200-201 | over every run, a task is there from its creation until a task delete commits its removal, and every committed row belongs to a task that is there |
| TaskQuery.Conditions | backend/app/crud/task.py:75-83 | the conditions appended one by one hold exactly of the tasks that match every given filter |
| TaskQuery.SelectedMeans | backend/app/crud/task.py:75-92 | a task is selected if and only if it is a top-level task of the project that meets each filter given |
| TaskQuery.CountIsNumberOfRows | backend/app/crud/task.py:85-95 | the label join yields each matching task once, so the distinct count is the number of rows |
| TaskQuery.OrderIsFixedIffNoTies | backend/app/crud/task.py:97-102 | the order is the same for every request if and only if no two selected tasks tie in the sort column |
| TaskQuery.EachTaskOnceIffNoTieAcrossPages | backend/app/crud/task.py:97-103 | while the rows do not change, pages 1 to ceil(total/size), each from its own request, show each selected task exactly once for every choice of answers, if and only if no two tasks tie across a page boundary |
| TaskQuery.PagesHoldPrefix | backend/app/crud/task.py:100-102 | where no tie crosses a boundary, the first n pages hold exactly the first n * size rows, whatever order each request saw |
| TaskQuery.FixedOrderPagesMakeUpTheList | backend/app/crud/task.py:97-103 | if ties are broken in one fixed way, the pages make up exactly the filtered, sorted list |
| TaskQuery.UntiedPagesMakeUpTheList | backend/app/crud/task.py:97-103 | as they must where there are no ties |
| TaskQuery.TieMayRepeatTask | backend/app/crud/task.py:97-102 | with a tie across a page boundary two requests may show one task twice and the other not at all |
| TaskQuery.AnswerExists | backend/app/crud/task.py:97-103 | every query has a sorted answer |
| TokenRefresh.AtMostOneRefreshInFlight | frontend/src/api/client.ts:28-60 | in every interleaving at most one refresh is unsettled, everybody waiting for one waits for it, and none starts without a refresh token |
| TokenRefresh.RefreshesTakeTurns | frontend/src/api/client.ts:58-60 | a refresh starts only after all earlier ones have settled |
| TokenRefresh.TwoSendsOneSettlement | frontend/src/api/client.ts:43-69 | each request is on the wire once or twice and settles exactly once if at all |
| TokenRefresh.RequestEndsAsTold | frontend/src/api/client.ts:43-69 | over every run, told from its actions: a request has ended well exactly after a success, and badly exactly after any other error, a second 401, a 401 with nobody signed in, or a failed refresh |
| TokenRefresh.SuccessIffLastResponse | frontend/src/api/client.ts:44-49 | a request has ended well if and only if the last answer to it was a success |
| TokenRefresh.SignedInRequestsCarryNewestToken | frontend/src/api/client.ts:12-18 | while somebody is signed in, every new request carries the access token issued last |
| TokenRefresh.ProgressIsBounded | frontend/src/api/client.ts:43-69 | n requests cause at most 5n answers, callbacks and resumptions |
| TokenRefresh.WorkShrinks | frontend/src/api/client.ts:43-69 | every answer, callback and resumption decreases the work left |
| TokenRefresh.NoRequestIsStuck | frontend/src/api/client.ts:43-69 | when nothing more can happen, every request has settled |
| TokenRefresh.RetryCarriesNewerToken | frontend/src/api/client.ts:61-63 | a retry carries a token newer than the one that was refused |
| TokenRefresh.FirstUnauthorizedJoinsIffUnsettled | frontend/src/api/client.ts:43-60 | in every run, a first 401 joins a refresh if and only if that refresh is not settled, and starts a new one if and only if there is a refresh token and `refreshPromise` is null, that is, all are settled |
| TokenRefresh.LaterUnauthorizedSharesIffUnsettled | frontend/src/api/client.ts:24-60 | two requests refused one after the other, with the same token or not, share one refresh if and only if the first one's refresh has not settled when the second 401 arrives |
| TokenRefresh.LateUnauthorizedRefreshesAgain | frontend/src/api/client.ts:24-60 | a run in which it has, and two requests sent with the same token cause two refreshes |
| TokenRefresh.ApiClient.OnResponse | frontend/src/api/client.ts:43-60 | a request waits afterwards exactly after a first 401 with a refresh token, and then for the one unsettled refresh; otherwise it has ended, well exactly on a success |
| TokenRefresh.ApiClient.OnRefreshAnswer | frontend/src/api/client.ts:35-40 | the answer frees nobody yet: the same requests may resume as before, and all others wait for this refresh |
| TokenRefresh.ApiClient.OnFinally | frontend/src/api/client.ts:58-60 | afterwards no refresh is unsettled, and every waiting request may resume |
| TokenRefresh.ApiClient.OnResume | frontend/src/api/client.ts:61-68 | the request never waits again; a retry carries the current access token, or the refreshed one if that is gone; a failure signs out; there is less work left |
| Reconnect.ExactlyOneUnderWay | frontend/src/ws/useWebSocket.ts:42-95 | while live there is exactly one armed timer or unfinished socket; after cleanup no armed timer and at most the socket being closed |
| Reconnect.NeverStuckWhileLive | frontend/src/ws/useWebSocket.ts:42-95 | while live either the timer can fire or the socket can close |
| Reconnect.NothingNewAfterCleanup | frontend/src/ws/useWebSocket.ts:78-95 | after cleanup no socket and no timer is ever created, and no socket stays open |
| Reconnect.AttemptCountsCloses | frontend/src/ws/useWebSocket.ts:43-82 | while live the exponent is the number of closes since the last open; retries for want of a URL do not count |
| Reconnect.CloseDelayIsBounded | frontend/src/ws/useWebSocket.ts:47-51 | each close arms a timer of min(30000, base * 2^k) plus the jitter, so in [that, that + 500), with base 5000 after a 4401 and 1000 otherwise and k the closes since the last open |
| Reconnect.BackoffGrows | frontend/src/ws/useWebSocket.ts:48 | before jitter the delay never shrinks in k and never exceeds 30 s |
| Reconnect.BackoffSaturates | frontend/src/ws/useWebSocket.ts:48-81 | it reaches 30 s exactly from k = 5 on, or k = 3 after a 4401 |
| Reconnect.Effect.OnStart | frontend/src/ws/useWebSocket.ts:53-63 | the effect starts with exactly one socket, or without a URL exactly one timer, pending |
| Reconnect.Effect.OnTimer | frontend/src/ws/useWebSocket.ts:50-63 | a timer fires only while live, is the last one set, finds no unfinished socket and leaves exactly one socket or timer pending |
| Reconnect.Effect.OnOpen | frontend/src/ws/useWebSocket.ts:65-68 | only the current socket opens, only while live, and no timer is pending then |
| Reconnect.Effect.OnClose | frontend/src/ws/useWebSocket.ts:78-82 | only the current socket closes; exactly while live this leaves one timer pending, within 500 ms of the backoff for its code |
| Reconnect.Effect.OnError | frontend/src/ws/useWebSocket.ts:84-86 | the socket closed is the one the error came from; all others are closed already and no timer is pending |
| Reconnect.Effect.OnCleanup | frontend/src/ws/useWebSocket.ts:91-95 | afterwards no timer is armed and no socket is open or connecting |
| Mentions.EngineNeverBacktracks | backend/app/core/mentions.py:6 | taking each maximal run once finds exactly what a backtracking matcher of the pattern reports |
| Mentions.ClassesAre | backend/app/core/mentions.py:6 | the three character classes of the pattern: word characters with ".+-", with "-", with ".-" |
| Mentions.ScanIsFindIter | backend/app/core/mentions.py:12 | the one-pass scan returns the leftmost, non-overlapping matches |
| Mentions.FindIterUnique | backend/app/core/mentions.py:12 | there is only one such list |
| Mentions.FirstSeenDistinct | backend/app/core/mentions.py:11-14 | each email is returned once |
| Mentions.FirstSeenOrder | backend/app/core/mentions.py:10-14 | in the order of first occurrence |
| Mentions.ExtractMentionedEmails | backend/app/core/mentions.py:9-14 | the loop returns the emails of all matches, each once, first seen first |
| Mentions.MentionsRoundTrip | backend/app/core/mentions.py:6-14 | writing any well-formed addresses as mentions, after any text without an @ and up to the very end of the body, and scanning it returns them, each once, in order |
| MentionDelivery.RecipientsExact | backend/app/services/comment_service.py:22-34 | for distinct emails the recipients are exactly the members other than the author behind them, each once |
| MentionDelivery.DeliveryIsExact | backend/app/services/comment_service.py:19-45 | for every comment body the users notified are exactly the project members other than the author whose email it mentions, each once |
| Slugs.SlugifyJoinsRuns | backend/app/core/slugs.py:5-7 | slugify is the maximal alphanumeric runs of the lowered text joined by hyphens, or the fresh id if there are none |
| Slugs.SlugifyYieldsSlug | backend/app/core/slugs.py:5-7 | the result is always a hyphen-separated list of non-empty alphanumeric words |
| Slugs.SlugifyFixesExactlySlugs | backend/app/core/slugs.py:5-7 | slugify leaves a text alone if and only if it is a slug |
| Slugs.SlugifyIsIdempotent | backend/app/core/slugs.py:5-7 | slugifying twice is slugifying once |
| Slugs.TakenCandidates | backend/app/services/organization_service.py:17-21 | n taken candidates mean at least n existing slugs |
| Slugs.FirstCandidates | backend/app/services/organization_service.py:14-21 | the candidates are the slug itself, slug-2, slug-3 |
| Slugs.AlnumsAre | backend/app/core/slugs.py:6 | the characters kept are ASCII a to z and 0 to 9 |
| Slugs.UniqueOrgSlug | backend/app/services/organization_service.py:13-22 | the probe ends within one test more than there are slugs, on the first free candidate, which is a slug |
| Text.DecimalInjective | backend/app/services/organization_service.py:21 | two suffixes never print alike |

## Left out

- Redis, PostgreSQL, SQLAlchemy, the object store, axios and the browser appear only by what the code relies on: atomic single commands, an ordered channel, all-or-nothing commits, fresh UUIDs, microtasks.
- A lost or late Redis subscription: instances start, subscribe and then accept connections, and lose no message.
- Service calls on tasks run one after another in `TaskHistory` and `TaskService`; two sessions reading stale rows are not modelled, nor sessions that publish in another order than they committed in. Attachments against task deletes are, in `AttachmentStores`.
- Parent links in `AttachmentStores`: there a task delete removes any set of tasks that holds its own, which covers every subtree; the exact subtree is in `OrphanedObjects`.
- Sorted lists of label names are multisets, which carry the same information.
- A crash loses the session and nothing else; failures of the database itself, of the e-mail queue and of `refresh` after a commit count as crashes.
- E-mail sent with a notification (backend/app/workers), and the read/unread state of notifications.
- 32-bit overflow of `position`, and column lengths such as the 255 characters of a slug.
- Two organizations created at the same moment with the same slug: the unique index refuses one of them.
- Unicode: `\w`, `strip` and `lower` are parameters, assumed only to treat `@`, `.`, `+`, `-` as non-word characters and to leave lower-case ASCII letters, digits and hyphens alone.
- Case-insensitive search is a parameter, and the sort columns are ranks.
- Task listings while the rows change between two page requests.
- JWT, passwords, role checks, notification_manager.py (the connection table with one level fewer), channel names and JSON, organization and workspace CRUD, schemas, migrations, configuration, health checks.
- Page navigation on a failed refresh, and everything the pages render; the REST presence fallback before the first snapshot.
- Exceptions thrown by `new WebSocket(url)` and by `getUrl`.
- TokenRefresh.RetryCarriesNewerToken: for runs in which `finally` runs before any later event, as a microtask does.
- Deaths of a user's own handlers after their HINCRBY in the channel and page theorems about that user; for the Redis keys they are covered.
- `project_websocket` is a step relation, not a method: its order of effects is the order of its program counter.
