/** Who is notified of a comment (backend/app/services/comment_service.py, `_notify_mentions`). */
module MentionDelivery {
  import opened Common
  import opened TaskStore
  import opened Mentions

  /** The unique constraint on users.email. */
  ghost predicate EmailsUnique(users: map<UserId, string>) {
    forall u, v :: u in users && v in users && users[u] == users[v] ==> u == v
  }

  ghost function UserByEmail(users: map<UserId, string>, email: string): (r: Option<UserId>)
    ensures r.Some? ==> r.value in users && users[r.value] == email
    ensures r == None ==> forall u :: u in users ==> users[u] != email
  {
    if u :| u in users && users[u] == email then Some(u) else None
  }

  /** The recipients of one email's mention: the project member behind it, unless that is the author. */
  ghost function Recipient(db: Db, project: ProjectId, author: UserId, email: string): seq<UserId> {
    var u := UserByEmail(db.users, email);
    if u == None || u.value == author || (project, u.value) !in db.members then [] else [u.value]
  }

  ghost function Recipients(db: Db, project: ProjectId, author: UserId, emails: seq<string>): seq<UserId>
    decreases |emails|
  {
    if emails == [] then []
    else Recipients(db, project, author, emails[..|emails| - 1]) +
         Recipient(db, project, author, emails[|emails| - 1])
  }

  ghost predicate ShouldHear(db: Db, project: ProjectId, author: UserId, emails: seq<string>, u: UserId) {
    u in db.users && u != author && (project, u) in db.members && db.users[u] in emails
  }

  lemma {:induction false} RecipientsExact(db: Db, project: ProjectId, author: UserId, emails: seq<string>)
    requires EmailsUnique(db.users) && Distinct(emails)
    ensures forall u :: u in Recipients(db, project, author, emails) <==> ShouldHear(db, project, author, emails, u)
    ensures Distinct(Recipients(db, project, author, emails))
    decreases |emails|
  {
    if emails != [] {
      var init, last := emails[..|emails| - 1], emails[|emails| - 1];
      assert emails == init + [last] && last !in init;
      RecipientsExact(db, project, author, init);
      forall u ensures u in Recipient(db, project, author, last) <==>
        u in db.users && u != author && (project, u) in db.members && db.users[u] == last
      {
      }
      var earlier, latest := Recipients(db, project, author, init), Recipient(db, project, author, last);
      assert forall u :: u in latest ==> u !in earlier;
      assert forall i :: 0 <= i < |earlier| ==> earlier[i] in earlier;
      assert Recipients(db, project, author, emails) == earlier + latest;
    }
  }

  /** Mention delivery is exact: for every comment body, the users notified are precisely the project
      members other than the author whose email the body mentions, each exactly once. */
  lemma DeliveryIsExact(w: char -> bool, db: Db, project: ProjectId, author: UserId, body: string)
    requires EmailsUnique(db.users)
    ensures var emails := Emails(body, Scan(w, body, 0));
      var notified := Recipients(db, project, author, FirstSeen(emails));
      && Distinct(notified)
      && forall u :: u in notified <==>
           u in db.users && db.users[u] in emails && (project, u) in db.members && u != author
  {
    var emails := Emails(body, Scan(w, body, 0));
    FirstSeenDistinct(emails);
    RecipientsExact(db, project, author, FirstSeen(emails));
  }
}
