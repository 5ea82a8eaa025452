/** Listing a project's tasks: filters, the label join, the count and the pages
    (backend/app/crud/task.py, `list_by_project`). */
module TaskQuery {
  import opened Common
  import opened TaskStore
  import opened TaskInvariants

  datatype Query = Query(
    project: ProjectId, status: Option<Value>, priority: Option<Value>, assignee: Option<UserId>,
    tag: Option<LabelId>, search: Option<string>)

  /** `like` is the database's ILIKE. */
  predicate Matches(like: (string, Value) -> bool, q: Query, task: Task) {
    && task.project == q.project && task.parent == None
    && (q.status.Some? ==> task.fields.status == q.status.value)
    && (q.priority.Some? ==> task.fields.priority == q.priority.value)
    && (q.assignee.Some? ==> task.fields.assignee == User(q.assignee.value))
    && (q.search.Some? ==> like(q.search.value, task.fields.title))
  }

  predicate All(conditions: seq<Task -> bool>, task: Task) {
    forall k :: 0 <= k < |conditions| ==> conditions[k](task)
  }

  lemma AllAppend(conditions: seq<Task -> bool>, c: Task -> bool)
    ensures forall task :: All(conditions + [c], task) <==> All(conditions, task) && c(task)
  {
    forall task ensures All(conditions + [c], task) <==> All(conditions, task) && c(task) {
      var more := conditions + [c];
      assert more[|conditions|] == c;
      if All(more, task) {
        forall k | 0 <= k < |conditions| ensures conditions[k](task) {
          assert more[k] == conditions[k];
        }
      }
    }
  }

  /** The WHERE clause, one condition after another. */
  method Conditions(like: (string, Value) -> bool, q: Query) returns (conditions: seq<Task -> bool>)
    ensures forall task :: All(conditions, task) <==> Matches(like, q, task)
  {
    var inProject := (task: Task) => task.project == q.project && task.parent == None;
    AllAppend([], inProject);
    conditions := [] + [inProject];
    if q.status.Some? {
      var c := (task: Task) => task.fields.status == q.status.value;
      AllAppend(conditions, c);
      conditions := conditions + [c];
    }
    if q.priority.Some? {
      var c := (task: Task) => task.fields.priority == q.priority.value;
      AllAppend(conditions, c);
      conditions := conditions + [c];
    }
    if q.assignee.Some? {
      var c := (task: Task) => task.fields.assignee == User(q.assignee.value);
      AllAppend(conditions, c);
      conditions := conditions + [c];
    }
    if q.search.Some? {
      var c := (task: Task) => like(q.search.value, task.fields.title);
      AllAppend(conditions, c);
      conditions := conditions + [c];
    }
  }

  // ----- the join -----

  /** How many rows of the result a task makes: one, or one per matching row of `task_labels`. */
  function RowCount(like: (string, Value) -> bool, db: Db, q: Query, t: TaskId): nat {
    if t !in db.tasks || !Matches(like, q, db.tasks[t]) then 0
    else if q.tag == None then 1
    else multiset(db.tasks[t].labels)[q.tag.value]
  }

  /** `count(distinct tasks.id)` counts these. */
  function Selected(like: (string, Value) -> bool, db: Db, q: Query): set<TaskId> {
    set t | t in db.tasks && RowCount(like, db, q, t) > 0
  }

  ghost predicate Sorted(rank: TaskId -> int, rows: seq<TaskId>) {
    forall i, j :: 0 <= i < j < |rows| ==> rank(rows[i]) <= rank(rows[j])
  }

  /** What the database may answer, before paging: the rows sorted by the chosen column in the chosen
      direction. Rows that tie may come in any order. */
  ghost predicate IsAnswer(like: (string, Value) -> bool, db: Db, q: Query, rank: TaskId -> int, rows: seq<TaskId>) {
    (forall t :: multiset(rows)[t] == RowCount(like, db, q, t)) && Sorted(rank, rows)
  }

  lemma {:induction false} DistinctCounts<T>(s: seq<T>, x: T)
    requires Distinct(s)
    ensures multiset(s)[x] == if x in s then 1 else 0
    decreases |s|
  {
    if s != [] {
      var init := s[..|s| - 1];
      assert s == init + [s[|s| - 1]];
      DistinctCounts(init, x);
    }
  }

  lemma {:induction false} CountsDistinct<T>(s: seq<T>)
    requires forall x :: multiset(s)[x] <= 1
    ensures Distinct(s)
    decreases |s|
  {
    if s != [] {
      var init, last := s[..|s| - 1], s[|s| - 1];
      assert s == init + [last];
      assert forall x :: multiset(s)[x] == multiset(init)[x] + if x == last then 1 else 0;
      CountsDistinct(init);
      assert multiset(init)[last] == 0;
    }
  }

  predicate IsSelected(like: (string, Value) -> bool, db: Db, q: Query, t: TaskId) {
    t in db.tasks && Matches(like, q, db.tasks[t]) && (q.tag.Some? ==> q.tag.value in db.tasks[t].labels)
  }

  /** Which tasks are listed: top-level tasks of the project that meet every filter given. */
  lemma SelectedMeans(like: (string, Value) -> bool, db: Db, q: Query, t: TaskId)
    ensures IsSelected(like, db, q, t) <==>
      && t in db.tasks && db.tasks[t].project == q.project && db.tasks[t].parent == None
      && (q.status == None || db.tasks[t].fields.status == q.status.value)
      && (q.priority == None || db.tasks[t].fields.priority == q.priority.value)
      && (q.assignee == None || db.tasks[t].fields.assignee == User(q.assignee.value))
      && (q.tag == None || q.tag.value in db.tasks[t].labels)
      && (q.search == None || like(q.search.value, db.tasks[t].fields.title))
  {
  }

  /** The label join never repeats a task, so the distinct count is the number of rows. */
  lemma CountIsNumberOfRows(like: (string, Value) -> bool, db: Db, q: Query, rank: TaskId -> int, rows: seq<TaskId>)
    requires LabelInv(db) && IsAnswer(like, db, q, rank, rows)
    ensures Distinct(rows) && |rows| == |Selected(like, db, q)|
    ensures Elements(rows) == Selected(like, db, q)
    ensures forall t :: t in rows <==> IsSelected(like, db, q, t)
  {
    forall t ensures RowCount(like, db, q, t) == if IsSelected(like, db, q, t) then 1 else 0 {
      if t in db.tasks && q.tag.Some? {
        DistinctCounts(db.tasks[t].labels, q.tag.value);
      }
    }
    CountsDistinct(rows);
    DistinctSize(rows);
    forall t ensures t in rows <==> IsSelected(like, db, q, t) {
      assert t in rows <==> multiset(rows)[t] > 0;
    }
    assert Elements(rows) == Selected(like, db, q);
  }

  lemma {:induction false} Largest(rank: TaskId -> int, ts: set<TaskId>) returns (t: TaskId)
    requires ts != {}
    ensures t in ts && forall u :: u in ts ==> rank(u) <= rank(t)
    decreases ts
  {
    t :| t in ts;
    if ts != {t} {
      var rest := ts - {t};
      assert ts == rest + {t};
      var other := Largest(rank, rest);
      t := if rank(t) < rank(other) then other else t;
    }
  }

  lemma {:induction false} SortedListing(rank: TaskId -> int, ts: set<TaskId>) returns (rows: seq<TaskId>)
    ensures Distinct(rows) && Elements(rows) == ts && Sorted(rank, rows)
    decreases ts
  {
    rows := [];
    if ts != {} {
      var last := Largest(rank, ts);
      var init := SortedListing(rank, ts - {last});
      rows := init + [last];
      assert forall k :: 0 <= k < |init| ==> init[k] in Elements(init);
      assert Elements(rows) == Elements(init) + {last};
    }
  }

  /** There always is an answer. */
  lemma AnswerExists(like: (string, Value) -> bool, db: Db, q: Query, rank: TaskId -> int)
    returns (rows: seq<TaskId>)
    requires LabelInv(db)
    ensures IsAnswer(like, db, q, rank, rows)
  {
    rows := SortedListing(rank, Selected(like, db, q));
    forall t ensures multiset(rows)[t] == RowCount(like, db, q, t) {
      DistinctCounts(rows, t);
      assert t in rows <==> t in Elements(rows);
      if t in db.tasks && q.tag.Some? {
        DistinctCounts(db.tasks[t].labels, q.tag.value);
      }
    }
  }

  // ----- pages -----

  function Page(rows: seq<TaskId>, page: nat, size: nat): seq<TaskId>
    requires page >= 1
  {
    var offset := (page - 1) * size;
    if offset >= |rows| then []
    else if offset + size <= |rows| then rows[offset..offset + size] else rows[offset..]
  }

  function PageCount(total: nat, size: nat): nat
    requires size > 0
  {
    (total + size - 1) / size
  }

  function Joined(parts: nat -> seq<TaskId>, n: nat): seq<TaskId> {
    if n == 0 then [] else Joined(parts, n - 1) + parts(n)
  }

  function PagesOf(answers: nat -> seq<TaskId>, size: nat): nat -> seq<TaskId> {
    (page: nat) => if page == 0 then [] else Page(answers(page), page, size)
  }

  /** Pages 1..n, each cut from the answer its own request got. */
  function PagesTo(answers: nat -> seq<TaskId>, n: nat, size: nat): seq<TaskId> {
    Joined(PagesOf(answers, size), n)
  }

  lemma {:induction false} PagesToPrefix(rows: seq<TaskId>, answers: nat -> seq<TaskId>, n: nat, size: nat)
    requires size > 0 && forall p :: 1 <= p <= n ==> answers(p) == rows
    ensures PagesTo(answers, n, size) == if n * size <= |rows| then rows[..n * size] else rows
    decreases n
  {
    if n > 0 {
      PagesToPrefix(rows, answers, n - 1, size);
      var offset := (n - 1) * size;
      assert offset + size == n * size;
      if offset < |rows| {
        if n * size <= |rows| {
          assert rows[..offset] + rows[offset..offset + size] == rows[..n * size];
        } else {
          assert rows[..offset] + rows[offset..] == rows;
        }
      } else if offset == |rows| {
        assert rows[..offset] == rows;
      }
    }
  }

  predicate NoTies(rank: TaskId -> int, ts: set<TaskId>) {
    forall t, u :: t in ts && u in ts && rank(t) == rank(u) ==> t == u
  }

  lemma LastIsLargest(rank: TaskId -> int, a: seq<TaskId>, b: seq<TaskId>)
    requires multiset(a) == multiset(b) && a != [] && b != [] && Sorted(rank, a)
    ensures b[|b| - 1] in a && rank(b[|b| - 1]) <= rank(a[|a| - 1])
  {
    var y := b[|b| - 1];
    assert y in multiset(b) && y in multiset(a);
    var i :| 0 <= i < |a| && a[i] == y;
  }

  lemma {:induction false} SortedIsUnique(rank: TaskId -> int, a: seq<TaskId>, b: seq<TaskId>)
    requires multiset(a) == multiset(b) && Sorted(rank, a) && Sorted(rank, b)
    requires NoTies(rank, Elements(a))
    ensures a == b
    decreases |a|
  {
    assert |a| == |multiset(a)| == |multiset(b)| == |b|;
    if a != [] {
      var x := a[|a| - 1];
      LastIsLargest(rank, a, b);
      LastIsLargest(rank, b, a);
      assert b[|b| - 1] in Elements(a) && x in Elements(a);
      assert b[|b| - 1] == x;
      SortedPrefix(rank, a);
      SortedPrefix(rank, b);
      SortedIsUnique(rank, a[..|a| - 1], b[..|b| - 1]);
    }
  }

  lemma SortedPrefix(rank: TaskId -> int, a: seq<TaskId>)
    requires Sorted(rank, a) && a != []
    ensures var init, last := a[..|a| - 1], a[|a| - 1];
      Sorted(rank, init) && a == init + [last] && multiset(init) == multiset(a) - multiset{last} &&
      Elements(init) <= Elements(a)
  {
    assert a == a[..|a| - 1] + [a[|a| - 1]];
  }

  /** The order is fully determined, whatever the database does, exactly when no two selected tasks tie
      in the sort column. */
  lemma OrderIsFixedIffNoTies(like: (string, Value) -> bool, db: Db, q: Query, rank: TaskId -> int, rows: seq<TaskId>)
    requires LabelInv(db) && IsAnswer(like, db, q, rank, rows)
    ensures (forall other :: IsAnswer(like, db, q, rank, other) ==> other == rows) <==>
      NoTies(rank, Selected(like, db, q))
  {
    CountIsNumberOfRows(like, db, q, rank, rows);
    if NoTies(rank, Selected(like, db, q)) {
      forall other | IsAnswer(like, db, q, rank, other) ensures other == rows {
        SameCounts(other, rows);
        SortedIsUnique(rank, rows, other);
      }
    } else {
      var k := TiedNeighbours(rank, rows);
      SwapTied(like, db, q, rank, rows, k);
    }
  }

  lemma SameCounts(a: seq<TaskId>, b: seq<TaskId>)
    requires forall t :: multiset(a)[t] == multiset(b)[t]
    ensures multiset(a) == multiset(b)
  {
  }

  lemma TieReachesNeighbour(rank: TaskId -> int, rows: seq<TaskId>, k: nat, m: nat)
    requires Sorted(rank, rows) && k < m < |rows| && rank(rows[k]) == rank(rows[m])
    ensures rank(rows[k]) == rank(rows[k + 1])
  {
    assert rank(rows[k]) <= rank(rows[k + 1]) && (k + 1 == m || rank(rows[k + 1]) <= rank(rows[m]));
  }

  lemma TiedNeighbours(rank: TaskId -> int, rows: seq<TaskId>) returns (k: nat)
    requires Sorted(rank, rows) && !NoTies(rank, Elements(rows))
    ensures k + 1 < |rows| && rank(rows[k]) == rank(rows[k + 1])
  {
    var t, u :| t in Elements(rows) && u in Elements(rows) && rank(t) == rank(u) && t != u;
    var i :| 0 <= i < |rows| && rows[i] == t;
    var j :| 0 <= j < |rows| && rows[j] == u;
    k := if i < j then i else j;
    TieReachesNeighbour(rank, rows, k, if i < j then j else i);
  }

  lemma SwapTied(like: (string, Value) -> bool, db: Db, q: Query, rank: TaskId -> int, rows: seq<TaskId>, k: nat)
    requires IsAnswer(like, db, q, rank, rows) && Distinct(rows)
    requires k + 1 < |rows| && rank(rows[k]) == rank(rows[k + 1])
    ensures var other := rows[k := rows[k + 1]][k + 1 := rows[k]];
      IsAnswer(like, db, q, rank, other) && other != rows
  {
    var other := rows[k := rows[k + 1]][k + 1 := rows[k]];
    assert multiset(other) == multiset(rows);
    assert other[k] != rows[k];
  }

  /** If the database breaks ties in one fixed way, the pages 1..ceil(total / size), each from its own
      request, make up exactly the filtered, sorted list: nothing repeated, nothing missing. */
  lemma FixedOrderPagesMakeUpTheList(like: (string, Value) -> bool, db: Db, q: Query, rank: TaskId -> int,
                                     rows: seq<TaskId>, answers: nat -> seq<TaskId>, size: nat)
    requires LabelInv(db) && size > 0 && IsAnswer(like, db, q, rank, rows)
    requires forall p: nat :: answers(p) == rows
    ensures PagesTo(answers, PageCount(|Selected(like, db, q)|, size), size) == rows && Distinct(rows)
  {
    CountIsNumberOfRows(like, db, q, rank, rows);
    var n := PageCount(|rows|, size);
    PagesToPrefix(rows, answers, n, size);
    PageCountCovers(|rows|, size);
    assert n * size == |rows| ==> rows[..n * size] == rows;
  }

  /** Which it has to where there are no ties. */
  lemma UntiedPagesMakeUpTheList(like: (string, Value) -> bool, db: Db, q: Query, rank: TaskId -> int,
                                 rows: seq<TaskId>, answers: nat -> seq<TaskId>, size: nat)
    requires LabelInv(db) && size > 0 && IsAnswer(like, db, q, rank, rows)
    requires AllAnswers(like, db, q, rank, answers) && NoTies(rank, Selected(like, db, q))
    ensures PagesTo(answers, PageCount(|Selected(like, db, q)|, size), size) == rows && Distinct(rows)
  {
    OrderIsFixedIffNoTies(like, db, q, rank, rows);
    FixedOrderPagesMakeUpTheList(like, db, q, rank, rows, answers, size);
  }

  lemma PageCountCovers(total: nat, size: nat)
    requires size > 0
    ensures PageCount(total, size) * size >= total
    ensures total > 0 ==> (PageCount(total, size) - 1) * size < total
  {
  }

  /** With a tie across a page boundary, two requests may show one task on both pages and the other on
      neither. */
  lemma TieMayRepeatTask(like: (string, Value) -> bool, db: Db, q: Query, rank: TaskId -> int,
                         rows: seq<TaskId>, p: nat, size: nat) returns (other: seq<TaskId>)
    requires LabelInv(db) && size > 0 && p >= 1 && IsAnswer(like, db, q, rank, rows)
    requires p * size < |rows| && rank(rows[p * size - 1]) == rank(rows[p * size])
    ensures IsAnswer(like, db, q, rank, other)
    ensures rows[p * size - 1] in Page(rows, p, size) && rows[p * size - 1] in Page(other, p + 1, size)
    ensures rows[p * size] !in Page(rows, p, size) && rows[p * size] !in Page(other, p + 1, size)
  {
    CountIsNumberOfRows(like, db, q, rank, rows);
    var k := p * size - 1;
    SwapTied(like, db, q, rank, rows, k);
    other := rows[k := rows[k + 1]][k + 1 := rows[k]];
    SwappedPages(rows, other, p, size);
  }

  lemma SwappedPages(rows: seq<TaskId>, other: seq<TaskId>, p: nat, size: nat)
    requires Distinct(rows) && p >= 1 && size > 0 && p * size < |rows|
    requires other == rows[p * size - 1 := rows[p * size]][p * size := rows[p * size - 1]]
    ensures rows[p * size - 1] in Page(rows, p, size) && rows[p * size - 1] in Page(other, p + 1, size)
    ensures rows[p * size] !in Page(rows, p, size) && rows[p * size] !in Page(other, p + 1, size)
  {
    var offset := (p - 1) * size;
    assert offset + size == p * size;
    assert Page(rows, p, size) == rows[offset..offset + size];
    assert Page(rows, p, size)[size - 1] == rows[p * size - 1];
    assert Page(other, p + 1, size)[0] == other[p * size];
  }

  // ----- ties across pages -----

  /** Each request got an answer, perhaps each a different one. */
  ghost predicate AllAnswers(like: (string, Value) -> bool, db: Db, q: Query, rank: TaskId -> int,
                             answers: nat -> seq<TaskId>) {
    forall p: nat :: IsAnswer(like, db, q, rank, answers(p))
  }

  /** The last task of page `p` ties with the first one of the next page. */
  predicate TiedAcross(rank: TaskId -> int, rows: seq<TaskId>, p: nat, size: nat) {
    0 < p * size < |rows| && rank(rows[p * size - 1]) == rank(rows[p * size])
  }

  ghost predicate NoTieAcrossPages(rank: TaskId -> int, rows: seq<TaskId>, size: nat) {
    forall p: nat :: !TiedAcross(rank, rows, p, size)
  }

  function UpTo(rows: seq<TaskId>, k: nat): seq<TaskId> {
    if k <= |rows| then rows[..k] else rows
  }

  /** In a sorted list split where the rank reaches a bound, the front holds exactly what lies below it. */
  lemma FrontIsBelow(rank: TaskId -> int, rows: seq<TaskId>, k: nat, bound: int, t: TaskId)
    requires k <= |rows|
    requires forall i :: 0 <= i < k ==> rank(rows[i]) < bound
    requires forall i :: k <= i < |rows| ==> bound <= rank(rows[i])
    ensures multiset(rows[..k])[t] == if rank(t) < bound then multiset(rows)[t] else 0
  {
    assert rows == rows[..k] + rows[k..];
    assert t in multiset(rows[..k]) ==> t in rows[..k];
    assert t in multiset(rows[k..]) ==> t in rows[k..];
  }

  function FirstAtLeast(rank: TaskId -> int, rows: seq<TaskId>, bound: int): (k: nat)
    ensures k <= |rows| && forall i :: 0 <= i < k ==> rank(rows[i]) < bound
    ensures k < |rows| ==> bound <= rank(rows[k])
  {
    if rows == [] || bound <= rank(rows[0]) then 0 else 1 + FirstAtLeast(rank, rows[1..], bound)
  }

  /** The same tasks in an order the database may choose. */
  ghost predicate Alike(rank: TaskId -> int, a: seq<TaskId>, b: seq<TaskId>) {
    multiset(a) == multiset(b) && Sorted(rank, a) && Sorted(rank, b)
  }

  /** The list may be cut before position `k` without parting tasks that tie. */
  predicate MayCut(rank: TaskId -> int, rows: seq<TaskId>, k: nat) {
    0 < k < |rows| ==> rank(rows[k - 1]) < rank(rows[k])
  }

  /** What stands before such a cut is the same in every sorted answer. */
  lemma PrefixIsFixed(rank: TaskId -> int, a: seq<TaskId>, b: seq<TaskId>, k: nat)
    requires Alike(rank, a, b) && MayCut(rank, a, k)
    ensures multiset(UpTo(a, k)) == multiset(UpTo(b, k))
  {
    assert |a| == |multiset(a)| == |multiset(b)| == |b|;
    if 0 < k < |a| {
      var bound := rank(a[k]);
      var j := FirstAtLeast(rank, b, bound);
      forall t ensures multiset(a[..k])[t] == multiset(b[..j])[t] {
        FrontIsBelow(rank, a, k, bound, t);
        FrontIsBelow(rank, b, j, bound, t);
      }
      SameCounts(a[..k], b[..j]);
      assert k == |multiset(a[..k])| == |multiset(b[..j])| == j;
    } else if k == |a| {
      assert a[..k] == a && b[..k] == b;
    }
  }

  lemma MultisetOfBoth(a: seq<TaskId>, b: seq<TaskId>)
    ensures multiset(a + b) == multiset(a) + multiset(b)
  {
  }

  /** A stretch between two such cuts holds the same tasks in every sorted answer. */
  lemma StretchIsFixed(rank: TaskId -> int, rows: seq<TaskId>, answer: seq<TaskId>, stretch: seq<TaskId>,
                       from: nat, end: nat)
    requires Alike(rank, rows, answer) && MayCut(rank, rows, from) && MayCut(rank, rows, end)
    requires UpTo(answer, from) + stretch == UpTo(answer, end)
    ensures multiset(UpTo(rows, from)) + multiset(stretch) == multiset(UpTo(rows, end))
  {
    PrefixIsFixed(rank, rows, answer, from);
    PrefixIsFixed(rank, rows, answer, end);
    MultisetOfBoth(UpTo(answer, from), stretch);
  }

  /** How many rows so many full pages take. */
  function RowsOn(pages: nat, size: nat): nat {
    if pages == 0 then 0 else RowsOn(pages - 1, size) + size
  }

  lemma {:induction false} RowsOnIsProduct(pages: nat, size: nat)
    ensures RowsOn(pages, size) == pages * size
    decreases pages
  {
    if pages > 0 {
      RowsOnIsProduct(pages - 1, size);
      assert pages * size == (pages - 1) * size + size;
    }
  }

  lemma PageExtends(rows: seq<TaskId>, page: nat, size: nat)
    requires page >= 1
    ensures UpTo(rows, RowsOn(page - 1, size)) + Page(rows, page, size) == UpTo(rows, RowsOn(page, size))
  {
    RowsOnIsProduct(page - 1, size);
  }

  lemma PageHolds(rank: TaskId -> int, rows: seq<TaskId>, answer: seq<TaskId>, page: nat, size: nat)
    requires page >= 1 && Alike(rank, rows, answer)
    requires MayCut(rank, rows, RowsOn(page - 1, size)) && MayCut(rank, rows, RowsOn(page, size))
    ensures multiset(UpTo(rows, RowsOn(page - 1, size))) + multiset(Page(answer, page, size)) ==
      multiset(UpTo(rows, RowsOn(page, size)))
  {
    PageExtends(answer, page, size);
    StretchIsFixed(rank, rows, answer, Page(answer, page, size), RowsOn(page - 1, size), RowsOn(page, size));
  }

  /** Parts that each hold what comes from one mark up to the next hold together all up to the last. */
  lemma {:induction false} PartsAddUp(parts: nat -> seq<TaskId>, held: nat -> multiset<TaskId>, n: nat)
    requires held(0) == multiset{} && forall p: nat :: p >= 1 ==> held(p - 1) + multiset(parts(p)) == held(p)
    ensures multiset(Joined(parts, n)) == held(n)
    decreases n
  {
    if n > 0 {
      PartsAddUp(parts, held, n - 1);
      MultisetOfBoth(Joined(parts, n - 1), parts(n));
    }
  }

  /** Where every page may end, the first n pages hold the first n * size rows, each once, whatever order
      each request saw. */
  lemma PagesHoldPrefix(rank: TaskId -> int, rows: seq<TaskId>, answers: nat -> seq<TaskId>, n: nat, size: nat)
    requires forall p: nat :: MayCut(rank, rows, RowsOn(p, size))
    requires forall p: nat :: Alike(rank, rows, answers(p))
    ensures multiset(PagesTo(answers, n, size)) == multiset(UpTo(rows, RowsOn(n, size)))
  {
    var held := (p: nat) => multiset(UpTo(rows, RowsOn(p, size)));
    assert UpTo(rows, 0) == [];
    forall p: nat | p >= 1 ensures held(p - 1) + multiset(PagesOf(answers, size)(p)) == held(p) {
      PageHolds(rank, rows, answers(p), p, size);
    }
    PartsAddUp(PagesOf(answers, size), held, n);
  }

  lemma CutsAtPages(rank: TaskId -> int, rows: seq<TaskId>, size: nat)
    requires Sorted(rank, rows) && NoTieAcrossPages(rank, rows, size)
    ensures forall p: nat :: MayCut(rank, rows, RowsOn(p, size))
  {
    forall p: nat ensures MayCut(rank, rows, RowsOn(p, size)) {
      RowsOnIsProduct(p, size);
      assert !TiedAcross(rank, rows, p, size);
    }
  }

  lemma {:induction false} PagesLack(answers: nat -> seq<TaskId>, n: nat, size: nat, t: TaskId)
    requires forall p: nat :: p >= 1 ==> t !in Page(answers(p), p, size)
    ensures t !in PagesTo(answers, n, size)
    decreases n
  {
    if n > 0 {
      PagesLack(answers, n - 1, size, t);
    }
  }

  lemma Below(i: nat, j: nat, size: nat)
    requires i < j
    ensures (i + 1) * size <= j * size
  {
  }

  /** A row stands on one page only. */
  lemma RowOnOnePage(rows: seq<TaskId>, p: nat, k: nat, size: nat)
    requires Distinct(rows) && size > 0 && p * size < |rows| && k >= 1 && k != p + 1
    ensures rows[p * size] !in Page(rows, k, size)
  {
    var offset := (k - 1) * size;
    assert offset + size == k * size;
    if k - 1 < p {
      Below(k - 1, p, size);
    } else {
      Below(p, k - 1, size);
    }
    forall i | 0 <= i < |Page(rows, k, size)| ensures Page(rows, k, size)[i] != rows[p * size] {
      assert Page(rows, k, size)[i] == rows[offset + i];
    }
  }

  /** With a tie across pages, some choice of answers shows one task on no page. */
  lemma TieLosesTask(like: (string, Value) -> bool, db: Db, q: Query, rank: TaskId -> int,
                     rows: seq<TaskId>, p: nat, size: nat, n: nat) returns (answers: nat -> seq<TaskId>)
    requires LabelInv(db) && size > 0 && IsAnswer(like, db, q, rank, rows) && TiedAcross(rank, rows, p, size)
    ensures AllAnswers(like, db, q, rank, answers)
    ensures rows[p * size] !in PagesTo(answers, n, size)
  {
    CountIsNumberOfRows(like, db, q, rank, rows);
    var other := TieMayRepeatTask(like, db, q, rank, rows, p, size);
    answers := (k: nat) => if k == p + 1 then other else rows;
    RowOnNoPage(rows, other, answers, p, size);
    PagesLack(answers, n, size, rows[p * size]);
  }

  lemma RowOnNoPage(rows: seq<TaskId>, other: seq<TaskId>, answers: nat -> seq<TaskId>, p: nat, size: nat)
    requires Distinct(rows) && size > 0 && p * size < |rows| && rows[p * size] !in Page(other, p + 1, size)
    requires forall k: nat :: answers(k) == if k == p + 1 then other else rows
    ensures forall k: nat :: k >= 1 ==> rows[p * size] !in Page(answers(k), k, size)
  {
    forall k: nat | k >= 1 ensures rows[p * size] !in Page(answers(k), k, size) {
      if k != p + 1 {
        RowOnOnePage(rows, p, k, size);
      }
    }
  }

  lemma AnswersAgree(like: (string, Value) -> bool, db: Db, q: Query, rank: TaskId -> int,
                     rows: seq<TaskId>, answers: nat -> seq<TaskId>)
    requires IsAnswer(like, db, q, rank, rows) && AllAnswers(like, db, q, rank, answers)
    ensures forall p: nat :: Alike(rank, rows, answers(p))
  {
    forall p: nat ensures Alike(rank, rows, answers(p)) {
      assert IsAnswer(like, db, q, rank, answers(p));
      SameCounts(answers(p), rows);
    }
  }

  /** Paging is right exactly as far as ties allow. While the rows do not change, the pages
      1..ceil(total / size) show each selected task exactly once, whatever order the database chose for
      each request, if and only if no two tasks tie across a page boundary. */
  lemma EachTaskOnceIffNoTieAcrossPages(like: (string, Value) -> bool, db: Db, q: Query, rank: TaskId -> int,
                                        rows: seq<TaskId>, size: nat)
    requires LabelInv(db) && size > 0 && IsAnswer(like, db, q, rank, rows)
    ensures var n := PageCount(|Selected(like, db, q)|, size);
      (forall answers: nat -> seq<TaskId> :: AllAnswers(like, db, q, rank, answers) ==>
         multiset(PagesTo(answers, n, size)) == multiset(rows)) <==> NoTieAcrossPages(rank, rows, size)
    ensures Distinct(rows) && Elements(rows) == Selected(like, db, q)
  {
    CountIsNumberOfRows(like, db, q, rank, rows);
    var n := PageCount(|rows|, size);
    PageCountCovers(|rows|, size);
    if NoTieAcrossPages(rank, rows, size) {
      forall answers: nat -> seq<TaskId> | AllAnswers(like, db, q, rank, answers)
        ensures multiset(PagesTo(answers, n, size)) == multiset(rows)
      {
        AnswersAgree(like, db, q, rank, rows, answers);
        CutsAtPages(rank, rows, size);
        PagesHoldPrefix(rank, rows, answers, n, size);
        RowsOnIsProduct(n, size);
        assert UpTo(rows, RowsOn(n, size)) == rows;
      }
    } else {
      var p: nat :| TiedAcross(rank, rows, p, size);
      var answers := TieLosesTask(like, db, q, rank, rows, p, size, n);
      assert rows[p * size] in multiset(rows) && rows[p * size] !in multiset(PagesTo(answers, n, size));
    }
  }
}
