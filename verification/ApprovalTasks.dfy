/**
 A user's approval tasks (core/api/tasks.go): the page is built from batches with
 an offset, the count from one plain and one grouped query, and both share a cache
 of proposal eligibility. The rows are one snapshot of the tasks the caller is
 assigned and may see, newest first.
 */
module ApprovalTasks {
  import opened Options

  const BATCH: nat := 64

  datatype Status = Open | Claimed | Resolved | Cancelled

  datatype Slug = DocumentChange | RescanProposal | Other(name: string)

  datatype Vars = Vars(kind: string, currentVersion: string, rest: string)

  type Key = (string, string)

  datatype Row = Row(id: nat, doc: nat, slug: Slug, status: Status, vars: string)

  datatype Task = Task(id: nat, doc: nat, slug: Slug, status: Status, vars: Vars)

  /** What a request calls on: JSON decoding, the rescan check and the review's variables. Each may fail. */
  datatype Env = Env(decode: string -> Option<Vars>, stillNeeded: Vars -> Option<bool>, review: (nat, Vars) -> Option<Vars>)

  function CacheKey(vars: Vars): Key {
    (vars.kind, vars.currentVersion)
  }

  /** Eligibility is decided by the fields of the cache key. */
  ghost predicate KeyDecides(env: Env) {
    forall v, w :: CacheKey(v) == CacheKey(w) ==> env.stillNeeded(v) == env.stillNeeded(w)
  }

  // ---------- what the answer should be ----------

  datatype Verdict = Failed | Hidden | Listed(task: Task)

  function Judge(env: Env, row: Row): Verdict {
    match env.decode(row.vars)
    case None => Failed
    case Some(vars) => JudgeTask(env, Task(row.id, row.doc, row.slug, row.status, vars))
  }

  function JudgeTask(env: Env, task: Task): Verdict {
    match task.slug
    case DocumentChange =>
      (match env.review(task.doc, task.vars)
       case None => Failed
       case Some(vars) => Listed(task.(vars := vars)))
    case RescanProposal =>
      (match env.stillNeeded(task.vars)
       case None => Failed
       case Some(needed) => if needed then Listed(task) else Hidden)
    case Other(_) => Listed(task)
  }

  /** The tasks a list of rows shows, in order. */
  function Shown(env: Env, rows: seq<Row>): seq<Task> {
    if rows == [] then []
    else
      var verdict := Judge(env, rows[|rows| - 1]);
      Shown(env, rows[..|rows| - 1]) + (if verdict.Listed? then [verdict.task] else [])
  }

  function Take<T>(s: seq<T>, limit: int): seq<T> {
    if limit <= 0 then [] else if |s| <= limit then s else s[..limit]
  }

  function WithStatus(rows: seq<Row>, statuses: set<Status>): seq<Row> {
    if rows == [] then []
    else
      var row := rows[|rows| - 1];
      WithStatus(rows[..|rows| - 1], statuses) + (if row.status in statuses then [row] else [])
  }

  function Actionable(rows: seq<Row>): seq<Row> {
    WithStatus(rows, {Open, Claimed})
  }

  function Count(rows: seq<Row>, p: Row -> bool): nat {
    if rows == [] then 0 else Count(rows[..|rows| - 1], p) + (if p(rows[|rows| - 1]) then 1 else 0)
  }

  /** Ordinary tasks always show; a proposal shows while it is still needed. */
  predicate Needed(env: Env, row: Row) {
    row.slug != RescanProposal ||
    (env.decode(row.vars).Some? && env.stillNeeded(env.decode(row.vars).value) == Some(true))
  }

  function Visible(env: Env, statuses: set<Status>): Row -> bool {
    (row: Row) => row.status in statuses && Needed(env, row)
  }

  function VisibleCount(env: Env, rows: seq<Row>, statuses: set<Status>): nat {
    Count(rows, Visible(env, statuses))
  }

  /** The rows kept are at these places, in order, and no other row has one of the statuses. */
  ghost predicate KeptAt(rows: seq<Row>, statuses: set<Status>, kept: seq<Row>, places: seq<nat>) {
    && |places| == |kept|
    && (forall i :: 0 <= i < |places| ==> places[i] < |rows| && kept[i] == rows[places[i]] && kept[i].status in statuses)
    && (forall i, j :: 0 <= i < j < |places| ==> places[i] < places[j])
    && (forall k :: 0 <= k < |rows| && rows[k].status in statuses ==> k in places)
  }

  lemma KeptSkips(front: seq<Row>, row: Row, statuses: set<Status>, kept: seq<Row>, places: seq<nat>)
    requires KeptAt(front, statuses, kept, places) && row.status !in statuses
    ensures KeptAt(front + [row], statuses, kept, places)
  {
  }

  lemma KeptTakes(front: seq<Row>, row: Row, statuses: set<Status>, kept: seq<Row>, places: seq<nat>)
    requires KeptAt(front, statuses, kept, places) && row.status in statuses
    ensures KeptAt(front + [row], statuses, kept + [row], places + [|front|])
  {
    var rows, all := front + [row], places + [|front|];
    forall k | 0 <= k < |rows| && rows[k].status in statuses ensures k in all {
      if k < |front| {
        assert front[k] == rows[k];
        assert k in places;
      } else {
        assert all[|places|] == k;
      }
    }
  }

  /** Filtering by status keeps exactly the rows of those statuses, each once and in order. */
  lemma {:induction false} WithStatusKeepsOrder(rows: seq<Row>, statuses: set<Status>) returns (places: seq<nat>)
    ensures KeptAt(rows, statuses, WithStatus(rows, statuses), places)
  {
    places := [];
    if rows != [] {
      var front, row := rows[..|rows| - 1], rows[|rows| - 1];
      places := WithStatusKeepsOrder(front, statuses);
      assert rows == front + [row];
      if row.status in statuses {
        KeptTakes(front, row, statuses, WithStatus(front, statuses), places);
        places := places + [|front|];
      } else {
        KeptSkips(front, row, statuses, WithStatus(front, statuses), places);
        assert WithStatus(rows, statuses) == WithStatus(front, statuses);
      }
    }
  }

  /** A list shows a task for each of its rows that is not hidden, with the row's id, document and status. */
  lemma {:induction false} ShownMembers(env: Env, rows: seq<Row>, task: Task)
    ensures task in Shown(env, rows) <==> exists row :: row in rows && Judge(env, row) == Listed(task)
  {
    if rows != [] {
      var front, last := rows[..|rows| - 1], rows[|rows| - 1];
      ShownMembers(env, front, task);
      assert rows == front + [last];
    }
  }

  lemma ListedTaskIsTheRow(env: Env, row: Row)
    ensures Judge(env, row).Listed? ==>
      var t := Judge(env, row).task; t.id == row.id && t.doc == row.doc && t.slug == row.slug && t.status == row.status
  {
  }

  /** What becomes of a row: a change shows the reviewed variables, a proposal shows while it is needed, the rest always. */
  lemma JudgeSays(env: Env, row: Row)
    ensures env.decode(row.vars).None? ==> Judge(env, row) == Failed
    ensures env.decode(row.vars).Some? ==>
      var vars := env.decode(row.vars).value;
      && (row.slug == DocumentChange ==>
            && (env.review(row.doc, vars).None? ==> Judge(env, row) == Failed)
            && (env.review(row.doc, vars).Some? ==>
                  Judge(env, row) == Listed(Task(row.id, row.doc, row.slug, row.status, env.review(row.doc, vars).value))))
      && (row.slug == RescanProposal ==>
            && (env.stillNeeded(vars) == None ==> Judge(env, row) == Failed)
            && (env.stillNeeded(vars) == Some(false) ==> Judge(env, row) == Hidden)
            && (env.stillNeeded(vars) == Some(true) ==> Judge(env, row) == Listed(Task(row.id, row.doc, row.slug, row.status, vars))))
      && (row.slug.Other? ==> Judge(env, row) == Listed(Task(row.id, row.doc, row.slug, row.status, vars)))
  {
  }

  /** The key is the proposal's kind and current version. */
  lemma KeyDecidesMeans(env: Env)
    ensures KeyDecides(env) <==>
      forall v: Vars, w: Vars :: v.kind == w.kind && v.currentVersion == w.currentVersion ==> env.stillNeeded(v) == env.stillNeeded(w)
  {
  }

  /** Every open or claimed row that is not hidden has its task in the list the page is cut from. */
  lemma ActionableIsShown(env: Env, rows: seq<Row>, row: Row)
    requires row in rows && (row.status == Open || row.status == Claimed) && Judge(env, row).Listed?
    ensures Judge(env, row).task in Shown(env, Actionable(rows))
  {
    var places := WithStatusKeepsOrder(rows, {Open, Claimed});
    var k :| 0 <= k < |rows| && rows[k] == row;
    var i :| 0 <= i < |places| && places[i] == k;
    assert Actionable(rows)[i] == row;
    ShownMembers(env, Actionable(rows), Judge(env, row).task);
  }

  lemma PageShowsActionable(env: Env, rows: seq<Row>, limit: int)
    ensures forall t :: t in Take(Shown(env, Actionable(rows)), limit) ==>
      (t.status == Open || t.status == Claimed) && exists row :: row in rows && Judge(env, row) == Listed(t)
  {
    forall t | t in Take(Shown(env, Actionable(rows)), limit)
      ensures (t.status == Open || t.status == Claimed) && exists row :: row in rows && Judge(env, row) == Listed(t)
    {
      ShownMembers(env, Actionable(rows), t);
      var row :| row in Actionable(rows) && Judge(env, row) == Listed(t);
      ListedTaskIsTheRow(env, row);
      var places := WithStatusKeepsOrder(rows, {Open, Claimed});
    }
  }

  lemma {:induction false} ShownConcat(env: Env, a: seq<Row>, b: seq<Row>)
    ensures Shown(env, a + b) == Shown(env, a) + Shown(env, b)
    decreases |b|
  {
    if b == [] {
      assert a + b == a;
    } else {
      ShownConcat(env, a, b[..|b| - 1]);
      assert (a + b)[..|a + b| - 1] == a + b[..|b| - 1];
    }
  }

  /** Once a page is full, later rows do not change it. */
  lemma FullPageIsFinal(env: Env, rows: seq<Row>, k: nat, limit: int)
    requires k <= |rows| && limit <= |Shown(env, rows[..k])|
    ensures Take(Shown(env, rows[..k]), limit) == Take(Shown(env, rows), limit)
  {
    assert rows == rows[..k] + rows[k..];
    ShownConcat(env, rows[..k], rows[k..]);
  }

  /** The count and the list speak of the same tasks: where no row fails, the count is the whole list's length. */
  lemma {:induction false} CountIsListLength(env: Env, rows: seq<Row>, statuses: set<Status>)
    requires forall row :: row in rows && row.status in statuses ==> Judge(env, row) != Failed
    ensures VisibleCount(env, rows, statuses) == |Shown(env, WithStatus(rows, statuses))|
  {
    if rows != [] {
      var front, row := rows[..|rows| - 1], rows[|rows| - 1];
      forall r | r in front ensures r in rows {}
      CountIsListLength(env, front, statuses);
      assert row in rows;
      var kept := WithStatus(front, statuses);
      if row.status in statuses {
        ShownSnoc(env, kept + [row], |kept|);
        assert (kept + [row])[..|kept|] == kept && (kept + [row])[..|kept| + 1] == kept + [row];
        assert Needed(env, row) == Judge(env, row).Listed?;
      } else {
        assert WithStatus(rows, statuses) == kept;
      }
    }
  }

  // ---------- the cache ----------

  class EligibilityCache {
    var known: map<Key, bool>

    /** Every remembered answer is what asking again would give. */
    ghost predicate Agrees(env: Env)
      reads this
    {
      forall v :: CacheKey(v) in known ==> env.stillNeeded(v) == Some(known[CacheKey(v)])
    }

    constructor ()
      ensures known == map[]
    {
      known := map[];
    }

    method StillNeeded(env: Env, vars: Vars) returns (needed: Option<bool>)
      requires KeyDecides(env) && Agrees(env)
      modifies this
      ensures Agrees(env)
      ensures needed == env.stillNeeded(vars)
    {
      var key := CacheKey(vars);
      if key in known {
        return Some(known[key]);
      }
      needed := env.stillNeeded(vars);
      if needed.Some? {
        known := known[key := needed.value];
      }
    }
  }

  // ---------- the page ----------

  /** One of the rows from number a up to b fails. */
  ghost predicate SomeRowFails(env: Env, rows: seq<Row>, a: nat, b: nat) {
    exists i :: a <= i < b && i < |rows| && Judge(env, rows[i]) == Failed
  }

  /** Decodes a whole batch before anything else is asked of the database. */
  method Materialize(env: Env, rows: seq<Row>) returns (tasks: Option<seq<Task>>)
    ensures tasks.None? <==> exists row :: row in rows && env.decode(row.vars).None?
    ensures tasks.Some? ==> |tasks.value| == |rows|
    ensures tasks.Some? ==> forall i :: 0 <= i < |rows| ==> JudgeTask(env, tasks.value[i]) == Judge(env, rows[i])
  {
    var out: seq<Task> := [];
    for i := 0 to |rows|
      invariant |out| == i
      invariant forall j :: 0 <= j < i ==> JudgeTask(env, out[j]) == Judge(env, rows[j]) && env.decode(rows[j].vars).Some?
    {
      var row := rows[i];
      var vars := env.decode(row.vars);
      if vars.None? {
        assert row in rows;
        return None;
      }
      out := out + [Task(row.id, row.doc, row.slug, row.status, vars.value)];
    }
    return Some(out);
  }

  /** One task of a batch: shown, hidden or an error. */
  method Check(env: Env, cache: EligibilityCache, task: Task) returns (verdict: Verdict)
    requires KeyDecides(env) && cache.Agrees(env)
    modifies cache
    ensures cache.Agrees(env)
    ensures verdict == JudgeTask(env, task)
  {
    var shown := task;
    if task.slug == DocumentChange {
      var vars := env.review(task.doc, task.vars);
      if vars.None? {
        return Failed;
      }
      shown := task.(vars := vars.value);
    }
    if task.slug == RescanProposal {
      var needed := cache.StillNeeded(env, shown.vars);
      if needed.None? {
        return Failed;
      }
      if !needed.value {
        return Hidden;
      }
    }
    return Listed(shown);
  }

  lemma ShownSnoc(env: Env, rows: seq<Row>, k: nat)
    requires k < |rows|
    ensures Shown(env, rows[..k + 1]) ==
      Shown(env, rows[..k]) + (if Judge(env, rows[k]).Listed? then [Judge(env, rows[k]).task] else [])
  {
    assert rows[..k + 1][..k] == rows[..k];
  }

  /** The page after the first n rows. */
  function PageAfter(env: Env, rows: seq<Row>, n: nat, limit: int): seq<Task>
    requires n <= |rows|
  {
    if n == 0 then []
    else
      var page, verdict := PageAfter(env, rows, n - 1, limit), Judge(env, rows[n - 1]);
      if verdict.Listed? && |page| < limit then page + [verdict.task] else page
  }

  lemma {:induction false} PageIsShown(env: Env, rows: seq<Row>, n: nat, limit: int)
    requires n <= |rows|
    ensures PageAfter(env, rows, n, limit) == Take(Shown(env, rows[..n]), limit)
  {
    if n > 0 {
      PageIsShown(env, rows, n - 1, limit);
      ShownSnoc(env, rows, n - 1);
    }
  }

  /** Works one batch into the page. */
  method AddBatch(env: Env, cache: EligibilityCache, rows: seq<Row>, from: nat, batch: seq<Task>, limit: int, page: seq<Task>)
    returns (out: Option<seq<Task>>)
    requires KeyDecides(env) && cache.Agrees(env)
    requires from + |batch| <= |rows| && page == PageAfter(env, rows, from, limit)
    requires forall i :: 0 <= i < |batch| ==> JudgeTask(env, batch[i]) == Judge(env, rows[from + i])
    modifies cache
    ensures cache.Agrees(env)
    ensures out.None? <==> SomeRowFails(env, rows, from, from + |batch|)
    ensures out.Some? ==> out.value == PageAfter(env, rows, from + |batch|, limit)
  {
    var grown := page;
    for i := 0 to |batch|
      invariant cache.Agrees(env)
      invariant !SomeRowFails(env, rows, from, from + i)
      invariant grown == PageAfter(env, rows, from + i, limit)
    {
      var verdict := Check(env, cache, batch[i]);
      if verdict == Failed {
        return None;
      }
      if verdict.Listed? && |grown| < limit {
        grown := grown + [verdict.task];
      }
    }
    return Some(grown);
  }

  /** Where the batch at an offset ends. */
  function BatchEnd(rows: seq<Row>, offset: nat): (end: nat)
    requires offset <= |rows|
    ensures offset <= end <= |rows| && end <= offset + BATCH && (end < offset + BATCH ==> end == |rows|)
  {
    if offset + BATCH <= |rows| then offset + BATCH else |rows|
  }

  /** How many rows are read until the page is full or a batch comes back short. */
  function RowsRead(env: Env, rows: seq<Row>, limit: int, offset: nat): (n: nat)
    requires offset <= |rows|
    ensures offset <= n <= |rows|
    decreases |rows| - offset
  {
    if limit <= |PageAfter(env, rows, offset, limit)| then offset
    else if BatchEnd(rows, offset) < offset + BATCH then |rows|
    else RowsRead(env, rows, limit, BatchEnd(rows, offset))
  }

  /** Queries one batch at an offset and works it into the page. */
  method NextBatch(env: Env, cache: EligibilityCache, rows: seq<Row>, offset: nat, limit: int, page: seq<Task>)
    returns (out: Option<seq<Task>>, scanned: nat)
    requires KeyDecides(env) && cache.Agrees(env)
    requires offset <= |rows| && page == PageAfter(env, rows, offset, limit)
    modifies cache
    ensures cache.Agrees(env)
    ensures offset + scanned == BatchEnd(rows, offset)
    ensures out.None? <==> SomeRowFails(env, rows, offset, offset + scanned)
    ensures out.Some? ==> out.value == PageAfter(env, rows, offset + scanned, limit)
  {
    var end := BatchEnd(rows, offset);
    scanned := end - offset;
    var queried := rows[offset..end];
    var batch := Materialize(env, queried);
    if batch.None? {
      var row :| row in queried && env.decode(row.vars).None?;
      var i :| 0 <= i < |queried| && queried[i] == row;
      assert Judge(env, rows[offset + i]) == Failed;
      return None, scanned;
    }
    out := AddBatch(env, cache, rows, offset, batch.value, limit, page);
  }

  /** The page: exactly the first `limit` tasks of the filtered list. */
  method ListPage(env: Env, cache: EligibilityCache, snapshot: seq<Row>, limit: int) returns (page: Option<seq<Task>>)
    requires KeyDecides(env) && cache.Agrees(env)
    modifies cache
    ensures cache.Agrees(env)
    ensures var rows := Actionable(snapshot); page.None? <==> SomeRowFails(env, rows, 0, RowsRead(env, rows, limit, 0))
    ensures page.Some? ==> page.value == Take(Shown(env, Actionable(snapshot)), limit)
    ensures page.Some? ==> forall t :: t in page.value ==> t.status == Open || t.status == Claimed
  {
    page := ReadPage(env, cache, snapshot, limit);
    PageShowsActionable(env, snapshot, limit);
  }

  method ReadPage(env: Env, cache: EligibilityCache, snapshot: seq<Row>, limit: int) returns (page: Option<seq<Task>>)
    requires KeyDecides(env) && cache.Agrees(env)
    modifies cache
    ensures cache.Agrees(env)
    ensures var rows := Actionable(snapshot); page.None? <==> SomeRowFails(env, rows, 0, RowsRead(env, rows, limit, 0))
    ensures page.Some? ==> page.value == Take(Shown(env, Actionable(snapshot)), limit)
  {
    var rows := Actionable(snapshot);
    var out: seq<Task> := [];
    var offset: nat := 0;
    while |out| < limit
      invariant cache.Agrees(env)
      invariant offset <= |rows| && out == PageAfter(env, rows, offset, limit)
      invariant RowsRead(env, rows, limit, 0) == RowsRead(env, rows, limit, offset)
      invariant !SomeRowFails(env, rows, 0, offset)
      decreases |rows| - offset
    {
      var grown, scanned := NextBatch(env, cache, rows, offset, limit, out);
      BatchRead(env, rows, limit, offset);
      if grown.None? {
        return None;
      }
      out := grown.value;
      offset := offset + scanned;
      if scanned < BATCH {
        break;
      }
    }
    PageIsShown(env, rows, offset, limit);
    if offset == |rows| {
      assert rows[..offset] == rows;
    } else {
      FullPageIsFinal(env, rows, offset, limit);
    }
    return Some(out);
  }

  /** A batch read before the page is full counts among the rows read, whole. */
  lemma BatchRead(env: Env, rows: seq<Row>, limit: int, offset: nat)
    requires offset <= |rows| && |PageAfter(env, rows, offset, limit)| < limit
    requires !SomeRowFails(env, rows, 0, offset)
    ensures var end, n := BatchEnd(rows, offset), RowsRead(env, rows, limit, offset);
      && end <= n
      && (end < offset + BATCH ==> n == end == |rows|)
      && (end == offset + BATCH ==> n == RowsRead(env, rows, limit, end))
      && (SomeRowFails(env, rows, offset, end) <==> SomeRowFails(env, rows, 0, end))
      && (SomeRowFails(env, rows, 0, end) ==> SomeRowFails(env, rows, 0, n))
  {
    var end, n := BatchEnd(rows, offset), RowsRead(env, rows, limit, offset);
  }

  // ---------- the count ----------

  /** One row per distinct payload, with how many tasks carry it. */
  ghost predicate AnswersGroupBy(groups: seq<(string, nat)>, rows: seq<Row>, statuses: set<Status>) {
    && (forall i, j :: 0 <= i < j < |groups| ==> groups[i].0 != groups[j].0)
    && (forall i :: 0 <= i < |groups| ==>
          groups[i].1 == Count(rows, InGroup(statuses, groups[i].0)) && groups[i].1 > 0)
    && (forall row :: row in rows && row.status in statuses && row.slug == RescanProposal ==>
          exists i :: 0 <= i < |groups| && groups[i].0 == row.vars)
  }

  function InGroup(statuses: set<Status>, payload: string): Row -> bool {
    (row: Row) => row.status in statuses && row.slug == RescanProposal && row.vars == payload
  }

  /** Counted after `k` groups: the ordinary tasks and the needed proposals of those groups. */
  function Covered(env: Env, statuses: set<Status>, groups: seq<(string, nat)>, k: nat): Row -> bool {
    (row: Row) =>
      && row.status in statuses && Needed(env, row)
      && (row.slug == RescanProposal ==> exists i :: 0 <= i < k && i < |groups| && groups[i].0 == row.vars)
  }

  lemma {:induction false} CountCong(rows: seq<Row>, p: Row -> bool, q: Row -> bool)
    requires forall row :: row in rows ==> p(row) == q(row)
    ensures Count(rows, p) == Count(rows, q)
  {
    if rows != [] {
      forall row | row in rows[..|rows| - 1] ensures row in rows {}
      CountCong(rows[..|rows| - 1], p, q);
      assert rows[|rows| - 1] in rows;
    }
  }

  lemma {:induction false} CountSplits(rows: seq<Row>, whole: Row -> bool, a: Row -> bool, b: Row -> bool)
    requires forall row :: whole(row) == (a(row) || b(row)) && !(a(row) && b(row))
    ensures Count(rows, whole) == Count(rows, a) + Count(rows, b)
  {
    if rows != [] {
      CountSplits(rows[..|rows| - 1], whole, a, b);
      var last := rows[|rows| - 1];
      assert whole(last) == (a(last) || b(last)) && !(a(last) && b(last));
    }
  }

  lemma NextGroup(env: Env, rows: seq<Row>, statuses: set<Status>, groups: seq<(string, nat)>, k: nat)
    requires k < |groups| && AnswersGroupBy(groups, rows, statuses)
    requires env.decode(groups[k].0).Some?
    ensures var needed := env.stillNeeded(env.decode(groups[k].0).value) == Some(true);
      Count(rows, Covered(env, statuses, groups, k + 1)) ==
      Count(rows, Covered(env, statuses, groups, k)) + (if needed then groups[k].1 else 0)
  {
    var before, after := Covered(env, statuses, groups, k), Covered(env, statuses, groups, k + 1);
    forall row ensures NewlyCovered(env, statuses, groups, k, row) {
      OneGroup(env, statuses, groups, k, row);
    }
    if env.stillNeeded(env.decode(groups[k].0).value) == Some(true) {
      forall row ensures after(row) == (before(row) || InGroup(statuses, groups[k].0)(row))
        && !(before(row) && InGroup(statuses, groups[k].0)(row))
      {
        assert NewlyCovered(env, statuses, groups, k, row);
      }
      CountSplits(rows, after, before, InGroup(statuses, groups[k].0));
    } else {
      forall row ensures after(row) == before(row) {
        assert NewlyCovered(env, statuses, groups, k, row);
      }
      CountCong(rows, after, before);
    }
  }

  /** One more group covers exactly its own rows, and only if it is needed. */
  ghost predicate NewlyCovered(env: Env, statuses: set<Status>, groups: seq<(string, nat)>, k: nat, row: Row)
    requires k < |groups| && env.decode(groups[k].0).Some?
  {
    var added := env.stillNeeded(env.decode(groups[k].0).value) == Some(true) && InGroup(statuses, groups[k].0)(row);
    var before := Covered(env, statuses, groups, k)(row);
    Covered(env, statuses, groups, k + 1)(row) == (before || added) && !(before && added)
  }

  lemma OneGroup(env: Env, statuses: set<Status>, groups: seq<(string, nat)>, k: nat, row: Row)
    requires k < |groups| && env.decode(groups[k].0).Some?
    requires forall i, j :: 0 <= i < j < |groups| ==> groups[i].0 != groups[j].0
    ensures NewlyCovered(env, statuses, groups, k, row)
  {
    if row.slug == RescanProposal && row.vars == groups[k].0 {
      assert forall i :: 0 <= i < k ==> groups[i].0 != groups[k].0;
    }
  }

  /** A counted proposal cannot be decoded or checked. The count asks nothing of other tasks. */
  ghost predicate SomeProposalFails(env: Env, rows: seq<Row>, statuses: set<Status>) {
    exists row :: row in rows && row.status in statuses && row.slug == RescanProposal && Judge(env, row) == Failed
  }

  /** The plain count plus the needed groups is the number of visible tasks. */
  method CountVisible(env: Env, cache: EligibilityCache, rows: seq<Row>, statuses: set<Status>, groups: seq<(string, nat)>)
    returns (count: Option<nat>)
    requires KeyDecides(env) && cache.Agrees(env)
    requires AnswersGroupBy(groups, rows, statuses)
    modifies cache
    ensures cache.Agrees(env)
    ensures count.None? <==> SomeProposalFails(env, rows, statuses)
    ensures count.Some? ==> count.value == VisibleCount(env, rows, statuses)
  {
    if statuses == {} {
      NothingCounted(env, rows);
      return Some(0);
    }
    var ordinary := (row: Row) => row.status in statuses && row.slug != RescanProposal;
    var total := Count(rows, ordinary);
    var decoded: seq<Vars> := [];
    for i := 0 to |groups|
      invariant |decoded| == i
      invariant forall j :: 0 <= j < i ==> env.decode(groups[j].0) == Some(decoded[j])
    {
      var vars := env.decode(groups[i].0);
      if vars.None? {
        GroupFails(env, rows, statuses, groups, i);
        return None;
      }
      decoded := decoded + [vars.value];
    }
    CountCong(rows, ordinary, Covered(env, statuses, groups, 0));
    for i := 0 to |groups|
      invariant cache.Agrees(env)
      invariant forall j :: 0 <= j < i ==> env.stillNeeded(decoded[j]).Some?
      invariant total == Count(rows, Covered(env, statuses, groups, i))
    {
      var needed := cache.StillNeeded(env, decoded[i]);
      if needed.None? {
        GroupFails(env, rows, statuses, groups, i);
        return None;
      }
      NextGroup(env, rows, statuses, groups, i);
      if needed.value {
        total := total + groups[i].1;
      }
    }
    CountCong(rows, Covered(env, statuses, groups, |groups|), Visible(env, statuses));
    forall row | row in rows && row.status in statuses && row.slug == RescanProposal ensures Judge(env, row) != Failed {
      var i :| 0 <= i < |groups| && groups[i].0 == row.vars;
    }
    return Some(total);
  }

  lemma {:induction false} NothingCounted(env: Env, rows: seq<Row>)
    ensures VisibleCount(env, rows, {}) == 0
  {
    if rows != [] {
      NothingCounted(env, rows[..|rows| - 1]);
    }
  }

  lemma {:induction false} CountPositive(rows: seq<Row>, p: Row -> bool)
    requires Count(rows, p) > 0
    ensures exists row :: row in rows && p(row)
  {
    var last := rows[|rows| - 1];
    if p(last) {
      assert last in rows;
    } else {
      CountPositive(rows[..|rows| - 1], p);
      var row :| row in rows[..|rows| - 1] && p(row);
      assert row in rows;
    }
  }

  lemma GroupFails(env: Env, rows: seq<Row>, statuses: set<Status>, groups: seq<(string, nat)>, k: nat)
    requires k < |groups| && AnswersGroupBy(groups, rows, statuses)
    requires var vars := env.decode(groups[k].0); vars.None? || env.stillNeeded(vars.value).None?
    ensures SomeProposalFails(env, rows, statuses)
  {
    var p := InGroup(statuses, groups[k].0);
    CountPositive(rows, p);
    var row :| row in rows && p(row);
    assert Judge(env, row) == Failed;
  }

  /** The page and the number of open tasks behind the dashboard, sharing one cache. */
  method ApprovalTasksForUser(env: Env, snapshot: seq<Row>, openGroups: seq<(string, nat)>, limit: int)
    returns (answer: Option<(seq<Task>, nat)>)
    requires KeyDecides(env) && AnswersGroupBy(openGroups, snapshot, {Open})
    ensures var rows := Actionable(snapshot);
      answer.None? <==> SomeRowFails(env, rows, 0, RowsRead(env, rows, limit, 0)) || SomeProposalFails(env, snapshot, {Open})
    ensures answer.Some? ==>
      && answer.value.0 == Take(Shown(env, Actionable(snapshot)), limit)
      && answer.value.1 == VisibleCount(env, snapshot, {Open})
  {
    var cache := new EligibilityCache();
    var page := ListPage(env, cache, snapshot, limit);
    if page.None? {
      return None;
    }
    var open := CountVisible(env, cache, snapshot, {Open}, openGroups);
    if open.None? {
      return None;
    }
    return Some((page.value, open.value));
  }
}
