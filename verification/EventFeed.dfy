/**
 The notification feed's cursor (core/api/events.go): a client that feeds back
 `latest_id` against a log that keeps growing. Ids grow with every append, and
 which ids the caller may see is one fixed predicate.
 */
module EventFeed {

  type Visibility = int -> bool

  predicate Increasing(log: seq<int>) {
    forall i, j :: 0 <= i < j < |log| ==> log[i] < log[j]
  }

  /** The visible ids of the log in (lo, hi], in id order. */
  function Between(log: seq<int>, vis: Visibility, lo: int, hi: int): seq<int> {
    if log == [] then []
    else
      var x := log[|log| - 1];
      Between(log[..|log| - 1], vis, lo, hi) + (if lo < x <= hi && vis(x) then [x] else [])
  }

  function LastId(log: seq<int>): int {
    if log == [] then 0 else log[|log| - 1]
  }

  /** The visible ids past a cursor. */
  function Pending(log: seq<int>, vis: Visibility, since: int): seq<int> {
    Between(log, vis, since, LastId(log))
  }

  function Least(a: int, b: int): int {
    if a <= b then a else b
  }

  function EffectiveLimit(asked: nat): (limit: nat)
    ensures 1 <= limit <= 200
  {
    if asked == 0 then 100 else Least(asked, 200)
  }

  function Reversed(s: seq<int>): seq<int> {
    seq(|s|, i requires 0 <= i < |s| => s[|s| - 1 - i])
  }

  /** The newest `limit` of the pending ids without a cursor, the oldest with one. */
  function Cut(p: seq<int>, since: int, limit: nat): seq<int> {
    if since == 0 then p[|p| - Least(limit, |p|)..] else p[..Least(limit, |p|)]
  }

  /** The rows of the page query: oldest first past a cursor, newest first without one. */
  function Rows(log: seq<int>, vis: Visibility, since: int, limit: nat): seq<int> {
    var cut := Cut(Pending(log, vis, since), since, limit);
    if since == 0 then Reversed(cut) else cut
  }

  /** What the endpoint answers: the page in ascending order and the cursor to come back with. */
  function Page(log: seq<int>, vis: Visibility, since: int, limit: nat): (seq<int>, int) {
    var page := Cut(Pending(log, vis, since), since, limit);
    (page, if page == [] then since else page[|page| - 1])
  }

  lemma {:induction false} BetweenMembers(log: seq<int>, vis: Visibility, lo: int, hi: int)
    ensures forall x :: x in Between(log, vis, lo, hi) <==> x in log && lo < x <= hi && vis(x)
  {
    if log != [] {
      BetweenMembers(log[..|log| - 1], vis, lo, hi);
      assert log == log[..|log| - 1] + [log[|log| - 1]];
    }
  }

  lemma {:induction false} BetweenIncreases(log: seq<int>, vis: Visibility, lo: int, hi: int)
    requires Increasing(log)
    ensures Increasing(Between(log, vis, lo, hi))
  {
    if log != [] {
      var front := log[..|log| - 1];
      BetweenIncreases(front, vis, lo, hi);
      BetweenMembers(front, vis, lo, hi);
      var inner := Between(front, vis, lo, hi);
      forall i | 0 <= i < |inner| ensures inner[i] < log[|log| - 1] {
        assert inner[i] in front;
      }
    }
  }

  lemma BetweenFacts(log: seq<int>, vis: Visibility, lo: int, hi: int)
    requires Increasing(log)
    ensures Increasing(Between(log, vis, lo, hi))
    ensures forall x :: x in Between(log, vis, lo, hi) <==> x in log && lo < x <= hi && vis(x)
  {
    BetweenMembers(log, vis, lo, hi);
    BetweenIncreases(log, vis, lo, hi);
  }

  lemma {:induction false} BetweenCap(log: seq<int>, vis: Visibility, lo: int, hi: int, hi': int)
    requires forall i :: 0 <= i < |log| ==> log[i] <= hi && log[i] <= hi'
    ensures Between(log, vis, lo, hi) == Between(log, vis, lo, hi')
  {
    if log != [] {
      BetweenCap(log[..|log| - 1], vis, lo, hi, hi');
    }
  }

  lemma {:induction false} BetweenNothing(log: seq<int>, vis: Visibility, lo: int, hi: int)
    requires forall i :: 0 <= i < |log| ==> log[i] <= lo
    ensures Between(log, vis, lo, hi) == []
  {
    if log != [] {
      BetweenNothing(log[..|log| - 1], vis, lo, hi);
    }
  }

  lemma {:induction false} BetweenSplits(log: seq<int>, vis: Visibility, a: int, b: int, c: int)
    requires Increasing(log) && a <= b <= c
    ensures Between(log, vis, a, c) == Between(log, vis, a, b) + Between(log, vis, b, c)
  {
    if log != [] {
      var front, x := log[..|log| - 1], log[|log| - 1];
      BetweenSplits(front, vis, a, b, c);
      var tail := if a < x <= c && vis(x) then [x] else [];
      assert Between(log, vis, a, c) == Between(front, vis, a, c) + tail;
      if x <= b {
        BetweenNothing(front, vis, b, c);
        assert Between(log, vis, b, c) == [];
        assert Between(log, vis, a, b) == Between(front, vis, a, b) + tail;
      } else {
        assert Between(log, vis, a, b) == Between(front, vis, a, b);
        assert Between(log, vis, b, c) == Between(front, vis, b, c) + tail;
      }
    }
  }

  /** A prefix of the pending ids is what lies up to its last id. */
  lemma {:induction false} PrefixIsBetween(log: seq<int>, vis: Visibility, lo: int, hi: int, k: nat)
    requires Increasing(log) && 0 < k <= |Between(log, vis, lo, hi)|
    ensures Between(log, vis, lo, hi)[..k] == Between(log, vis, lo, Between(log, vis, lo, hi)[k - 1])
    ensures lo < Between(log, vis, lo, hi)[k - 1] <= hi && Between(log, vis, lo, hi)[k - 1] in log
  {
    var front, x := log[..|log| - 1], log[|log| - 1];
    var s, inner := Between(log, vis, lo, hi), Between(front, vis, lo, hi);
    if k <= |inner| {
      PrefixIsBetween(front, vis, lo, hi, k);
      assert s[..k] == inner[..k] && s[k - 1] == inner[k - 1];
    } else {
      assert s[..k] == s;
      BetweenCap(front, vis, lo, hi, x);
    }
  }

  // ---------- the handler ----------

  method ReverseInPlace(a: array<int>)
    modifies a
    ensures a[..] == Reversed(old(a[..]))
  {
    var left, right := 0, a.Length - 1;
    while left < right
      invariant 0 <= left <= right + 1 <= a.Length && left + right == a.Length - 1
      invariant forall i :: 0 <= i < left || right < i < a.Length ==> a[i] == old(a[a.Length - 1 - i])
      invariant forall i :: left <= i <= right ==> a[i] == old(a[i])
    {
      a[left], a[right] := a[right], a[left];
      left, right := left + 1, right - 1;
    }
  }

  /** From the query's rows to the answer, as the handler loops over them. */
  method Answer(rows: seq<int>, since: int, limit: nat) returns (out: array<int>, latest: int)
    requires |rows| <= limit
    ensures out[..] == if since == 0 then Reversed(rows) else rows
    ensures latest == since || latest in rows
    ensures since <= latest && forall i :: 0 <= i < |rows| ==> rows[i] <= latest
  {
    out := new int[|rows|];
    latest := since;
    for i := 0 to |rows|
      invariant out[..i] == rows[..i]
      invariant latest == since || latest in rows
      invariant since <= latest && forall j :: 0 <= j < i ==> rows[j] <= latest
    {
      if rows[i] > latest {
        latest := rows[i];
      }
      out[i] := rows[i];
      assert out[..i + 1] == out[..i] + [rows[i]];
    }
    assert out[..] == rows;
    if since == 0 {
      ReverseInPlace(out);
    }
  }

  lemma ReversedFacts(s: seq<int>)
    requires Increasing(s)
    ensures Reversed(Reversed(s)) == s && |Reversed(s)| == |s|
    ensures s != [] ==> s[|s| - 1] in Reversed(s)
    ensures forall i :: 0 <= i < |s| ==> Reversed(s)[i] <= s[|s| - 1]
  {
    if s != [] {
      assert Reversed(s)[0] == s[|s| - 1];
    }
  }

  lemma CutFacts(p: seq<int>, since: int, limit: nat)
    requires Increasing(p)
    ensures Increasing(Cut(p, since, limit)) && |Cut(p, since, limit)| <= limit
    ensures forall x :: x in Cut(p, since, limit) ==> x in p
  {
  }

  /** The rows and the page hold the same ids, the page's greatest last. */
  lemma RowsAndPage(log: seq<int>, vis: Visibility, since: nat, limit: nat)
    requires Increasing(log)
    ensures var rows := Rows(log, vis, since, limit); var (page, latest) := Page(log, vis, since, limit);
      && page == (if since == 0 then Reversed(rows) else rows)
      && |rows| <= limit
      && (rows == [] ==> latest == since)
      && (rows != [] ==> latest in rows && latest > since)
      && (forall i :: 0 <= i < |rows| ==> rows[i] <= latest)
  {
    var p := Pending(log, vis, since);
    BetweenFacts(log, vis, since, LastId(log));
    CutFacts(p, since, limit);
    var page := Cut(p, since, limit);
    ReversedFacts(page);
    if page != [] {
      assert page[|page| - 1] in page;
    }
  }

  lemma PageOfPending(log: seq<int>, vis: Visibility, since: int, limit: nat)
    ensures |Page(log, vis, since, limit).0| == Least(limit, |Pending(log, vis, since)|)
    ensures forall x :: x in Page(log, vis, since, limit).0 ==> x in log && vis(x) && x > since
  {
    BetweenMembers(log, vis, since, LastId(log));
  }

  /** The handler applied to the query's rows is the page. */
  method ListEvents(log: seq<int>, vis: Visibility, since: nat, asked: nat) returns (out: array<int>, latest: int)
    requires Increasing(log)
    ensures (out[..], latest) == Page(log, vis, since, EffectiveLimit(asked))
    ensures 1 <= asked <= 200 ==> out.Length == Least(asked, |Pending(log, vis, since)|)
    ensures asked > 200 ==> out.Length == Least(200, |Pending(log, vis, since)|)
    ensures asked == 0 ==> out.Length == Least(100, |Pending(log, vis, since)|)
    ensures forall i :: 0 <= i < out.Length ==> out[i] in log && vis(out[i]) && out[i] > since
  {
    var limit := EffectiveLimit(asked);
    RowsAndPage(log, vis, since, limit);
    PageOfPending(log, vis, since, limit);
    out, latest := Answer(Rows(log, vis, since, limit), since, limit);
  }

  // ---------- a polling client ----------

  datatype State = State(log: seq<int>, cursor: int, got: seq<int>)

  datatype Action = Append(id: int) | Poll(limit: nat)

  predicate Enabled(s: State, a: Action) {
    match a
    case Append(id) => id > LastId(s.log) && id > 0
    case Poll(limit) => limit > 0
  }

  function Apply(s: State, vis: Visibility, a: Action): State {
    match a
    case Append(id) => s.(log := s.log + [id])
    case Poll(limit) =>
      var (page, latest) := Page(s.log, vis, s.cursor, limit);
      State(s.log, latest, s.got + page)
  }

  ghost predicate CanRun(s: State, vis: Visibility, actions: seq<Action>)
    decreases |actions|
  {
    actions == [] || (Enabled(s, actions[0]) && CanRun(Apply(s, vis, actions[0]), vis, actions[1..]))
  }

  ghost function Run(s: State, vis: Visibility, actions: seq<Action>): State
    requires CanRun(s, vis, actions)
    decreases |actions|
  {
    if actions == [] then s else Run(Apply(s, vis, actions[0]), vis, actions[1..])
  }

  /**
   The client holds every visible event past its starting cursor up to its present
   one, once each and in order, and has moved only to ids that are in the log.
   */
  ghost predicate InStep(s: State, vis: Visibility, start: int) {
    && Increasing(s.log)
    && 0 < start <= s.cursor
    && (s.cursor == start || s.cursor <= LastId(s.log))
    && s.got == Between(s.log, vis, start, s.cursor)
  }

  lemma InStepStep(s: State, vis: Visibility, start: int, a: Action)
    requires InStep(s, vis, start) && Enabled(s, a)
    ensures InStep(Apply(s, vis, a), vis, start)
  {
    match a
    case Append(id) =>
      var log' := s.log + [id];
      assert log'[..|log'| - 1] == s.log;
    case Poll(limit) =>
      var p := Pending(s.log, vis, s.cursor);
      var page := p[..Least(limit, |p|)];
      if page != [] {
        PrefixIsBetween(s.log, vis, s.cursor, LastId(s.log), |page|);
        BetweenSplits(s.log, vis, start, s.cursor, page[|page| - 1]);
      }
  }

  /** Over any interleaving of appends and polls, from any nonzero cursor. */
  lemma ExactlyOnceInOrder(s: State, vis: Visibility, actions: seq<Action>)
    requires Increasing(s.log) && s.cursor > 0 && s.got == [] && CanRun(s, vis, actions)
    ensures var e := Run(s, vis, actions);
      && s.cursor <= e.cursor
      && Increasing(e.got)
      && (forall x :: x in e.got <==> x in e.log && s.cursor < x <= e.cursor && vis(x))
      && (s.cursor <= LastId(s.log) ==>
            forall x :: x in e.log && x !in s.log && vis(x) && x <= e.cursor ==> x in e.got)
  {
    OpenInterval(s.log, vis, s.cursor);
    InStepRun(s, vis, s.cursor, actions);
    var e := Run(s, vis, actions);
    BetweenFacts(e.log, vis, s.cursor, e.cursor);
    forall x | x in e.log && x !in s.log ensures x > LastId(s.log) {
      ArrivalsArePastTheEnd(s, vis, actions, x);
    }
  }

  lemma {:induction false} InStepRun(s: State, vis: Visibility, start: int, actions: seq<Action>)
    requires InStep(s, vis, start) && CanRun(s, vis, actions)
    ensures InStep(Run(s, vis, actions), vis, start)
    decreases |actions|
  {
    if actions != [] {
      InStepStep(s, vis, start, actions[0]);
      InStepRun(Apply(s, vis, actions[0]), vis, start, actions[1..]);
    }
  }

  /** A poll takes its page off the front of what is pending, so nothing visible waits forever. */
  lemma PollShrinksPending(s: State, vis: Visibility, start: int, limit: nat)
    requires InStep(s, vis, start) && limit > 0
    ensures var s' := Apply(s, vis, Poll(limit)); var p := Pending(s.log, vis, s.cursor);
      Pending(s'.log, vis, s'.cursor) == p[Least(limit, |p|)..]
  {
    var p := Pending(s.log, vis, s.cursor);
    var page := p[..Least(limit, |p|)];
    if page != [] {
      var e := page[|page| - 1];
      PrefixIsBetween(s.log, vis, s.cursor, LastId(s.log), |page|);
      BetweenSplits(s.log, vis, s.cursor, e, LastId(s.log));
      assert p == page + Between(s.log, vis, e, LastId(s.log));
    }
  }

  predicate OnlyPolls(actions: seq<Action>) {
    forall i :: 0 <= i < |actions| ==> actions[i].Poll? && actions[i].limit > 0
  }

  /** Polls without appends in between can always be made, and leave what their pages do not reach. */
  lemma {:induction false} PollsDrain(s: State, vis: Visibility, start: int, polls: seq<Action>)
    requires InStep(s, vis, start) && OnlyPolls(polls)
    ensures CanRun(s, vis, polls)
    ensures var e := Run(s, vis, polls);
      && e.log == s.log && InStep(e, vis, start)
      && |Pending(e.log, vis, e.cursor)| <= (if |polls| <= |Pending(s.log, vis, s.cursor)| then |Pending(s.log, vis, s.cursor)| - |polls| else 0)
    decreases |polls|
  {
    if polls != [] {
      var s' := Apply(s, vis, polls[0]);
      InStepStep(s, vis, start, polls[0]);
      PollShrinksPending(s, vis, start, polls[0].limit);
      PollsDrain(s', vis, start, polls[1..]);
    }
  }

  lemma NothingPendingMeansAllSeen(s: State, vis: Visibility, start: int)
    requires InStep(s, vis, start) && Pending(s.log, vis, s.cursor) == []
    ensures forall x :: x in s.got <==> x in s.log && start < x && vis(x)
  {
    BetweenMembers(s.log, vis, start, s.cursor);
    BetweenMembers(s.log, vis, s.cursor, LastId(s.log));
    forall x | x in s.log && start < x && vis(x) ensures x <= s.cursor {
      assert x <= LastId(s.log);
      assert x !in Pending(s.log, vis, s.cursor);
    }
  }

  /**
   A client catches up: after any interleaving of appends and polls, as many further polls as
   there are events pending leave it with every visible event past its starting cursor, once
   each and in order.
   */
  lemma CatchesUp(s: State, vis: Visibility, actions: seq<Action>, polls: seq<Action>)
    requires Increasing(s.log) && s.cursor > 0 && s.got == [] && CanRun(s, vis, actions) && OnlyPolls(polls)
    requires var e := Run(s, vis, actions); |polls| >= |Pending(e.log, vis, e.cursor)|
    ensures CanRun(Run(s, vis, actions), vis, polls)
    ensures var e := Run(Run(s, vis, actions), vis, polls);
      && Increasing(e.got)
      && (forall x :: x in e.got <==> x in e.log && s.cursor < x && vis(x))
  {
    OpenInterval(s.log, vis, s.cursor);
    InStepRun(s, vis, s.cursor, actions);
    PollsDrain(Run(s, vis, actions), vis, s.cursor, polls);
    var e := Run(Run(s, vis, actions), vis, polls);
    NothingPendingMeansAllSeen(e, vis, s.cursor);
    BetweenIncreases(e.log, vis, s.cursor, e.cursor);
  }

  /** The first call, without a cursor: the newest visible events in ascending order. */
  lemma TailCall(log: seq<int>, vis: Visibility, limit: nat)
    requires Increasing(log) && (forall x :: x in log ==> x > 0) && limit > 0
    ensures var (page, latest) := Page(log, vis, 0, limit);
      && |page| == Least(limit, |Pending(log, vis, 0)|)
      && Increasing(page)
      && (forall x :: x in page ==> x in log && vis(x))
      && (forall x, y :: x in log && vis(x) && x !in page && y in page ==> x < y)
      && (page != [] ==> 0 < latest && latest in log)
  {
    var p := Pending(log, vis, 0);
    BetweenFacts(log, vis, 0, LastId(log));
    var (page, latest) := Page(log, vis, 0, limit);
    var skip := |p| - |page|;
    assert forall i :: 0 <= i < |page| ==> page[i] == p[skip + i];
    assert forall i :: skip <= i < |p| ==> p[i] == page[i - skip];
    forall x, y | x in log && vis(x) && x !in page && y in page ensures x < y {
      assert x <= LastId(log);
      assert x in p;
    }
    if page != [] {
      assert latest in p;
    }
  }

  lemma {:induction false} OpenInterval(log: seq<int>, vis: Visibility, at: int)
    ensures Between(log, vis, at, at) == []
  {
    if log != [] {
      OpenInterval(log[..|log| - 1], vis, at);
    }
  }

  // ---------- cursors ahead of the log ----------

  /** Every visible event that arrives from now on, up to the client's cursor, reaches the client. */
  ghost predicate NeverSkips(s: State, vis: Visibility) {
    forall actions: seq<Action> :: CanRun(s, vis, actions) ==> SkipsNothing(s, Run(s, vis, actions), vis)
  }

  ghost predicate SkipsNothing(s: State, e: State, vis: Visibility) {
    forall x :: x in e.log && x !in s.log && vis(x) && x <= e.cursor ==> x in e.got
  }

  /** A visible id could still arrive under the cursor. */
  ghost predicate RoomUnderCursor(s: State, vis: Visibility) {
    exists x :: 0 < x && LastId(s.log) < x <= s.cursor && vis(x)
  }

  lemma {:induction false} ArrivalsArePositive(s: State, vis: Visibility, actions: seq<Action>, x: int)
    requires CanRun(s, vis, actions)
    ensures x in Run(s, vis, actions).log && x !in s.log ==> x > 0
    decreases |actions|
  {
    if actions != [] {
      ArrivalsArePositive(Apply(s, vis, actions[0]), vis, actions[1..], x);
    }
  }

  lemma ArrivalUnderCursor(s: State, vis: Visibility, x: int)
    requires Increasing(s.log) && s.got == [] && 0 < x && LastId(s.log) < x <= s.cursor && vis(x)
    ensures CanRun(s, vis, [Append(x)]) && !SkipsNothing(s, Run(s, vis, [Append(x)]), vis)
  {
    var s' := Apply(s, vis, Append(x));
    assert [Append(x)][1..] == [];
    assert CanRun(s', vis, []) && Run(s', vis, []) == s';
    assert Run(s, vis, [Append(x)]) == s';
    assert x in s'.log && x !in s.log;
  }

  /** A client skips nothing in any run exactly when no visible id is left between the log's end and its cursor. */
  lemma NeverSkipsExactly(s: State, vis: Visibility)
    requires Increasing(s.log) && s.cursor > 0 && s.got == []
    ensures NeverSkips(s, vis) <==> !RoomUnderCursor(s, vis)
  {
    if RoomUnderCursor(s, vis) {
      var x :| 0 < x && LastId(s.log) < x <= s.cursor && vis(x);
      ArrivalUnderCursor(s, vis, x);
    } else {
      forall actions: seq<Action> | CanRun(s, vis, actions) ensures SkipsNothing(s, Run(s, vis, actions), vis) {
        ExactlyOnceInOrder(s, vis, actions);
        var e := Run(s, vis, actions);
        forall x | x in e.log && x !in s.log && vis(x) && x <= e.cursor ensures x in e.got {
          ArrivalsArePastTheEnd(s, vis, actions, x);
          ArrivalsArePositive(s, vis, actions, x);
          assert !(LastId(s.log) < x <= s.cursor);
        }
      }
    }
  }

  /** A cursor of 5 over a log that ends at 1: event 2 arrives and is taken as seen. */
  lemma CursorAheadOfTheLogSkips()
    ensures var s := State([1], 5, []); var vis: Visibility := (x: int) => true;
      && CanRun(s, vis, [Append(2), Poll(10)])
      && Run(s, vis, [Append(2), Poll(10)]).log == [1, 2]
      && Run(s, vis, [Append(2), Poll(10)]).got == []
  {
    var s := State([1], 5, []);
    var vis: Visibility := (x: int) => true;
    var actions := [Append(2), Poll(10)];
    assert actions[1..] == [Poll(10)] && [Poll(10)][1..] == [];
    var s1 := Apply(s, vis, actions[0]);
    assert s1 == State([1, 2], 5, []);
    BetweenNothing(s1.log, vis, 5, 2);
    assert Apply(s1, vis, Poll(10)) == s1;
    assert Run(s1, vis, [Poll(10)]) == s1;
  }

  /** Later arrivals are all past a cursor that does not run ahead of the log. */
  lemma {:induction false} ArrivalsArePastTheEnd(s: State, vis: Visibility, actions: seq<Action>, x: int)
    requires Increasing(s.log) && CanRun(s, vis, actions)
    ensures x in Run(s, vis, actions).log && x !in s.log ==> x > LastId(s.log)
    decreases |actions|
  {
    if actions != [] {
      var s1 := Apply(s, vis, actions[0]);
      assert Increasing(s1.log);
      ArrivalsArePastTheEnd(s1, vis, actions[1..], x);
    }
  }
}
