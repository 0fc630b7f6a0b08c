/**
 What a completion rests on, and that it can come about. The result handed out is the
 one a successful poll of the provider recorded; and a sign-in that nothing revokes can
 be carried through from its start to its completion.
 */
module OAuthFlowPolls {

  import opened Options
  import opened OAuthFlowStore
  import opened OAuthFlowProtocol
  import opened OAuthFlowSafety

  // ---------- only successful polls complete ----------

  /** On the way to a completion, with the entry's error already ruled out. */
  predicate Completing(th: Thread) {
    th.Complete? && (th.cpc.CWriter? || th.cpc.CVerify? || th.cpc.CCommit? || th.cpc.CConsume?)
  }

  ghost predicate Successful(log: seq<Event>, h: Handle) {
    exists k :: 0 <= k < |log| && log[k].Polled? && log[k].handle == h && log[k].token.Some?
  }

  /** A recorded result is a polled one, and so is a recorded error. */
  ghost predicate Recorded(log: seq<Event>, h: Handle, e: Entry) {
    && (e.completed.Some? ==> Polled(h, e.completed) in log)
    && (e.err.Some? ==> Polled(h, None) in log)
  }

  ghost predicate PolledFirst(st: State) {
    && (forall h :: h in st.entries ==> Recorded(st.log, h, st.entries[h]))
    && (forall t :: t in st.threads && st.threads[t].Complete? && st.threads[t].cpc.CClaimed? ==>
          var e := st.threads[t].cpc.entry; Recorded(st.log, st.threads[t].handle, e) && (e.completed.Some? || e.err.Some?))
    && (forall t :: t in st.threads && Completing(st.threads[t]) ==> Successful(st.log, st.threads[t].handle))
  }

  /** Every completion is preceded by a successful poll of its flow. */
  ghost predicate CompletedWerePolled(log: seq<Event>) {
    forall k :: 0 <= k < |log| && log[k].Completed? ==> Successful(log[..k], log[k].handle)
  }

  /** An entry after a step holds no result, the result it held, or the one just polled. */
  predicate KeepsRecord(st: State, d: Delta, h: Handle)
    requires h in d.entries
  {
    var e := d.entries[h];
    || (e.completed.None? && e.err.None?)
    || (h in st.entries && e.completed == st.entries[h].completed && e.err == st.entries[h].err)
    || (d.event == Some(Polled(h, e.completed)) && (e.err.Some? <==> e.completed.None?))
  }

  lemma StartRecords(st: State, th: Thread, ok: bool, n: int, h: Handle)
    requires th.Start? && h in StepStart(st, th, ok, n).entries
    ensures KeepsRecord(st, StepStart(st, th, ok, n), h)
  {
    if th.spc.SPut? {
      PutRecords(st, th, ok, n, h);
    }
  }

  lemma PutRecords(st: State, th: Thread, ok: bool, n: int, h: Handle)
    requires th.Start? && th.spc.SPut? && h in StepStart(st, th, ok, n).entries
    ensures KeepsRecord(st, StepStart(st, th, ok, n), h)
  {
    var e := StepStart(st, th, ok, n).entries[h];
    assert e == NewEntry(th) || (h in st.entries && e == st.entries[h]);
  }

  lemma CompleteRecords(st: State, t: Tid, th: Thread, ok: bool, n: int, h: Handle)
    requires th.Complete? && h in StepComplete(st, t, th, ok, n).entries
    ensures KeepsRecord(st, StepComplete(st, t, th, ok, n), h)
  {
  }

  lemma EntryRecords(st: State, t: Tid, ok: bool, n: int, h: Handle)
    requires t in st.threads && h in Step(st, t, ok, n).entries
    ensures KeepsRecord(st, Step(st, t, ok, n), h)
  {
    var th := st.threads[t];
    match th
    case Start(_, _, _, _, _, _, _) => StartRecords(st, th, ok, n, h);
    case Complete(_, _, _, _, _, _) => CompleteRecords(st, t, th, ok, n, h);
    case Updater(_, _, _) =>
  }

  lemma ClaimRecords(st: State, t: Tid, ok: bool, n: int)
    requires t in st.threads && Step(st, t, ok, n).thread.Complete? && Step(st, t, ok, n).thread.cpc.CClaimed?
    ensures var th, d := st.threads[t], Step(st, t, ok, n);
      && th.Complete? && th.handle == d.thread.handle && th.handle in st.entries
      && (var e, was := d.thread.cpc.entry, st.entries[th.handle];
          e.completed == was.completed && e.err == was.err && (e.completed.Some? || e.err.Some?))
  {
  }

  lemma CompletingComesFrom(st: State, t: Tid, ok: bool, n: int)
    requires t in st.threads && Completing(Step(st, t, ok, n).thread)
    ensures var th, d := st.threads[t], Step(st, t, ok, n);
      && th.Complete? && th.handle == d.thread.handle
      && (Completing(th) || (th.cpc.CClaimed? && th.cpc.entry.err.None?))
  {
  }

  lemma LogGrows(st: State, a: Action, h: Handle)
    requires Enabled(st, a) && a.Go?
    ensures forall e :: e in st.log ==> e in Apply(st, a).log
    ensures Successful(st.log, h) ==> Successful(Apply(st, a).log, h)
    ensures Step(st, a.t, a.ok, a.n).event.Some? ==> Step(st, a.t, a.ok, a.n).event.value in Apply(st, a).log
  {
    var log, log' := st.log, Apply(st, a).log;
    forall k | 0 <= k < |log| ensures log'[k] == log[k] {}
    if Successful(log, h) {
      var k :| 0 <= k < |log| && log[k].Polled? && log[k].handle == h && log[k].token.Some?;
      assert log'[k] == log[k];
    }
    if Step(st, a.t, a.ok, a.n).event.Some? {
      assert log'[|log|] == Step(st, a.t, a.ok, a.n).event.value;
    }
  }

  lemma EntriesStayRecorded(st: State, a: Action, h: Handle)
    requires Enabled(st, a) && a.Go? && PolledFirst(st) && h in Apply(st, a).entries
    ensures Recorded(Apply(st, a).log, h, Apply(st, a).entries[h])
  {
    LogGrows(st, a, h);
    EntryRecords(st, a.t, a.ok, a.n, h);
  }

  lemma ThreadsStayRecorded(st: State, a: Action, t: Tid)
    requires Enabled(st, a) && a.Go? && PolledFirst(st) && t in Apply(st, a).threads
    ensures var st' := Apply(st, a); var th := st'.threads[t];
      && (th.Complete? && th.cpc.CClaimed? ==> Recorded(st'.log, th.handle, th.cpc.entry) && (th.cpc.entry.completed.Some? || th.cpc.entry.err.Some?))
      && (Completing(th) ==> Successful(st'.log, th.handle))
  {
    var st' := Apply(st, a);
    var th := st'.threads[t];
    if th.Complete? {
      LogGrows(st, a, th.handle);
      if t == a.t && th.cpc.CClaimed? {
        ClaimRecords(st, t, a.ok, a.n);
      } else if t == a.t && Completing(th) {
        CompletingComesFrom(st, t, a.ok, a.n);
        if !Completing(st.threads[t]) {
          RecordedIsSuccessful(st.log, th.handle, st.threads[t].cpc.entry);
        }
      }
    }
  }

  lemma RecordedIsSuccessful(log: seq<Event>, h: Handle, e: Entry)
    requires Recorded(log, h, e) && e.completed.Some?
    ensures Successful(log, h)
  {
    var k :| 0 <= k < |log| && log[k] == Polled(h, e.completed);
    assert log[k].Polled? && log[k].handle == h && log[k].token.Some?;
  }

  lemma PolledFirstStep(st: State, a: Action)
    requires Enabled(st, a) && PolledFirst(st)
    ensures PolledFirst(Apply(st, a))
  {
    if a.Go? {
      var st' := Apply(st, a);
      forall h | h in st'.entries ensures Recorded(st'.log, h, st'.entries[h]) {
        EntriesStayRecorded(st, a, h);
      }
      forall t | t in st'.threads
        ensures var th := st'.threads[t];
          && (th.Complete? && th.cpc.CClaimed? ==> Recorded(st'.log, th.handle, th.cpc.entry) && (th.cpc.entry.completed.Some? || th.cpc.entry.err.Some?))
          && (Completing(th) ==> Successful(st'.log, th.handle))
      {
        ThreadsStayRecorded(st, a, t);
      }
    }
  }

  lemma CompletedStep(st: State, a: Action)
    requires Enabled(st, a) && PolledFirst(st) && CompletedWerePolled(st.log)
    ensures CompletedWerePolled(Apply(st, a).log)
  {
    if a.Go? && Step(st, a.t, a.ok, a.n).event.Some? {
      EventFacts(st, a.t, a.ok, a.n);
      var log, log' := st.log, Apply(st, a).log;
      forall k | 0 <= k <= |log| ensures log'[..k] == log[..k] {}
      assert log[..|log|] == log;
      if log'[|log|].Completed? {
        assert Completing(st.threads[a.t]);
      }
    }
  }

  lemma {:induction false} PollsRun(st: State, actions: seq<Action>)
    requires PolledFirst(st) && CompletedWerePolled(st.log) && CanRun(st, actions)
    ensures CompletedWerePolled(Run(st, actions).log)
    decreases |actions|
  {
    if actions != [] {
      PolledFirstStep(st, actions[0]);
      CompletedStep(st, actions[0]);
      PollsRun(Apply(st, actions[0]), actions[1..]);
    }
  }

  /** In every interleaving, only flows whose poll succeeded complete, and only afterwards. */
  lemma OnlySuccessfulPollsComplete(st: State, actions: seq<Action>)
    requires Init(st) && CanRun(st, actions)
    ensures CompletedWerePolled(Run(st, actions).log)
  {
    PollsRun(st, actions);
  }

  // ---------- updates take effect ----------

  /** What an update inside its transaction has staged is what the database it read calls for. */
  ghost predicate StagedStillHolds(st: State) {
    forall t :: t in st.threads && st.threads[t].Updater? && HoldsWriter(st.threads[t]) ==>
      match st.threads[t].upc
      case UReady(db, targets) => Stage(st.db, st.threads[t].update) == Staged(db, targets)
      case ULocked(db, targets) => Stage(st.db, st.threads[t].update) == Staged(db, targets)
      case _ => true
  }

  lemma StagedStep(st: State, a: Action)
    requires Enabled(st, a) && Exclusive(st) && StagedStillHolds(st)
    ensures StagedStillHolds(Apply(st, a))
  {
    if a.Go? {
      LockFacts(st, a.t, a.ok, a.n);
    }
  }

  lemma {:induction false} StagedRun(st: State, actions: seq<Action>)
    requires Exclusive(st) && StagedStillHolds(st) && CanRun(st, actions)
    ensures Exclusive(Run(st, actions)) && StagedStillHolds(Run(st, actions))
    decreases |actions|
  {
    if actions != [] {
      StagedStep(st, actions[0]);
      ExclusiveStep(st, actions[0]);
      StagedRun(Apply(st, actions[0]), actions[1..]);
    }
  }

  /** Whenever the database changes, it is by an update's commit, to exactly what that update calls for. */
  lemma OnlyUpdatesChangeTheDatabase(st: State, actions: seq<Action>, a: Action)
    requires Init(st) && CanRun(st, actions) && Enabled(Run(st, actions), a)
    ensures var now := Run(st, actions); var next := Apply(now, a);
      next.db != now.db ==>
        && a.Go? && now.threads[a.t].Updater?
        && (var s := Stage(now.db, now.threads[a.t].update);
            s.Staged? && next.db == s.db && (s.targets != {} ==> next.log == now.log + [Revoked(a.t, s.targets)]))
  {
    StagedRun(st, actions);
    var now := Run(st, actions);
    if a.Go? {
      LockFacts(now, a.t, a.ok, a.n);
    }
  }

  /** An update inside its transaction, not cancelled, can commit, and then has changed the database. */
  lemma UpdatesTakeEffect(st: State, t: Tid)
    requires t in st.threads && st.threads[t].Updater? && !st.threads[t].cancelled
    ensures st.threads[t].upc.ULocked? ==>
      Enabled(st, Go(t, true, 0)) && Apply(st, Go(t, true, 0)).db == st.threads[t].upc.db
    ensures st.threads[t].upc.UReady? && st.threads[t].upc.targets == {} ==>
      Enabled(st, Go(t, true, 0)) && Apply(st, Go(t, true, 0)).db == st.threads[t].upc.db
  {
  }

  // ---------- starts are authorized ----------

  /** A start that has passed the check in its transaction, and still has the writer, is still allowed. */
  ghost predicate StartsStillAllowed(st: State) {
    forall t :: t in st.threads && st.threads[t].Start? && HoldsWriter(st.threads[t]) && !st.threads[t].spc.SWriter? ==>
      Allowed(st.db, st.threads[t].user, st.threads[t].system)
  }

  lemma StartsStep(st: State, a: Action)
    requires Enabled(st, a) && Exclusive(st) && StartsStillAllowed(st)
    ensures StartsStillAllowed(Apply(st, a))
  {
    if a.Go? {
      LockFacts(st, a.t, a.ok, a.n);
    }
  }

  lemma {:induction false} StartsAllowedRun(st: State, actions: seq<Action>)
    requires Exclusive(st) && StartsStillAllowed(st) && CanRun(st, actions)
    ensures Exclusive(Run(st, actions)) && StartsStillAllowed(Run(st, actions))
    decreases |actions|
  {
    if actions != [] {
      StartsStep(st, actions[0]);
      ExclusiveStep(st, actions[0]);
      StartsAllowedRun(Apply(st, actions[0]), actions[1..]);
    }
  }

  /** At the moment a start commits, the database lets that user into that system and have mailboxes. */
  lemma StartIsAuthorized(st: State, actions: seq<Action>, a: Action)
    requires Init(st) && CanRun(st, actions) && Enabled(Run(st, actions), a)
    requires a.Go? && Step(Run(st, actions), a.t, a.ok, a.n).event.Some? && Step(Run(st, actions), a.t, a.ok, a.n).event.value.Started?
    ensures var th := Run(st, actions).threads[a.t]; th.Start? && Allowed(Run(st, actions).db, th.user, th.system)
  {
    StartsAllowedRun(st, actions);
    StartCommits(Run(st, actions), a.t, a.ok, a.n);
  }

  lemma StartCommits(st: State, t: Tid, ok: bool, n: int)
    requires t in st.threads && Step(st, t, ok, n).event.Some? && Step(st, t, ok, n).event.value.Started?
    ensures st.threads[t].Start? && st.threads[t].spc.SCommit? && HoldsWriter(st.threads[t])
  {
  }

  // ---------- what single steps do to a flow ----------

  /** A start or completion goes past its first check only if the database allows it then. */
  lemma FirstChecks(st: State, t: Tid, n: int)
    requires t in st.threads
    ensures var th, next := st.threads[t], Step(st, t, true, n).thread;
      && (th.Start? && th.spc.SCheck? ==> (next.spc.SQueue? <==> Allowed(st.db, th.user, th.system)) && (next.spc.SQueue? || next.spc.SDone?))
      && (th.Complete? && th.cpc.CCheck? ==> (next.cpc.CBegin? <==> Allowed(st.db, th.user, th.system)) && (next.cpc.CBegin? || next.cpc.CDone?))
  {
  }

  /** A flow is gone after its device code could not be had, after its error was claimed, and after its result was delivered. */
  lemma SpentFlowsGo(st: State, t: Tid, ok: bool, n: int)
    requires t in st.threads
    ensures var th, d := st.threads[t], Step(st, t, ok, n);
      && (th.Start? && th.spc.SDevice? && !ok ==> th.handle !in d.entries && d.thread.spc.SDone?)
      && (th.Complete? && th.cpc.CClaimed? && th.cpc.entry.clientId != "" && th.cpc.entry.err.Some? ==> th.handle !in d.entries && d.thread.cpc.CRelease?)
      && (th.Complete? && th.cpc.CConsume? ==> th.handle !in d.entries)
  {
  }

  /** A completer that gives up leaves its flow free for the next one. */
  lemma ReleaseFrees(st: State, t: Tid, ok: bool, n: int)
    requires t in st.threads && st.threads[t].Complete? && st.threads[t].cpc.CRelease?
    ensures var h, d := st.threads[t].handle, Step(st, t, ok, n);
      d.thread.cpc.CDone? && (h in st.entries ==> h in d.entries && !d.entries[h].active && d.entries[h].completed == st.entries[h].completed)
  {
  }

  /** A flow lives as long as its device code, and never longer than fifteen minutes from its start. */
  lemma DeviceCodeLimits(st: State, t: Tid, n: int)
    requires t in st.threads && st.threads[t].Start? && st.threads[t].spc.SReschedule? && st.threads[t].handle in st.entries
    ensures var th, d := st.threads[t], Step(st, t, true, n);
      && th.handle in d.entries && d.entries[th.handle].expiresAt <= n && d.entries[th.handle].expiresAt <= th.clock + FLOW_TTL
      && (d.entries[th.handle].expiresAt == n || d.entries[th.handle].expiresAt == th.clock + FLOW_TTL)
  {
    RescheduleSets(st.entries, st.threads[t].handle, n);
  }

  // ---------- a sign-in can be carried through ----------

  /** No thread but t holds a lock. */
  predicate Alone(st: State, t: Tid) {
    forall x :: x in st.threads && x != t ==> !HoldsWriter(st.threads[x]) && !HoldsMutex(st.threads[x])
  }

  predicate Allowed(db: Db, user: int, system: int) {
    CanEnter(db, user, system) && MayUseMailboxes(db, user)
  }

  function Completer(user: int, system: int, account: bool, h: Handle, pc: CompletePc): Thread {
    Complete(user, system, account, h, false, pc)
  }

  lemma Cons(st: State, a: Action, rest: seq<Action>)
    requires Enabled(st, a) && CanRun(Apply(st, a), rest)
    ensures CanRun(st, [a] + rest) && Run(st, [a] + rest) == Run(Apply(st, a), rest)
  {
    assert ([a] + rest)[1..] == rest;
  }

  lemma Last(st: State, a: Action)
    requires Enabled(st, a)
    ensures CanRun(st, [a]) && Run(st, [a]) == Apply(st, a)
  {
    assert [a][1..] == [];
  }

  /** With the flow claimed and nothing in the way, four steps complete it. */
  lemma ClaimedCompletes(st: State, t: Tid, user: int, system: int, account: bool, h: Handle, e: Entry) returns (actions: seq<Action>)
    requires t in st.threads && st.threads[t] == Completer(user, system, account, h, CClaimed(e)) && Alone(st, t)
    requires h in st.entries && e.clientId != "" && e.err.None? && Allowed(st.db, user, system)
    ensures CanRun(st, actions) && Completed(t, h, user, system) in Run(st, actions).log
  {
    var a := Go(t, true, 0);
    var s1 := Apply(st, a);
    assert s1.threads[t] == Completer(user, system, account, h, CWriter);
    var s2 := Apply(s1, a);
    assert s2.threads[t] == Completer(user, system, account, h, CVerify);
    var s3 := Apply(s2, a);
    assert s3.threads[t] == Completer(user, system, account, h, CCommit);
    var s4 := Apply(s3, a);
    assert s4.log[|s3.log|] == Completed(t, h, user, system);
    Last(s3, a);
    Cons(s2, a, [a]);
    Cons(s1, a, [a] + [a]);
    Cons(st, a, [a] + ([a] + [a]));
    actions := [a] + ([a] + ([a] + [a]));
  }

  /** A recorded result, asked for by its owner in time, can be completed. */
  lemma ResultCompletes(st: State, t: Tid, account: bool, h: Handle, now: int) returns (actions: seq<Action>)
    requires t !in st.threads && Alone(st, t) && h in st.entries
    requires var e := st.entries[h];
      && e.completed.Some? && e.err.None? && !e.active && e.clientId != "" && now < e.expiresAt && Allowed(st.db, e.owner, e.system)
    ensures CanRun(st, actions) && Completed(t, h, st.entries[h].owner, st.entries[h].system) in Run(st, actions).log
  {
    var e := st.entries[h];
    var th := Completer(e.owner, e.system, account, h, CCheck);
    var arrive, check, begin := Arrive(t, th), Go(t, true, 0), Go(t, true, now);
    var s1 := Apply(st, arrive);
    var s2 := Apply(s1, check);
    assert s2.threads[t] == Completer(e.owner, e.system, account, h, CBegin);
    var s3 := Apply(s2, begin);
    var claimed := e.(active := true);
    assert s3.threads[t] == Completer(e.owner, e.system, account, h, CClaimed(claimed));
    var rest := ClaimedCompletes(s3, t, e.owner, e.system, account, h, claimed);
    Cons(s2, begin, rest);
    Cons(s1, check, [begin] + rest);
    Cons(st, arrive, [check] + ([begin] + rest));
    actions := [arrive] + ([check] + ([begin] + rest));
  }

  /** So can the poll that records it, and the completion after it. */
  lemma PollCompletes(st: State, t: Tid, c: Tid, account: bool, token: int, now: int) returns (actions: seq<Action>)
    requires t in st.threads && st.threads[t].Start? && st.threads[t].spc.SPoll? && Alone(st, t) && c !in st.threads
    requires st.threads[t].handle in st.entries
    requires var e := st.entries[st.threads[t].handle];
      !e.active && e.clientId != "" && now < e.expiresAt && Allowed(st.db, e.owner, e.system)
    ensures var e := st.entries[st.threads[t].handle];
      CanRun(st, actions) && Completed(c, st.threads[t].handle, e.owner, e.system) in Run(st, actions).log
  {
    var a, h := Go(t, true, token), st.threads[t].handle;
    var e, s1 := st.entries[h], Apply(st, a);
    assert s1.entries[h] == e.(completed := Some(token), err := None);
    var rest := ResultCompletes(s1, c, account, h, now);
    Cons(st, a, rest);
    actions := [a] + rest;
  }

  predicate HasRoom(m: Entries, user: int, now: int) {
    |Sweep(m, now)| < MAX_FLOWS && |OwnedBy(Sweep(m, now), user)| < MAX_FLOWS_PER_USER
  }

  function Starter(user: int, system: int, client: string, h: Handle, clock: int, pc: StartPc): Thread {
    Start(user, system, client, h, clock, false, pc)
  }

  /** From the registered flow on: commit, device code, poll, completion. */
  lemma RegisteredCompletes(st: State, t: Tid, c: Tid, account: bool, token: int, now: int) returns (actions: seq<Action>)
    requires t in st.threads && st.threads[t].Start? && st.threads[t].spc.SCommit? && !st.threads[t].cancelled && Alone(st, t) && c !in st.threads
    requires var th := st.threads[t];
      && th.client != "" && th.handle in st.entries && st.entries[th.handle] == NewEntry(th)
      && now < th.clock + FLOW_TTL && Allowed(st.db, th.user, th.system)
    ensures var th := st.threads[t]; CanRun(st, actions) && Completed(c, th.handle, th.user, th.system) in Run(st, actions).log
  {
    var th := st.threads[t];
    var commit, device, expiry := Go(t, true, 0), Go(t, true, 0), Go(t, true, th.clock + FLOW_TTL);
    var s1 := Apply(st, commit);
    var s2 := Apply(s1, device);
    assert s2.threads[t] == th.(spc := SReschedule);
    var s3 := Apply(s2, expiry);
    assert s3.threads[t] == th.(spc := SPoll) && s3.entries[th.handle] == NewEntry(th);
    var rest := PollCompletes(s3, t, c, account, token, now);
    Cons(s2, expiry, rest);
    Cons(s1, device, [expiry] + rest);
    Cons(st, commit, [device] + ([expiry] + rest));
    actions := [commit] + ([device] + ([expiry] + rest));
  }

  /** From the writer's hands on: the in-transaction check, `put`, and the rest. */
  lemma WriterCompletes(st: State, t: Tid, c: Tid, user: int, system: int, client: string, h: Handle, clock: int, account: bool, token: int, now: int)
    returns (actions: seq<Action>)
    requires t in st.threads && st.threads[t] == Starter(user, system, client, h, clock, SWriter)
    requires c !in st.threads && Alone(st, t) && h !in st.entries
    requires client != "" && Allowed(st.db, user, system) && HasRoom(st.entries, user, clock) && now < clock + FLOW_TTL
    ensures CanRun(st, actions) && Completed(c, h, user, system) in Run(st, actions).log
  {
    var go := Go(t, true, 0);
    var s1 := Apply(st, go);
    assert s1.threads[t] == Starter(user, system, client, h, clock, SPut);
    var s2 := Apply(s1, go);
    assert s2.threads[t] == Starter(user, system, client, h, clock, SCommit);
    var rest := RegisteredCompletes(s2, t, c, account, token, now);
    Cons(s1, go, rest);
    Cons(st, go, [go] + rest);
    actions := [go] + ([go] + rest);
  }

  /**
   From any state in which no lock is held: a user who may sign in, with a fresh handle and
   room in the table, has a run from the start of a sign-in to its completion.
   */
  lemma SignInCanSucceed(st: State, t: Tid, c: Tid, user: int, system: int, client: string, h: Handle, account: bool, token: int, now: int)
    returns (actions: seq<Action>)
    requires t !in st.threads && c !in st.threads && t != c && Alone(st, t) && h !in st.issued && h !in st.entries
    requires client != "" && Allowed(st.db, user, system) && HasRoom(st.entries, user, st.now) && now < st.now + FLOW_TTL
    ensures CanRun(st, actions) && Completed(c, h, user, system) in Run(st, actions).log
  {
    var arrive, go := Arrive(t, Starter(user, system, client, h, 0, SCheck)), Go(t, true, 0);
    var s1 := Apply(st, arrive);
    var s2 := Apply(s1, go);
    assert s2.threads[t] == Starter(user, system, client, h, st.now, SQueue);
    var s3 := Apply(s2, go);
    assert s3.threads[t] == Starter(user, system, client, h, st.now, SWriter);
    var rest := WriterCompletes(s3, t, c, user, system, client, h, st.now, account, token, now);
    Cons(s2, go, rest);
    Cons(s1, go, [go] + rest);
    Cons(st, arrive, [go] + ([go] + rest));
    actions := [arrive] + ([go] + ([go] + rest));
  }
}
