/**
 What every interleaving keeps: lock discipline, handle freshness, one active
 completer per flow, and the ordering between revocations and completions.
 */
module OAuthFlowSafety {

  import opened Options
  import opened OAuthFlowStore
  import opened OAuthFlowProtocol

  // ---------- the log ----------

  predicate RegistersAt(log: seq<Event>, i: int, h: Handle) {
    0 <= i < |log| && log[i].Registered? && log[i].handle == h
  }

  ghost predicate IsRegistered(log: seq<Event>, h: Handle) {
    exists i :: RegistersAt(log, i, h)
  }

  /** Event j ends the access of the user who registered h at event i < j. */
  predicate Overtakes(log: seq<Event>, h: Handle, i: int, j: int) {
    && RegistersAt(log, i, h) && i < j < |log|
    && log[j].Revoked? && Covers(log[j].targets, log[i].owner, log[i].system)
  }

  /** Flow h was registered before a revocation that covers it. */
  ghost predicate Doomed(log: seq<Event>, h: Handle) {
    exists i, j :: Overtakes(log, h, i, j)
  }

  ghost predicate IsCompleted(log: seq<Event>, h: Handle) {
    exists k :: 0 <= k < |log| && log[k].Completed? && log[k].handle == h
  }

  /** No flow completes after its owner's access ended, even if the owner was readmitted in between. */
  ghost predicate NoLateCompletion(log: seq<Event>) {
    forall k :: 0 <= k < |log| && log[k].Completed? ==> !Doomed(log[..k], log[k].handle)
  }

  /** A flow's result is handed out at most once, and only to the user and system that started it. */
  ghost predicate CompletedOnce(log: seq<Event>) {
    && (forall k, l :: 0 <= k < l < |log| && log[k].Completed? && log[l].Completed? ==> log[k].handle != log[l].handle)
    && (forall k :: 0 <= k < |log| && log[k].Completed? ==> Registered(log[k].handle, log[k].user, log[k].system) in log[..k])
  }

  /** The handles were all registered, by users the targets cover, before event j. */
  ghost predicate AllRegisteredBefore(log: seq<Event>, handles: set<Handle>, targets: set<Target>, j: int) {
    forall h :: h in handles ==>
      exists i :: RegistersAt(log, i, h) && i < j && Covers(targets, log[i].owner, log[i].system)
  }

  /** Only a committed update invalidates, and only flows registered before its commit. */
  ghost predicate InvalidatesOnlyEarlier(log: seq<Event>) {
    forall k :: 0 <= k < |log| && log[k].Invalidated? ==>
      exists j :: 0 <= j < k && log[j].Revoked? && log[j].tid == log[k].tid
               && AllRegisteredBefore(log, log[k].handles, log[j].targets, j)
  }

  lemma DoomedSnoc(log: seq<Event>, e: Event, h: Handle)
    ensures Doomed(log, h) ==> Doomed(log + [e], h)
    ensures Doomed(log + [e], h) ==>
      || Doomed(log, h)
      || (e.Revoked? && exists i :: RegistersAt(log, i, h) && Covers(e.targets, log[i].owner, log[i].system))
  {
    var log' := log + [e];
    if Doomed(log, h) {
      var i, j :| Overtakes(log, h, i, j);
      assert Overtakes(log', h, i, j);
    }
    if Doomed(log', h) {
      var i, j :| Overtakes(log', h, i, j);
      assert RegistersAt(log, i, h);
      if j < |log| {
        assert Overtakes(log, h, i, j);
      }
    }
  }

  // ---------- what one step of a thread can do ----------

  predicate BeforePut(th: Thread) {
    th.Start? && (th.spc.SCheck? || th.spc.SQueue? || th.spc.SWriter? || th.spc.SPut?)
  }

  /** Claimed the flow with `begin` and not yet released it. */
  predicate Owns(th: Thread, h: Handle) {
    && th.Complete? && th.handle == h
    && (th.cpc.CClaimed? || th.cpc.CWriter? || th.cpc.CVerify? || th.cpc.CCommit? || th.cpc.CConsume? || th.cpc.CRelease?)
  }

  /** Past the existence check of the completing transaction. */
  predicate Verified(th: Thread) {
    th.Complete? && th.cpc.CCommit? && !th.cancelled
  }

  predicate SameRequest(a: Thread, b: Thread) {
    match a
    case Start(u, s, c, h, _, _, _) => b.Start? && b.user == u && b.system == s && b.client == c && b.handle == h
    case Complete(u, s, acc, h, _, _) => b.Complete? && b.user == u && b.system == s && b.account == acc && b.handle == h
    case Updater(u, _, _) => b.Updater? && b.update == u
  }

  /** How a step may move a thread's locks, and which lock each table's writer has. */
  predicate KeepsDiscipline(st: State, th: Thread, ok: bool, d: Delta) {
    && SameRequest(th, d.thread)
    && (HoldsWriter(d.thread) ==> HoldsWriter(th) || (WantsWriter(th, ok) && !th.cancelled))
    && (HoldsMutex(d.thread) ==> HoldsMutex(th) || WantsMutex(th, ok))
    && (d.db != st.db ==> HoldsWriter(th))
    && (d.entries != st.entries ==> WantsMutex(th, ok) || (th.Updater? && th.upc.UInvalidate?))
    && (BeforePut(d.thread) ==> BeforePut(th))
  }

  lemma StartDiscipline(st: State, th: Thread, ok: bool, n: int)
    requires th.Start?
    ensures KeepsDiscipline(st, th, ok, StepStart(st, th, ok, n))
  {
  }

  lemma CompleteDiscipline(st: State, t: Tid, th: Thread, ok: bool, n: int)
    requires th.Complete?
    ensures KeepsDiscipline(st, th, ok, StepComplete(st, t, th, ok, n))
  {
  }

  lemma UpdaterDiscipline(st: State, t: Tid, th: Thread, ok: bool)
    requires th.Updater?
    ensures KeepsDiscipline(st, th, ok, StepUpdater(st, t, th, ok))
  {
  }

  lemma LockFacts(st: State, t: Tid, ok: bool, n: int)
    requires t in st.threads
    ensures KeepsDiscipline(st, st.threads[t], ok, Step(st, t, ok, n))
  {
    var th := st.threads[t];
    match th
    case Start(_, _, _, _, _, _, _) => StartDiscipline(st, th, ok, n);
    case Complete(_, _, _, _, _, _) => CompleteDiscipline(st, t, th, ok, n);
    case Updater(_, _, _) => UpdaterDiscipline(st, t, th, ok);
  }

  lemma EventFacts(st: State, t: Tid, ok: bool, n: int)
    requires t in st.threads && Step(st, t, ok, n).event.Some?
    ensures var th, d := st.threads[t], Step(st, t, ok, n);
      match d.event.value
      case Registered(h, u, s) =>
        th.Start? && th.spc.SPut? && WantsMutex(th, ok) && h == th.handle && u == th.user && s == th.system && !BeforePut(d.thread)
      case Started(h) =>
        th.Start? && th.spc.SCommit? && h == th.handle && d.entries == st.entries && !BeforePut(d.thread)
      case Polled(h, token) =>
        th.Start? && th.spc.SPoll? && h == th.handle && !BeforePut(d.thread) && d.entries.Keys == st.entries.Keys
      case Revoked(tid, targets) =>
        th.Updater? && th.upc.ULocked? && HoldsWriter(th) && tid == t && d.thread.upc == UInvalidate(targets, |st.log|) && d.entries == st.entries
      case Invalidated(tid, hs) =>
        th.Updater? && th.upc.UInvalidate? && tid == t && d.entries == InvalidateAll(st.entries, th.upc.targets)
        && hs == st.entries.Keys - d.entries.Keys && d.thread.upc.UUnlock?
      case Completed(tid, h, u, s) =>
        Verified(th) && tid == t && h == th.handle && u == th.user && s == th.system && d.thread.cpc.CConsume? && d.entries == st.entries
  {
  }

  /** Entries only leave or keep their owner, except the one a `put` registers. */
  lemma EntryFacts(st: State, t: Tid, ok: bool, n: int, h: Handle)
    requires t in st.threads && h in Step(st, t, ok, n).entries
    ensures var th, d := st.threads[t], Step(st, t, ok, n);
      || (h in st.entries && d.entries[h].owner == st.entries[h].owner && d.entries[h].system == st.entries[h].system)
      || (d.event == Some(Registered(h, th.user, th.system)) && d.entries[h] == NewEntry(th))
  {
  }

  // ---------- the invariant ----------

  ghost predicate Exclusive(st: State) {
    && (forall t, u :: t in st.threads && u in st.threads && HoldsWriter(st.threads[t]) && HoldsWriter(st.threads[u]) ==> t == u)
    && (forall t, u :: t in st.threads && u in st.threads && HoldsMutex(st.threads[t]) && HoldsMutex(st.threads[u]) ==> t == u)
  }

  ghost predicate Handles(st: State) {
    && (forall t :: t in st.threads && st.threads[t].Start? ==> st.threads[t].handle in st.issued)
    && (forall t, u :: t in st.threads && u in st.threads && t != u && st.threads[t].Start? && st.threads[u].Start? ==>
          st.threads[t].handle != st.threads[u].handle)
    && (forall i :: 0 <= i < |st.log| && st.log[i].Registered? ==> st.log[i].handle in st.issued)
    && (forall t, i :: t in st.threads && BeforePut(st.threads[t]) ==> !RegistersAt(st.log, i, st.threads[t].handle))
    && (forall i, j, h :: RegistersAt(st.log, i, h) && RegistersAt(st.log, j, h) ==> i == j)
    && (forall h :: h in st.entries ==> Registered(h, st.entries[h].owner, st.entries[h].system) in st.log)
  }

  lemma ExclusiveStep(st: State, a: Action)
    requires Enabled(st, a) && Exclusive(st)
    ensures Exclusive(Apply(st, a))
  {
    if a.Go? {
      LockFacts(st, a.t, a.ok, a.n);
    }
  }

  /** The log's part: registered handles were issued, none by a thread still before its `put`, and none twice. */
  ghost predicate HandlesLogged(st: State) {
    && (forall i :: 0 <= i < |st.log| && st.log[i].Registered? ==> st.log[i].handle in st.issued)
    && (forall t, i :: t in st.threads && BeforePut(st.threads[t]) ==> !RegistersAt(st.log, i, st.threads[t].handle))
    && (forall i, j, h :: RegistersAt(st.log, i, h) && RegistersAt(st.log, j, h) ==> i == j)
  }

  /** A step registers at most its own thread's handle, as the newest event. */
  lemma NewRegistration(st: State, a: Action, i: int, h: Handle)
    requires Enabled(st, a) && a.Go? && RegistersAt(Apply(st, a).log, i, h)
    ensures RegistersAt(st.log, i, h)
      || (i == |st.log| && st.threads[a.t].Start? && st.threads[a.t].handle == h
          && BeforePut(st.threads[a.t]) && !BeforePut(Apply(st, a).threads[a.t]))
  {
    if Step(st, a.t, a.ok, a.n).event.Some? {
      EventFacts(st, a.t, a.ok, a.n);
    }
  }

  lemma HandlesLoggedStep(st: State, a: Action)
    requires Enabled(st, a) && a.Go? && Handles(st)
    ensures HandlesLogged(Apply(st, a))
  {
    var st' := Apply(st, a);
    LockFacts(st, a.t, a.ok, a.n);
    forall i, h | RegistersAt(st'.log, i, h)
      ensures RegistersAt(st.log, i, h)
        || (i == |st.log| && st.threads[a.t].Start? && st.threads[a.t].handle == h
            && BeforePut(st.threads[a.t]) && !BeforePut(st'.threads[a.t]))
    {
      NewRegistration(st, a, i, h);
    }
    forall i | 0 <= i < |st'.log| && st'.log[i].Registered? ensures st'.log[i].handle in st'.issued {
      assert RegistersAt(st'.log, i, st'.log[i].handle);
    }
  }

  lemma HandlesStep(st: State, a: Action)
    requires Enabled(st, a) && Handles(st)
    ensures Handles(Apply(st, a))
  {
    if a.Go? {
      var st' := Apply(st, a);
      HandlesLoggedStep(st, a);
      LockFacts(st, a.t, a.ok, a.n);
      forall h | h in st'.entries ensures Registered(h, st'.entries[h].owner, st'.entries[h].system) in st'.log {
        EntryRegistered(st, a, h);
      }
    }
  }

  lemma EntryRegistered(st: State, a: Action, h: Handle)
    requires Enabled(st, a) && a.Go? && Handles(st) && h in Apply(st, a).entries
    ensures var st' := Apply(st, a); Registered(h, st'.entries[h].owner, st'.entries[h].system) in st'.log
  {
    var st' := Apply(st, a);
    EntryFacts(st, a.t, a.ok, a.n, h);
    if Step(st, a.t, a.ok, a.n).event.Some? {
      assert st'.log[|st.log|] == Step(st, a.t, a.ok, a.n).event.value;
    }
  }

  predicate Invalidating(th: Thread) {
    th.Updater? && th.upc.UInvalidate?
  }

  /** A committed revocation that has not yet swept its flows is the newest word on registrations. */
  ghost predicate CommitsLogged(st: State) {
    forall t :: t in st.threads && Invalidating(st.threads[t]) ==>
      && st.threads[t].upc.commit < |st.log|
      && st.log[st.threads[t].upc.commit] == Revoked(t, st.threads[t].upc.targets)
      && forall i :: st.threads[t].upc.commit <= i < |st.log| ==> !st.log[i].Registered?
  }

  ghost predicate AboutToGo(st: State, e: Entry) {
    exists t :: t in st.threads && Invalidating(st.threads[t]) && Covers(st.threads[t].upc.targets, e.owner, e.system)
  }

  /** A flow overtaken by a revocation is out of the table, or its revoker still holds the mutex. */
  ghost predicate DoomedAreGone(st: State) {
    forall h :: h in st.entries && Doomed(st.log, h) ==> AboutToGo(st, st.entries[h])
  }

  ghost predicate VerifiedInTime(st: State) {
    forall t :: t in st.threads && Verified(st.threads[t]) ==> !Doomed(st.log, st.threads[t].handle)
  }

  lemma CommitsLoggedStep(st: State, a: Action)
    requires Enabled(st, a) && CommitsLogged(st)
    ensures CommitsLogged(Apply(st, a))
  {
    if a.Go? {
      LockFacts(st, a.t, a.ok, a.n);
      if Step(st, a.t, a.ok, a.n).event.Some? {
        EventFacts(st, a.t, a.ok, a.n);
      }
    }
  }

  /** While the mutex is free no doomed flow is left in the table. */
  lemma FreeMutexMeansNoDoomed(st: State, h: Handle)
    requires DoomedAreGone(st) && MutexFree(st) && h in st.entries
    ensures !Doomed(st.log, h)
  {
  }

  lemma RegistrationOf(st: State, h: Handle) returns (i: int)
    requires Handles(st) && h in st.entries
    ensures RegistersAt(st.log, i, h) && st.log[i].owner == st.entries[h].owner && st.log[i].system == st.entries[h].system
  {
    i :| 0 <= i < |st.log| && st.log[i] == Registered(h, st.entries[h].owner, st.entries[h].system);
  }

  /** A revoker that has not swept yet goes on being there while others step. */
  lemma StillAboutToGo(st: State, a: Action, e: Entry)
    requires Enabled(st, a) && a.Go? && AboutToGo(st, e) && !Invalidating(st.threads[a.t])
    ensures AboutToGo(Apply(st, a), e)
  {
    var t :| t in st.threads && Invalidating(st.threads[t]) && Covers(st.threads[t].upc.targets, e.owner, e.system);
    assert t in Apply(st, a).threads && Apply(st, a).threads[t] == st.threads[t];
  }

  lemma InvalidatingLogs(st: State, a: Action)
    requires Enabled(st, a) && a.Go? && Invalidating(st.threads[a.t])
    ensures var d := Step(st, a.t, a.ok, a.n);
      && d.event.Some? && d.event.value.Invalidated?
      && d.entries == InvalidateAll(st.entries, st.threads[a.t].upc.targets)
  {
  }

  /** The sweeping step itself: what is left was not covered, so some other revoker is about to take it. */
  lemma SweepLeavesUncovered(st: State, a: Action, h: Handle)
    requires Enabled(st, a) && a.Go? && Exclusive(st) && DoomedAreGone(st) && Invalidating(st.threads[a.t])
    requires h in Apply(st, a).entries
    ensures !Doomed(st.log, h)
  {
    InvalidatingLogs(st, a);
    if AboutToGo(st, st.entries[h]) {
      var t :| t in st.threads && Invalidating(st.threads[t]) && Covers(st.threads[t].upc.targets, st.entries[h].owner, st.entries[h].system);
      assert HoldsMutex(st.threads[t]) && HoldsMutex(st.threads[a.t]);
    }
  }

  lemma DoomedAreGoneGo(st: State, a: Action, h: Handle)
    requires Enabled(st, a) && a.Go? && Exclusive(st) && Handles(st) && DoomedAreGone(st)
    requires h in Apply(st, a).entries && Doomed(Apply(st, a).log, h)
    ensures AboutToGo(Apply(st, a), Apply(st, a).entries[h])
  {
    var d := Step(st, a.t, a.ok, a.n);
    EntryFacts(st, a.t, a.ok, a.n, h);
    if Invalidating(st.threads[a.t]) {
      SweepLeavesUncovered(st, a, h);
      InvalidatingLogs(st, a);
      DoomedSnoc(st.log, d.event.value, h);
    } else if d.event.None? {
      StillAboutToGo(st, a, st.entries[h]);
    } else {
      DoomedAreGoneEvent(st, a, h);
    }
  }

  lemma DoomedAreGoneEvent(st: State, a: Action, h: Handle)
    requires Enabled(st, a) && a.Go? && Handles(st) && DoomedAreGone(st) && !Invalidating(st.threads[a.t])
    requires h in Apply(st, a).entries && Doomed(Apply(st, a).log, h) && Step(st, a.t, a.ok, a.n).event.Some?
    ensures AboutToGo(Apply(st, a), Apply(st, a).entries[h])
  {
    var st', d := Apply(st, a), Step(st, a.t, a.ok, a.n);
    EntryFacts(st, a.t, a.ok, a.n, h);
    EventFacts(st, a.t, a.ok, a.n);
    DoomedSnoc(st.log, d.event.value, h);
    match d.event.value
    case Registered(g, _, _) =>
      if h in st.entries {
        FreeMutexMeansNoDoomed(st, h);
      }
    case Revoked(_, targets) =>
      if Doomed(st.log, h) {
        StillAboutToGo(st, a, st.entries[h]);
      } else {
        var i := RegistrationOf(st, h);
        assert Covers(targets, st.entries[h].owner, st.entries[h].system);
        assert Invalidating(st'.threads[a.t]);
      }
    case Completed(_, _, _, _) => StillAboutToGo(st, a, st.entries[h]);
    case Started(_) => StillAboutToGo(st, a, st.entries[h]);
    case Polled(_, _) => StillAboutToGo(st, a, st.entries[h]);
    case Invalidated(_, _) =>
  }

  lemma DoomedAreGoneStep(st: State, a: Action)
    requires Enabled(st, a) && Exclusive(st) && Handles(st) && DoomedAreGone(st)
    ensures DoomedAreGone(Apply(st, a))
  {
    var st' := Apply(st, a);
    forall h | h in st'.entries && Doomed(st'.log, h) ensures AboutToGo(st', st'.entries[h]) {
      if a.Go? {
        DoomedAreGoneGo(st, a, h);
      } else {
        var t :| t in st.threads && Invalidating(st.threads[t]) && Covers(st.threads[t].upc.targets, st.entries[h].owner, st.entries[h].system);
        assert t in st'.threads && Invalidating(st'.threads[t]);
      }
    }
  }

  lemma VerifiedInTimeGo(st: State, a: Action, t: Tid)
    requires Enabled(st, a) && a.Go? && Exclusive(st) && DoomedAreGone(st) && VerifiedInTime(st)
    requires t in Apply(st, a).threads && Verified(Apply(st, a).threads[t])
    ensures !Doomed(Apply(st, a).log, Apply(st, a).threads[t].handle)
  {
    var st', d := Apply(st, a), Step(st, a.t, a.ok, a.n);
    var h := st'.threads[t].handle;
    if d.event.Some? {
      EventFacts(st, a.t, a.ok, a.n);
      DoomedSnoc(st.log, d.event.value, h);
    }
    if t == a.t {
      assert st.threads[t].cpc.CVerify?;
      FreeMutexMeansNoDoomed(st, h);
    }
  }

  lemma VerifiedInTimeStep(st: State, a: Action)
    requires Enabled(st, a) && Exclusive(st) && DoomedAreGone(st) && VerifiedInTime(st)
    ensures VerifiedInTime(Apply(st, a))
  {
    var st' := Apply(st, a);
    forall t | t in st'.threads && Verified(st'.threads[t]) ensures !Doomed(st'.log, st'.threads[t].handle) {
      if a.Go? {
        VerifiedInTimeGo(st, a, t);
      }
    }
  }

  // ---------- one completer per flow ----------

  predicate Delivering(th: Thread) {
    th.Complete? && th.cpc.CConsume?
  }

  ghost predicate OneOwner(st: State) {
    forall t, u, h :: t in st.threads && u in st.threads && Owns(st.threads[t], h) && Owns(st.threads[u], h) ==> t == u
  }

  ghost predicate OwnedAreActive(st: State) {
    forall t, h :: t in st.threads && Owns(st.threads[t], h) && h in st.entries ==> st.entries[h].active
  }

  ghost predicate OwnersRegistered(st: State) {
    forall t, h :: t in st.threads && Owns(st.threads[t], h) ==> Registered(h, st.threads[t].user, st.threads[t].system) in st.log
  }

  /** After a hand-out the only owner left is the one that consumes or releases the flow. */
  ghost predicate HandedOut(st: State) {
    && (forall t, h :: t in st.threads && Owns(st.threads[t], h) && IsCompleted(st.log, h) ==>
          st.threads[t].cpc.CConsume? || st.threads[t].cpc.CRelease?)
    && (forall h :: h in st.entries && IsCompleted(st.log, h) ==>
          exists t :: t in st.threads && Owns(st.threads[t], h) && Delivering(st.threads[t]))
  }

  lemma OwnerFacts(st: State, t: Tid, ok: bool, n: int, h: Handle)
    requires t in st.threads
    ensures var th, d := st.threads[t], Step(st, t, ok, n);
      && (Owns(d.thread, h) && !Owns(th, h) ==>
            && WantsMutex(th, ok) && d.event.None? && h in st.entries && !st.entries[h].active
            && st.entries[h].owner == th.user && st.entries[h].system == th.system
            && h in d.entries && d.entries[h].active && d.thread.cpc.CClaimed?)
      && (h in st.entries && h in d.entries && st.entries[h].active && !d.entries[h].active ==>
            (Owns(th, h) && !Owns(d.thread, h)) || (d.event.Some? && d.event.value.Registered? && d.event.value.handle == h))
      && (Owns(th, h) && th.cpc.CConsume? ==> h !in d.entries)
      && (Owns(th, h) && th.cpc.CRelease? ==> !Owns(d.thread, h))
      && (Delivering(d.thread) ==> d.event.Some? && d.event.value.Completed?)
  {
  }

  lemma OneOwnerStep(st: State, a: Action)
    requires Enabled(st, a) && OneOwner(st) && OwnedAreActive(st)
    ensures OneOwner(Apply(st, a))
  {
    var st' := Apply(st, a);
    forall t, u, h | t in st'.threads && u in st'.threads && Owns(st'.threads[t], h) && Owns(st'.threads[u], h) ensures t == u {
      if a.Go? {
        OwnerFacts(st, a.t, a.ok, a.n, h);
      }
    }
  }

  lemma OwnersRegisteredStep(st: State, a: Action)
    requires Enabled(st, a) && Handles(st) && OwnersRegistered(st)
    ensures OwnersRegistered(Apply(st, a))
  {
    var st' := Apply(st, a);
    forall t, h | t in st'.threads && Owns(st'.threads[t], h) ensures Registered(h, st'.threads[t].user, st'.threads[t].system) in st'.log {
      if a.Go? {
        OwnerFacts(st, a.t, a.ok, a.n, h);
        LockFacts(st, a.t, a.ok, a.n);
        assert forall e :: e in st.log ==> e in st'.log;
      }
    }
  }

  lemma OwnedAreActiveStep(st: State, a: Action)
    requires Enabled(st, a) && Handles(st) && OneOwner(st) && OwnersRegistered(st) && OwnedAreActive(st)
    ensures OwnedAreActive(Apply(st, a))
  {
    var st' := Apply(st, a);
    forall t, h | t in st'.threads && Owns(st'.threads[t], h) && h in st'.entries ensures st'.entries[h].active {
      if a.Go? {
        var d := Step(st, a.t, a.ok, a.n);
        OwnerFacts(st, a.t, a.ok, a.n, h);
        EntryFacts(st, a.t, a.ok, a.n, h);
        if d.event.Some? && d.event.value.Registered? {
          EventFacts(st, a.t, a.ok, a.n);
          var i :| 0 <= i < |st.log| && st.log[i] == Registered(h, st.threads[t].user, st.threads[t].system);
          assert RegistersAt(st.log, i, h);
        }
      }
    }
  }

  lemma CompletedSnoc(log: seq<Event>, event: Option<Event>, h: Handle)
    ensures IsCompleted(Logged(log, event), h) <==>
      IsCompleted(log, h) || (event.Some? && event.value.Completed? && event.value.handle == h)
  {
    if IsCompleted(log, h) {
      var k :| 0 <= k < |log| && log[k].Completed? && log[k].handle == h;
      assert Logged(log, event)[k] == log[k];
    } else if event.Some? {
      assert Logged(log, event)[|log|] == event.value;
    }
  }

  lemma HandedOutOwners(st: State, a: Action, t: Tid, h: Handle)
    requires Enabled(st, a) && a.Go? && OneOwner(st) && OwnedAreActive(st) && HandedOut(st)
    requires t in st.threads && Owns(Apply(st, a).threads[t], h) && IsCompleted(Apply(st, a).log, h)
    ensures Apply(st, a).threads[t].cpc.CConsume? || Apply(st, a).threads[t].cpc.CRelease?
  {
    var d := Step(st, a.t, a.ok, a.n);
    CompletedSnoc(st.log, d.event, h);
    OwnerFacts(st, a.t, a.ok, a.n, h);
    if d.event.Some? {
      EventFacts(st, a.t, a.ok, a.n);
    }
  }

  lemma CompletedWasRegistered(log: seq<Event>, h: Handle)
    requires CompletedOnce(log) && IsCompleted(log, h)
    ensures IsRegistered(log, h)
  {
    var k :| 0 <= k < |log| && log[k].Completed? && log[k].handle == h;
    var i :| 0 <= i < k && log[i] == Registered(h, log[k].user, log[k].system);
    assert RegistersAt(log, i, h);
  }

  /** A flow handed out before this step and still there: its deliverer is another thread. */
  lemma DeliveryGoesOn(st: State, a: Action, h: Handle)
    requires Enabled(st, a) && a.Go? && Handles(st) && HandedOut(st) && CompletedOnce(st.log)
    requires h in Apply(st, a).entries && IsCompleted(st.log, h)
    ensures exists t :: t in Apply(st, a).threads && Owns(Apply(st, a).threads[t], h) && Delivering(Apply(st, a).threads[t])
  {
    var st' := Apply(st, a);
    CompletedWasRegistered(st.log, h);
    EntryFacts(st, a.t, a.ok, a.n, h);
    if Step(st, a.t, a.ok, a.n).event.Some? {
      EventFacts(st, a.t, a.ok, a.n);
    }
    assert h in st.entries;
    var t :| t in st.threads && Owns(st.threads[t], h) && Delivering(st.threads[t]);
    OwnerFacts(st, a.t, a.ok, a.n, h);
    assert t != a.t && st'.threads[t] == st.threads[t];
  }

  lemma HandedOutEntries(st: State, a: Action, h: Handle)
    requires Enabled(st, a) && a.Go? && Handles(st) && HandedOut(st) && CompletedOnce(st.log)
    requires h in Apply(st, a).entries && IsCompleted(Apply(st, a).log, h)
    ensures exists t :: t in Apply(st, a).threads && Owns(Apply(st, a).threads[t], h) && Delivering(Apply(st, a).threads[t])
  {
    if IsCompleted(st.log, h) {
      DeliveryGoesOn(st, a, h);
    } else {
      CompletedSnoc(st.log, Step(st, a.t, a.ok, a.n).event, h);
      EventFacts(st, a.t, a.ok, a.n);
      assert Delivering(Apply(st, a).threads[a.t]) && Owns(Apply(st, a).threads[a.t], h);
    }
  }

  lemma HandedOutStep(st: State, a: Action)
    requires Enabled(st, a) && Handles(st) && OneOwner(st) && OwnersRegistered(st) && OwnedAreActive(st) && HandedOut(st)
    requires CompletedOnce(st.log)
    ensures HandedOut(Apply(st, a))
  {
    var st' := Apply(st, a);
    forall t, h | t in st'.threads && Owns(st'.threads[t], h) && IsCompleted(st'.log, h)
      ensures st'.threads[t].cpc.CConsume? || st'.threads[t].cpc.CRelease?
    {
      if a.Go? {
        HandedOutOwners(st, a, t, h);
      }
    }
    forall h | h in st'.entries && IsCompleted(st'.log, h)
      ensures exists t :: t in st'.threads && Owns(st'.threads[t], h) && Delivering(st'.threads[t])
    {
      if a.Go? {
        HandedOutEntries(st, a, h);
      } else {
        var t :| t in st.threads && Owns(st.threads[t], h) && Delivering(st.threads[t]);
        assert t in st'.threads && Owns(st'.threads[t], h) && Delivering(st'.threads[t]);
      }
    }
  }

  lemma CompletedOnceStep(st: State, a: Action)
    requires Enabled(st, a) && OwnersRegistered(st) && HandedOut(st) && CompletedOnce(st.log)
    ensures CompletedOnce(Apply(st, a).log)
  {
    if a.Go? && Step(st, a.t, a.ok, a.n).event.Some? {
      EventFacts(st, a.t, a.ok, a.n);
      var log, log' := st.log, Apply(st, a).log;
      forall k | 0 <= k <= |log| ensures log'[..k] == log[..k] {}
      if log'[|log|].Completed? {
        assert Owns(st.threads[a.t], log'[|log|].handle);
        assert !IsCompleted(log, log'[|log|].handle);
      }
    }
  }

  lemma NoLateCompletionStep(st: State, a: Action)
    requires Enabled(st, a) && VerifiedInTime(st) && NoLateCompletion(st.log)
    ensures NoLateCompletion(Apply(st, a).log)
  {
    if a.Go? && Step(st, a.t, a.ok, a.n).event.Some? {
      EventFacts(st, a.t, a.ok, a.n);
      var log, log' := st.log, Apply(st, a).log;
      forall k | 0 <= k <= |log| ensures log'[..k] == log[..k] {}
      assert log[..|log|] == log;
    }
  }

  lemma InvalidatesOnlyEarlierStep(st: State, a: Action)
    requires Enabled(st, a) && Handles(st) && CommitsLogged(st) && InvalidatesOnlyEarlier(st.log)
    ensures InvalidatesOnlyEarlier(Apply(st, a).log)
  {
    if a.Go? && Step(st, a.t, a.ok, a.n).event.Some? {
      EventFacts(st, a.t, a.ok, a.n);
      var log, log' := st.log, Apply(st, a).log;
      forall k | 0 <= k < |log'| && log'[k].Invalidated?
        ensures exists j :: 0 <= j < k && log'[j].Revoked? && log'[j].tid == log'[k].tid
                         && AllRegisteredBefore(log', log'[k].handles, log'[j].targets, j)
      {
        if k < |log| {
          var j :| 0 <= j < k && log[j].Revoked? && log[j].tid == log[k].tid && AllRegisteredBefore(log, log[k].handles, log[j].targets, j);
          EarlierSnoc(log, log'[|log|], log[k].handles, log[j].targets, j);
          assert log'[j] == log[j];
        } else {
          InvalidatedWereEarlier(st, a.t);
          var j := st.threads[a.t].upc.commit;
          EarlierSnoc(log, log'[|log|], log'[k].handles, log[j].targets, j);
          assert log'[j] == log[j];
        }
      }
    }
  }

  lemma EarlierSnoc(log: seq<Event>, e: Event, handles: set<Handle>, targets: set<Target>, j: int)
    requires AllRegisteredBefore(log, handles, targets, j)
    ensures AllRegisteredBefore(log + [e], handles, targets, j)
  {
    forall h | h in handles ensures exists i :: RegistersAt(log + [e], i, h) && i < j && Covers(targets, (log + [e])[i].owner, (log + [e])[i].system) {
      var i :| RegistersAt(log, i, h) && i < j && Covers(targets, log[i].owner, log[i].system);
      assert RegistersAt(log + [e], i, h);
    }
  }

  lemma InvalidatedWereEarlier(st: State, t: Tid)
    requires Handles(st) && CommitsLogged(st) && t in st.threads && Invalidating(st.threads[t])
    ensures AllRegisteredBefore(st.log, st.entries.Keys - InvalidateAll(st.entries, st.threads[t].upc.targets).Keys,
                                st.threads[t].upc.targets, st.threads[t].upc.commit)
  {
    forall h | h in st.entries && Covers(st.threads[t].upc.targets, st.entries[h].owner, st.entries[h].system)
      ensures exists i :: RegistersAt(st.log, i, h) && i < st.threads[t].upc.commit
                       && Covers(st.threads[t].upc.targets, st.log[i].owner, st.log[i].system)
    {
      var i := RegistrationOf(st, h);
      assert RegistersAt(st.log, i, h);
    }
  }

  // ---------- authority at commit ----------

  predicate MayComplete(db: Db, th: Thread)
    requires th.Complete?
  {
    CanEnter(db, th.user, th.system) && (th.account || MayUseMailboxes(db, th.user))
  }

  ghost predicate CheckedStillHold(st: State) {
    forall t :: t in st.threads && st.threads[t].Complete? && HoldsWriter(st.threads[t]) && !st.threads[t].cpc.CWriter? ==>
      MayComplete(st.db, st.threads[t])
  }

  lemma CheckedStillHoldStep(st: State, a: Action)
    requires Enabled(st, a) && Exclusive(st) && CheckedStillHold(st)
    ensures CheckedStillHold(Apply(st, a))
  {
    if a.Go? {
      LockFacts(st, a.t, a.ok, a.n);
    }
  }

  lemma BoundedStep(st: State, a: Action)
    requires Enabled(st, a) && Handles(st) && Bounded(st.entries)
    ensures Bounded(Apply(st, a).entries)
  {
    if a.Go? {
      var th, d := st.threads[a.t], Step(st, a.t, a.ok, a.n);
      if th.Start? && th.spc.SPut? {
        if th.handle in st.entries {
          var i := RegistrationOf(st, th.handle);
        }
        PutKeepsBoundsExactly(st.entries, th.handle, NewEntry(th), th.clock);
      } else {
        forall h | h in d.entries ensures h in st.entries && d.entries[h].owner == st.entries[h].owner {
          EntryFacts(st, a.t, a.ok, a.n, h);
          if d.event.Some? {
            EventFacts(st, a.t, a.ok, a.n);
          }
        }
        ShrinkKeepsBounds(st.entries, d.entries);
      }
    }
  }

  // ---------- every run ----------

  ghost predicate Inv(st: State) {
    && Exclusive(st) && Handles(st) && CommitsLogged(st) && DoomedAreGone(st) && VerifiedInTime(st)
    && OneOwner(st) && OwnedAreActive(st) && OwnersRegistered(st) && HandedOut(st) && CheckedStillHold(st)
    && Bounded(st.entries)
    && NoLateCompletion(st.log) && CompletedOnce(st.log) && InvalidatesOnlyEarlier(st.log)
  }

  lemma InvInit(st: State)
    requires Init(st)
    ensures Inv(st)
  {
    forall u ensures OwnedBy(st.entries, u) == {} {}
  }

  lemma InvStep(st: State, a: Action)
    requires Enabled(st, a) && Inv(st)
    ensures Inv(Apply(st, a))
  {
    ExclusiveStep(st, a);
    HandlesStep(st, a);
    CommitsLoggedStep(st, a);
    DoomedAreGoneStep(st, a);
    VerifiedInTimeStep(st, a);
    OneOwnerStep(st, a);
    OwnedAreActiveStep(st, a);
    OwnersRegisteredStep(st, a);
    HandedOutStep(st, a);
    CheckedStillHoldStep(st, a);
    BoundedStep(st, a);
    NoLateCompletionStep(st, a);
    CompletedOnceStep(st, a);
    InvalidatesOnlyEarlierStep(st, a);
  }

  lemma {:induction false} InvRun(st: State, actions: seq<Action>)
    requires Inv(st) && CanRun(st, actions)
    ensures Inv(Run(st, actions))
    decreases |actions|
  {
    if actions != [] {
      InvStep(st, actions[0]);
      InvRun(Apply(st, actions[0]), actions[1..]);
    }
  }

  /**
   In every interleaving: a sign-in registered before its owner's access ended never completes
   after that commit, whatever readmissions come in between; an update invalidates only after its own
   commit and only flows registered before it; and each flow's result is handed out at most once,
   to the user and system that started it.
   */
  lemma RevocationSafety(st: State, actions: seq<Action>)
    requires Init(st) && CanRun(st, actions)
    ensures var log := Run(st, actions).log;
      && (forall h, i, j, k :: 0 <= k < |log| && log[k].Completed? && log[k].handle == h && Overtakes(log, h, i, j) ==> k < j)
      && InvalidatesOnlyEarlier(log)
      && CompletedOnce(log)
  {
    LogRun(st, actions);
    var log := Run(st, actions).log;
    forall h, i, j, k | 0 <= k < |log| && log[k].Completed? && log[k].handle == h && Overtakes(log, h, i, j) ensures k < j {
      LateIsImpossible(log, h, i, j, k);
    }
  }

  lemma LogRun(st: State, actions: seq<Action>)
    requires Init(st) && CanRun(st, actions)
    ensures var log := Run(st, actions).log;
      NoLateCompletion(log) && CompletedOnce(log) && InvalidatesOnlyEarlier(log)
  {
    InvInit(st);
    InvRun(st, actions);
  }

  lemma LateIsImpossible(log: seq<Event>, h: Handle, i: int, j: int, k: int)
    requires NoLateCompletion(log) && Overtakes(log, h, i, j)
    requires 0 <= k < |log| && log[k].Completed? && log[k].handle == h
    ensures k < j
  {
    assert !Doomed(log[..k], h);
    assert !Overtakes(log[..k], h, i, j);
  }

  /** The table's limits and the single active completer per handle hold after every run. */
  lemma StoreSafety(st: State, actions: seq<Action>)
    requires Init(st) && CanRun(st, actions)
    ensures Bounded(Run(st, actions).entries) && OneOwner(Run(st, actions))
  {
    InvInit(st);
    InvRun(st, actions);
  }

  /** At the moment a completion commits, the database still lets that user into that system. */
  lemma CompletionIsAuthorized(st: State, actions: seq<Action>, a: Action)
    requires Init(st) && CanRun(st, actions) && Enabled(Run(st, actions), a)
    requires a.Go? && Step(Run(st, actions), a.t, a.ok, a.n).event.Some? && Step(Run(st, actions), a.t, a.ok, a.n).event.value.Completed?
    ensures MayComplete(Run(st, actions).db, Run(st, actions).threads[a.t])
    ensures Apply(Run(st, actions), a).db == Run(st, actions).db
  {
    InvInit(st);
    InvRun(st, actions);
    EventFacts(Run(st, actions), a.t, a.ok, a.n);
  }

  lemma VanishFacts(st: State, t: Tid, ok: bool, n: int, h: Handle)
    requires t in st.threads && h in st.entries && h !in Step(st, t, ok, n).entries
    ensures match st.threads[t]
      case Updater(_, _, pc) => pc.UInvalidate? && Covers(pc.targets, st.entries[h].owner, st.entries[h].system)
      case Start(_, _, _, g, clock, _, pc) => (pc.SPut? && Expired(st.entries[h], clock)) || (pc.SDevice? && !ok && g == h)
      case Complete(u, s, _, g, _, pc) =>
        && g == h
        && (pc.CConsume? || (pc.CClaimed? && pc.entry.err.Some?)
            || (pc.CBegin? && Expired(st.entries[h], n) && st.entries[h].owner == u && st.entries[h].system == s))
  {
  }

  lemma OwnerMatchesEntry(st: State, t: Tid, h: Handle)
    requires Handles(st) && OwnersRegistered(st) && t in st.threads && Owns(st.threads[t], h) && h in st.entries
    ensures st.entries[h].owner == st.threads[t].user && st.entries[h].system == st.threads[t].system
  {
    var i := RegistrationOf(st, h);
    var j :| 0 <= j < |st.log| && st.log[j] == Registered(h, st.threads[t].user, st.threads[t].system);
    assert RegistersAt(st.log, j, h);
  }

  /** Every way a flow can leave the table; a revocation that did not commit is not among them. */
  lemma WhyFlowsVanish(st: State, actions: seq<Action>, a: Action, h: Handle)
    requires Init(st) && CanRun(st, actions) && Enabled(Run(st, actions), a)
    requires h in Run(st, actions).entries && h !in Apply(Run(st, actions), a).entries
    ensures a.Go?
    ensures var now := Run(st, actions);
      match now.threads[a.t]
      case Updater(_, _, pc) =>
        pc.UInvalidate? && Covers(pc.targets, now.entries[h].owner, now.entries[h].system) && Revoked(a.t, pc.targets) in now.log
      case Start(_, _, _, g, clock, _, pc) => (pc.SPut? && Expired(now.entries[h], clock)) || (pc.SDevice? && !a.ok && g == h)
      case Complete(u, s, _, g, _, pc) =>
        && g == h && now.entries[h].owner == u && now.entries[h].system == s
        && (pc.CConsume? || (pc.CClaimed? && pc.entry.err.Some?) || (pc.CBegin? && Expired(now.entries[h], a.n)))
  {
    InvInit(st);
    InvRun(st, actions);
    var now := Run(st, actions);
    VanishFacts(now, a.t, a.ok, a.n, h);
    if Owns(now.threads[a.t], h) {
      OwnerMatchesEntry(now, a.t, h);
    }
  }
}
