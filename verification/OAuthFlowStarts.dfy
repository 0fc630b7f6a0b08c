/**
 Only a sign-in whose start committed can complete. A start that is cancelled inside its
 transaction still runs `put` and leaves an entry behind; nothing ever finishes that
 entry, so no completion can claim it.
 */
module OAuthFlowStarts {

  import opened Options
  import opened OAuthFlowStore
  import opened OAuthFlowProtocol
  import opened OAuthFlowSafety

  /** Past the commit of its transaction and not yet done. */
  predicate PastCommit(th: Thread) {
    th.Start? && (th.spc.SDevice? || th.spc.SReschedule? || th.spc.SPoll?)
  }

  /** The provider's answer has been recorded. */
  predicate Answered(e: Entry) {
    e.completed.Some? || e.err.Some?
  }

  /** What is past its commit, answered or claimed was started. */
  ghost predicate StartedFirst(st: State) {
    && (forall t :: t in st.threads && PastCommit(st.threads[t]) ==> Started(st.threads[t].handle) in st.log)
    && (forall h :: h in st.entries && Answered(st.entries[h]) ==> Started(h) in st.log)
    && (forall t, h :: t in st.threads && Owns(st.threads[t], h) ==> Started(h) in st.log)
  }

  /** Every completion is preceded by the commit of the start of its flow. */
  ghost predicate CompletedWereStarted(log: seq<Event>) {
    forall k :: 0 <= k < |log| && log[k].Completed? ==> Started(log[k].handle) in log[..k]
  }

  lemma ThreadStarts(st: State, t: Tid, ok: bool, n: int)
    requires t in st.threads && PastCommit(Step(st, t, ok, n).thread)
    ensures var th, d := st.threads[t], Step(st, t, ok, n);
      th.Start? && d.thread.handle == th.handle && (PastCommit(th) || d.event == Some(Started(th.handle)))
  {
  }

  lemma EntryAnswers(st: State, t: Tid, ok: bool, n: int, h: Handle)
    requires t in st.threads && h in Step(st, t, ok, n).entries && Answered(Step(st, t, ok, n).entries[h])
    ensures (h in st.entries && Answered(st.entries[h])) || (PastCommit(st.threads[t]) && st.threads[t].handle == h)
  {
  }

  lemma OwnerClaims(st: State, t: Tid, ok: bool, n: int, h: Handle)
    requires t in st.threads && Owns(Step(st, t, ok, n).thread, h)
    ensures Owns(st.threads[t], h) || (h in st.entries && Answered(st.entries[h]))
  {
  }

  lemma StartedFirstGo(st: State, a: Action)
    requires Enabled(st, a) && a.Go? && StartedFirst(st)
    ensures StartedFirst(Apply(st, a))
  {
    var st', d := Apply(st, a), Step(st, a.t, a.ok, a.n);
    assert forall e :: e in st.log ==> e in st'.log;
    if d.event.Some? {
      assert st'.log[|st.log|] == d.event.value;
    }
    forall t | t in st'.threads && PastCommit(st'.threads[t]) ensures Started(st'.threads[t].handle) in st'.log {
      if t == a.t {
        ThreadStarts(st, a.t, a.ok, a.n);
      }
    }
    forall h | h in st'.entries && Answered(st'.entries[h]) ensures Started(h) in st'.log {
      EntryAnswers(st, a.t, a.ok, a.n, h);
    }
    forall t, h | t in st'.threads && Owns(st'.threads[t], h) ensures Started(h) in st'.log {
      if t == a.t {
        OwnerClaims(st, a.t, a.ok, a.n, h);
      }
    }
  }

  lemma StartedFirstStep(st: State, a: Action)
    requires Enabled(st, a) && StartedFirst(st)
    ensures StartedFirst(Apply(st, a))
  {
    if a.Go? {
      StartedFirstGo(st, a);
    }
  }

  lemma CompletedStep(st: State, a: Action)
    requires Enabled(st, a) && StartedFirst(st) && CompletedWereStarted(st.log)
    ensures CompletedWereStarted(Apply(st, a).log)
  {
    if a.Go? && Step(st, a.t, a.ok, a.n).event.Some? {
      EventFacts(st, a.t, a.ok, a.n);
      var log, log' := st.log, Apply(st, a).log;
      forall k | 0 <= k <= |log| ensures log'[..k] == log[..k] {}
      assert log[..|log|] == log;
      if log'[|log|].Completed? {
        assert Owns(st.threads[a.t], log'[|log|].handle);
      }
    }
  }

  lemma {:induction false} StartsRun(st: State, actions: seq<Action>)
    requires StartedFirst(st) && CompletedWereStarted(st.log) && CanRun(st, actions)
    ensures CompletedWereStarted(Run(st, actions).log)
    decreases |actions|
  {
    if actions != [] {
      StartedFirstStep(st, actions[0]);
      CompletedStep(st, actions[0]);
      StartsRun(Apply(st, actions[0]), actions[1..]);
    }
  }

  /** In every interleaving, only flows whose start committed complete, and only afterwards. */
  lemma OnlyCommittedStartsComplete(st: State, actions: seq<Action>)
    requires Init(st) && CanRun(st, actions)
    ensures CompletedWereStarted(Run(st, actions).log)
  {
    StartsRun(st, actions);
  }
}
