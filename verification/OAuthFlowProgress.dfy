/**
 Progress of the two-lock protocol: no reachable state is stuck, and every thread
 finishes after a bounded number of its own steps.
 */
module OAuthFlowProgress {

  import opened OAuthFlowProtocol

  ghost predicate Unfinished(st: State, t: Tid) {
    t in st.threads && !Finished(st.threads[t])
  }

  /** A holder of the mutex waits for nothing; a holder of the writer waits at most for the mutex. */
  lemma LockOrder(th: Thread)
    ensures HoldsMutex(th) ==> !Finished(th) && !WantsWriter(th, true) && !WantsMutex(th, true)
    ensures HoldsWriter(th) ==> !Finished(th) && !WantsWriter(th, true)
  {
  }

  /** Whenever some request is unfinished, some thread can take a step that is not a failure. */
  lemma NoDeadlock(st: State)
    requires exists t :: Unfinished(st, t)
    ensures exists t :: t in st.threads && Enabled(st, Go(t, true, 0))
  {
    if t :| t in st.threads && HoldsMutex(st.threads[t]) {
      LockOrder(st.threads[t]);
      assert Enabled(st, Go(t, true, 0));
    } else if t :| t in st.threads && HoldsWriter(st.threads[t]) {
      LockOrder(st.threads[t]);
      assert Enabled(st, Go(t, true, 0));
    } else {
      var t :| Unfinished(st, t);
      assert Enabled(st, Go(t, true, 0));
    }
  }

  function StartRank(pc: StartPc): nat {
    match pc
    case SCheck => 8 case SQueue => 7 case SWriter => 6 case SPut => 5 case SCommit => 4
    case SDevice => 3 case SReschedule => 2 case SPoll => 1 case SDone => 0
  }

  function CompleteRank(pc: CompletePc): nat {
    match pc
    case CCheck => 8 case CBegin => 7 case CClaimed(_) => 6 case CWriter => 5 case CVerify => 4
    case CCommit => 3 case CConsume => 2 case CRelease => 1 case CDone => 0
  }

  function UpdateRank(pc: UpdatePc): nat {
    match pc
    case UQueue => 6 case UWriter => 5 case UReady(_, _) => 4 case ULocked(_, _) => 3
    case UInvalidate(_, _) => 2 case UUnlock => 1 case UDone => 0
  }

  /** An upper bound on the steps a thread has left, its one possible cancellation included. */
  function StepsLeft(th: Thread): nat {
    (match th
     case Start(_, _, _, _, _, _, pc) => StartRank(pc)
     case Complete(_, _, _, _, _, pc) => CompleteRank(pc)
     case Updater(_, _, pc) => UpdateRank(pc))
    + (if th.cancelled then 0 else 1)
  }

  ghost function TotalLeft(threads: map<Tid, Thread>): nat
    decreases |threads|
  {
    if threads == map[] then 0
    else
      var t :| t in threads;
      StepsLeft(threads[t]) + TotalLeft(threads - {t})
  }

  lemma {:induction false} TotalSplit(threads: map<Tid, Thread>, t: Tid)
    requires t in threads
    ensures TotalLeft(threads) == StepsLeft(threads[t]) + TotalLeft(threads - {t})
    decreases |threads|
  {
    var u :| u in threads && TotalLeft(threads) == StepsLeft(threads[u]) + TotalLeft(threads - {u});
    if u != t {
      TotalSplit(threads - {u}, t);
      TotalSplit(threads - {t}, u);
      assert threads - {u} - {t} == threads - {t} - {u};
    }
  }

  lemma StepShortens(st: State, a: Action)
    requires Enabled(st, a) && (a.Go? || a.Cancel?)
    ensures TotalLeft(Apply(st, a).threads) < TotalLeft(st.threads)
  {
    var threads := Apply(st, a).threads;
    TotalSplit(st.threads, a.t);
    TotalSplit(threads, a.t);
    assert threads - {a.t} == st.threads - {a.t};
    ThreadShortens(st, a);
  }

  lemma StartShortens(st: State, th: Thread, ok: bool, n: int)
    requires th.Start? && !Finished(th)
    ensures StepsLeft(StepStart(st, th, ok, n).thread) < StepsLeft(th)
  {
    var next := StepStart(st, th, ok, n).thread;
    assert next.cancelled == th.cancelled;
    match th.spc
    case SCheck => assert next.spc == SQueue || next.spc == SDone;
    case SQueue => assert next.spc == SWriter || next.spc == SDone;
    case SWriter => assert next.spc == SPut || next.spc == SDone;
    case SPut => assert next.spc == SCommit || next.spc == SDone;
    case SCommit => assert next.spc == SDevice || next.spc == SDone;
    case SDevice => assert next.spc == SReschedule || next.spc == SDone;
    case SReschedule => assert next.spc == SPoll;
    case SPoll => assert next.spc == SDone;
  }

  lemma CompleteShortens(st: State, t: Tid, th: Thread, ok: bool, n: int)
    requires th.Complete? && !Finished(th)
    ensures StepsLeft(StepComplete(st, t, th, ok, n).thread) < StepsLeft(th)
  {
  }

  lemma UpdaterShortens(st: State, t: Tid, th: Thread, ok: bool)
    requires th.Updater? && !Finished(th)
    ensures StepsLeft(StepUpdater(st, t, th, ok).thread) < StepsLeft(th)
  {
  }

  lemma ThreadShortens(st: State, a: Action)
    requires Enabled(st, a) && (a.Go? || a.Cancel?)
    ensures StepsLeft(Apply(st, a).threads[a.t]) < StepsLeft(st.threads[a.t])
  {
    if a.Go? {
      var th := st.threads[a.t];
      match th
      case Start(_, _, _, _, _, _, _) => StartShortens(st, th, a.ok, a.n);
      case Complete(_, _, _, _, _, _) => CompleteShortens(st, a.t, th, a.ok, a.n);
      case Updater(_, _, _) => UpdaterShortens(st, a.t, th, a.ok);
    }
  }

  /** With no new arrivals, no schedule goes on for more steps than its threads have left. */
  lemma {:induction false} EveryScheduleEnds(st: State, actions: seq<Action>)
    requires CanRun(st, actions)
    requires forall i :: 0 <= i < |actions| ==> actions[i].Go? || actions[i].Cancel?
    ensures |actions| + TotalLeft(Run(st, actions).threads) <= TotalLeft(st.threads)
    decreases |actions|
  {
    if actions != [] {
      StepShortens(st, actions[0]);
      EveryScheduleEnds(Apply(st, actions[0]), actions[1..]);
    }
  }

  /** From every state the pending requests can all be driven to their end without a failure being injected. */
  lemma {:induction false} AllRequestsCanFinish(st: State) returns (actions: seq<Action>)
    ensures CanRun(st, actions)
    ensures forall i :: 0 <= i < |actions| ==> actions[i].Go? && actions[i].ok
    ensures forall t :: t in Run(st, actions).threads ==> Finished(Run(st, actions).threads[t])
    decreases TotalLeft(st.threads)
  {
    if exists t :: Unfinished(st, t) {
      NoDeadlock(st);
      var t :| t in st.threads && Enabled(st, Go(t, true, 0));
      var a := Go(t, true, 0);
      StepShortens(st, a);
      var rest := AllRequestsCanFinish(Apply(st, a));
      actions := [a] + rest;
      assert actions[1..] == rest;
    } else {
      actions := [];
      forall t | t in st.threads ensures Finished(st.threads[t]) {
        assert !Unfinished(st, t);
      }
    }
  }
}
