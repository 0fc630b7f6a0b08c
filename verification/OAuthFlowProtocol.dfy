/**
 Sign-in start, sign-in completion, member updates and user edits as interleaved
 threads over one single-writer database and one flow-store mutex.

 A thread's program counter names the next critical section it will run. Taking
 the writer, taking the mutex, committing and releasing are separate steps, so a
 run is any interleaving of them. `Cancel` is the request context ending inside a
 transaction: the database gives the writer back at once while the handler goes on.
 */
module OAuthFlowProtocol {

  import opened Options
  import opened OAuthFlowStore

  const FLOW_TTL := 15 * 60 * 1_000_000_000

  // ---------- database ----------

  datatype User = User(admin: bool, disabled: bool, mailboxes: bool)

  datatype Db = Db(users: map<int, User>, systems: set<int>, members: set<(int, int)>)

  predicate CanEnter(db: Db, user: int, system: int) {
    && user in db.users && !db.users[user].disabled
    && system > 0 && system in db.systems
    && (db.users[user].admin || (system, user) in db.members)
  }

  predicate MayUseMailboxes(db: Db, user: int) {
    user in db.users && (db.users[user].admin || db.users[user].mailboxes)
  }

  predicate ActiveAdmin(db: Db, user: int) {
    user in db.users && !db.users[user].disabled && db.users[user].admin
  }

  datatype Update =
    | PutMembers(actor: int, system: int, wanted: set<int>)
    | PatchUser(actor: int, user: int, admin: Option<bool>, disabled: Option<bool>, mailboxes: Option<bool>)

  /** A user whose access ended: in one system, or (system 0) everywhere. */
  type Target = (int, int)

  datatype Staging = Refused | Staged(db: Db, targets: set<Target>)

  function MembersOf(db: Db, system: int): set<int> {
    set m | m in db.members && m.0 == system :: m.1
  }

  function Patched(u: User, admin: Option<bool>, disabled: Option<bool>, mailboxes: Option<bool>): User {
    var nextAdmin := if admin.Some? then admin.value else u.admin;
    var asked := if mailboxes.Some? then mailboxes.value else u.mailboxes;
    User(nextAdmin,
         if disabled.Some? then disabled.value else u.disabled,
         if nextAdmin || (u.admin && mailboxes.None?) then false else asked)
  }

  /** What the transaction body writes, and whose flows must go if it commits. */
  function Stage(db: Db, u: Update): Staging {
    match u
    case PutMembers(actor, system, wanted) =>
      var existing := MembersOf(db, system);
      if !CanEnter(db, actor, system) || !db.users[actor].admin then Refused
      else if exists w :: w in wanted && (w !in db.users || (db.users[w].disabled && w !in existing)) then Refused
      else
        var removed := existing - wanted;
        Staged(db.(members := (set m | m in db.members && !(m.0 == system && m.1 in removed))
                              + (set w | w in wanted :: (system, w))),
               set r | r in removed :: (r, system))
    case PatchUser(actor, user, admin, disabled, mailboxes) =>
      if (user == actor && disabled == Some(true)) || !ActiveAdmin(db, actor) || user !in db.users then Refused
      else
        var next := db.(users := db.users[user := Patched(db.users[user], admin, disabled, mailboxes)]);
        if (admin.Some? || disabled.Some?) && !exists v :: v in next.users && ActiveAdmin(next, v) then Refused
        else Staged(next, if disabled == Some(true) then {(user, 0)} else {})
  }

  predicate Covers(targets: set<Target>, owner: int, system: int) {
    (owner, 0) in targets || (owner, system) in targets
  }

  function InvalidateAll(m: Entries, targets: set<Target>): Entries {
    map h | h in m && !Covers(targets, m[h].owner, m[h].system) :: m[h]
  }

  // ---------- threads ----------

  datatype StartPc =
    | SCheck | SQueue | SWriter | SPut | SCommit | SDevice | SReschedule | SPoll | SDone

  datatype CompletePc =
    | CCheck | CBegin | CClaimed(entry: Entry) | CWriter | CVerify | CCommit | CConsume | CRelease | CDone

  datatype UpdatePc =
    | UQueue | UWriter | UReady(db: Db, targets: set<Target>) | ULocked(db: Db, targets: set<Target>)
    | UInvalidate(targets: set<Target>, commit: nat) | UUnlock | UDone

  datatype Thread =
    | Start(user: int, system: int, client: string, handle: Handle, clock: int, cancelled: bool, spc: StartPc)
    | Complete(user: int, system: int, account: bool, handle: Handle, cancelled: bool, cpc: CompletePc)
    | Updater(update: Update, cancelled: bool, upc: UpdatePc)

  type Tid = nat

  datatype Event =
    | Registered(handle: Handle, owner: int, system: int)
    | Started(handle: Handle)
    | Polled(handle: Handle, token: Option<int>)
    | Revoked(tid: Tid, targets: set<Target>)
    | Invalidated(tid: Tid, handles: set<Handle>)
    | Completed(tid: Tid, handle: Handle, user: int, system: int)

  /** Who holds a lock is read off the program counters. */
  datatype State = State(
    db: Db,
    entries: Entries,
    threads: map<Tid, Thread>,
    issued: set<Handle>,
    now: int,
    log: seq<Event>)

  predicate Finished(th: Thread) {
    match th
    case Start(_, _, _, _, _, _, pc) => pc.SDone?
    case Complete(_, _, _, _, _, pc) => pc.CDone?
    case Updater(_, _, pc) => pc.UDone?
  }

  /** Between taking the writer and the end of the transaction. */
  predicate InTx(th: Thread) {
    match th
    case Start(_, _, _, _, _, _, pc) => pc.SWriter? || pc.SPut? || pc.SCommit?
    case Complete(_, _, _, _, _, pc) => pc.CWriter? || pc.CVerify? || pc.CCommit?
    case Updater(_, _, pc) => pc.UWriter? || pc.UReady? || pc.ULocked?
  }

  /** A cancelled transaction has already lost the writer. */
  predicate HoldsWriter(th: Thread) {
    InTx(th) && !th.cancelled
  }

  predicate HoldsMutex(th: Thread) {
    th.Updater? && (th.upc.ULocked? || th.upc.UInvalidate? || th.upc.UUnlock?)
  }

  predicate WantsWriter(th: Thread, ok: bool) {
    match th
    case Start(_, _, _, _, _, _, pc) => pc.SQueue? && ok
    case Complete(_, _, _, _, _, pc) => pc.CClaimed? && ok && pc.entry.err.None? && pc.entry.clientId != ""
    case Updater(_, _, pc) => pc.UQueue? && ok
  }

  predicate WantsMutex(th: Thread, ok: bool) {
    match th
    case Start(_, _, _, _, _, _, pc) => pc.SPut? || (pc.SDevice? && !ok) || pc.SReschedule? || pc.SPoll?
    case Complete(_, _, _, _, _, pc) =>
      pc.CBegin? || (pc.CClaimed? && pc.entry.err.Some? && pc.entry.clientId != "") || pc.CVerify? || pc.CConsume? || pc.CRelease?
    case Updater(_, _, pc) => pc.UReady? && pc.targets != {}
  }

  predicate Fresh(th: Thread, issued: set<Handle>) {
    match th
    case Start(_, _, _, handle, _, cancelled, pc) => pc.SCheck? && !cancelled && handle !in issued
    case Complete(_, _, _, _, cancelled, pc) => pc.CCheck? && !cancelled
    case Updater(_, cancelled, pc) => pc.UQueue? && !cancelled
  }

  // ---------- steps ----------

  /** `ok` picks success or failure where the outside world decides; `n` is a clock reading, expiry or token. */
  datatype Action =
    | Arrive(t: Tid, thread: Thread)
    | Tick(to: int)
    | Cancel(t: Tid)
    | Go(t: Tid, ok: bool, n: int)

  predicate WriterFree(st: State) {
    forall t :: t in st.threads ==> !HoldsWriter(st.threads[t])
  }

  predicate MutexFree(st: State) {
    forall t :: t in st.threads ==> !HoldsMutex(st.threads[t])
  }

  predicate Enabled(st: State, a: Action) {
    match a
    case Arrive(t, th) => t !in st.threads && Fresh(th, st.issued)
    case Tick(to) => st.now <= to
    case Cancel(t) => t in st.threads && HoldsWriter(st.threads[t])
    case Go(t, ok, n) =>
      && t in st.threads && !Finished(st.threads[t])
      && (WantsWriter(st.threads[t], ok) ==> WriterFree(st))
      && (WantsMutex(st.threads[t], ok) ==> MutexFree(st))
  }

  /** What one step of a thread leaves behind. */
  datatype Delta = Delta(thread: Thread, db: Db, entries: Entries, event: Option<Event>)

  function NewEntry(th: Thread): Entry
    requires th.Start?
  {
    Entry(th.client, th.user, th.system, th.clock + FLOW_TTL, None, None, false)
  }

  function StepStart(st: State, th: Thread, ok: bool, n: int): Delta
    requires th.Start?
  {
    var same := Delta(th, st.db, st.entries, None);
    match th.spc
    case SCheck =>
      same.(thread := if ok && CanEnter(st.db, th.user, th.system) && MayUseMailboxes(st.db, th.user)
                      then th.(spc := SQueue, clock := st.now) else th.(spc := SDone))
    case SQueue => same.(thread := th.(spc := if ok then SWriter else SDone))
    case SWriter =>
      same.(thread := th.(spc :=
        if ok && !th.cancelled && CanEnter(st.db, th.user, th.system) && MayUseMailboxes(st.db, th.user)
        then SPut else SDone))
    case SPut =>
      var (entries, stored) := AfterPut(st.entries, th.handle, NewEntry(th), th.clock);
      same.(thread := th.(spc := if stored then SCommit else SDone),
            entries := entries,
            event := if stored then Some(Registered(th.handle, th.user, th.system)) else None)
    case SCommit =>
      var committed := ok && !th.cancelled;
      same.(thread := th.(spc := if committed then SDevice else SDone),
            event := if committed then Some(Started(th.handle)) else None)
    case SDevice =>
      if ok then same.(thread := th.(spc := SReschedule))
      else same.(thread := th.(spc := SDone), entries := AfterDelete(st.entries, th.handle))
    case SReschedule =>
      var expiry := if n < th.clock + FLOW_TTL then n else th.clock + FLOW_TTL;
      same.(thread := th.(spc := SPoll), entries := AfterReschedule(st.entries, th.handle, expiry))
    case SPoll =>
      same.(thread := th.(spc := SDone),
            entries := AfterFinish(st.entries, th.handle, if ok then Some(n) else None, if ok then None else Some(n)),
            event := Some(Polled(th.handle, if ok then Some(n) else None)))
    case SDone => same
  }

  function StepComplete(st: State, t: Tid, th: Thread, ok: bool, n: int): Delta
    requires th.Complete?
  {
    var same := Delta(th, st.db, st.entries, None);
    match th.cpc
    case CCheck =>
      same.(thread := th.(cpc := if ok && CanEnter(st.db, th.user, th.system) && MayUseMailboxes(st.db, th.user)
                                 then CBegin else CDone))
    case CBegin =>
      var (entries, r) := AfterBegin(st.entries, th.handle, n, th.user, th.system);
      same.(thread := th.(cpc := if r.Ready? then CClaimed(r.entry) else CDone), entries := entries)
    case CClaimed(entry) =>
      if entry.clientId == "" then same.(thread := th.(cpc := CRelease))
      else if entry.err.Some? then same.(thread := th.(cpc := CRelease), entries := AfterDelete(st.entries, th.handle))
      else same.(thread := th.(cpc := if ok then CWriter else CRelease))
    case CWriter =>
      same.(thread := th.(cpc :=
        if ok && !th.cancelled && CanEnter(st.db, th.user, th.system) && (th.account || MayUseMailboxes(st.db, th.user))
        then CVerify else CRelease))
    case CVerify => same.(thread := th.(cpc := if th.handle in st.entries then CCommit else CRelease))
    case CCommit =>
      if ok && !th.cancelled
      then same.(thread := th.(cpc := CConsume), event := Some(Completed(t, th.handle, th.user, th.system)))
      else same.(thread := th.(cpc := CRelease))
    case CConsume => same.(thread := th.(cpc := CRelease), entries := AfterDelete(st.entries, th.handle))
    case CRelease => same.(thread := th.(cpc := CDone), entries := AfterRelease(st.entries, th.handle))
    case CDone => same
  }

  function StepUpdater(st: State, t: Tid, th: Thread, ok: bool): Delta
    requires th.Updater?
  {
    var same := Delta(th, st.db, st.entries, None);
    match th.upc
    case UQueue => same.(thread := th.(upc := if ok then UWriter else UDone))
    case UWriter =>
      var s := Stage(st.db, th.update);
      same.(thread := th.(upc := if ok && !th.cancelled && s.Staged? then UReady(s.db, s.targets) else UDone))
    case UReady(db, targets) =>
      if targets != {} then same.(thread := th.(upc := ULocked(db, targets)))
      else same.(thread := th.(upc := UDone), db := if ok && !th.cancelled then db else st.db)
    case ULocked(db, targets) =>
      if ok && !th.cancelled
      then same.(thread := th.(upc := UInvalidate(targets, |st.log|)), db := db, event := Some(Revoked(t, targets)))
      else same.(thread := th.(upc := UUnlock))
    case UInvalidate(targets, commit) =>
      var entries := InvalidateAll(st.entries, targets);
      same.(thread := th.(upc := UUnlock), entries := entries,
            event := Some(Invalidated(t, st.entries.Keys - entries.Keys)))
    case UUnlock => same.(thread := th.(upc := UDone))
    case UDone => same
  }

  function Step(st: State, t: Tid, ok: bool, n: int): Delta
    requires t in st.threads
  {
    var th := st.threads[t];
    if th.Start? then StepStart(st, th, ok, n)
    else if th.Complete? then StepComplete(st, t, th, ok, n)
    else StepUpdater(st, t, th, ok)
  }

  function Logged(log: seq<Event>, event: Option<Event>): seq<Event> {
    if event.Some? then log + [event.value] else log
  }

  function Apply(st: State, a: Action): State
    requires Enabled(st, a)
  {
    match a
    case Arrive(t, th) =>
      st.(threads := st.threads[t := th], issued := if th.Start? then st.issued + {th.handle} else st.issued)
    case Tick(to) => st.(now := to)
    case Cancel(t) => st.(threads := st.threads[t := st.threads[t].(cancelled := true)])
    case Go(t, ok, n) =>
      var d := Step(st, t, ok, n);
      st.(db := d.db, entries := d.entries, threads := st.threads[t := d.thread], log := Logged(st.log, d.event))
  }

  ghost predicate Init(st: State) {
    st.entries == map[] && st.threads == map[] && st.issued == {} && st.log == []
  }

  /** The actions can be taken one after another from `st`. */
  ghost predicate CanRun(st: State, actions: seq<Action>)
    decreases |actions|
  {
    actions == [] || (Enabled(st, actions[0]) && CanRun(Apply(st, actions[0]), actions[1..]))
  }

  ghost function Run(st: State, actions: seq<Action>): State
    requires CanRun(st, actions)
    decreases |actions|
  {
    if actions == [] then st else Run(Apply(st, actions[0]), actions[1..])
  }
}
