/**
 Retrying an upload under an idempotency key: within 30 days the stored answer
 stands for as long as its document does, and a retry writes nothing. Beside it, the
 outbox: each inserted document has exactly one post-ingest job.
 */
module UploadReplay {
  import opened Options
  import opened Documents
  import opened DocumentStructure

  /** The foreign key of upload_idempotency. */
  predicate RowsRefer(db: Db) {
    forall slot :: slot in db.idem ==> db.idem[slot].doc in db.docs
  }

  /** The action is an upload under this user and key. */
  predicate Keyed(a: Action, slot: Slot) {
    (a.Upload? || a.Version?) && a.r.key == Some(slot.1) && a.r.user == slot.0
  }

  function OperationOf(a: Action): Operation
    requires a.Upload? || a.Version?
  {
    if a.Upload? then NewDocument else NewVersion(a.prev)
  }

  predicate Settled(out: Outcome) {
    out.Deduplicated? || out.Restored? || out.Created? || out.Recovered?
  }

  /** Nothing but the idempotency table changed. */
  predicate WroteNothing(db: Db, db': Db) {
    db' == db.(idem := db'.idem)
  }

  /** The request may be answered at all: its caller is current, or may change a predecessor that is live. */
  predicate Admitted(db: Db, a: Action)
    requires a.Upload? || a.Version?
  {
    if a.Upload? then a.access.current else Live(db.docs, a.prev) && a.access.change(a.prev)
  }

  /** The stored document is within the caller's sight: in the system of an upload, or live for a version. */
  predicate InSight(db: Db, a: Action, doc: nat)
    requires a.Upload? || a.Version?
  {
    doc in db.docs && a.access.view(doc)
    && if a.Upload? then db.docs[doc].system == a.r.system else Live(db.docs, doc)
  }

  /** What a retry gets: a conflict for another operation or fingerprint, else the document if it is in sight. */
  function AnswerFor(db: Db, a: Action, row: Stored): Outcome
    requires a.Upload? || a.Version?
  {
    if !Admitted(db, a) then Refused
    else if !Fits(row, OperationOf(a), a.r) then Conflict
    else if InSight(db, a, row.doc) then Replayed(row.doc)
    else Refused
  }

  // ---------- one step ----------

  /** A settled keyed upload leaves its answer in the table. */
  lemma SettledIsStored(s: State, a: Action, s': State, slot: Slot)
    requires Step(s, a, s') && Keyed(a, slot) && Settled(a.out)
    ensures slot in s'.db.idem
    ensures s'.db.idem[slot] == Stored(OperationOf(a), a.r.fingerprint, a.out.doc, s.now)
  {
    match a
    case Upload(r, access, out) => UploadEffect(s.db, r, access, s.now, out, s'.db);
    case Version(r, access, prev, family, out) => VersionEffect(s.db, r, access, prev, family, s.now, out, s'.db);
    case _ =>
  }

  /** While the row is there, the same key is answered from it and writes nothing. */
  lemma StoredAnswers(s: State, a: Action, s': State, slot: Slot)
    requires Step(s, a, s') && Keyed(a, slot)
    requires slot in s.db.idem && s.now <= s.db.idem[slot].at + RETENTION
    ensures s.db.idem[slot].doc in s.db.docs ==> a.out == AnswerFor(s.db, a, s.db.idem[slot])
    ensures WroteNothing(s.db, s'.db)
    ensures slot in s'.db.idem && s'.db.idem[slot] == s.db.idem[slot]
  {
    var idem := AfterExpiry(s.db.idem, a.r.key, s.now);
    assert slot in idem && idem[slot] == s.db.idem[slot];
    assert HasRow(idem, a.r) && RowOf(idem, a.r) == idem[slot];
  }

  /** New rows come with a new id, and the counter never goes back. */
  lemma NewRowsAreNew(s: State, a: Action, s': State)
    requires Step(s, a, s')
    ensures s.db.nextId <= s'.db.nextId && s.now <= s'.now
    ensures forall id :: id in s'.db.docs && id !in s.db.docs ==>
      id == s.db.nextId && (a.Upload? || a.Version?) && a.out == Created(id)
  {
    match a
    case Upload(r, access, out) => UploadEffect(s.db, r, access, s.now, out, s'.db);
    case Version(r, access, prev, family, out) => VersionEffect(s.db, r, access, prev, family, s.now, out, s'.db);
    case _ =>
  }

  lemma RowsReferUpload(s: State, a: Action, s': State)
    requires RowsRefer(s.db) && Step(s, a, s') && (a.Upload? || a.Version?)
    ensures RowsRefer(s'.db)
  {
    match a
    case Upload(r, access, out) => UploadEffect(s.db, r, access, s.now, out, s'.db);
    case Version(r, access, prev, family, out) => VersionEffect(s.db, r, access, prev, family, s.now, out, s'.db);
  }

  lemma RowsReferStep(s: State, a: Action, s': State)
    requires RowsRefer(s.db) && Step(s, a, s')
    ensures RowsRefer(s'.db)
  {
    if a.Upload? || a.Version? {
      RowsReferUpload(s, a, s');
    }
  }

  /** A row outlasts a step if it has not expired and its document is still there. */
  lemma RowPersists(s: State, a: Action, s': State, slot: Slot)
    requires RowsRefer(s.db) && Step(s, a, s') && slot in s.db.idem
    requires s'.now <= s.db.idem[slot].at + RETENTION && s.db.idem[slot].doc in s'.db.docs
    ensures slot in s'.db.idem && s'.db.idem[slot] == s.db.idem[slot]
  {
    if Keyed(a, slot) {
      StoredAnswers(s, a, s', slot);
    } else if a.Upload? || a.Version? {
      OtherKeyLeavesRow(s, a, s', slot);
    }
  }

  lemma OtherKeyLeavesRow(s: State, a: Action, s': State, slot: Slot)
    requires Step(s, a, s') && (a.Upload? || a.Version?) && !Keyed(a, slot)
    requires slot in s.db.idem && s.now <= s.db.idem[slot].at + RETENTION
    ensures slot in s'.db.idem && s'.db.idem[slot] == s.db.idem[slot]
  {
    match a
    case Upload(r, access, out) => UploadEffect(s.db, r, access, s.now, out, s'.db);
    case Version(r, access, prev, family, out) => VersionEffect(s.db, r, access, prev, family, s.now, out, s'.db);
  }

  // ---------- runs ----------

  lemma {:induction false} RowsReferHolds(states: seq<State>, actions: seq<Action>, k: nat)
    requires IsRun(states, actions) && RowsRefer(states[0].db) && k < |states|
    ensures RowsRefer(states[k].db)
  {
    if k > 0 {
      RowsReferHolds(states, actions, k - 1);
      RowsReferStep(states[k - 1], actions[k - 1], states[k]);
    }
  }

  lemma {:induction false} CountersGrow(states: seq<State>, actions: seq<Action>, i: nat, j: nat)
    requires IsRun(states, actions) && i <= j < |states|
    ensures states[i].db.nextId <= states[j].db.nextId && states[i].now <= states[j].now
    decreases j
  {
    if i < j {
      CountersGrow(states, actions, i, j - 1);
      NewRowsAreNew(states[j - 1], actions[j - 1], states[j]);
    }
  }

  ghost predicate Sound(states: seq<State>, actions: seq<Action>) {
    IsRun(states, actions) && Structure(states[0].db) && RowsRefer(states[0].db)
  }

  /** An id that was in use does not come back, so a document that is there was there all along. */
  lemma NeverReborn(states: seq<State>, actions: seq<Action>, i: nat, j: nat, id: nat)
    requires IsRun(states, actions) && Structure(states[0].db) && i < j < |states|
    requires id in states[i].db.docs && id in states[j].db.docs
    ensures id in states[j - 1].db.docs && states[j - 1].now <= states[j].now
  {
    UsedIdsStayBelow(states, actions, i, j - 1, id);
    NewRowsAreNew(states[j - 1], actions[j - 1], states[j]);
  }

  lemma UsedIdsStayBelow(states: seq<State>, actions: seq<Action>, i: nat, j: nat, id: nat)
    requires IsRun(states, actions) && Structure(states[0].db) && i <= j < |states| && id in states[i].db.docs
    ensures id < states[j].db.nextId
  {
    StructureHolds(states, actions, i);
    assert RowOk(states[i].db, id, states[i].db.docs[id]);
    CountersGrow(states, actions, i, j);
  }

  /** Up to its 30th day a stored answer is there exactly as long as its document is. */
  lemma {:induction false} AnswerLivesWithDocument(states: seq<State>, actions: seq<Action>, i: nat, j: nat, slot: Slot)
    requires Sound(states, actions) && i <= j < |states|
    requires slot in states[i].db.idem && states[j].now <= states[i].db.idem[slot].at + RETENTION
    ensures var row := states[i].db.idem[slot]; var idem := states[j].db.idem;
      (slot in idem && idem[slot] == row) <==> row.doc in states[j].db.docs
    decreases j
  {
    RowsReferHolds(states, actions, i);
    RowsReferHolds(states, actions, j);
    var row := states[i].db.idem[slot];
    if i < j && row.doc in states[j].db.docs {
      NeverReborn(states, actions, i, j, row.doc);
      AnswerLivesWithDocument(states, actions, i, j - 1, slot);
      RowsReferHolds(states, actions, j - 1);
      RowPersists(states[j - 1], actions[j - 1], states[j], slot);
    }
  }

  /**
   The first settled upload under a key decides: every later one within 30 days is
   answered from it, and writes no document, source or job row, as long as that
   document has not been purged. An admitted one conflicts exactly when its operation
   or fingerprint differ, and replays exactly when they agree and the document is in sight.
   */
  lemma RetriesAreAnswered(states: seq<State>, actions: seq<Action>, i: nat, j: nat, slot: Slot)
    requires Sound(states, actions) && i < j < |actions|
    requires Keyed(actions[i], slot) && Settled(actions[i].out) && Keyed(actions[j], slot)
    requires states[j].now <= states[i].now + RETENTION && actions[i].out.doc in states[j].db.docs
    ensures var first, retry := actions[i], actions[j];
      retry.out == AnswerFor(states[j].db, retry, Stored(OperationOf(first), first.r.fingerprint, first.out.doc, states[i].now))
    ensures WroteNothing(states[j].db, states[j + 1].db)
  {
    SettledIsStored(states[i], actions[i], states[i + 1], slot);
    AnswerLivesWithDocument(states, actions, i + 1, j, slot);
    StoredAnswers(states[j], actions[j], states[j + 1], slot);
  }

  // ---------- the proviso is needed ----------

  const RETRIED := Request(1, 1, 7, Some(9), 3, 0)

  /** An archive without documents, whose next id is `next`. */
  function Bare(next: nat): Db {
    Db(map[], next, map[], {}, multiset{}, multiset{}, map[])
  }

  lemma BareInsert(db: Db, next: nat)
    requires db.docs == map[] && db.idem == map[] && db.nextId == next
    ensures UploadStep(db, RETRIED, FULL_ACCESS, 0, Created(next), Inserted(db, RETRIED, 0))
  {
    assert FreshUpload(db, RETRIED, 0, Created(next), Inserted(db, RETRIED, 0));
  }

  lemma TrashAndPurge(db: Db, gone: Db)
    requires db == Inserted(Bare(1), RETRIED, 0)
    requires gone == SoftDeleted(db, true, 1, 0)
    ensures var purged := Purged(gone, PurgeCandidates(gone, 1, [1]));
      purged.docs == map[] && purged.idem == map[] && purged.nextId == 2
  {
    assert 1 in PurgeCandidates(gone, 1, [1]);
  }

  lemma TwoSteps(s0: State, a0: Action, s1: State, a1: Action, s2: State)
    requires Step(s0, a0, s1) && Step(s1, a1, s2)
    ensures IsRun([s0, s1, s2], [a0, a1])
  {
  }

  lemma RunsJoin(states: seq<State>, actions: seq<Action>, states': seq<State>, actions': seq<Action>)
    requires IsRun(states, actions) && IsRun(states', actions') && states[|actions|] == states'[0]
    ensures IsRun(states + states'[1..], actions + actions')
  {
    var all, acts := states + states'[1..], actions + actions';
    forall i | 0 <= i < |acts| ensures Step(all[i], acts[i], all[i + 1]) {
      if i < |actions| {
        assert Step(states[i], actions[i], states[i + 1]);
      } else {
        var k := i - |actions|;
        assert Step(states'[k], actions'[k], states'[k + 1]);
        assert all[i + 1] == states'[k + 1];
      }
    }
  }

  /** Purging the document takes the stored answer along, and the same request inserts again. */
  lemma PurgeForgetsTheKey()
    ensures exists states: seq<State>, actions: seq<Action> ::
      && Sound(states, actions) && |actions| == 4 && states[4].now == states[0].now
      && actions[0] == Upload(RETRIED, FULL_ACCESS, Created(1))
      && actions[3] == Upload(RETRIED, FULL_ACCESS, Created(2))
  {
    var d1 := Inserted(Bare(1), RETRIED, 0);
    var d2 := SoftDeleted(d1, true, 1, 0);
    var d3 := Purged(d2, PurgeCandidates(d2, 1, [1]));
    var d4 := Inserted(d3, RETRIED, 0);
    BareInsert(Bare(1), 1);
    TrashAndPurge(d1, d2);
    BareInsert(d3, 2);
    var a0, a1 := Upload(RETRIED, FULL_ACCESS, Created(1)), SoftDelete(true, 1);
    var a2, a3 := PurgeIds(true, 1, [1]), Upload(RETRIED, FULL_ACCESS, Created(2));
    assert Step(State(Bare(1), 0), a0, State(d1, 0)) && Step(State(d3, 0), a3, State(d4, 0));
    var s0, s2, s4 := State(Bare(1), 0), State(d2, 0), State(d4, 0);
    TwoSteps(s0, a0, State(d1, 0), a1, s2);
    TwoSteps(s2, a2, State(d3, 0), a3, s4);
    FourInARow([s0, State(d1, 0), s2], [a0, a1], [s2, State(d3, 0), s4], [a2, a3]);
  }

  lemma FourInARow(states: seq<State>, actions: seq<Action>, states': seq<State>, actions': seq<Action>)
    requires IsRun(states, actions) && IsRun(states', actions') && |actions| == |actions'| == 2
    requires states[2] == states'[0] && Structure(states[0].db) && RowsRefer(states[0].db) && states[0].now == states'[2].now
    ensures exists all: seq<State>, acts: seq<Action> ::
      Sound(all, acts) && |acts| == 4 && all[4].now == all[0].now && acts[0] == actions[0] && acts[3] == actions'[1]
  {
    RunsJoin(states, actions, states', actions');
    var all, acts := states + states'[1..], actions + actions';
    assert Sound(all, acts) && |acts| == 4 && all[4].now == all[0].now && acts[0] == actions[0] && acts[3] == actions'[1];
  }

  // ---------- the outbox ----------

  /** Post-ingest job rows that a step adds for a document. */
  function Added(db: Db, db': Db, id: nat): nat {
    if db'.ingests[id] > db.ingests[id] then db'.ingests[id] - db.ingests[id] else 0
  }

  /** One if a step inserts the document. */
  function Inserts(db: Db, db': Db, id: nat): nat {
    if id !in db.docs && id in db'.docs then 1 else 0
  }

  lemma UploadEnqueues(s: State, a: Action, s': State, id: nat)
    requires Structure(s.db) && Step(s, a, s') && (a.Upload? || a.Version?)
    ensures Added(s.db, s'.db, id) == Inserts(s.db, s'.db, id)
  {
    var n := s.db.nextId;
    assert n in s.db.docs ==> RowOk(s.db, n, s.db.docs[n]);
    match a
    case Upload(r, access, out) => UploadEffect(s.db, r, access, s.now, out, s'.db);
    case Version(r, access, prev, family, out) => VersionEffect(s.db, r, access, prev, family, s.now, out, s'.db);
  }

  /** A transaction adds a post-ingest job for exactly the document it inserts. */
  lemma InsertEnqueues(s: State, a: Action, s': State, id: nat)
    requires Structure(s.db) && Step(s, a, s')
    ensures Added(s.db, s'.db, id) == Inserts(s.db, s'.db, id)
  {
    if a.Upload? || a.Version? {
      UploadEnqueues(s, a, s', id);
    }
  }

  /** How many post-ingest jobs the first k steps add for a document. */
  function AddedBy(states: seq<State>, k: nat, id: nat): nat
    requires k < |states|
  {
    if k == 0 then 0 else AddedBy(states, k - 1, id) + Added(states[k - 1].db, states[k].db, id)
  }

  /** How often the first k steps insert it. */
  function InsertsBy(states: seq<State>, k: nat, id: nat): nat
    requires k < |states|
  {
    if k == 0 then 0 else InsertsBy(states, k - 1, id) + Inserts(states[k - 1].db, states[k].db, id)
  }

  lemma {:induction false} InsertedOnce(states: seq<State>, actions: seq<Action>, k: nat, id: nat)
    requires IsRun(states, actions) && Structure(states[0].db) && k < |states|
    ensures InsertsBy(states, k, id) <= 1
    ensures InsertsBy(states, k, id) == 1 || id in states[0].db.docs ==> id < states[k].db.nextId
    ensures id in states[0].db.docs ==> InsertsBy(states, k, id) == 0
  {
    StructureHolds(states, actions, k);
    assert id in states[k].db.docs ==> RowOk(states[k].db, id, states[k].db.docs[id]);
    if k > 0 {
      InsertedOnce(states, actions, k - 1, id);
      NewRowsAreNew(states[k - 1], actions[k - 1], states[k]);
    }
  }

  /**
   Over a run, whatever workers finish and prune meanwhile: the steps add post-ingest jobs for
   a document exactly as often as they insert it, each in the inserting transaction, and they
   insert it at most once.
   */
  lemma {:induction false} EachInsertHasOneJob(states: seq<State>, actions: seq<Action>, k: nat, id: nat)
    requires IsRun(states, actions) && Structure(states[0].db) && k < |states|
    ensures AddedBy(states, k, id) == InsertsBy(states, k, id) <= 1
    ensures forall i :: 0 <= i < k ==> Added(states[i].db, states[i + 1].db, id) == Inserts(states[i].db, states[i + 1].db, id)
  {
    InsertedOnce(states, actions, k, id);
    if k > 0 {
      EachInsertHasOneJob(states, actions, k - 1, id);
      StructureHolds(states, actions, k - 1);
      InsertEnqueues(states[k - 1], actions[k - 1], states[k], id);
    }
  }
}
