/**
 How many copies of the same bytes an owner has in a system: never two live ones,
 and, but for two named cases, never two that are live or could still be recovered.
 */
module DocumentUniqueness {
  import opened Options
  import opened Documents
  import opened DocumentStructure

  predicate Active(doc: Doc, now: int) {
    doc.trashedAt.None? || InWindow(doc, now)
  }

  predicate ActiveUnique(docs: Docs, now: int) {
    forall a, b :: a in docs && b in docs && Active(docs[a], now) && Active(docs[b], now) ==>
      SameContent(docs[a], docs[b]) ==> a == b
  }

  // ---------- live copies ----------

  /** Whatever is live afterwards was live before, with the same content. */
  lemma LiveShrinks(docs: Docs, docs': Docs)
    requires LiveUnique(docs)
    requires forall id :: Live(docs', id) ==> Live(docs, id) && SameContent(docs'[id], docs[id])
    ensures LiveUnique(docs')
  {
    forall a, b | Live(docs', a) && Live(docs', b) && SameContent(docs'[a], docs'[b]) ensures a == b {
      assert Live(docs, a) && Live(docs, b) && SameContent(docs[a], docs[b]);
    }
  }

  /** One document becomes live, and no other live one holds its content. */
  lemma LiveGrows(docs: Docs, docs': Docs, added: nat)
    requires LiveUnique(docs)
    requires forall id :: Live(docs', id) && id != added ==> Live(docs, id) && SameContent(docs'[id], docs[id])
    requires Live(docs', added)
    requires forall id :: Live(docs, id) && id != added ==> !SameContent(docs[id], docs'[added])
    ensures LiveUnique(docs')
  {
    forall a, b | Live(docs', a) && Live(docs', b) && SameContent(docs'[a], docs'[b]) ensures a == b {
      assert a != added ==> Live(docs, a);
      assert b != added ==> Live(docs, b);
      assert a != added && b != added ==> SameContent(docs[a], docs[b]);
    }
  }

  lemma UploadKeepsLive(db: Db, r: Request, access: Access, now: int, out: Outcome, db': Db)
    requires LiveUnique(db.docs) && UploadStep(db, r, access, now, out, db')
    ensures LiveUnique(db'.docs)
  {
    UploadEffect(db, r, access, now, out, db');
    if out.Created? || out.Restored? {
      forall id | Live(db.docs, id) && id != out.doc ensures !SameContent(db.docs[id], db'.docs[out.doc]) {
        assert !LiveCopy(db.docs, r.system, r.user, r.blob, id);
      }
      LiveGrows(db.docs, db'.docs, out.doc);
    }
  }

  lemma VersionKeepsLive(db: Db, r: Request, access: Access, prev: nat, freshFamily: nat, now: int, out: Outcome, db': Db)
    requires LiveUnique(db.docs) && VersionStep(db, r, access, prev, freshFamily, now, out, db')
    ensures LiveUnique(db'.docs)
  {
    VersionEffect(db, r, access, prev, freshFamily, now, out, db');
    if out.Created? {
      forall id | Live(db.docs, id) && id != out.doc ensures !SameContent(db.docs[id], db'.docs[out.doc]) {
        assert !LiveCopy(db.docs, db.docs[prev].system, db.docs[prev].owner, r.blob, id);
      }
      LiveGrows(db.docs, db'.docs, out.doc);
    }
  }

  /** The other transactions add no row and give none back its life. */
  predicate Quiet(a: Action) {
    !a.Upload? && !a.Version? && !a.Restore? && !a.BulkRestore?
  }

  predicate OnlyTrashes(docs: Docs, docs': Docs, now: int) {
    && docs'.Keys <= docs.Keys
    && forall id :: id in docs' ==>
        && SameContent(docs'[id], docs[id])
        && (docs'[id].trashedAt == docs[id].trashedAt || (docs[id].trashedAt.None? && docs'[id].trashedAt == Some(now)))
  }

  lemma QuietOnlyTrashes(s: State, a: Action, s': State)
    requires Quiet(a) && Step(s, a, s')
    ensures OnlyTrashes(s.db.docs, s'.db.docs, s.now) && s.now <= s'.now
  {
    match a
    case PurgeIds(_, system, ids) => PurgeOnlyTrashes(s.db, PurgeCandidates(s.db, system, ids), s.now);
    case PurgeExpired(seen) => PurgeOnlyTrashes(s.db, ExpiredCandidates(s.db, seen), s.now);
    case Patch(allowed, id, edit) => PatchOnlyTrashes(s.db, allowed, id, edit, s.now);
    case _ =>
  }

  lemma PurgeOnlyTrashes(db: Db, gone: set<nat>, now: int)
    ensures OnlyTrashes(db.docs, Purged(db, gone).docs, now)
  {
  }

  lemma PatchOnlyTrashes(db: Db, allowed: bool, id: nat, edit: Edit, now: int)
    ensures OnlyTrashes(db.docs, Patched(db, allowed, id, edit).docs, now)
  {
  }

  lemma LiveUniqueStep(s: State, a: Action, s': State)
    requires LiveUnique(s.db.docs) && Step(s, a, s')
    ensures LiveUnique(s'.db.docs)
  {
    match a
    case Upload(r, access, out) => UploadKeepsLive(s.db, r, access, s.now, out, s'.db);
    case Version(r, access, prev, family, out) => VersionKeepsLive(s.db, r, access, prev, family, s.now, out, s'.db);
    case Restore(allowed, id, seen) =>
      if RestoreApplies(s.db, allowed, id, seen) {
        LiveGrows(s.db.docs, s'.db.docs, id);
      }
    case BulkRestore(allowed, ids) =>
    case _ =>
      QuietOnlyTrashes(s, a, s');
      LiveShrinks(s.db.docs, s'.db.docs);
  }

  /** No run, version uploads and late restores included, has two live copies. */
  lemma {:induction false} OneLiveCopy(states: seq<State>, actions: seq<Action>, k: nat)
    requires IsRun(states, actions) && LiveUnique(states[0].db.docs) && k < |states|
    ensures LiveUnique(states[k].db.docs)
  {
    if k > 0 {
      OneLiveCopy(states, actions, k - 1);
      LiveUniqueStep(states[k - 1], actions[k - 1], states[k]);
    }
  }

  // ---------- live or recoverable copies ----------

  predicate OtherActive(docs: Docs, now: int, doc: Doc, id: nat) {
    exists n :: n in docs && n != id && Active(docs[n], now) && SameContent(docs[n], doc)
  }

  /** A trashed document with this content can still be recovered. */
  predicate RecoverableElsewhere(docs: Docs, now: int, system: nat, owner: nat, blob: nat) {
    exists n :: n in docs && TrashedCopy(docs, system, owner, blob, n) && InWindow(docs[n], now)
  }

  /**
   Read off the state before the step. A version upload that will insert brings no second
   copy if no trashed document with its bytes can still be recovered; a restore that will
   apply brings none if its document is still in its window when it commits, or has no
   active copy beside it.
   */
  ghost predicate Harmless(s: State, a: Action) {
    match a
    case Version(r, access, prev, _, _) =>
      VersionCreates(s.db, r, access, prev, s.now) ==>
        !RecoverableElsewhere(s.db.docs, s.now, s.db.docs[prev].system, s.db.docs[prev].owner, r.blob)
    case Restore(allowed, id, seen) =>
      RestoreApplies(s.db, allowed, id, seen) ==>
        InWindow(s.db.docs[id], s.now) || !OtherActive(s.db.docs, s.now, s.db.docs[id], id)
    case _ => true
  }

  lemma ActiveShrinks(docs: Docs, now: int, docs': Docs, now': int)
    requires ActiveUnique(docs, now)
    requires forall id :: id in docs' && Active(docs'[id], now') ==>
      id in docs && Active(docs[id], now) && SameContent(docs'[id], docs[id])
    ensures ActiveUnique(docs', now')
  {
  }

  /** Exactly: one document becomes active, and all is well unless another active one holds its content. */
  lemma ActiveGrows(docs: Docs, docs': Docs, now: int, added: nat)
    requires ActiveUnique(docs, now)
    requires added in docs' && Active(docs'[added], now)
    requires forall id :: id != added ==>
      (id in docs' && Active(docs'[id], now) <==> id in docs && Active(docs[id], now))
    requires forall id :: id != added && id in docs && id in docs' ==> SameContent(docs'[id], docs[id])
    ensures ActiveUnique(docs', now) <==> !OtherActive(docs, now, docs'[added], added)
  {
    if OtherActive(docs, now, docs'[added], added) {
      var n :| n in docs && n != added && Active(docs[n], now) && SameContent(docs[n], docs'[added]);
      assert n in docs' && Active(docs'[n], now) && SameContent(docs'[n], docs'[added]);
    } else {
      forall a, b | a in docs' && b in docs' && Active(docs'[a], now) && Active(docs'[b], now)
        && SameContent(docs'[a], docs'[b])
        ensures a == b
      {
        assert a != added ==> a in docs && Active(docs[a], now);
        assert b != added ==> b in docs && Active(docs[b], now);
      }
    }
  }

  lemma InsertKeepsActive(db: Db, r: Request, now: int)
    requires Structure(db) && ActiveUnique(db.docs, now)
    requires forall n: nat :: !LiveCopy(db.docs, r.system, r.user, r.blob, n)
    requires forall n: nat :: !RecoverableCopy(db.docs, r, now, n)
    ensures ActiveUnique(Inserted(db, r, now).docs, now)
  {
    var docs, docs' := db.docs, Inserted(db, r, now).docs;
    forall n | n in docs && Active(docs[n], now) ensures !SameContent(docs[n], docs'[db.nextId]) {
      assert !LiveCopy(docs, r.system, r.user, r.blob, n) && !RecoverableCopy(docs, r, now, n);
    }
    ActiveGrows(docs, docs', now, db.nextId);
  }

  lemma UploadKeepsActive(s: State, r: Request, access: Access, out: Outcome, s': State)
    requires Structure(s.db) && ActiveUnique(s.db.docs, s.now)
    requires UploadStep(s.db, r, access, s.now, out, s'.db) && s'.now == s.now
    ensures ActiveUnique(s'.db.docs, s'.now)
  {
    UploadEffect(s.db, r, access, s.now, out, s'.db);
    if out.Created? {
      InsertKeepsActive(s.db, r, s.now);
    } else if out.Restored? {
      ActiveShrinks(s.db.docs, s.now, s'.db.docs, s'.now);
    }
  }

  lemma OtherActiveIsRecoverable(db: Db, now: int, doc: Doc, id: nat)
    requires id !in db.docs && forall n: nat :: !LiveCopy(db.docs, doc.system, doc.owner, doc.blob, n)
    ensures OtherActive(db.docs, now, doc, id) <==> RecoverableElsewhere(db.docs, now, doc.system, doc.owner, doc.blob)
  {
    var docs := db.docs;
    if OtherActive(docs, now, doc, id) {
      var n :| n in docs && n != id && Active(docs[n], now) && SameContent(docs[n], doc);
      assert !LiveCopy(docs, doc.system, doc.owner, doc.blob, n);
      assert TrashedCopy(docs, doc.system, doc.owner, doc.blob, n);
    }
    if RecoverableElsewhere(docs, now, doc.system, doc.owner, doc.blob) {
      var n :| n in docs && TrashedCopy(docs, doc.system, doc.owner, doc.blob, n) && InWindow(docs[n], now);
      assert Active(docs[n], now) && SameContent(docs[n], doc);
    }
  }

  lemma VersionActiveExactly(s: State, r: Request, access: Access, prev: nat, freshFamily: nat, out: Outcome, s': State)
    requires Structure(s.db) && ActiveUnique(s.db.docs, s.now)
    requires VersionStep(s.db, r, access, prev, freshFamily, s.now, out, s'.db) && s'.now == s.now
    ensures ActiveUnique(s'.db.docs, s'.now) <==> Harmless(s, Version(r, access, prev, freshFamily, out))
  {
    var docs, docs' := s.db.docs, s'.db.docs;
    VersionEffect(s.db, r, access, prev, freshFamily, s.now, out, s'.db);
    VersionCreatesExactly(s.db, r, access, prev, freshFamily, s.now, out, s'.db);
    if out.Created? {
      assert out.doc in docs ==> RowOk(s.db, out.doc, docs[out.doc]);
      ActiveGrows(docs, docs', s.now, out.doc);
      OtherActiveIsRecoverable(s.db, s.now, docs'[out.doc], out.doc);
    }
  }

  lemma RestoreActiveExactly(s: State, allowed: bool, id: nat, seen: int, s': State)
    requires ActiveUnique(s.db.docs, s.now)
    requires s'.db == RestoreOne(s.db, allowed, id, seen) && s'.now == s.now
    ensures ActiveUnique(s'.db.docs, s'.now) <==> Harmless(s, Restore(allowed, id, seen))
  {
    var docs, docs' := s.db.docs, s'.db.docs;
    if RestoreApplies(s.db, allowed, id, seen) {
      ActiveGrows(docs, docs', s.now, id);
      if InWindow(docs[id], s.now) {
        assert !OtherActive(docs, s.now, docs[id], id);
      }
      assert forall d: Doc :: SameContent(d, docs'[id]) == SameContent(d, docs[id]);
    }
  }

  lemma ActiveStepExactly(s: State, a: Action, s': State)
    requires Structure(s.db) && ActiveUnique(s.db.docs, s.now) && Step(s, a, s')
    ensures ActiveUnique(s'.db.docs, s'.now) <==> Harmless(s, a)
  {
    match a
    case Upload(r, access, out) => UploadKeepsActive(s, r, access, out, s');
    case Version(r, access, prev, family, out) => VersionActiveExactly(s, r, access, prev, family, out, s');
    case Restore(allowed, id, seen) => RestoreActiveExactly(s, allowed, id, seen, s');
    case BulkRestore(allowed, ids) => ActiveShrinks(s.db.docs, s.now, s'.db.docs, s'.now);
    case _ =>
      QuietOnlyTrashes(s, a, s');
      ActiveShrinks(s.db.docs, s.now, s'.db.docs, s'.now);
  }

  /** A run stays free of second copies exactly as long as each of its steps is harmless. */
  lemma {:induction false} ActiveRunExactly(states: seq<State>, actions: seq<Action>, k: nat)
    requires IsRun(states, actions) && k < |states|
    requires Structure(states[0].db) && ActiveUnique(states[0].db.docs, states[0].now)
    ensures (forall i :: 0 <= i <= k ==> ActiveUnique(states[i].db.docs, states[i].now))
      <==> (forall i :: 0 <= i < k ==> Harmless(states[i], actions[i]))
  {
    if k > 0 {
      ActiveRunExactly(states, actions, k - 1);
      StructureHolds(states, actions, k - 1);
      if ActiveUnique(states[k - 1].db.docs, states[k - 1].now) {
        ActiveStepExactly(states[k - 1], actions[k - 1], states[k]);
      }
    }
  }

  /** Without version uploads, and with restores that commit as soon as they read the clock. */
  predicate Prompt(s: State, a: Action) {
    !a.Version? && (a.Restore? ==> a.seen == s.now)
  }

  lemma {:induction false} OneActiveCopy(states: seq<State>, actions: seq<Action>, k: nat)
    requires IsRun(states, actions) && k < |states|
    requires Structure(states[0].db) && ActiveUnique(states[0].db.docs, states[0].now)
    requires forall i :: 0 <= i < |actions| ==> Prompt(states[i], actions[i])
    ensures ActiveUnique(states[k].db.docs, states[k].now)
  {
    forall i | 0 <= i < k ensures Harmless(states[i], actions[i]) {
      assert Prompt(states[i], actions[i]);
    }
    ActiveRunExactly(states, actions, k);
  }

  // ---------- the two exceptions ----------

  const EMPTY := Db(map[], 1, map[], {}, multiset{}, multiset{}, map[])

  function Plain(blob: nat, trashedAt: Option<int>): Doc {
    Doc(1, 1, blob, trashedAt, 0, None, None, None, None)
  }

  /** Documents without versions, numbers or layouts are in order. */
  lemma PlainIsStructured(db: Db)
    requires db.nextId > 0 && forall id :: id in db.docs ==> 0 < id < db.nextId
    requires forall id :: id in db.docs ==> db.docs[id] == Plain(db.docs[id].blob, db.docs[id].trashedAt)
    ensures Structure(db)
  {
    forall id | id in db.docs ensures RowOk(db, id, db.docs[id]) {}
    forall a, b | a in db.docs && b in db.docs ensures Compatible(a, db.docs[a], b, db.docs[b]) {}
  }

  const BYTES_IN_TRASH := State(EMPTY.(docs := map[1 := Plain(7, None), 2 := Plain(8, Some(0))], nextId := 3), 1)

  const REUSE := Request(1, 1, 8, None, 0, 0)

  lemma BytesInTrashIsFine()
    ensures Structure(BYTES_IN_TRASH.db) && LiveUnique(BYTES_IN_TRASH.db.docs)
    ensures ActiveUnique(BYTES_IN_TRASH.db.docs, BYTES_IN_TRASH.now)
  {
    PlainIsStructured(BYTES_IN_TRASH.db);
  }

  lemma ReuseCreates()
    ensures VersionCreates(BYTES_IN_TRASH.db, REUSE, FULL_ACCESS, 1, 1)
    ensures VersionStep(BYTES_IN_TRASH.db, REUSE, FULL_ACCESS, 1, 5, 1, Created(3), Versioned(BYTES_IN_TRASH.db, REUSE, 1, 5, 1))
  {
    var db := BYTES_IN_TRASH.db;
    assert FreshVersion(db, REUSE, FULL_ACCESS, 1, 5, 1, Created(3), Versioned(db, REUSE, 1, 5, 1));
  }

  /** A version with the bytes of a document that is still in Trash. */
  lemma VersionOfTrashedBytes()
    ensures exists s: State, a: Action, s': State ::
      && a.Version? && Step(s, a, s') && Structure(s.db) && LiveUnique(s.db.docs)
      && ActiveUnique(s.db.docs, s.now) && !ActiveUnique(s'.db.docs, s'.now)
  {
    var s, a := BYTES_IN_TRASH, Version(REUSE, FULL_ACCESS, 1, 5, Created(3));
    var s' := s.(db := Versioned(s.db, REUSE, 1, 5, 1));
    BytesInTrashIsFine();
    ReuseCreates();
    assert TrashedCopy(s.db.docs, 1, 1, 8, 2) && InWindow(s.db.docs[2], 1);
    VersionActiveExactly(s, REUSE, FULL_ACCESS, 1, 5, Created(3), s');
    assert Step(s, a, s');
  }

  /** A restore that read the clock before its document expired, and commits after. */
  lemma LateRestore()
    ensures exists s: State, a: Action, s': State ::
      && a.Restore? && Step(s, a, s') && Structure(s.db) && LiveUnique(s.db.docs)
      && ActiveUnique(s.db.docs, s.now) && !ActiveUnique(s'.db.docs, s'.now)
  {
    var docs := map[1 := Plain(7, Some(0)), 2 := Plain(7, Some(RETENTION))];
    var s := State(EMPTY.(docs := docs, nextId := 3), RETENTION);
    PlainIsStructured(s.db);
    assert LiveUnique(docs);
    var a := Restore(true, 1, RETENTION - 1);
    var s' := s.(db := RestoreOne(s.db, true, 1, RETENTION - 1));
    assert Step(s, a, s');
    assert RestoreApplies(s.db, true, 1, RETENTION - 1);
    assert s'.db.docs[1] == Plain(7, None) && s'.db.docs[2] == docs[2];
  }
}
