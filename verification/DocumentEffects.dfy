/**
 What each transaction means for the rows of the archive, column by column: what it
 sets, and that it sets nothing else. And what follows over runs for a serial number,
 which goes out of use only when its holder gives it up or is purged.
 */
module DocumentEffects {
  import opened Options
  import opened Documents
  import opened DocumentStructure

  /** Every row but this one is as it was. */
  predicate OthersSame(docs: Docs, docs': Docs, id: nat) {
    && (forall x :: x in docs' && x != id ==> x in docs && docs'[x] == docs[x])
    && (forall x :: x in docs && x != id ==> x in docs')
  }

  /** Only document rows and render jobs may differ. */
  predicate SameTables(db: Db, db': Db) {
    && db'.nextId == db.nextId && db'.idem == db.idem && db'.sources == db.sources
    && db'.ingests == db.ingests && db'.layouts == db.layouts
  }

  // ---------- upload ----------

  /** A trashed document with these bytes whose scan was split into documents that are all live. */
  ghost predicate RetiredSplit(docs: Docs, r: Request, id: nat) {
    && TrashedCopy(docs, r.system, r.user, r.blob, id)
    && (exists c :: ChildOf(docs, id, c))
    && (forall c :: ChildOf(docs, id, c) ==> Live(docs, c))
  }

  /** A split of these bytes has a child in Trash. */
  ghost predicate SplitChildTrashed(docs: Docs, r: Request) {
    exists p, c :: TrashedCopy(docs, r.system, r.user, r.blob, p) && ChildOf(docs, p, c) && docs[c].trashedAt.Some?
  }

  predicate SourceRecorded(db: Db, db': Db, id: nat, origin: nat) {
    db'.sources == db.sources + {Source(id, origin)}
  }

  /** The stored answer of a keyed request, and only unexpired ones beside it. */
  predicate AnswerStored(db: Db, db': Db, r: Request, operation: Operation, id: nat, now: int) {
    && (r.key.None? ==> db'.idem == db.idem)
    && (r.key.Some? ==>
          && (r.user, r.key.value) in db'.idem
          && db'.idem[(r.user, r.key.value)] == Stored(operation, r.fingerprint, id, now)
          && (forall slot :: slot in db'.idem && slot != (r.user, r.key.value) ==>
                slot in db.idem && db'.idem[slot] == db.idem[slot] && db.idem[slot].at >= now - RETENTION)
          && (forall slot :: slot in db.idem && db.idem[slot].at >= now - RETENTION ==> slot in db'.idem))
  }

  ghost predicate UploadMeaning(db: Db, r: Request, access: Access, now: int, out: Outcome, db': Db) {
    && (!access.current ==> out == Refused)
    && UploadDoes(db, r, access, now, out, db')
  }

  ghost predicate UploadDoes(db: Db, r: Request, access: Access, now: int, out: Outcome, db': Db) {
    match out
    case Created(id) =>
      && id !in db.docs && id in db'.docs && OthersSame(db.docs, db'.docs, id)
      && db'.docs[id] == Doc(r.system, r.user, r.blob, None, 0, None, None, None, None)
      && SourceRecorded(db, db', id, r.origin) && AnswerStored(db, db', r, NewDocument, id, now)
      && db'.ingests == db.ingests + multiset{id} && db'.moves == db.moves
      && (forall n: nat :: !LiveCopy(db.docs, r.system, r.user, r.blob, n) && !RecoverableCopy(db.docs, r, now, n))
    case Restored(id) =>
      && id in db.docs && id in db'.docs && OthersSame(db.docs, db'.docs, id)
      && Live(db'.docs, id) && Holds(db'.docs[id], r.system, r.user, r.blob)
      && db.docs[id].trashedAt.Some? && db.docs[id].trashedAt.value > now - RETENTION
      && db.docs[id] == db'.docs[id].(trashedAt := db.docs[id].trashedAt)
      && SourceRecorded(db, db', id, r.origin) && AnswerStored(db, db', r, NewDocument, id, now)
      && db'.ingests == db.ingests && db'.moves == db.moves + multiset{id}
      && (forall n: nat :: !LiveCopy(db.docs, r.system, r.user, r.blob, n))
    case Deduplicated(id) =>
      && db'.docs == db.docs
      && (LiveCopy(db.docs, r.system, r.user, r.blob, id) || RetiredSplit(db.docs, r, id))
      && SourceRecorded(db, db', id, r.origin) && AnswerStored(db, db', r, NewDocument, id, now)
      && db'.ingests == db.ingests && db'.moves == db.moves
    case Replayed(id) => db'.docs == db.docs && db'.sources == db.sources && db'.ingests == db.ingests && db'.moves == db.moves
    case Conflict => db' == db
    case Refused => db' == db && (access.current && r.key.None? ==> SplitChildTrashed(db.docs, r))
    case Recovered(_) => false
  }

  lemma AnswerIsStored(db: Db, db': Db, r: Request, operation: Operation, id: nat, now: int)
    requires db'.idem == WithRow(AfterExpiry(db.idem, r.key, now), r, operation, id, now)
    ensures AnswerStored(db, db', r, operation, id, now)
  {
  }

  lemma CreatedMeans(db: Db, r: Request, access: Access, now: int, db': Db)
    requires Structure(db) && UploadDid(db, r, now, Created(db.nextId), db')
    ensures UploadDoes(db, r, access, now, Created(db.nextId), db')
  {
    assert db.nextId in db.docs ==> RowOk(db, db.nextId, db.docs[db.nextId]);
    AnswerIsStored(db, db', r, NewDocument, db.nextId, now);
  }

  lemma RestoredMeans(db: Db, r: Request, access: Access, now: int, id: nat, db': Db)
    requires UploadDid(db, r, now, Restored(id), db')
    ensures UploadDoes(db, r, access, now, Restored(id), db')
  {
    AnswerIsStored(db, db', r, NewDocument, id, now);
  }

  lemma DeduplicatedMeans(db: Db, r: Request, access: Access, now: int, id: nat, db': Db)
    requires FreshUpload(db, r, now, Deduplicated(id), db')
    ensures UploadDoes(db, r, access, now, Deduplicated(id), db')
  {
    AnswerIsStored(db, db', r, NewDocument, id, now);
    if exists p :: SplitParent(db.docs, r, p) {
      forall c | ChildOf(db.docs, id, c) ensures Live(db.docs, c) {}
    }
  }

  lemma RefusedMeans(db: Db, r: Request, now: int, db': Db)
    requires FreshUpload(db, r, now, Refused, db')
    ensures SplitChildTrashed(db.docs, r)
  {
    var p :| LatestSplitParent(db.docs, r, p) && exists c :: ChildOf(db.docs, p, c) && db.docs[c].trashedAt.Some?;
    var c :| ChildOf(db.docs, p, c) && db.docs[c].trashedAt.Some?;
    assert TrashedCopy(db.docs, r.system, r.user, r.blob, p);
  }

  /** An upload does what its answer says, to that document alone. */
  lemma UploadMeans(db: Db, r: Request, access: Access, now: int, out: Outcome, db': Db)
    requires Structure(db) && UploadStep(db, r, access, now, out, db')
    ensures UploadMeaning(db, r, access, now, out, db')
  {
    UploadEffect(db, r, access, now, out, db');
    match out
    case Created(_) => CreatedMeans(db, r, access, now, db');
    case Restored(id) => RestoredMeans(db, r, access, now, id, db');
    case Deduplicated(id) => DeduplicatedMeans(db, r, access, now, id, db');
    case Refused =>
      if access.current && r.key.None? {
        RefusedMeans(db, r, now, db');
      }
    case _ =>
  }

  /** Bytes that were split are never inserted or revived again while a child exists. */
  lemma SplitStaysRetired(db: Db, r: Request, access: Access, now: int, out: Outcome, db': Db, p: nat, c: nat)
    requires UploadStep(db, r, access, now, out, db')
    requires TrashedCopy(db.docs, r.system, r.user, r.blob, p) && ChildOf(db.docs, p, c)
    ensures !out.Created? && !out.Restored? && db'.docs == db.docs
  {
    UploadEffect(db, r, access, now, out, db');
    assert SplitParent(db.docs, r, p);
  }

  // ---------- new version ----------

  /** The document's layout prints its serial number. */
  predicate PrintsNumber(db: Db, doc: Doc) {
    doc.asn.Some? && NeedsAsn(db, doc.layout)
  }

  ghost predicate VersionMeaning(db: Db, r: Request, access: Access, prev: nat, now: int, out: Outcome, db': Db) {
    && (!Live(db.docs, prev) || !access.change(prev) ==> out == Refused)
    && VersionDoes(db, r, access, prev, now, out, db')
  }

  ghost predicate VersionDoes(db: Db, r: Request, access: Access, prev: nat, now: int, out: Outcome, db': Db) {
    match out
    case Created(n) =>
      && Live(db.docs, prev) && VersionRows(db, prev, r.blob, n, db')
      && SourceRecorded(db, db', n, r.origin) && AnswerStored(db, db', r, NewVersion(prev), n, now)
      && db'.ingests == db.ingests + multiset{n}
      && db'.moves == db.moves + if PrintsNumber(db, db.docs[prev]) then multiset{prev, n} else multiset{}
    case Recovered(id) =>
      && db'.docs == db.docs && db'.sources == db.sources && db'.ingests == db.ingests && db'.moves == db.moves
      && SameVersion(db.docs, prev, r.blob, id) && Live(db.docs, id)
      && AnswerStored(db, db', r, NewVersion(prev), id, now)
    case Replayed(id) => db'.docs == db.docs && db'.sources == db.sources && db'.ingests == db.ingests && db'.moves == db.moves
    case Conflict => db' == db
    case Refused =>
      && db' == db
      && (Live(db.docs, prev) && access.change(prev) && r.key.None? ==>
            || (exists n: nat :: InFamily(db.docs, db.docs[prev], n) && n > prev)
            || (exists n :: LiveCopy(db.docs, db.docs[prev].system, db.docs[prev].owner, r.blob, n))
            || LayoutUnreadable(db, db.docs[prev]))
    case _ => false
  }

  /** The document rows after a new version n of prev. */
  predicate VersionRows(db: Db, prev: nat, blob: nat, n: nat, db': Db) {
    && prev in db.docs && n !in db.docs && n in db'.docs && prev in db'.docs
    && (forall x :: x in db'.docs && x != n && x != prev ==> x in db.docs && db'.docs[x] == db.docs[x])
    && (forall x :: x in db.docs ==> x in db'.docs)
    && NewVersionRow(db.docs[prev], db'.docs[n], prev, blob)
    && OldVersionRow(db.docs[prev], db'.docs[prev])
    && db'.docs[n].family == db'.docs[prev].family && db'.docs[n].family.Some?
    && (if PrintsNumber(db, db.docs[prev])
        then db'.docs[n].layout == db.docs[prev].layout && db'.docs[prev].layout.None?
        else db'.docs[n].layout.None? && db'.docs[prev].layout == db.docs[prev].layout)
  }

  /** The new row: its predecessor's system, owner and serial number, and the uploaded bytes, live. */
  predicate NewVersionRow(was: Doc, row: Doc, prev: nat, blob: nat) {
    && row.system == was.system && row.owner == was.owner && row.blob == blob && row.trashedAt.None?
    && row.splitOrigin == 0 && row.prev == Some(prev) && row.asn == was.asn
    && (was.family.Some? ==> row.family == was.family)
  }

  /** The predecessor: without its serial number, otherwise what it was. */
  predicate OldVersionRow(was: Doc, row: Doc) {
    && row.asn.None? && row.system == was.system && row.owner == was.owner && row.blob == was.blob
    && row.trashedAt == was.trashedAt && row.splitOrigin == was.splitOrigin && row.prev == was.prev
    && (was.family.Some? ==> row.family == was.family)
  }

  lemma NewVersionMeans(db: Db, r: Request, access: Access, prev: nat, freshFamily: nat, now: int, n: nat, db': Db)
    requires Structure(db) && VersionDid(db, r, prev, freshFamily, now, Created(n), db')
    ensures VersionDoes(db, r, access, prev, now, Created(n), db')
  {
    assert n in db.docs ==> RowOk(db, n, db.docs[n]);
    VersionRowsMean(db, r, prev, freshFamily, now);
    AnswerIsStored(db, db', r, NewVersion(prev), n, now);
  }

  lemma VersionRowsMean(db: Db, r: Request, prev: nat, freshFamily: nat, now: int)
    requires prev in db.docs && db.nextId !in db.docs
    ensures VersionRows(db, prev, r.blob, db.nextId, Versioned(db, r, prev, freshFamily, now))
  {
  }

  lemma RecoveredMeans(db: Db, r: Request, access: Access, prev: nat, freshFamily: nat, now: int, id: nat, db': Db)
    requires prev in db.docs && FreshVersion(db, r, access, prev, freshFamily, now, Recovered(id), db')
    ensures VersionDoes(db, r, access, prev, now, Recovered(id), db')
  {
    AnswerIsStored(db, db', r, NewVersion(prev), id, now);
  }

  lemma VersionRefusedMeans(db: Db, r: Request, access: Access, prev: nat, freshFamily: nat, now: int, db': Db)
    requires prev in db.docs && FreshVersion(db, r, access, prev, freshFamily, now, Refused, db') && r.key.None?
    ensures VersionDoes(db, r, access, prev, now, Refused, db')
  {
    if !IsFamilyHead(db.docs, prev) {
      var n: nat :| InFamily(db.docs, db.docs[prev], n) && n > prev;
    }
  }

  /** A version upload does what its answer says; the number and a layout that prints it go to the new row. */
  lemma VersionMeans(db: Db, r: Request, access: Access, prev: nat, freshFamily: nat, now: int, out: Outcome, db': Db)
    requires Structure(db) && VersionStep(db, r, access, prev, freshFamily, now, out, db')
    ensures VersionMeaning(db, r, access, prev, now, out, db')
  {
    VersionEffect(db, r, access, prev, freshFamily, now, out, db');
    match out
    case Created(n) => NewVersionMeans(db, r, access, prev, freshFamily, now, n, db');
    case Recovered(id) => RecoveredMeans(db, r, access, prev, freshFamily, now, id, db');
    case Refused =>
      if Live(db.docs, prev) && access.change(prev) && r.key.None? {
        VersionRefusedMeans(db, r, access, prev, freshFamily, now, db');
      }
    case _ =>
  }

  /** A keyed upload of a version that exists inserts no second one, however late it comes. */
  lemma KeyedVersionIsRecognized(db: Db, r: Request, access: Access, prev: nat, freshFamily: nat, now: int, out: Outcome, db': Db, id: nat)
    requires VersionStep(db, r, access, prev, freshFamily, now, out, db')
    requires r.key.Some? && SameVersion(db.docs, prev, r.blob, id)
    ensures !out.Created? && db'.docs == db.docs
  {
    VersionEffect(db, r, access, prev, freshFamily, now, out, db');
    VersionCreatesExactly(db, r, access, prev, freshFamily, now, out, db');
  }

  // ---------- trash, restore, edit, purge ----------

  lemma SoftDeleteMeans(db: Db, allowed: bool, id: nat, now: int)
    ensures var db' := SoftDeleted(db, allowed, id, now);
      && SameTables(db, db') && db'.moves == db.moves && OthersSame(db.docs, db'.docs, id)
      && (id in db'.docs <==> id in db.docs)
      && (id in db.docs ==>
            db'.docs[id] == if allowed && db.docs[id].trashedAt.None? then db.docs[id].(trashedAt := Some(now)) else db.docs[id])
  {
  }

  lemma RestoreMeans(db: Db, allowed: bool, id: nat, seen: int)
    ensures var db' := RestoreOne(db, allowed, id, seen);
      && SameTables(db, db') && OthersSame(db.docs, db'.docs, id) && (id in db'.docs <==> id in db.docs)
      && (id in db.docs ==>
            var restored := allowed && db.docs[id].trashedAt.Some? && db.docs[id].trashedAt.value > seen - RETENTION
              && !exists n :: n in db.docs && n != id && db.docs[n].trashedAt.None? && SameContent(db.docs[n], db.docs[id]);
            && db'.docs[id] == (if restored then db.docs[id].(trashedAt := None) else db.docs[id])
            && db'.moves == db.moves + if restored then multiset{id} else multiset{})
  {
  }

  lemma BulkTrashMeans(db: Db, allowed: bool, ids: seq<nat>, now: int)
    ensures var db' := BulkTrashed(db, allowed, ids, now);
      && SameTables(db, db') && db'.moves == db.moves && db'.docs.Keys == db.docs.Keys
      && forall x :: x in db.docs ==>
          db'.docs[x] == if allowed && x in ids && db.docs[x].trashedAt.None? then db.docs[x].(trashedAt := Some(now)) else db.docs[x]
  {
  }

  lemma BulkRestoreMeans(db: Db, allowed: bool, ids: seq<nat>, now: int)
    ensures var db' := BulkRestored(db, allowed, ids, now); var applies := BulkRestoreApplies(db, allowed, ids, now);
      && SameTables(db, db') && db'.docs.Keys == db.docs.Keys
      && db'.moves == db.moves + (if applies then multiset(ids) else multiset{})
      && forall x :: x in db.docs ==> db'.docs[x] == if applies && x in ids then db.docs[x].(trashedAt := None) else db.docs[x]
  {
  }

  lemma PatchMeans(db: Db, allowed: bool, id: nat, e: Edit)
    ensures var db' := Patched(db, allowed, id, e);
      && SameTables(db, db') && OthersSame(db.docs, db'.docs, id) && (id in db'.docs <==> id in db.docs)
      && (id in db.docs ==>
            && db'.docs[id] == db.docs[id].(asn := db'.docs[id].asn, layout := db'.docs[id].layout)
            && (PatchRefused(db, allowed, id, e) ==> db' == db)
            && (!PatchRefused(db, allowed, id, e) ==>
                  && (e.asn.Some? ==> db'.docs[id].asn == e.asn.value) && (e.asn.None? ==> db'.docs[id].asn == db.docs[id].asn)
                  && (e.layout.Some? ==> db'.docs[id].layout == e.layout.value)
                  && (e.layout.None? ==> db'.docs[id].layout == db.docs[id].layout)))
  {
  }

  /** A render job is queued for a live document whose name or layout is edited, or whose printed number changes. */
  lemma PatchQueues(db: Db, allowed: bool, id: nat, e: Edit)
    requires !PatchRefused(db, allowed, id, e)
    ensures var db' := Patched(db, allowed, id, e);
      var row := db'.docs[id];
      var queued := Live(db.docs, id) && (e.naming || e.layout.Some? || (row.asn != db.docs[id].asn && NeedsAsn(db, row.layout)));
      db'.moves == db.moves + if queued then multiset{id} else multiset{}
  {
  }

  /** When an edit is accepted, in terms of the rows it would leave. */
  lemma PatchAcceptedExactly(db: Db, allowed: bool, id: nat, e: Edit)
    requires allowed && id in db.docs && (e.asn.Some? || e.layout.Some? || e.naming || e.other)
    ensures var doc := db.docs[id];
      var asn, layout := if e.asn.Some? then e.asn.value else doc.asn, if e.layout.Some? then e.layout.value else doc.layout;
      !PatchRefused(db, allowed, id, e) <==>
        && (e.asn.Some? && e.asn.value.Some? ==>
              && doc.trashedAt.None?
              && (forall x :: x in db.docs && SameFamily(doc, db.docs[x]) ==> x <= id)
              && (forall x :: x in db.docs && x != id && db.docs[x].system == doc.system ==> db.docs[x].asn != e.asn.value))
        && (layout.Some? ==>
              && layout.value in db.layouts && db.layouts[layout.value].system == doc.system
              && (db.layouts[layout.value].usesAsn ==> asn.Some?))
  {
    var doc := db.docs[id];
    if Historical(db.docs, id) {
      var n :| n in db.docs && InFamily(db.docs, doc, n) && n > id;
      assert SameFamily(doc, db.docs[n]);
    } else {
      forall x | x in db.docs && SameFamily(doc, db.docs[x]) ensures x <= id {
        assert InFamily(db.docs, doc, x);
      }
    }
  }

  /** A number is given only to a live document with nothing newer in its family, and only if no other in the system has it. */
  lemma PatchGivesCarefully(db: Db, allowed: bool, id: nat, e: Edit, n: nat)
    requires id in db.docs && Patched(db, allowed, id, e).docs[id].asn == Some(n) && db.docs[id].asn != Some(n)
    ensures Live(db.docs, id) && e.asn == Some(Some(n))
    ensures forall x :: x in db.docs && x != id && db.docs[x].system == db.docs[id].system ==> db.docs[x].asn != Some(n)
    ensures forall x :: x in db.docs && SameFamily(db.docs[id], db.docs[x]) ==> x <= id
  {
    assert !Historical(db.docs, id) && !AsnTaken(db.docs, id, n);
    forall x | x in db.docs && SameFamily(db.docs[id], db.docs[x]) ensures x <= id {
      assert InFamily(db.docs, db.docs[id], x);
    }
  }

  lemma BulkLayoutMeans(db: Db, allowed: bool, system: nat, ids: seq<nat>, layout: Option<nat>)
    ensures var db' := BulkLaidOut(db, allowed, system, ids, layout); var applies := BulkLayoutApplies(db, allowed, system, ids, layout);
      && SameTables(db, db') && db'.docs.Keys == db.docs.Keys
      && (forall x :: x in db.docs ==> db'.docs[x] == if applies && x in ids then db.docs[x].(layout := layout) else db.docs[x])
      && (forall x :: db'.moves[x] == db.moves[x] + if applies && x in ids && Live(db.docs, x) && db.docs[x].layout != layout then 1 else 0)
      && (allowed && !applies ==>
            && layout.Some?
            && (layout.value !in db.layouts || db.layouts[layout.value].system != system
                || (db.layouts[layout.value].usesAsn && exists x :: x in ids && x in db.docs && db.docs[x].asn.None?)))
      && (applies && layout.Some? ==> layout.value in db.layouts && db.layouts[layout.value].system == system)
  {
  }

  lemma PurgeMeans(db: Db, gone: set<nat>)
    ensures var db' := Purged(db, gone);
      && db'.nextId == db.nextId && db'.layouts == db.layouts
      && (forall x :: x in db'.docs <==> x in db.docs && x !in gone)
      && (forall x :: x in db'.docs ==>
            db'.docs[x] == db.docs[x].(prev := if db.docs[x].prev.Some? && db.docs[x].prev.value in gone then None else db.docs[x].prev))
      && (forall slot :: slot in db'.idem <==> slot in db.idem && db.idem[slot].doc !in gone)
      && (forall slot :: slot in db'.idem ==> db'.idem[slot] == db.idem[slot])
      && (forall s :: s in db'.sources <==> s in db.sources && s.doc !in gone)
      && (forall x :: db'.ingests[x] == (if x in gone then 0 else db.ingests[x]) && db'.moves[x] == if x in gone then 0 else db.moves[x])
  {
  }

  /** Only documents in Trash are purged, by choice or after their window. */
  lemma PurgedWereTrashed(s: State, a: Action, s': State, x: nat)
    requires Step(s, a, s') && x in s.db.docs && x !in s'.db.docs
    ensures s.db.docs[x].trashedAt.Some?
    ensures (a.PurgeIds? && a.allowed && 0 !in a.ids && x in a.ids && s.db.docs[x].system == a.system)
      || (a.PurgeExpired? && s.db.docs[x].trashedAt.value <= a.seen - RETENTION)
  {
    match a
    case Upload(r, access, out) => UploadEffect(s.db, r, access, s.now, out, s'.db);
    case Version(r, access, prev, family, out) => VersionEffect(s.db, r, access, prev, family, s.now, out, s'.db);
    case _ =>
  }

  /** And nothing overdue stays. */
  lemma SweepTakesAll(s: State, a: Action, s': State, x: nat)
    requires Step(s, a, s') && a.PurgeExpired? && x in s'.db.docs
    ensures s'.db.docs[x].trashedAt.None? || s'.db.docs[x].trashedAt.value > a.seen - RETENTION
  {
  }

  lemma SelectionTakesAll(s: State, a: Action, s': State, x: nat)
    requires Step(s, a, s') && a.PurgeIds? && a.allowed && 0 !in a.ids && x in a.ids && x in s'.db.docs
    ensures s'.db.docs[x].trashedAt.None? || s'.db.docs[x].system != a.system
  {
  }

  // ---------- serial numbers over runs ----------

  predicate HoldsNumber(db: Db, id: nat, system: nat, n: nat) {
    id in db.docs && db.docs[id].system == system && db.docs[id].asn == Some(n)
  }

  ghost predicate InUse(db: Db, system: nat, n: nat) {
    exists id :: HoldsNumber(db, id, system, n)
  }

  /** Its holder is edited to another number or none, or is purged. */
  predicate GivesUp(a: Action, s': State, holder: nat) {
    (a.Patch? && a.id == holder && a.edit.asn.Some?) || ((a.PurgeIds? || a.PurgeExpired?) && holder !in s'.db.docs)
  }

  lemma VersionKeepsNumber(s: State, a: Action, s': State, holder: nat, system: nat, n: nat)
    requires Structure(s.db) && Step(s, a, s') && a.Version? && HoldsNumber(s.db, holder, system, n)
    ensures InUse(s'.db, system, n)
  {
    VersionMeans(s.db, a.r, a.access, a.prev, a.freshFamily, s.now, a.out, s'.db);
    if a.out.Created? && holder == a.prev {
      assert HoldsNumber(s'.db, a.out.doc, system, n);
    } else {
      assert HoldsNumber(s'.db, holder, system, n);
    }
  }

  lemma UploadKeepsNumber(s: State, a: Action, s': State, holder: nat, system: nat, n: nat)
    requires Structure(s.db) && Step(s, a, s') && a.Upload? && HoldsNumber(s.db, holder, system, n)
    ensures InUse(s'.db, system, n)
  {
    UploadMeans(s.db, a.r, a.access, s.now, a.out, s'.db);
    assert HoldsNumber(s'.db, holder, system, n);
  }

  lemma PatchKeepsNumber(db: Db, allowed: bool, id: nat, e: Edit, holder: nat, system: nat, n: nat)
    requires HoldsNumber(db, holder, system, n) && !(id == holder && e.asn.Some?)
    ensures HoldsNumber(Patched(db, allowed, id, e), holder, system, n)
  {
    PatchMeans(db, allowed, id, e);
  }

  lemma PurgeKeepsNumber(db: Db, gone: set<nat>, holder: nat, system: nat, n: nat)
    requires HoldsNumber(db, holder, system, n) && holder in Purged(db, gone).docs
    ensures HoldsNumber(Purged(db, gone), holder, system, n)
  {
    PurgeMeans(db, gone);
  }

  lemma EditsKeepNumber(s: State, a: Action, s': State, holder: nat, system: nat, n: nat)
    requires Step(s, a, s') && (a.Patch? || a.PurgeIds? || a.PurgeExpired?) && HoldsNumber(s.db, holder, system, n) && !GivesUp(a, s', holder)
    ensures HoldsNumber(s'.db, holder, system, n)
  {
    match a
    case Patch(allowed, id, e) => PatchKeepsNumber(s.db, allowed, id, e, holder, system, n);
    case PurgeIds(allowed, sys, ids) =>
      if allowed && 0 !in ids {
        PurgeKeepsNumber(s.db, PurgeCandidates(s.db, sys, ids), holder, system, n);
      }
    case PurgeExpired(seen) => PurgeKeepsNumber(s.db, ExpiredCandidates(s.db, seen), holder, system, n);
  }

  lemma MovesKeepNumber(s: State, a: Action, s': State, holder: nat, system: nat, n: nat)
    requires Step(s, a, s') && HoldsNumber(s.db, holder, system, n)
    requires !a.Upload? && !a.Version? && !a.Patch? && !a.PurgeIds? && !a.PurgeExpired?
    ensures HoldsNumber(s'.db, holder, system, n)
  {
    match a
    case SoftDelete(allowed, id) => SoftDeleteMeans(s.db, allowed, id, s.now);
    case Restore(allowed, id, seen) => RestoreMeans(s.db, allowed, id, seen);
    case BulkTrash(allowed, ids) => BulkTrashMeans(s.db, allowed, ids, s.now);
    case BulkRestore(allowed, ids) => BulkRestoreMeans(s.db, allowed, ids, s.now);
    case BulkLayout(allowed, sys, ids, layout) => BulkLayoutMeans(s.db, allowed, sys, ids, layout);
    case _ =>
  }

  lemma OtherStepsKeepNumber(s: State, a: Action, s': State, holder: nat, system: nat, n: nat)
    requires Step(s, a, s') && !a.Upload? && !a.Version? && HoldsNumber(s.db, holder, system, n) && !GivesUp(a, s', holder)
    ensures HoldsNumber(s'.db, holder, system, n)
  {
    if a.Patch? || a.PurgeIds? || a.PurgeExpired? {
      EditsKeepNumber(s, a, s', holder, system, n);
    } else {
      MovesKeepNumber(s, a, s', holder, system, n);
    }
  }

  /** A step takes a number out of use only by an edit or a purge of its holder. */
  lemma WhyNumbersGo(s: State, a: Action, s': State, holder: nat, system: nat, n: nat)
    requires Structure(s.db) && Step(s, a, s') && HoldsNumber(s.db, holder, system, n) && !InUse(s'.db, system, n)
    ensures GivesUp(a, s', holder)
  {
    if a.Version? {
      VersionKeepsNumber(s, a, s', holder, system, n);
    } else if a.Upload? {
      UploadKeepsNumber(s, a, s', holder, system, n);
    } else if !GivesUp(a, s', holder) {
      OtherStepsKeepNumber(s, a, s', holder, system, n);
    }
  }

  lemma {:induction false} LastUse(states: seq<State>, i: nat, j: nat, system: nat, n: nat) returns (k: nat)
    requires i < j < |states| && InUse(states[i].db, system, n) && !InUse(states[j].db, system, n)
    ensures i <= k < j && InUse(states[k].db, system, n) && !InUse(states[k + 1].db, system, n)
    decreases j - i
  {
    if InUse(states[i + 1].db, system, n) {
      k := LastUse(states, i + 1, j, system, n);
    } else {
      k := i;
    }
  }

  /** Over a run: between a point where a number is in use and one where it is not, its holder of that time gives it up. */
  lemma NumbersGoForAReason(states: seq<State>, actions: seq<Action>, i: nat, j: nat, system: nat, n: nat)
    returns (k: nat, holder: nat)
    requires IsRun(states, actions) && Structure(states[0].db) && i < j < |states|
    requires InUse(states[i].db, system, n) && !InUse(states[j].db, system, n)
    ensures i <= k < j && HoldsNumber(states[k].db, holder, system, n) && GivesUp(actions[k], states[k + 1], holder)
  {
    k := LastUse(states, i, j, system, n);
    holder :| HoldsNumber(states[k].db, holder, system, n);
    StructureHolds(states, actions, k);
    WhyNumbersGo(states[k], actions[k], states[k + 1], holder, system, n);
  }
}
