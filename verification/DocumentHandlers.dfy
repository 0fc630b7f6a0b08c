/**
 The handlers as the program runs them, one write transaction each. `tx` is the
 transaction's view of the tables: assigning it to `db` commits, returning before
 that rolls back. Each handler is proved to take the step its specification names,
 and to keep what every run keeps.
 */
module DocumentHandlers {
  import opened Options
  import opened Documents
  import opened DocumentStructure
  import opened DocumentUniqueness
  import opened UploadReplay
  import opened DocumentEffects
  import Iteration

  // ---------- queries ----------

  method FindLiveCopy(docs: Docs, system: nat, owner: nat, blob: nat) returns (found: Option<nat>)
    ensures found.Some? ==> LiveCopy(docs, system, owner, blob, found.value)
    ensures found.None? ==> forall id: nat :: !LiveCopy(docs, system, owner, blob, id)
  {
    var rows := set id | id in docs && LiveCopy(docs, system, owner, blob, id);
    if rows == {} {
      assert forall id: nat :: LiveCopy(docs, system, owner, blob, id) ==> id in rows;
      return None;
    }
    var id := Iteration.Pick(rows);
    return Some(id);
  }

  /** `ORDER BY trashed_at DESC LIMIT 1`. */
  method LatestTrashed(docs: Docs, rows: set<nat>) returns (latest: nat)
    requires rows != {} && forall id :: id in rows ==> id in docs && docs[id].trashedAt.Some?
    ensures latest in rows && forall id :: id in rows ==> TrashedNoLater(docs, id, latest)
  {
    latest := Iteration.Pick(rows);
    var left := rows - {latest};
    while left != {}
      invariant left <= rows && latest in rows
      invariant forall id :: id in rows && id !in left ==> TrashedNoLater(docs, id, latest)
      decreases left
    {
      var id := Iteration.Pick(left);
      if docs[id].trashedAt.value > docs[latest].trashedAt.value {
        latest := id;
      }
      left := left - {id};
    }
  }

  method FindSplitParent(docs: Docs, r: Request) returns (found: Option<nat>)
    ensures found.Some? ==> LatestSplitParent(docs, r, found.value)
    ensures found.None? ==> forall id: nat :: !SplitParent(docs, r, id)
  {
    var rows := set id | id in docs && TrashedCopy(docs, r.system, r.user, r.blob, id)
      && exists c :: c in docs && ChildOf(docs, id, c);
    assert forall id: nat :: SplitParent(docs, r, id) <==> id in rows;
    if rows == {} {
      return None;
    }
    var id := LatestTrashed(docs, rows);
    return Some(id);
  }

  method FindRecoverable(docs: Docs, r: Request, now: int) returns (found: Option<nat>)
    ensures found.Some? ==> LatestRecoverable(docs, r, now, found.value)
    ensures found.None? ==> forall id: nat :: !RecoverableCopy(docs, r, now, id)
  {
    var rows := set id | id in docs && RecoverableCopy(docs, r, now, id);
    assert forall id: nat :: RecoverableCopy(docs, r, now, id) <==> id in rows;
    if rows == {} {
      return None;
    }
    var id := LatestTrashed(docs, rows);
    return Some(id);
  }

  method FindSameVersion(docs: Docs, prev: nat, blob: nat) returns (found: Option<nat>)
    ensures found.Some? ==> FirstSameVersion(docs, prev, blob, found.value)
    ensures found.None? ==> forall id: nat :: !SameVersion(docs, prev, blob, id)
  {
    var rows := set id | id in docs && SameVersion(docs, prev, blob, id);
    assert forall id: nat :: SameVersion(docs, prev, blob, id) <==> id in rows;
    if rows == {} {
      return None;
    }
    var first := Iteration.Pick(rows);
    var left := rows - {first};
    while left != {}
      invariant left <= rows && first in rows
      invariant forall n :: n in rows && n !in left ==>
        (Live(docs, first) && !Live(docs, n)) || (Live(docs, first) == Live(docs, n) && first <= n)
      decreases left
    {
      var id := Iteration.Pick(left);
      if (Live(docs, id) && !Live(docs, first)) || (Live(docs, id) == Live(docs, first) && id < first) {
        first := id;
      }
      left := left - {id};
    }
    return Some(first);
  }

  /** `max(id)` over a family. */
  method FamilyHead(docs: Docs, id: nat) returns (head: nat)
    requires id in docs && docs[id].family.Some?
    ensures head == id <==> IsFamilyHead(docs, id)
  {
    var left := set n | n in docs && InFamily(docs, docs[id], n);
    ghost var all := left;
    assert forall n: nat :: InFamily(docs, docs[id], n) <==> n in all;
    head := id;
    while left != {}
      invariant left <= all && head in all && head >= id
      invariant forall n :: n in all && n !in left ==> n <= head
      decreases left
    {
      var n := Iteration.Pick(left);
      if n > head {
        head := n;
      }
      left := left - {n};
    }
  }

  method DropJobs(jobs: multiset<nat>, gone: set<nat>) returns (kept: multiset<nat>)
    ensures kept == Drop(jobs, gone)
  {
    kept := jobs;
    var left := gone;
    while left != {}
      invariant left <= gone
      invariant forall id :: kept[id] == if id in gone && id !in left then 0 else jobs[id]
      decreases left
    {
      var id := Iteration.Pick(left);
      kept := kept[id := 0];
      left := left - {id};
    }
    assert forall id :: kept[id] == Drop(jobs, gone)[id];
  }

  /** Gives the predecessor a family if it has none, and inserts its successor without number or layout. */
  method AddVersionRow(db: Db, blob: nat, prev: nat, freshFamily: nat) returns (tx: Db)
    requires prev in db.docs && db.nextId !in db.docs
    ensures tx == WithVersionRow(db, blob, prev, freshFamily)
  {
    tx := db;
    var doc := tx.docs[prev];
    var family := doc.family;
    if family.None? {
      tx := tx.(docs := tx.docs[prev := doc.(family := Some(freshFamily))]);
      family := Some(freshFamily);
    }
    assert tx.docs == db.docs[prev := doc.(family := family)];
    tx := tx.(docs := tx.docs[tx.nextId := Doc(doc.system, doc.owner, blob, None, 0, Some(prev), family, None, None)],
              nextId := tx.nextId + 1);
  }

  function WithVersionRow(db: Db, blob: nat, prev: nat, freshFamily: nat): Db
    requires prev in db.docs
  {
    var doc := db.docs[prev];
    var family := if doc.family.Some? then doc.family else Some(freshFamily);
    db.(docs := db.docs[prev := doc.(family := family)]
                       [db.nextId := Doc(doc.system, doc.owner, blob, None, 0, Some(prev), family, None, None)],
        nextId := db.nextId + 1)
  }

  function WithNumberMoved(db: Db, prev: nat, id: nat): Db
    requires prev in db.docs && id in db.docs
  {
    var doc := db.docs[prev];
    var moves := LayoutMoves(db, doc);
    db.(docs := db.docs[prev := doc.(asn := None, layout := if moves then None else doc.layout)]
                       [id := db.docs[id].(asn := doc.asn, layout := if moves then doc.layout else None)],
        moves := db.moves + (if moves then multiset{prev, id} else multiset{}))
  }

  /** Inserting and then transferring gives the document rows of a version upload. */
  lemma TransferredIsVersioned(db: Db, r: Request, prev: nat, freshFamily: nat, now: int, tx: Db)
    requires prev in db.docs && db.nextId !in db.docs
    requires tx == WithNumberMoved(WithVersionRow(db, r.blob, prev, freshFamily), prev, db.nextId)
    ensures var expected := Versioned(db, r, prev, freshFamily, now);
      && tx.docs == expected.docs && tx.moves == expected.moves && tx.nextId == expected.nextId
      && tx.sources == db.sources && tx.ingests == db.ingests && tx.idem == db.idem && tx.layouts == db.layouts
  {
    var expected := Versioned(db, r, prev, freshFamily, now);
    assert tx.docs[prev] == expected.docs[prev];
    assert tx.docs[db.nextId] == expected.docs[db.nextId];
    assert tx.docs == expected.docs;
  }

  /** The serial number leaves the predecessor for the new version, and a layout that prints it goes along. */
  method TransferNumber(db: Db, prev: nat, id: nat) returns (tx: Db)
    requires prev in db.docs && id in db.docs && prev != id && !LayoutUnreadable(db, db.docs[prev])
    requires db.docs[id].asn.None? && db.docs[id].layout.None?
    ensures tx == WithNumberMoved(db, prev, id)
    ensures tx.docs.Keys == db.docs.Keys && forall x :: x in db.docs && x != prev && x != id ==> tx.docs[x] == db.docs[x]
    ensures tx.docs[id].asn == db.docs[prev].asn && tx.docs[prev].asn.None?
    ensures PrintsNumber(db, db.docs[prev]) ==> tx.docs[id].layout == db.docs[prev].layout && tx.docs[prev].layout.None?
    ensures !PrintsNumber(db, db.docs[prev]) ==> tx.docs[id].layout.None? && tx.docs[prev].layout == db.docs[prev].layout
  {
    var doc := db.docs[prev];
    tx := db;
    if doc.asn.Some? {
      tx := tx.(docs := tx.docs[prev := tx.docs[prev].(asn := None)]);
      tx := tx.(docs := tx.docs[id := tx.docs[id].(asn := doc.asn)]);
      if doc.layout.Some? && tx.layouts[doc.layout.value].usesAsn {
        tx := tx.(docs := tx.docs[prev := tx.docs[prev].(layout := None)]);
        tx := tx.(docs := tx.docs[id := tx.docs[id].(layout := doc.layout)]);
        tx := tx.(moves := tx.moves + multiset{prev, id});
      }
    }
  }

  // ---------- the archive ----------

  /** What every transaction relies on and keeps. */
  ghost predicate Sane(db: Db) {
    Structure(db) && LiveUnique(db.docs) && RowsRefer(db)
  }

  lemma StepKeepsSane(s: State, a: Action, s': State)
    requires Sane(s.db) && Step(s, a, s')
    ensures Sane(s'.db)
  {
    StructureStep(s, a, s');
    LiveUniqueStep(s, a, s');
    RowsReferStep(s, a, s');
  }

  class Archive {
    var db: Db

    ghost predicate Valid()
      reads this
    {
      Sane(db)
    }

    constructor (layouts: map<nat, Layout>)
      ensures Valid() && db == Db(map[], 1, map[], {}, multiset{}, multiset{}, layouts)
    {
      db := Db(map[], 1, map[], {}, multiset{}, multiset{}, layouts);
    }

    method UploadDocument(r: Request, access: Access, now: int) returns (out: Outcome)
      requires Valid()
      modifies this
      ensures Valid()
      ensures UploadStep(old(db), r, access, now, out, db)
      ensures UploadMeaning(old(db), r, access, now, out, db)
    {
      ghost var before := db;
      out := UploadTx(r, access, now);
      UploadMeans(before, r, access, now, out, db);
      StepKeepsSane(State(before, now), Upload(r, access, out), State(db, now));
    }

    method UploadTx(r: Request, access: Access, now: int) returns (out: Outcome)
      modifies this
      ensures UploadStep(old(db), r, access, now, out, db)
    {
      if !access.current {
        return Refused;
      }
      var tx := db.(idem := AfterExpiry(db.idem, r.key, now));
      if HasRow(tx.idem, r) {
        var row := RowOf(tx.idem, r);
        if !Fits(row, NewDocument, r) {
          return Conflict;
        }
        if row.doc in tx.docs && (tx.docs[row.doc].system != r.system || !access.view(row.doc)) {
          return Refused;
        }
        db := tx;
        return Replayed(row.doc);
      }
      out := InsertOrResurrect(r, now);
    }

    /** Split origin, live copy, copy in Trash, or a new row, in that order. */
    method InsertOrResurrect(r: Request, now: int) returns (out: Outcome)
      modifies this
      ensures FreshUpload(old(db), r, now, out, db)
      ensures out.Restored? || out.Created? ==> LiveCopy(db.docs, r.system, r.user, r.blob, out.doc)
    {
      var tx := db.(idem := AfterExpiry(db.idem, r.key, now));
      var parent := FindSplitParent(tx.docs, r);
      if parent.Some? {
        if exists c :: c in tx.docs && ChildOf(tx.docs, parent.value, c) && tx.docs[c].trashedAt.Some? {
          return Refused;
        }
        tx := tx.(sources := tx.sources + {Source(parent.value, r.origin)});
        tx := tx.(idem := WithRow(tx.idem, r, NewDocument, parent.value, now));
        db := tx;
        return Deduplicated(parent.value);
      }
      var alive := FindLiveCopy(tx.docs, r.system, r.user, r.blob);
      if alive.Some? {
        tx := tx.(sources := tx.sources + {Source(alive.value, r.origin)});
        tx := tx.(idem := WithRow(tx.idem, r, NewDocument, alive.value, now));
        db := tx;
        return Deduplicated(alive.value);
      }
      var trashed := FindRecoverable(tx.docs, r, now);
      if trashed.Some? {
        tx := tx.(docs := WithTrashedAt(tx.docs, {trashed.value}, None));
        tx := tx.(moves := tx.moves + multiset{trashed.value});
        tx := tx.(sources := tx.sources + {Source(trashed.value, r.origin)});
        tx := tx.(idem := WithRow(tx.idem, r, NewDocument, trashed.value, now));
        db := tx;
        return Restored(trashed.value);
      }
      var id := tx.nextId;
      tx := tx.(docs := tx.docs[id := Doc(r.system, r.user, r.blob, None, 0, None, None, None, None)], nextId := id + 1);
      tx := tx.(sources := tx.sources + {Source(id, r.origin)});
      tx := tx.(ingests := tx.ingests + multiset{id});
      tx := tx.(idem := WithRow(tx.idem, r, NewDocument, id, now));
      db := tx;
      return Created(id);
    }

    method UploadNewVersion(r: Request, access: Access, prev: nat, freshFamily: nat, now: int) returns (out: Outcome)
      requires Valid() && UnusedFamily(db.docs, freshFamily)
      modifies this
      ensures Valid()
      ensures VersionStep(old(db), r, access, prev, freshFamily, now, out, db)
      ensures VersionMeaning(old(db), r, access, prev, now, out, db)
    {
      ghost var before := db;
      out := VersionTx(r, access, prev, freshFamily, now);
      VersionMeans(before, r, access, prev, freshFamily, now, out, db);
      StepKeepsSane(State(before, now), Version(r, access, prev, freshFamily, out), State(db, now));
    }

    method VersionTx(r: Request, access: Access, prev: nat, freshFamily: nat, now: int) returns (out: Outcome)
      requires db.nextId !in db.docs
      modifies this
      ensures VersionStep(old(db), r, access, prev, freshFamily, now, out, db)
    {
      if !Live(db.docs, prev) || !access.change(prev) {
        return Refused;
      }
      var tx := db.(idem := AfterExpiry(db.idem, r.key, now));
      if HasRow(tx.idem, r) {
        var row := RowOf(tx.idem, r);
        if !Fits(row, NewVersion(prev), r) {
          return Conflict;
        }
        if !Live(tx.docs, row.doc) || !access.view(row.doc) {
          return Refused;
        }
        db := tx;
        return Replayed(row.doc);
      }
      out := RecoverOrVersion(r, access, prev, freshFamily, now);
    }

    method RecoverOrVersion(r: Request, access: Access, prev: nat, freshFamily: nat, now: int) returns (out: Outcome)
      requires prev in db.docs && db.nextId !in db.docs
      modifies this
      ensures FreshVersion(old(db), r, access, prev, freshFamily, now, out, db)
      ensures out.Created? ==> VersionRows(old(db), prev, r.blob, out.doc, db)
    {
      var doc := db.docs[prev];
      if r.key.Some? {
        var same := FindSameVersion(db.docs, prev, r.blob);
        if same.Some? {
          if !Live(db.docs, same.value) || !access.view(same.value) {
            return Refused;
          }
          db := db.(idem := WithRow(AfterExpiry(db.idem, r.key, now), r, NewVersion(prev), same.value, now));
          return Recovered(same.value);
        }
      }
      if doc.family.Some? {
        var head := FamilyHead(db.docs, prev);
        if head != prev {
          return Refused;
        }
      }
      var duplicate := FindLiveCopy(db.docs, doc.system, doc.owner, r.blob);
      if duplicate.Some? {
        return Refused;
      }
      if LayoutUnreadable(db, doc) {
        return Refused;
      }
      out := Created(db.nextId);
      VersionRowsMean(db, r, prev, freshFamily, now);
      AppendVersion(r, prev, freshFamily, now);
    }

    /** The writes: family key, new row, source, number and layout transfer, job, stored response. */
    method AppendVersion(r: Request, prev: nat, freshFamily: nat, now: int)
      requires prev in db.docs && db.nextId !in db.docs && !LayoutUnreadable(db, db.docs[prev])
      modifies this
      ensures db == Versioned(old(db), r, prev, freshFamily, now)
    {
      var id := db.nextId;
      var tx := AddVersionRow(db, r.blob, prev, freshFamily);
      tx := TransferNumber(tx, prev, id);
      TransferredIsVersioned(db, r, prev, freshFamily, now, tx);
      tx := tx.(sources := tx.sources + {Source(id, r.origin)});
      tx := tx.(ingests := tx.ingests + multiset{id});
      tx := tx.(idem := WithRow(AfterExpiry(tx.idem, r.key, now), r, NewVersion(prev), id, now));
      db := tx;
    }

    method SoftDeleteDocument(allowed: bool, id: nat, now: int) returns (affected: bool)
      requires Valid()
      modifies this
      ensures Valid()
      ensures db == SoftDeleted(old(db), allowed, id, now)
      ensures affected <==> allowed && Live(old(db).docs, id)
    {
      ghost var before := db;
      affected := allowed && Live(db.docs, id);
      if affected {
        db := db.(docs := WithTrashedAt(db.docs, {id}, Some(now)));
      }
      StepKeepsSane(State(before, now), SoftDelete(allowed, id), State(db, now));
    }

    method RestoreDocument(allowed: bool, id: nat, seen: int, now: int) returns (affected: bool)
      requires Valid() && seen <= now
      modifies this
      ensures Valid()
      ensures db == RestoreOne(old(db), allowed, id, seen)
      ensures affected <==> RestoreApplies(old(db), allowed, id, seen)
    {
      ghost var before := db;
      affected := false;
      if allowed && id in db.docs && InWindow(db.docs[id], seen) {
        // The unique index on live rows rejects the update if another copy is live.
        if !Blocked(db.docs, id) {
          var tx := db.(docs := WithTrashedAt(db.docs, {id}, None));
          tx := tx.(moves := tx.moves + multiset{id});
          db := tx;
          affected := true;
        }
      }
      StepKeepsSane(State(before, now), Restore(allowed, id, seen), State(db, now));
    }

    method BulkTrashDocuments(allowed: bool, ids: seq<nat>, now: int)
      requires Valid()
      modifies this
      ensures Valid()
      ensures db == BulkTrashed(old(db), allowed, ids, now)
    {
      ghost var before := db;
      if allowed {
        var docs := TrashEach(db.docs, ids, now);
        db := db.(docs := docs);
      }
      StepKeepsSane(State(before, now), BulkTrash(allowed, ids), State(db, now));
    }

    /** All or nothing: one expired or missing document, or one copy already live, stops the batch. */
    method BulkRestoreDocuments(allowed: bool, ids: seq<nat>, now: int) returns (ok: bool)
      requires Valid()
      modifies this
      ensures Valid()
      ensures db == BulkRestored(old(db), allowed, ids, now)
      ensures ok <==> BulkRestoreApplies(old(db), allowed, ids, now)
    {
      ghost var before := db;
      ok := allowed && forall id :: id in ids ==> id in db.docs && (db.docs[id].trashedAt.Some? ==> InWindow(db.docs[id], now));
      if ok {
        var docs: Docs;
        docs, ok := ReviveAll(db.docs, ids);
        if ok {
          db := db.(docs := docs, moves := db.moves + multiset(ids));
        }
      }
      StepKeepsSane(State(before, now), BulkRestore(allowed, ids), State(db, now));
    }

    method PatchDocument(allowed: bool, id: nat, edit: Edit, now: int) returns (ok: bool)
      requires Valid()
      modifies this
      ensures Valid()
      ensures db == Patched(old(db), allowed, id, edit)
      ensures ok <==> !PatchRefused(old(db), allowed, id, edit)
    {
      ghost var before := db;
      ok := PatchTx(allowed, id, edit);
      StepKeepsSane(State(before, now), Patch(allowed, id, edit), State(db, now));
    }

    method PatchTx(allowed: bool, id: nat, edit: Edit) returns (ok: bool)
      modifies this
      ensures db == Patched(old(db), allowed, id, edit)
      ensures ok <==> !PatchRefused(old(db), allowed, id, edit)
    {
      if (edit.asn.None? && edit.layout.None? && !edit.naming && !edit.other) || !allowed || id !in db.docs {
        return false;
      }
      var doc := db.docs[id];
      var changed := edit.asn.Some? && edit.asn.value != doc.asn;
      if edit.asn.Some? && edit.asn.value.Some? {
        if doc.trashedAt.Some? || Historical(db.docs, id) {
          return false;
        }
        if AsnTaken(db.docs, id, edit.asn.value.value) {
          return false;
        }
      }
      var asn := doc.asn;
      if edit.asn.Some? {
        asn := edit.asn.value;
      }
      var layout := doc.layout;
      if edit.layout.Some? {
        layout := edit.layout.value;
      }
      var usesAsn := false;
      if layout.Some? {
        if layout.value !in db.layouts || db.layouts[layout.value].system != doc.system {
          return false;
        }
        usesAsn := db.layouts[layout.value].usesAsn;
        if usesAsn && asn.None? {
          return false;
        }
      }
      if !changed && edit.layout.None? && !edit.naming && !edit.other {
        assert db.docs[id := doc] == db.docs;
        return true;
      }
      var tx := db.(docs := db.docs[id := doc.(asn := asn, layout := layout)]);
      if (edit.naming || edit.layout.Some? || (changed && usesAsn)) && doc.trashedAt.None? {
        tx := tx.(moves := tx.moves + multiset{id});
      }
      db := tx;
      return true;
    }

    /** Layout lookup, the missing-number query, the queue for changed rows, then the update. */
    method BulkSetLayout(allowed: bool, system: nat, ids: seq<nat>, layout: Option<nat>, now: int) returns (ok: bool)
      requires Valid()
      modifies this
      ensures Valid()
      ensures db == BulkLaidOut(old(db), allowed, system, ids, layout)
      ensures ok <==> BulkLayoutApplies(old(db), allowed, system, ids, layout)
    {
      ghost var before := db;
      ok := LayoutTx(allowed, system, ids, layout);
      StepKeepsSane(State(before, now), BulkLayout(allowed, system, ids, layout), State(db, now));
    }

    method LayoutTx(allowed: bool, system: nat, ids: seq<nat>, layout: Option<nat>) returns (ok: bool)
      modifies this
      ensures db == BulkLaidOut(old(db), allowed, system, ids, layout)
      ensures ok <==> BulkLayoutApplies(old(db), allowed, system, ids, layout)
    {
      if !allowed {
        return false;
      }
      if layout.Some? {
        if layout.value !in db.layouts || db.layouts[layout.value].system != system {
          return false;
        }
        if db.layouts[layout.value].usesAsn {
          var missing := SomeWithoutNumber(db.docs, ids);
          if missing {
            return false;
          }
        }
      }
      var changed := ChangedIds(db.docs, ids, layout);
      var moves := EnqueueMoves(db.docs, db.moves, changed);
      assert (set id | id in changed && Live(db.docs, id)) == set id | id in ids && Live(db.docs, id) && db.docs[id].layout != layout;
      var docs := SetLayouts(db.docs, ids, layout);
      db := db.(docs := docs, moves := moves);
      return true;
    }

    /** The selection without repeats, the trashed rows among it, and their deletion. */
    method PurgeSelected(allowed: bool, system: nat, ids: seq<nat>, now: int) returns (ok: bool)
      requires Valid()
      modifies this
      ensures Valid()
      ensures db == SelectionPurged(old(db), allowed, system, ids)
      ensures ok <==> allowed && 0 !in ids
    {
      ghost var before := db;
      ok := allowed;
      if ok {
        var normalized;
        ok, normalized := Normalize(ids);
        if ok {
          var gone := TrashedAmong(db.docs, system, normalized);
          assert gone == PurgeCandidates(db, system, ids);
          DeleteRows(gone);
        }
      }
      StepKeepsSane(State(before, now), PurgeIds(allowed, system, ids), State(db, now));
    }

    method PurgeOverdue(seen: int, now: int)
      requires Valid() && seen <= now
      modifies this
      ensures Valid()
      ensures db == Purged(old(db), ExpiredCandidates(old(db), seen))
    {
      ghost var before := db;
      var cutoff := seen - RETENTION;
      var gone := TrashedUpTo(db.docs, cutoff);
      assert gone == ExpiredCandidates(db, seen);
      DeleteRows(gone);
      StepKeepsSane(State(before, now), PurgeExpired(seen), State(db, now));
    }

    /** Jobs first, then the documents with what the schema cascades. */
    method DeleteRows(gone: set<nat>)
      modifies this
      ensures db == Purged(old(db), gone)
    {
      var ingests := DropJobs(db.ingests, gone);
      var moves := DropJobs(db.moves, gone);
      var tx := db.(ingests := ingests, moves := moves);
      tx := tx.(docs := Without(tx.docs, gone));
      tx := tx.(idem := map slot | slot in tx.idem && tx.idem[slot].doc !in gone :: tx.idem[slot]);
      tx := tx.(sources := (set s | s in tx.sources && s.doc !in gone));
      db := tx;
    }
  }

  /** Stamps the named rows one by one, skipping those already in Trash. */
  method TrashEach(docs: Docs, ids: seq<nat>, now: int) returns (r: Docs)
    ensures r == WithTrashedAt(docs, LiveOf(docs, ids), Some(now))
  {
    r := docs;
    assert WithTrashedAt(docs, {}, Some(now)) == docs;
    for i := 0 to |ids|
      invariant r == WithTrashedAt(docs, LiveOf(docs, ids[..i]), Some(now))
    {
      var id := ids[i];
      assert ids[..i + 1] == ids[..i] + [id];
      assert LiveOf(docs, ids[..i + 1]) == LiveOf(docs, ids[..i]) + (if Live(docs, id) then {id} else {});
      if id in r && r[id].trashedAt.None? {
        r := r[id := r[id].(trashedAt := Some(now))];
      }
    }
    assert ids[..|ids|] == ids;
  }

  // ---------- layouts in bulk ----------

  /** Whether a named row has no serial number. */
  method SomeWithoutNumber(docs: Docs, ids: seq<nat>) returns (missing: bool)
    ensures missing <==> exists id :: id in ids && id in docs && docs[id].asn.None?
  {
    missing := false;
    for i := 0 to |ids|
      invariant !missing && forall j :: 0 <= j < i && ids[j] in docs ==> docs[ids[j]].asn.Some?
    {
      if ids[i] in docs && docs[ids[i]].asn.None? {
        return true;
      }
    }
  }

  /** The named rows whose layout the update changes. */
  method ChangedIds(docs: Docs, ids: seq<nat>, layout: Option<nat>) returns (changed: set<nat>)
    ensures changed == set id | id in ids && id in docs && docs[id].layout != layout
  {
    changed := {};
    for i := 0 to |ids|
      invariant changed == set id | id in ids[..i] && id in docs && docs[id].layout != layout
    {
      assert ids[..i + 1] == ids[..i] + [ids[i]];
      if ids[i] in docs && docs[ids[i]].layout != layout {
        changed := changed + {ids[i]};
      }
    }
    assert ids[..|ids|] == ids;
  }

  /** One render job for each row that is not in Trash. */
  method EnqueueMoves(docs: Docs, moves: multiset<nat>, ids: set<nat>) returns (r: multiset<nat>)
    ensures r == moves + multiset(set id | id in ids && Live(docs, id))
  {
    r := moves;
    var left := ids;
    while left != {}
      invariant left <= ids
      invariant r == moves + multiset(set id | id in ids - left && Live(docs, id))
      decreases left
    {
      var id := Iteration.Pick(left);
      ghost var before := set x | x in ids - left && Live(docs, x);
      left := left - {id};
      if Live(docs, id) {
        r := r + multiset{id};
        assert (set x | x in ids - left && Live(docs, x)) == before + {id};
      } else {
        assert (set x | x in ids - left && Live(docs, x)) == before;
      }
    }
    assert ids - left == ids;
  }

  method SetLayouts(docs: Docs, ids: seq<nat>, layout: Option<nat>) returns (r: Docs)
    ensures r == WithLayout(docs, ToSet(ids), layout)
  {
    r := docs;
    assert WithLayout(docs, {}, layout) == docs;
    for i := 0 to |ids|
      invariant r == WithLayout(docs, ToSet(ids[..i]), layout)
    {
      assert ids[..i + 1] == ids[..i] + [ids[i]];
      assert ToSet(ids[..i + 1]) == ToSet(ids[..i]) + {ids[i]};
      if ids[i] in r {
        r := r[ids[i] := r[ids[i]].(layout := layout)];
      }
    }
    assert ids[..|ids|] == ids;
  }

  // ---------- purge queries ----------

  /** Each id once; an id of zero is refused. */
  method Normalize(ids: seq<nat>) returns (ok: bool, normalized: seq<nat>)
    ensures ok <==> 0 !in ids
    ensures ok ==> ToSet(normalized) == ToSet(ids) && |normalized| == |ToSet(ids)|
  {
    ok, normalized := true, [];
    var seen: set<nat> := {};
    for i := 0 to |ids|
      invariant ok && 0 !in ids[..i]
      invariant seen == ToSet(ids[..i]) == ToSet(normalized) && |normalized| == |seen|
    {
      assert ids[..i + 1] == ids[..i] + [ids[i]];
      if ids[i] == 0 {
        return false, [];
      }
      assert ToSet(ids[..i + 1]) == ToSet(ids[..i]) + {ids[i]};
      if ids[i] !in seen {
        seen := seen + {ids[i]};
        assert ToSet(normalized + [ids[i]]) == ToSet(normalized) + {ids[i]};
        normalized := normalized + [ids[i]];
      }
    }
    assert ids[..|ids|] == ids;
  }

  method TrashedAmong(docs: Docs, system: nat, ids: seq<nat>) returns (rows: set<nat>)
    ensures rows == set id | id in docs && id in ToSet(ids) && docs[id].trashedAt.Some? && docs[id].system == system
  {
    rows := {};
    for i := 0 to |ids|
      invariant rows == set id | id in docs && id in ToSet(ids[..i]) && docs[id].trashedAt.Some? && docs[id].system == system
    {
      assert ids[..i + 1] == ids[..i] + [ids[i]];
      assert ToSet(ids[..i + 1]) == ToSet(ids[..i]) + {ids[i]};
      if ids[i] in docs && docs[ids[i]].trashedAt.Some? && docs[ids[i]].system == system {
        rows := rows + {ids[i]};
      }
    }
    assert ids[..|ids|] == ids;
  }

  /** All systems' rows trashed at or before a cutoff. */
  method TrashedUpTo(docs: Docs, cutoff: int) returns (rows: set<nat>)
    ensures rows == set id | id in docs && docs[id].trashedAt.Some? && docs[id].trashedAt.value <= cutoff
  {
    rows := {};
    var left := docs.Keys;
    while left != {}
      invariant left <= docs.Keys
      invariant rows == set id | id in docs && id !in left && docs[id].trashedAt.Some? && docs[id].trashedAt.value <= cutoff
      decreases left
    {
      var id := Iteration.Pick(left);
      if docs[id].trashedAt.Some? && docs[id].trashedAt.value <= cutoff {
        rows := rows + {id};
      }
      left := left - {id};
    }
  }

  // ---------- restoring in bulk ----------

  /** Clears trashed_at row by row; the unique index is checked at each row. */
  method ReviveAll(docs: Docs, ids: seq<nat>) returns (revived: Docs, ok: bool)
    requires LiveUnique(docs) && forall id :: id in ids ==> id in docs
    ensures ok <==> LiveUnique(WithTrashedAt(docs, ToSet(ids), None))
    ensures ok ==> revived == WithTrashedAt(docs, ToSet(ids), None)
  {
    revived, ok := docs, true;
    assert WithTrashedAt(docs, {}, None) == docs;
    for i := 0 to |ids|
      invariant revived == WithTrashedAt(docs, ToSet(ids[..i]), None) && LiveUnique(revived)
    {
      var id := ids[i];
      assert ToSet(ids[..i + 1]) == ToSet(ids[..i]) + {id};
      if Blocked(revived, id) {
        BlockedStaysBlocked(docs, ids, revived, id);
        return revived, false;
      }
      ghost var before := revived;
      revived := WithTrashedAt(revived, {id}, None);
      assert revived == WithTrashedAt(docs, ToSet(ids[..i + 1]), None);
      LiveGrows(before, revived, id);
    }
    assert ids[..|ids|] == ids;
  }

  lemma BlockedStaysBlocked(docs: Docs, ids: seq<nat>, partial: Docs, id: nat)
    requires id in ids && id in docs && partial.Keys == docs.Keys && Blocked(partial, id)
    requires forall n :: n in docs ==> SameContent(partial[n], docs[n])
    requires forall n :: Live(partial, n) ==> Live(docs, n) || n in ids
    ensures !LiveUnique(WithTrashedAt(docs, ToSet(ids), None))
  {
    var full := WithTrashedAt(docs, ToSet(ids), None);
    var n :| n in partial && n != id && Live(partial, n) && SameContent(partial[n], partial[id]);
    assert Live(full, n) && Live(full, id) && SameContent(full[n], full[id]);
  }
}
