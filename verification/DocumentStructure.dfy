/**
 What every run keeps about version families, archive serial numbers and layouts:
 with the layouts fixed, whatever order the transactions come in.
 */
module DocumentStructure {
  import opened Options
  import opened Documents
  import LatestVersion

  // ---------- the facts ----------

  predicate NoSharedPredecessor(docs: Docs) {
    forall a, b :: a in docs && b in docs && docs[a].prev.Some? && docs[a].prev == docs[b].prev ==> a == b
  }

  predicate AsnUnique(docs: Docs) {
    forall a, b :: a in docs && b in docs && docs[a].system == docs[b].system ==>
      docs[a].asn.Some? && docs[a].asn == docs[b].asn ==> a == b
  }

  ghost predicate AsnAtHead(docs: Docs) {
    forall a :: a in docs && docs[a].asn.Some? ==> IsFamilyHead(docs, a)
  }

  predicate NeedsAsn(db: Db, layout: Option<nat>) {
    layout.Some? && layout.value in db.layouts && db.layouts[layout.value].usesAsn
  }

  predicate LayoutsHaveAsn(db: Db) {
    forall a :: a in db.docs && NeedsAsn(db, db.docs[a].layout) ==> db.docs[a].asn.Some?
  }

  predicate FamiliesInOneSystem(docs: Docs) {
    forall a, b :: a in docs && b in docs && docs[a].family.Some? ==>
      docs[a].family == docs[b].family ==> docs[a].system == docs[b].system
  }

  // ---------- the same facts row by row and pair by pair ----------

  predicate RowOk(db: Db, id: nat, doc: Doc) {
    && 0 < id < db.nextId
    && (doc.prev.Some? ==> doc.prev.value in db.docs)
    && (NeedsAsn(db, doc.layout) ==> doc.asn.Some?)
  }

  predicate SameFamily(x: Doc, y: Doc) {
    x.family.Some? && x.family == y.family && x.system == y.system
  }

  predicate Compatible(a: nat, x: Doc, b: nat, y: Doc) {
    && (x.prev == Some(b) ==> b < a && SameFamily(x, y))
    && (x.prev.Some? && x.prev == y.prev ==> a == b)
    && (x.asn.Some? && x.asn == y.asn && x.system == y.system ==> a == b)
    && (x.asn.Some? && SameFamily(x, y) ==> b <= a)
    && (x.family.Some? && x.family == y.family ==> x.system == y.system)
  }

  predicate Structure(db: Db) {
    && db.nextId > 0
    && (forall id :: id in db.docs ==> RowOk(db, id, db.docs[id]))
    && (forall a, b :: a in db.docs && b in db.docs ==> Compatible(a, db.docs[a], b, db.docs[b]))
  }

  lemma StructureMeans(db: Db)
    requires Structure(db)
    ensures NoSharedPredecessor(db.docs) && AsnUnique(db.docs) && AsnAtHead(db.docs)
    ensures LayoutsHaveAsn(db) && FamiliesInOneSystem(db.docs)
  {
    var docs := db.docs;
    forall a, b | a in docs && b in docs
      ensures Compatible(a, docs[a], b, docs[b])
    {}
    forall a, n: nat | a in docs && docs[a].asn.Some? && InFamily(docs, docs[a], n) ensures n <= a {
      assert Compatible(a, docs[a], n, docs[n]);
    }
  }

  // ---------- changes that leave these columns alone ----------

  predicate SameColumns(a: Doc, b: Doc) {
    a.system == b.system && a.prev == b.prev && a.family == b.family && a.asn == b.asn && a.layout == b.layout
  }

  predicate SameShape(db: Db, db': Db) {
    && db'.docs.Keys == db.docs.Keys && db'.nextId == db.nextId && db'.layouts == db.layouts
    && forall id :: id in db.docs ==> SameColumns(db.docs[id], db'.docs[id])
  }

  lemma ShapeKeeps(db: Db, db': Db)
    requires Structure(db) && SameShape(db, db')
    ensures Structure(db')
  {
    forall id | id in db'.docs ensures RowOk(db', id, db'.docs[id]) {
      assert RowOk(db, id, db.docs[id]);
    }
    forall a, b | a in db'.docs && b in db'.docs ensures Compatible(a, db'.docs[a], b, db'.docs[b]) {
      assert Compatible(a, db.docs[a], b, db.docs[b]);
    }
  }

  // ---------- inserting ----------

  lemma InsertKeeps(db: Db, r: Request, now: int)
    requires Structure(db)
    ensures Structure(Inserted(db, r, now))
  {
    var db' := Inserted(db, r, now);
    forall id | id in db'.docs ensures RowOk(db', id, db'.docs[id]) {
      assert id in db.docs ==> RowOk(db, id, db.docs[id]);
    }
    forall a, b | a in db'.docs && b in db'.docs ensures Compatible(a, db'.docs[a], b, db'.docs[b]) {
      InsertPair(db, r, a, b);
    }
  }

  lemma InsertPair(db: Db, r: Request, a: nat, b: nat)
    requires Structure(db)
    requires a in db.docs || a == db.nextId
    requires b in db.docs || b == db.nextId
    ensures var doc := Doc(r.system, r.user, r.blob, None, 0, None, None, None, None);
      Compatible(a, if a == db.nextId then doc else db.docs[a], b, if b == db.nextId then doc else db.docs[b])
  {
    assert a in db.docs ==> RowOk(db, a, db.docs[a]);
    assert a in db.docs && b in db.docs ==> Compatible(a, db.docs[a], b, db.docs[b]);
  }

  ghost predicate CanVersion(db: Db, prev: nat, freshFamily: nat) {
    && Structure(db) && UnusedFamily(db.docs, freshFamily)
    && prev in db.docs && IsFamilyHead(db.docs, prev) && !LayoutUnreadable(db, db.docs[prev])
  }

  /** Nothing follows a document that heads its family: the reason a second successor is impossible. */
  lemma HeadHasNoSuccessor(db: Db, prev: nat, id: nat)
    requires Structure(db) && prev in db.docs && IsFamilyHead(db.docs, prev) && id in db.docs
    ensures db.docs[id].prev != Some(prev)
    ensures SameFamily(db.docs[prev], db.docs[id]) ==> id <= prev
    ensures id != prev && db.docs[id].asn.Some? ==> !SameFamily(db.docs[id], db.docs[prev])
  {
    var docs := db.docs;
    assert Compatible(id, docs[id], prev, docs[prev]);
    assert SameFamily(docs[prev], docs[id]) ==> InFamily(docs, docs[prev], id);
  }

  /** An old row beside the predecessor's new row and the successor. */
  lemma VersionPair(db: Db, prev: nat, freshFamily: nat, blob: nat, a: nat)
    requires CanVersion(db, prev, freshFamily) && a in db.docs && a != prev
    ensures var x, p := db.docs[a], Predecessor(db, db.docs[prev], freshFamily);
      var n := Successor(db, db.docs[prev], prev, blob, freshFamily);
      && Compatible(a, x, prev, p) && Compatible(prev, p, a, x)
      && Compatible(a, x, db.nextId, n) && Compatible(db.nextId, n, a, x)
  {
    var docs := db.docs;
    HeadHasNoSuccessor(db, prev, a);
    assert RowOk(db, a, docs[a]) && RowOk(db, prev, docs[prev]);
    assert Compatible(a, docs[a], prev, docs[prev]) && Compatible(prev, docs[prev], a, docs[a]);
  }

  lemma VersionSelf(db: Db, prev: nat, freshFamily: nat, blob: nat)
    requires CanVersion(db, prev, freshFamily)
    ensures var p := Predecessor(db, db.docs[prev], freshFamily);
      var n := Successor(db, db.docs[prev], prev, blob, freshFamily);
      && Compatible(prev, p, prev, p) && Compatible(db.nextId, n, db.nextId, n)
      && Compatible(prev, p, db.nextId, n) && Compatible(db.nextId, n, prev, p)
  {
    HeadHasNoSuccessor(db, prev, prev);
    assert RowOk(db, prev, db.docs[prev]);
    assert Compatible(prev, db.docs[prev], prev, db.docs[prev]);
  }

  lemma VersionRow(db: Db, r: Request, prev: nat, freshFamily: nat, now: int, id: nat)
    requires CanVersion(db, prev, freshFamily)
    requires id in Versioned(db, r, prev, freshFamily, now).docs
    ensures var db' := Versioned(db, r, prev, freshFamily, now); RowOk(db', id, db'.docs[id])
  {
    assert id in db.docs ==> RowOk(db, id, db.docs[id]);
    assert RowOk(db, prev, db.docs[prev]);
  }

  lemma VersionKeeps(db: Db, r: Request, prev: nat, freshFamily: nat, now: int)
    requires CanVersion(db, prev, freshFamily)
    ensures Structure(Versioned(db, r, prev, freshFamily, now))
  {
    var db' := Versioned(db, r, prev, freshFamily, now);
    forall id | id in db'.docs ensures RowOk(db', id, db'.docs[id]) {
      VersionRow(db, r, prev, freshFamily, now, id);
    }
    assert RowOk(db, prev, db.docs[prev]);
    assert db.nextId in db.docs ==> RowOk(db, db.nextId, db.docs[db.nextId]);
    forall a, b | a in db'.docs && b in db'.docs ensures Compatible(a, db'.docs[a], b, db'.docs[b]) {
      if a in db.docs && a != prev && b in db.docs && b != prev {
        assert Compatible(a, db.docs[a], b, db.docs[b]);
      } else if a in db.docs && a != prev {
        VersionPair(db, prev, freshFamily, r.blob, a);
      } else if b in db.docs && b != prev {
        VersionPair(db, prev, freshFamily, r.blob, b);
      } else {
        VersionSelf(db, prev, freshFamily, r.blob);
      }
    }
  }

  // ---------- editing ----------

  lemma PatchKeeps(db: Db, allowed: bool, id: nat, e: Edit)
    requires Structure(db)
    ensures Structure(Patched(db, allowed, id, e))
  {
    if !PatchRefused(db, allowed, id, e) {
      var docs, db' := db.docs, Patched(db, allowed, id, e);
      forall x | x in db'.docs ensures RowOk(db', x, db'.docs[x]) {
        assert RowOk(db, x, docs[x]);
      }
      forall a, b | a in db'.docs && b in db'.docs ensures Compatible(a, db'.docs[a], b, db'.docs[b]) {
        PatchPair(db, allowed, id, e, a, b);
      }
    }
  }

  lemma PatchPair(db: Db, allowed: bool, id: nat, e: Edit, a: nat, b: nat)
    requires Structure(db) && !PatchRefused(db, allowed, id, e) && a in db.docs && b in db.docs
    ensures var docs' := Patched(db, allowed, id, e).docs; Compatible(a, docs'[a], b, docs'[b])
  {
    var docs := db.docs;
    assert Compatible(a, docs[a], b, docs[b]);
    if e.asn.Some? && e.asn.value.Some? && a == id {
      assert !Historical(docs, id);
      assert SameFamily(docs[a], docs[b]) ==> InFamily(docs, docs[a], b);
    }
  }

  lemma LayoutKeeps(db: Db, allowed: bool, system: nat, ids: seq<nat>, layout: Option<nat>)
    requires Structure(db)
    ensures Structure(BulkLaidOut(db, allowed, system, ids, layout))
  {
    var db' := BulkLaidOut(db, allowed, system, ids, layout);
    forall id | id in db'.docs ensures RowOk(db', id, db'.docs[id]) {
      assert RowOk(db, id, db.docs[id]);
    }
    if BulkLayoutApplies(db, allowed, system, ids, layout) {
      PairsKeep(db.docs, WithLayout(db.docs, ToSet(ids), layout));
    }
  }

  /** Deleting rows, cutting links and changing layouts leave pairs compatible. */
  lemma PairsKeep(docs: Docs, docs': Docs)
    requires forall a, b :: a in docs && b in docs ==> Compatible(a, docs[a], b, docs[b])
    requires docs'.Keys <= docs.Keys
    requires forall id :: id in docs' ==>
      var x, y := docs[id], docs'[id];
      (y.prev == x.prev || y.prev.None?) && y.family == x.family && y.system == x.system && y.asn == x.asn
    ensures forall a, b :: a in docs' && b in docs' ==> Compatible(a, docs'[a], b, docs'[b])
  {
    forall a, b | a in docs' && b in docs' ensures Compatible(a, docs'[a], b, docs'[b]) {
      assert Compatible(a, docs[a], b, docs[b]);
    }
  }

  lemma PurgeKeeps(db: Db, gone: set<nat>)
    requires Structure(db)
    ensures Structure(Purged(db, gone))
  {
    var db' := Purged(db, gone);
    forall id | id in db'.docs ensures RowOk(db', id, db'.docs[id]) {
      assert RowOk(db, id, db.docs[id]);
    }
    PairsKeep(db.docs, Without(db.docs, gone));
  }

  // ---------- runs ----------

  lemma UploadKeeps(db: Db, r: Request, access: Access, now: int, out: Outcome, db': Db)
    requires Structure(db) && UploadStep(db, r, access, now, out, db')
    ensures Structure(db')
  {
    UploadEffect(db, r, access, now, out, db');
    if out.Created? {
      InsertKeeps(db, r, now);
    } else {
      ShapeKeeps(db, db');
    }
  }

  lemma VersionStepKeeps(db: Db, r: Request, access: Access, prev: nat, freshFamily: nat, now: int, out: Outcome, db': Db)
    requires Structure(db) && UnusedFamily(db.docs, freshFamily)
    requires VersionStep(db, r, access, prev, freshFamily, now, out, db')
    ensures Structure(db')
  {
    VersionEffect(db, r, access, prev, freshFamily, now, out, db');
    if out.Created? {
      VersionKeeps(db, r, prev, freshFamily, now);
    } else {
      ShapeKeeps(db, db');
    }
  }

  lemma StructureStep(s: State, a: Action, s': State)
    requires Structure(s.db) && Step(s, a, s')
    ensures Structure(s'.db)
  {
    match a
    case Tick(_) =>
    case Upload(r, access, out) => UploadKeeps(s.db, r, access, s.now, out, s'.db);
    case Version(r, access, prev, family, out) => VersionStepKeeps(s.db, r, access, prev, family, s.now, out, s'.db);
    case Patch(allowed, id, edit) => PatchKeeps(s.db, allowed, id, edit);
    case BulkLayout(allowed, system, ids, layout) => LayoutKeeps(s.db, allowed, system, ids, layout);
    case PurgeIds(allowed, system, ids) =>
      if allowed && 0 !in ids {
        PurgeKeeps(s.db, PurgeCandidates(s.db, system, ids));
      }
    case PurgeExpired(seen) => PurgeKeeps(s.db, ExpiredCandidates(s.db, seen));
    case PruneJobs(_, _) => ShapeKeeps(s.db, s'.db);
    case _ =>
      TrashKeepsShape(s, a, s');
      ShapeKeeps(s.db, s'.db);
  }

  lemma StampsKeepShape(db: Db, ids: set<nat>, at: Option<int>, db': Db)
    requires db'.docs == WithTrashedAt(db.docs, ids, at) && db'.nextId == db.nextId && db'.layouts == db.layouts
    ensures SameShape(db, db')
  {
  }

  /** Going to Trash and coming back touch no column that matters here. */
  lemma TrashKeepsShape(s: State, a: Action, s': State)
    requires Step(s, a, s') && (a.SoftDelete? || a.Restore? || a.BulkTrash? || a.BulkRestore?)
    ensures SameShape(s.db, s'.db)
  {
    if s'.db != s.db {
      match a
      case SoftDelete(_, id) => StampsKeepShape(s.db, {id}, Some(s.now), s'.db);
      case Restore(_, id, _) => StampsKeepShape(s.db, {id}, None, s'.db);
      case BulkTrash(_, ids) => StampsKeepShape(s.db, LiveOf(s.db.docs, ids), Some(s.now), s'.db);
      case BulkRestore(_, ids) => StampsKeepShape(s.db, ToSet(ids), None, s'.db);
    }
  }

  lemma {:induction false} StructureHolds(states: seq<State>, actions: seq<Action>, k: nat)
    requires IsRun(states, actions) && Structure(states[0].db) && k < |states|
    ensures Structure(states[k].db)
  {
    if k > 0 {
      StructureHolds(states, actions, k - 1);
      StructureStep(states[k - 1], actions[k - 1], states[k]);
    }
  }

  /**
   At every point of every run: no two documents share a predecessor, a serial number
   is unique in its system and sits on the newest document of its family, a layout
   that prints it finds one, and a family stays in one system.
   */
  lemma StructureRun(states: seq<State>, actions: seq<Action>, k: nat)
    requires IsRun(states, actions) && Structure(states[0].db) && k < |states|
    ensures var db := states[k].db;
      && NoSharedPredecessor(db.docs) && AsnUnique(db.docs) && AsnAtHead(db.docs)
      && LayoutsHaveAsn(db) && FamiliesInOneSystem(db.docs)
  {
    StructureHolds(states, actions, k);
    StructureMeans(states[k].db);
  }

  // ---------- what the version views rely on ----------

  function VersionView(docs: Docs): LatestVersion.Docs {
    map id | id in docs :: LatestVersion.Doc(docs[id].system, docs[id].family, docs[id].trashedAt.Some?)
  }

  /** So on every reachable archive the version list's head is the search's latest, for every caller. */
  lemma HeadsAgreeOnRuns(states: seq<State>, actions: seq<Action>, k: nat, vis: LatestVersion.Visibility)
    requires IsRun(states, actions) && Structure(states[0].db) && k < |states|
    ensures LatestVersion.HeadsAgree(VersionView(states[k].db.docs), vis)
  {
    StructureRun(states, actions, k);
    LatestVersion.HeadsAgreeExactly(VersionView(states[k].db.docs), vis);
  }
}
