/**
 The document tables and what each handler's write transaction does to them
 (core/api/documents.go, versions.go, documents_bulk.go, upload_idempotency.go and
 core/trash/trash.go). A transaction is one step; it reads the clock once. What the
 caller may see or change is part of the request.
 */
module Documents {
  import opened Options

  /** Both the recovery window of Trash and the life of a stored upload response: 30 days. */
  const RETENTION: int := 30 * 24 * 60 * 60

  datatype Doc = Doc(
    system: nat, owner: nat, blob: nat, trashedAt: Option<int>, splitOrigin: nat,
    prev: Option<nat>, family: Option<nat>, asn: Option<nat>, layout: Option<nat>)

  type Docs = map<nat, Doc>

  /** A storage path: the system it belongs to and whether its template reads the serial number. */
  datatype Layout = Layout(system: nat, usesAsn: bool)

  datatype Operation = NewDocument | NewVersion(predecessor: nat)

  /** A row of upload_idempotency. */
  datatype Stored = Stored(operation: Operation, fingerprint: nat, doc: nat, at: int)

  type Slot = (nat, nat)

  datatype Source = Source(doc: nat, origin: nat)

  /** `nextId` is SQLite's AUTOINCREMENT counter; `ingests` and `moves` are the job rows by document. */
  datatype Db = Db(
    docs: Docs, nextId: nat, idem: map<Slot, Stored>, sources: set<Source>,
    ingests: multiset<nat>, moves: multiset<nat>, layouts: map<nat, Layout>)

  datatype Request = Request(user: nat, system: nat, blob: nat, key: Option<nat>, fingerprint: nat, origin: nat)

  /** The authorization answers a handler gets inside its transaction. */
  datatype Access = Access(current: bool, view: nat -> bool, change: nat -> bool)

  const FULL_ACCESS := Access(true, (id: nat) => true, (id: nat) => true)

  datatype Outcome =
    | Refused
    | Conflict
    | Replayed(doc: nat)
    | Deduplicated(doc: nat)
    | Restored(doc: nat)
    | Created(doc: nat)
    | Recovered(doc: nat)

  // ---------- rows ----------

  predicate Live(docs: Docs, id: nat) {
    id in docs && docs[id].trashedAt.None?
  }

  predicate InWindow(doc: Doc, now: int) {
    doc.trashedAt.Some? && doc.trashedAt.value > now - RETENTION
  }

  predicate SameContent(a: Doc, b: Doc) {
    a.system == b.system && a.owner == b.owner && a.blob == b.blob
  }

  predicate Holds(doc: Doc, system: nat, owner: nat, blob: nat) {
    doc.system == system && doc.owner == owner && doc.blob == blob
  }

  predicate LiveCopy(docs: Docs, system: nat, owner: nat, blob: nat, id: nat) {
    Live(docs, id) && Holds(docs[id], system, owner, blob)
  }

  predicate TrashedCopy(docs: Docs, system: nat, owner: nat, blob: nat, id: nat) {
    id in docs && docs[id].trashedAt.Some? && Holds(docs[id], system, owner, blob)
  }

  predicate ChildOf(docs: Docs, parent: nat, id: nat) {
    id in docs && docs[id].splitOrigin == parent && parent != 0
  }

  /** A trashed document whose scan was split into others that still exist. */
  ghost predicate SplitParent(docs: Docs, r: Request, id: nat) {
    TrashedCopy(docs, r.system, r.user, r.blob, id) && exists c :: ChildOf(docs, id, c)
  }

  predicate RecoverableCopy(docs: Docs, r: Request, now: int, id: nat) {
    TrashedCopy(docs, r.system, r.user, r.blob, id) && InWindow(docs[id], now)
  }

  predicate TrashedNoLater(docs: Docs, a: nat, b: nat) {
    a in docs && b in docs && docs[a].trashedAt.Some? && docs[b].trashedAt.Some?
    && docs[a].trashedAt.value <= docs[b].trashedAt.value
  }

  /** The first row of `ORDER BY trashed_at DESC`: ties go either way. */
  ghost predicate LatestSplitParent(docs: Docs, r: Request, id: nat) {
    SplitParent(docs, r, id) && forall n :: SplitParent(docs, r, n) ==> TrashedNoLater(docs, n, id)
  }

  ghost predicate LatestRecoverable(docs: Docs, r: Request, now: int, id: nat) {
    RecoverableCopy(docs, r, now, id) && forall n :: RecoverableCopy(docs, r, now, n) ==> TrashedNoLater(docs, n, id)
  }

  // ---------- the idempotency table ----------

  function AfterExpiry(idem: map<Slot, Stored>, key: Option<nat>, now: int): map<Slot, Stored> {
    if key.None? then idem else map slot | slot in idem && idem[slot].at >= now - RETENTION :: idem[slot]
  }

  predicate HasRow(idem: map<Slot, Stored>, r: Request) {
    r.key.Some? && (r.user, r.key.value) in idem
  }

  function RowOf(idem: map<Slot, Stored>, r: Request): Stored
    requires HasRow(idem, r)
  {
    idem[(r.user, r.key.value)]
  }

  predicate Fits(row: Stored, operation: Operation, r: Request) {
    row.operation == operation && row.fingerprint == r.fingerprint
  }

  function WithRow(idem: map<Slot, Stored>, r: Request, operation: Operation, doc: nat, now: int): map<Slot, Stored> {
    if r.key.None? then idem else idem[(r.user, r.key.value) := Stored(operation, r.fingerprint, doc, now)]
  }

  // ---------- changes to the document rows ----------

  function WithTrashedAt(docs: Docs, ids: set<nat>, at: Option<int>): Docs {
    map id | id in docs :: if id in ids then docs[id].(trashedAt := at) else docs[id]
  }

  function WithLayout(docs: Docs, ids: set<nat>, layout: Option<nat>): Docs {
    map id | id in docs :: if id in ids then docs[id].(layout := layout) else docs[id]
  }

  /** Deletion, with `previous_version_id` ON DELETE SET NULL. */
  function Without(docs: Docs, gone: set<nat>): Docs {
    map id | id in docs && id !in gone ::
      if docs[id].prev.Some? && docs[id].prev.value in gone then docs[id].(prev := None) else docs[id]
  }

  /** Every live document has a row of its own in the unique index documents_owner_original_blob. */
  ghost predicate LiveUnique(docs: Docs) {
    forall a, b :: Live(docs, a) && Live(docs, b) && SameContent(docs[a], docs[b]) ==> a == b
  }

  // ---------- upload ----------

  /** An upload answered with a document that is already there. */
  function Reused(db: Db, r: Request, id: nat, now: int): Db {
    db.(idem := WithRow(AfterExpiry(db.idem, r.key, now), r, NewDocument, id, now),
        sources := db.sources + {Source(id, r.origin)})
  }

  function Undeleted(db: Db, r: Request, id: nat, now: int): Db {
    var db' := Reused(db, r, id, now);
    db'.(docs := WithTrashedAt(db.docs, {id}, None), moves := db.moves + multiset{id})
  }

  function Inserted(db: Db, r: Request, now: int): Db {
    var db' := Reused(db, r, db.nextId, now);
    db'.(docs := db.docs[db.nextId := Doc(r.system, r.user, r.blob, None, 0, None, None, None, None)],
         nextId := db.nextId + 1,
         ingests := db.ingests + multiset{db.nextId})
  }

  /** The transaction of UploadDocument when no stored response answers it. */
  ghost predicate FreshUpload(db: Db, r: Request, now: int, out: Outcome, db': Db) {
    if exists id :: SplitParent(db.docs, r, id) then
      exists id :: LatestSplitParent(db.docs, r, id) &&
        if exists c :: ChildOf(db.docs, id, c) && db.docs[c].trashedAt.Some?
        then out == Refused && db' == db
        else out == Deduplicated(id) && db' == Reused(db, r, id, now)
    else if exists id :: LiveCopy(db.docs, r.system, r.user, r.blob, id) then
      exists id :: LiveCopy(db.docs, r.system, r.user, r.blob, id)
        && out == Deduplicated(id) && db' == Reused(db, r, id, now)
    else if exists id :: RecoverableCopy(db.docs, r, now, id) then
      exists id :: LatestRecoverable(db.docs, r, now, id)
        && out == Restored(id) && db' == Undeleted(db, r, id, now)
    else
      out == Created(db.nextId) && db' == Inserted(db, r, now)
  }

  ghost predicate UploadStep(db: Db, r: Request, access: Access, now: int, out: Outcome, db': Db) {
    var idem := AfterExpiry(db.idem, r.key, now);
    if !access.current then out == Refused && db' == db
    else if HasRow(idem, r) then
      var row := RowOf(idem, r);
      if !Fits(row, NewDocument, r) then out == Conflict && db' == db
      else if row.doc in db.docs && (db.docs[row.doc].system != r.system || !access.view(row.doc)) then
        out == Refused && db' == db
      else out == Replayed(row.doc) && db' == db.(idem := idem)
    else FreshUpload(db, r, now, out, db')
  }

  /** What each outcome of an upload did. */
  ghost predicate UploadDid(db: Db, r: Request, now: int, out: Outcome, db': Db) {
    match out
    case Refused => db' == db
    case Conflict => db' == db
    case Replayed(id) => db' == db.(idem := AfterExpiry(db.idem, r.key, now))
    case Deduplicated(id) => id in db.docs && db' == Reused(db, r, id, now)
    case Restored(id) =>
      && RecoverableCopy(db.docs, r, now, id) && db' == Undeleted(db, r, id, now)
      && (forall n: nat :: !LiveCopy(db.docs, r.system, r.user, r.blob, n))
    case Created(id) =>
      && id == db.nextId && db' == Inserted(db, r, now)
      && (forall n: nat :: !LiveCopy(db.docs, r.system, r.user, r.blob, n))
      && (forall n: nat :: !RecoverableCopy(db.docs, r, now, n))
    case Recovered(_) => false
  }

  lemma UploadEffect(db: Db, r: Request, access: Access, now: int, out: Outcome, db': Db)
    requires UploadStep(db, r, access, now, out, db')
    ensures UploadDid(db, r, now, out, db')
  {
    if access.current && !HasRow(AfterExpiry(db.idem, r.key, now), r) {
      assert FreshUpload(db, r, now, out, db');
    }
  }

  // ---------- new version ----------

  /** A version of `prev` with these bytes already exists. */
  predicate SameVersion(docs: Docs, prev: nat, blob: nat, id: nat) {
    prev in docs && id in docs && docs[id].owner == docs[prev].owner && docs[id].prev == Some(prev) && docs[id].blob == blob
  }

  /** `ORDER BY (trashed_at IS NULL) DESC, id LIMIT 1`. */
  ghost predicate FirstSameVersion(docs: Docs, prev: nat, blob: nat, id: nat) {
    && SameVersion(docs, prev, blob, id)
    && forall n :: SameVersion(docs, prev, blob, n) ==>
        (Live(docs, id) && !Live(docs, n)) || (Live(docs, id) == Live(docs, n) && id <= n)
  }

  predicate InFamily(docs: Docs, doc: Doc, id: nat) {
    id in docs && doc.family.Some? && docs[id].family == doc.family && docs[id].system == doc.system
  }

  /** `previous` is the greatest id of its family, trashed members included. */
  ghost predicate IsFamilyHead(docs: Docs, id: nat)
    requires id in docs
  {
    forall n: nat :: InFamily(docs, docs[id], n) ==> n <= id
  }

  predicate LayoutMoves(db: Db, doc: Doc) {
    doc.asn.Some? && doc.layout.Some? && doc.layout.value in db.layouts && db.layouts[doc.layout.value].usesAsn
  }

  /** The transfer reads the layout's template, and fails without it. */
  predicate LayoutUnreadable(db: Db, doc: Doc) {
    doc.asn.Some? && doc.layout.Some?
    && (doc.layout.value !in db.layouts || db.layouts[doc.layout.value].system != doc.system)
  }

  function Predecessor(db: Db, doc: Doc, freshFamily: nat): Doc {
    doc.(family := if doc.family.Some? then doc.family else Some(freshFamily),
         asn := None,
         layout := if LayoutMoves(db, doc) then None else doc.layout)
  }

  function Successor(db: Db, doc: Doc, prev: nat, blob: nat, freshFamily: nat): Doc {
    Doc(doc.system, doc.owner, blob, None, 0, Some(prev),
        if doc.family.Some? then doc.family else Some(freshFamily),
        doc.asn,
        if LayoutMoves(db, doc) then doc.layout else None)
  }

  function Versioned(db: Db, r: Request, prev: nat, freshFamily: nat, now: int): Db
    requires prev in db.docs
  {
    var doc, id := db.docs[prev], db.nextId;
    db.(docs := db.docs[prev := Predecessor(db, doc, freshFamily)][id := Successor(db, doc, prev, r.blob, freshFamily)],
        nextId := id + 1,
        idem := WithRow(AfterExpiry(db.idem, r.key, now), r, NewVersion(prev), id, now),
        sources := db.sources + {Source(id, r.origin)},
        ingests := db.ingests + multiset{id},
        moves := db.moves + (if LayoutMoves(db, doc) then multiset{prev, id} else multiset{}))
  }

  /** The transaction of UploadNewVersion once its predecessor is live and may be changed. */
  ghost predicate FreshVersion(db: Db, r: Request, access: Access, prev: nat, freshFamily: nat, now: int, out: Outcome, db': Db)
    requires prev in db.docs
  {
    var doc := db.docs[prev];
    if r.key.Some? && exists id :: SameVersion(db.docs, prev, r.blob, id) then
      exists id :: FirstSameVersion(db.docs, prev, r.blob, id) &&
        if !Live(db.docs, id) || !access.view(id) then out == Refused && db' == db
        else
          && out == Recovered(id)
          && db' == db.(idem := WithRow(AfterExpiry(db.idem, r.key, now), r, NewVersion(prev), id, now))
    else if !IsFamilyHead(db.docs, prev) then out == Refused && db' == db
    else if exists id :: LiveCopy(db.docs, doc.system, doc.owner, r.blob, id) then out == Refused && db' == db
    else if LayoutUnreadable(db, doc) then out == Refused && db' == db
    else out == Created(db.nextId) && db' == Versioned(db, r, prev, freshFamily, now)
  }

  ghost predicate VersionStep(db: Db, r: Request, access: Access, prev: nat, freshFamily: nat, now: int, out: Outcome, db': Db) {
    var idem := AfterExpiry(db.idem, r.key, now);
    if !Live(db.docs, prev) || !access.change(prev) then out == Refused && db' == db
    else if HasRow(idem, r) then
      var row := RowOf(idem, r);
      if !Fits(row, NewVersion(prev), r) then out == Conflict && db' == db
      else if !Live(db.docs, row.doc) || !access.view(row.doc) then out == Refused && db' == db
      else out == Replayed(row.doc) && db' == db.(idem := idem)
    else FreshVersion(db, r, access, prev, freshFamily, now, out, db')
  }

  /** Read off the tables before the transaction: it will insert a version. */
  ghost predicate VersionCreates(db: Db, r: Request, access: Access, prev: nat, now: int) {
    && Live(db.docs, prev) && access.change(prev)
    && !HasRow(AfterExpiry(db.idem, r.key, now), r)
    && !(r.key.Some? && exists id :: SameVersion(db.docs, prev, r.blob, id))
    && IsFamilyHead(db.docs, prev)
    && !(exists id :: LiveCopy(db.docs, db.docs[prev].system, db.docs[prev].owner, r.blob, id))
    && !LayoutUnreadable(db, db.docs[prev])
  }

  lemma VersionCreatesExactly(db: Db, r: Request, access: Access, prev: nat, freshFamily: nat, now: int, out: Outcome, db': Db)
    requires VersionStep(db, r, access, prev, freshFamily, now, out, db')
    ensures out.Created? <==> VersionCreates(db, r, access, prev, now)
  {
    if Live(db.docs, prev) && access.change(prev) && !HasRow(AfterExpiry(db.idem, r.key, now), r) {
      assert FreshVersion(db, r, access, prev, freshFamily, now, out, db');
    }
  }

  /** What each outcome of a version upload did. */
  ghost predicate VersionDid(db: Db, r: Request, prev: nat, freshFamily: nat, now: int, out: Outcome, db': Db) {
    match out
    case Refused => db' == db
    case Conflict => db' == db
    case Replayed(id) => db' == db.(idem := AfterExpiry(db.idem, r.key, now))
    case Recovered(id) =>
      id in db.docs && db' == db.(idem := WithRow(AfterExpiry(db.idem, r.key, now), r, NewVersion(prev), id, now))
    case Created(id) =>
      && id == db.nextId && Live(db.docs, prev) && IsFamilyHead(db.docs, prev)
      && !LayoutUnreadable(db, db.docs[prev])
      && (forall n: nat :: !LiveCopy(db.docs, db.docs[prev].system, db.docs[prev].owner, r.blob, n))
      && db' == Versioned(db, r, prev, freshFamily, now)
    case _ => false
  }

  lemma VersionEffect(db: Db, r: Request, access: Access, prev: nat, freshFamily: nat, now: int, out: Outcome, db': Db)
    requires VersionStep(db, r, access, prev, freshFamily, now, out, db')
    ensures VersionDid(db, r, prev, freshFamily, now, out, db')
  {
    if Live(db.docs, prev) && access.change(prev) && !HasRow(AfterExpiry(db.idem, r.key, now), r) {
      assert FreshVersion(db, r, access, prev, freshFamily, now, out, db');
    }
  }

  // ---------- trash and restore ----------

  function SoftDeleted(db: Db, allowed: bool, id: nat, now: int): Db {
    if allowed && Live(db.docs, id) then db.(docs := WithTrashedAt(db.docs, {id}, Some(now))) else db
  }

  /** Some other document holds the same content live. */
  predicate Blocked(docs: Docs, id: nat)
    requires id in docs
  {
    exists n :: n in docs && n != id && Live(docs, n) && SameContent(docs[n], docs[id])
  }

  /** The cutoff comes from a clock reading `seen`, taken before the transaction began. */
  predicate RestoreApplies(db: Db, allowed: bool, id: nat, seen: int) {
    allowed && id in db.docs && InWindow(db.docs[id], seen) && !Blocked(db.docs, id)
  }

  function RestoreOne(db: Db, allowed: bool, id: nat, seen: int): Db {
    if RestoreApplies(db, allowed, id, seen)
    then db.(docs := WithTrashedAt(db.docs, {id}, None), moves := db.moves + multiset{id})
    else db
  }

  function ToSet(ids: seq<nat>): set<nat> {
    set id | id in ids
  }

  function LiveOf(docs: Docs, ids: seq<nat>): set<nat> {
    set id | id in ids && Live(docs, id)
  }

  function BulkTrashed(db: Db, allowed: bool, ids: seq<nat>, now: int): Db {
    if allowed
    then db.(docs := WithTrashedAt(db.docs, LiveOf(db.docs, ids), Some(now)))
    else db
  }

  /** All named documents exist, none is past its window, and the unique index accepts the result. */
  ghost predicate BulkRestoreApplies(db: Db, allowed: bool, ids: seq<nat>, now: int) {
    && allowed
    && (forall id :: id in ids ==> id in db.docs && (db.docs[id].trashedAt.Some? ==> InWindow(db.docs[id], now)))
    && LiveUnique(WithTrashedAt(db.docs, ToSet(ids), None))
  }

  ghost function BulkRestored(db: Db, allowed: bool, ids: seq<nat>, now: int): Db {
    if BulkRestoreApplies(db, allowed, ids, now)
    then db.(docs := WithTrashedAt(db.docs, ToSet(ids), None), moves := db.moves + multiset(ids))
    else db
  }

  // ---------- metadata ----------

  /** A PATCH body: absent fields are None, explicit nulls are Some(None). */
  datatype Edit = Edit(asn: Option<Option<nat>>, layout: Option<Option<nat>>, naming: bool, other: bool)

  predicate Historical(docs: Docs, id: nat)
    requires id in docs
  {
    exists n :: n in docs && InFamily(docs, docs[id], n) && n > id
  }

  function EditedAsn(doc: Doc, e: Edit): Option<nat> {
    if e.asn.Some? then e.asn.value else doc.asn
  }

  function EditedLayout(doc: Doc, e: Edit): Option<nat> {
    if e.layout.Some? then e.layout.value else doc.layout
  }

  predicate AsnTaken(docs: Docs, id: nat, asn: nat)
    requires id in docs
  {
    exists n :: n in docs && n != id && docs[n].system == docs[id].system && docs[n].asn == Some(asn)
  }

  predicate PatchRefused(db: Db, allowed: bool, id: nat, e: Edit) {
    || !allowed
    || id !in db.docs
    || (e.asn.None? && e.layout.None? && !e.naming && !e.other)
    || (e.asn.Some? && e.asn.value.Some?
        && (db.docs[id].trashedAt.Some? || Historical(db.docs, id) || AsnTaken(db.docs, id, e.asn.value.value)))
    || (var layout := EditedLayout(db.docs[id], e);
        layout.Some?
        && (layout.value !in db.layouts
            || db.layouts[layout.value].system != db.docs[id].system
            || (db.layouts[layout.value].usesAsn && EditedAsn(db.docs[id], e).None?)))
  }

  function Patched(db: Db, allowed: bool, id: nat, e: Edit): Db {
    if PatchRefused(db, allowed, id, e) then db
    else
      var doc := db.docs[id];
      var asn, layout := EditedAsn(doc, e), EditedLayout(doc, e);
      var renders := e.naming || e.layout.Some?
        || (asn != doc.asn && layout.Some? && db.layouts[layout.value].usesAsn);
      db.(docs := db.docs[id := doc.(asn := asn, layout := layout)],
          moves := db.moves + (if renders && doc.trashedAt.None? then multiset{id} else multiset{}))
  }

  /** The chosen layout belongs to the system and finds the number it needs on every document. */
  predicate BulkLayoutApplies(db: Db, allowed: bool, system: nat, ids: seq<nat>, layout: Option<nat>) {
    && allowed
    && (layout.Some? ==>
          && layout.value in db.layouts && db.layouts[layout.value].system == system
          && (db.layouts[layout.value].usesAsn ==>
                forall id :: id in ids && id in db.docs ==> db.docs[id].asn.Some?))
  }

  function BulkLaidOut(db: Db, allowed: bool, system: nat, ids: seq<nat>, layout: Option<nat>): Db {
    if BulkLayoutApplies(db, allowed, system, ids, layout)
    then db.(docs := WithLayout(db.docs, ToSet(ids), layout),
             moves := db.moves + multiset(set id | id in ids && Live(db.docs, id) && db.docs[id].layout != layout))
    else db
  }

  // ---------- purge ----------

  /** Deletes the job rows of some documents. */
  ghost function Drop(jobs: multiset<nat>, gone: set<nat>): (r: multiset<nat>)
    ensures forall id :: r[id] == if id in gone then 0 else jobs[id]
    decreases jobs
  {
    if forall id :: id in gone ==> jobs[id] == 0 then jobs
    else
      var id :| id in gone && id in jobs;
      Drop(jobs[id := 0], gone)
  }

  ghost function Purged(db: Db, gone: set<nat>): Db {
    db.(docs := Without(db.docs, gone),
        idem := map slot | slot in db.idem && db.idem[slot].doc !in gone :: db.idem[slot],
        sources := (set s | s in db.sources && s.doc !in gone),
        ingests := Drop(db.ingests, gone),
        moves := Drop(db.moves, gone))
  }

  function PurgeCandidates(db: Db, system: nat, ids: seq<nat>): set<nat> {
    set id | id in db.docs && id in ids && db.docs[id].trashedAt.Some? && db.docs[id].system == system
  }

  /** An id of zero is an error, and stops the whole selection. */
  ghost function SelectionPurged(db: Db, allowed: bool, system: nat, ids: seq<nat>): Db {
    if allowed && 0 !in ids then Purged(db, PurgeCandidates(db, system, ids)) else db
  }

  function ExpiredCandidates(db: Db, seen: int): set<nat> {
    set id | id in db.docs && db.docs[id].trashedAt.Some? && !InWindow(db.docs[id], seen)
  }

  // ---------- runs ----------

  datatype State = State(db: Db, now: int)

  datatype Action =
    | Upload(r: Request, access: Access, out: Outcome)
    | Version(r: Request, access: Access, prev: nat, freshFamily: nat, out: Outcome)
    | SoftDelete(allowed: bool, id: nat)
    | Restore(allowed: bool, id: nat, seen: int)
    | BulkTrash(allowed: bool, ids: seq<nat>)
    | BulkRestore(allowed: bool, ids: seq<nat>)
    | Patch(allowed: bool, id: nat, edit: Edit)
    | BulkLayout(allowed: bool, system: nat, ids: seq<nat>, layout: Option<nat>)
    | PurgeIds(allowed: bool, system: nat, ids: seq<nat>)
    | PurgeExpired(seen: int)
    | PruneJobs(ingested: multiset<nat>, moved: multiset<nat>)
    | Tick(seconds: nat)

  /** A random family key is not in use. */
  predicate UnusedFamily(docs: Docs, family: nat) {
    forall id :: id in docs ==> docs[id].family != Some(family)
  }

  ghost predicate Step(s: State, a: Action, s': State) {
    if a.Tick? then s' == s.(now := s.now + a.seconds)
    else s'.now == s.now && DbStep(s.db, a, s.now, s'.db)
  }

  ghost predicate DbStep(db: Db, a: Action, now: int, db': Db)
    requires !a.Tick?
  {
    match a
    case Upload(r, access, out) => UploadStep(db, r, access, now, out, db')
    case Version(r, access, prev, freshFamily, out) =>
      UnusedFamily(db.docs, freshFamily) && VersionStep(db, r, access, prev, freshFamily, now, out, db')
    case SoftDelete(allowed, id) => db' == SoftDeleted(db, allowed, id, now)
    case Restore(allowed, id, seen) => seen <= now && db' == RestoreOne(db, allowed, id, seen)
    case BulkTrash(allowed, ids) => db' == BulkTrashed(db, allowed, ids, now)
    case BulkRestore(allowed, ids) => db' == BulkRestored(db, allowed, ids, now)
    case Patch(allowed, id, edit) => db' == Patched(db, allowed, id, edit)
    case BulkLayout(allowed, system, ids, layout) => db' == BulkLaidOut(db, allowed, system, ids, layout)
    case PurgeIds(allowed, system, ids) => db' == SelectionPurged(db, allowed, system, ids)
    case PurgeExpired(seen) => seen <= now && db' == Purged(db, ExpiredCandidates(db, seen))
    case PruneJobs(ingested, moved) => db' == db.(ingests := db.ingests - ingested, moves := db.moves - moved)
  }

  /** A run: one more state than actions, each action leading from one state to the next. */
  ghost predicate IsRun(states: seq<State>, actions: seq<Action>) {
    && |states| == |actions| + 1
    && forall i :: 0 <= i < |actions| ==> Step(states[i], actions[i], states[i + 1])
  }
}
