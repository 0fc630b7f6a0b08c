/**
 "The latest visible version", which the program writes three times: as a search
 predicate (core/api/authz_helpers.go), as the head of the version list
 (core/api/versions.go) and as a loop over reference summaries
 (core/api/document_references.go). What a caller may see is one predicate on ids.
 */
module LatestVersion {
  import opened Options
  import Iteration

  type Visibility = nat -> bool

  datatype Doc = Doc(system: nat, family: Option<nat>, trashed: bool)

  type Docs = map<nat, Doc>

  /** A live document the caller may see. */
  predicate Shown(docs: Docs, vis: Visibility, id: nat) {
    id in docs && !docs[id].trashed && vis(id)
  }

  predicate SameFamily(a: Doc, b: Doc) {
    a.family.Some? && a.family == b.family && a.system == b.system
  }

  // ---------- the search predicate ----------

  ghost predicate NewerExists(docs: Docs, vis: Visibility, id: nat)
    requires id in docs
  {
    exists n: nat :: Shown(docs, vis, n) && n > id && SameFamily(docs[id], docs[n])
  }

  ghost predicate SearchLatest(docs: Docs, vis: Visibility, id: nat)
    requires id in docs
  {
    docs[id].family.None? || !NewerExists(docs, vis, id)
  }

  ghost predicate SearchOlder(docs: Docs, vis: Visibility, id: nat)
    requires id in docs
  {
    docs[id].family.Some? && NewerExists(docs, vis, id)
  }

  /** The family of a document: itself alone when it has no family key. */
  ghost predicate Related(docs: Docs, a: nat, b: nat)
    requires a in docs && b in docs
  {
    a == b || SameFamily(docs[a], docs[b])
  }

  lemma {:induction false} Greatest(s: set<nat>)
    requires s != {}
    ensures exists top :: top in s && forall x :: x in s ==> x <= top
  {
    var x :| x in s;
    if s - {x} != {} {
      Greatest(s - {x});
      var top :| top in s - {x} && forall y :: y in s - {x} ==> y <= top;
      assert forall y :: y in s ==> y == x || y in s - {x};
      var best := if x <= top then top else x;
      assert best in s && forall y :: y in s ==> y <= best;
    } else {
      assert forall y :: y in s ==> y == x || y in s - {x};
      assert x in s && forall y :: y in s ==> y <= x;
    }
  }

  /** Latest and older split what is shown, and a family with anything shown has one latest. */
  lemma OneLatestPerFamily(docs: Docs, vis: Visibility, id: nat)
    requires Shown(docs, vis, id)
    ensures SearchLatest(docs, vis, id) <==> !SearchOlder(docs, vis, id)
    ensures exists top :: Shown(docs, vis, top) && Related(docs, id, top) && SearchLatest(docs, vis, top)
    ensures forall a, b ::
      && Shown(docs, vis, a) && Related(docs, id, a) && SearchLatest(docs, vis, a)
      && Shown(docs, vis, b) && Related(docs, id, b) && SearchLatest(docs, vis, b)
      ==> a == b
  {
    var members := set n | n in docs && Shown(docs, vis, n) && Related(docs, id, n);
    assert id in members;
    Greatest(members);
    var top :| top in members && forall x :: x in members ==> x <= top;
    forall n: nat | Shown(docs, vis, n) && SameFamily(docs[top], docs[n]) ensures n in members {}
  }

  // ---------- the version list ----------

  /** The rows listed for an anchor document: by family key, whatever the system. */
  ghost predicate Listed(docs: Docs, vis: Visibility, anchor: nat, id: nat)
    requires anchor in docs
  {
    && Shown(docs, vis, id)
    && (if docs[anchor].family.Some? then docs[id].family == docs[anchor].family else id == anchor)
  }

  /** `is_head`: the greatest id among the rows listed. */
  ghost predicate IsHead(docs: Docs, vis: Visibility, anchor: nat, id: nat)
    requires anchor in docs
  {
    Listed(docs, vis, anchor, id) && forall n: nat :: Listed(docs, vis, anchor, n) ==> n <= id
  }

  /** No family key is shown in two systems. */
  ghost predicate KeysStayInOneSystem(docs: Docs, vis: Visibility) {
    forall a, b :: Shown(docs, vis, a) && Shown(docs, vis, b) ==>
      docs[a].family.Some? && docs[a].family == docs[b].family ==> docs[a].system == docs[b].system
  }

  ghost predicate HeadsAgree(docs: Docs, vis: Visibility) {
    forall anchor, id :: anchor in docs && Listed(docs, vis, anchor, id) ==>
      (IsHead(docs, vis, anchor, id) <==> SearchLatest(docs, vis, id))
  }

  lemma HeadIsLatest(docs: Docs, vis: Visibility, anchor: nat, id: nat)
    requires KeysStayInOneSystem(docs, vis)
    requires anchor in docs && Listed(docs, vis, anchor, id)
    ensures IsHead(docs, vis, anchor, id) <==> SearchLatest(docs, vis, id)
  {
    if SearchLatest(docs, vis, id) {
      forall n: nat | Listed(docs, vis, anchor, n) ensures n <= id {
        assert Shown(docs, vis, n) && (n == id || SameFamily(docs[id], docs[n]));
      }
    } else {
      var n: nat :| Shown(docs, vis, n) && n > id && SameFamily(docs[id], docs[n]);
      assert Listed(docs, vis, anchor, n);
    }
  }

  /** A key shown in two systems has a latest in each, but only one head. */
  lemma SharedKeySplitsThem(docs: Docs, vis: Visibility, a: nat, b: nat)
    requires Shown(docs, vis, a) && Shown(docs, vis, b) && docs[a].family.Some?
    requires docs[a].family == docs[b].family && docs[a].system != docs[b].system
    ensures !HeadsAgree(docs, vis)
  {
    OneLatestPerFamily(docs, vis, a);
    OneLatestPerFamily(docs, vis, b);
    var x :| Shown(docs, vis, x) && Related(docs, a, x) && SearchLatest(docs, vis, x);
    var y :| Shown(docs, vis, y) && Related(docs, b, y) && SearchLatest(docs, vis, y);
    assert Listed(docs, vis, a, x) && Listed(docs, vis, a, y);
    if x < y {
      assert !IsHead(docs, vis, a, x);
    } else {
      assert !IsHead(docs, vis, a, y);
    }
  }

  /** The head flag is the search's "latest" exactly when no key is shown in two systems. */
  lemma HeadsAgreeExactly(docs: Docs, vis: Visibility)
    ensures HeadsAgree(docs, vis) <==> KeysStayInOneSystem(docs, vis)
  {
    if KeysStayInOneSystem(docs, vis) {
      forall anchor, id | anchor in docs && Listed(docs, vis, anchor, id)
        ensures IsHead(docs, vis, anchor, id) <==> SearchLatest(docs, vis, id)
      {
        HeadIsLatest(docs, vis, anchor, id);
      }
    } else {
      var a, b :| Shown(docs, vis, a) && Shown(docs, vis, b)
        && docs[a].family.Some? && docs[a].family == docs[b].family && docs[a].system != docs[b].system;
      SharedKeySplitsThem(docs, vis, a, b);
    }
  }

  // ---------- the reference summaries ----------

  /** The join row (base, newer): a newer live version, whether or not the caller may see it. */
  predicate Joined(docs: Docs, base: nat, newer: nat) {
    && base in docs && newer in docs
    && newer > base && !docs[newer].trashed && SameFamily(docs[base], docs[newer])
  }

  /** The query's answer for a set of base ids, in any order. */
  ghost predicate AnswersJoin(docs: Docs, bases: set<nat>, rows: seq<(nat, nat)>) {
    forall b: nat, n: nat :: (b, n) in rows <==> b in bases && Joined(docs, b, n)
  }

  /** Rows grouped by base, each base with its newer ids. */
  method GroupByBase(rows: seq<(nat, nat)>) returns (newerByBase: map<nat, seq<nat>>)
    ensures forall b, n :: (b in newerByBase && n in newerByBase[b]) <==> (b, n) in rows
    ensures forall b :: b in newerByBase ==> exists n :: (b, n) in rows
  {
    newerByBase := map[];
    for i := 0 to |rows|
      invariant forall b, n :: (b in newerByBase && n in newerByBase[b]) <==> (b, n) in rows[..i]
      invariant forall b :: b in newerByBase ==> exists n :: (b, n) in rows[..i]
    {
      var (b, n) := rows[i];
      assert rows[..i + 1] == rows[..i] + [rows[i]];
      var sofar := if b in newerByBase then newerByBase[b] else [];
      newerByBase := newerByBase[b := sofar + [n]];
      assert (b, n) in rows[..i + 1];
    }
    assert rows[..|rows|] == rows;
  }

  /** Clears `is_latest` on the summaries that have a newer version the caller may see. */
  method MarkReferenceLatest(docs: Docs, vis: Visibility, summaries: set<nat>, rows: seq<(nat, nat)>)
    returns (isLatest: map<nat, bool>)
    requires summaries <= docs.Keys && AnswersJoin(docs, summaries, rows)
    ensures isLatest.Keys == summaries
    ensures forall id :: id in summaries ==> (isLatest[id] <==> SearchLatest(docs, vis, id))
  {
    isLatest := map id | id in summaries :: true;
    var newerByBase := GroupByBase(rows);
    forall b | b in newerByBase ensures b in summaries {
      var n :| (b, n) in rows;
    }
    var left := newerByBase.Keys;
    while left != {}
      invariant left <= newerByBase.Keys && isLatest.Keys == summaries
      invariant forall id :: id in summaries ==>
        (isLatest[id] <==> id in left || id !in newerByBase || forall n :: n in newerByBase[id] ==> !vis(n))
      decreases left
    {
      var b := Iteration.Pick(left);
      var ids := newerByBase[b];
      var i := 0;
      while i < |ids| && !vis(ids[i])
        invariant 0 <= i <= |ids| && forall k :: 0 <= k < i ==> !vis(ids[k])
      {
        i := i + 1;
      }
      if i < |ids| {
        assert ids[i] in ids;
        isLatest := isLatest[b := false];
      }
      left := left - {b};
    }
    forall id | id in summaries ensures isLatest[id] <==> SearchLatest(docs, vis, id) {
      GroupedIsJoined(docs, vis, summaries, rows, newerByBase, id);
    }
  }

  lemma GroupedIsJoined(docs: Docs, vis: Visibility, bases: set<nat>, rows: seq<(nat, nat)>,
                        grouped: map<nat, seq<nat>>, id: nat)
    requires bases <= docs.Keys && AnswersJoin(docs, bases, rows) && id in bases
    requires forall b, n :: (b in grouped && n in grouped[b]) <==> (b, n) in rows
    ensures (id !in grouped || forall n :: n in grouped[id] ==> !vis(n)) <==> SearchLatest(docs, vis, id)
  {
    if id in grouped && !forall n :: n in grouped[id] ==> !vis(n) {
      var n :| n in grouped[id] && vis(n);
      assert (id, n) in rows;
      assert Joined(docs, id, n);
      assert Shown(docs, vis, n);
    } else if NewerExists(docs, vis, id) {
      var n: nat :| Shown(docs, vis, n) && n > id && SameFamily(docs[id], docs[n]);
      assert Joined(docs, id, n);
    }
  }
}
