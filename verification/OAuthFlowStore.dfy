/**
 The in-memory table of pending Microsoft sign-ins (`oauthFlowStore` in
 core/api/emailaccounts.go). Each `After…` function is what one critical section
 does to the table; the class below runs the same sections as the source does,
 loop by loop, and is proved against those functions.
 */
module OAuthFlowStore {

  import opened Options

  const MAX_FLOWS := 64
  const MAX_FLOWS_PER_USER := 4

  type Handle = nat

  datatype Entry = Entry(
    clientId: string,
    owner: int,
    system: int,
    expiresAt: int,
    completed: Option<int>,
    err: Option<int>,
    active: bool)

  type Entries = map<Handle, Entry>

  datatype BeginResult =
    | Ready(entry: Entry)
    | FlowMissing
    | FlowExpired
    | FlowPending
    | FlowActive

  predicate Expired(e: Entry, now: int) {
    e.expiresAt <= now
  }

  function Sweep(m: Entries, now: int): Entries {
    map h | h in m && !Expired(m[h], now) :: m[h]
  }

  function OwnedBy(m: Entries, user: int): set<Handle> {
    set h | h in m && m[h].owner == user
  }

  /** Expired entries go first, even when the new entry is then refused. */
  function AfterPut(m: Entries, h: Handle, e: Entry, now: int): (Entries, bool) {
    var live := Sweep(m, now);
    if h !in live && (|live| >= MAX_FLOWS || |OwnedBy(live, e.owner)| >= MAX_FLOWS_PER_USER) then
      (live, false)
    else
      (live[h := e], true)
  }

  function AfterBegin(m: Entries, h: Handle, now: int, owner: int, system: int): (Entries, BeginResult) {
    if h !in m || m[h].owner != owner || m[h].system != system then (m, FlowMissing)
    else if Expired(m[h], now) then (m - {h}, FlowExpired)
    else if m[h].completed.None? && m[h].err.None? then (m, FlowPending)
    else if m[h].active then (m, FlowActive)
    else (m[h := m[h].(active := true)], Ready(m[h].(active := true)))
  }

  function AfterFinish(m: Entries, h: Handle, completed: Option<int>, err: Option<int>): Entries {
    if h in m then m[h := m[h].(completed := completed, err := err)] else m
  }

  function AfterRelease(m: Entries, h: Handle): Entries {
    if h in m then m[h := m[h].(active := false)] else m
  }

  function AfterDelete(m: Entries, h: Handle): Entries {
    m - {h}
  }

  /** The device code's own expiry replaces the default one. */
  function AfterReschedule(m: Entries, h: Handle, expiresAt: int): Entries {
    if h in m then m[h := m[h].(expiresAt := expiresAt)] else m
  }

  lemma RescheduleSets(m: Entries, h: Handle, expiresAt: int)
    ensures var n := AfterReschedule(m, h, expiresAt);
      && OthersUnchanged(n, m, h) && (h in n <==> h in m)
      && (h in m ==> n[h].expiresAt == expiresAt && SameFlow(n[h], m[h]) && n[h].completed == m[h].completed
                     && n[h].err == m[h].err && n[h].active == m[h].active)
  {
  }

  /** System 0 stands for every system, as in the source. */
  predicate Hits(e: Entry, user: int, system: int) {
    e.owner == user && (system == 0 || e.system == system)
  }

  function AfterInvalidate(m: Entries, user: int, system: int): Entries {
    map h | h in m && !Hits(m[h], user, system) :: m[h]
  }

  /** The two admission limits, as a fact about the table. */
  ghost predicate Bounded(m: Entries) {
    && |m| <= MAX_FLOWS
    && forall u :: |OwnedBy(m, u)| <= MAX_FLOWS_PER_USER
  }

  lemma SubsetSize<T>(a: set<T>, b: set<T>)
    requires a <= b
    ensures |a| <= |b|
  {
    if a != {} {
      var x :| x in a;
      SubsetSize(a - {x}, b - {x});
    }
  }

  /** Dropping entries, or rewriting them without changing owners, keeps both limits. */
  lemma ShrinkKeepsBounds(m: Entries, n: Entries)
    requires Bounded(m)
    requires n.Keys <= m.Keys
    requires forall h :: h in n ==> n[h].owner == m[h].owner
    ensures Bounded(n)
  {
    SubsetSize(n.Keys, m.Keys);
    forall u ensures |OwnedBy(n, u)| <= MAX_FLOWS_PER_USER {
      SubsetSize(OwnedBy(n, u), OwnedBy(m, u));
    }
  }

  lemma InsertKeepsBounds(m: Entries, h: Handle, e: Entry)
    requires Bounded(m) && h !in m
    requires |m| < MAX_FLOWS && |OwnedBy(m, e.owner)| < MAX_FLOWS_PER_USER
    ensures Bounded(m[h := e])
  {
    var n := m[h := e];
    assert n.Keys == m.Keys + {h};
    forall u ensures |OwnedBy(n, u)| <= MAX_FLOWS_PER_USER {
      OwnedAfterInsert(m, h, e, u);
    }
  }

  lemma OwnedAfterInsert(m: Entries, h: Handle, e: Entry, u: int)
    requires h !in m
    ensures |OwnedBy(m[h := e], u)| == |OwnedBy(m, u)| + if u == e.owner then 1 else 0
  {
    if u == e.owner {
      assert OwnedBy(m[h := e], u) == OwnedBy(m, u) + {h};
    } else {
      assert OwnedBy(m[h := e], u) == OwnedBy(m, u);
    }
  }

  /** A live handle goes to another owner, who already has all the flows allowed. */
  predicate Overfills(m: Entries, h: Handle, e: Entry, now: int) {
    var live := Sweep(m, now);
    h in live && live[h].owner != e.owner && |OwnedBy(live, e.owner)| >= MAX_FLOWS_PER_USER
  }

  lemma OwnedAfterTakeover(m: Entries, h: Handle, e: Entry, u: int)
    requires h in m && m[h].owner != e.owner
    ensures m[h := e].Keys == m.Keys
    ensures |OwnedBy(m[h := e], u)| ==
      |OwnedBy(m, u)| + (if u == e.owner then 1 else 0) - (if u == m[h].owner then 1 else 0)
  {
    if u == e.owner {
      assert OwnedBy(m[h := e], u) == OwnedBy(m, u) + {h};
    } else if u == m[h].owner {
      assert OwnedBy(m[h := e], u) == OwnedBy(m, u) - {h};
    } else {
      assert OwnedBy(m[h := e], u) == OwnedBy(m, u);
    }
  }

  lemma TakeoverExactly(m: Entries, h: Handle, e: Entry)
    requires Bounded(m) && h in m && m[h].owner != e.owner
    ensures Bounded(m[h := e]) <==> |OwnedBy(m, e.owner)| < MAX_FLOWS_PER_USER
  {
    var n := m[h := e];
    OwnedAfterTakeover(m, h, e, e.owner);
    if |OwnedBy(m, e.owner)| < MAX_FLOWS_PER_USER {
      forall u ensures |OwnedBy(n, u)| <= MAX_FLOWS_PER_USER {
        OwnedAfterTakeover(m, h, e, u);
      }
    }
  }

  /** `put` keeps both limits exactly when it does not hand a live handle to an owner who is full. */
  lemma PutKeepsBoundsExactly(m: Entries, h: Handle, e: Entry, now: int)
    requires Bounded(m)
    ensures Bounded(AfterPut(m, h, e, now).0) <==> !Overfills(m, h, e, now)
  {
    var live := Sweep(m, now);
    ShrinkKeepsBounds(m, live);
    var (n, ok) := AfterPut(m, h, e, now);
    if h in live && live[h].owner == e.owner {
      ShrinkKeepsBounds(live, n);
    } else if h in live {
      TakeoverExactly(live, h, e);
    } else if ok {
      InsertKeepsBounds(live, h, e);
    }
  }

  /** The existing-handle branch of `put` skips both checks, so reusing a handle can break the limit. */
  lemma ReusedHandleBreaksBounds()
    ensures exists m: Entries, h, e, now :: Bounded(m) && h in m && !Bounded(AfterPut(m, h, e, now).0)
  {
    var a := Entry("c", 1, 1, 10, None, None, false);
    var b := a.(owner := 2);
    var m: Entries := map[0 := a, 1 := a, 2 := a, 3 := a, 4 := b];
    forall u ensures |OwnedBy(m, u)| <= MAX_FLOWS_PER_USER {
      assert OwnedBy(m, u) == if u == 1 then {0, 1, 2, 3} else if u == 2 then {4} else {};
    }
    assert m.Keys == {0, 1, 2, 3, 4};
    assert Bounded(m);
    assert Sweep(m, 0) == m;
    var n := AfterPut(m, 4, a, 0).0;
    assert OwnedBy(n, 1) == {0, 1, 2, 3, 4};
    assert !Bounded(n);
  }

  /** The same sign-in: who started it, where, and with which client. */
  predicate SameFlow(a: Entry, b: Entry) {
    a.clientId == b.clientId && a.owner == b.owner && a.system == b.system
  }

  predicate OthersUnchanged(n: Entries, m: Entries, handle: Handle) {
    && (forall h :: h in n && h != handle ==> h in m && n[h] == m[h])
    && (forall h :: h in m && h != handle ==> h in n)
  }

  /** The table itself, changed in place; every method body runs under the store's mutex. */
  class FlowStore {
    var entries: Entries

    constructor ()
      ensures entries == map[]
    {
      entries := map[];
    }

    /** The first loop of `put`. */
    method SweepExpired(now: int)
      modifies this
      ensures entries == Sweep(old(entries), now)
    {
      var todo := entries.Keys;
      while todo != {}
        invariant todo <= old(entries).Keys
        invariant entries == map h | h in old(entries) && (h in todo || !Expired(old(entries)[h], now)) :: old(entries)[h]
      {
        var key :| key in todo;
        if Expired(entries[key], now) {
          entries := entries - {key};
        }
        todo := todo - {key};
      }
    }

    /** The second loop of `put`. */
    method CountOwned(user: int) returns (owned: nat)
      ensures owned == |OwnedBy(entries, user)|
    {
      owned := 0;
      var todo := entries.Keys;
      while todo != {}
        invariant todo <= entries.Keys
        invariant owned == |OwnedBy(entries, user) - todo|
      {
        var key :| key in todo;
        ghost var before := OwnedBy(entries, user) - todo;
        todo := todo - {key};
        if entries[key].owner == user {
          owned := owned + 1;
          assert OwnedBy(entries, user) - todo == before + {key};
        } else {
          assert OwnedBy(entries, user) - todo == before;
        }
      }
      assert OwnedBy(entries, user) - todo == OwnedBy(entries, user);
    }

    method Put(handle: Handle, entry: Entry, now: int) returns (ok: bool)
      modifies this
      ensures (entries, ok) == AfterPut(old(entries), handle, entry, now)
      ensures ok ==> handle in entries && entries[handle] == entry
      ensures forall h :: h != handle || !ok ==>
        (h in entries <==> h in old(entries) && now < old(entries)[h].expiresAt) && (h in entries ==> entries[h] == old(entries)[h])
      ensures !ok ==> handle !in entries && (|entries| >= 64 || |OwnedBy(entries, entry.owner)| >= 4)
    {
      SweepExpired(now);
      if handle !in entries {
        if |entries| >= MAX_FLOWS {
          return false;
        }
        var owned := CountOwned(entry.owner);
        if owned >= MAX_FLOWS_PER_USER {
          return false;
        }
      }
      entries := entries[handle := entry];
      return true;
    }

    method Begin(handle: Handle, now: int, owner: int, system: int) returns (r: BeginResult)
      modifies this
      ensures (entries, r) == AfterBegin(old(entries), handle, now, owner, system)
      ensures r.Ready? <==>
        && handle in old(entries) && old(entries)[handle].owner == owner && old(entries)[handle].system == system
        && now < old(entries)[handle].expiresAt && !old(entries)[handle].active
        && (old(entries)[handle].completed.Some? || old(entries)[handle].err.Some?)
      ensures r.Ready? ==>
        && handle in entries && r.entry == entries[handle] && r.entry.active && SameFlow(r.entry, old(entries)[handle])
        && r.entry.completed == old(entries)[handle].completed && r.entry.err == old(entries)[handle].err
        && r.entry.expiresAt == old(entries)[handle].expiresAt
      ensures OthersUnchanged(entries, old(entries), handle)
      ensures r.FlowMissing? || r.FlowPending? || r.FlowActive? ==> entries == old(entries)
      ensures r.FlowExpired? ==> handle !in entries
    {
      if handle !in entries || entries[handle].owner != owner || entries[handle].system != system {
        return FlowMissing;
      }
      var entry := entries[handle];
      if Expired(entry, now) {
        entries := entries - {handle};
        return FlowExpired;
      }
      if entry.completed.None? && entry.err.None? {
        return FlowPending;
      }
      if entry.active {
        return FlowActive;
      }
      entry := entry.(active := true);
      entries := entries[handle := entry];
      return Ready(entry);
    }

    method Finish(handle: Handle, completed: Option<int>, err: Option<int>)
      modifies this
      ensures entries == AfterFinish(old(entries), handle, completed, err)
      ensures OthersUnchanged(entries, old(entries), handle) && (handle in entries <==> handle in old(entries))
      ensures handle in entries ==>
        && entries[handle].completed == completed && entries[handle].err == err && SameFlow(entries[handle], old(entries)[handle])
        && entries[handle].expiresAt == old(entries)[handle].expiresAt && entries[handle].active == old(entries)[handle].active
    {
      if handle in entries {
        entries := entries[handle := entries[handle].(completed := completed, err := err)];
      }
    }

    method Release(handle: Handle)
      modifies this
      ensures entries == AfterRelease(old(entries), handle)
      ensures OthersUnchanged(entries, old(entries), handle) && (handle in entries <==> handle in old(entries))
      ensures handle in entries ==>
        && !entries[handle].active && SameFlow(entries[handle], old(entries)[handle])
        && entries[handle].completed == old(entries)[handle].completed && entries[handle].err == old(entries)[handle].err
        && entries[handle].expiresAt == old(entries)[handle].expiresAt
    {
      if handle in entries {
        entries := entries[handle := entries[handle].(active := false)];
      }
    }

    method Delete(handle: Handle)
      modifies this
      ensures entries == AfterDelete(old(entries), handle)
      ensures OthersUnchanged(entries, old(entries), handle) && handle !in entries
    {
      entries := entries - {handle};
    }

    method InvalidateMemberLocked(user: int, system: int)
      modifies this
      ensures entries == AfterInvalidate(old(entries), user, system)
      ensures forall h :: h in entries <==>
        h in old(entries) && !(old(entries)[h].owner == user && (system == 0 || old(entries)[h].system == system))
      ensures forall h :: h in entries ==> entries[h] == old(entries)[h]
    {
      var todo := entries.Keys;
      while todo != {}
        invariant todo <= old(entries).Keys
        invariant entries == map h | h in old(entries) && (h in todo || !Hits(old(entries)[h], user, system)) :: old(entries)[h]
      {
        var handle :| handle in todo;
        if Hits(entries[handle], user, system) {
          entries := entries - {handle};
        }
        todo := todo - {handle};
      }
    }
  }
}
