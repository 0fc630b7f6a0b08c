/**
 The two updates of the sign-in protocol, tied to the code that performs them: the
 loops of `PutSystemMembers` (core/api/systems.go) stage exactly what the protocol's
 `Stage` names, and so does the transaction of `PatchUser` (core/api/users.go) as the
 capability model has it.
 */
module OAuthMemberUpdate {

  import opened Iteration
  import opened OAuthFlowStore
  import opened OAuthFlowProtocol
  import Capabilities
  import opened Options

  /** The transaction body: admit the wanted, then delete the rest, collecting who was removed. */
  method PutSystemMembers(db: Db, actor: int, system: int, wanted: set<int>) returns (s: Staging)
    ensures s == Stage(db, PutMembers(actor, system, wanted))
  {
    if !CanEnter(db, actor, system) || !db.users[actor].admin {
      return Refused;
    }
    var existing := MembersOf(db, system);
    var members := db.members;
    var todo := wanted;
    while todo != {}
      invariant todo <= wanted
      invariant forall w :: w in wanted - todo ==> w in db.users && (db.users[w].disabled ==> w in existing)
      invariant members == db.members + (set w | w in wanted - todo :: (system, w))
    {
      var id := Pick(todo);
      if id !in db.users || (db.users[id].disabled && id !in existing) {
        return Refused;
      }
      if id !in existing {
        members := members + {(system, id)};
      } else {
        assert (system, id) in db.members;
      }
      todo := todo - {id};
    }
    var removed := {};
    todo := existing;
    ghost var admitted := members;
    while todo != {}
      invariant todo <= existing
      invariant removed == (existing - todo) - wanted
      invariant members == set m | m in admitted && !(m.0 == system && m.1 in removed)
    {
      var id := Pick(todo);
      if id !in wanted {
        members := members - {(system, id)};
        removed := removed + {id};
      }
      todo := todo - {id};
    }
    s := Staged(db.(members := members), set r | r in removed :: (r, system));
    assert members == (set m | m in db.members && !(m.0 == system && m.1 in existing - wanted)) + (set w | w in wanted :: (system, w));
  }

  /** After the commit, with the mutex still held: one `invalidateMemberLocked` per removed member. */
  method InvalidateRemoved(store: FlowStore, removed: set<int>, system: int)
    requires system > 0
    modifies store
    ensures store.entries == InvalidateAll(old(store.entries), set r | r in removed :: (r, system))
  {
    var todo := removed;
    while todo != {}
      invariant todo <= removed
      invariant store.entries == map h | h in old(store.entries)
                  && !(old(store.entries)[h].system == system && old(store.entries)[h].owner in removed - todo) :: old(store.entries)[h]
    {
      var id := Pick(todo);
      store.InvalidateMemberLocked(id, system);
      todo := todo - {id};
    }
  }

  /** What replacing the members of a system means, and when it is refused. */
  lemma PutMembersMeans(db: Db, actor: int, system: int, wanted: set<int>)
    ensures var s := Stage(db, PutMembers(actor, system, wanted));
      && (s.Refused? <==>
            || !CanEnter(db, actor, system) || !db.users[actor].admin
            || exists w :: w in wanted && (w !in db.users || (db.users[w].disabled && (system, w) !in db.members)))
      && (s.Staged? ==>
            && s.db.users == db.users && s.db.systems == db.systems
            && (forall u :: (system, u) in s.db.members <==> u in wanted)
            && (forall x, u :: x != system ==> ((x, u) in s.db.members <==> (x, u) in db.members))
            && (forall u, x :: (u, x) in s.targets <==> x == system && (system, u) in db.members && u !in wanted))
  {
    var existing := MembersOf(db, system);
    assert forall u :: u in existing <==> (system, u) in db.members by {
      forall u | (system, u) in db.members ensures u in existing {
        assert (system, u).0 == system && (system, u).1 == u;
      }
    }
  }

  // ---------- user edits ----------

  /** What the protocol knows of a user. */
  function Seen(u: Capabilities.User): User {
    User(u.role.Admin?, u.disabled, Capabilities.Mailboxes in u.caps)
  }

  function SeenAll(users: map<nat, Capabilities.User>): map<int, User> {
    map id: int | id in users.Keys :: Seen(users[id])
  }

  function SeenBody(actor: nat, uid: nat, body: Capabilities.Body): Update {
    PatchUser(actor, uid,
              if body.role.Some? then Some(body.role.value.Admin?) else None,
              body.disabled,
              if body.caps.Some? then Some(Capabilities.Mailboxes in body.caps.value) else None)
  }

  lemma EditsAgree(prior: Capabilities.User, body: Capabilities.Body, actor: nat, uid: nat)
    ensures var u := SeenBody(actor, uid, body);
      Seen(Capabilities.Edited(prior, body)) == Patched(Seen(prior), u.admin, u.disabled, u.mailboxes)
  {
  }

  lemma AdminsAgree(users: map<nat, Capabilities.User>, systems: set<int>, members: set<(int, int)>)
    ensures var db := Db(SeenAll(users), systems, members);
      Capabilities.HasActiveAdmin(users) <==> exists v :: v in db.users && ActiveAdmin(db, v)
  {
    var db := Db(SeenAll(users), systems, members);
    if Capabilities.HasActiveAdmin(users) {
      var id :| id in users && Capabilities.ActiveAdmin(users, id);
      assert id in db.users && ActiveAdmin(db, id);
    }
    if v :| v in db.users && ActiveAdmin(db, v) {
      assert Capabilities.ActiveAdmin(users, v);
    }
  }

  /** The protocol stages a user edit exactly when the transaction accepts it, with the users it leaves. */
  lemma PatchStagesAgree(w: Capabilities.World, systems: set<int>, members: set<(int, int)>,
                         actor: nat, uid: nat, body: Capabilities.Body, now: int)
    requires body.caps.Some? ==> body.caps.value <= Capabilities.KNOWN
    ensures var w' := Capabilities.Patched(w, actor, uid, body, now);
      Stage(Db(SeenAll(w.users), systems, members), SeenBody(actor, uid, body)) ==
      if Capabilities.PatchAccepted(w, actor, uid, body)
      then Staged(Db(SeenAll(w'.users), systems, members), if body.disabled == Some(true) then {(uid, 0)} else {})
      else Refused
  {
    if uid in w.users {
      var next := Capabilities.Edited(w.users[uid], body);
      EditsAgree(w.users[uid], body, actor, uid);
      assert SeenAll(w.users[uid := next]) == SeenAll(w.users)[uid := Seen(next)];
      AdminsAgree(w.users[uid := next], systems, members);
    }
  }
}
