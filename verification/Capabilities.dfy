/**
 Roles, capabilities and what they stand behind (core/api/users.go, share_links.go,
 saved_views.go, systems.go): share links and shared views end in the transaction
 that takes away their owner's right to have them. Links are told apart by their
 token, which is random and never issued twice.
 */
module Capabilities {
  import opened Options
  import Iteration

  datatype Capability = ArchiveChat | ArchiveIntelligence | Mailboxes | ShareLinks | ShareViews | Legacy(slug: string)

  const KNOWN: set<Capability> := {ArchiveChat, ArchiveIntelligence, Mailboxes, ShareLinks, ShareViews}

  datatype Role = Admin | Member

  datatype User = User(role: Role, disabled: bool, caps: set<Capability>)

  datatype Link = Link(creator: nat, system: nat, revokedAt: Option<int>)

  datatype View = View(owner: nat, shared: bool)

  datatype World = World(users: map<nat, User>, links: map<nat, Link>, views: map<nat, View>, issued: set<nat>)

  /** A PATCH body: what it leaves out stays. */
  datatype Body = Body(role: Option<Role>, disabled: Option<bool>, caps: Option<set<Capability>>)

  /** Admins hold every capability without a grant. */
  predicate Entitled(u: User, cap: Capability) {
    u.role.Admin? || cap in u.caps
  }

  predicate ActiveAdmin(users: map<nat, User>, id: nat) {
    id in users && users[id].role.Admin? && !users[id].disabled
  }

  predicate HasActiveAdmin(users: map<nat, User>) {
    exists id :: id in users && ActiveAdmin(users, id)
  }

  predicate Active(users: map<nat, User>, id: nat) {
    id in users && !users[id].disabled
  }

  // ---------- what each transaction does ----------

  /** Stored grants after an edit: none for an admin, and none left over from having been one. */
  function Edited(prior: User, body: Body): User {
    var role := if body.role.Some? then body.role.value else prior.role;
    var caps := if body.caps.Some? then body.caps.value else prior.caps;
    User(role,
         if body.disabled.Some? then body.disabled.value else prior.disabled,
         if role.Admin? || (prior.role.Admin? && body.caps.None?) then {} else caps)
  }

  predicate Loses(prior: User, next: User, cap: Capability) {
    Entitled(prior, cap) && !Entitled(next, cap)
  }

  function RevokedFor(links: map<nat, Link>, creator: nat, now: int): map<nat, Link> {
    map t | t in links ::
      if links[t].creator == creator && links[t].revokedAt.None? then links[t].(revokedAt := Some(now)) else links[t]
  }

  function UnsharedFor(views: map<nat, View>, owner: nat): map<nat, View> {
    map v | v in views :: if views[v].owner == owner then views[v].(shared := false) else views[v]
  }

  predicate PatchAccepted(w: World, actor: nat, uid: nat, body: Body) {
    && (body.caps.Some? ==> body.caps.value <= KNOWN)
    && !(uid == actor && body.disabled == Some(true))
    && ActiveAdmin(w.users, actor)
    && uid in w.users
    && (body.role.Some? || body.disabled.Some? ==> HasActiveAdmin(w.users[uid := Edited(w.users[uid], body)]))
  }

  /** An edit of a user takes along whatever it no longer entitles them to. */
  function Patched(w: World, actor: nat, uid: nat, body: Body, now: int): World {
    if !PatchAccepted(w, actor, uid, body) then w
    else
      var prior := w.users[uid];
      var next := Edited(prior, body);
      w.(users := w.users[uid := next],
         links := if Loses(prior, next, ShareLinks) then RevokedFor(w.links, uid, now) else w.links,
         views := if Loses(prior, next, ShareViews) then UnsharedFor(w.views, uid) else w.views)
  }

  predicate MayHave(w: World, user: nat, cap: Capability) {
    Active(w.users, user) && Entitled(w.users[user], cap)
  }

  function LinkCreated(w: World, allowed: bool, user: nat, system: nat, token: nat): World {
    if allowed && MayHave(w, user, ShareLinks)
    then w.(links := w.links[token := Link(user, system, None)], issued := w.issued + {token})
    else w
  }

  function LinkRevoked(w: World, allowed: bool, user: nat, token: nat, now: int): World {
    if allowed && Active(w.users, user) && token in w.links && w.links[token].creator == user && w.links[token].revokedAt.None?
    then w.(links := w.links[token := w.links[token].(revokedAt := Some(now))])
    else w
  }

  /** Leaving a system revokes the links made in it. */
  function MemberRemoved(w: World, user: nat, system: nat, now: int): World {
    w.(links := map t | t in w.links ::
      if w.links[t].creator == user && w.links[t].system == system && w.links[t].revokedAt.None?
      then w.links[t].(revokedAt := Some(now)) else w.links[t])
  }

  function ViewCreated(w: World, allowed: bool, user: nat, id: nat, shared: bool): World {
    if allowed && Active(w.users, user) && (shared ==> MayHave(w, user, ShareViews))
    then w.(views := w.views[id := View(user, shared)])
    else w
  }

  function ViewUpdated(w: World, allowed: bool, user: nat, id: nat, shared: Option<bool>): World {
    if allowed && Active(w.users, user) && (shared == Some(true) ==> MayHave(w, user, ShareViews))
       && id in w.views && w.views[id].owner == user && shared.Some?
    then w.(views := w.views[id := w.views[id].(shared := shared.value)])
    else w
  }

  function ViewDeleted(w: World, allowed: bool, user: nat, id: nat): World {
    if allowed && Active(w.users, user) && id in w.views && w.views[id].owner == user
    then w.(views := w.views - {id})
    else w
  }

  // ---------- runs ----------

  datatype Action =
    | Patch(actor: nat, uid: nat, body: Body, now: int)
    | AddUser(uid: nat, row: User)
    | CreateLink(allowed: bool, user: nat, system: nat, token: nat)
    | RevokeLink(allowed: bool, user: nat, token: nat, now: int)
    | RemoveMember(user: nat, system: nat, now: int)
    | PurgeLinks(tokens: set<nat>)
    | CreateView(allowed: bool, user: nat, id: nat, shared: bool)
    | UpdateView(allowed: bool, user: nat, id: nat, share: Option<bool>)
    | DeleteView(allowed: bool, user: nat, id: nat)

  /** New rows have new ids, and tokens are fresh. */
  predicate Enabled(w: World, a: Action) {
    match a
    case AddUser(uid, _) => uid !in w.users
    case CreateLink(_, _, _, token) => token !in w.issued
    case CreateView(_, _, id, _) => id !in w.views
    case _ => true
  }

  function After(w: World, a: Action): World {
    match a
    case Patch(actor, uid, body, now) => Patched(w, actor, uid, body, now)
    case AddUser(uid, user) => w.(users := w.users[uid := user])
    case CreateLink(allowed, user, system, token) => LinkCreated(w, allowed, user, system, token)
    case RevokeLink(allowed, user, token, now) => LinkRevoked(w, allowed, user, token, now)
    case RemoveMember(user, system, now) => MemberRemoved(w, user, system, now)
    case PurgeLinks(tokens) => w.(links := w.links - tokens)
    case CreateView(allowed, user, id, shared) => ViewCreated(w, allowed, user, id, shared)
    case UpdateView(allowed, user, id, shared) => ViewUpdated(w, allowed, user, id, shared)
    case DeleteView(allowed, user, id) => ViewDeleted(w, allowed, user, id)
  }

  predicate IsRun(states: seq<World>, actions: seq<Action>) {
    && |states| == |actions| + 1
    && forall i :: 0 <= i < |actions| ==> Enabled(states[i], actions[i]) && states[i + 1] == After(states[i], actions[i])
  }

  // ---------- what every run keeps ----------

  predicate LinkOk(w: World, token: nat) {
    token in w.links ==>
      && token in w.issued
      && w.links[token].creator in w.users
      && (w.links[token].revokedAt.None? ==> Entitled(w.users[w.links[token].creator], ShareLinks))
  }

  predicate ViewOk(w: World, id: nat) {
    id in w.views ==>
      && w.views[id].owner in w.users
      && (w.views[id].shared ==> Entitled(w.users[w.views[id].owner], ShareViews))
  }

  ghost predicate Lawful(w: World) {
    (forall t: nat :: LinkOk(w, t)) && (forall v: nat :: ViewOk(w, v)) && HasActiveAdmin(w.users)
  }

  lemma LinkOkStep(w: World, a: Action, t: nat)
    requires Lawful(w) && Enabled(w, a)
    ensures LinkOk(After(w, a), t)
  {
    assert LinkOk(w, t);
  }

  lemma ViewOkStep(w: World, a: Action, v: nat)
    requires Lawful(w) && Enabled(w, a)
    ensures ViewOk(After(w, a), v)
  {
    assert ViewOk(w, v);
  }

  /** The check after the update is needed only when it can matter: other edits leave every admin in place. */
  lemma AdminStep(w: World, a: Action)
    requires Lawful(w) && Enabled(w, a)
    ensures HasActiveAdmin(After(w, a).users)
  {
    var id :| id in w.users && ActiveAdmin(w.users, id);
    if a.Patch? && PatchAccepted(w, a.actor, a.uid, a.body) && a.body.role.None? && a.body.disabled.None? {
      assert ActiveAdmin(After(w, a).users, id);
    } else if !a.Patch? {
      assert ActiveAdmin(After(w, a).users, id);
    }
  }

  lemma LawfulStep(w: World, a: Action)
    requires Lawful(w) && Enabled(w, a)
    ensures Lawful(After(w, a))
  {
    forall t: nat ensures LinkOk(After(w, a), t) {
      LinkOkStep(w, a, t);
    }
    forall v: nat ensures ViewOk(After(w, a), v) {
      ViewOkStep(w, a, v);
    }
    AdminStep(w, a);
  }

  /** Throughout every run: links and shared views only of entitled users, and an active admin. */
  lemma {:induction false} LawfulRun(states: seq<World>, actions: seq<Action>, k: nat)
    requires IsRun(states, actions) && Lawful(states[0]) && k < |states|
    ensures Lawful(states[k])
  {
    if k > 0 {
      LawfulRun(states, actions, k - 1);
      LawfulStep(states[k - 1], actions[k - 1]);
    }
  }

  /** A token that was issued and is no longer good: revoked, with its first time stamp, or gone. */
  predicate Dead(w: World, token: nat, at: Option<int>) {
    token in w.issued && (token in w.links ==> w.links[token].revokedAt.Some? && (at.Some? ==> w.links[token].revokedAt == at))
  }

  lemma {:induction false} DeadStays(states: seq<World>, actions: seq<Action>, i: nat, j: nat, token: nat, at: Option<int>)
    requires IsRun(states, actions) && i <= j < |states| && Dead(states[i], token, at)
    ensures Dead(states[j], token, at)
    decreases j
  {
    if i < j {
      DeadStays(states, actions, i, j - 1, token, at);
      DeadStep(states[j - 1], actions[j - 1], token, at);
    }
  }

  lemma DeadStep(w: World, a: Action, token: nat, at: Option<int>)
    requires Enabled(w, a) && Dead(w, token, at)
    ensures Dead(After(w, a), token, at)
  {
  }

  /** Revocation is terminal: no regrant, promotion, demotion or anything else brings a link back. */
  lemma RevokedForever(states: seq<World>, actions: seq<Action>, i: nat, j: nat, token: nat)
    requires IsRun(states, actions) && Lawful(states[0]) && i <= j < |states|
    requires token in states[i].links && states[i].links[token].revokedAt.Some?
    ensures token in states[j].links ==> states[j].links[token].revokedAt == states[i].links[token].revokedAt
  {
    LawfulRun(states, actions, i);
    assert LinkOk(states[i], token);
    DeadStays(states, actions, i, j, token, states[i].links[token].revokedAt);
  }

  /**
   Losing the capability for one moment is enough: no link the user had made by then
   is good at any later time, whatever they have been granted since.
   */
  lemma LostOnceLostForGood(states: seq<World>, actions: seq<Action>, i: nat, j: nat, token: nat)
    requires IsRun(states, actions) && Lawful(states[0]) && i <= j < |states|
    requires token in states[i].links && states[i].links[token].creator in states[i].users
    requires !Entitled(states[i].users[states[i].links[token].creator], ShareLinks)
    ensures token in states[j].links ==> states[j].links[token].revokedAt.Some?
  {
    LawfulRun(states, actions, i);
    assert LinkOk(states[i], token);
    DeadStays(states, actions, i, j, token, None);
  }

  // ---------- and nothing more ----------

  /** The same link, open or not. */
  predicate SameLink(a: Link, b: Link) {
    a.creator == b.creator && a.system == b.system
  }

  /**
   An edit touches the links and views of the edited user alone. It stamps a link of theirs
   exactly when the link was open and ShareLinks is lost, and unshares a view of theirs
   exactly when ShareViews is lost; and it leaves the other users' rows alone.
   */
  lemma PatchTouches(w: World, actor: nat, uid: nat, body: Body, now: int)
    requires uid in w.users
    ensures var w' := Patched(w, actor, uid, body, now);
      && w'.users.Keys == w.users.Keys && w'.links.Keys == w.links.Keys && w'.views.Keys == w.views.Keys && w'.issued == w.issued
      && (forall u :: u in w.users && u != uid ==> w'.users[u] == w.users[u])
      && (forall t :: t in w.links ==>
            w'.links[t] ==
            if w.links[t].creator == uid && w.links[t].revokedAt.None? && Entitled(w.users[uid], ShareLinks) && !Entitled(w'.users[uid], ShareLinks)
            then Link(uid, w.links[t].system, Some(now)) else w.links[t])
      && (forall v :: v in w.views ==>
            w'.views[v] ==
            if w.views[v].owner == uid && Entitled(w.users[uid], ShareViews) && !Entitled(w'.users[uid], ShareViews)
            then View(uid, false) else w.views[v])
  {
  }

  /** What the edited user is afterwards, field by field. */
  lemma PatchSets(w: World, actor: nat, uid: nat, body: Body, now: int)
    requires PatchAccepted(w, actor, uid, body)
    ensures var prior, next := w.users[uid], Patched(w, actor, uid, body, now).users[uid];
      && (body.role.Some? ==> next.role == body.role.value) && (body.role.None? ==> next.role == prior.role)
      && (body.disabled.Some? ==> next.disabled == body.disabled.value) && (body.disabled.None? ==> next.disabled == prior.disabled)
      && (next.role.Admin? ==> next.caps == {})
      && (next.role.Member? && body.caps.Some? ==> next.caps == body.caps.value)
      && (next.role.Member? && body.caps.None? ==> next.caps == if prior.role.Admin? then {} else prior.caps)
  {
  }

  /** Only an active admin edits users, never to disable themselves, and not with capabilities nobody knows. */
  lemma OnlyAdminsPatch(w: World, actor: nat, uid: nat, body: Body, now: int)
    requires Patched(w, actor, uid, body, now) != w
    ensures actor in w.users && w.users[actor].role.Admin? && !w.users[actor].disabled
    ensures uid in w.users && !(uid == actor && body.disabled == Some(true)) && (body.caps.Some? ==> body.caps.value <= KNOWN)
  {
  }

  /** What an active admin can always do: grant and take capabilities, and edit anyone else in any way. */
  lemma AdminsCanPatch(w: World, actor: nat, uid: nat, body: Body)
    requires ActiveAdmin(w.users, actor) && uid in w.users && (body.caps.Some? ==> body.caps.value <= KNOWN)
    requires uid != actor || (body.role.None? && body.disabled.None?)
    ensures PatchAccepted(w, actor, uid, body)
  {
    if uid != actor {
      assert ActiveAdmin(w.users[uid := Edited(w.users[uid], body)], actor);
    }
  }

  /** And an admin can step down exactly when another active admin is there. */
  lemma SteppingDown(w: World, actor: nat)
    requires ActiveAdmin(w.users, actor)
    ensures PatchAccepted(w, actor, actor, Body(Some(Member), None, None)) <==>
      exists other :: other != actor && ActiveAdmin(w.users, other)
  {
    var next := w.users[actor := Edited(w.users[actor], Body(Some(Member), None, None))];
    if other :| other != actor && ActiveAdmin(w.users, other) {
      assert ActiveAdmin(next, other);
    }
    if HasActiveAdmin(next) {
      var id :| id in next && ActiveAdmin(next, id);
      assert id != actor && ActiveAdmin(w.users, id);
    }
  }

  /** Someone had a reason to end this link at this step. */
  predicate EndsLink(w: World, a: Action, w': World, link: Link) {
    || (a.RevokeLink? && a.user == link.creator)
    || (a.Patch? && a.uid == link.creator && link.creator in w.users && link.creator in w'.users
        && Entitled(w.users[link.creator], ShareLinks) && !Entitled(w'.users[link.creator], ShareLinks))
    || (a.RemoveMember? && a.user == link.creator && a.system == link.system)
  }

  /**
   An open link stays open, and any link the same, except that its creator revokes it, loses the
   capability, or is removed from its system; a purge may delete it with its documents.
   */
  lemma WhyLinksEnd(w: World, a: Action, t: nat)
    requires Enabled(w, a) && Lawful(w) && t in w.links
    ensures var w' := After(w, a);
      && (t in w'.links ==> SameLink(w'.links[t], w.links[t]))
      && (t in w'.links && w'.links[t] != w.links[t] ==> w.links[t].revokedAt.None? && w'.links[t].revokedAt.Some? && EndsLink(w, a, w', w.links[t]))
      && (t in w'.links && w'.links[t] != w.links[t] && a.RevokeLink? ==> a.token == t && a.allowed && Active(w.users, a.user))
      && (t !in w'.links ==> a.PurgeLinks? && t in a.tokens)
  {
    assert LinkOk(w, t);
  }

  /** The three reasons do end it. */
  lemma LinksDoEnd(w: World, a: Action, t: nat)
    requires Enabled(w, a) && t in w.links && w.links[t].revokedAt.None?
    requires EndsLink(w, a, After(w, a), w.links[t])
    requires a.RevokeLink? ==> a.token == t && a.allowed && Active(w.users, a.user)
    ensures After(w, a).links[t].revokedAt.Some?
  {
  }

  /** A link appears open, for the entitled caller who asked for it. */
  lemma WhereLinksComeFrom(w: World, a: Action, t: nat)
    requires Enabled(w, a) && t !in w.links && t in After(w, a).links
    ensures a.CreateLink? && a.token == t && a.allowed && MayHave(w, a.user, ShareLinks)
    ensures After(w, a).links[t] == Link(a.user, a.system, None)
  {
  }

  /** Over a run: between two points where a link was open and is revoked lies a step with one of the reasons. */
  lemma {:induction false} LinksEndForAReason(states: seq<World>, actions: seq<Action>, i: nat, j: nat, t: nat) returns (k: nat)
    requires IsRun(states, actions) && Lawful(states[0]) && i < j < |states|
    requires t in states[i].links && states[i].links[t].revokedAt.None?
    requires t in states[j].links && states[j].links[t].revokedAt.Some?
    ensures i <= k < j && t in states[k].links && states[k].links[t] == states[i].links[t]
    ensures EndsLink(states[k], actions[k], states[k + 1], states[i].links[t])
    decreases j - i
  {
    LawfulRun(states, actions, i);
    WhyLinksEnd(states[i], actions[i], t);
    if t in states[i + 1].links && states[i + 1].links[t] == states[i].links[t] {
      k := LinksEndForAReason(states, actions, i + 1, j, t);
    } else if t in states[i + 1].links {
      k := i;
    } else {
      assert LinkOk(states[i], t);
      GoneStaysGone(states, actions, i + 1, j, t);
    }
  }

  lemma {:induction false} GoneStaysGone(states: seq<World>, actions: seq<Action>, i: nat, j: nat, t: nat)
    requires IsRun(states, actions) && i <= j < |states| && t in states[i].issued && t !in states[i].links
    ensures t in states[j].issued && t !in states[j].links
    decreases j
  {
    if i < j {
      GoneStaysGone(states, actions, i, j - 1, t);
    }
  }

  /** A view changes only by its owner's hand or with its owner's loss of the capability. */
  lemma WhyViewsChange(w: World, a: Action, v: nat)
    requires Enabled(w, a) && Lawful(w) && v in w.views
    ensures var view, w' := w.views[v], After(w, a);
      && (v !in w'.views ==> a.DeleteView? && a.id == v && a.user == view.owner && a.allowed && Active(w.users, a.user))
      && (v in w'.views && w'.views[v] != view ==>
            && w'.views[v].owner == view.owner
            && ((a.UpdateView? && a.id == v && a.user == view.owner && a.allowed && Active(w.users, a.user) && a.share == Some(w'.views[v].shared))
                || (a.Patch? && a.uid == view.owner && !w'.views[v].shared
                    && view.owner in w.users && view.owner in w'.users
                    && Entitled(w.users[view.owner], ShareViews) && !Entitled(w'.users[view.owner], ShareViews))))
  {
    assert ViewOk(w, v);
  }

  /** What an owner asks for is done: shared if entitled, unshared and deleted always. */
  lemma OwnersGetTheirWay(w: World, user: nat, v: nat, share: bool)
    requires Active(w.users, user) && v in w.views && w.views[v].owner == user
    ensures !share || Entitled(w.users[user], ShareViews) ==> After(w, UpdateView(true, user, v, Some(share))).views[v] == View(user, share)
    ensures v !in After(w, DeleteView(true, user, v)).views
  {
  }

  /** A view appears as its owner asked for it. */
  lemma WhereViewsComeFrom(w: World, a: Action, v: nat)
    requires Enabled(w, a) && v !in w.views && v in After(w, a).views
    ensures a.CreateView? && a.id == v && a.allowed && After(w, a).views[v] == View(a.user, a.shared)
    ensures Active(w.users, a.user) && (a.shared ==> Entitled(w.users[a.user], ShareViews))
  {
  }

  // ---------- the handlers ----------

  class Accounts {
    var users: map<nat, User>
    var links: map<nat, Link>
    var views: map<nat, View>
    ghost var issued: set<nat>

    ghost function Now(): World
      reads this
    {
      World(users, links, views, issued)
    }

    ghost predicate Valid()
      reads this
    {
      Lawful(Now())
    }

    /** PatchUser's transaction: rows first, the last-admin check, then the revoke hooks. */
    method PatchUser(actor: nat, uid: nat, body: Body, now: int) returns (ok: bool)
      requires Valid()
      modifies this
      ensures Valid()
      ensures Now() == Patched(old(Now()), actor, uid, body, now)
      ensures ok <==> PatchAccepted(old(Now()), actor, uid, body)
    {
      ghost var before := Now();
      ok := PatchTx(actor, uid, body, now);
      LawfulStep(before, Patch(actor, uid, body, now));
    }

    method PatchTx(actor: nat, uid: nat, body: Body, now: int) returns (ok: bool)
      modifies this
      ensures Now() == Patched(old(Now()), actor, uid, body, now)
      ensures ok <==> PatchAccepted(old(Now()), actor, uid, body)
    {
      if uid == actor && body.disabled == Some(true) {
        return false;
      }
      if body.caps.Some? && !(body.caps.value <= KNOWN) {
        return false;
      }
      if !ActiveAdmin(users, actor) || uid !in users {
        return false;
      }
      var prior := users[uid];
      var role := prior.role;
      if body.role.Some? {
        role := body.role.value;
      }
      var caps := prior.caps;
      if body.caps.Some? {
        caps := body.caps.value;
      }
      if role.Admin? || (prior.role.Admin? && body.caps.None?) {
        caps := {};
      }
      var disabled := prior.disabled;
      if body.disabled.Some? {
        disabled := body.disabled.value;
      }
      var next := User(role, disabled, caps);
      assert next == Edited(prior, body);
      var removed: set<Capability> := {};
      if body.caps.Some? || body.role.Some? {
        removed := Removed(prior, next);
      }
      var written := users[uid := next];
      if (body.role.Some? || body.disabled.Some?) && !HasActiveAdmin(written) {
        return false;
      }
      users := written;
      RunHooks(removed, uid, now);
      return true;
    }

    /** Each capability taken away runs its hook, in no particular order. */
    method RunHooks(removed: set<Capability>, uid: nat, now: int)
      modifies this`links, this`views
      ensures links == if ShareLinks in removed then RevokedFor(old(links), uid, now) else old(links)
      ensures views == if ShareViews in removed then UnsharedFor(old(views), uid) else old(views)
      ensures links.Keys == old(links).Keys && views.Keys == old(views).Keys
      ensures forall t :: t in links ==>
        links[t] == if ShareLinks in removed && old(links)[t].creator == uid && old(links)[t].revokedAt.None?
                    then Link(uid, old(links)[t].system, Some(now)) else old(links)[t]
      ensures forall v :: v in views ==>
        views[v] == if ShareViews in removed && old(views)[v].owner == uid then View(uid, false) else old(views)[v]
    {
      var left := removed;
      while left != {}
        invariant left <= removed
        invariant links == if ShareLinks in removed - left then RevokedFor(old(links), uid, now) else old(links)
        invariant views == if ShareViews in removed - left then UnsharedFor(old(views), uid) else old(views)
        decreases left
      {
        var cap := Iteration.Pick(left);
        if cap == ShareLinks {
          links := RevokedFor(links, uid, now);
        } else if cap == ShareViews {
          views := UnsharedFor(views, uid);
        }
        left := left - {cap};
      }
    }

    method CreateShareLink(allowed: bool, user: nat, system: nat, token: nat) returns (ok: bool)
      requires Valid() && token !in issued
      modifies this
      ensures Valid()
      ensures Now() == LinkCreated(old(Now()), allowed, user, system, token)
      ensures ok <==> allowed && MayHave(old(Now()), user, ShareLinks)
    {
      ghost var before := Now();
      ok := allowed && Active(users, user);
      if ok && !users[user].role.Admin? {
        ok := ShareLinks in users[user].caps;
      }
      if ok {
        links := links[token := Link(user, system, None)];
        issued := issued + {token};
      }
      LawfulStep(before, CreateLink(allowed, user, system, token));
    }

    method RevokeShareLink(allowed: bool, user: nat, token: nat, now: int) returns (found: bool)
      requires Valid()
      modifies this
      ensures Valid()
      ensures Now() == LinkRevoked(old(Now()), allowed, user, token, now)
      ensures found <==> allowed && Active(users, user) && token in links && links[token].creator == user
      ensures found ==> links[token].revokedAt.Some?
    {
      ghost var before := Now();
      found := allowed && Active(users, user) && token in links && links[token].creator == user;
      if found && links[token].revokedAt.None? {
        links := links[token := links[token].(revokedAt := Some(now))];
      }
      LawfulStep(before, RevokeLink(allowed, user, token, now));
    }

    method RevokeForFormerMember(user: nat, system: nat, now: int)
      requires Valid()
      modifies this
      ensures Valid()
      ensures Now() == MemberRemoved(old(Now()), user, system, now)
    {
      ghost var before := Now();
      links := map t | t in links ::
        if links[t].creator == user && links[t].system == system && links[t].revokedAt.None?
        then links[t].(revokedAt := Some(now)) else links[t];
      LawfulStep(before, RemoveMember(user, system, now));
    }

    method CreateSavedView(allowed: bool, user: nat, id: nat, shared: bool) returns (ok: bool)
      requires Valid() && id !in views
      modifies this
      ensures Valid()
      ensures Now() == ViewCreated(old(Now()), allowed, user, id, shared)
      ensures ok <==> id in views
    {
      ghost var before := Now();
      ok := allowed && Active(users, user);
      if ok && shared && !users[user].role.Admin? {
        ok := ShareViews in users[user].caps;
      }
      if ok {
        views := views[id := View(user, shared)];
      }
      LawfulStep(before, CreateView(allowed, user, id, shared));
    }

    method UpdateSavedView(allowed: bool, user: nat, id: nat, shared: Option<bool>) returns (ok: bool)
      requires Valid()
      modifies this
      ensures Valid()
      ensures Now() == ViewUpdated(old(Now()), allowed, user, id, shared)
      ensures ok <==>
        && allowed && Active(users, user) && (shared == Some(true) ==> Entitled(users[user], ShareViews))
        && id in old(views) && old(views)[id].owner == user
    {
      ghost var before := Now();
      ok := allowed && Active(users, user);
      if ok && shared == Some(true) && !users[user].role.Admin? {
        ok := ShareViews in users[user].caps;
      }
      if ok {
        ok := id in views && views[id].owner == user;
      }
      if ok && shared.Some? {
        views := views[id := views[id].(shared := shared.value)];
      }
      LawfulStep(before, UpdateView(allowed, user, id, shared));
    }

    method DeleteSavedView(allowed: bool, user: nat, id: nat) returns (ok: bool)
      requires Valid()
      modifies this
      ensures Valid()
      ensures Now() == ViewDeleted(old(Now()), allowed, user, id)
      ensures ok <==> id in old(views) && id !in views
    {
      ghost var before := Now();
      ok := allowed && Active(users, user) && id in views && views[id].owner == user;
      if ok {
        views := views - {id};
      }
      LawfulStep(before, DeleteView(allowed, user, id));
    }
  }

  /**
   What an edit takes away. Between two non-admins that is the difference of the
   stored sets; otherwise the known capabilities are compared one by one.
   */
  method Removed(prior: User, next: User) returns (removed: set<Capability>)
    ensures forall cap :: cap in KNOWN ==> (cap in removed <==> Loses(prior, next, cap))
  {
    if !prior.role.Admin? && !next.role.Admin? {
      return prior.caps - next.caps;
    }
    removed := {};
    var left := KNOWN;
    while left != {}
      invariant left <= KNOWN
      invariant forall cap :: cap in KNOWN - left ==> (cap in removed <==> Loses(prior, next, cap))
      invariant forall cap :: cap in left ==> cap !in removed
      decreases left
    {
      var cap := Iteration.Pick(left);
      var had := prior.role.Admin? || cap in prior.caps;
      var has := next.role.Admin? || cap in next.caps;
      if had && !has {
        removed := removed + {cap};
      }
      left := left - {cap};
    }
  }
}
