// Central management of admin identities in Keycloak: who is enabled and which
// roles each person holds, guarded so that a Super Admin always remains.
module Identity {
  import opened Text
  import opened Writes

  type UserId = string
  type ClientId = string
  type Role = string

  const CENTRAL: ClientId := "central-admin"
  const SUPER: Role := "SUPER_ADMIN"

  datatype User = User(enabled: bool, roles: map<ClientId, set<Role>>, groups: set<string>)

  /** Keycloak's state; superGroups are the groups that carry Central Admin's SUPER_ADMIN. */
  datatype Realm = Realm(users: map<UserId, User>, clients: map<ClientId, set<Role>>, superGroups: set<string>)

  datatype Actor = Actor(systemManage: bool, subject: Option<UserId>)

  datatype Error = NOT_FOUND | VALIDATION_ERROR | FORBIDDEN | LAST_SUPER_ADMIN | SELF_DISABLE

  /** Requested roles per app, in request order; an object has each key once. */
  type AppRoles = a: seq<(ClientId, set<Role>)> | DistinctApps(a) witness []

  predicate DistinctApps(a: seq<(ClientId, set<Role>)>) {
    forall i, j :: 0 <= i < j < |a| ==> a[i].0 != a[j].0
  }

  function Desired(a: AppRoles, c: ClientId): (roles: Option<set<Role>>) {
    if a == [] then None
    else if a[|a| - 1].0 == c then Some(a[|a| - 1].1)
    else Desired(a[..|a| - 1], c)
  }

  predicate Touches(a: AppRoles, c: ClientId) {
    Desired(a, c).Some?
  }

  predicate Wants(a: AppRoles, c: ClientId, role: Role) {
    Touches(a, c) && role in Desired(a, c).value
  }

  function RolesOf(u: User, c: ClientId): set<Role> {
    if c in u.roles then u.roles[c] else {}
  }

  // ---- writes to Keycloak --------------------------------------------------------------

  datatype Write =
    | CreateUser(id: UserId)
    | AddRoles(id: UserId, client: ClientId, roles: set<Role>)
    | RemoveRoles(id: UserId, client: ClientId, roles: set<Role>)
    | SetEnabled(id: UserId, enabled: bool)

  function WithRoles(r: Realm, id: UserId, c: ClientId, roles: set<Role>): Realm
    requires id in r.users
  {
    r.(users := r.users[id := r.users[id].(roles := r.users[id].roles[c := roles])])
  }

  function Apply(r: Realm, w: Write): Realm {
    match w
    case CreateUser(id) => r.(users := r.users[id := User(true, map[], {})])
    case AddRoles(id, c, roles) =>
      if id in r.users then WithRoles(r, id, c, RolesOf(r.users[id], c) + roles) else r
    case RemoveRoles(id, c, roles) =>
      if id in r.users then WithRoles(r, id, c, RolesOf(r.users[id], c) - roles) else r
    case SetEnabled(id, enabled) =>
      if id in r.users then r.(users := r.users[id := r.users[id].(enabled := enabled)]) else r
  }

  // ---- reading ---------------------------------------------------------------------------

  predicate HoldsDirectly(r: Realm, id: UserId) {
    id in r.users && SUPER in RolesOf(r.users[id], CENTRAL)
  }

  predicate IsSuper(r: Realm, id: UserId) {
    && id in r.users && r.users[id].enabled
    && (HoldsDirectly(r, id) || r.users[id].groups * r.superGroups != {})
  }

  /** Enabled users with SUPER_ADMIN, directly or through a group. */
  function SuperAdminIds(r: Realm): set<UserId> {
    set id | id in r.users && IsSuper(r, id)
  }

  /** The listing fails when the client or its role is not in the realm. */
  predicate CanListSupers(r: Realm) {
    CENTRAL in r.clients && SUPER in r.clients[CENTRAL]
  }

  /** Unknown apps and roles are refused in request order. */
  function ValidateAppRoles(r: Realm, managed: set<ClientId>, a: AppRoles): Option<Error> {
    if a == [] then None
    else
      var earlier := ValidateAppRoles(r, managed, a[..|a| - 1]);
      var (c, roles) := a[|a| - 1];
      if earlier.Some? then earlier
      else if c !in managed then Some(VALIDATION_ERROR)
      else if c !in r.clients then Some(NOT_FOUND)
      else if roles <= r.clients[c] then None
      else Some(VALIDATION_ERROR)
  }

  // ---- what each operation decides to write ---------------------------------------------------

  /** The writes that turn the user's roles in one app into exactly `desired`. */
  function AppWrites(id: UserId, current: set<Role>, c: ClientId, desired: set<Role>): seq<Write> {
    (if desired - current != {} then [AddRoles(id, c, desired - current)] else [])
    + (if current - desired != {} then [RemoveRoles(id, c, current - desired)] else [])
  }

  function RoleWrites(u: User, id: UserId, a: AppRoles): seq<Write> {
    if a == [] then []
    else
      var (c, desired) := a[|a| - 1];
      RoleWrites(u, id, a[..|a| - 1]) + AppWrites(id, RolesOf(u, c), c, desired)
  }

  datatype Op =
    | Invite(newId: UserId, appRoles: AppRoles)
    | SetRoles(id: UserId, appRoles: AppRoles)
    | Enable(id: UserId, enabled: bool)
    | SignOut(id: UserId)

  datatype Decision = Refused(error: Error) | Writes(writes: seq<Write>)

  function PlanInvite(r: Realm, managed: set<ClientId>, actor: Actor, newId: UserId, a: AppRoles): Decision {
    if Wants(a, CENTRAL, SUPER) && !actor.systemManage then Refused(FORBIDDEN)
    else
      match ValidateAppRoles(r, managed, a)
      case Some(e) => Refused(e)
      case None => Writes([CreateUser(newId)] + RoleWrites(User(true, map[], {}), newId, a))
  }

  function PlanSetRoles(r: Realm, managed: set<ClientId>, actor: Actor, id: UserId, a: AppRoles): Decision {
    if id !in r.users || !CanListSupers(r) then Refused(NOT_FOUND)
    else
      // The user's own role listing shows managed apps only.
      var direct := CENTRAL in managed && HoldsDirectly(r, id);
      var wantsSuper := Wants(a, CENTRAL, SUPER);
      if (direct || IsSuper(r, id) || wantsSuper) && !actor.systemManage then Refused(FORBIDDEN)
      else if actor.subject == Some(id) && !actor.systemManage then Refused(FORBIDDEN)
      else if direct && Touches(a, CENTRAL) && !wantsSuper && SuperAdminIds(r) - {id} == {} then Refused(LAST_SUPER_ADMIN)
      else
        match ValidateAppRoles(r, managed, a)
        case Some(e) => Refused(e)
        case None => Writes(RoleWrites(r.users[id], id, a))
  }

  function PlanEnable(r: Realm, actor: Actor, id: UserId, enabled: bool): Decision {
    if id !in r.users then Refused(NOT_FOUND)
    else if enabled then Writes([SetEnabled(id, true)])
    else if actor.subject == Some(id) then Refused(SELF_DISABLE)
    else if !CanListSupers(r) then Refused(NOT_FOUND)
    else if IsSuper(r, id) && !actor.systemManage then Refused(FORBIDDEN)
    else if IsSuper(r, id) && SuperAdminIds(r) - {id} == {} then Refused(LAST_SUPER_ADMIN)
    else Writes([SetEnabled(id, false)])
  }

  function Plan(r: Realm, managed: set<ClientId>, actor: Actor, op: Op): Decision {
    match op
    case Invite(newId, a) => PlanInvite(r, managed, actor, newId, a)
    case SetRoles(id, a) => PlanSetRoles(r, managed, actor, id, a)
    case Enable(id, enabled) => PlanEnable(r, actor, id, enabled)
    case SignOut(id) => if id in r.users then Writes([]) else Refused(NOT_FOUND)
  }

  // ---- running a plan ----------------------------------------------------------------------------

  /** Keycloak as the service sees it: its state, the writes it took, how many more it takes. */
  datatype Provider = Provider(realm: Realm, log: seq<Write>, accepts: nat)

  /** A plan ran, as far as the provider let it. */
  ghost predicate Ran(before: Provider, writes: seq<Write>, after: Provider, ok: bool) {
    var done := Cut(writes, before.accepts);
    && after == Provider(Execute(Apply, before.realm, done), before.log + done, before.accepts - |done|)
    && ok == (|writes| <= before.accepts)
  }

  lemma RanNothing(p: Provider)
    ensures Ran(p, [], p, true)
  {
    assert p.log + [] == p.log;
  }

  lemma RanOne(p: Provider, w: Write)
    ensures p.accepts > 0 ==> Ran(p, [w], Provider(Apply(p.realm, w), p.log + [w], p.accepts - 1), true)
    ensures p.accepts == 0 ==> Ran(p, [w], p, false)
  {
    assert [w][..0] == [] && [w][..1] == [w];
    assert p.log + [] == p.log;
  }

  lemma RanOn(p0: Provider, a: seq<Write>, p1: Provider, b: seq<Write>, p2: Provider, ok: bool)
    requires Ran(p0, a, p1, true) && Ran(p1, b, p2, ok)
    ensures Ran(p0, a + b, p2, ok)
  {
    var done := Cut(b, p1.accepts);
    assert Cut(a, p0.accepts) == a;
    assert Cut(a + b, p0.accepts) == a + done;
    ExecuteAppend(Apply, p0.realm, a, done);
    assert p0.log + (a + done) == p0.log + a + done;
  }

  lemma RanShort(p0: Provider, a: seq<Write>, p1: Provider, rest: seq<Write>)
    requires Ran(p0, a, p1, false)
    ensures Ran(p0, a + rest, p1, false)
  {
    assert Cut(a + rest, p0.accepts) == Cut(a, p0.accepts);
  }

  /** What an operation leaves, given what it decided to write. */
  ghost predicate Followed(before: Provider, plan: Decision, after: Provider, error: Option<Error>, ok: bool) {
    match plan
    case Refused(e) => error == Some(e) && !ok && after == before
    case Writes(writes) => error == None && Ran(before, writes, after, ok)
  }

  // ---- the service --------------------------------------------------------------------------------

  class IdentityService {
    const managed: set<ClientId>
    var provider: Provider

    constructor (managed: set<ClientId>, provider: Provider)
      ensures this.managed == managed && this.provider == provider
    {
      this.managed, this.provider := managed, provider;
    }

    method Put(w: Write) returns (ok: bool)
      modifies this
      ensures Ran(old(provider), [w], provider, ok)
      ensures ok ==> provider.realm == Apply(old(provider).realm, w)
      ensures !ok ==> provider == old(provider)
    {
      RanOne(provider, w);
      ok := provider.accepts > 0;
      if ok {
        provider := Provider(Apply(provider.realm, w), provider.log + [w], provider.accepts - 1);
      }
    }

    /** Bring one app to exactly `desired`: additions first, then removals. */
    method ApplyOne(id: UserId, c: ClientId, desired: set<Role>, toAdd: set<Role>, toRemove: set<Role>) returns (ok: bool)
      requires id in provider.realm.users
      requires toAdd == desired - RolesOf(provider.realm.users[id], c)
      requires toRemove == RolesOf(provider.realm.users[id], c) - desired
      modifies this
      ensures Ran(old(provider), AppWrites(id, RolesOf(old(provider).realm.users[id], c), c, desired), provider, ok)
    {
      ghost var p0 := provider;
      ghost var additions := if toAdd != {} then [AddRoles(id, c, toAdd)] else [];
      ghost var removals := if toRemove != {} then [RemoveRoles(id, c, toRemove)] else [];
      RanNothing(p0);
      if toAdd != {} {
        ok := Put(AddRoles(id, c, toAdd));
        if !ok {
          RanShort(p0, additions, provider, removals);
          return;
        }
      }
      ghost var p1 := provider;
      RanNothing(p1);
      ok := true;
      if toRemove != {} {
        ok := Put(RemoveRoles(id, c, toRemove));
      }
      RanOn(p0, additions, p1, removals, provider, ok);
    }

    /**
     * Give the user exactly the listed roles in each listed app. Both result
     * sets hold (app, role) pairs; a failed write ends the loop.
     */
    method ApplyAppRoles(id: UserId, a: AppRoles)
      returns (ok: bool, added: set<(ClientId, Role)>, removed: set<(ClientId, Role)>)
      requires id in provider.realm.users
      modifies this
      ensures Ran(old(provider), RoleWrites(old(provider).realm.users[id], id, a), provider, ok)
      ensures ok ==> added == Added(old(provider).realm.users[id], a) && removed == Removed(old(provider).realm.users[id], a)
    {
      hide Ran, AppWrites;
      added, removed := {}, {};
      ghost var p0 := provider;
      ghost var u := provider.realm.users[id];
      RanNothing(p0);
      for k := 0 to |a|
        invariant id in provider.realm.users
        invariant Ran(p0, RoleWrites(u, id, a[..k]), provider, true)
        invariant added == Added(u, a[..k]) && removed == Removed(u, a[..k])
      {
        assert a[..k + 1][..k] == a[..k];
        var (c, desired) := a[k];
        EarlierAppsOnly(p0, u, id, a, k, provider);
        var current := RolesOf(provider.realm.users[id], c);
        var toAdd, toRemove := desired - current, current - desired;
        ghost var p1, writes := provider, AppWrites(id, current, c, desired);
        var sent := ApplyOne(id, c, desired, toAdd, toRemove);
        RanOn(p0, RoleWrites(u, id, a[..k]), p1, writes, provider, sent);
        if !sent {
          ghost var rest := RoleWritesExtend(u, id, a, k + 1);
          RanShort(p0, RoleWrites(u, id, a[..k + 1]), provider, rest);
          return false, added, removed;
        }
        RanKeepsUser(p0, RoleWrites(u, id, a[..k + 1]), provider, id);
        AddedStep(u, a, k);
        added := added + (set r | r in toAdd :: (c, r));
        removed := removed + (set r | r in toRemove :: (c, r));
      }
      assert a[..|a|] == a;
      return true, added, removed;
    }

    method Validate(a: AppRoles) returns (error: Option<Error>)
      ensures error == ValidateAppRoles(provider.realm, managed, a)
    {
      for k := 0 to |a|
        invariant ValidateAppRoles(provider.realm, managed, a[..k]) == None
      {
        assert a[..k + 1][..k] == a[..k];
        var (c, roles) := a[k];
        error := None;
        if c !in managed {
          error := Some(VALIDATION_ERROR);
        } else if c !in provider.realm.clients {
          error := Some(NOT_FOUND);
        } else if !(roles <= provider.realm.clients[c]) {
          error := Some(VALIDATION_ERROR);
        }
        if error.Some? {
          FirstErrorStays(provider.realm, managed, a, k + 1);
          return;
        }
      }
      assert a[..|a|] == a;
      return None;
    }

    method InviteUser(newId: UserId, a: AppRoles, actor: Actor) returns (error: Option<Error>, ok: bool)
      requires newId !in provider.realm.users
      modifies this
      ensures Followed(old(provider), PlanInvite(old(provider).realm, managed, actor, newId, a), provider, error, ok)
      ensures error == None <==> InviteAccepted(old(provider).realm, managed, actor, a)
      ensures error == None && ok ==> Invited(old(provider).realm, newId, a, provider.realm)
    {
      InviteComesTo(provider, managed, actor, newId, a);
      hide Ran, RoleWrites, ValidateAppRoles, InviteAccepted, Invited;
      if Wants(a, CENTRAL, SUPER) && !actor.systemManage {
        return Some(FORBIDDEN), false;
      }
      error := Validate(a);
      if error.Some? {
        return error, false;
      }
      ghost var p0 := provider;
      ghost var rest := RoleWrites(User(true, map[], {}), newId, a);
      ok := Put(CreateUser(newId));
      if !ok {
        RanShort(p0, [CreateUser(newId)], provider, rest);
        return;
      }
      ghost var p1 := provider;
      var added, removed;
      ok, added, removed := ApplyAppRoles(newId, a);
      RanOn(p0, [CreateUser(newId)], p1, rest, provider, ok);
    }

    method SetUserAppRoles(id: UserId, a: AppRoles, actor: Actor) returns (error: Option<Error>, ok: bool)
      modifies this
      ensures Followed(old(provider), PlanSetRoles(old(provider).realm, managed, actor, id, a), provider, error, ok)
      ensures error == None <==> RolesAccepted(old(provider).realm, managed, actor, id, a)
      ensures error == None && ok ==> RolesSet(old(provider).realm, id, a, provider.realm)
    {
      SetRolesComesTo(provider, managed, actor, id, a);
      hide Ran, RoleWrites, ValidateAppRoles, IsSuper, CanListSupers, RolesAccepted, RolesSet;
      var realm := provider.realm;
      if id !in realm.users || !CanListSupers(realm) {
        return Some(NOT_FOUND), false;
      }
      var supersBefore := SuperAdminIds(realm);
      var directSuper := CENTRAL in managed && HoldsDirectly(realm, id);
      var hadSuper := directSuper || id in supersBefore;
      var touchesCentral := Touches(a, CENTRAL);
      var wantsSuper := Wants(a, CENTRAL, SUPER);
      if hadSuper || (touchesCentral && wantsSuper) {
        if !actor.systemManage {
          return Some(FORBIDDEN), false;
        }
      }
      if actor.subject == Some(id) && !actor.systemManage {
        return Some(FORBIDDEN), false;
      }
      if directSuper && touchesCentral && !wantsSuper {
        var supers := supersBefore - {id};
        if supers == {} {
          return Some(LAST_SUPER_ADMIN), false;
        }
      }
      error := Validate(a);
      if error.Some? {
        return error, false;
      }
      var added, removed;
      ok, added, removed := ApplyAppRoles(id, a);
    }

    method SetUserEnabled(id: UserId, enabled: bool, actor: Actor) returns (error: Option<Error>, ok: bool)
      modifies this
      ensures Followed(old(provider), PlanEnable(old(provider).realm, actor, id, enabled), provider, error, ok)
      ensures error == None <==> EnableAccepted(old(provider).realm, actor, id, enabled)
      ensures error == None && ok ==> EnabledSet(old(provider).realm, id, enabled, provider.realm)
    {
      EnableComesTo(provider, actor, id, enabled);
      hide Ran, IsSuper, CanListSupers, EnableAccepted, EnabledSet;
      var realm := provider.realm;
      if id !in realm.users {
        return Some(NOT_FOUND), false;
      }
      if !enabled {
        if actor.subject == Some(id) {
          return Some(SELF_DISABLE), false;
        }
        if !CanListSupers(realm) {
          return Some(NOT_FOUND), false;
        }
        var supers := SuperAdminIds(realm);
        if id in supers {
          if !actor.systemManage {
            return Some(FORBIDDEN), false;
          }
          supers := supers - {id};
          if supers == {} {
            return Some(LAST_SUPER_ADMIN), false;
          }
        }
      }
      ok := Put(SetEnabled(id, enabled));
      return None, ok;
    }
  }

  /** Pairs to add: wanted but not held. */
  function Added(u: User, a: AppRoles): set<(ClientId, Role)> {
    set k, r | 0 <= k < |a| && r in a[k].1 && r !in RolesOf(u, a[k].0) :: (a[k].0, r)
  }

  /** Pairs to remove: held but not wanted. */
  function Removed(u: User, a: AppRoles): set<(ClientId, Role)> {
    set k, r | 0 <= k < |a| && r in RolesOf(u, a[k].0) && r !in a[k].1 :: (a[k].0, r)
  }

  lemma AddedStep(u: User, a: AppRoles, k: nat)
    requires k < |a|
    ensures Added(u, a[..k + 1]) == Added(u, a[..k]) + (set r | r in a[k].1 - RolesOf(u, a[k].0) :: (a[k].0, r))
    ensures Removed(u, a[..k + 1]) == Removed(u, a[..k]) + (set r | r in RolesOf(u, a[k].0) - a[k].1 :: (a[k].0, r))
  {
    assert forall j :: 0 <= j < k ==> a[..k + 1][j] == a[..k][j] == a[j];
    assert a[..k + 1][k] == a[k];
  }

  /** The rest of a longer request's writes. */
  lemma {:induction false} RoleWritesExtend(u: User, id: UserId, a: AppRoles, k: nat) returns (rest: seq<Write>)
    requires k <= |a|
    ensures RoleWrites(u, id, a) == RoleWrites(u, id, a[..k]) + rest
    decreases |a| - k
  {
    hide AppWrites, RolesOf;
    if k == |a| {
      rest := [];
      assert a[..k] == a;
    } else {
      var n := |a| - 1;
      var middle := RoleWritesExtend(u, id, a[..n], k);
      assert a[..n][..k] == a[..k];
      var last := AppWrites(id, RolesOf(u, a[n].0), a[n].0, a[n].1);
      rest := middle + last;
      assert RoleWrites(u, id, a) == RoleWrites(u, id, a[..n]) + last;
      assert RoleWrites(u, id, a[..k]) + middle + last == RoleWrites(u, id, a[..k]) + rest;
    }
  }

  lemma {:induction false} FirstErrorStays(r: Realm, managed: set<ClientId>, a: AppRoles, k: nat)
    requires k <= |a| && ValidateAppRoles(r, managed, a[..k]).Some?
    ensures ValidateAppRoles(r, managed, a) == ValidateAppRoles(r, managed, a[..k])
    decreases |a| - k
  {
    if k == |a| {
      assert a[..k] == a;
    } else {
      assert a[..|a| - 1][..k] == a[..k];
      FirstErrorStays(r, managed, a[..|a| - 1], k);
    }
  }

  /** The user exists throughout. */
  lemma {:induction false} ExecuteKeepsUsers(r: Realm, writes: seq<Write>, id: UserId)
    requires id in r.users
    ensures id in Execute(Apply, r, writes).users
  {
    if writes != [] {
      ExecuteKeepsUsers(r, writes[..|writes| - 1], id);
    }
  }

  lemma RanKeepsUser(p0: Provider, writes: seq<Write>, p1: Provider, id: UserId)
    requires Ran(p0, writes, p1, true) && id in p0.realm.users
    ensures id in p1.realm.users
  {
    assert Cut(writes, p0.accepts) == writes;
    ExecuteKeepsUsers(p0.realm, writes, id);
  }

  /** Only the user's roles in app c differ, and there they are `roles`. */
  ghost predicate OnlyRolesIn(r: Realm, after: Realm, id: UserId, c: ClientId, roles: set<Role>) {
    && after.users.Keys == r.users.Keys && after.clients == r.clients && after.superGroups == r.superGroups
    && id in r.users
    && (forall x :: x in r.users && x != id ==> after.users[x] == r.users[x])
    && RolesOf(after.users[id], c) == roles
    && (forall d :: d != c ==> RolesOf(after.users[id], d) == RolesOf(r.users[id], d))
    && after.users[id].enabled == r.users[id].enabled && after.users[id].groups == r.users[id].groups
  }

  lemma WithRolesFrame(r: Realm, id: UserId, c: ClientId, roles: set<Role>)
    requires id in r.users
    ensures OnlyRolesIn(r, WithRoles(r, id, c, roles), id, c, roles)
    ensures OnlyRolesIn(r, r, id, c, RolesOf(r.users[id], c))
  {
  }

  lemma OnlyRolesTwice(r: Realm, mid: Realm, after: Realm, id: UserId, c: ClientId, first: set<Role>, roles: set<Role>)
    requires OnlyRolesIn(r, mid, id, c, first) && OnlyRolesIn(mid, after, id, c, roles)
    ensures OnlyRolesIn(r, after, id, c, roles)
  {
  }

  lemma AdditionExact(r: Realm, id: UserId, c: ClientId, more: set<Role>)
    requires id in r.users
    ensures var roles := RolesOf(r.users[id], c) + more;
            OnlyRolesIn(r, Execute(Apply, r, if more != {} then [AddRoles(id, c, more)] else []), id, c, roles)
  {
    hide OnlyRolesIn, Execute, WithRoles, RolesOf;
    var roles := RolesOf(r.users[id], c) + more;
    WithRolesFrame(r, id, c, roles);
    ExecuteOne(Apply, r, AddRoles(id, c, more));
    ExecuteNothing(Apply, r);
    assert more == {} ==> roles == RolesOf(r.users[id], c);
  }

  lemma RemovalExact(r: Realm, id: UserId, c: ClientId, less: set<Role>)
    requires id in r.users
    ensures var roles := RolesOf(r.users[id], c) - less;
            OnlyRolesIn(r, Execute(Apply, r, if less != {} then [RemoveRoles(id, c, less)] else []), id, c, roles)
  {
    hide OnlyRolesIn, Execute, WithRoles, RolesOf;
    var roles := RolesOf(r.users[id], c) - less;
    WithRolesFrame(r, id, c, roles);
    ExecuteOne(Apply, r, RemoveRoles(id, c, less));
    ExecuteNothing(Apply, r);
    assert less == {} ==> roles == RolesOf(r.users[id], c);
  }

  /** Executing an app's writes sets that app and nothing else. */
  lemma AppWritesExact(r: Realm, id: UserId, c: ClientId, desired: set<Role>)
    requires id in r.users
    ensures OnlyRolesIn(r, Execute(Apply, r, AppWrites(id, RolesOf(r.users[id], c), c, desired)), id, c, desired)
  {
    hide Execute, Apply, RolesOf;
    var current := RolesOf(r.users[id], c);
    var toAdd, toRemove := desired - current, current - desired;
    var additions := if toAdd != {} then [AddRoles(id, c, toAdd)] else [];
    var removals := if toRemove != {} then [RemoveRoles(id, c, toRemove)] else [];
    var mid := Execute(Apply, r, additions);
    ExecuteAppend(Apply, r, additions, removals);
    AdditionExact(r, id, c, toAdd);
    assert id in mid.users && RolesOf(mid.users[id], c) == current + toAdd;
    RemovalExact(mid, id, c, toRemove);
    assert current + toAdd - toRemove == desired;
    hide OnlyRolesIn;
    OnlyRolesTwice(r, mid, Execute(Apply, mid, removals), id, c, current + toAdd, desired);
  }

  /** Executing all role writes gives exactly the listed roles in the listed apps. */
  lemma {:induction false} RoleWritesExact(r: Realm, id: UserId, a: AppRoles)
    requires id in r.users
    ensures var after := Execute(Apply, r, RoleWrites(r.users[id], id, a));
            && after.users.Keys == r.users.Keys && after.clients == r.clients && after.superGroups == r.superGroups
            && (forall x :: x in r.users && x != id ==> after.users[x] == r.users[x])
            && (forall c :: RolesOf(after.users[id], c) ==
                  if Touches(a, c) then Desired(a, c).value else RolesOf(r.users[id], c))
            && after.users[id].enabled == r.users[id].enabled && after.users[id].groups == r.users[id].groups
  {
    if a != [] {
      var n := |a| - 1;
      var (c, desired) := a[n];
      var u := r.users[id];
      RoleWritesExact(r, id, a[..n]);
      var mid := Execute(Apply, r, RoleWrites(u, id, a[..n]));
      NotListed(a[..n], c);
      assert RolesOf(mid.users[id], c) == RolesOf(u, c);
      ExecuteAppend(Apply, r, RoleWrites(u, id, a[..n]), AppWrites(id, RolesOf(u, c), c, desired));
      AppWritesExact(mid, id, c, desired);
    }
  }

  lemma {:induction false} NotListed(a: AppRoles, c: ClientId)
    requires forall k :: 0 <= k < |a| ==> a[k].0 != c
    ensures !Touches(a, c)
  {
    if a != [] {
      NotListed(a[..|a| - 1], c);
    }
  }

  lemma EarlierAppsOnly(p0: Provider, u: User, id: UserId, a: AppRoles, k: nat, p1: Provider)
    requires k < |a| && id in p0.realm.users && u == p0.realm.users[id]
    requires Ran(p0, RoleWrites(u, id, a[..k]), p1, true)
    ensures id in p1.realm.users && RolesOf(p1.realm.users[id], a[k].0) == RolesOf(u, a[k].0)
  {
    hide RoleWrites, Execute;
    assert Cut(RoleWrites(u, id, a[..k]), p0.accepts) == RoleWrites(u, id, a[..k]);
    RoleWritesExact(p0.realm, id, a[..k]);
    NotListed(a[..k], a[k].0);
  }

  // ---- exact reconciliation ----------------------------------------------------------------------

  /** Once the roles are as listed, asking again writes nothing. */
  lemma {:induction false} SecondRunIsNoOp(u: User, id: UserId, a: AppRoles)
    requires forall k :: 0 <= k < |a| ==> RolesOf(u, a[k].0) == a[k].1
    ensures RoleWrites(u, id, a) == []
  {
    if a != [] {
      SecondRunIsNoOp(u, id, a[..|a| - 1]);
    }
  }

  lemma {:induction false} DesiredIsListed(a: AppRoles, k: nat)
    requires k < |a|
    ensures Desired(a, a[k].0) == Some(a[k].1)
    decreases |a|
  {
    if k < |a| - 1 {
      DesiredIsListed(a[..|a| - 1], k);
    }
  }

  /**
   * A completed reconciliation: each listed app has precisely the desired
   * roles, other apps and users are untouched, and a second run is a no-op.
   */
  lemma ReconciliationIsExact(p0: Provider, id: UserId, a: AppRoles, p1: Provider)
    requires id in p0.realm.users && Ran(p0, RoleWrites(p0.realm.users[id], id, a), p1, true)
    ensures id in p1.realm.users
    ensures forall k :: 0 <= k < |a| ==> RolesOf(p1.realm.users[id], a[k].0) == a[k].1
    ensures forall c :: !Touches(a, c) ==> RolesOf(p1.realm.users[id], c) == RolesOf(p0.realm.users[id], c)
    ensures forall x :: x in p0.realm.users && x != id ==> x in p1.realm.users && p1.realm.users[x] == p0.realm.users[x]
    ensures RoleWrites(p1.realm.users[id], id, a) == []
  {
    hide RoleWrites, Execute;
    var u := p0.realm.users[id];
    assert Cut(RoleWrites(u, id, a), p0.accepts) == RoleWrites(u, id, a);
    RoleWritesExact(p0.realm, id, a);
    forall k | 0 <= k < |a| ensures RolesOf(p1.realm.users[id], a[k].0) == a[k].1 {
      DesiredIsListed(a, k);
    }
    SecondRunIsNoOp(p1.realm.users[id], id, a);
  }

  // ---- what each operation requires and achieves ---------------------------------------------------------

  /** Holds SUPER_ADMIN in central-admin, itself or through one of its groups. */
  predicate HoldsSuper(r: Realm, id: UserId) {
    && id in r.users
    && (|| ("central-admin" in r.users[id].roles && "SUPER_ADMIN" in r.users[id].roles["central-admin"])
        || exists g :: g in r.users[id].groups && g in r.superGroups)
  }

  predicate EnabledSuper(r: Realm, id: UserId) {
    HoldsSuper(r, id) && r.users[id].enabled
  }

  predicate HoldsItself(r: Realm, id: UserId) {
    id in r.users && "central-admin" in r.users[id].roles && "SUPER_ADMIN" in r.users[id].roles["central-admin"]
  }

  /** Some other enabled account holds it. */
  ghost predicate AnotherSuper(r: Realm, id: UserId) {
    exists x :: x != id && EnabledSuper(r, x)
  }

  predicate RoleListable(r: Realm) {
    "central-admin" in r.clients && "SUPER_ADMIN" in r.clients["central-admin"]
  }

  /** Every app asked for is managed and known, with only roles it has. */
  ghost predicate AppsKnown(r: Realm, managed: set<ClientId>, a: AppRoles) {
    forall k :: 0 <= k < |a| ==> a[k].0 in managed && a[k].0 in r.clients && a[k].1 <= r.clients[a[k].0]
  }

  ghost predicate AsksFor(a: AppRoles, c: ClientId) {
    exists k :: 0 <= k < |a| && a[k].0 == c
  }

  ghost predicate AsksForSuper(a: AppRoles) {
    exists k :: 0 <= k < |a| && a[k].0 == "central-admin" && "SUPER_ADMIN" in a[k].1
  }

  ghost predicate InviteAccepted(r: Realm, managed: set<ClientId>, actor: Actor, a: AppRoles) {
    (AsksForSuper(a) ==> actor.systemManage) && AppsKnown(r, managed, a)
  }

  ghost predicate RolesAccepted(r: Realm, managed: set<ClientId>, actor: Actor, id: UserId, a: AppRoles) {
    var direct := "central-admin" in managed && HoldsItself(r, id);
    && id in r.users && RoleListable(r) && AppsKnown(r, managed, a)
    && (!actor.systemManage ==>
          && !AsksForSuper(a) && actor.subject != Some(id)
          && !direct && !EnabledSuper(r, id))
    && (direct && AsksFor(a, "central-admin") && !AsksForSuper(a) ==> AnotherSuper(r, id))
  }

  ghost predicate EnableAccepted(r: Realm, actor: Actor, id: UserId, enabled: bool) {
    && id in r.users
    && (!enabled ==>
          && actor.subject != Some(id) && RoleListable(r)
          && (EnabledSuper(r, id) ==> actor.systemManage && AnotherSuper(r, id)))
  }

  /** Nothing but the one user differs. */
  ghost predicate OnlyUser(r: Realm, after: Realm, id: UserId) {
    && after.clients == r.clients && after.superGroups == r.superGroups && id in after.users
    && after.users.Keys == r.users.Keys + {id}
    && forall x :: x in r.users && x != id ==> after.users[x] == r.users[x]
  }

  /** A new enabled user in no group, with exactly the roles asked for. */
  ghost predicate Invited(r: Realm, newId: UserId, a: AppRoles, after: Realm) {
    && OnlyUser(r, after, newId)
    && after.users[newId].enabled && after.users[newId].groups == {}
    && (forall k :: 0 <= k < |a| ==> RolesOf(after.users[newId], a[k].0) == a[k].1)
    && forall c :: !AsksFor(a, c) ==> RolesOf(after.users[newId], c) == {}
  }

  /** Exactly the roles asked for in the apps asked for; the rest as before. */
  ghost predicate RolesSet(r: Realm, id: UserId, a: AppRoles, after: Realm) {
    && OnlyUser(r, after, id) && id in r.users
    && after.users[id].enabled == r.users[id].enabled && after.users[id].groups == r.users[id].groups
    && (forall k :: 0 <= k < |a| ==> RolesOf(after.users[id], a[k].0) == a[k].1)
    && forall c :: !AsksFor(a, c) ==> RolesOf(after.users[id], c) == RolesOf(r.users[id], c)
  }

  ghost predicate EnabledSet(r: Realm, id: UserId, enabled: bool, after: Realm) {
    id in r.users && after == r.(users := r.users[id := r.users[id].(enabled := enabled)])
  }

  lemma {:induction false} DesiredExactly(a: AppRoles, c: ClientId)
    ensures Touches(a, c) <==> AsksFor(a, c)
    ensures forall k :: 0 <= k < |a| && a[k].0 == c ==> Desired(a, c) == Some(a[k].1)
  {
    forall k | 0 <= k < |a| && a[k].0 == c ensures Desired(a, c) == Some(a[k].1) {
      DesiredIsListed(a, k);
    }
    if !AsksFor(a, c) {
      NotListed(a, c);
    }
  }

  lemma WantsExactly(a: AppRoles)
    ensures Wants(a, CENTRAL, SUPER) <==> AsksForSuper(a)
    ensures Touches(a, CENTRAL) <==> AsksFor(a, "central-admin")
  {
    DesiredExactly(a, CENTRAL);
  }

  lemma {:induction false} ValidExactly(r: Realm, managed: set<ClientId>, a: AppRoles)
    ensures ValidateAppRoles(r, managed, a) == None <==> AppsKnown(r, managed, a)
  {
    if a != [] {
      var n := |a| - 1;
      ValidExactly(r, managed, a[..n]);
      assert forall k :: 0 <= k < n ==> a[..n][k] == a[k];
    }
  }

  lemma SuperExactly(r: Realm, id: UserId)
    ensures IsSuper(r, id) <==> EnabledSuper(r, id)
    ensures HoldsDirectly(r, id) <==> HoldsItself(r, id)
    ensures CanListSupers(r) <==> RoleListable(r)
    ensures EnabledSuper(r, id) ==> id in r.users
  {
    if id in r.users {
      assert r.users[id].groups * r.superGroups != {} <==>
             exists g :: g in r.users[id].groups && g in r.superGroups by {
        if g :| g in r.users[id].groups && g in r.superGroups {
          assert g in r.users[id].groups * r.superGroups;
        }
      }
    }
  }

  lemma OthersExactly(r: Realm, id: UserId)
    ensures SuperAdminIds(r) - {id} != {} <==> AnotherSuper(r, id)
  {
    hide EnabledSuper, IsSuper;
    forall x ensures x in SuperAdminIds(r) <==> EnabledSuper(r, x) {
      SuperExactly(r, x);
      assert IsSuper(r, x) ==> x in r.users by { SuperExists(r, x); }
    }
    if x :| x != id && EnabledSuper(r, x) {
      assert x in SuperAdminIds(r) - {id};
    }
  }

  lemma SuperExists(r: Realm, x: UserId)
    ensures IsSuper(r, x) ==> x in r.users
  {
  }

  /** Exactly when each operation goes through. */
  lemma AcceptedExactly(r: Realm, managed: set<ClientId>, actor: Actor, id: UserId, a: AppRoles, enabled: bool)
    ensures Plan(r, managed, actor, Invite(id, a)).Writes? <==> InviteAccepted(r, managed, actor, a)
    ensures Plan(r, managed, actor, SetRoles(id, a)).Writes? <==> RolesAccepted(r, managed, actor, id, a)
    ensures Plan(r, managed, actor, Enable(id, enabled)).Writes? <==> EnableAccepted(r, actor, id, enabled)
  {
    hide IsSuper, EnabledSuper, HoldsDirectly, HoldsItself, Wants, Touches, AsksFor, AsksForSuper, ValidateAppRoles, AppsKnown;
    hide AnotherSuper, SuperAdminIds, CanListSupers, RoleListable, RoleWrites;
    WantsExactly(a);
    ValidExactly(r, managed, a);
    SuperExactly(r, id);
    OthersExactly(r, id);
  }

  lemma EnableComesTo(p0: Provider, actor: Actor, id: UserId, enabled: bool)
    ensures PlanEnable(p0.realm, actor, id, enabled).Writes? <==> EnableAccepted(p0.realm, actor, id, enabled)
    ensures forall p1 :: PlanEnable(p0.realm, actor, id, enabled).Writes?
                         && Ran(p0, PlanEnable(p0.realm, actor, id, enabled).writes, p1, true) ==>
                           EnabledSet(p0.realm, id, enabled, p1.realm)
  {
    AcceptedExactly(p0.realm, {}, actor, id, [], enabled);
    forall p1 | PlanEnable(p0.realm, actor, id, enabled).Writes?
                && Ran(p0, PlanEnable(p0.realm, actor, id, enabled).writes, p1, true)
      ensures EnabledSet(p0.realm, id, enabled, p1.realm)
    {
      EnableDone(p0, actor, id, enabled, p1);
    }
  }

  lemma EnableDone(p0: Provider, actor: Actor, id: UserId, enabled: bool, p1: Provider)
    requires PlanEnable(p0.realm, actor, id, enabled).Writes?
    requires Ran(p0, PlanEnable(p0.realm, actor, id, enabled).writes, p1, true)
    ensures EnabledSet(p0.realm, id, enabled, p1.realm)
  {
    hide IsSuper, CanListSupers, SuperAdminIds;
    var ws := PlanEnable(p0.realm, actor, id, enabled).writes;
    assert Cut(ws, p0.accepts) == ws;
    ExecuteOne(Apply, p0.realm, ws[0]);
  }

  lemma SetRolesComesTo(p0: Provider, managed: set<ClientId>, actor: Actor, id: UserId, a: AppRoles)
    ensures var plan := PlanSetRoles(p0.realm, managed, actor, id, a);
            && (plan.Writes? <==> RolesAccepted(p0.realm, managed, actor, id, a))
            && (plan.Writes? ==> forall p1 :: Ran(p0, plan.writes, p1, true) ==> RolesSet(p0.realm, id, a, p1.realm))
  {
    AcceptedExactly(p0.realm, managed, actor, id, a, true);
    hide Ran, IsSuper, CanListSupers, SuperAdminIds, ValidateAppRoles, RolesAccepted, RolesSet, RoleWrites;
    var plan := PlanSetRoles(p0.realm, managed, actor, id, a);
    if plan.Writes? {
      forall p1 | Ran(p0, plan.writes, p1, true) ensures RolesSet(p0.realm, id, a, p1.realm) {
        SetRolesDone(p0, id, a, p1);
      }
    }
  }

  lemma SetRolesDone(p0: Provider, id: UserId, a: AppRoles, p1: Provider)
    requires id in p0.realm.users && Ran(p0, RoleWrites(p0.realm.users[id], id, a), p1, true)
    ensures RolesSet(p0.realm, id, a, p1.realm)
  {
    assert Cut(RoleWrites(p0.realm.users[id], id, a), p0.accepts) == RoleWrites(p0.realm.users[id], id, a);
    hide RoleWrites, Execute;
    RolesWritten(p0.realm, id, a, p1.realm);
  }

  lemma RolesWritten(r: Realm, id: UserId, a: AppRoles, after: Realm)
    requires id in r.users && after == Execute(Apply, r, RoleWrites(r.users[id], id, a))
    ensures RolesSet(r, id, a, after)
  {
    RoleWritesExact(r, id, a);
    hide RoleWrites, Execute, Desired;
    forall k | 0 <= k < |a| ensures RolesOf(after.users[id], a[k].0) == a[k].1 {
      DesiredExactly(a, a[k].0);
    }
    forall c | !AsksFor(a, c) ensures RolesOf(after.users[id], c) == RolesOf(r.users[id], c) {
      DesiredExactly(a, c);
    }
  }

  lemma InviteComesTo(p0: Provider, managed: set<ClientId>, actor: Actor, newId: UserId, a: AppRoles)
    requires newId !in p0.realm.users
    ensures var plan := PlanInvite(p0.realm, managed, actor, newId, a);
            && (plan.Writes? <==> InviteAccepted(p0.realm, managed, actor, a))
            && (plan.Writes? ==> forall p1 :: Ran(p0, plan.writes, p1, true) ==> Invited(p0.realm, newId, a, p1.realm))
  {
    AcceptedExactly(p0.realm, managed, actor, newId, a, true);
    hide Ran, ValidateAppRoles, InviteAccepted, Invited, RoleWrites, Wants;
    var plan := PlanInvite(p0.realm, managed, actor, newId, a);
    if plan.Writes? {
      forall p1 | Ran(p0, plan.writes, p1, true) ensures Invited(p0.realm, newId, a, p1.realm) {
        InviteDone(p0, newId, a, p1);
      }
    }
  }

  lemma InviteDone(p0: Provider, newId: UserId, a: AppRoles, p1: Provider)
    requires newId !in p0.realm.users
    requires Ran(p0, [CreateUser(newId)] + RoleWrites(User(true, map[], {}), newId, a), p1, true)
    ensures Invited(p0.realm, newId, a, p1.realm)
  {
    var roles := RoleWrites(User(true, map[], {}), newId, a);
    var ws := [CreateUser(newId)] + roles;
    assert Cut(ws, p0.accepts) == ws;
    ExecuteAppend(Apply, p0.realm, [CreateUser(newId)], roles);
    ExecuteOne(Apply, p0.realm, CreateUser(newId));
    var created := Apply(p0.realm, CreateUser(newId));
    hide RoleWrites, Execute, Apply;
    NewUser(p0.realm, newId);
    RolesWritten(created, newId, a, p1.realm);
    CreatedThenSet(p0.realm, newId, a, p1.realm);
  }

  lemma NewUser(r: Realm, newId: UserId)
    ensures newId in Apply(r, CreateUser(newId)).users && Apply(r, CreateUser(newId)).users[newId] == User(true, map[], {})
  {
  }

  lemma CreatedThenSet(r: Realm, newId: UserId, a: AppRoles, after: Realm)
    requires newId !in r.users && RolesSet(Apply(r, CreateUser(newId)), newId, a, after)
    ensures Invited(r, newId, a, after)
  {
  }

  /** The reason given when one is refused. */
  lemma RefusedWith(r: Realm, managed: set<ClientId>, actor: Actor, id: UserId, a: AppRoles)
    ensures (AsksForSuper(a) && !actor.systemManage) <==> Plan(r, managed, actor, Invite(id, a)) == Refused(FORBIDDEN)
    ensures id !in r.users || !RoleListable(r) ==> Plan(r, managed, actor, SetRoles(id, a)) == Refused(NOT_FOUND)
    ensures id in r.users && RoleListable(r) ==>
              var direct := "central-admin" in managed && HoldsItself(r, id);
              var forbidden := !actor.systemManage && (direct || EnabledSuper(r, id) || AsksForSuper(a)
                                                       || actor.subject == Some(id));
              && (Plan(r, managed, actor, SetRoles(id, a)) == Refused(FORBIDDEN) <==> forbidden)
              && (Plan(r, managed, actor, SetRoles(id, a)) == Refused(LAST_SUPER_ADMIN) <==>
                    !forbidden && direct && AsksFor(a, "central-admin") && !AsksForSuper(a) && !AnotherSuper(r, id))
    ensures var plan := Plan(r, managed, actor, Enable(id, false));
            var super := EnabledSuper(r, id);
            && (plan == Refused(SELF_DISABLE) <==> id in r.users && actor.subject == Some(id))
            && (plan == Refused(FORBIDDEN) <==> super && actor.subject != Some(id) && RoleListable(r) && !actor.systemManage)
            && (plan == Refused(LAST_SUPER_ADMIN) <==>
                  super && actor.subject != Some(id) && RoleListable(r) && actor.systemManage && !AnotherSuper(r, id))
  {
    hide IsSuper, EnabledSuper, HoldsDirectly, HoldsItself, Wants, Touches, AsksFor, AsksForSuper, AppsKnown;
    hide AnotherSuper, SuperAdminIds, CanListSupers, RoleListable, RoleWrites;
    WantsExactly(a);
    ValidReasons(r, managed, a);
    hide ValidateAppRoles;
    SuperExactly(r, id);
    OthersExactly(r, id);
  }

  lemma {:induction false} ValidReasons(r: Realm, managed: set<ClientId>, a: AppRoles)
    ensures ValidateAppRoles(r, managed, a) in {None, Some(NOT_FOUND), Some(VALIDATION_ERROR)}
  {
    if a != [] {
      ValidReasons(r, managed, a[..|a| - 1]);
    }
  }

  // ---- a Super Admin always remains ------------------------------------------------------------------

  ghost predicate SomeSuper(r: Realm) {
    exists id :: IsSuper(r, id)
  }

  /** The write takes nobody's enabled flag or direct SUPER_ADMIN away. */
  ghost predicate Harmless(w: Write) {
    match w
    case CreateUser(_) => true
    case AddRoles(_, _, _) => true
    case RemoveRoles(_, c, roles) => !(c == CENTRAL && SUPER in roles)
    case SetEnabled(_, enabled) => enabled
  }

  /** Whoever is not the subject of a write stays a Super Admin; a harmless write keeps its subject too. */
  lemma ApplyKeepsSuper(r: Realm, w: Write, id: UserId)
    requires IsSuper(r, id)
    requires Harmless(w) || w.id != id
    requires w.CreateUser? ==> w.id !in r.users
    ensures IsSuper(Apply(r, w), id)
  {
  }

  /** Every prefix of a plan keeps the enabled Super Admin `id`. */
  lemma {:induction false} ExecuteKeepsSuper(r: Realm, writes: seq<Write>, id: UserId)
    requires IsSuper(r, id)
    requires forall k :: 0 <= k < |writes| ==> Harmless(writes[k]) || writes[k].id != id
    requires forall k :: 0 <= k < |writes| && writes[k].CreateUser? ==> k == 0 && writes[k].id !in r.users
    ensures IsSuper(Execute(Apply, r, writes), id)
  {
    if writes != [] {
      var n := |writes| - 1;
      ExecuteKeepsSuper(r, writes[..n], id);
      if writes[n].CreateUser? {
        assert writes[..n] == [];
      }
      ApplyKeepsSuper(Execute(Apply, r, writes[..n]), writes[n], id);
    }
  }

  /** What the writes of a role request look like. */
  lemma {:induction false} RoleWritesShape(u: User, id: UserId, a: AppRoles)
    ensures forall k :: 0 <= k < |RoleWrites(u, id, a)| ==>
              var w := RoleWrites(u, id, a)[k];
              && !w.CreateUser? && !w.SetEnabled? && w.id == id
              && (w.RemoveRoles? ==> Touches(a, w.client) && w.roles == RolesOf(u, w.client) - Desired(a, w.client).value)
              && (w.AddRoles? ==> Touches(a, w.client) && w.roles == Desired(a, w.client).value - RolesOf(u, w.client))
  {
    if a != [] {
      var n := |a| - 1;
      RoleWritesShape(u, id, a[..n]);
      NotListed(a[..n], a[n].0);
    }
  }

  lemma {:induction false} AcceptedAppsAreManaged(r: Realm, managed: set<ClientId>, a: AppRoles, c: ClientId)
    requires ValidateAppRoles(r, managed, a) == None && Touches(a, c)
    ensures c in managed && c in r.clients && Desired(a, c).value <= r.clients[c]
  {
    if a[|a| - 1].0 != c {
      AcceptedAppsAreManaged(r, managed, a[..|a| - 1], c);
    }
  }

  /** Someone who is Super Admin now and whom no write of the plan can demote. */
  lemma Survivor(r: Realm, managed: set<ClientId>, actor: Actor, op: Op) returns (x: UserId)
    requires SomeSuper(r) && Plan(r, managed, actor, op).Writes?
    requires op.Invite? ==> op.newId !in r.users
    ensures IsSuper(r, x)
    ensures var ws := Plan(r, managed, actor, op).writes;
            forall k :: 0 <= k < |ws| ==> Harmless(ws[k]) || ws[k].id != x
  {
    hide IsSuper, ValidateAppRoles, CanListSupers, RoleWrites;
    var ws := Plan(r, managed, actor, op).writes;
    x :| IsSuper(r, x);
    match op {
      case Invite(newId, a) =>
        RoleWritesShape(User(true, map[], {}), newId, a);
      case SetRoles(id, a) =>
        RoleWritesShape(r.users[id], id, a);
        if k :| 0 <= k < |ws| && !Harmless(ws[k]) {
          AcceptedAppsAreManaged(r, managed, a, CENTRAL);
          x :| x in SuperAdminIds(r) - {id};
        }
      case Enable(id, enabled) =>
        if !enabled && x == id {
          x :| x in SuperAdminIds(r) - {id};
        }
      case SignOut(id) =>
    }
  }

  lemma PlanCreatesFirst(r: Realm, managed: set<ClientId>, actor: Actor, op: Op)
    requires Plan(r, managed, actor, op).Writes?
    ensures var ws := Plan(r, managed, actor, op).writes;
            forall k :: 0 <= k < |ws| && ws[k].CreateUser? ==> k == 0 && op.Invite? && ws[k].id == op.newId
  {
    hide IsSuper, ValidateAppRoles, CanListSupers, RoleWrites;
    match op
    case Invite(newId, a) => RoleWritesShape(User(true, map[], {}), newId, a);
    case SetRoles(id, a) => RoleWritesShape(r.users[id], id, a);
    case _ =>
  }

  /** After each individual write of an accepted operation, an enabled Super Admin remains. */
  lemma SuperRemainsAfterEachWrite(r: Realm, managed: set<ClientId>, actor: Actor, op: Op, n: nat)
    requires SomeSuper(r) && Plan(r, managed, actor, op).Writes?
    requires op.Invite? ==> op.newId !in r.users
    ensures SomeSuper(Execute(Apply, r, Cut(Plan(r, managed, actor, op).writes, n)))
  {
    var x := Survivor(r, managed, actor, op);
    PlanCreatesFirst(r, managed, actor, op);
    hide Plan, Execute, IsSuper;
    ExecuteKeepsSuper(r, Cut(Plan(r, managed, actor, op).writes, n), x);
  }

  // ---- runs -------------------------------------------------------------------------------------------

  /** One request of a run, and how many of its writes Keycloak takes before a call fails. */
  datatype Request = Request(actor: Actor, op: Op, accepts: nat)

  function Written(r: Realm, managed: set<ClientId>, q: Request): seq<Write> {
    match Plan(r, managed, q.actor, q.op)
    case Refused(_) => []
    case Writes(ws) => Cut(ws, q.accepts)
  }

  function RunAll(r: Realm, managed: set<ClientId>, run: seq<Request>): Realm {
    if run == [] then r
    else
      var before := RunAll(r, managed, run[..|run| - 1]);
      Execute(Apply, before, Written(before, managed, run[|run| - 1]))
  }

  /** Keycloak gives an invited user an id nobody has. */
  ghost predicate FreshIds(r: Realm, managed: set<ClientId>, run: seq<Request>) {
    forall k :: 0 <= k < |run| && run[k].op.Invite? ==> run[k].op.newId !in RunAll(r, managed, run[..k]).users
  }

  /** The realm after `writes` writes of the k-th request. */
  function Within(r: Realm, managed: set<ClientId>, run: seq<Request>, k: nat, writes: nat): Realm
    requires k < |run|
  {
    var before := RunAll(r, managed, run[..k]);
    Execute(Apply, before, Cut(Written(before, managed, run[k]), writes))
  }

  lemma {:induction false} RunStart(r: Realm, managed: set<ClientId>, run: seq<Request>, k: nat)
    requires SomeSuper(r) && FreshIds(r, managed, run) && k <= |run|
    ensures SomeSuper(RunAll(r, managed, run[..k]))
  {
    if k > 0 {
      RunStart(r, managed, run, k - 1);
      assert run[..k][..k - 1] == run[..k - 1];
      var before, q := RunAll(r, managed, run[..k - 1]), run[k - 1];
      if Plan(before, managed, q.actor, q.op).Writes? {
        SuperRemainsAfterEachWrite(before, managed, q.actor, q.op, q.accepts);
      }
    }
  }

  /**
   * Starting with an enabled Super Admin, every serial run of invite, set-roles,
   * set-enabled and sign-out, cut off by failures anywhere and with any set of
   * managed apps, has one after every single write.
   */
  lemma SuperAdminAlwaysRemains(r: Realm, managed: set<ClientId>, run: seq<Request>, k: nat, writes: nat)
    requires SomeSuper(r) && FreshIds(r, managed, run) && k < |run|
    ensures SomeSuper(Within(r, managed, run, k, writes))
  {
    RunStart(r, managed, run, k);
    var before, q := RunAll(r, managed, run[..k]), run[k];
    if Plan(before, managed, q.actor, q.op).Writes? {
      CutOfCut(Plan(before, managed, q.actor, q.op).writes, q.accepts, writes);
      SuperRemainsAfterEachWrite(before, managed, q.actor, q.op, if writes <= q.accepts then writes else q.accepts);
    }
  }

  // ---- actors without system.manage ----------------------------------------------------------------------

  /** The write does not touch anyone's direct SUPER_ADMIN. */
  ghost predicate Neutral(w: Write) {
    (w.AddRoles? || w.RemoveRoles?) && w.client == CENTRAL ==> SUPER !in w.roles
  }

  lemma {:induction false} NeutralWritesKeepHolders(r: Realm, writes: seq<Write>, id: UserId)
    requires forall k :: 0 <= k < |writes| ==> Neutral(writes[k])
    requires forall k :: 0 <= k < |writes| && writes[k].CreateUser? ==> k == 0 && writes[k].id !in r.users
    ensures HoldsDirectly(Execute(Apply, r, writes), id) == HoldsDirectly(r, id)
  {
    if writes != [] {
      var n := |writes| - 1;
      NeutralWritesKeepHolders(r, writes[..n], id);
      if writes[n].CreateUser? {
        assert writes[..n] == [];
      }
    }
  }

  /** What an accepted operation of such an actor can write. */
  lemma UnprivilegedWrites(r: Realm, managed: set<ClientId>, actor: Actor, op: Op, x: UserId)
    requires !actor.systemManage && Plan(r, managed, actor, op).Writes?
    ensures var ws := Plan(r, managed, actor, op).writes;
            && (forall k :: 0 <= k < |ws| ==> Neutral(ws[k]))
            && (IsSuper(r, x) ==> forall k :: 0 <= k < |ws| ==> Harmless(ws[k]) || ws[k].id != x)
  {
    hide IsSuper, ValidateAppRoles, CanListSupers, RoleWrites;
    match op
    case Invite(newId, a) => RoleWritesShape(User(true, map[], {}), newId, a);
    case SetRoles(id, a) =>
      RoleWritesShape(r.users[id], id, a);
      if Touches(a, CENTRAL) {
        AcceptedAppsAreManaged(r, managed, a, CENTRAL);
      }
    case _ =>
  }

  /**
   * Whatever actors without system.manage do, after every single write the
   * direct SUPER_ADMIN holders are the same and no enabled Super Admin is lost.
   */
  lemma UnprivilegedActorsKeepSupers(r: Realm, managed: set<ClientId>, actor: Actor, op: Op, n: nat, x: UserId)
    requires !actor.systemManage && Plan(r, managed, actor, op).Writes?
    requires op.Invite? ==> op.newId !in r.users
    ensures var after := Execute(Apply, r, Cut(Plan(r, managed, actor, op).writes, n));
            && (HoldsDirectly(after, x) <==> HoldsDirectly(r, x))
            && (IsSuper(r, x) ==> IsSuper(after, x))
  {
    UnprivilegedWrites(r, managed, actor, op, x);
    PlanCreatesFirst(r, managed, actor, op);
    hide Plan, Execute, IsSuper, HoldsDirectly;
    var ws := Cut(Plan(r, managed, actor, op).writes, n);
    NeutralWritesKeepHolders(r, ws, x);
    if IsSuper(r, x) {
      ExecuteKeepsSuper(r, ws, x);
    }
  }

  /** The same over a whole run of such actors, at every write. */
  lemma {:induction false} UnprivilegedRunKeepsSupers(r: Realm, managed: set<ClientId>, run: seq<Request>, x: UserId)
    requires FreshIds(r, managed, run) && forall k :: 0 <= k < |run| ==> !run[k].actor.systemManage
    ensures HoldsDirectly(RunAll(r, managed, run), x) <==> HoldsDirectly(r, x)
    ensures IsSuper(r, x) ==> IsSuper(RunAll(r, managed, run), x)
    ensures forall k: nat, writes: nat :: k < |run| ==>
              var during := Within(r, managed, run, k, writes);
              (HoldsDirectly(during, x) <==> HoldsDirectly(r, x)) && (IsSuper(r, x) ==> IsSuper(during, x))
  {
    hide Plan, Execute, IsSuper, HoldsDirectly;
    if run != [] {
      var n := |run| - 1;
      var earlier := run[..n];
      assert forall k :: 0 <= k <= n ==> earlier[..k] == run[..k];
      UnprivilegedRunKeepsSupers(r, managed, earlier, x);
      var before, q := RunAll(r, managed, earlier), run[n];
      forall writes: nat
        ensures IsSuper(r, x) ==> IsSuper(Within(r, managed, run, n, writes), x)
        ensures HoldsDirectly(Within(r, managed, run, n, writes), x) <==> HoldsDirectly(r, x)
      {
        if Plan(before, managed, q.actor, q.op).Writes? {
          CutOfCut(Plan(before, managed, q.actor, q.op).writes, q.accepts, writes);
          UnprivilegedActorsKeepSupers(before, managed, q.actor, q.op, if writes <= q.accepts then writes else q.accepts, x);
        } else {
          ExecuteNothing(Apply, before);
        }
      }
      var ws := Written(before, managed, q);
      assert ws[..|ws|] == ws;
      assert Within(r, managed, run, n, |ws|) == RunAll(r, managed, run);
      forall k: nat, writes: nat | k < n
        ensures Within(r, managed, earlier, k, writes) == Within(r, managed, run, k, writes)
      {
      }
    }
  }

  // ---- the written safeguard: nothing about an existing Super Admin changes -----------------------------------

  /** Where the k-th request of such a run starts. */
  lemma {:induction false} SuperAtStart(r: Realm, managed: set<ClientId>, run: seq<Request>, x: UserId, k: nat)
    requires FreshIds(r, managed, run) && forall j :: 0 <= j < |run| ==> !run[j].actor.systemManage
    requires IsSuper(r, x) && k <= |run|
    ensures var before := RunAll(r, managed, run[..k]); SameRecord(r, before, x) && IsSuper(before, x)
  {
    if k > 0 {
      SuperAtStart(r, managed, run, x, k - 1);
      hide Plan, Execute, IsSuper, Written;
      assert run[..k][..k - 1] == run[..k - 1];
      var before, q := RunAll(r, managed, run[..k - 1]), run[k - 1];
      var ws := Written(before, managed, q);
      RequestLeavesSuper(before, managed, q, |ws|, x);
      assert ws[..|ws|] == ws;
      assert IsSuper(RunAll(r, managed, run[..k]), x) by { SameRecordIsSuper(before, managed, q, x); }
    }
  }

  lemma SameRecordIsSuper(r: Realm, managed: set<ClientId>, q: Request, x: UserId)
    requires !q.actor.systemManage && IsSuper(r, x)
    requires q.op.Invite? ==> q.op.newId !in r.users
    ensures IsSuper(Execute(Apply, r, Written(r, managed, q)), x)
  {
    ExecuteNothing(Apply, r);
    if Plan(r, managed, q.actor, q.op).Writes? {
      UnprivilegedActorsKeepSupers(r, managed, q.actor, q.op, q.accepts, x);
    }
  }

  /**
   * For enabled Super Admins the file's own rule holds to the letter: whatever
   * actors without system.manage do, their records are the same at every write.
   */
  lemma EnabledSupersAreUntouched(r: Realm, managed: set<ClientId>, run: seq<Request>, x: UserId, k: nat, writes: nat)
    requires FreshIds(r, managed, run) && forall j :: 0 <= j < |run| ==> !run[j].actor.systemManage
    requires IsSuper(r, x) && k < |run|
    ensures SameRecord(r, Within(r, managed, run, k, writes), x)
  {
    SuperAtStart(r, managed, run, x, k);
    hide Plan, Execute, IsSuper, Written, RunAll;
    RequestLeavesSuper(RunAll(r, managed, run[..k]), managed, run[k], writes, x);
  }

  ghost predicate SameRecord(r: Realm, after: Realm, x: UserId) {
    x in r.users && x in after.users && after.users[x] == r.users[x]
  }

  lemma RequestLeavesSuper(r: Realm, managed: set<ClientId>, q: Request, n: nat, x: UserId)
    requires !q.actor.systemManage && IsSuper(r, x)
    requires q.op.Invite? ==> q.op.newId !in r.users
    ensures SameRecord(r, Execute(Apply, r, Cut(Written(r, managed, q), n)), x)
  {
    var ws := Cut(Written(r, managed, q), n);
    if Plan(r, managed, q.actor, q.op).Writes? {
      WritesSpareSuper(r, managed, q.actor, q.op, x);
    }
    hide Plan, Execute;
    WritesLeaveRecord(r, ws, x);
  }

  /** What such an actor may write does not concern x, or enables someone already enabled. */
  lemma WritesSpareSuper(r: Realm, managed: set<ClientId>, actor: Actor, op: Op, x: UserId)
    requires !actor.systemManage && IsSuper(r, x) && Plan(r, managed, actor, op).Writes?
    requires op.Invite? ==> op.newId !in r.users
    ensures var ws := Plan(r, managed, actor, op).writes;
            forall k :: 0 <= k < |ws| ==> ws[k].id != x || ws[k] == SetEnabled(x, true)
  {
    hide ValidateAppRoles, RoleWrites;
    match op
    case Invite(newId, a) => RoleWritesShape(User(true, map[], {}), newId, a);
    case SetRoles(id, a) => RoleWritesShape(r.users[id], id, a);
    case _ =>
  }

  lemma {:induction false} WritesLeaveRecord(r: Realm, writes: seq<Write>, x: UserId)
    requires x in r.users && r.users[x].enabled
    requires forall k :: 0 <= k < |writes| ==> writes[k].id != x || writes[k] == SetEnabled(x, true)
    ensures SameRecord(r, Execute(Apply, r, writes), x)
  {
    if writes != [] {
      WritesLeaveRecord(r, writes[..|writes| - 1], x);
    }
  }

  /** A Super Admin account, directly or through a group, enabled or not. */
  predicate SuperAccount(r: Realm, id: UserId) {
    id in r.users && (HoldsDirectly(r, id) || r.users[id].groups * r.superGroups != {})
  }

  /**
   * Disabled Super Admins escape the rule. Exactly when each request about a
   * Super Admin account, by someone without system.manage, goes through: role
   * changes when the account is disabled and its role not seen in the listing of
   * managed apps, enabling and signing out always, disabling when it already is.
   */
  lemma SafeguardExactly(r: Realm, managed: set<ClientId>, actor: Actor, id: UserId, a: AppRoles)
    requires !actor.systemManage && SuperAccount(r, id)
    ensures Plan(r, managed, actor, SetRoles(id, a)).Writes? <==>
              && !r.users[id].enabled && !(CENTRAL in managed && HoldsDirectly(r, id))
              && CanListSupers(r) && actor.subject != Some(id)
              && !Wants(a, CENTRAL, SUPER) && ValidateAppRoles(r, managed, a) == None
    ensures Plan(r, managed, actor, Enable(id, true)) == Writes([SetEnabled(id, true)])
    ensures Plan(r, managed, actor, Enable(id, false)).Writes? <==>
              !r.users[id].enabled && CanListSupers(r) && actor.subject != Some(id)
    ensures Plan(r, managed, actor, SignOut(id)) == Writes([])
  {
  }

  /** Someone without system.manage re-enables a disabled Super Admin. */
  lemma SuperAdminReEnabled()
    ensures var r := Realm(map["boss" := User(false, map[CENTRAL := {SUPER}], {})], map[CENTRAL := {SUPER}], {});
            var plan := PlanEnable(r, Actor(false, None), "boss", true);
            && !IsSuper(r, "boss")
            && plan.Writes? && IsSuper(Execute(Apply, r, plan.writes), "boss")
  {
    var r := Realm(map["boss" := User(false, map[CENTRAL := {SUPER}], {})], map[CENTRAL := {SUPER}], {});
    ExecuteOne(Apply, r, SetEnabled("boss", true));
  }

  /** Someone without system.manage gives a role to a disabled Super Admin who is one through a group. */
  lemma GroupSuperAdminChanged()
    ensures var clients := map[CENTRAL := {SUPER}, "app" := {"X"}];
            var r := Realm(map["boss" := User(false, map[], {"g"})], clients, {"g"});
            SuperAccount(r, "boss") && PlanSetRoles(r, {CENTRAL, "app"}, Actor(false, None), "boss", [("app", {"X"})])
                                       == Writes([AddRoles("boss", "app", {"X"})])
  {
    var r := Realm(map["boss" := User(false, map[], {"g"})], map[CENTRAL := {SUPER}, "app" := {"X"}], {"g"});
    assert r.users["boss"].groups * r.superGroups == {"g"};
    OneAppPlan(r, {CENTRAL, "app"}, "boss");
  }

  /** The same for a direct holder while Central Admin is not among the managed apps. */
  lemma UnmanagedSuperAdminChanged()
    ensures var clients := map[CENTRAL := {SUPER}, "app" := {"X"}];
            var r := Realm(map["boss" := User(false, map[CENTRAL := {SUPER}], {})], clients, {});
            SuperAccount(r, "boss") && PlanSetRoles(r, {"app"}, Actor(false, None), "boss", [("app", {"X"})])
                                       == Writes([AddRoles("boss", "app", {"X"})])
  {
    var clients := map[CENTRAL := {SUPER}, "app" := {"X"}];
    OneAppPlan(Realm(map["boss" := User(false, map[CENTRAL := {SUPER}], {})], clients, {}), {"app"}, "boss");
  }

  lemma OneAppPlan(r: Realm, managed: set<ClientId>, id: UserId)
    requires id in r.users && !r.users[id].enabled && CanListSupers(r) && !(CENTRAL in managed && HoldsDirectly(r, id))
    requires "app" in managed && "app" in r.clients && "X" in r.clients["app"] && "app" !in r.users[id].roles
    ensures PlanSetRoles(r, managed, Actor(false, None), id, [("app", {"X"})]) == Writes([AddRoles(id, "app", {"X"})])
  {
    var a: AppRoles := [("app", {"X"})];
    assert a[..0] == [];
    assert Desired(a, CENTRAL) == None;
    assert ValidateAppRoles(r, managed, a[..0]) == None && ValidateAppRoles(r, managed, a) == None;
    var none: set<Role> := {};
    assert {"X"} - none == {"X"} && none - {"X"} == none;
    assert AppWrites(id, {}, "app", {"X"}) == [AddRoles(id, "app", {"X"})];
    assert RoleWrites(r.users[id], id, a[..0]) == [];
  }
}
