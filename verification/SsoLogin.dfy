// Central SSO sign-in: from validated ID-token claims to a linked, up-to-date
// administrator with a session.
module SsoLogin {
  import opened Text
  import opened Writes
  import opened Sets
  import opened Order
  import opened Claims

  type AdminId = string

  datatype Status = ACTIVE | DISABLED

  /** roles: the assigned role keys in table order, each once. */
  datatype Admin = Admin(
    email: string, subject: Option<string>, status: Status, roles: seq<string>, name: Option<string>, appRoles: AppRoles)

  datatype Session = Session(admin: AdminId, sid: Option<string>)

  /** The tables sign-in touches; `seeded` are the keys in the role table. */
  datatype Store = Store(admins: map<AdminId, Admin>, sessions: seq<Session>, seeded: seq<string>)

  /** What the token says, read by the claims helpers; the email is normalised and "" when absent. */
  datatype Identity = Identity(
    subject: string, email: string, emailVerified: bool, roles: seq<string>,
    name: Option<string>, appRoles: AppRoles, sid: Option<string>)

  datatype Error =
    | SSO_NO_ACCESS | SSO_EMAIL_MISSING | SSO_EMAIL_UNVERIFIED | SSO_EMAIL_CONFLICT | SSO_ACCOUNT_DISABLED | ROLES_NOT_SEEDED
    | DATABASE

  datatype Outcome = SignedIn(admin: AdminId) | Rejected(error: Error)

  // ---- unique columns ---------------------------------------------------------------------

  ghost predicate UniqueEmails(s: Store) {
    forall a, b :: a in s.admins && b in s.admins && s.admins[a].email == s.admins[b].email ==> a == b
  }

  ghost predicate UniqueSubjects(s: Store) {
    forall a, b ::
      a in s.admins && b in s.admins && s.admins[a].subject.Some? && s.admins[a].subject == s.admins[b].subject ==> a == b
  }

  ghost predicate Unique(s: Store) {
    UniqueEmails(s) && UniqueSubjects(s)
  }

  ghost predicate HasSubject(s: Store, a: AdminId, subject: string) {
    a in s.admins && s.admins[a].subject == Some(subject)
  }

  ghost predicate HasEmail(s: Store, a: AdminId, email: string) {
    a in s.admins && s.admins[a].email == email
  }

  ghost function BySubject(s: Store, subject: string): Option<AdminId> {
    if a :| HasSubject(s, a, subject) then Some(a) else None
  }

  ghost function ByEmail(s: Store, email: string): Option<AdminId> {
    if a :| HasEmail(s, a, email) then Some(a) else None
  }

  // ---- writes to the database -----------------------------------------------------------------

  datatype Write =
    | Create(admin: AdminId, row: Admin)
    | Link(admin: AdminId, subject: string)
    | ReplaceRoles(admin: AdminId, roles: seq<string>)
    | SetProfile(admin: AdminId, appRoles: AppRoles, name: Option<string>, email: string)
    | OpenSession(session: Session)

  function Updated(s: Store, a: AdminId, admin: Admin): Store {
    s.(admins := s.admins[a := admin])
  }

  function Apply(s: Store, w: Write): Store {
    match w
    case Create(a, row) => Updated(s, a, row)
    case Link(a, subject) => if a in s.admins then Updated(s, a, s.admins[a].(subject := Some(subject))) else s
    case ReplaceRoles(a, roles) => if a in s.admins then Updated(s, a, s.admins[a].(roles := roles)) else s
    case SetProfile(a, appRoles, name, email) =>
      if a in s.admins then Updated(s, a, s.admins[a].(appRoles := appRoles, name := name, email := email)) else s
    case OpenSession(session) => s.(sessions := s.sessions + [session])
  }

  // ---- what a sign-in decides to write -----------------------------------------------------------

  /** A linked subject that counts as one: a JavaScript string is true when not empty. */
  predicate LinkedElsewhere(admin: Admin, subject: string) {
    admin.subject.Some? && admin.subject.value != "" && admin.subject.value != subject
  }

  /** Find, link or create the administrator the token is about. */
  ghost function Resolve(s: Store, id: Identity, newId: AdminId): (r: (Outcome, seq<Write>))
    ensures r.0.SignedIn? ==> r.0.admin in Execute(Apply, s, r.1).admins
    ensures |r.1| <= 1 && (r.0.Rejected? ==> r.1 == [])
  {
    match BySubject(s, id.subject)
    case Some(a) => (SignedIn(a), [])
    case None =>
      match ByEmail(s, id.email)
      case Some(a) =>
        if !id.emailVerified then (Rejected(SSO_EMAIL_UNVERIFIED), [])
        else if LinkedElsewhere(s.admins[a], id.subject) then (Rejected(SSO_EMAIL_CONFLICT), [])
        else (SignedIn(a), [Link(a, id.subject)])
      case None => (SignedIn(newId), [Create(newId, Admin(id.email, Some(id.subject), ACTIVE, [], id.name, map[]))])
  }

  /** Role rows of the table whose key is asked for, in table order. */
  function RoleRows(seeded: seq<string>, roles: seq<string>): seq<string> {
    if seeded == [] then []
    else RoleRows(seeded[..|seeded| - 1], roles) + (if seeded[|seeded| - 1] in roles then [seeded[|seeded| - 1]] else [])
  }

  /** The comparison that spares the role write. */
  predicate SameJoined(current: seq<string>, roles: seq<string>) {
    Join(SortUnique(current), ',') == Join(roles, ',')
  }

  /** The roles after the sync, or None when the role table lacks one. */
  function SyncedRoles(seeded: seq<string>, current: seq<string>, roles: seq<string>): Option<seq<string>> {
    if SameJoined(current, roles) then Some(current)
    else if |RoleRows(seeded, roles)| != |roles| then None
    else Some(RoleRows(seeded, roles))
  }

  /** The sync's one write, a transaction; none when the roles are already the token's. */
  function RoleWrites(s: Store, a: AdminId, roles: seq<string>): (ws: seq<Write>)
    requires a in s.admins
    ensures |ws| <= 1
  {
    if SameJoined(s.admins[a].roles, roles) then [] else [ReplaceRoles(a, RoleRows(s.seeded, roles))]
  }

  /** Name and app roles follow the token; the email only while it stays unique. */
  ghost function Profile(s: Store, a: AdminId, id: Identity): Write
    requires a in s.admins
  {
    var admin := s.admins[a];
    SetProfile(a, id.appRoles,
               if id.name.Some? && id.name.value != "" && id.name != admin.name then id.name else admin.name,
               if id.email != admin.email && ByEmail(s, id.email) == None then id.email else admin.email)
  }

  /** The account found: refuse it, or bring it in step with the token and open a session. */
  ghost function Admit(s: Store, a: AdminId, id: Identity): (Outcome, seq<Write>)
    requires a in s.admins
  {
    if s.admins[a].status == DISABLED then (Rejected(SSO_ACCOUNT_DISABLED), [])
    else if SyncedRoles(s.seeded, s.admins[a].roles, id.roles) == None then (Rejected(ROLES_NOT_SEEDED), [])
    else
      var ws := RoleWrites(s, a, id.roles);
      ExecuteKeepsAdmin(s, ws, a);
      (SignedIn(a), ws + [Profile(Execute(Apply, s, ws), a, id), OpenSession(Session(a, id.sid))])
  }

  lemma {:induction false} ExecuteKeepsAdmin(s: Store, writes: seq<Write>, a: AdminId)
    requires a in s.admins
    ensures a in Execute(Apply, s, writes).admins
  {
    if writes != [] {
      ExecuteKeepsAdmin(s, writes[..|writes| - 1], a);
    }
  }

  ghost function Plan(s: Store, id: Identity, newId: AdminId): (Outcome, seq<Write>) {
    if id.roles == [] then (Rejected(SSO_NO_ACCESS), [])
    else if id.email == "" then (Rejected(SSO_EMAIL_MISSING), [])
    else
      var (found, ws) := Resolve(s, id, newId);
      if found.Rejected? then (found, ws)
      else
        var (outcome, more) := Admit(Execute(Apply, s, ws), found.admin, id);
        (outcome, ws + more)
  }

  /**
   * A sign-in while the database takes n more writes. With n equal to their
   * number a successful one still fails, on reading the account back.
   */
  ghost function Attempted(s: Store, id: Identity, newId: AdminId, n: nat): (Outcome, Store) {
    var (outcome, ws) := Plan(s, id, newId);
    (if n < |ws| || (n == |ws| && outcome.SignedIn?) then Rejected(DATABASE) else outcome, Execute(Apply, s, Cut(ws, n)))
  }

  // ---- the service ------------------------------------------------------------------------------

  class SsoService {
    const seeded: seq<string>
    var admins: map<AdminId, Admin>
    var sessions: seq<Session>
    /** How many more writes the database takes. */
    var accepts: nat

    ghost function Abs(): Store
      reads this
    {
      Store(admins, sessions, seeded)
    }

    constructor (seeded: seq<string>, admins: map<AdminId, Admin>, accepts: nat)
      ensures Abs() == Store(admins, [], seeded) && this.accepts == accepts
    {
      this.seeded, this.admins, sessions, this.accepts := seeded, admins, [], accepts;
    }

    method FindBySubject(subject: string) returns (a: Option<AdminId>)
      requires Unique(Abs())
      ensures a == BySubject(Abs(), subject)
    {
      if x :| x in admins && admins[x].subject == Some(subject) {
        assert HasSubject(Abs(), x, subject);
        return Some(x);
      }
      assert forall x :: !HasSubject(Abs(), x, subject);
      return None;
    }

    method FindByEmail(email: string) returns (a: Option<AdminId>)
      requires Unique(Abs())
      ensures a == ByEmail(Abs(), email)
    {
      if x :| x in admins && admins[x].email == email {
        assert HasEmail(Abs(), x, email);
        return Some(x);
      }
      assert forall x :: !HasEmail(Abs(), x, email);
      return None;
    }

    /** One write: it takes effect whole, or the database refuses it. */
    method Put(w: Write) returns (ok: bool)
      modifies this
      ensures ok <==> old(accepts) > 0
      ensures ok ==> Abs() == Apply(old(Abs()), w) && accepts == old(accepts) - 1
      ensures !ok ==> Abs() == old(Abs()) && accepts == 0
    {
      if accepts == 0 {
        return false;
      }
      var after := Apply(Store(admins, sessions, seeded), w);
      admins, sessions, accepts := after.admins, after.sessions, accepts - 1;
      return true;
    }

    /** Neither ready nor failed: the role table lacks a role, and nothing has changed. */
    method SyncRoles(a: AdminId, roles: seq<string>) returns (ready: bool, failed: bool)
      requires a in admins
      modifies this
      ensures !ready && !failed <==> SyncedRoles(seeded, old(admins)[a].roles, roles) == None
      ensures !ready && !failed ==> Abs() == old(Abs()) && accepts == old(accepts)
      ensures failed ==> !ready && Abs() == old(Abs()) && old(accepts) == accepts == 0 && RoleWrites(old(Abs()), a, roles) != []
      ensures ready ==> Abs() == Execute(Apply, old(Abs()), RoleWrites(old(Abs()), a, roles))
                        && old(accepts) == accepts + |RoleWrites(old(Abs()), a, roles)|
    {
      var currentKeys := SortUnique(admins[a].roles);
      if Join(currentKeys, ',') == Join(roles, ',') {
        return true, false;
      }
      var roleRows := RoleRows(seeded, roles);
      if |roleRows| != |roles| {
        return false, false;
      }
      ExecuteOne(Apply, Abs(), ReplaceRoles(a, roleRows));
      var ok := Put(ReplaceRoles(a, roleRows));
      return ok, !ok;
    }

    method CompleteSsoLogin(id: Identity, newId: AdminId) returns (outcome: Outcome)
      requires Unique(Abs()) && newId !in admins
      modifies this
      ensures (outcome, Abs()) == Attempted(old(Abs()), id, newId, old(accepts))
      ensures Unique(Abs())
    {
      hide Execute, Apply, Unique, Cut, Admit;
      ghost var s, n := Abs(), accepts;
      AttemptKeepsUnique(s, id, newId, n);
      NoWrites(Apply, s, n);
      NoneTaken(Apply, s, Plan(s, id, newId).1);
      ExecuteNothing(Apply, s);
      if id.roles == [] {
        return Rejected(SSO_NO_ACCESS);
      }
      if id.email == "" {
        return Rejected(SSO_EMAIL_MISSING);
      }
      ghost var (found, linking) := Resolve(s, id, newId);
      var admin := FindBySubject(id.subject);
      if admin == None {
        var byEmail := FindByEmail(id.email);
        var write: Write;
        if byEmail.Some? {
          if !id.emailVerified {
            return Rejected(SSO_EMAIL_UNVERIFIED);
          }
          if LinkedElsewhere(admins[byEmail.value], id.subject) {
            return Rejected(SSO_EMAIL_CONFLICT);
          }
          admin, write := byEmail, Link(byEmail.value, id.subject);
        } else {
          admin, write := Some(newId), Create(newId, Admin(id.email, Some(id.subject), ACTIVE, [], id.name, map[]));
        }
        ExecuteOne(Apply, s, write);
        var ok := Put(write);
        if !ok {
          return Rejected(DATABASE);
        }
      }
      var a := admin.value;
      ghost var t := Abs();
      assert found == SignedIn(a) && t == Execute(Apply, s, linking) && n == |linking| + accepts;
      ResolveKeepsUnique(s, id, newId);
      ExecuteCut(Apply, s, linking, Admit(t, a, id).1, n);
      outcome := CompleteFor(a, id);
    }

    /** The rest of a sign-in, once the account is known. */
    method CompleteFor(a: AdminId, id: Identity) returns (outcome: Outcome)
      requires Unique(Abs()) && a in admins
      modifies this
      ensures var (planned, ws) := Admit(old(Abs()), a, id);
              && outcome == (if old(accepts) < |ws| || (old(accepts) == |ws| && planned.SignedIn?)
                             then Rejected(DATABASE) else planned)
              && Abs() == Execute(Apply, old(Abs()), Cut(ws, old(accepts)))
    {
      hide Execute, Apply, SyncedRoles, RoleWrites, Unique, Cut;
      ghost var t, n := Abs(), accepts;
      NoWrites(Apply, t, n);
      NoneTaken(Apply, t, Admit(t, a, id).1);
      if admins[a].status == DISABLED {
        return Rejected(SSO_ACCOUNT_DISABLED);
      }
      var ready, failed := SyncRoles(a, id.roles);
      if failed {
        return Rejected(DATABASE);
      }
      if !ready {
        return Rejected(ROLES_NOT_SEEDED);
      }
      ghost var rolesDone, synced := RoleWrites(t, a, id.roles), Abs();
      RolesWritten(t, a, id.roles);
      RolesKeepUnique(t, a, admins[a].roles);
      var row := admins[a];
      var name, email := row.name, row.email;
      if id.name.Some? && id.name.value != "" && id.name != row.name {
        name := id.name;
      }
      if id.email != row.email {
        var clash := FindByEmail(id.email);
        if clash == None {
          email := id.email;
        }
      }
      var profile, opening := SetProfile(a, id.appRoles, name, email), OpenSession(Session(a, id.sid));
      assert profile == Profile(synced, a, id);
      ExecuteCut(Apply, t, rolesDone, [profile, opening], n);
      ExecuteTwo(synced, profile, opening);
      assert Admit(t, a, id) == (SignedIn(a), rolesDone + [profile, opening]);
      var ok := Put(profile);
      if !ok {
        return Rejected(DATABASE);
      }
      ok := Put(opening);
      if !ok || accepts == 0 {
        return Rejected(DATABASE);
      }
      return SignedIn(a);
    }

    /** End the sessions a logout token names: one IdP session, or all of one subject. None when the database fails. */
    method ApplyBackchannelLogout(sid: Option<string>, subject: Option<string>) returns (revoked: Option<nat>)
      requires Unique(Abs())
      modifies this`sessions, this`accepts
      ensures var target := LogoutTarget(old(Abs()), sid, subject);
              && revoked.Some? == (target == Nothing || old(accepts) > 0)
              && sessions == (if revoked.Some? then Without(old(sessions), target) else old(sessions))
              && revoked == (if revoked.Some? then Some(|old(sessions)| - |sessions|) else None)
              && accepts == (if target != Nothing && old(accepts) > 0 then old(accepts) - 1 else old(accepts))
    {
      var target := Nothing;
      if Truthy(sid) {
        target := OfSid(sid.value);
      } else if Truthy(subject) {
        var admin := FindBySubject(subject.value);
        if admin.Some? {
          target := OfAdmin(admin.value);
        }
      }
      if target == Nothing {
        WithoutNothing(sessions);
        return Some(0);
      }
      if accepts == 0 {
        return None;
      }
      WithoutIsShorter(sessions, target);
      revoked := Some(|sessions| - |Without(sessions, target)|);
      sessions, accepts := Without(sessions, target), accepts - 1;
    }
  }

  lemma ExecuteTwo(s: Store, w: Write, v: Write)
    ensures Execute(Apply, s, Cut([w, v], 0)) == s && Execute(Apply, s, Cut([w, v], 1)) == Apply(s, w)
    ensures forall n: nat :: n >= 2 ==> Execute(Apply, s, Cut([w, v], n)) == Apply(Apply(s, w), v)
  {
    ExecuteOne(Apply, s, w);
    assert [w, v][..1] == [w] && [w, v][..2] == [w, v];
  }

  datatype Target = Nothing | OfSid(sid: string) | OfAdmin(admin: AdminId)

  predicate Named(t: Target, session: Session) {
    match t
    case Nothing => false
    case OfSid(sid) => session.sid == Some(sid)
    case OfAdmin(a) => session.admin == a
  }

  function Without(sessions: seq<Session>, t: Target): seq<Session> {
    if sessions == [] then []
    else if Named(t, sessions[0]) then Without(sessions[1..], t)
    else [sessions[0]] + Without(sessions[1..], t)
  }

  ghost function LogoutTarget(s: Store, sid: Option<string>, subject: Option<string>): Target {
    if Truthy(sid) then OfSid(sid.value)
    else if Truthy(subject) then
      match BySubject(s, subject.value)
      case Some(a) => OfAdmin(a)
      case None => Nothing
    else Nothing
  }

  lemma {:induction false} WithoutNothing(sessions: seq<Session>)
    ensures Without(sessions, Nothing) == sessions
  {
    if sessions != [] {
      WithoutNothing(sessions[1..]);
    }
  }

  lemma {:induction false} WithoutIsShorter(sessions: seq<Session>, t: Target)
    ensures |Without(sessions, t)| <= |sessions|
    ensures forall x :: x in Without(sessions, t) <==> x in sessions && !Named(t, x)
  {
    if sessions != [] {
      WithoutIsShorter(sessions[1..], t);
      assert forall x :: x in sessions <==> x == sessions[0] || x in sessions[1..];
    }
  }

  // ---- emails and subjects stay unique --------------------------------------------------------------

  lemma NobodyHasEmail(s: Store, email: string)
    requires ByEmail(s, email) == None
    ensures forall a :: a in s.admins ==> s.admins[a].email != email
  {
    forall a | a in s.admins ensures s.admins[a].email != email {
      assert !HasEmail(s, a, email);
    }
  }

  lemma NobodyHasSubject(s: Store, subject: string)
    requires BySubject(s, subject) == None
    ensures forall a :: a in s.admins ==> s.admins[a].subject != Some(subject)
  {
    forall a | a in s.admins ensures s.admins[a].subject != Some(subject) {
      assert !HasSubject(s, a, subject);
    }
  }

  lemma ResolveKeepsUnique(s: Store, id: Identity, newId: AdminId)
    requires Unique(s) && newId !in s.admins
    ensures var (found, ws) := Resolve(s, id, newId);
            Unique(Execute(Apply, s, ws)) && (found.SignedIn? ==> HasSubject(Execute(Apply, s, ws), found.admin, id.subject))
  {
    var (found, ws) := Resolve(s, id, newId);
    if ws != [] {
      ExecuteOne(Apply, s, ws[0]);
    }
    if BySubject(s, id.subject) == None {
      NobodyHasSubject(s, id.subject);
      if ByEmail(s, id.email) == None {
        NobodyHasEmail(s, id.email);
      }
    }
  }

  lemma RolesKeepUnique(s: Store, a: AdminId, roles: seq<string>)
    requires Unique(s) && a in s.admins
    ensures Unique(Updated(s, a, s.admins[a].(roles := roles)))
  {
  }

  lemma ProfileKeepsUnique(s: Store, a: AdminId, id: Identity)
    requires Unique(s) && a in s.admins
    ensures Unique(Apply(s, Profile(s, a, id)))
  {
    if ByEmail(s, id.email) == None {
      NobodyHasEmail(s, id.email);
    }
  }

  // ---- the stages of a sign-in -----------------------------------------------------------------------

  /** The store after the writes of Admit that a cut at n leaves: roles, then profile, then session. */
  ghost function Stage(s: Store, a: AdminId, id: Identity, n: nat): Store
    requires a in s.admins
  {
    var synced := SyncedRoles(s.seeded, s.admins[a].roles, id.roles);
    if s.admins[a].status == DISABLED || synced == None then s
    else
      var k := |RoleWrites(s, a, id.roles)|;
      var withRoles := Updated(s, a, s.admins[a].(roles := synced.value));
      var withProfile := Apply(withRoles, Profile(withRoles, a, id));
      if n < k then s
      else if n == k then withRoles
      else if n == k + 1 then withProfile
      else withProfile.(sessions := s.sessions + [Session(a, id.sid)])
  }

  lemma StageIsCut(s: Store, a: AdminId, id: Identity, n: nat)
    requires a in s.admins
    ensures Execute(Apply, s, Cut(Admit(s, a, id).1, n)) == Stage(s, a, id, n)
  {
    hide SyncedRoles, RoleWrites, Execute, Profile, Apply;
    if Admit(s, a, id).0.Rejected? {
      assert Cut(Admit(s, a, id).1, n) == [];
      ExecuteOne(Apply, s, OpenSession(Session(a, id.sid)));
    } else {
      RolesWritten(s, a, id.roles);
      var ws := RoleWrites(s, a, id.roles);
      var withRoles := Execute(Apply, s, ws);
      ProfileThenSession(withRoles, a, id, if n < |ws| then 0 else n - |ws|);
      ExecuteCut(Apply, s, ws, [Profile(withRoles, a, id), OpenSession(Session(a, id.sid))], n);
      if n < |ws| {
        assert Cut(ws, n) == [];
        ExecuteOne(Apply, s, OpenSession(Session(a, id.sid)));
      }
    }
  }

  lemma ProfileThenSession(s: Store, a: AdminId, id: Identity, n: nat)
    requires a in s.admins
    ensures var profile := Profile(s, a, id);
            var opening := OpenSession(Session(a, id.sid));
            var withProfile := Apply(s, profile);
            Execute(Apply, s, Cut([profile, opening], n)) ==
              if n == 0 then s else if n == 1 then withProfile else withProfile.(sessions := s.sessions + [Session(a, id.sid)])
  {
    hide Execute;
    ExecuteTwo(s, Profile(s, a, id), OpenSession(Session(a, id.sid)));
  }

  lemma RolesWritten(s: Store, a: AdminId, roles: seq<string>)
    requires a in s.admins && SyncedRoles(s.seeded, s.admins[a].roles, roles).Some?
    ensures Execute(Apply, s, RoleWrites(s, a, roles))
         == Updated(s, a, s.admins[a].(roles := SyncedRoles(s.seeded, s.admins[a].roles, roles).value))
  {
    hide SameJoined, RoleRows;
    ExecuteOne(Apply, s, ReplaceRoles(a, RoleRows(s.seeded, roles)));
  }

  lemma StageKeepsUnique(s: Store, a: AdminId, id: Identity, n: nat)
    requires Unique(s) && a in s.admins
    ensures Unique(Stage(s, a, id, n))
  {
    hide SyncedRoles, RoleWrites, Profile, Unique;
    var synced := SyncedRoles(s.seeded, s.admins[a].roles, id.roles);
    if synced.Some? {
      var withRoles := Updated(s, a, s.admins[a].(roles := synced.value));
      RolesKeepUnique(s, a, synced.value);
      ProfileKeepsUnique(withRoles, a, id);
      SessionsKeepUnique(Apply(withRoles, Profile(withRoles, a, id)), s.sessions + [Session(a, id.sid)]);
    }
  }

  lemma SessionsKeepUnique(s: Store, sessions: seq<Session>)
    ensures Unique(s) ==> Unique(s.(sessions := sessions))
  {
  }

  /** A cut falls before the account is found or written, or in what follows. */
  lemma AttemptIs(s: Store, id: Identity, newId: AdminId, n: nat)
    ensures var (found, ws) := Resolve(s, id, newId);
            var after := Attempted(s, id, newId, n).1;
            if id.roles == [] || id.email == "" || found.Rejected? || n < |ws| then after == s
            else after == Stage(Execute(Apply, s, ws), found.admin, id, n - |ws|)
  {
    hide Resolve, Admit, Stage, Execute;
    var (found, ws) := Resolve(s, id, newId);
    ExecuteOne(Apply, s, OpenSession(Session("", id.sid)));
    if id.roles != [] && id.email != "" && found.SignedIn? {
      var t := Execute(Apply, s, ws);
      ExecuteCut(Apply, s, ws, Admit(t, found.admin, id).1, n);
      if n < |ws| {
        assert Cut(ws, n) == [];
      } else {
        StageIsCut(t, found.admin, id, n - |ws|);
      }
    }
  }

  /** Emails and subjects are unique wherever a sign-in stops. */
  lemma AttemptKeepsUnique(s: Store, id: Identity, newId: AdminId, n: nat)
    requires Unique(s) && newId !in s.admins
    ensures Unique(Attempted(s, id, newId, n).1)
  {
    hide Resolve, Attempted, Stage, Unique;
    AttemptIs(s, id, newId, n);
    ResolveKeepsUnique(s, id, newId);
    var (found, ws) := Resolve(s, id, newId);
    if found.SignedIn? && n >= |ws| {
      StageKeepsUnique(Execute(Apply, s, ws), found.admin, id, n - |ws|);
    }
  }

  // ---- a link is for good ----------------------------------------------------------------------------

  lemma StageKeepsSubjects(s: Store, a: AdminId, id: Identity, n: nat)
    requires a in s.admins
    ensures var t := Stage(s, a, id, n);
            forall b :: (b in t.admins <==> b in s.admins) && (b in s.admins ==> t.admins[b].subject == s.admins[b].subject)
  {
    hide SyncedRoles, RoleWrites;
  }

  /** Exactly when a sign-in that stops after n writes changes the subject of an existing administrator. */
  lemma SubjectChangesExactly(s: Store, id: Identity, newId: AdminId, n: nat, a: AdminId)
    requires Unique(s) && newId !in s.admins && a in s.admins
    ensures var after := Attempted(s, id, newId, n).1;
            && a in after.admins
            && (after.admins[a].subject != s.admins[a].subject <==>
                  && n > 0
                  && id.roles != [] && id.email != "" && id.emailVerified
                  && BySubject(s, id.subject) == None
                  && s.admins[a].email == id.email
                  && (s.admins[a].subject == None || s.admins[a].subject == Some("")))
            && (after.admins[a].subject != s.admins[a].subject ==> after.admins[a].subject == Some(id.subject))
  {
    AttemptIs(s, id, newId, n);
    var (found, ws) := Resolve(s, id, newId);
    ResolveChangesSubject(s, id, newId, a);
    if found.SignedIn? && n >= |ws| {
      StageKeepsSubjects(Execute(Apply, s, ws), found.admin, id, n - |ws|);
    }
    hide Stage, Attempted, Execute;
  }

  lemma ResolveChangesSubject(s: Store, id: Identity, newId: AdminId, a: AdminId)
    requires Unique(s) && newId !in s.admins && a in s.admins
    ensures var (found, ws) := Resolve(s, id, newId);
            var after := Execute(Apply, s, ws);
            && a in after.admins
            && (after.admins[a].subject != s.admins[a].subject ==> ws != [] && after.admins[a].subject == Some(id.subject))
            && (after.admins[a].subject != s.admins[a].subject <==>
                  && id.emailVerified && BySubject(s, id.subject) == None && s.admins[a].email == id.email
                  && (s.admins[a].subject == None || s.admins[a].subject == Some("")))
  {
    var (found, ws) := Resolve(s, id, newId);
    if ws != [] {
      ExecuteOne(Apply, s, ws[0]);
    } else {
      ExecuteOne(Apply, s, Link(a, ""));
    }
    if BySubject(s, id.subject) == None {
      NobodyHasSubject(s, id.subject);
      if ByEmail(s, id.email) == None {
        NobodyHasEmail(s, id.email);
      }
    }
    assert s.admins[a].email == id.email ==> HasEmail(s, a, id.email);
  }

  /** One sign-in of a run: the id a new row would get, and the writes the database takes meanwhile. */
  datatype Attempt = Attempt(id: Identity, newId: AdminId, accepts: nat)

  ghost function RunAll(s: Store, run: seq<Attempt>): Store {
    if run == [] then s
    else
      var last := run[|run| - 1];
      Attempted(RunAll(s, run[..|run| - 1]), last.id, last.newId, last.accepts).1
  }

  ghost predicate FreshIds(s: Store, run: seq<Attempt>) {
    forall k :: 0 <= k < |run| ==> run[k].newId !in RunAll(s, run[..k]).admins
  }

  lemma {:induction false} RunKeepsUnique(s: Store, run: seq<Attempt>)
    requires Unique(s) && FreshIds(s, run)
    ensures Unique(RunAll(s, run))
  {
    hide Attempted, Unique;
    if run != [] {
      var n := |run| - 1;
      FreshPrefix(s, run);
      RunKeepsUnique(s, run[..n]);
      AttemptKeepsUnique(RunAll(s, run[..n]), run[n].id, run[n].newId, run[n].accepts);
    }
  }

  lemma FreshPrefix(s: Store, run: seq<Attempt>)
    requires FreshIds(s, run) && run != []
    ensures var n := |run| - 1; FreshIds(s, run[..n]) && run[n].newId !in RunAll(s, run[..n]).admins
  {
    var n := |run| - 1;
    assert forall k :: 0 <= k <= n ==> run[..n][..k] == run[..k];
  }

  /**
   * Over any serial run, with failures anywhere, a linked subject stays with its
   * administrator and is nobody else's. The subject must be a true JavaScript
   * string, i.e. not empty.
   */
  lemma {:induction false} LinkIsForGood(s: Store, run: seq<Attempt>, a: AdminId, subject: string)
    requires Unique(s) && FreshIds(s, run)
    requires subject != "" && HasSubject(s, a, subject)
    ensures BySubject(RunAll(s, run), subject) == Some(a)
  {
    RunKeepsUnique(s, run);
    if run == [] {
      assert HasSubject(RunAll(s, run), a, subject);
    } else {
      var n := |run| - 1;
      FreshPrefix(s, run);
      LinkIsForGood(s, run[..n], a, subject);
      RunKeepsUnique(s, run[..n]);
      var before := RunAll(s, run[..n]);
      hide Attempted, RunAll;
      SubjectChangesExactly(before, run[n].id, run[n].newId, run[n].accepts, a);
      RunUnfolds(s, run);
      assert HasSubject(RunAll(s, run), a, subject);
    }
  }

  lemma RunUnfolds(s: Store, run: seq<Attempt>)
    requires run != []
    ensures var last := run[|run| - 1];
            RunAll(s, run) == Attempted(RunAll(s, run[..|run| - 1]), last.id, last.newId, last.accepts).1
  {
  }

  /**
   * An empty subject does not hold: an account created by a sign-in with subject
   * "" is taken over by the next subject with that email.
   */
  lemma EmptySubjectIsRelinked(m: nat, n: nat)
    requires m > 0 && n > 0
    ensures var s := Store(map[], [], ["APP_ADMIN"]);
            var first := Identity("", "x@y", true, ["APP_ADMIN"], None, map[], None);
            var run := [Attempt(first, "a", m), Attempt(first.(subject := "other"), "b", n)];
            Unique(s) && FreshIds(s, run) && HasSubject(RunAll(s, run[..1]), "a", "") && HasSubject(RunAll(s, run), "a", "other")
  {
    hide Attempted, Stage, Resolve;
    var s := Store(map[], [], ["APP_ADMIN"]);
    var first := Identity("", "x@y", true, ["APP_ADMIN"], None, map[], None);
    var other := first.(subject := "other");
    var run := [Attempt(first, "a", m), Attempt(other, "b", n)];
    var mid := Attempted(s, first, "a", m).1;
    FirstOfEmptySubject(s, first, "a", m);
    assert run[..0] == [] && run[..1] == [run[0]] && run[..1][..0] == [];
    assert RunAll(s, run[..1]) == mid;
    assert BySubject(mid, "other") == None;
    SubjectChangesExactly(mid, other, "b", n, "a");
    assert RunAll(s, run) == Attempted(mid, other, "b", n).1;
  }

  lemma FirstOfEmptySubject(s: Store, id: Identity, newId: AdminId, m: nat)
    requires s.admins == map[] && id.roles != [] && id.email != "" && m > 0
    ensures var mid := Attempted(s, id, newId, m).1;
            mid.admins.Keys == {newId} && HasSubject(mid, newId, id.subject) && mid.admins[newId].email == id.email
  {
    hide Attempted, SyncedRoles, RoleWrites;
    AttemptIs(s, id, newId, m);
    assert BySubject(s, id.subject) == None && ByEmail(s, id.email) == None;
    ExecuteOne(Apply, s, Resolve(s, id, newId).1[0]);
  }

  // ---- roles follow the token, or nothing does ------------------------------------------------------------

  /** Role keys are comma-free, and assigned roles are rows of the role table. */
  ghost predicate RolesInTable(s: Store) {
    && Free(s.seeded, ',') && Distinct(s.seeded)
    && forall a, r :: a in s.admins && r in s.admins[a].roles ==> r in s.seeded
  }

  ghost predicate Distinct(keys: seq<string>) {
    forall i, j :: 0 <= i < j < |keys| ==> keys[i] != keys[j]
  }

  function Members(keys: seq<string>): set<string> {
    set k | 0 <= k < |keys| :: keys[k]
  }

  lemma {:induction false} DistinctCount(keys: seq<string>)
    requires Distinct(keys)
    ensures |Members(keys)| == |keys|
  {
    if keys != [] {
      var n := |keys| - 1;
      DistinctCount(keys[..n]);
      assert forall k :: 0 <= k < n ==> keys[..n][k] == keys[k];
      assert keys[n] !in Members(keys[..n]);
      forall x ensures x in Members(keys) <==> x in Members(keys[..n]) || x == keys[n] {
        if x in Members(keys[..n]) {
          var k :| 0 <= k < n && keys[..n][k] == x;
          assert keys[k] == x;
        }
        if x in Members(keys) {
          var k :| 0 <= k < |keys| && keys[k] == x;
          assert k < n ==> keys[..n][k] == x;
        }
      }
      assert Members(keys) == Members(keys[..n]) + {keys[n]};
    }
  }

  lemma {:induction false} RoleRowsAre(seeded: seq<string>, roles: seq<string>)
    requires Distinct(seeded)
    ensures Distinct(RoleRows(seeded, roles))
    ensures forall r :: r in RoleRows(seeded, roles) <==> r in seeded && r in roles
  {
    if seeded != [] {
      RoleRowsAre(seeded[..|seeded| - 1], roles);
      assert seeded == seeded[..|seeded| - 1] + [seeded[|seeded| - 1]];
    }
  }

  lemma SubsetOfSameSize(a: set<string>, b: set<string>)
    requires a <= b && |a| == |b|
    ensures a == b
  {
    if x :| x in b - a {
      SubsetSize(a, b - {x});
    } else {
      assert b == a + (b - a);
    }
  }

  /** As many role rows as token roles means the same roles; fewer means one is not seeded. */
  lemma RoleRowsComplete(seeded: seq<string>, roles: seq<string>)
    requires Distinct(seeded) && Increasing(roles)
    ensures |RoleRows(seeded, roles)| == |roles| <==> forall r :: r in roles ==> r in seeded
    ensures |RoleRows(seeded, roles)| == |roles| ==> forall r :: r in RoleRows(seeded, roles) <==> r in roles
  {
    var rows := RoleRows(seeded, roles);
    RoleRowsAre(seeded, roles);
    forall i, j | 0 <= i < j < |roles| ensures roles[i] != roles[j] {
      Irreflexive(roles[i]);
    }
    DistinctCount(rows);
    DistinctCount(roles);
    assert forall r :: r in Members(rows) <==> r in rows;
    assert forall r :: r in Members(roles) <==> r in roles;
    assert (forall r :: r in roles ==> r in seeded) ==> Members(rows) == Members(roles);
    if |rows| == |roles| {
      SubsetOfSameSize(Members(rows), Members(roles));
    }
  }

  /** The sync succeeds iff the roles are already right or all seeded, and then the roles are the token's. */
  lemma SyncIsExact(seeded: seq<string>, current: seq<string>, roles: seq<string>)
    requires Free(seeded, ',') && Distinct(seeded) && (forall r :: r in current ==> r in seeded)
    requires IsRoleKeys(roles) && roles != []
    ensures SyncedRoles(seeded, current, roles).Some? <==> forall r :: r in roles ==> r in seeded
    ensures SyncedRoles(seeded, current, roles).Some? ==>
              forall r :: r in SyncedRoles(seeded, current, roles).value <==> r in roles
  {
    assert Free(current, ',') by {
      forall k | 0 <= k < |current| ensures ',' !in current[k] {
        assert current[k] in current;
      }
    }
    JoinedRolesAgree(current, roles);
    RoleRowsComplete(seeded, roles);
  }

  /** Nothing but possibly one administrator's own fields differ. */
  ghost predicate OthersKept(s: Store, t: Store, a: AdminId) {
    && t.seeded == s.seeded
    && forall b :: b != a ==> (b in t.admins <==> b in s.admins) && (b in s.admins ==> t.admins[b] == s.admins[b])
  }

  ghost predicate SameRoles(a: seq<string>, b: seq<string>) {
    forall r :: r in a <==> r in b
  }

  function RolesOf(s: Store, a: AdminId): seq<string> {
    if a in s.admins then s.admins[a].roles else []
  }

  lemma ResolveEffect(s: Store, id: Identity, newId: AdminId)
    requires Unique(s) && newId !in s.admins
    ensures var (found, ws) := Resolve(s, id, newId);
            var t := Execute(Apply, s, ws);
            && (found.Rejected? ==> t == s)
            && (found.SignedIn? ==>
                  && OthersKept(s, t, found.admin) && t.sessions == s.sessions
                  && HasSubject(t, found.admin, id.subject) && RolesOf(t, found.admin) == RolesOf(s, found.admin))
  {
    ResolveKeepsUnique(s, id, newId);
    var (found, ws) := Resolve(s, id, newId);
    if ws == [] {
      ExecuteNothing(Apply, s);
      AdoptionEffect(s, Link(if found.SignedIn? then found.admin else "", ""));
    } else {
      ExecuteOne(Apply, s, ws[0]);
      AdoptionEffect(s, ws[0]);
    }
    hide Unique, Execute, Apply, OthersKept, RolesOf;
  }

  lemma AdoptionEffect(s: Store, w: Write)
    requires w.Link? || (w.Create? && w.admin !in s.admins && w.row.roles == [])
    ensures var t := Apply(s, w);
            OthersKept(s, t, w.admin) && t.sessions == s.sessions && RolesOf(t, w.admin) == RolesOf(s, w.admin)
    ensures OthersKept(s, s, w.admin)
  {
  }

  lemma StageEffect(s: Store, a: AdminId, id: Identity, n: nat)
    requires a in s.admins && RolesInTable(s) && IsRoleKeys(id.roles) && id.roles != []
    ensures var t := Stage(s, a, id, n);
            var (outcome, ws) := Admit(s, a, id);
            && OthersKept(s, t, a) && a in t.admins
            && t.admins[a].subject == s.admins[a].subject && t.admins[a].status == s.admins[a].status
            && (outcome.Rejected? ==> t == s && ws == [])
            && (outcome.SignedIn? ==>
                  && outcome.admin == a && s.admins[a].status == ACTIVE && (forall r :: r in id.roles ==> r in s.seeded)
                  && (|ws| == 2 <==> SameRoles(s.admins[a].roles, id.roles)) && 2 <= |ws| <= 3
                  && (if n < |ws| - 2 then t == s else SameRoles(t.admins[a].roles, id.roles))
                  && (n >= |ws| - 1 ==> t.admins[a].appRoles == id.appRoles)
                  && t.sessions == s.sessions + if n < |ws| then [] else [Session(a, id.sid)])
  {
    hide RoleRows, IsRoleKeys, Increasing, SameJoined;
    SyncIsExact(s.seeded, s.admins[a].roles, id.roles);
    JoinedIsSame(s, a, id);
    assert s.sessions + [] == s.sessions;
  }

  lemma JoinedIsSame(s: Store, a: AdminId, id: Identity)
    requires a in s.admins && RolesInTable(s) && IsRoleKeys(id.roles) && id.roles != []
    ensures SameJoined(s.admins[a].roles, id.roles) <==> SameRoles(s.admins[a].roles, id.roles)
  {
    hide IsRoleKeys;
    var current := s.admins[a].roles;
    forall k | 0 <= k < |current| ensures ',' !in current[k] {
      assert current[k] in s.admins[a].roles;
      assert current[k] in s.seeded;
    }
    JoinedRolesAgree(current, id.roles);
  }

  // ---- who is let in, and what a refusal leaves ---------------------------------------------------------

  /** The account is linked or created before anything else is checked. */
  ghost predicate Adopts(s: Store, id: Identity) {
    && id.roles != [] && id.email != "" && BySubject(s, id.subject) == None
    && match ByEmail(s, id.email)
       case Some(a) => id.emailVerified && !LinkedElsewhere(s.admins[a], id.subject)
       case None => true
  }

  /** The write that does it. */
  ghost function Adoption(s: Store, id: Identity, newId: AdminId): Write {
    match ByEmail(s, id.email)
    case Some(a) => Link(a, id.subject)
    case None => Create(newId, Admin(id.email, Some(id.subject), ACTIVE, [], id.name, map[]))
  }

  /**
   * What a refused sign-in leaves: exactly when the account is adopted it is
   * linked or created all the same, once the database takes that write, and
   * nothing else ever changes. Such a refusal is for a disabled account or a role
   * that is not seeded.
   */
  lemma RefusedSignInWrites(s: Store, id: Identity, newId: AdminId, n: nat)
    requires Unique(s) && newId !in s.admins && Plan(s, id, newId).0.Rejected?
    ensures var after := Attempted(s, id, newId, n).1;
            && (after != s <==> n > 0 && Adopts(s, id))
            && (after != s ==> after == Apply(s, Adoption(s, id, newId)))
    ensures Adopts(s, id) ==> Plan(s, id, newId).0.error in {SSO_ACCOUNT_DISABLED, ROLES_NOT_SEEDED}
  {
    RefusedPlan(s, id, newId);
    hide Plan, Adopts, Apply, Unique;
    ExecuteOne(Apply, s, Adoption(s, id, newId));
    if Adopts(s, id) {
      AdoptionChanges(s, id, newId);
    }
    var ws := Plan(s, id, newId).1;
    assert Cut(ws, n) == if n > 0 then ws else [];
  }

  lemma RefusedPlan(s: Store, id: Identity, newId: AdminId)
    requires Plan(s, id, newId).0.Rejected?
    ensures Plan(s, id, newId).1 == if Adopts(s, id) then [Adoption(s, id, newId)] else []
    ensures Adopts(s, id) ==> Plan(s, id, newId).0.error in {SSO_ACCOUNT_DISABLED, ROLES_NOT_SEEDED}
  {
    hide SyncedRoles, RoleWrites, Execute;
  }

  lemma AdoptionChanges(s: Store, id: Identity, newId: AdminId)
    requires Unique(s) && newId !in s.admins && Adopts(s, id)
    ensures Apply(s, Adoption(s, id, newId)) != s
  {
    NobodyHasSubject(s, id.subject);
    match ByEmail(s, id.email)
    case Some(a) =>
      assert Apply(s, Link(a, id.subject)).admins[a].subject == Some(id.subject);
    case None =>
      assert newId in Apply(s, Adoption(s, id, newId)).admins;
  }

  /** A disabled account without subject: refused, and linked. */
  lemma DisabledAccountIsLinked()
    ensures var s := Store(map["a" := Admin("x@y", None, DISABLED, [], None, map[])], [], ["APP_ADMIN"]);
            var id := Identity("sub", "x@y", true, ["APP_ADMIN"], None, map[], None);
            var (outcome, after) := Attempted(s, id, "b", 1);
            Unique(s) && outcome == Rejected(SSO_ACCOUNT_DISABLED) && HasSubject(after, "a", "sub")
  {
    var s := Store(map["a" := Admin("x@y", None, DISABLED, [], None, map[])], [], ["APP_ADMIN"]);
    var id := Identity("sub", "x@y", true, ["APP_ADMIN"], None, map[], None);
    assert HasEmail(s, "a", "x@y") && BySubject(s, "sub") == None;
    assert ByEmail(s, "x@y") == Some("a");
    ExecuteOne(Apply, s, Link("a", "sub"));
    assert [Link("a", "sub")] + [] == [Link("a", "sub")];
    assert Plan(s, id, "b") == (Rejected(SSO_ACCOUNT_DISABLED), [Link("a", "sub")]);
    assert Cut([Link("a", "sub")], 1) == [Link("a", "sub")];
  }

  /** Nothing seeded and an unverified email: refused, and an ACTIVE account exists. */
  lemma UnseededAccountIsCreated()
    ensures var s := Store(map[], [], []);
            var id := Identity("sub", "x@y", false, ["APP_ADMIN"], None, map[], None);
            var (outcome, after) := Attempted(s, id, "b", 1);
            && outcome == Rejected(ROLES_NOT_SEEDED)
            && HasSubject(after, "b", "sub") && after.admins["b"].status == ACTIVE
  {
    var s := Store(map[], [], []);
    var id := Identity("sub", "x@y", false, ["APP_ADMIN"], None, map[], None);
    var row := Admin("x@y", Some("sub"), ACTIVE, [], None, map[]);
    assert BySubject(s, "sub") == None && ByEmail(s, "x@y") == None;
    ExecuteOne(Apply, s, Create("b", row));
    assert SyncedRoles([], [], ["APP_ADMIN"]) == None;
    assert Admit(Apply(s, Create("b", row)), "b", id) == (Rejected(ROLES_NOT_SEEDED), []);
    assert [Create("b", row)] + [] == [Create("b", row)];
    assert Plan(s, id, "b") == (Rejected(ROLES_NOT_SEEDED), [Create("b", row)]);
    assert Cut([Create("b", row)], 1) == [Create("b", row)];
  }

  /** The account a token is about: linked, to be linked, or to be created. */
  ghost function Account(s: Store, id: Identity, newId: AdminId): AdminId {
    match BySubject(s, id.subject)
    case Some(a) => a
    case None =>
      match ByEmail(s, id.email)
      case Some(a) => a
      case None => newId
  }

  /** What a token must bring to be let in. */
  ghost predicate LetIn(s: Store, id: Identity, newId: AdminId) {
    && id.roles != [] && id.email != ""
    && (BySubject(s, id.subject).Some? || Adopts(s, id))
    && (Account(s, id, newId) in s.admins ==> s.admins[Account(s, id, newId)].status == ACTIVE)
    && forall r :: r in id.roles ==> r in s.seeded
  }

  /** Exactly when a sign-in is let in, if the database does not fail, and as whom. */
  lemma LetInExactly(s: Store, id: Identity, newId: AdminId)
    requires Unique(s) && RolesInTable(s) && newId !in s.admins && IsRoleKeys(id.roles)
    ensures Plan(s, id, newId).0.SignedIn? <==> LetIn(s, id, newId)
    ensures LetIn(s, id, newId) ==> Plan(s, id, newId).0 == SignedIn(Account(s, id, newId))
  {
    hide Unique, IsRoleKeys, RolesInTable, Execute, SyncedRoles, RoleWrites, Profile;
    if id.roles != [] && id.email != "" {
      var (found, ws) := Resolve(s, id, newId);
      FoundIsAccount(s, id, newId);
      if found.SignedIn? {
        ResolveEffect(s, id, newId);
        RolesStayInTable(s, Execute(Apply, s, ws), found.admin);
        SyncIsExactAt(Execute(Apply, s, ws), found.admin, id);
      }
    }
  }

  lemma FoundIsAccount(s: Store, id: Identity, newId: AdminId)
    requires Unique(s) && newId !in s.admins && id.roles != [] && id.email != ""
    ensures var (found, ws) := Resolve(s, id, newId);
            && (found.SignedIn? <==> BySubject(s, id.subject).Some? || Adopts(s, id))
            && (found.SignedIn? ==>
                  && found.admin == Account(s, id, newId)
                  && Execute(Apply, s, ws).admins[found.admin].status ==
                       if found.admin in s.admins then s.admins[found.admin].status else ACTIVE)
  {
    var (found, ws) := Resolve(s, id, newId);
    ExecuteOne(Apply, s, if ws != [] then ws[0] else OpenSession(Session("", None)));
  }

  lemma RolesStayInTable(s: Store, t: Store, a: AdminId)
    requires RolesInTable(s) && OthersKept(s, t, a) && RolesOf(t, a) == RolesOf(s, a)
    ensures RolesInTable(t)
  {
    forall b, r | b in t.admins && r in t.admins[b].roles ensures r in t.seeded {
      assert r in RolesOf(s, b);
    }
  }

  lemma SyncIsExactAt(s: Store, a: AdminId, id: Identity)
    requires RolesInTable(s) && a in s.admins && IsRoleKeys(id.roles) && id.roles != []
    ensures SyncedRoles(s.seeded, s.admins[a].roles, id.roles).Some? <==> forall r :: r in id.roles ==> r in s.seeded
  {
    hide SyncedRoles, IsRoleKeys;
    SyncIsExact(s.seeded, s.admins[a].roles, id.roles);
  }

  /**
   * Wherever a sign-in stops: first the account is linked or created, then its
   * roles become exactly the token's, then its profile follows, and last one
   * session opens; nothing else changes. A refused sign-in stops after the first
   * of these: nobody's roles change and no session opens.
   */
  lemma SignInIsOrderly(s: Store, id: Identity, newId: AdminId, n: nat)
    requires Unique(s) && RolesInTable(s) && newId !in s.admins && IsRoleKeys(id.roles)
    ensures var after := Attempted(s, id, newId, n).1;
            var (outcome, ws) := Plan(s, id, newId);
            match outcome
            case Rejected(_) =>
              && after.seeded == s.seeded && after.sessions == s.sessions
              && (forall b :: RolesOf(after, b) == RolesOf(s, b))
              && after == if n > 0 && Adopts(s, id) then Apply(s, Adoption(s, id, newId)) else s
            case SignedIn(a) =>
              && OthersKept(s, after, a) && 2 <= |ws| <= 4
              && (forall r :: r in id.roles ==> r in s.seeded)
              && (if n < |ws| - 2 then RolesOf(after, a) == RolesOf(s, a) else SameRoles(RolesOf(after, a), id.roles))
              && (n >= |ws| - 2 ==> HasSubject(after, a, id.subject) && after.admins[a].status == ACTIVE)
              && (n >= |ws| - 1 ==> after.admins[a].appRoles == id.appRoles)
              && after.sessions == s.sessions + if n < |ws| then [] else [Session(a, id.sid)]
  {
    if Plan(s, id, newId).0.Rejected? {
      RefusedSignInWrites(s, id, newId, n);
      AdoptionKeepsRoles(s, id, newId);
    } else {
      AcceptedIsOrderly(s, id, newId, n);
    }
    hide Plan, Attempted, IsRoleKeys, Unique, RolesInTable, Execute, SameRoles, Adopts, Adoption, Apply, OthersKept;
  }

  lemma AdoptionKeepsRoles(s: Store, id: Identity, newId: AdminId)
    requires newId !in s.admins
    ensures var after := Apply(s, Adoption(s, id, newId));
            after.seeded == s.seeded && after.sessions == s.sessions && forall b :: RolesOf(after, b) == RolesOf(s, b)
  {
  }

  lemma AcceptedIsOrderly(s: Store, id: Identity, newId: AdminId, n: nat)
    requires Unique(s) && RolesInTable(s) && newId !in s.admins && IsRoleKeys(id.roles)
    requires Plan(s, id, newId).0.SignedIn?
    ensures var after := Attempted(s, id, newId, n).1;
            var (outcome, ws) := Plan(s, id, newId);
            var a := outcome.admin;
            && OthersKept(s, after, a) && 2 <= |ws| <= 4
            && (forall r :: r in id.roles ==> r in s.seeded)
            && (if n < |ws| - 2 then RolesOf(after, a) == RolesOf(s, a) else SameRoles(RolesOf(after, a), id.roles))
            && (n >= |ws| - 2 ==> HasSubject(after, a, id.subject) && after.admins[a].status == ACTIVE)
            && (n >= |ws| - 1 ==> after.admins[a].appRoles == id.appRoles)
            && after.sessions == s.sessions + if n < |ws| then [] else [Session(a, id.sid)]
  {
    hide Resolve, Admit, Stage, Attempted, IsRoleKeys, Unique, Execute, SameRoles;
    AttemptIs(s, id, newId, n);
    ResolveEffect(s, id, newId);
    assert s.sessions + [] == s.sessions;
    var (found, ws) := Resolve(s, id, newId);
    StageEffect(Execute(Apply, s, ws), found.admin, id, if n < |ws| then 0 else n - |ws|);
  }

  /**
   * A sign-in that succeeds leaves the administrator ACTIVE, linked to the
   * token's subject, holding exactly the token's roles, with one new session. A
   * refused one changes nobody's roles and creates no session.
   */
  lemma LoginIsAllOrNothing(s: Store, id: Identity, newId: AdminId, n: nat)
    requires Unique(s) && RolesInTable(s) && newId !in s.admins && IsRoleKeys(id.roles)
    ensures var (outcome, after) := Attempted(s, id, newId, n);
            after.seeded == s.seeded &&
            match outcome
            case SignedIn(a) =>
              && HasSubject(after, a, id.subject) && after.admins[a].status == ACTIVE
              && SameRoles(after.admins[a].roles, id.roles)
              && after.admins[a].appRoles == id.appRoles
              && after.sessions == s.sessions + [Session(a, id.sid)]
              && (forall r :: r in id.roles ==> r in s.seeded)
              && OthersKept(s, after, a)
            case Rejected(e) =>
              e != DATABASE ==>
                && after.sessions == s.sessions
                && forall b :: RolesOf(after, b) == RolesOf(s, b)
  {
    SignInIsOrderly(s, id, newId, n);
    PlansAreNotFailures(s, id, newId);
    hide Plan, Execute, SameRoles, Unique, RolesInTable, IsRoleKeys, OthersKept;
  }

  lemma PlansAreNotFailures(s: Store, id: Identity, newId: AdminId)
    ensures Plan(s, id, newId).0 != Rejected(DATABASE)
  {
    hide SyncedRoles, RoleWrites, Execute;
  }

  ghost predicate SomeRolesChanged(s: Store, after: Store) {
    exists b :: !SameRoles(RolesOf(after, b), RolesOf(s, b))
  }

  /**
   * Exactly when a rejected sign-in has changed roles all the same: the token
   * would have been let in, its roles are not yet the account's, and the database
   * failed after the role write, the third from last. Then they are the token's
   * roles already. And exactly when it leaves a session: reading back failed.
   */
  lemma RejectedLoginChangesRoles(s: Store, id: Identity, newId: AdminId, n: nat)
    requires Unique(s) && RolesInTable(s) && newId !in s.admins && IsRoleKeys(id.roles)
    requires Attempted(s, id, newId, n).0.Rejected?
    ensures var after := Attempted(s, id, newId, n).1;
            var a, writes := Account(s, id, newId), |Plan(s, id, newId).1|;
            && (SomeRolesChanged(s, after) <==> LetIn(s, id, newId) && !SameRoles(RolesOf(s, a), id.roles) && n >= writes - 2)
            && (SomeRolesChanged(s, after) ==> SameRoles(RolesOf(after, a), id.roles))
            && (after.sessions != s.sessions <==> LetIn(s, id, newId) && n == writes)
  {
    SignInIsOrderly(s, id, newId, n);
    LetInExactly(s, id, newId);
    hide Plan, Execute, Unique, RolesInTable, IsRoleKeys, LetIn, Account;
    var after := Attempted(s, id, newId, n).1;
    var (outcome, ws) := Plan(s, id, newId);
    if outcome.SignedIn? && n >= |ws| - 2 && !SameRoles(RolesOf(s, outcome.admin), id.roles) {
      assert !SameRoles(RolesOf(after, outcome.admin), RolesOf(s, outcome.admin));
    }
  }

  /** A new session only ever appears with the roles, link and profile of its token in place. */
  lemma SessionComesLast(s: Store, id: Identity, newId: AdminId, n: nat)
    requires Unique(s) && RolesInTable(s) && newId !in s.admins && IsRoleKeys(id.roles)
    ensures var after := Attempted(s, id, newId, n).1;
            after.sessions != s.sessions ==>
              exists a :: && after.sessions == s.sessions + [Session(a, id.sid)] && HasSubject(after, a, id.subject)
                          && after.admins[a].status == ACTIVE && after.admins[a].appRoles == id.appRoles
                          && SameRoles(after.admins[a].roles, id.roles)
  {
    SignInIsOrderly(s, id, newId, n);
    hide Plan, Attempted, SameRoles, Unique, RolesInTable, IsRoleKeys, OthersKept;
    assert s.sessions + [] == s.sessions;
  }

  // ---- the profile follows the token ---------------------------------------------------------------------

  /** Somebody other than a has that email. */
  ghost predicate TakenBy(s: Store, a: AdminId, email: string) {
    exists b :: b != a && HasEmail(s, b, email)
  }

  /**
   * After a success the email is the token's, unless somebody else has it; the
   * name is the token's, unless that is empty; otherwise they are as before.
   */
  lemma ProfileFollows(s: Store, id: Identity, newId: AdminId, n: nat)
    requires Unique(s) && newId !in s.admins && Attempted(s, id, newId, n).0.SignedIn?
    ensures var (outcome, after) := Attempted(s, id, newId, n);
            var a := outcome.admin;
            && a in after.admins
            && (!TakenBy(s, a, id.email) ==> after.admins[a].email == id.email)
            && (TakenBy(s, a, id.email) ==> a in s.admins && after.admins[a].email == s.admins[a].email)
            && (Truthy(id.name) ==> after.admins[a].name == id.name)
            && (!Truthy(id.name) && a in s.admins ==> after.admins[a].name == s.admins[a].name)
            && after.admins[a].appRoles == id.appRoles
  {
    AttemptIs(s, id, newId, n);
    AdoptedProfile(s, id, newId);
    SignedInWrites(s, id, newId, n);
    var (found, ws) := Resolve(s, id, newId);
    StageProfile(Execute(Apply, s, ws), found.admin, id, n - |ws|);
    hide Resolve, Execute, Stage, Attempted, Admit, TakenBy, Unique;
  }

  /** A success has made all its writes. */
  lemma SignedInWrites(s: Store, id: Identity, newId: AdminId, n: nat)
    requires Attempted(s, id, newId, n).0.SignedIn?
    ensures var (found, ws) := Resolve(s, id, newId);
            && id.roles != [] && id.email != "" && found.SignedIn? && Attempted(s, id, newId, n).0 == found
            && Admit(Execute(Apply, s, ws), found.admin, id).0 == found
            && n > |ws| + |Admit(Execute(Apply, s, ws), found.admin, id).1|
  {
    hide Resolve, Execute, SyncedRoles, RoleWrites, Profile;
  }

  lemma StageProfile(s: Store, a: AdminId, id: Identity, n: nat)
    requires a in s.admins && Admit(s, a, id).0.SignedIn? && n > |Admit(s, a, id).1|
    ensures var t := Stage(s, a, id, n);
            && a in t.admins
            && (!TakenBy(s, a, id.email) ==> t.admins[a].email == id.email)
            && (TakenBy(s, a, id.email) ==> t.admins[a].email == s.admins[a].email)
            && t.admins[a].name == (if Truthy(id.name) then id.name else s.admins[a].name)
            && t.admins[a].appRoles == id.appRoles
  {
    hide Execute, SyncedRoles, RoleWrites, Profile, Apply;
    var synced := SyncedRoles(s.seeded, s.admins[a].roles, id.roles).value;
    var withRoles := Updated(s, a, s.admins[a].(roles := synced));
    ProfileWrite(withRoles, a, id);
    SameTaken(s, withRoles, a, id.email);
  }

  lemma SameTaken(s: Store, t: Store, a: AdminId, email: string)
    requires a in s.admins && a in t.admins && t.admins == s.admins[a := t.admins[a]]
    ensures TakenBy(t, a, email) <==> TakenBy(s, a, email)
  {
    forall b | b != a ensures HasEmail(t, b, email) <==> HasEmail(s, b, email) {
    }
  }

  /** The account as found or made: email, name, and who else has the email, are as before. */
  lemma AdoptedProfile(s: Store, id: Identity, newId: AdminId)
    requires Unique(s) && newId !in s.admins
    ensures var (found, ws) := Resolve(s, id, newId);
            var t := Execute(Apply, s, ws);
            found.SignedIn? ==>
              && found.admin in t.admins
              && (TakenBy(t, found.admin, id.email) <==> TakenBy(s, found.admin, id.email))
              && (if found.admin in s.admins
                  then t.admins[found.admin].email == s.admins[found.admin].email
                       && t.admins[found.admin].name == s.admins[found.admin].name
                  else !TakenBy(s, found.admin, id.email) && t.admins[found.admin].email == id.email
                       && t.admins[found.admin].name == id.name)
  {
    var (found, ws) := Resolve(s, id, newId);
    ResolveEffect(s, id, newId);
    ExecuteOne(Apply, s, if ws != [] then ws[0] else OpenSession(Session("", None)));
    if BySubject(s, id.subject) == None && ByEmail(s, id.email) == None {
      NobodyHasEmail(s, id.email);
    }
    hide Unique, Execute;
    if found.SignedIn? {
      var t := Execute(Apply, s, ws);
      forall b | b != found.admin ensures HasEmail(t, b, id.email) <==> HasEmail(s, b, id.email) {
      }
    }
  }

  lemma ProfileWrite(s: Store, a: AdminId, id: Identity)
    requires a in s.admins
    ensures var t := Apply(s, Profile(s, a, id));
            && a in t.admins
            && (!TakenBy(s, a, id.email) ==> t.admins[a].email == id.email)
            && (TakenBy(s, a, id.email) ==> t.admins[a].email == s.admins[a].email)
            && t.admins[a].name == (if Truthy(id.name) then id.name else s.admins[a].name)
            && t.admins[a].appRoles == id.appRoles
  {
    if ByEmail(s, id.email) == None {
      NobodyHasEmail(s, id.email);
    }
  }

  /** Why a sign-in is refused, the first reason counting. */
  lemma RejectionReasons(s: Store, id: Identity, newId: AdminId)
    requires Unique(s) && newId !in s.admins
    ensures var outcome := Plan(s, id, newId).0;
            var byEmail := ByEmail(s, id.email);
            var unknown := id.roles != [] && id.email != "" && BySubject(s, id.subject) == None && byEmail.Some?;
            && (outcome == Rejected(SSO_NO_ACCESS) <==> id.roles == [])
            && (outcome == Rejected(SSO_EMAIL_MISSING) <==> id.roles != [] && id.email == "")
            && (outcome == Rejected(SSO_EMAIL_UNVERIFIED) <==> unknown && !id.emailVerified)
            && (outcome == Rejected(SSO_EMAIL_CONFLICT) <==>
                  unknown && id.emailVerified && LinkedElsewhere(s.admins[byEmail.value], id.subject))
            && (outcome == Rejected(SSO_ACCOUNT_DISABLED) <==>
                  && id.roles != [] && id.email != "" && (BySubject(s, id.subject).Some? || Adopts(s, id))
                  && Account(s, id, newId) in s.admins && s.admins[Account(s, id, newId)].status == DISABLED)
  {
    hide SyncedRoles, RoleWrites, Execute, Profile;
    if id.roles != [] && id.email != "" {
      FoundIsAccount(s, id, newId);
    }
  }

  /** A pre-existing, unlinked account is joined to a subject only with a verified email. */
  lemma LinkingNeedsVerifiedEmail(s: Store, id: Identity, newId: AdminId, n: nat, a: AdminId)
    requires Unique(s) && newId !in s.admins && a in s.admins && s.admins[a].subject != Some(id.subject)
    requires Attempted(s, id, newId, n).0 == SignedIn(a) || HasSubject(Attempted(s, id, newId, n).1, a, id.subject)
    ensures id.emailVerified && s.admins[a].email == id.email && !LinkedElsewhere(s.admins[a], id.subject)
  {
    if Attempted(s, id, newId, n).0 == SignedIn(a) {
      SignedInIsFound(s, id, newId, n);
    }
    hide Attempted;
    SubjectChangesExactly(s, id, newId, n, a);
  }

  lemma SignedInIsFound(s: Store, id: Identity, newId: AdminId, n: nat)
    requires Unique(s) && newId !in s.admins && Attempted(s, id, newId, n).0.SignedIn?
    ensures var (outcome, after) := Attempted(s, id, newId, n);
            HasSubject(after, outcome.admin, id.subject)
  {
    AttemptIs(s, id, newId, n);
    ResolveKeepsUnique(s, id, newId);
    hide Resolve, Execute, Stage, SyncedRoles, RoleWrites, Profile, Unique;
    var (found, ws) := Resolve(s, id, newId);
    StageKeepsSubjects(Execute(Apply, s, ws), found.admin, id, if n < |ws| then 0 else n - |ws|);
  }

  /** The table facts hold on, wherever a sign-in stops. */
  lemma LoginKeepsRolesInTable(s: Store, id: Identity, newId: AdminId, n: nat)
    requires Unique(s) && RolesInTable(s) && newId !in s.admins && IsRoleKeys(id.roles)
    ensures RolesInTable(Attempted(s, id, newId, n).1)
  {
    SignInIsOrderly(s, id, newId, n);
    hide Attempted, Plan, Unique, IsRoleKeys;
    var after := Attempted(s, id, newId, n).1;
    forall a, r | a in after.admins && r in after.admins[a].roles ensures r in s.seeded {
      assert r in RolesOf(after, a);
    }
  }

  /** And over every serial run. */
  lemma {:induction false} RunKeepsRolesInTable(s: Store, run: seq<Attempt>)
    requires Unique(s) && RolesInTable(s) && FreshIds(s, run)
    requires forall k :: 0 <= k < |run| ==> IsRoleKeys(run[k].id.roles)
    ensures RolesInTable(RunAll(s, run))
  {
    hide Attempted, Unique, RolesInTable, IsRoleKeys;
    if run != [] {
      var n := |run| - 1;
      FreshPrefix(s, run);
      RunKeepsUnique(s, run[..n]);
      RunKeepsRolesInTable(s, run[..n]);
      LoginKeepsRolesInTable(RunAll(s, run[..n]), run[n].id, run[n].newId, run[n].accepts);
    }
  }

  /** Back-channel logout ends exactly the named sessions, and none when nobody is named. */
  lemma LogoutEndsExactly(s: Store, sid: Option<string>, subject: Option<string>, session: Session)
    requires Unique(s) && session in s.sessions
    ensures session !in Without(s.sessions, LogoutTarget(s, sid, subject)) <==>
              if Truthy(sid) then session.sid == sid
              else Truthy(subject) && HasSubject(s, session.admin, subject.value)
  {
    WithoutIsShorter(s.sessions, LogoutTarget(s, sid, subject));
    if !Truthy(sid) && Truthy(subject) && BySubject(s, subject.value) == None {
      NobodyHasSubject(s, subject.value);
    }
  }
}
