// Server-side sessions: a table keyed by token hash, and the issue/revoke log it
// stands for.
module Sessions {
  import opened Text
  import opened Sets

  type Token = string
  type AdminId = string

  /** `hashToken`; collision-free where a contract says so. */
  type Hash = Token -> string

  datatype Row = Row(adminUserId: AdminId, expiresAt: int, oidcSid: Option<string>)

  type Table = map<string, Row>

  // ---- the log --------------------------------------------------------------------------

  datatype Entry =
    | Issued(token: Token, row: Row)
    | ByToken(token: Token)
    | ByAdmin(adminUserId: AdminId)
    | BySid(oidcSid: string)

  /** The entry revokes a session issued with this token and row. */
  predicate Covers(e: Entry, token: Token, row: Row) {
    match e
    case Issued(_, _) => false
    case ByToken(t) => t == token
    case ByAdmin(a) => a == row.adminUserId
    case BySid(s) => row.oidcSid == Some(s)
  }

  /** Issued at place i and not revoked since. */
  ghost predicate Standing(log: seq<Entry>, i: nat, token: Token, row: Row) {
    && i < |log| && log[i] == Issued(token, row)
    && forall j :: i < j < |log| ==> !Covers(log[j], token, row)
  }

  /** What the log says a token is worth at a time. */
  ghost predicate Resolves(log: seq<Entry>, token: Token, now: int, admin: AdminId) {
    exists i: nat, row :: Standing(log, i, token, row) && row.expiresAt > now && row.adminUserId == admin
  }

  predicate WasIssued(log: seq<Entry>, token: Token) {
    exists i :: 0 <= i < |log| && log[i].Issued? && log[i].token == token
  }

  /** Tokens are random: none is issued twice. */
  ghost predicate FreshTokens(log: seq<Entry>) {
    forall i, j :: 0 <= i < j < |log| && log[i].Issued? && log[j].Issued? ==> log[i].token != log[j].token
  }

  // ---- the table -------------------------------------------------------------------------

  function Purge(table: Table, e: Entry, hash: Hash): Table {
    match e
    case Issued(t, row) => table[hash(t) := row]
    case ByToken(t) => map h | h in table && h != hash(t) :: table[h]
    case ByAdmin(a) => map h | h in table && table[h].adminUserId != a :: table[h]
    case BySid(s) => map h | h in table && table[h].oidcSid != Some(s) :: table[h]
  }

  ghost predicate Injective(hash: Hash) {
    forall a: Token, b: Token :: hash(a) == hash(b) ==> a == b
  }

  /**
   * The table holds only standing sessions, and every standing session that has
   * not expired by `now`.
   */
  ghost predicate Refines(table: Table, log: seq<Entry>, hash: Hash, now: int) {
    && Injective(hash) && FreshTokens(log)
    && (forall h :: h in table ==> exists i: nat, token :: hash(token) == h && Standing(log, i, token, table[h]))
    && (forall i: nat, token, row :: Standing(log, i, token, row) && row.expiresAt > now ==>
          hash(token) in table && table[hash(token)] == row)
  }

  lemma StandingAfter(log: seq<Entry>, e: Entry, i: nat, token: Token, row: Row)
    ensures Standing(log + [e], i, token, row) <==>
              if i == |log| then e == Issued(token, row) else Standing(log, i, token, row) && !Covers(e, token, row)
  {
    var after := log + [e];
    if i < |log| {
      assert after[i] == log[i];
      assert forall j :: i < j < |log| ==> after[j] == log[j];
      assert after[|log|] == e;
    }
  }

  /** Issuing a fresh token, or deleting what a revocation covers, keeps table and log together. */
  lemma PurgeRefines(table: Table, log: seq<Entry>, hash: Hash, now: int, e: Entry)
    requires Refines(table, log, hash, now)
    requires e.Issued? ==> !WasIssued(log, e.token)
    ensures Refines(Purge(table, e, hash), log + [e], hash, now)
  {
    var after, t := log + [e], Purge(table, e, hash);
    forall h | h in t ensures exists i: nat, token :: hash(token) == h && Standing(after, i, token, t[h]) {
      if e.Issued? && h == hash(e.token) {
        StandingAfter(log, e, |log|, e.token, e.row);
      } else {
        var i: nat, token :| hash(token) == h && Standing(log, i, token, table[h]);
        StandingAfter(log, e, i, token, table[h]);
      }
    }
    forall i: nat, token, row | Standing(after, i, token, row) && row.expiresAt > now
      ensures hash(token) in t && t[hash(token)] == row
    {
      StandingAfter(log, e, i, token, row);
      if i < |log| {
        assert Standing(log, i, token, row);
        assert log[i].Issued? && log[i].token == token;
      }
    }
  }

  /** Time passing loses nothing. */
  lemma LaterRefines(table: Table, log: seq<Entry>, hash: Hash, now: int, later: int)
    requires Refines(table, log, hash, now) && now <= later
    ensures Refines(table, log, hash, later)
  {
  }

  /** Dropping an expired row, by choice or not at all, changes no answer. */
  lemma SweepRefines(table: Table, log: seq<Entry>, hash: Hash, now: int, h: string)
    requires Refines(table, log, hash, now) && h in table && table[h].expiresAt <= now
    ensures Refines(map k | k in table && k != h :: table[k], log, hash, now)
  {
    var t := map k | k in table && k != h :: table[k];
    forall i: nat, token, row | Standing(log, i, token, row) && row.expiresAt > now
      ensures hash(token) in t && t[hash(token)] == row
    {
      assert hash(token) in table && table[hash(token)] == row;
    }
  }

  /** `resolveSession`'s answer, read off the table. */
  function Lookup(table: Table, hash: Hash, token: Token, now: int): Option<AdminId> {
    if hash(token) in table && table[hash(token)].expiresAt > now then Some(table[hash(token)].adminUserId) else None
  }

  /** The table answers as the log does: issued, unexpired, and not revoked since. */
  lemma LookupIsTheLog(table: Table, log: seq<Entry>, hash: Hash, now: int, token: Token, admin: AdminId)
    requires Refines(table, log, hash, now)
    ensures Lookup(table, hash, token, now) == Some(admin) <==> Resolves(log, token, now, admin)
  {
    if Lookup(table, hash, token, now) == Some(admin) {
      var i: nat, t :| hash(t) == hash(token) && Standing(log, i, t, table[hash(token)]);
      assert t == token;
    }
    if Resolves(log, token, now, admin) {
      var i: nat, row :| Standing(log, i, token, row) && row.expiresAt > now && row.adminUserId == admin;
      assert hash(token) in table && table[hash(token)] == row;
    }
  }

  /** A token that was issued and no longer resolves never resolves again. */
  lemma DeadStaysDead(log: seq<Entry>, more: seq<Entry>, token: Token, now: int, later: int)
    requires FreshTokens(log + more) && now <= later
    requires WasIssued(log, token)
    requires forall admin :: !Resolves(log, token, now, admin)
    ensures forall admin :: !Resolves(log + more, token, later, admin)
  {
    forall admin | Resolves(log + more, token, later, admin) ensures Resolves(log, token, now, admin) {
      var i: nat, row :| Standing(log + more, i, token, row) && row.expiresAt > later && row.adminUserId == admin;
      var k :| 0 <= k < |log| && log[k].Issued? && log[k].token == token;
      assert (log + more)[k] == log[k];
      assert i == k;
      assert forall j :: 0 <= j < |log| ==> (log + more)[j] == log[j];
      assert Standing(log, i, token, row);
    }
  }

  // ---- the service ---------------------------------------------------------------------------

  datatype AdminStatus = ACTIVE | DISABLED

  /** Which database calls of a request work: the look-ups, deleting an expired row, revoking. */
  datatype Db = Db(finds: bool, deletes: bool, revokes: bool)

  class SessionService {
    const hash: Hash
    const ttlMs: nat
    var table: Table
    ghost var log: seq<Entry>
    ghost var clock: int

    ghost predicate Valid()
      reads this
    {
      Refines(table, log, hash, clock)
    }

    constructor (hash: Hash, ttlMs: nat, now: int)
      requires Injective(hash)
      ensures Valid() && log == [] && clock == now && this.hash == hash && this.ttlMs == ttlMs
    {
      this.hash, this.ttlMs, table, log, clock := hash, ttlMs, map[], [], now;
    }

    /**
     * A session never outlives the configured lifetime, however long the caller
     * asks. None when the database fails: then none was created.
     */
    method CreateSession(admin: AdminId, token: Token, oidcSid: Option<string>, ttl: Option<nat>, now: int, works: bool)
      returns (expiresAt: Option<int>)
      requires Valid() && clock <= now && !WasIssued(log, token)
      modifies this
      ensures Valid() && clock == now
      ensures expiresAt == if works then Some(now + (if ttl.Some? && ttl.value < ttlMs then ttl.value else ttlMs)) else None
      ensures log == old(log) + if works then [Issued(token, Row(admin, expiresAt.value, oidcSid))] else []
    {
      LaterRefines(table, log, hash, clock, now);
      clock := now;
      if !works {
        assert log + [] == log;
        return None;
      }
      var life := if ttl.Some? && ttl.value < ttlMs then ttl.value else ttlMs;
      var row := Row(admin, now + life, oidcSid);
      PurgeRefines(table, log, hash, now, Issued(token, row));
      table := table[hash(token) := row];
      log := log + [Issued(token, row)];
      return Some(row.expiresAt);
    }

    /** Answers by the log. Deleting an expired row may fail silently without consequence. */
    method ResolveSession(token: Token, now: int, deleteWorks: bool) returns (admin: Option<AdminId>)
      requires Valid() && clock <= now
      modifies this
      ensures Valid() && clock == now && log == old(log)
      ensures forall a :: admin == Some(a) <==> Resolves(log, token, now, a)
    {
      LaterRefines(table, log, hash, clock, now);
      clock := now;
      forall a ensures Lookup(table, hash, token, now) == Some(a) <==> Resolves(log, token, now, a) {
        LookupIsTheLog(table, log, hash, now, token, a);
      }
      var h := hash(token);
      if h !in table {
        return None;
      }
      var session := table[h];
      if session.expiresAt <= now {
        if deleteWorks {
          SweepRefines(table, log, hash, now, h);
          table := map k | k in table && k != h :: table[k];
        }
        return None;
      }
      return Some(session.adminUserId);
    }

    /** A database failure is swallowed: then nothing is revoked. */
    method RevokeSessionByToken(token: Token, deleteWorks: bool)
      requires Valid()
      modifies this
      ensures Valid() && clock == old(clock)
      ensures log == old(log) + (if deleteWorks then [ByToken(token)] else [])
    {
      assert log + [] == log;
      if deleteWorks {
        PurgeRefines(table, log, hash, clock, ByToken(token));
        var h := hash(token);
        table := map k | k in table && k != h :: table[k];
        log := log + [ByToken(token)];
      }
    }

    /** How many sessions ended; None when the database fails, and then none did. */
    method RevokeAllSessions(admin: AdminId, works: bool) returns (count: Option<nat>)
      requires Valid()
      modifies this
      ensures Valid() && clock == old(clock)
      ensures works ==> log == old(log) + [ByAdmin(admin)] && table == Purge(old(table), ByAdmin(admin), hash)
      ensures !works ==> log == old(log) && table == old(table)
      ensures count == if works then Some(|old(table)| - |table|) else None
    {
      hide Refines;
      if !works {
        return None;
      }
      PurgeRefines(table, log, hash, clock, ByAdmin(admin));
      var kept := map h | h in table && table[h].adminUserId != admin :: table[h];
      SmallerMap(kept, table);
      count := Some(|table| - |kept|);
      table := kept;
      log := log + [ByAdmin(admin)];
    }

    method RevokeSessionsByOidcSid(oidcSid: string, works: bool) returns (count: Option<nat>)
      requires Valid()
      modifies this
      ensures Valid() && clock == old(clock)
      ensures works ==> log == old(log) + [BySid(oidcSid)] && table == Purge(old(table), BySid(oidcSid), hash)
      ensures !works ==> log == old(log) && table == old(table)
      ensures count == if works then Some(|old(table)| - |table|) else None
    {
      hide Refines;
      if !works {
        return None;
      }
      PurgeRefines(table, log, hash, clock, BySid(oidcSid));
      var kept := map h | h in table && table[h].oidcSid != Some(oidcSid) :: table[h];
      SmallerMap(kept, table);
      count := Some(|table| - |kept|);
      table := kept;
      log := log + [BySid(oidcSid)];
    }

    /**
     * The gate in front of every protected route: it admits exactly the tokens
     * that resolve to an ACTIVE administrator. A disabled administrator's sessions
     * end on the spot, unless the database fails: then the request is refused all
     * the same, and the sessions stay.
     */
    method RequireAuth(cookie: Option<Token>, admins: map<AdminId, AdminStatus>, now: int, db: Db)
      returns (admitted: Option<AdminId>)
      requires Valid() && clock <= now
      modifies this
      ensures Valid()
      ensures forall a :: admitted == Some(a) <==>
                db.finds && Truthy(cookie) && Resolves(old(log), cookie.value, now, a) && a in admins && admins[a] == ACTIVE
      ensures forall a ::
                db.finds && Truthy(cookie) && Resolves(old(log), cookie.value, now, a) && a in admins && admins[a] == DISABLED ==>
                  log == old(log) + if db.revokes then [ByAdmin(a)] else []
      ensures (forall a ::
                !(db.finds && Truthy(cookie) && Resolves(old(log), cookie.value, now, a) && a in admins && admins[a] == DISABLED))
                ==> log == old(log)
      ensures clock == if db.finds && Truthy(cookie) then now else old(clock)
    {
      assert log + [] == log;
      if !Truthy(cookie) || !db.finds {
        return None;
      }
      var session := ResolveSession(cookie.value, now, db.deletes);
      if session == None {
        return None;
      }
      assert Resolves(log, cookie.value, now, session.value);
      if session.value !in admins {
        return None;
      }
      if admins[session.value] == DISABLED {
        var count := RevokeAllSessions(session.value, db.revokes);
        return None;
      }
      return session;
    }
  }

  lemma SmallerMap(kept: Table, table: Table)
    requires kept.Keys <= table.Keys
    ensures |kept| <= |table|
  {
    SubsetSize(kept.Keys, table.Keys);
    assert |kept| == |kept.Keys| && |table| == |table.Keys|;
  }

  /** A revocation by administrator leaves that administrator no session, now or later. */
  lemma RevokedAdminIsOut(log: seq<Entry>, admin: AdminId, token: Token, now: int)
    ensures !Resolves(log + [ByAdmin(admin)], token, now, admin)
  {
    forall i: nat, row | Standing(log + [ByAdmin(admin)], i, token, row) ensures row.adminUserId != admin {
      StandingAfter(log, ByAdmin(admin), i, token, row);
    }
  }

  /** A revocation by token leaves that token nothing. */
  lemma RevokedTokenIsOut(log: seq<Entry>, token: Token, now: int, admin: AdminId)
    ensures !Resolves(log + [ByToken(token)], token, now, admin)
  {
    forall i: nat, row ensures !Standing(log + [ByToken(token)], i, token, row) {
      StandingAfter(log, ByToken(token), i, token, row);
    }
  }

  /** A revocation by identity-provider session leaves no session issued under it, and every other one. */
  lemma RevokedSidIsOut(log: seq<Entry>, sid: string, i: nat, token: Token, row: Row)
    ensures Standing(log + [BySid(sid)], i, token, row) <==> Standing(log, i, token, row) && row.oidcSid != Some(sid)
  {
    StandingAfter(log, BySid(sid), i, token, row);
  }

  /** A fresh session resolves to its administrator until it expires. */
  lemma IssuedIsIn(log: seq<Entry>, token: Token, row: Row, now: int)
    ensures row.expiresAt > now ==> Resolves(log + [Issued(token, row)], token, now, row.adminUserId)
    ensures !WasIssued(log, token) && row.expiresAt <= now ==> forall a :: !Resolves(log + [Issued(token, row)], token, now, a)
  {
    var after := log + [Issued(token, row)];
    StandingAfter(log, Issued(token, row), |log|, token, row);
    forall i: nat, other | !WasIssued(log, token) && Standing(after, i, token, other) ensures other == row {
      StandingAfter(log, Issued(token, row), i, token, other);
      StandingIssued(log, i, token, other);
    }
  }

  lemma StandingIssued(log: seq<Entry>, i: nat, token: Token, row: Row)
    ensures Standing(log, i, token, row) ==> WasIssued(log, token)
  {
  }

  // ---- runs ----------------------------------------------------------------------------------

  /** A request to the session table: an issue or revocation, which fails whole or works, or a look-up. */
  datatype Command = Record(entry: Entry, now: int, works: bool) | Look(token: Token, now: int, deleteWorks: bool)

  /** What one request does to the rows. */
  function After(table: Table, c: Command, hash: Hash): Table {
    match c
    case Record(e, _, works) => if works then Purge(table, e, hash) else table
    case Look(token, now, works) =>
      var h := hash(token);
      if works && h in table && table[h].expiresAt <= now then map k | k in table && k != h :: table[k] else table
  }

  function TableOf(run: seq<Command>, hash: Hash): Table {
    if run == [] then map[] else After(TableOf(run[..|run| - 1], hash), run[|run| - 1], hash)
  }

  function LogOf(run: seq<Command>): seq<Entry> {
    if run == [] then []
    else LogOf(run[..|run| - 1]) + (if run[|run| - 1].Record? && run[|run| - 1].works then [run[|run| - 1].entry] else [])
  }

  /** The clock does not go back and tokens are fresh. */
  ghost predicate Serial(run: seq<Command>) {
    && (forall k :: 0 < k < |run| ==> run[k - 1].now <= run[k].now)
    && (forall k :: 0 <= k < |run| && run[k].Record? && run[k].entry.Issued? ==> !WasIssued(LogOf(run[..k]), run[k].entry.token))
  }

  lemma {:induction false} RunRefines(run: seq<Command>, hash: Hash, now: int)
    requires Injective(hash) && Serial(run) && (run != [] ==> run[|run| - 1].now <= now)
    ensures Refines(TableOf(run, hash), LogOf(run), hash, now)
  {
    if run != [] {
      var n := |run| - 1;
      var before, c := run[..n], run[n];
      assert forall k :: 0 <= k < n ==> before[k] == run[k] && before[..k] == run[..k];
      RunRefines(before, hash, c.now);
      var table, log := TableOf(before, hash), LogOf(before);
      match c {
        case Record(e, _, works) =>
          assert log + [] == log;
          PurgeRefines(table, log, hash, c.now, e);
        case Look(token, t, works) =>
          assert log + [] == log;
          if hash(token) in table && table[hash(token)].expiresAt <= t {
            SweepRefines(table, log, hash, t, hash(token));
          }
      }
      LaterRefines(TableOf(run, hash), LogOf(run), hash, c.now, now);
    }
  }

  /**
   * After any serial run, whichever expired rows were deleted on the way, a
   * token resolves iff it was issued, is unexpired, and no later revocation by
   * token, administrator or identity-provider session covers it.
   */
  lemma TokensResolveByTheLog(run: seq<Command>, hash: Hash, token: Token, now: int, admin: AdminId)
    requires Injective(hash) && Serial(run) && (run != [] ==> run[|run| - 1].now <= now)
    ensures Lookup(TableOf(run, hash), hash, token, now) == Some(admin) <==> Resolves(LogOf(run), token, now, admin)
  {
    RunRefines(run, hash, now);
    LookupIsTheLog(TableOf(run, hash), LogOf(run), hash, now, token, admin);
  }
}
