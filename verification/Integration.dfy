// The integration layer: configuration, connection tests, and the connection
// status that only the system derives.
module Integration {
  import opened Text
  import opened Errors
  import opened Policies

  datatype Environment = DEVELOPMENT | STAGING | PRODUCTION

  datatype Status = NOT_CONFIGURED | CONFIGURED | TESTING | CONNECTED | DEGRADED | DISCONNECTED | NOT_APPLICABLE

  datatype Provider = ENV | SECRET_STORE | SECRETS_MANAGER | ENCRYPTED_DB

  datatype CredentialStatus = ACTIVE | ROTATING | REVOKED

  datatype CredentialRef = CredentialRef(
    name: string, provider: Provider, refKey: string, environment: Environment, scopes: seq<string>, status: CredentialStatus)

  datatype CredentialInput = CredentialInput(
    name: string, provider: Option<Provider>, refKey: string, environment: Environment,
    scopes: Option<seq<string>>, status: Option<CredentialStatus>)

  /** None is `undefined`; for nullable fields the inner None is `null`. */
  datatype ConfigInput = ConfigInput(
    adapterType: Option<Option<string>>, enabled: Option<bool>, baseUrl: Option<Option<string>>,
    timeoutMs: Option<Option<int>>, credentialReferences: Option<seq<CredentialInput>>)

  /** Applications have one row per environment, so the pair is the row's identity. */
  datatype Key = Key(applicationId: string, environment: Environment)

  datatype Row = Row(
    adapterType: Option<string>, enabled: bool, baseUrl: Option<string>, timeoutMs: Option<int>,
    status: Status, capabilities: seq<string>, lastTestedAt: Option<int>, lastError: Option<Code>,
    refs: seq<CredentialRef>)

  datatype Event =
    | CONFIG_UPDATED(key: Key) | CREDENTIAL_REFERENCE_UPDATED(key: Key) | CREDENTIAL_ACCESSED(key: Key, name: string)
    | CONNECTION_TEST_STARTED(key: Key) | CONNECTION_TEST_SUCCEEDED(key: Key) | CONNECTION_TEST_FAILED(key: Key, code: Code)

  datatype Store = Store(rows: map<Key, Row>, breakers: map<Key, Breaker>, events: seq<Event>)

  const EMPTY: Store := Store(map[], map[], [])

  /** Fixed for the service's life. */
  datatype Setup = Setup(
    applications: set<string>, adapters: map<string, seq<string>>, runtimeEnv: Environment,
    egressAllowed: string -> bool, retries: nat, breaker: Options)

  /**
   * Which database calls of a test work: the first status write and event, listing
   * the references, recording each access, the writes of a success, those of a
   * failure.
   */
  datatype Db = Db(
    testing: bool, started: bool, listRefs: bool, access: nat -> bool,
    connected: bool, succeeded: bool, failStatus: bool, failEvent: bool)

  /** What the outside does during one test: the secrets, the adapter's answers, the clock, the database. */
  datatype World = World(
    secrets: map<string, string>, adapter: nat -> Attempt<()>, timedOut: nat -> bool, startedAt: int, finishedAt: int, db: Db)

  function MapConnectionStatusForError(code: Code): Status {
    if code == Code.NOT_SUPPORTED then NOT_APPLICABLE
    else if code in {Code.TIMEOUT, Code.UPSTREAM_5XX, Code.RATE_LIMITED, Code.NETWORK, Code.CIRCUIT_OPEN} then DEGRADED
    else DISCONNECTED
  }

  predicate IsLive(s: Status) {
    s in {TESTING, CONNECTED, DEGRADED, DISCONNECTED}
  }

  // ---- configure -----------------------------------------------------------------------

  function GetOr<T>(o: Option<T>, default: T): T {
    match o
    case None => default
    case Some(v) => v
  }

  /** A row before its first configuration. */
  const BLANK: Row := Row(None, false, None, None, NOT_CONFIGURED, [], None, None, [])

  /** The status that configuration derives. */
  function ConfiguredStatus(existing: Option<Row>, adapterType: Option<string>): Status {
    if !Truthy(adapterType) then NOT_CONFIGURED
    else if existing.Some? && IsLive(existing.value.status) then existing.value.status
    else CONFIGURED
  }

  function MergedRow(existing: Option<Row>, input: ConfigInput): Row {
    var row := GetOr(existing, BLANK);
    var adapterType := GetOr(input.adapterType, row.adapterType);
    row.(adapterType := adapterType, enabled := GetOr(input.enabled, row.enabled),
         baseUrl := GetOr(input.baseUrl, row.baseUrl), timeoutMs := GetOr(input.timeoutMs, row.timeoutMs),
         status := ConfiguredStatus(existing, adapterType))
  }

  function ToRef(c: CredentialInput): (r: CredentialRef)
    ensures r.name == c.name
  {
    CredentialRef(c.name, GetOr(c.provider, ENV), c.refKey, c.environment, GetOr(c.scopes, []), GetOr(c.status, ACTIVE))
  }

  /** `deleteMany(name notIn names)`. */
  function Retain(refs: seq<CredentialRef>, names: set<string>): seq<CredentialRef> {
    if refs == [] then []
    else if refs[0].name in names then [refs[0]] + Retain(refs[1..], names)
    else Retain(refs[1..], names)
  }

  /** Update the row of that name, or add one. */
  function Upsert(refs: seq<CredentialRef>, ref: CredentialRef): seq<CredentialRef> {
    if refs == [] then [ref]
    else if refs[0].name == ref.name then [ref] + refs[1..]
    else [refs[0]] + Upsert(refs[1..], ref)
  }

  function UpsertAll(refs: seq<CredentialRef>, list: seq<CredentialInput>): seq<CredentialRef> {
    if list == [] then refs else Upsert(UpsertAll(refs, list[..|list| - 1]), ToRef(list[|list| - 1]))
  }

  function Names(list: seq<CredentialInput>): set<string> {
    set k | 0 <= k < |list| :: list[k].name
  }

  function KeptNames(list: seq<CredentialInput>): set<string> {
    if list == [] then {"__none__"} else Names(list)
  }

  /** The references after some of the writes that list them: the deletion, then one upsert per entry. */
  function ListedRefs(refs: seq<CredentialRef>, list: seq<CredentialInput>, writes: nat): seq<CredentialRef> {
    if writes == 0 then refs
    else UpsertAll(Retain(refs, KeptNames(list)), if writes - 1 <= |list| then list[..writes - 1] else list)
  }

  /** The row after n writes, the first of which is the row's own. */
  function ConfiguredRow(existing: Option<Row>, input: ConfigInput, n: nat): Row
    requires n > 0
  {
    var row := MergedRow(existing, input);
    match input.credentialReferences
    case None => row
    case Some(list) => row.(refs := ListedRefs(row.refs, list, n - 1))
  }

  /** How many writes a configuration takes: the row, the references, one event or two. */
  function ConfigureWrites(input: ConfigInput): nat {
    match input.credentialReferences
    case None => 2
    case Some(list) => |list| + 4
  }

  function Find(s: Store, key: Key): Option<Row> {
    if key in s.rows then Some(s.rows[key]) else None
  }

  /** A configuration while the database takes n writes. */
  function Configure(setup: Setup, s: Store, key: Key, input: ConfigInput, n: nat): Store {
    if key.applicationId !in setup.applications || n == 0 then s
    else
      var all := ConfigureWrites(input);
      var updated := if input.credentialReferences.Some? && n >= all - 1 then [CREDENTIAL_REFERENCE_UPDATED(key)] else [];
      s.(rows := s.rows[key := ConfiguredRow(Find(s, key), input, n)],
         events := s.events + updated + if n >= all then [CONFIG_UPDATED(key)] else [])
  }

  // ---- test ------------------------------------------------------------------------------

  /** `EnvCredentialResolver.resolve`: None when the secret is handed over. */
  function ResolveError(ref: CredentialRef, runtimeEnv: Environment, secrets: map<string, string>): Option<IntegrationError> {
    if ref.status != ACTIVE then Some(Default(Code.CREDENTIAL_REVOKED))
    else if ref.environment != runtimeEnv then Some(Default(Code.ENVIRONMENT_MISMATCH))
    else if ref.provider != ENV then Some(Default(Code.NOT_SUPPORTED))
    else if ref.refKey !in secrets || secrets[ref.refKey] == "" then Some(Default(Code.CONFIG_INVALID))
    else None
  }

  /** What stops the k-th reference: it is refused, or recording its access fails. */
  function RefError(refs: seq<CredentialRef>, k: nat, env: Environment, w: World): Option<IntegrationError>
    requires k < |refs|
  {
    var refused := ResolveError(refs[k], env, w.secrets);
    if refused.Some? then refused else if !w.db.access(k) then Some(Default(Code.NETWORK)) else None
  }

  /** The first reference from k on that is stopped. */
  function Stopped(refs: seq<CredentialRef>, k: nat, env: Environment, w: World): (n: nat)
    requires k <= |refs|
    ensures k <= n <= |refs|
    ensures forall i: nat :: k <= i < n ==> RefError(refs, i, env, w) == None
    ensures n < |refs| ==> RefError(refs, n, env, w).Some?
    decreases |refs| - k
  {
    if k == |refs| || RefError(refs, k, env, w).Some? then k else Stopped(refs, k + 1, env, w)
  }

  /** How many references are handed over. */
  function Resolved(refs: seq<CredentialRef>, env: Environment, w: World): (n: nat)
    ensures n <= |refs|
  {
    if w.db.listRefs then Stopped(refs, 0, env, w) else 0
  }

  function Accessed(key: Key, refs: seq<CredentialRef>): seq<Event> {
    seq(|refs|, k requires 0 <= k < |refs| => CREDENTIAL_ACCESSED(key, refs[k].name))
  }

  /** `withTimeout`: a failure after the deadline is a TIMEOUT. */
  function WithTimeout(a: Attempt<()>, timedOut: bool): Attempt<()> {
    if a.Failure? && timedOut then Failure(Integration(Default(Code.TIMEOUT))) else a
  }

  function TimedTask(w: World): Task<()> {
    (k: nat) => WithTimeout(w.adapter(k), w.timedOut(k))
  }

  function BreakerFor(s: Store, key: Key): Breaker {
    if key in s.breakers then s.breakers[key] else FRESH
  }

  /** The error a started test meets before the breaker. */
  function EarlyError(setup: Setup, row: Row, w: World): Option<IntegrationError> {
    var n := Resolved(row.refs, setup.runtimeEnv, w);
    if !w.db.listRefs then Some(Default(Code.NETWORK))
    else if n < |row.refs| then RefError(row.refs, n, setup.runtimeEnv, w)
    else if Truthy(row.baseUrl) && !setup.egressAllowed(row.baseUrl.value) then Some(Default(Code.SSRF_BLOCKED))
    else None
  }

  /** The error that stops a started test before it can record success (None: validated), and the breaker afterwards. */
  function Guarded(setup: Setup, s: Store, key: Key, row: Row, w: World): (Option<IntegrationError>, map<Key, Breaker>) {
    match EarlyError(setup, row, w)
    case Some(e) => (Some(e), s.breakers)
    case None =>
      var (r, b) := Exec(BreakerFor(s, key), setup.breaker, w.startedAt,
                         RetriedAttempt(TimedTask(w), setup.retries), w.finishedAt);
      (if r.Ok? then None else Some(r.error), s.breakers[key := b])
  }

  /** `fail`: set the status and record the failure; false when the database fails and the test throws. */
  function WithFailure(s: Store, key: Key, code: Code, status: Status, db: Db): (Store, bool)
    requires key in s.rows
  {
    if !db.failStatus then (s, false)
    else
      var t := s.(rows := s.rows[key := s.rows[key].(status := status, lastError := Some(code))]);
      if !db.failEvent then (t, false) else (t.(events := s.events + [CONNECTION_TEST_FAILED(key, code)]), true)
  }

  /** The first write of a started test. */
  function WithTesting(s: Store, key: Key, w: World): Store
    requires key in s.rows
  {
    s.(rows := s.rows[key := s.rows[key].(status := TESTING, lastTestedAt := Some(w.startedAt))])
  }

  /** The `try` block: the error it throws, and the store it leaves. */
  function Tried(setup: Setup, s: Store, key: Key, w: World): (r: (Option<IntegrationError>, Store))
    requires key in s.rows && Registered(setup, s.rows[key])
    ensures key in r.1.rows
  {
    var row := s.rows[key];
    var (error, breakers) := Guarded(setup, s, key, row, w);
    var accessed := Accessed(key, row.refs[..Resolved(row.refs, setup.runtimeEnv, w)]);
    var t := s.(events := s.events + accessed, breakers := breakers);
    if error.Some? then (error, t)
    else if !w.db.connected then (Some(Default(Code.NETWORK)), t)
    else
      var done := row.(status := CONNECTED, capabilities := setup.adapters[row.adapterType.value],
                       lastError := None, lastTestedAt := Some(w.finishedAt));
      var u := t.(rows := t.rows[key := done]);
      if !w.db.succeeded then (Some(Default(Code.NETWORK)), u)
      else (None, u.(events := u.events + [CONNECTION_TEST_SUCCEEDED(key)]))
  }

  /** A test, and whether it returns rather than throws. */
  function Tested(setup: Setup, s: Store, key: Key, w: World): (Store, bool)
    requires key in s.rows
  {
    var row := s.rows[key];
    if key.environment != setup.runtimeEnv then WithFailure(s, key, Code.ENVIRONMENT_MISMATCH, DISCONNECTED, w.db)
    else if !row.enabled then WithFailure(s, key, Code.CONFIG_INVALID, CONFIGURED, w.db)
    else if !Registered(setup, row) then WithFailure(s, key, Code.NOT_SUPPORTED, NOT_APPLICABLE, w.db)
    else if !w.db.testing then (s, false)
    else
      var t := WithTesting(s, key, w);
      if !w.db.started then (t, false)
      else
        var (error, u) := Tried(setup, t.(events := t.events + [CONNECTION_TEST_STARTED(key)]), key, w);
        match error
        case None => (u, true)
        case Some(e) => WithFailure(u, key, e.code, MapConnectionStatusForError(e.code), w.db)
  }

  function Test(setup: Setup, s: Store, key: Key, w: World): Store {
    if key in s.rows then Tested(setup, s, key, w).0 else s
  }

  predicate Completes(setup: Setup, s: Store, key: Key, w: World) {
    key in s.rows ==> Tested(setup, s, key, w).1
  }

  /** `registry.get(adapterType)` finds an adapter. */
  predicate Registered(setup: Setup, row: Row) {
    Truthy(row.adapterType) && row.adapterType.value in setup.adapters
  }

  // ---- the service ---------------------------------------------------------------------------

  class IntegrationService {
    const setup: Setup
    var rows: map<Key, Row>
    var breakers: map<Key, Breaker>
    var events: seq<Event>

    function Abs(): Store
      reads this
    {
      Store(rows, breakers, events)
    }

    constructor (setup: Setup)
      ensures Abs() == EMPTY && this.setup == setup
    {
      this.setup := setup;
      rows, breakers, events := map[], map[], [];
    }

    /** False when the application does not exist (404), or the database stops taking writes. */
    method ConfigureIntegration(key: Key, input: ConfigInput, accepts: nat) returns (done: bool)
      modifies this
      ensures done <==> key.applicationId in setup.applications && accepts >= ConfigureWrites(input)
      ensures Abs() == Configure(setup, old(Abs()), key, input, accepts)
    {
      hide ListedRefs, IsLive;
      if key.applicationId !in setup.applications || accepts == 0 {
        return false;
      }
      var existing := if key in rows then Some(rows[key]) else None;
      var row := GetOr(existing, BLANK);
      var adapterType := GetOr(input.adapterType, row.adapterType);
      var status := if Truthy(adapterType) then CONFIGURED else NOT_CONFIGURED;
      if existing.Some? && IsLive(existing.value.status) {
        status := if Truthy(adapterType) then existing.value.status else NOT_CONFIGURED;
      }
      row := row.(adapterType := adapterType, enabled := GetOr(input.enabled, row.enabled),
                  baseUrl := GetOr(input.baseUrl, row.baseUrl), timeoutMs := GetOr(input.timeoutMs, row.timeoutMs),
                  status := status);
      var left := accepts - 1;
      if input.credentialReferences.Some? {
        var list := input.credentialReferences.value;
        var refs;
        refs, left := ListReferences(row.refs, list, left);
        row := row.(refs := refs);
        rows := rows[key := row];
        if left == 0 {
          return false;
        }
        left := left - 1;
        events := events + [CREDENTIAL_REFERENCE_UPDATED(key)];
      }
      rows := rows[key := row];
      if left == 0 {
        return false;
      }
      events := events + [CONFIG_UPDATED(key)];
      return true;
    }

    /** One deletion and one upsert per entry, as far as the database takes them. */
    method ListReferences(refs: seq<CredentialRef>, list: seq<CredentialInput>, accepts: nat)
      returns (after: seq<CredentialRef>, left: nat)
      ensures after == ListedRefs(refs, list, accepts)
      ensures left == if accepts > |list| then accepts - |list| - 1 else 0
    {
      after, left := refs, accepts;
      if left == 0 {
        return;
      }
      after, left := Retain(refs, KeptNames(list)), left - 1;
      ghost var kept := after;
      for k := 0 to |list|
        invariant after == UpsertAll(kept, list[..k]) && left == accepts - 1 - k
      {
        if left == 0 {
          return;
        }
        assert list[..k + 1][..k] == list[..k];
        after, left := Upsert(after, ToRef(list[k])), left - 1;
      }
      assert list[..|list|] == list;
    }

    /** False when the database fails meanwhile. */
    method Fail(key: Key, code: Code, status: Status, db: Db) returns (ok: bool)
      requires key in rows
      modifies this`rows, this`events
      ensures (Abs(), ok) == WithFailure(old(Abs()), key, code, status, db)
    {
      if !db.failStatus {
        return false;
      }
      rows := rows[key := rows[key].(status := status, lastError := Some(code))];
      if !db.failEvent {
        return false;
      }
      events := events + [CONNECTION_TEST_FAILED(key, code)];
      return true;
    }

    /** Resolve the references in table order, recording each access, up to the first that is stopped. */
    method ResolveCredentials(key: Key, refs: seq<CredentialRef>, w: World) returns (error: Option<IntegrationError>)
      modifies this`events
      ensures var n := Resolved(refs, setup.runtimeEnv, w);
              && events == old(events) + Accessed(key, refs[..n])
              && error == (if !w.db.listRefs then Some(Default(Code.NETWORK))
                           else if n < |refs| then RefError(refs, n, setup.runtimeEnv, w) else None)
    {
      assert refs[..0] == [] && events + [] == events;
      if !w.db.listRefs {
        return Some(Default(Code.NETWORK));
      }
      for k := 0 to |refs|
        invariant Stopped(refs, 0, setup.runtimeEnv, w) == Stopped(refs, k, setup.runtimeEnv, w)
        invariant events == old(events) + Accessed(key, refs[..k])
      {
        error := ResolveError(refs[k], setup.runtimeEnv, w.secrets);
        if error.Some? {
          return;
        }
        if !w.db.access(k) {
          return Some(Default(Code.NETWORK));
        }
        assert Accessed(key, refs[..k + 1]) == Accessed(key, refs[..k]) + [CREDENTIAL_ACCESSED(key, refs[k].name)];
        events := events + [CREDENTIAL_ACCESSED(key, refs[k].name)];
      }
      assert refs[..|refs|] == refs;
      return None;
    }

    /** The part of a test inside `try`. */
    method Try(key: Key, w: World) returns (error: Option<IntegrationError>)
      requires key in rows && Registered(setup, rows[key])
      modifies this
      ensures (error, Abs()) == Tried(setup, old(Abs()), key, w)
    {
      hide Stopped, Accessed, Exec, RetriedAttempt;
      ghost var s := Abs();
      var dto := rows[key];
      error := ResolveCredentials(key, dto.refs, w);
      if error == None && Truthy(dto.baseUrl) && !setup.egressAllowed(dto.baseUrl.value) {
        error := Some(Default(Code.SSRF_BLOCKED));
      } else if error == None {
        var (r, b) := Exec(if key in breakers then breakers[key] else FRESH, setup.breaker, w.startedAt,
                           RetriedAttempt(TimedTask(w), setup.retries), w.finishedAt);
        breakers := breakers[key := b];
        error := if r.Ok? then None else Some(r.error);
      }
      assert (error, breakers) == Guarded(setup, s, key, dto, w);
      if error.Some? {
        return;
      }
      if !w.db.connected {
        return Some(Default(Code.NETWORK));
      }
      rows := rows[key := rows[key].(status := CONNECTED, capabilities := setup.adapters[dto.adapterType.value],
                                     lastError := None, lastTestedAt := Some(w.finishedAt))];
      if !w.db.succeeded {
        return Some(Default(Code.NETWORK));
      }
      events := events + [CONNECTION_TEST_SUCCEEDED(key)];
      return None;
    }

    /** found is false when nothing is configured for the key (404), completed when the test throws. */
    method TestConnection(key: Key, w: World) returns (found: bool, completed: bool)
      modifies this
      ensures found <==> key in old(rows)
      ensures Abs() == Test(setup, old(Abs()), key, w)
      ensures found ==> (completed <==> Completes(setup, old(Abs()), key, w))
    {
      if key !in rows {
        return false, false;
      }
      found := true;
      var dto := rows[key];
      if key.environment != setup.runtimeEnv {
        completed := Fail(key, Code.ENVIRONMENT_MISMATCH, DISCONNECTED, w.db);
        return;
      }
      if !dto.enabled {
        completed := Fail(key, Code.CONFIG_INVALID, CONFIGURED, w.db);
        return;
      }
      if !Registered(setup, dto) {
        completed := Fail(key, Code.NOT_SUPPORTED, NOT_APPLICABLE, w.db);
        return;
      }
      if !w.db.testing {
        return true, false;
      }
      rows := rows[key := dto.(status := TESTING, lastTestedAt := Some(w.startedAt))];
      if !w.db.started {
        return true, false;
      }
      events := events + [CONNECTION_TEST_STARTED(key)];
      var error := Try(key, w);
      if error.Some? {
        completed := Fail(key, error.value.code, MapConnectionStatusForError(error.value.code), w.db);
        return;
      }
      return true, true;
    }
  }

  // ---- what the status means --------------------------------------------------------------------

  datatype Op = ConfigureOp(key: Key, input: ConfigInput, accepts: nat) | TestOp(key: Key, world: World)

  function Step(setup: Setup, s: Store, op: Op): Store {
    match op
    case ConfigureOp(key, input, n) => Configure(setup, s, key, input, n)
    case TestOp(key, w) => Test(setup, s, key, w)
  }

  /** A serial run from the empty store. */
  function Run(setup: Setup, ops: seq<Op>): Store {
    if ops == [] then EMPTY else Step(setup, Run(setup, ops[..|ops| - 1]), ops[|ops| - 1])
  }

  /** Attempt `last` is reached and succeeds. */
  ghost predicate SucceedsAt(task: Task<()>, retries: int, last: nat) {
    task(last).Success? && forall k: nat :: k < last ==> !Stops(task, retries, k)
  }

  /** A test gets past its early exits. */
  predicate Starts(setup: Setup, key: Key, row: Row) {
    key.environment == setup.runtimeEnv && row.enabled && Registered(setup, row)
  }

  /** Everything a successful test requires, apart from the database. */
  ghost predicate Validated(setup: Setup, s: Store, key: Key, w: World) {
    && key in s.rows
    && var row := s.rows[key];
      && key.environment == setup.runtimeEnv
      && row.enabled
      && Registered(setup, row)
      && (forall k :: 0 <= k < |row.refs| ==> ResolveError(row.refs[k], setup.runtimeEnv, w.secrets) == None)
      && (Truthy(row.baseUrl) ==> setup.egressAllowed(row.baseUrl.value))
      && Start(BreakerFor(s, key), setup.breaker, w.startedAt).0
      && exists last: nat :: SucceedsAt(TimedTask(w), setup.retries, last)
  }

  /** The database calls up to and including the write of CONNECTED work. */
  ghost predicate Saved(refs: seq<CredentialRef>, db: Db) {
    db.testing && db.started && db.listRefs && db.connected && forall k: nat :: k < |refs| ==> db.access(k)
  }

  /** The test writes some status. */
  predicate WritesStatus(setup: Setup, key: Key, row: Row, db: Db) {
    if Starts(setup, key, row) then db.testing else db.failStatus
  }

  lemma RetriedSuccess(task: Task<()>, retries: nat)
    ensures RetriedAttempt(task, retries).Success?
       <==> exists last: nat :: SucceedsAt(task, retries, last)
  {
    RetryStops(task, retries, 0);
    var (calls, r) := RetryResult(task, retries);
    if r.Ok? {
      assert SucceedsAt(task, retries, calls - 1);
    }
    if last: nat :| SucceedsAt(task, retries, last) {
      RetryCalls(task, retries, 0, last + 1);
    }
  }

  /** The references are all handed over iff none is refused and every access is recorded. */
  lemma AllResolved(refs: seq<CredentialRef>, env: Environment, w: World)
    ensures w.db.listRefs && Resolved(refs, env, w) == |refs| <==>
              && w.db.listRefs && (forall k: nat :: k < |refs| ==> w.db.access(k))
              && forall k :: 0 <= k < |refs| ==> ResolveError(refs[k], env, w.secrets) == None
  {
    hide ResolveError, Stopped;
    forall k: nat | k < |refs| && w.db.listRefs && Resolved(refs, env, w) == |refs|
      ensures w.db.access(k) && ResolveError(refs[k], env, w.secrets) == None
    {
      assert RefError(refs, k, env, w) == None;
    }
  }

  lemma GuardedIffValidated(setup: Setup, s: Store, key: Key, w: World)
    requires key in s.rows && Starts(setup, key, s.rows[key])
    ensures Guarded(setup, s, key, s.rows[key], w).0 == None <==>
              Validated(setup, s, key, w) && w.db.listRefs && forall k: nat :: k < |s.rows[key].refs| ==> w.db.access(k)
  {
    hide RetriedAttempt, ResolveError, SucceedsAt;
    AllResolved(s.rows[key].refs, setup.runtimeEnv, w);
    RetriedSuccess(TimedTask(w), setup.retries);
    hide Resolved;
  }

  /** The breaker's key and row are all a test looks at: writing TESTING first makes no difference. */
  lemma GuardedUnchanged(setup: Setup, s: Store, t: Store, key: Key, row: Row, row': Row, w: World)
    requires t.breakers == s.breakers && row'.refs == row.refs && row'.baseUrl == row.baseUrl
    ensures Guarded(setup, t, key, row', w) == Guarded(setup, s, key, row, w)
  {
  }

  /** The status a test leaves, and when it is CONNECTED or TESTING. */
  lemma TestStatusExactly(setup: Setup, s: Store, key: Key, w: World)
    requires key in s.rows
    ensures var t := Test(setup, s, key, w);
            var started := Starts(setup, key, s.rows[key]);
            var reached := Validated(setup, s, key, w) && Saved(s.rows[key].refs, w.db);
            && key in t.rows
            && (!WritesStatus(setup, key, s.rows[key], w.db) ==> t == s)
            && (WritesStatus(setup, key, s.rows[key], w.db) ==>
                  && (t.rows[key].status == CONNECTED <==> reached && (w.db.succeeded || !w.db.failStatus))
                  && (t.rows[key].status == TESTING <==> started && (!w.db.started || (!w.db.failStatus && !reached))))
  {
    hide Guarded, Resolved, Accessed;
    var row := s.rows[key];
    if Starts(setup, key, row) && w.db.testing {
      var t := WithTesting(s, key, w);
      GuardedIffValidated(setup, s, key, w);
      GuardedUnchanged(setup, s, t.(events := t.events + [CONNECTION_TEST_STARTED(key)]), key, row, t.rows[key], w);
      hide Validated;
    }
  }

  /** While the database works, a test leaves CONNECTED exactly when it was validated. */
  lemma ConnectedIffValidated(setup: Setup, s: Store, key: Key, w: World)
    requires key in s.rows && Saved(s.rows[key].refs, w.db) && w.db.succeeded && w.db.failStatus
    ensures key in Test(setup, s, key, w).rows
    ensures Test(setup, s, key, w).rows[key].status == CONNECTED <==> Validated(setup, s, key, w)
  {
    TestStatusExactly(setup, s, key, w);
  }

  /** After operation j on key, a live status from before still stands. */
  ghost predicate KeptBy(setup: Setup, ops: seq<Op>, key: Key, j: nat)
    requires j < |ops|
  {
    var s, t := Run(setup, ops[..j]), Run(setup, ops[..j + 1]);
    match ops[j]
    case ConfigureOp(_, _, n) => n == 0 || (key in t.rows && Truthy(t.rows[key].adapterType))
    case TestOp(_, w) => key in s.rows && !WritesStatus(setup, key, s.rows[key], w.db)
  }

  /** The test at place i wrote the status, last as `status`, and every later operation on key kept it. */
  ghost predicate DerivedBy(setup: Setup, ops: seq<Op>, key: Key, status: Status, i: nat) {
    && i < |ops| && ops[i].TestOp? && ops[i].key == key
    && (var s, t := Run(setup, ops[..i]), Run(setup, ops[..i + 1]);
        && key in s.rows && WritesStatus(setup, key, s.rows[key], ops[i].world.db)
        && HasStatus(t, key, status))
    && forall j: nat :: i < j < |ops| && ops[j].key == key ==> KeptBy(setup, ops, key, j)
  }

  /** How the last operation decides whether place i still stands. */
  lemma DerivedByStep(setup: Setup, ops: seq<Op>, key: Key, status: Status, i: nat)
    requires ops != []
    ensures var n := |ops| - 1;
            var before := ops[..n];
            i < n ==> (DerivedBy(setup, ops, key, status, i) <==>
                         DerivedBy(setup, before, key, status, i) && (ops[n].key == key ==> KeptBy(setup, ops, key, n)))
  {
    hide Run;
    var n := |ops| - 1;
    var before := ops[..n];
    assert forall j: nat :: j <= n ==> before[..j] == ops[..j];
    forall j: nat | j < n ensures KeptBy(setup, ops, key, j) <==> KeptBy(setup, before, key, j) {
    }
  }

  /** An operation on one integration leaves the others' rows alone, and no operation removes a row. */
  lemma StepFrame(setup: Setup, s: Store, op: Op, key: Key)
    ensures key in s.rows ==> key in Step(setup, s, op).rows
    ensures op.key != key ==> Find(Step(setup, s, op), key) == Find(s, key)
  {
    hide Guarded, Resolved, ConfiguredRow;
  }

  lemma RunUnfolds(setup: Setup, ops: seq<Op>)
    requires ops != []
    ensures Run(setup, ops) == Step(setup, Run(setup, ops[..|ops| - 1]), ops[|ops| - 1])
    ensures ops[..|ops|] == ops
  {
  }

  ghost predicate HasStatus(s: Store, key: Key, status: Status) {
    key in s.rows && s.rows[key].status == status
  }

  /** What one operation on the key itself does to a live status. */
  lemma LastStep(setup: Setup, s: Store, op: Op, key: Key, status: Status)
    requires op.key == key && IsLive(status) && (key in s.rows ==> key.applicationId in setup.applications)
    ensures var t := Step(setup, s, op);
            match op
            case TestOp(_, w) =>
              && (key !in s.rows ==> t == s)
              && (key in s.rows && !WritesStatus(setup, key, s.rows[key], w.db) ==> t == s)
            case ConfigureOp(_, _, n) =>
              HasStatus(t, key, status) <==>
                HasStatus(s, key, status) && (n == 0 || (key in t.rows && Truthy(t.rows[key].adapterType)))
  {
    hide ListedRefs;
    if op.TestOp? && key in s.rows {
      TestStatusExactly(setup, s, key, op.world);
      hide Test;
    }
  }

  /**
   * In every serial run, with database failures anywhere: a row has a live status
   * iff a test of it derived that status and nothing since has undone it: no
   * other test that wrote a status, no configuration that left no adapter.
   */
  lemma {:induction false} LiveStatusLaw(setup: Setup, ops: seq<Op>, key: Key, status: Status)
    requires IsLive(status)
    ensures HasStatus(Run(setup, ops), key, status) <==> exists i: nat :: DerivedBy(setup, ops, key, status, i)
  {
    if ops != [] {
      var n := |ops| - 1;
      var before, op := ops[..n], ops[n];
      var s, t := Run(setup, before), Run(setup, ops);
      LiveStatusLaw(setup, before, key, status);
      RunUnfolds(setup, ops);
      RowsHaveApplications(setup, before, key);
      StepFrame(setup, s, op, key);
      if op.key == key {
        LastStep(setup, s, op, key, status);
      }
      hide Run, Test, Configure, WritesStatus;
      forall i: nat ensures i < n ==> (DerivedBy(setup, ops, key, status, i) <==>
                              DerivedBy(setup, before, key, status, i) && (op.key == key ==> KeptBy(setup, ops, key, n))) {
        DerivedByStep(setup, ops, key, status, i);
      }
      LastDerives(setup, ops, key, status);
    }
  }

  /** Whether the last place itself derives the status. */
  lemma LastDerives(setup: Setup, ops: seq<Op>, key: Key, status: Status)
    requires ops != []
    ensures var n := |ops| - 1;
            var s := Run(setup, ops[..n]);
            DerivedBy(setup, ops, key, status, n) <==>
              && ops[n].TestOp? && ops[n].key == key && key in s.rows
              && WritesStatus(setup, key, s.rows[key], ops[n].world.db) && HasStatus(Run(setup, ops), key, status)
  {
    hide Run, WritesStatus;
    assert ops[..|ops| - 1 + 1] == ops;
  }

  /** Place i holds a validated test whose CONNECTED was saved, and every later operation on key kept it. */
  ghost predicate ConnectedBy(setup: Setup, ops: seq<Op>, key: Key, i: nat) {
    && i < |ops| && ops[i].TestOp? && ops[i].key == key
    && (var s, w := Run(setup, ops[..i]), ops[i].world;
        Validated(setup, s, key, w) && Saved(s.rows[key].refs, w.db) && (w.db.succeeded || !w.db.failStatus))
    && forall j: nat :: i < j < |ops| && ops[j].key == key ==> KeptBy(setup, ops, key, j)
  }

  /**
   * In every serial run: an integration is CONNECTED iff its latest test that
   * wrote a status was validated and saved, and no later configuration left it
   * without an adapter.
   */
  lemma ConnectedLaw(setup: Setup, ops: seq<Op>, key: Key)
    ensures HasStatus(Run(setup, ops), key, CONNECTED) <==> exists i: nat :: ConnectedBy(setup, ops, key, i)
  {
    LiveStatusLaw(setup, ops, key, CONNECTED);
    forall i: nat ensures DerivedBy(setup, ops, key, CONNECTED, i) <==> ConnectedBy(setup, ops, key, i) {
      if i < |ops| && ops[i].TestOp? && ops[i].key == key {
        var s := Run(setup, ops[..i]);
        assert ops[..i + 1][..i] == ops[..i];
        RunUnfolds(setup, ops[..i + 1]);
        if key in s.rows {
          TestStatusExactly(setup, s, key, ops[i].world);
        }
        hide Run, Test, KeptBy;
      }
    }
  }

  // ---- a status outlives the settings it was derived from ---------------------------------------------

  /** What a test is about. */
  datatype Settings = Settings(
    adapterType: Option<string>, enabled: bool, baseUrl: Option<string>, timeoutMs: Option<int>, refs: seq<CredentialRef>)

  function SettingsOf(row: Row): Settings {
    Settings(row.adapterType, row.enabled, row.baseUrl, row.timeoutMs, row.refs)
  }

  /** The configuration names only values that are there already, or the database takes none of it. */
  predicate NamesTheSame(row: Row, input: ConfigInput, n: nat) {
    n == 0 ||
    (&& GetOr(input.adapterType, row.adapterType) == row.adapterType && GetOr(input.enabled, row.enabled) == row.enabled
     && GetOr(input.baseUrl, row.baseUrl) == row.baseUrl && GetOr(input.timeoutMs, row.timeoutMs) == row.timeoutMs
     && (input.credentialReferences.Some? ==> ListedRefs(row.refs, input.credentialReferences.value, n - 1) == row.refs))
  }

  lemma StepSettings(setup: Setup, s: Store, op: Op, key: Key)
    requires key in s.rows && key.applicationId in setup.applications
    ensures var t := Step(setup, s, op);
            && key in t.rows
            && (SettingsOf(t.rows[key]) == SettingsOf(s.rows[key]) <==>
                  (op.key == key && op.ConfigureOp? ==> NamesTheSame(s.rows[key], op.input, op.accepts)))
  {
    hide Tested, Configure, SettingsOf;
    StepFrame(setup, s, op, key);
    if op.key == key {
      match op
      case TestOp(_, w) => TestKeepsSettings(setup, s, key, w);
      case ConfigureOp(_, input, n) => ConfigureSettings(setup, s, key, input, n);
    }
  }

  lemma TestKeepsSettings(setup: Setup, s: Store, key: Key, w: World)
    requires key in s.rows
    ensures var t := Test(setup, s, key, w); key in t.rows && SettingsOf(t.rows[key]) == SettingsOf(s.rows[key])
  {
    if Registered(setup, s.rows[key]) {
      var t := WithTesting(s, key, w);
      TriedKeepsSettings(setup, t.(events := t.events + [CONNECTION_TEST_STARTED(key)]), key, w);
    }
    hide Tried;
  }

  lemma TriedKeepsSettings(setup: Setup, s: Store, key: Key, w: World)
    requires key in s.rows && Registered(setup, s.rows[key])
    ensures SettingsOf(Tried(setup, s, key, w).1.rows[key]) == SettingsOf(s.rows[key])
  {
    hide Guarded, Resolved, Accessed;
  }

  lemma ConfigureSettings(setup: Setup, s: Store, key: Key, input: ConfigInput, n: nat)
    requires key in s.rows && key.applicationId in setup.applications
    ensures var t := Configure(setup, s, key, input, n);
            key in t.rows && (SettingsOf(t.rows[key]) == SettingsOf(s.rows[key]) <==> NamesTheSame(s.rows[key], input, n))
  {
    hide ListedRefs;
  }

  /** Every state of the run from place i on has the row, with the settings it had at place i. */
  ghost predicate SettingsSince(setup: Setup, ops: seq<Op>, key: Key, i: nat) {
    && i <= |ops| && key in Run(setup, ops[..i]).rows
    && forall j: nat :: i <= j <= |ops| ==>
         && key in Run(setup, ops[..j]).rows
         && SettingsOf(Run(setup, ops[..j]).rows[key]) == SettingsOf(Run(setup, ops[..i]).rows[key])
  }

  /** The configuration at place j, if it is one of key, names only what is there. */
  ghost predicate ChangesNothing(setup: Setup, ops: seq<Op>, key: Key, j: nat)
    requires j < |ops|
  {
    var s := Run(setup, ops[..j]);
    key in s.rows && (ops[j].key == key && ops[j].ConfigureOp? ==> NamesTheSame(s.rows[key], ops[j].input, ops[j].accepts))
  }

  /**
   * A CONNECTED integration has had the settings that were validated ever since
   * exactly when each later configuration of it named only values already there.
   */
  lemma SettingsSinceExactly(setup: Setup, ops: seq<Op>, key: Key, i: nat)
    requires ConnectedBy(setup, ops, key, i)
    ensures SettingsSince(setup, ops, key, i) <==> forall j: nat :: i <= j < |ops| ==> ChangesNothing(setup, ops, key, j)
  {
    hide Run, Step, Validated, NamesTheSame, SettingsOf, KeptBy;
    assert key in Run(setup, ops[..i]).rows by { ValidatedRow(setup, Run(setup, ops[..i]), key, ops[i].world); }
    if forall j: nat :: i <= j < |ops| ==> ChangesNothing(setup, ops, key, j) {
      forall j: nat | i <= j <= |ops|
        ensures key in Run(setup, ops[..j]).rows
        ensures SettingsOf(Run(setup, ops[..j]).rows[key]) == SettingsOf(Run(setup, ops[..i]).rows[key])
      {
        SettingsUpTo(setup, ops, key, i, j);
      }
    }
    if SettingsSince(setup, ops, key, i) {
      forall j: nat | i <= j < |ops| ensures ChangesNothing(setup, ops, key, j) {
        SettingsStepAt(setup, ops, key, j);
      }
    }
  }

  lemma ValidatedRow(setup: Setup, s: Store, key: Key, w: World)
    requires Validated(setup, s, key, w)
    ensures key in s.rows
  {
  }

  lemma SettingsStepAt(setup: Setup, ops: seq<Op>, key: Key, j: nat)
    requires j < |ops| && key in Run(setup, ops[..j]).rows
    ensures key in Run(setup, ops[..j + 1]).rows
    ensures SettingsOf(Run(setup, ops[..j + 1]).rows[key]) == SettingsOf(Run(setup, ops[..j]).rows[key])
       <==> ChangesNothing(setup, ops, key, j)
  {
    RowsHaveApplications(setup, ops[..j], key);
    StepSettings(setup, Run(setup, ops[..j]), ops[j], key);
    assert ops[..j + 1][..j] == ops[..j];
    RunUnfolds(setup, ops[..j + 1]);
    hide Run, Step, NamesTheSame, SettingsOf;
  }

  lemma {:induction false} SettingsUpTo(setup: Setup, ops: seq<Op>, key: Key, i: nat, j: nat)
    requires i <= j <= |ops| && key in Run(setup, ops[..i]).rows
    requires forall k: nat :: i <= k < j ==> ChangesNothing(setup, ops, key, k)
    ensures key in Run(setup, ops[..j]).rows
    ensures SettingsOf(Run(setup, ops[..j]).rows[key]) == SettingsOf(Run(setup, ops[..i]).rows[key])
    decreases j
  {
    hide Run, ChangesNothing, SettingsOf;
    if i < j {
      SettingsUpTo(setup, ops, key, i, j - 1);
      SettingsStepAt(setup, ops, key, j - 1);
    }
  }

  /** CONNECTED survives another adapter, another address and being disabled. */
  lemma ConnectedSurvivesChange(setup: Setup, s: Store, key: Key, adapter: string, url: Option<string>)
    requires key.applicationId in setup.applications && HasStatus(s, key, CONNECTED) && adapter != ""
    ensures var t := Configure(setup, s, key, ConfigInput(Some(Some(adapter)), Some(false), Some(url), None, None), 2);
            && HasStatus(t, key, CONNECTED)
            && t.rows[key].adapterType == Some(adapter) && !t.rows[key].enabled && t.rows[key].baseUrl == url
  {
  }

  lemma {:induction false} RowsHaveApplications(setup: Setup, ops: seq<Op>, key: Key)
    ensures key in Run(setup, ops).rows ==> key.applicationId in setup.applications
  {
    if ops != [] {
      var n := |ops| - 1;
      RowsHaveApplications(setup, ops[..n], key);
      if ops[n].key != key {
        StepFrame(setup, Run(setup, ops[..n]), ops[n], key);
      }
    }
  }

  /** Configuring never enters a live status: it keeps the one there is, or derives one from the adapter. */
  lemma ConfigureNeverEntersLive(setup: Setup, s: Store, key: Key, input: ConfigInput, n: nat)
    requires key.applicationId in setup.applications && n > 0
    ensures var row := Configure(setup, s, key, input, n).rows[key];
            && (IsLive(row.status) <==> key in s.rows && IsLive(s.rows[key].status) && Truthy(row.adapterType))
            && (IsLive(row.status) ==> row.status == s.rows[key].status)
            && (row.status == NOT_CONFIGURED <==> !Truthy(row.adapterType))
            && (!IsLive(row.status) ==> row.status in {NOT_CONFIGURED, CONFIGURED})
  {
    hide ListedRefs;
  }

  /** A test that returns does not leave TESTING. */
  lemma CompletedTestIsOver(setup: Setup, s: Store, key: Key, w: World)
    requires key in s.rows && Completes(setup, s, key, w)
    ensures !HasStatus(Test(setup, s, key, w), key, TESTING)
  {
    hide Guarded, Resolved, Accessed;
  }

  /** No reachable row is TESTING as long as every test returned. */
  lemma {:induction false} NoTestLeavesTesting(setup: Setup, ops: seq<Op>, key: Key)
    requires forall k: nat :: k < |ops| && ops[k].TestOp? ==> Completes(setup, Run(setup, ops[..k]), ops[k].key, ops[k].world)
    ensures !HasStatus(Run(setup, ops), key, TESTING)
  {
    LiveStatusLaw(setup, ops, key, TESTING);
    forall i: nat ensures !DerivedBy(setup, ops, key, TESTING, i) {
      if i < |ops| && ops[i].TestOp? && ops[i].key == key {
        var s := Run(setup, ops[..i]);
        assert ops[..i + 1][..i] == ops[..i];
        RunUnfolds(setup, ops[..i + 1]);
        if key in s.rows {
          CompletedTestIsOver(setup, s, key, ops[i].world);
        }
      }
    }
  }

  /** Test outcomes recorded for key. */
  function Terminal(events: seq<Event>, key: Key): nat {
    if events == [] then 0
    else
      var e := events[|events| - 1];
      Terminal(events[..|events| - 1], key)
      + (if e == CONNECTION_TEST_SUCCEEDED(key) || (e.CONNECTION_TEST_FAILED? && e.key == key) then 1 else 0)
  }

  lemma {:induction false} TerminalOfAppend(a: seq<Event>, b: seq<Event>, key: Key)
    ensures Terminal(a + b, key) == Terminal(a, key) + Terminal(b, key)
  {
    if b == [] {
      assert a + b == a;
    } else {
      TerminalOfAppend(a, b[..|b| - 1], key);
      assert (a + b)[..|a + b| - 1] == a + b[..|b| - 1];
    }
  }

  lemma {:induction false} AccessIsNotTerminal(owner: Key, refs: seq<CredentialRef>, key: Key)
    ensures Terminal(Accessed(owner, refs), key) == 0
  {
    if refs != [] {
      AccessIsNotTerminal(owner, refs[..|refs| - 1], key);
      assert Accessed(owner, refs)[..|refs| - 1] == Accessed(owner, refs[..|refs| - 1]);
    }
  }

  /** The events one test adds before its outcome. */
  function Preamble(setup: Setup, key: Key, row: Row, w: World): seq<Event> {
    if Starts(setup, key, row) && w.db.testing && w.db.started
    then [CONNECTION_TEST_STARTED(key)] + Accessed(key, row.refs[..Resolved(row.refs, setup.runtimeEnv, w)])
    else []
  }

  lemma PreambleHasNoOutcome(setup: Setup, key: Key, row: Row, w: World)
    ensures Terminal(Preamble(setup, key, row, w), key) == 0
  {
    hide Resolved, Starts;
    var refs := row.refs[..Resolved(row.refs, setup.runtimeEnv, w)];
    AccessIsNotTerminal(key, refs, key);
    TerminalOfAppend([CONNECTION_TEST_STARTED(key)], Accessed(key, refs), key);
    assert [CONNECTION_TEST_STARTED(key)][..0] == [];
  }

  /** The outcome a test records: its own kind when it returns, none when it throws. */
  function OutcomeEvents(setup: Setup, s: Store, key: Key, w: World): seq<Event>
    requires key in s.rows
  {
    var row := GetOr(Find(Test(setup, s, key, w), key), BLANK);
    if !Completes(setup, s, key, w) then []
    else if row.status == CONNECTED then [CONNECTION_TEST_SUCCEEDED(key)]
    else [CONNECTION_TEST_FAILED(key, GetOr(row.lastError, Code.NETWORK))]
  }

  lemma TestEvents(setup: Setup, s: Store, key: Key, w: World)
    requires key in s.rows
    ensures var t := Test(setup, s, key, w);
            && t.events == s.events + Preamble(setup, key, s.rows[key], w) + OutcomeEvents(setup, s, key, w)
            && key in t.rows && (Completes(setup, s, key, w) && t.rows[key].status != CONNECTED ==> t.rows[key].lastError.Some?)
  {
    hide Guarded, Resolved, Registered, Accessed;
    assert s.events + [] == s.events;
  }

  /**
   * Every test that returns records exactly one outcome, of the right kind, as
   * its last event; one that throws records none.
   */
  lemma OneTerminalEvent(setup: Setup, s: Store, key: Key, w: World)
    requires key in s.rows
    ensures var t := Test(setup, s, key, w);
            && key in t.rows && s.events <= t.events
            && Terminal(t.events, key) == Terminal(s.events, key) + (if Completes(setup, s, key, w) then 1 else 0)
            && (Completes(setup, s, key, w) ==>
                  && |t.events| > |s.events|
                  && var last := t.events[|t.events| - 1];
                    if t.rows[key].status == CONNECTED then last == CONNECTION_TEST_SUCCEEDED(key)
                    else t.rows[key].lastError.Some? && last == CONNECTION_TEST_FAILED(key, t.rows[key].lastError.value))
  {
    TestEvents(setup, s, key, w);
    hide Test, Completes, Preamble;
    var before, outcome := Preamble(setup, key, s.rows[key], w), OutcomeEvents(setup, s, key, w);
    PreambleHasNoOutcome(setup, key, s.rows[key], w);
    TerminalOfAppend(s.events + before, outcome, key);
    TerminalOfAppend(s.events, before, key);
    assert outcome != [] ==> outcome[..0] == [] && |outcome| == 1;
  }

  // ---- live statuses without the adapter -------------------------------------------------------------

  /** The test gets as far as the circuit breaker. */
  predicate ReachesBreaker(setup: Setup, key: Key, row: Row, w: World) {
    && Starts(setup, key, row) && w.db.testing && w.db.started && w.db.listRefs
    && Resolved(row.refs, setup.runtimeEnv, w) == |row.refs|
    && (Truthy(row.baseUrl) ==> setup.egressAllowed(row.baseUrl.value))
  }

  /** The adapter is called at least once. */
  predicate CallsAdapter(setup: Setup, s: Store, key: Key, w: World)
    requires key in s.rows
  {
    ReachesBreaker(setup, key, s.rows[key], w) && Start(BreakerFor(s, key), setup.breaker, w.startedAt).0
  }

  /**
   * The documentation ties every live status to actual adapter execution. Exactly
   * when a test derives one without calling the adapter: TESTING when the
   * database fails between, DEGRADED when it fails on the credentials or the
   * breaker is open, DISCONNECTED for a wrong environment, a credential refused
   * for anything but its provider, or a refused base URL; CONNECTED never.
   */
  lemma LiveWithoutAdapter(setup: Setup, s: Store, key: Key, w: World)
    requires key in s.rows && !CallsAdapter(setup, s, key, w) && WritesStatus(setup, key, s.rows[key], w.db)
    ensures var row := s.rows[key];
            var t := Test(setup, s, key, w);
            var ended := Starts(setup, key, row) && w.db.started && w.db.failStatus;
            var error := EarlyError(setup, row, w);
            && key in t.rows && t.rows[key].status != CONNECTED
            && (t.rows[key].status == TESTING <==> Starts(setup, key, row) && !ended)
            && (t.rows[key].status == DEGRADED <==> ended && (error == None || error.value.code == Code.NETWORK))
            && (t.rows[key].status == DISCONNECTED <==>
                  key.environment != setup.runtimeEnv
                  || (ended && error.Some? && error.value.code !in {Code.NETWORK, Code.NOT_SUPPORTED}))
            && (ended && error == None ==> ReachesBreaker(setup, key, row, w) && t.rows[key].lastError == Some(Code.CIRCUIT_OPEN))
            && BreakerFor(t, key) == BreakerFor(s, key)
  {
    var row := s.rows[key];
    EarlyCodes(setup, row, w);
    if Starts(setup, key, row) && w.db.testing && w.db.started {
      var t := WithTesting(s, key, w);
      var u := t.(events := t.events + [CONNECTION_TEST_STARTED(key)]);
      EndsEarly(setup, s, key, w);
      GuardedUnchanged(setup, s, u, key, row, u.rows[key], w);
    }
    hide Resolved, Accessed, Guarded, EarlyError, Start, ReachesBreaker;
  }

  /** Short of the adapter, a started test ends with an early error or the breaker's, and the breaker is as before. */
  lemma EndsEarly(setup: Setup, s: Store, key: Key, w: World)
    requires key in s.rows && Starts(setup, key, s.rows[key]) && w.db.testing && w.db.started && !CallsAdapter(setup, s, key, w)
    ensures var error := EarlyError(setup, s.rows[key], w);
            var (end, breakers) := Guarded(setup, s, key, s.rows[key], w);
            && end == Some(if error.Some? then error.value else Default(Code.CIRCUIT_OPEN))
            && BreakerFor(s.(breakers := breakers), key) == BreakerFor(s, key)
            && (error == None ==> ReachesBreaker(setup, key, s.rows[key], w))
  {
    hide Resolved, RetriedAttempt, Start, RefError;
    ReachesUnlessEarly(setup, key, s.rows[key], w);
  }

  lemma ReachesUnlessEarly(setup: Setup, key: Key, row: Row, w: World)
    requires Starts(setup, key, row) && w.db.testing && w.db.started
    ensures ReachesBreaker(setup, key, row, w) <==> EarlyError(setup, row, w) == None
  {
    hide Stopped, RefError;
  }

  /** The codes of those errors, and which condition gives each. */
  lemma EarlyCodes(setup: Setup, row: Row, w: World)
    ensures var e := EarlyError(setup, row, w);
            var n := Resolved(row.refs, setup.runtimeEnv, w);
            && (e.Some? ==> e.value == Default(e.value.code)
                            && e.value.code in {Code.NETWORK, Code.CREDENTIAL_REVOKED, Code.ENVIRONMENT_MISMATCH,
                                                Code.NOT_SUPPORTED, Code.CONFIG_INVALID, Code.SSRF_BLOCKED})
            && (e.Some? && e.value.code == Code.NETWORK <==>
                  || !w.db.listRefs
                  || (n < |row.refs| && ResolveError(row.refs[n], setup.runtimeEnv, w.secrets) == None && !w.db.access(n)))
            && (e.Some? && e.value.code == Code.NOT_SUPPORTED <==>
                  && w.db.listRefs && n < |row.refs| && row.refs[n].status == ACTIVE
                  && row.refs[n].environment == setup.runtimeEnv && row.refs[n].provider != ENV)
  {
    hide Stopped;
  }

  // ---- what each error does to the status -----------------------------------------------------------

  /** The statuses errors stand for. */
  predicate StandsFor(status: Status, code: Code) {
    if code in {Code.TIMEOUT, Code.UPSTREAM_5XX, Code.RATE_LIMITED, Code.NETWORK, Code.CIRCUIT_OPEN} then status == DEGRADED
    else if code == Code.NOT_SUPPORTED then status == NOT_APPLICABLE
    else status == DISCONNECTED
  }

  /** The failure of attempt k, as the test reports it: past the deadline, any failure is a timeout. */
  function AttemptCode(w: World, k: nat): Code
    requires w.adapter(k).Failure?
  {
    if w.timedOut(k) then Code.TIMEOUT else CodeOf(w.adapter(k).thrown)
  }

  /** The attempt after which a test that calls its adapter gives up. */
  ghost predicate GivesUpAt(setup: Setup, w: World, last: nat) {
    && w.adapter(last).Failure?
    && (last >= setup.retries || !Retryable(w, last))
    && forall k: nat :: k < last ==> w.adapter(k).Failure? && k < setup.retries && Retryable(w, k)
  }

  /** A timeout, an abort or an unknown exception is; an integration error says so itself. */
  predicate Retryable(w: World, k: nat)
    requires w.adapter(k).Failure?
  {
    w.timedOut(k) || !w.adapter(k).thrown.Integration? || w.adapter(k).thrown.error.retryable
  }

  lemma TimedStops(setup: Setup, w: World, k: nat)
    ensures TimedTask(w)(k).Success? <==> w.adapter(k).Success?
    ensures w.adapter(k).Failure? ==>
              && (Stops(TimedTask(w), setup.retries, k) <==> k >= setup.retries || !Retryable(w, k))
              && Outcome(TimedTask(w)(k)).Err? && Outcome(TimedTask(w)(k)).error.code == AttemptCode(w, k)
    ensures w.adapter(k).Success? ==> Stops(TimedTask(w), setup.retries, k)
  {
  }

  /** A failing retried adapter gives up somewhere, and with the code of that attempt. */
  lemma GivesUp(setup: Setup, w: World) returns (last: nat)
    requires RetriedAttempt(TimedTask(w), setup.retries).Failure?
    ensures GivesUpAt(setup, w, last)
    ensures RetryResult(TimedTask(w), setup.retries).1.Err?
    ensures RetryResult(TimedTask(w), setup.retries).1.error.code == AttemptCode(w, last)
  {
    var task := TimedTask(w);
    RetryStops(task, setup.retries, 0);
    last := RetryResult(task, setup.retries).0 - 1;
    hide TimedTask, Stops, Outcome, RetryFrom;
    forall k: nat | k <= last ensures w.adapter(k).Failure? && (k < last ==> k < setup.retries && Retryable(w, k)) {
      TimedStops(setup, w, k);
      assert Outcome(task(k)).Err? ==> w.adapter(k).Failure? by { OutcomeOfSuccess(setup, w, k); }
    }
    TimedStops(setup, w, last);
  }

  lemma OutcomeOfSuccess(setup: Setup, w: World, k: nat)
    ensures w.adapter(k).Success? ==> Outcome(TimedTask(w)(k)).Ok?
  {
  }

  /**
   * A test that returns, called its adapter and was not validated records the
   * code of the attempt it gave up at, and the status that code stands for.
   */
  lemma AdapterFailureStatus(setup: Setup, s: Store, key: Key, w: World)
    requires key in s.rows && CallsAdapter(setup, s, key, w) && Completes(setup, s, key, w)
    requires !Validated(setup, s, key, w)
    ensures var t := Test(setup, s, key, w);
            && key in t.rows
            && exists last: nat :: && GivesUpAt(setup, w, last) && t.rows[key].lastError == Some(AttemptCode(w, last))
                                   && StandsFor(t.rows[key].status, AttemptCode(w, last))
  {
    var row := s.rows[key];
    AllResolved(row.refs, setup.runtimeEnv, w);
    ReachesUnlessEarly(setup, key, row, w);
    RetriedSuccess(TimedTask(w), setup.retries);
    var last := GivesUp(setup, w);
    var t := WithTesting(s, key, w);
    var u := t.(events := t.events + [CONNECTION_TEST_STARTED(key)]);
    GuardedUnchanged(setup, s, u, key, row, u.rows[key], w);
    assert Guarded(setup, s, key, row, w).0.Some? && Guarded(setup, s, key, row, w).0.value.code == AttemptCode(w, last) by {
      hide Resolved, TimedTask, RetryFrom, EarlyError, Validated, CallsAdapter, GivesUpAt, AttemptCode;
    }
    hide Guarded, EarlyError, Resolved, RetriedAttempt, TimedTask, AttemptCode, GivesUpAt, Accessed, ReachesBreaker, Validated;
  }

  /** A returning test that its settings rule out from the start. */
  lemma RuledOut(setup: Setup, s: Store, key: Key, w: World)
    requires key in s.rows && Completes(setup, s, key, w)
    ensures var row := s.rows[key];
            var t := Test(setup, s, key, w);
            var registered := row.adapterType.Some? && row.adapterType.value != "" && row.adapterType.value in setup.adapters;
            && key in t.rows
            && (key.environment != setup.runtimeEnv ==>
                  t.rows[key].status == DISCONNECTED && t.rows[key].lastError == Some(Code.ENVIRONMENT_MISMATCH))
            && (key.environment == setup.runtimeEnv && !row.enabled ==>
                  t.rows[key].status == CONFIGURED && t.rows[key].lastError == Some(Code.CONFIG_INVALID))
            && (key.environment == setup.runtimeEnv && row.enabled && !registered ==>
                  t.rows[key].status == NOT_APPLICABLE && t.rows[key].lastError == Some(Code.NOT_SUPPORTED))
  {
    hide Tried;
  }

  /** A returning test that an early error ends records that error and the status it stands for. */
  lemma EarlyErrorStatus(setup: Setup, s: Store, key: Key, w: World)
    requires key in s.rows && Starts(setup, key, s.rows[key]) && Completes(setup, s, key, w)
    requires EarlyError(setup, s.rows[key], w).Some?
    ensures var t := Test(setup, s, key, w);
            var code := EarlyError(setup, s.rows[key], w).value.code;
            key in t.rows && t.rows[key].lastError == Some(code) && StandsFor(t.rows[key].status, code)
  {
    var row := s.rows[key];
    var t := WithTesting(s, key, w);
    var u := t.(events := t.events + [CONNECTION_TEST_STARTED(key)]);
    GuardedUnchanged(setup, s, u, key, row, u.rows[key], w);
    assert Guarded(setup, s, key, row, w).0 == EarlyError(setup, row, w);
    hide Guarded, EarlyError, Resolved, Accessed;
  }

  /** How a reference is refused, the first reason counting. */
  lemma ReferenceRefused(ref: CredentialRef, env: Environment, secrets: map<string, string>)
    ensures var held := ref.refKey in secrets && secrets[ref.refKey] != "";
            var e := ResolveError(ref, env, secrets);
            && (e == None <==> ref.status == ACTIVE && ref.environment == env && ref.provider == ENV && held)
            && (e.Some? ==> !e.value.retryable)
            && (ref.status != ACTIVE ==> e.value.code == Code.CREDENTIAL_REVOKED)
            && (ref.status == ACTIVE && ref.environment != env ==> e.value.code == Code.ENVIRONMENT_MISMATCH)
            && (ref.status == ACTIVE && ref.environment == env && ref.provider != ENV ==> e.value.code == Code.NOT_SUPPORTED)
            && (ref.status == ACTIVE && ref.environment == env && ref.provider == ENV && !held ==>
                  e.value.code == Code.CONFIG_INVALID)
  {
  }

  /** CONNECTED by a test means that every reference was ACTIVE, of this environment, from ENV, with a secret. */
  lemma ConnectedNeedsCredentials(setup: Setup, s: Store, key: Key, w: World)
    requires key in s.rows && WritesStatus(setup, key, s.rows[key], w.db)
    requires HasStatus(Test(setup, s, key, w), key, CONNECTED)
    ensures var row := s.rows[key];
            && key.environment == setup.runtimeEnv && row.enabled
            && row.adapterType.Some? && row.adapterType.value in setup.adapters
            && forall ref :: ref in row.refs ==>
                 && ref.status == ACTIVE && ref.environment == setup.runtimeEnv && ref.provider == ENV
                 && ref.refKey in w.secrets && w.secrets[ref.refKey] != ""
  {
    TestStatusExactly(setup, s, key, w);
    hide Test, ResolveError;
    var row := s.rows[key];
    forall ref | ref in row.refs
      ensures ref.status == ACTIVE && ref.environment == setup.runtimeEnv && ref.provider == ENV
      ensures ref.refKey in w.secrets && w.secrets[ref.refKey] != ""
    {
      var k :| 0 <= k < |row.refs| && row.refs[k] == ref;
      ReferenceRefused(ref, setup.runtimeEnv, w.secrets);
    }
  }

  /** A configuration sets what it gives and leaves the rest, starting from a disabled row without settings. */
  lemma ConfigureSets(setup: Setup, s: Store, key: Key, input: ConfigInput, n: nat)
    requires key.applicationId in setup.applications && n > 0
    ensures var row := Configure(setup, s, key, input, n).rows[key];
            && (input.adapterType.Some? ==> row.adapterType == input.adapterType.value)
            && (input.enabled.Some? ==> row.enabled == input.enabled.value)
            && (input.baseUrl.Some? ==> row.baseUrl == input.baseUrl.value)
            && (input.timeoutMs.Some? ==> row.timeoutMs == input.timeoutMs.value)
            && (key in s.rows ==>
                  && (input.adapterType == None ==> row.adapterType == s.rows[key].adapterType)
                  && (input.enabled == None ==> row.enabled == s.rows[key].enabled)
                  && (input.baseUrl == None ==> row.baseUrl == s.rows[key].baseUrl)
                  && (input.timeoutMs == None ==> row.timeoutMs == s.rows[key].timeoutMs)
                  && (input.credentialReferences == None ==> row.refs == s.rows[key].refs))
            && (key !in s.rows ==>
                  && (input.adapterType == None ==> row.adapterType == None) && (input.enabled == None ==> !row.enabled)
                  && (input.baseUrl == None ==> row.baseUrl == None) && (input.timeoutMs == None ==> row.timeoutMs == None)
                  && (input.credentialReferences == None ==> row.refs == []))
  {
    hide ListedRefs, ConfiguredStatus;
  }

  /** A reference as given: from ENV and ACTIVE unless it says otherwise. */
  lemma ReferenceDefaults(c: CredentialInput)
    ensures var ref := ToRef(c);
            && ref.name == c.name && ref.refKey == c.refKey && ref.environment == c.environment
            && (if c.provider.Some? then ref.provider == c.provider.value else ref.provider == ENV)
            && (if c.status.Some? then ref.status == c.status.value else ref.status == ACTIVE)
            && (if c.scopes.Some? then ref.scopes == c.scopes.value else ref.scopes == [])
  {
  }

  // ---- how often a failing adapter is called ----------------------------------------------------------

  /** The tests of key that reached its breaker, as calls of the retried adapter. */
  function CallsOf(setup: Setup, ops: seq<Op>, key: Key): seq<Call<()>> {
    if ops == [] then []
    else
      var n := |ops| - 1;
      var s, op := Run(setup, ops[..n]), ops[n];
      CallsOf(setup, ops[..n], key)
      + if op.TestOp? && op.key == key && key in s.rows && ReachesBreaker(setup, key, s.rows[key], op.world)
        then [Call(op.world.startedAt, TimedTask(op.world), op.world.finishedAt)] else []
  }

  /** How often the adapter of key was called. */
  function AdapterCalls(setup: Setup, ops: seq<Op>, key: Key): nat {
    if ops == [] then 0
    else
      var n := |ops| - 1;
      var s, op := Run(setup, ops[..n]), ops[n];
      AdapterCalls(setup, ops[..n], key)
      + if op.TestOp? && op.key == key && key in s.rows && CallsAdapter(setup, s, key, op.world)
        then RetryResult(TimedTask(op.world), setup.retries).0 else 0
  }

  /** Tests of key follow one another in time, and its adapter always fails. */
  ghost predicate FailsInOrder(ops: seq<Op>, key: Key) {
    && (forall i :: 0 <= i < |ops| && ops[i].TestOp? && ops[i].key == key ==>
          ops[i].world.startedAt <= ops[i].world.finishedAt && forall k: nat :: ops[i].world.adapter(k).Failure?)
    && (forall i, j :: 0 <= i < j < |ops| && ops[i].TestOp? && ops[j].TestOp? && ops[i].key == key && ops[j].key == key ==>
          ops[i].world.finishedAt <= ops[j].world.startedAt)
  }

  /** What a test does to the breakers. */
  lemma TestBreakers(setup: Setup, s: Store, key: Key, w: World)
    requires key in s.rows
    ensures var t := Test(setup, s, key, w);
            t.breakers == if ReachesBreaker(setup, key, s.rows[key], w)
                          then s.breakers[key := Exec(BreakerFor(s, key), setup.breaker, w.startedAt,
                                                      RetriedAttempt(TimedTask(w), setup.retries), w.finishedAt).1]
                          else s.breakers
  {
    var row := s.rows[key];
    if Starts(setup, key, row) && w.db.testing && w.db.started {
      var t := WithTesting(s, key, w);
      var u := t.(events := t.events + [CONNECTION_TEST_STARTED(key)]);
      ReachesUnlessEarly(setup, key, row, w);
      GuardedUnchanged(setup, s, u, key, row, u.rows[key], w);
      GuardedBreakers(setup, s, key, row, w);
    }
    hide Resolved, Accessed, Guarded, EarlyError, Exec, RetriedAttempt;
  }

  lemma GuardedBreakers(setup: Setup, s: Store, key: Key, row: Row, w: World)
    ensures Guarded(setup, s, key, row, w).1 ==
              if EarlyError(setup, row, w) == None
              then s.breakers[key := Exec(BreakerFor(s, key), setup.breaker, w.startedAt,
                                          RetriedAttempt(TimedTask(w), setup.retries), w.finishedAt).1]
              else s.breakers
  {
    hide EarlyError, Exec, RetriedAttempt;
  }

  /** An operation on one integration, and any configuration, leaves the other breakers alone. */
  lemma StepBreakers(setup: Setup, s: Store, op: Op, key: Key)
    ensures op.ConfigureOp? || op.key != key || key !in s.rows ==> BreakerFor(Step(setup, s, op), key) == BreakerFor(s, key)
  {
    hide Resolved, Accessed, ReachesBreaker, Exec, RetriedAttempt, Tested, ConfiguredRow;
    if op.TestOp? && op.key in s.rows {
      TestBreakers(setup, s, op.key, op.world);
    }
  }

  lemma {:induction false} BreakerIsOfCalls(setup: Setup, ops: seq<Op>, key: Key)
    ensures BreakerFor(Run(setup, ops), key) == After(CallsOf(setup, ops, key), setup.breaker, setup.retries)
  {
    hide Exec, RetriedAttempt, ReachesBreaker, Test, Step;
    if ops != [] {
      var n := |ops| - 1;
      var s, op := Run(setup, ops[..n]), ops[n];
      BreakerIsOfCalls(setup, ops[..n], key);
      StepBreakers(setup, s, op, key);
      var before := CallsOf(setup, ops[..n], key);
      if op.TestOp? && op.key == key && key in s.rows {
        TestBreakers(setup, s, key, op.world);
        StepIsTest(setup, s, op);
      }
      if op.TestOp? && op.key == key && key in s.rows && ReachesBreaker(setup, key, s.rows[key], op.world) {
        assert CallsOf(setup, ops, key)[..|before|] == before;
      } else {
        assert CallsOf(setup, ops, key) == before;
      }
    }
  }

  lemma StepIsTest(setup: Setup, s: Store, op: Op)
    requires op.TestOp?
    ensures Step(setup, s, op) == Test(setup, s, op.key, op.world)
  {
  }

  lemma OneMoreCall(calls: seq<Call<()>>, c: Call<()>, o: Options, retries: int)
    ensures TargetCalls(calls + [c], o, retries)
         == TargetCalls(calls, o, retries)
            + if Start(After(calls, o, retries), o, c.start).0 then RetryResult(c.task, retries).0 else 0
  {
    hide RetryResult, After, Start;
    assert (calls + [c])[..|calls|] == calls;
  }

  lemma {:induction false} AdapterCallsAreTargetCalls(setup: Setup, ops: seq<Op>, key: Key)
    ensures AdapterCalls(setup, ops, key) == TargetCalls(CallsOf(setup, ops, key), setup.breaker, setup.retries)
  {
    hide Run, ReachesBreaker, RetryResult, After, Start, TargetCalls, TimedTask;
    if ops == [] {
      NoCalls(setup.breaker, setup.retries);
    } else {
      var n := |ops| - 1;
      var s, op := Run(setup, ops[..n]), ops[n];
      AdapterCallsAreTargetCalls(setup, ops[..n], key);
      BreakerIsOfCalls(setup, ops[..n], key);
      var before := CallsOf(setup, ops[..n], key);
      if op.TestOp? && op.key == key && key in s.rows && ReachesBreaker(setup, key, s.rows[key], op.world) {
        OneMoreCall(before, Call(op.world.startedAt, TimedTask(op.world), op.world.finishedAt), setup.breaker, setup.retries);
      } else {
        assert before + [] == before;
      }
    }
  }

  lemma NoCalls(o: Options, retries: int)
    ensures TargetCalls<()>([], o, retries) == 0 && InOrder<()>([])
  {
  }

  lemma OneMoreInOrder(calls: seq<Call<()>>, c: Call<()>)
    requires InOrder(calls) && c.start <= c.end && AlwaysFails(c.task)
    requires calls != [] ==> calls[|calls| - 1].end <= c.start
    ensures InOrder(calls + [c])
  {
    hide AlwaysFails;
  }

  lemma TimedTaskFails(w: World)
    requires forall k: nat :: w.adapter(k).Failure?
    ensures AlwaysFails(TimedTask(w))
  {
  }

  /** Every call comes from a test of the run, in order. */
  lemma {:induction false} CallsInOrder(setup: Setup, ops: seq<Op>, key: Key)
    requires FailsInOrder(ops, key)
    ensures var calls := CallsOf(setup, ops, key);
            && InOrder(calls)
            && (calls != [] ==> exists i :: 0 <= i < |ops| && ops[i].TestOp? && ops[i].key == key
                                            && calls[|calls| - 1].end == ops[i].world.finishedAt)
  {
    hide Run, ReachesBreaker, InOrder, AlwaysFails, TimedTask;
    if ops == [] {
      assert InOrder<()>([]) by { NoCalls(setup.breaker, setup.retries); }
    } else {
      var n := |ops| - 1;
      var s, op := Run(setup, ops[..n]), ops[n];
      CallsInOrder(setup, ops[..n], key);
      var before := CallsOf(setup, ops[..n], key);
      if op.TestOp? && op.key == key && key in s.rows && ReachesBreaker(setup, key, s.rows[key], op.world) {
        TimedTaskFails(op.world);
        OneMoreInOrder(before, Call(op.world.startedAt, TimedTask(op.world), op.world.finishedAt));
      } else {
        assert before + [] == before;
      }
      if before != [] {
        var i :| 0 <= i < n && ops[i].TestOp? && ops[i].key == key && before[|before| - 1].end == ops[i].world.finishedAt;
      }
    }
  }

  /**
   * Over every run in which the adapter of an integration always fails, tested up
   * to `now`: it is called at most (retries + 1) * (threshold + trials) times,
   * with one trial per reset time since the breaker opened, however credentials,
   * egress and the database behave.
   */
  lemma FailingAdapterIsSpared(setup: Setup, ops: seq<Op>, key: Key, now: int)
    requires setup.breaker.failureThreshold >= 1 && setup.breaker.resetTimeoutMs >= 1 && FailsInOrder(ops, key)
    requires forall i :: 0 <= i < |ops| && ops[i].TestOp? && ops[i].key == key ==> ops[i].world.finishedAt <= now
    ensures var o, calls := setup.breaker, CallsOf(setup, ops, key);
            var since := FirstOpened(calls, o, setup.retries);
            if FailuresInARow(calls, o, setup.retries) < o.failureThreshold
            then AdapterCalls(setup, ops, key) <= (setup.retries + 1) * (o.failureThreshold - 1)
            else since <= now && AdapterCalls(setup, ops, key)
                                  <= (setup.retries + 1) * (o.failureThreshold + (now - since) / o.resetTimeoutMs)
  {
    hide CallsOf, AdapterCalls, FirstOpened, FailuresInARow, InOrder, TargetCalls;
    CallsInOrder(setup, ops, key);
    AdapterCallsAreTargetCalls(setup, ops, key);
    FailingTargetIsSpared(CallsOf(setup, ops, key), setup.breaker, setup.retries, now);
  }

  // ---- credential references end as listed ---------------------------------------------------------

  ghost predicate UniqueNames(refs: seq<CredentialRef>) {
    forall i, j :: 0 <= i < j < |refs| ==> refs[i].name != refs[j].name
  }

  lemma {:induction false} RetainKeepsListed(refs: seq<CredentialRef>, names: set<string>)
    requires UniqueNames(refs)
    ensures UniqueNames(Retain(refs, names))
    ensures forall r :: r in Retain(refs, names) <==> r in refs && r.name in names
  {
    if refs != [] {
      RetainKeepsListed(refs[1..], names);
      assert forall r :: r in refs <==> r == refs[0] || r in refs[1..];
    }
  }

  lemma {:induction false} UpsertReplacesName(refs: seq<CredentialRef>, ref: CredentialRef)
    requires UniqueNames(refs)
    ensures UniqueNames(Upsert(refs, ref))
    ensures forall r :: r in Upsert(refs, ref) <==> r == ref || (r in refs && r.name != ref.name)
  {
    if refs != [] {
      UpsertReplacesName(refs[1..], ref);
      assert forall r :: r in refs <==> r == refs[0] || r in refs[1..];
    }
  }

  /** The last entry of the list with that name. */
  ghost predicate LastListed(list: seq<CredentialInput>, r: CredentialRef) {
    exists k :: 0 <= k < |list| && LastNamed(list, k) && ToRef(list[k]) == r
  }

  ghost predicate LastNamed(list: seq<CredentialInput>, k: int) {
    0 <= k < |list| && forall j :: k < j < |list| ==> list[j].name != list[k].name
  }

  lemma LastNamedStep(list: seq<CredentialInput>, k: nat)
    requires k < |list| - 1
    ensures var n := |list| - 1;
            LastNamed(list, k) <==> LastNamed(list[..n], k) && list[k].name != list[n].name
  {
    assert forall j :: k < j < |list| - 1 ==> list[..|list| - 1][j] == list[j];
  }

  lemma LastListedStep(list: seq<CredentialInput>, r: CredentialRef)
    requires list != []
    ensures var n := |list| - 1;
            LastListed(list, r) <==> r == ToRef(list[n]) || (LastListed(list[..n], r) && r.name != list[n].name)
  {
    var n := |list| - 1;
    var before := list[..n];
    assert LastNamed(list, n);
    hide ToRef, LastNamed;
    if LastListed(list, r) && r != ToRef(list[n]) {
      var k :| 0 <= k < |list| && LastNamed(list, k) && ToRef(list[k]) == r;
      LastNamedStep(list, k);
      assert ToRef(before[k]) == r;
    }
    if LastListed(before, r) && r.name != list[n].name {
      var k :| 0 <= k < n && LastNamed(before, k) && ToRef(before[k]) == r;
      LastNamedStep(list, k);
      assert ToRef(list[k]) == r;
    }
  }

  lemma NamesStep(list: seq<CredentialInput>)
    requires list != []
    ensures Names(list) == Names(list[..|list| - 1]) + {list[|list| - 1].name}
  {
    var n := |list| - 1;
    forall x ensures x in Names(list) <==> x in Names(list[..n]) || x == list[n].name {
      if x in Names(list) {
        var k :| 0 <= k < |list| && list[k].name == x;
        assert k < n ==> list[..n][k].name == x;
      }
      if x in Names(list[..n]) {
        var k :| 0 <= k < n && list[..n][k].name == x;
        assert list[k].name == x;
      }
    }
  }

  lemma {:induction false} UpsertAllEndsAsListed(refs: seq<CredentialRef>, list: seq<CredentialInput>)
    requires UniqueNames(refs)
    ensures UniqueNames(UpsertAll(refs, list))
    ensures forall r :: r in UpsertAll(refs, list) <==> LastListed(list, r) || (r in refs && r.name !in Names(list))
  {
    if list != [] {
      var n := |list| - 1;
      UpsertAllEndsAsListed(refs, list[..n]);
      UpsertReplacesName(UpsertAll(refs, list[..n]), ToRef(list[n]));
      NamesStep(list);
      forall r ensures r in UpsertAll(refs, list) <==> LastListed(list, r) || (r in refs && r.name !in Names(list)) {
        LastListedStep(list, r);
      }
    }
  }

  /**
   * After a configuration that lists references, each listed name has exactly
   * its last entry and nothing else is left. With an empty list only a row
   * named `__none__` survives. When the database stops after m upserts this holds
   * of the first m entries, beside what was there under the listed names.
   */
  lemma ReferencesEndAsListed(existing: Option<Row>, input: ConfigInput, n: nat)
    requires input.credentialReferences.Some?
    requires existing.Some? ==> UniqueNames(existing.value.refs)
    requires n >= 2
    ensures var list, refs := input.credentialReferences.value, ConfiguredRow(existing, input, n).refs;
            var was := GetOr(existing, BLANK).refs;
            var m := if n - 2 <= |list| then n - 2 else |list|;
            && UniqueNames(refs)
            && (forall r :: r in refs <==>
                  LastListed(list[..m], r) || (r in was && r.name in KeptNames(list) && r.name !in Names(list[..m])))
            && (n - 2 >= |list| && list != [] ==> forall r :: r in refs <==> LastListed(list, r))
            && (n - 2 >= |list| && list == [] ==> forall r :: r in refs <==> r in was && r.name == "__none__")
  {
    hide LastListed, Retain, UpsertAll;
    var list := input.credentialReferences.value;
    var refs := GetOr(existing, BLANK).refs;
    var m := if n - 2 <= |list| then n - 2 else |list|;
    assert UniqueNames([]) by { NoNames(); }
    RetainKeepsListed(refs, KeptNames(list));
    UpsertAllEndsAsListed(Retain(refs, KeptNames(list)), list[..m]);
    assert m == |list| ==> list[..m] == list;
    if list == [] {
      NothingListed();
    }
  }

  lemma NothingListed()
    ensures forall r :: !LastListed([], r)
    ensures Names([]) == {}
  {
  }

  /** Names stay unique in every reachable row, and only listing references changes them. */
  lemma {:induction false} ReferencesStayUnique(setup: Setup, ops: seq<Op>, key: Key)
    ensures key in Run(setup, ops).rows ==> UniqueNames(Run(setup, ops).rows[key].refs)
  {
    if ops != [] {
      var n := |ops| - 1;
      var s, op := Run(setup, ops[..n]), ops[n];
      ReferencesStayUnique(setup, ops[..n], key);
      hide UniqueNames, Guarded, Resolved, Run, ConfiguredRow;
      RunUnfolds(setup, ops);
      StepFrame(setup, s, op, key);
      assert UniqueNames([]) by { NoNames(); }
      if op.key == key && op.ConfigureOp? && op.accepts > 0 {
        ConfiguredNamesUnique(Find(s, key), op.input, op.accepts);
      }
    }
  }

  lemma NoNames()
    ensures UniqueNames([])
  {
  }

  lemma ConfiguredNamesUnique(existing: Option<Row>, input: ConfigInput, n: nat)
    requires existing.Some? ==> UniqueNames(existing.value.refs)
    requires n > 0
    ensures UniqueNames(ConfiguredRow(existing, input, n).refs)
  {
    assert UniqueNames([]) by { NoNames(); }
    if input.credentialReferences.Some? && n >= 2 {
      ReferencesEndAsListed(existing, input, n);
    }
  }
}
