// Email and password sign-in with an authenticator code, and the configuration
// checks that make the code compulsory where it is deployed.
module PasswordLogin {
  import opened Text
  import opened Writes
  import opened Totp

  // ---- configuration ---------------------------------------------------------------------

  datatype NodeEnv = DEVELOPMENT | TEST | STAGING | PRODUCTION

  /** The environment variables that decide how people sign in; None is unset. */
  datatype SignInEnv = SignInEnv(
    nodeEnv: NodeEnv, databaseUrl: Option<string>, cookieSecure: Option<bool>, sameSiteNone: bool,
    oidcIssuerUrl: Option<string>, oidcClientId: Option<string>, oidcClientSecret: Option<string>,
    passwordLoginEnabled: Option<bool>, allowedEmails: string, requireMfa: Option<bool>, mfaKey: Option<string>,
    sessionTtlMs: nat, breakGlassMs: nat)

  datatype ConfigError =
    | DATABASE_URL | COOKIE_SECURE | COOKIE_SAMESITE | OIDC_PARTIAL | OIDC_HTTP | NO_WAY_TO_SIGN_IN
    | ALLOWED_EMAILS | REQUIRE_MFA | MFA_KEY_LENGTH | MFA_KEY_MISSING

  datatype Config = Config(
    oidc: bool, passwordLoginEnabled: bool, allowedEmails: seq<string>, requireMfa: bool, mfaKey: Option<string>,
    sessionTtlMs: nat, breakGlassMs: nat)

  datatype Loaded = Valid(config: Config) | Invalid(errors: seq<ConfigError>)

  predicate IsDeployed(env: SignInEnv) {
    env.nodeEnv == STAGING || env.nodeEnv == PRODUCTION
  }

  predicate OidcEnabled(env: SignInEnv) {
    Truthy(env.oidcIssuerUrl) && Truthy(env.oidcClientId) && Truthy(env.oidcClientSecret)
  }

  predicate OidcMentioned(env: SignInEnv) {
    Truthy(env.oidcIssuerUrl) || Truthy(env.oidcClientId) || Truthy(env.oidcClientSecret)
  }

  predicate IsHttp(url: Option<string>) {
    url.Some? && "http:" <= url.value
  }

  function Or(o: Option<bool>, default: bool): bool {
    if o.Some? then o.value else default
  }

  /** The entries of a comma-separated list, trimmed and lower-cased, empty ones dropped. */
  function Emails(parts: seq<string>): seq<string> {
    if parts == [] then []
    else
      var e := Lower(Trim(parts[|parts| - 1]));
      Emails(parts[..|parts| - 1]) + (if e != "" then [e] else [])
  }

  /** The sign-in part of the configuration that an environment asks for. */
  function ConfigOf(env: SignInEnv): Config {
    Config(OidcEnabled(env), Or(env.passwordLoginEnabled, !OidcEnabled(env)), Emails(Split(env.allowedEmails, ',')),
           Or(env.requireMfa, IsDeployed(env)), env.mfaKey, env.sessionTtlMs, env.breakGlassMs)
  }

  /** The environment asks for something that is not allowed. */
  predicate Refused(env: SignInEnv, keyLength: string -> nat, e: ConfigError) {
    RefusedFor(env, ConfigOf(env), keyLength, e)
  }

  predicate RefusedFor(env: SignInEnv, c: Config, keyLength: string -> nat, e: ConfigError) {
    || (e == DATABASE_URL && IsDeployed(env) && !Truthy(env.databaseUrl))
    || (e == COOKIE_SECURE && IsDeployed(env) && !Or(env.cookieSecure, true))
    || (e == COOKIE_SAMESITE && env.sameSiteNone && !Or(env.cookieSecure, true))
    || (e == OIDC_PARTIAL && OidcMentioned(env) && !OidcEnabled(env))
    || (e == OIDC_HTTP && IsDeployed(env) && c.oidc && IsHttp(env.oidcIssuerUrl))
    || (e == NO_WAY_TO_SIGN_IN && !c.oidc && !c.passwordLoginEnabled)
    || (e == ALLOWED_EMAILS && IsDeployed(env) && c.oidc && c.passwordLoginEnabled && c.allowedEmails == [])
    || (e == REQUIRE_MFA && IsDeployed(env) && c.passwordLoginEnabled && !c.requireMfa)
    || (e == MFA_KEY_LENGTH && env.mfaKey.Some? && keyLength(env.mfaKey.value) != 32)
    || (e == MFA_KEY_MISSING && c.passwordLoginEnabled && c.requireMfa && !Truthy(env.mfaKey))
  }

  /** Pushes an error when the check it belongs to fails. */
  function Noted(errors: seq<ConfigError>, failed: bool, e: ConfigError): (r: seq<ConfigError>)
    ensures forall x :: x in r <==> x in errors || (failed && x == e)
  {
    if failed then errors + [e] else errors
  }

  /** Collects every problem with the configuration c that env asks for. */
  method CollectErrors(env: SignInEnv, c: Config, keyLength: string -> nat) returns (errors: seq<ConfigError>)
    ensures forall e :: e in errors <==> RefusedFor(env, c, keyLength, e)
  {
    hide Or, OidcEnabled, OidcMentioned, IsDeployed, Truthy, IsHttp, Noted;
    var isDeployed := IsDeployed(env);
    var cookieSecure := Or(env.cookieSecure, true);
    errors := Noted([], isDeployed && !Truthy(env.databaseUrl), DATABASE_URL);
    errors := Noted(errors, isDeployed && !cookieSecure, COOKIE_SECURE);
    errors := Noted(errors, env.sameSiteNone && !cookieSecure, COOKIE_SAMESITE);
    errors := Noted(errors, OidcMentioned(env) && !OidcEnabled(env), OIDC_PARTIAL);
    errors := Noted(errors, isDeployed && c.oidc && IsHttp(env.oidcIssuerUrl), OIDC_HTTP);
    errors := Noted(errors, !c.oidc && !c.passwordLoginEnabled, NO_WAY_TO_SIGN_IN);
    errors := Noted(errors, isDeployed && c.oidc && c.passwordLoginEnabled && c.allowedEmails == [], ALLOWED_EMAILS);
    errors := Noted(errors, isDeployed && c.passwordLoginEnabled && !c.requireMfa, REQUIRE_MFA);
    errors := Noted(errors, env.mfaKey.Some? && keyLength(env.mfaKey.value) != 32, MFA_KEY_LENGTH);
    errors := Noted(errors, c.passwordLoginEnabled && c.requireMfa && !Truthy(env.mfaKey), MFA_KEY_MISSING);
  }

  /** Starts only without problems, and reports all of them together. */
  method LoadSignInConfig(env: SignInEnv, keyLength: string -> nat) returns (r: Loaded)
    ensures r.Valid? <==> forall e :: !Refused(env, keyLength, e)
    ensures r.Valid? ==> r.config == ConfigOf(env)
    ensures r.Invalid? ==> forall e :: e in r.errors <==> Refused(env, keyLength, e)
  {
    hide RefusedFor, ConfigOf;
    var config := ConfigOf(env);
    var errors := CollectErrors(env, config, keyLength);
    if errors != [] {
      assert Refused(env, keyLength, errors[0]);
      return Invalid(errors);
    }
    return Valid(config);
  }

  /** The configuration, field by field, in terms of the variables. */
  lemma ConfigFollows(env: SignInEnv)
    ensures var c := ConfigOf(env);
            && (c.oidc <==> env.oidcIssuerUrl.Some? && env.oidcIssuerUrl.value != "" && env.oidcClientId.Some?
                            && env.oidcClientId.value != "" && env.oidcClientSecret.Some? && env.oidcClientSecret.value != "")
            && (env.passwordLoginEnabled.Some? ==> c.passwordLoginEnabled == env.passwordLoginEnabled.value)
            && (env.passwordLoginEnabled == None ==> c.passwordLoginEnabled == !c.oidc)
            && (env.requireMfa.Some? ==> c.requireMfa == env.requireMfa.value)
            && (env.requireMfa == None ==> (c.requireMfa <==> env.nodeEnv in {STAGING, PRODUCTION}))
            && (forall e :: e in c.allowedEmails <==> Listed(Split(env.allowedEmails, ','), e))
  {
    hide Listed, Split, Emails;
    EmailsAre(Split(env.allowedEmails, ','));
  }

  /** One of the parts is e in some case, between white space. */
  ghost predicate Listed(parts: seq<string>, e: string) {
    e != "" && exists k :: 0 <= k < |parts| && Lower(Trim(parts[k])) == e
  }

  lemma {:induction false} EmailsAre(parts: seq<string>)
    ensures forall e :: e in Emails(parts) <==> Listed(parts, e)
  {
    hide Lower, Trim;
    if parts != [] {
      var n := |parts| - 1;
      EmailsAre(parts[..n]);
      forall e ensures Listed(parts, e) <==> Listed(parts[..n], e) || (e != "" && Lower(Trim(parts[n])) == e) {
        if Listed(parts, e) {
          var k :| 0 <= k < |parts| && Lower(Trim(parts[k])) == e;
          assert k < n ==> parts[..n][k] == parts[k];
        }
        if Listed(parts[..n], e) {
          var k :| 0 <= k < n && Lower(Trim(parts[..n][k])) == e;
          assert parts[k] == parts[..n][k];
        }
      }
    }
  }

  /** The environment's own mistakes, in terms of the variables. */
  lemma EnvironmentRefused(env: SignInEnv, keyLength: string -> nat)
    ensures var deployed := env.nodeEnv in {STAGING, PRODUCTION};
            var secure := env.cookieSecure != Some(false);
            var mentioned := (if Truthy(env.oidcIssuerUrl) then 1 else 0) + (if Truthy(env.oidcClientId) then 1 else 0)
                       + (if Truthy(env.oidcClientSecret) then 1 else 0);
            && (Refused(env, keyLength, DATABASE_URL) <==> deployed && (env.databaseUrl == None || env.databaseUrl == Some("")))
            && (Refused(env, keyLength, COOKIE_SECURE) <==> deployed && !secure)
            && (Refused(env, keyLength, COOKIE_SAMESITE) <==> env.sameSiteNone && !secure)
            && (Refused(env, keyLength, OIDC_PARTIAL) <==> 0 < mentioned < 3)
            && (Refused(env, keyLength, OIDC_HTTP) <==> deployed && mentioned == 3 && "http:" <= env.oidcIssuerUrl.value)
            && (Refused(env, keyLength, MFA_KEY_LENGTH) <==> env.mfaKey.Some? && keyLength(env.mfaKey.value) != 32)
  {
    hide Emails, Split;
  }

  // ---- sign-in ---------------------------------------------------------------------------------

  type AdminId = string

  datatype Status = ACTIVE | DISABLED

  datatype Admin = Admin(
    email: string, passwordHash: Option<string>, status: Status,
    mfaEnabled: bool, mfaSecret: Option<string>, mfaLastUsedStep: Option<int>, lastLoginAt: Option<int>)

  /** A session and how it came about: the step whose code was used, if any. */
  datatype Session = Session(admin: AdminId, at: int, expiresAt: int, step: Option<int>)

  /** The rows sign-in touches, and every write so far. */
  datatype Store = Store(admins: map<AdminId, Admin>, sessions: seq<Session>, log: seq<Write>)

  datatype Write =
    | RecordStep(admin: AdminId, step: int, at: int)
    | OpenSession(session: Session)
    | StampLogin(admin: AdminId, at: int)

  datatype Request = Request(email: string, password: string, otp: Option<string>, nowMs: int)

  /** Foreign functions: password hashing, secret decryption, HMAC. */
  datatype Crypto = Crypto(
    verifyPassword: (string, string) -> bool, dummyHash: string, open: (string, string) -> Option<string>, hmac: Hmac)

  datatype Error =
    | PASSWORD_LOGIN_DISABLED | INVALID_CREDENTIALS | MFA_REQUIRED | MFA_NOT_CONFIGURED | MFA_SETUP_REQUIRED
    | INVALID_CODE | THROWN | DATABASE

  datatype Outcome = SignedIn(admin: AdminId) | Rejected(error: Error)

  ghost predicate HasEmail(s: Store, a: AdminId, email: string) {
    a in s.admins && s.admins[a].email == email
  }

  ghost predicate UniqueEmails(s: Store) {
    forall a, b :: a in s.admins && b in s.admins && s.admins[a].email == s.admins[b].email ==> a == b
  }

  ghost function ByEmail(s: Store, email: string): Option<AdminId> {
    if a :| HasEmail(s, a, email) then Some(a) else None
  }

  predicate PasswordOk(c: Crypto, admin: Option<Admin>, password: string) {
    if admin.Some? && Truthy(admin.value.passwordHash) then c.verifyPassword(admin.value.passwordHash.value, password)
    else c.verifyPassword(c.dummyHash, password)
  }

  /** What the second factor comes to: an error, or the step to record (None: no code was needed). */
  datatype Factor = FactorError(error: Error) | Passed(step: Option<int>)

  function SecondFactor(c: Crypto, cfg: Config, admin: Admin, r: Request): Factor {
    if admin.mfaEnabled && Truthy(admin.mfaSecret) then
      if !Truthy(r.otp) then FactorError(MFA_REQUIRED)
      else if !Truthy(cfg.mfaKey) then FactorError(MFA_NOT_CONFIGURED)
      else
        match c.open(admin.mfaSecret.value, cfg.mfaKey.value)
        case None => FactorError(THROWN)
        case Some(secret) =>
          match Verify(c.hmac, secret, r.otp.value, r.nowMs, admin.mfaLastUsedStep)
          case Matched(step) => Passed(Some(step))
          case NoMatch => FactorError(INVALID_CODE)
          case Threw(_) => FactorError(THROWN)
    else if cfg.requireMfa then FactorError(MFA_SETUP_REQUIRED)
    else Passed(None)
  }

  /** With SSO on, password sign-in is break-glass and its sessions are shorter. */
  function Lifetime(cfg: Config): nat {
    if cfg.oidc && cfg.breakGlassMs < cfg.sessionTtlMs then cfg.breakGlassMs else cfg.sessionTtlMs
  }

  predicate OnList(cfg: Config, email: string) {
    cfg.allowedEmails == [] || email in cfg.allowedEmails
  }

  function NormalizeEmail(email: string): string {
    Lower(Trim(email))
  }

  function Apply(s: Store, w: Write): Store {
    var t := s.(log := s.log + [w]);
    match w
    case RecordStep(a, step, _) =>
      if a in s.admins then t.(admins := s.admins[a := s.admins[a].(mfaLastUsedStep := Some(step))]) else t
    case OpenSession(session) => t.(sessions := s.sessions + [session])
    case StampLogin(a, at) =>
      if a in s.admins then t.(admins := s.admins[a := s.admins[a].(lastLoginAt := Some(at))]) else t
  }

  /** The writes of an accepted sign-in, in order: the step that was used, the session, the time. */
  function SignInWrites(cfg: Config, a: AdminId, step: Option<int>, nowMs: int): seq<Write> {
    (if step.Some? then [RecordStep(a, step.value, nowMs)] else [])
    + [OpenSession(Session(a, nowMs, nowMs + Lifetime(cfg), step)), StampLogin(a, nowMs)]
  }

  /** What a sign-in decides and writes. */
  ghost function Plan(c: Crypto, cfg: Config, s: Store, r: Request): (Outcome, seq<Write>) {
    if !cfg.passwordLoginEnabled then (Rejected(PASSWORD_LOGIN_DISABLED), [])
    else
      var email := NormalizeEmail(r.email);
      match ByEmail(s, email)
      case None => (Rejected(INVALID_CREDENTIALS), [])
      case Some(a) =>
        var admin := s.admins[a];
        if admin.status == DISABLED || !PasswordOk(c, Some(admin), r.password) || !OnList(cfg, email)
        then (Rejected(INVALID_CREDENTIALS), [])
        else
          match SecondFactor(c, cfg, admin, r)
          case FactorError(e) => (Rejected(e), [])
          case Passed(step) => (SignedIn(a), SignInWrites(cfg, a, step, r.nowMs))
  }

  /**
   * A sign-in while the database takes n more writes. With n equal to their
   * number a successful one still fails, on reading the account back.
   */
  ghost function Attempted(c: Crypto, cfg: Config, s: Store, r: Request, n: nat): (Outcome, Store) {
    var (outcome, ws) := Plan(c, cfg, s, r);
    (if n < |ws| || (n == |ws| && outcome.SignedIn?) then Rejected(DATABASE) else outcome, Execute(Apply, s, Cut(ws, n)))
  }

  lemma {:induction false} ExecuteLogs(s: Store, writes: seq<Write>)
    ensures Execute(Apply, s, writes).log == s.log + writes
  {
    if writes == [] {
      assert s.log + [] == s.log;
    } else {
      ExecuteLogs(s, writes[..|writes| - 1]);
    }
  }

  /** The stores a cut sign-in can leave. */
  lemma SignInStages(cfg: Config, s: Store, a: AdminId, step: Option<int>, nowMs: int, n: nat)
    requires a in s.admins
    ensures var ws := SignInWrites(cfg, a, step, nowMs);
            var t := Execute(Apply, s, Cut(ws, n));
            var used := if step.Some? && n > 0 then s.admins[a].(mfaLastUsedStep := step) else s.admins[a];
            && t.log == s.log + Cut(ws, n)
            && t.sessions == s.sessions + (if n + 2 > |ws| then [Session(a, nowMs, nowMs + Lifetime(cfg), step)] else [])
            && t.admins == s.admins[a := if n < |ws| then used else used.(lastLoginAt := Some(nowMs))]
  {
    var ws := SignInWrites(cfg, a, step, nowMs);
    SignInChain(cfg, s, a, step, nowMs);
    ExecuteLogs(s, Cut(ws, n));
    hide Lifetime, Execute, Cut, SignInWrites;
    assert s.admins[a := s.admins[a]] == s.admins;
  }

  class AuthService {
    const config: Config
    const crypto: Crypto
    var admins: map<AdminId, Admin>
    var sessions: seq<Session>
    ghost var log: seq<Write>
    /** How many more writes the database takes. */
    var accepts: nat

    ghost function Abs(): Store
      reads this
    {
      Store(admins, sessions, log)
    }

    constructor (config: Config, crypto: Crypto, admins: map<AdminId, Admin>, accepts: nat)
      ensures this.config == config && this.crypto == crypto && Abs() == Store(admins, [], []) && this.accepts == accepts
    {
      this.config, this.crypto, this.admins, sessions, log, this.accepts := config, crypto, admins, [], [], accepts;
    }

    /** One write to a row that exists: it takes effect whole, or the database refuses it. */
    method Put(w: Write) returns (ok: bool)
      requires !w.OpenSession? ==> w.admin in admins
      modifies this
      ensures ok <==> old(accepts) > 0
      ensures ok ==> Abs() == Apply(old(Abs()), w) && accepts == old(accepts) - 1
      ensures !ok ==> Abs() == old(Abs()) && accepts == 0
    {
      if accepts == 0 {
        return false;
      }
      match w {
        case RecordStep(a, step, _) => admins := admins[a := admins[a].(mfaLastUsedStep := Some(step))];
        case OpenSession(session) => sessions := sessions + [session];
        case StampLogin(a, at) => admins := admins[a := admins[a].(lastLoginAt := Some(at))];
      }
      log, accepts := log + [w], accepts - 1;
      return true;
    }

    method FindByEmail(email: string) returns (a: Option<AdminId>)
      requires UniqueEmails(Abs())
      ensures a == ByEmail(Abs(), email)
    {
      if x :| x in admins && admins[x].email == email {
        assert HasEmail(Abs(), x, email);
        return Some(x);
      }
      assert forall x :: !HasEmail(Abs(), x, email);
      return None;
    }

    /** The sign-in route: the deployment-wide switch, then password and second factor. */
    method SignIn(r: Request) returns (outcome: Outcome)
      requires UniqueEmails(Abs())
      modifies this
      ensures (outcome, Abs()) == Attempted(crypto, config, old(Abs()), r, old(accepts))
      ensures UniqueEmails(Abs())
    {
      hide NormalizeEmail, Verify, Execute, Lifetime, Cut;
      ghost var s, n := Abs(), accepts;
      NoWrites(Apply, s, n);
      if !config.passwordLoginEnabled {
        return Rejected(PASSWORD_LOGIN_DISABLED);
      }
      var email := NormalizeEmail(r.email);
      var notOnList := |config.allowedEmails| > 0 && email !in config.allowedEmails;
      var found := FindByEmail(email);
      var passwordOk := PasswordOk(crypto, if found.Some? then Some(admins[found.value]) else None, r.password);
      if found == None || admins[found.value].status == DISABLED || !passwordOk || notOnList {
        return Rejected(INVALID_CREDENTIALS);
      }
      var a := found.value;
      var admin := admins[a];
      var used: Option<int> := None;
      if admin.mfaEnabled && Truthy(admin.mfaSecret) {
        if !Truthy(r.otp) {
          return Rejected(MFA_REQUIRED);
        }
        if !Truthy(config.mfaKey) {
          return Rejected(MFA_NOT_CONFIGURED);
        }
        var secret := crypto.open(admin.mfaSecret.value, config.mfaKey.value);
        if secret == None {
          return Rejected(THROWN);
        }
        var verdict := VerifyTotp(crypto.hmac, secret.value, r.otp.value, r.nowMs, admin.mfaLastUsedStep);
        if verdict.Threw? {
          return Rejected(THROWN);
        }
        if verdict.NoMatch? {
          return Rejected(INVALID_CODE);
        }
        used := Some(verdict.step);
      } else if config.requireMfa {
        return Rejected(MFA_SETUP_REQUIRED);
      }
      assert SecondFactor(crypto, config, admin, r) == Passed(used);
      assert Plan(crypto, config, s, r) == (SignedIn(a), SignInWrites(config, a, used, r.nowMs));
      outcome := Complete(a, used, r.nowMs);
    }

    /** The writes of an accepted sign-in, and the account read back. */
    method Complete(a: AdminId, used: Option<int>, nowMs: int) returns (outcome: Outcome)
      requires UniqueEmails(Abs()) && a in admins
      modifies this
      ensures var ws := SignInWrites(config, a, used, nowMs);
              && Abs() == Execute(Apply, old(Abs()), Cut(ws, old(accepts)))
              && outcome == if old(accepts) <= |ws| then Rejected(DATABASE) else SignedIn(a)
      ensures UniqueEmails(Abs())
    {
      hide Execute, Lifetime, Cut, Apply, UniqueEmails, SignInWrites;
      ghost var s := Abs();
      SignInChain(config, s, a, used, nowMs);
      var ok := true;
      if used.Some? {
        ApplyKeepsEmails(Abs(), RecordStep(a, used.value, nowMs));
        ok := Put(RecordStep(a, used.value, nowMs));
        if !ok {
          return Rejected(DATABASE);
        }
      }
      ApplyKeepsEmails(Abs(), OpenSession(Session(a, nowMs, nowMs + Lifetime(config), used)));
      ok := Put(OpenSession(Session(a, nowMs, nowMs + Lifetime(config), used)));
      if !ok {
        return Rejected(DATABASE);
      }
      ApplyKeepsEmails(Abs(), StampLogin(a, nowMs));
      ok := Put(StampLogin(a, nowMs));
      if !ok || accepts == 0 {
        return Rejected(DATABASE);
      }
      return SignedIn(a);
    }
  }

  /** The writes of an accepted sign-in, one by one. */
  lemma SignInChain(cfg: Config, s: Store, a: AdminId, used: Option<int>, nowMs: int)
    ensures var ws := SignInWrites(cfg, a, used, nowMs);
            var k := if used.Some? then 1 else 0;
            var recorded := if used.Some? then Apply(s, RecordStep(a, used.value, nowMs)) else s;
            var inside := Apply(recorded, OpenSession(Session(a, nowMs, nowMs + Lifetime(cfg), used)));
            && |ws| == k + 2
            && Execute(Apply, s, Cut(ws, 0)) == s && Execute(Apply, s, Cut(ws, k)) == recorded
            && Execute(Apply, s, Cut(ws, k + 1)) == inside
            && forall n: nat :: n >= k + 2 ==> Execute(Apply, s, Cut(ws, n)) == Apply(inside, StampLogin(a, nowMs))
  {
    hide Execute, Lifetime, Cut, Apply;
    var ws := SignInWrites(cfg, a, used, nowMs);
    NextWrite(Apply, s, ws, 0);
    NextWrite(Apply, s, ws, 1);
    if used.Some? {
      NextWrite(Apply, s, ws, 2);
    }
    forall n: nat | n >= |ws| ensures Cut(ws, n) == Cut(ws, |ws|) {
      CutAll(ws, n);
      CutAll(ws, |ws|);
    }
  }

  lemma ApplyKeepsEmails(s: Store, w: Write)
    ensures Apply(s, w).admins.Keys == s.admins.Keys
    ensures UniqueEmails(s) ==> UniqueEmails(Apply(s, w))
  {
  }

  // ---- runs ------------------------------------------------------------------------------------------

  /** One sign-in of a run, and the writes the database takes meanwhile. */
  datatype Attempt = Attempt(request: Request, accepts: nat)

  ghost function RunAll(c: Crypto, cfg: Config, s: Store, run: seq<Attempt>): Store {
    if run == [] then s
    else
      var last := run[|run| - 1];
      Attempted(c, cfg, RunAll(c, cfg, s, run[..|run| - 1]), last.request, last.accepts).1
  }

  predicate Uses(w: Write, a: AdminId) {
    w.RecordStep? && w.admin == a
  }

  predicate UsedStep(session: Session, a: AdminId) {
    session.admin == a && session.step.Some?
  }

  /** The step is the last recorded one of a, or an earlier one. */
  predicate UsedUp(s: Store, a: AdminId, step: int) {
    a in s.admins && s.admins[a].mfaLastUsedStep.Some? && step <= s.admins[a].mfaLastUsedStep.value
  }

  /** Steps recorded for a since `from`: strictly later each time, each near its own moment. */
  ghost predicate RecordedStepsIncrease(s: Store, from: nat, a: AdminId) {
    && from <= |s.log|
    && (forall i, j :: from <= i < j < |s.log| && Uses(s.log[i], a) && Uses(s.log[j], a) ==> s.log[i].step < s.log[j].step)
    && (forall i :: from <= i < |s.log| && Uses(s.log[i], a) ==>
          -1 <= s.log[i].step - TimeStep(s.log[i].at) <= 1 && UsedUp(s, a, s.log[i].step))
  }

  /** Sessions of a since `from`: a strictly later step each time, none used by two. */
  ghost predicate SessionStepsIncrease(s: Store, from: nat, a: AdminId) {
    && from <= |s.sessions|
    && (forall i, j :: from <= i < j < |s.sessions| && UsedStep(s.sessions[i], a) && UsedStep(s.sessions[j], a) ==>
          s.sessions[i].step.value < s.sessions[j].step.value)
    && (forall i :: from <= i < |s.sessions| && UsedStep(s.sessions[i], a) ==> UsedUp(s, a, s.sessions[i].step.value))
  }

  /** Every session since `from` that used a step has it recorded. */
  ghost predicate SessionsAreRecorded(s: Store, from: nat) {
    forall i :: from <= i < |s.sessions| && s.sessions[i].step.Some? ==>
                  RecordStep(s.sessions[i].admin, s.sessions[i].step.value, s.sessions[i].at) in s.log
  }

  /**
   * Wherever a sign-in stops: a refused one changes nothing; an accepted one
   * touches one account and records the step it used, later than the previous
   * one and near the current one, before it opens its one session.
   */
  lemma LoginUsesLaterStep(c: Crypto, cfg: Config, s: Store, r: Request, n: nat, a: AdminId)
    ensures var t := Attempted(c, cfg, s, r, n).1;
            var (outcome, ws) := Plan(c, cfg, s, r);
            && (outcome.Rejected? || n == 0 ==> t == s)
            && (outcome.SignedIn? ==>
                  && outcome.admin in s.admins && t.admins.Keys == s.admins.Keys && 2 <= |ws| <= 3
                  && (a != outcome.admin && a in s.admins ==> t.admins[a] == s.admins[a])
                  && t.log == s.log + Cut(ws, n)
                  && var session := Session(outcome.admin, r.nowMs, r.nowMs + Lifetime(cfg), StepOf(ws));
                    && t.sessions == s.sessions + (if n + 2 > |ws| then [session] else [])
                    && ws[|ws| - 2] == OpenSession(session) && ws[|ws| - 1].StampLogin?
                    && (session.step == None ==>
                          |ws| == 2 && t.admins[outcome.admin].mfaLastUsedStep == s.admins[outcome.admin].mfaLastUsedStep)
                    && (session.step.Some? ==>
                          && |ws| == 3 && ws[0] == RecordStep(outcome.admin, session.step.value, r.nowMs)
                          && (n > 0 ==> t.admins[outcome.admin].mfaLastUsedStep == session.step)
                          && Eligible(session.step.value, s.admins[outcome.admin].mfaLastUsedStep)
                          && -1 <= session.step.value - TimeStep(r.nowMs) <= 1))
  {
    hide Plan, Execute, Lifetime, Cut, TimeStep, Eligible;
    var (outcome, ws) := Plan(c, cfg, s, r);
    NoWrites(Apply, s, n);
    if outcome.SignedIn? {
      var step := AcceptedPlan(c, cfg, s, r);
      SignInStages(cfg, s, outcome.admin, step, r.nowMs, n);
      NextWrite(Apply, s, ws, 0);
    } else {
      RefusedPlan(c, cfg, s, r);
    }
  }

  lemma RefusedPlan(c: Crypto, cfg: Config, s: Store, r: Request)
    requires Plan(c, cfg, s, r).0.Rejected?
    ensures Plan(c, cfg, s, r).1 == []
  {
    hide Verify, NormalizeEmail, SignInWrites;
  }

  /** An accepted sign-in's writes, and the step they begin with. */
  lemma AcceptedPlan(c: Crypto, cfg: Config, s: Store, r: Request) returns (step: Option<int>)
    requires Plan(c, cfg, s, r).0.SignedIn?
    ensures var (outcome, ws) := Plan(c, cfg, s, r);
            && outcome.admin in s.admins && ws == SignInWrites(cfg, outcome.admin, step, r.nowMs)
            && (step.Some? ==>
                  && Eligible(step.value, s.admins[outcome.admin].mfaLastUsedStep)
                  && -1 <= step.value - TimeStep(r.nowMs) <= 1)
            && (cfg.requireMfa ==> step.Some?)
            && s.admins[outcome.admin].email == NormalizeEmail(r.email)
            && (cfg.allowedEmails != [] ==> NormalizeEmail(r.email) in cfg.allowedEmails)
  {
    hide Verify, NormalizeEmail, SignInWrites, TimeStep, Eligible;
    var admin := s.admins[Plan(c, cfg, s, r).0.admin];
    step := SecondFactor(c, cfg, admin, r).step;
    if step.Some? {
      var secret := c.open(admin.mfaSecret.value, cfg.mfaKey.value);
      VerifyIsExact(c.hmac, secret.value, r.otp.value, r.nowMs, admin.mfaLastUsedStep);
    }
  }

  /** The step among a sign-in's writes, if it used one. */
  function StepOf(ws: seq<Write>): Option<int> {
    if ws != [] && ws[0].RecordStep? then Some(ws[0].step) else None
  }

  /**
   * Over any serial run of sign-ins, however the clock moves and wherever each
   * one stops, the steps recorded for an administrator strictly increase and lie
   * within one step of the moment they were used, so none is accepted twice; and
   * no session that used a step exists without its record.
   */
  lemma {:induction false} AcceptedStepsIncrease(c: Crypto, cfg: Config, s: Store, run: seq<Attempt>, a: AdminId)
    ensures var t := RunAll(c, cfg, s, run);
            && s.log <= t.log && s.sessions <= t.sessions
            && RecordedStepsIncrease(t, |s.log|, a)
            && SessionStepsIncrease(t, |s.sessions|, a)
            && SessionsAreRecorded(t, |s.sessions|)
  {
    hide Attempted, Truthy, RecordedStepsIncrease, SessionStepsIncrease, SessionsAreRecorded;
    if run == [] {
      NothingYet(s, a);
    } else {
      var n := |run| - 1;
      AcceptedStepsIncrease(c, cfg, s, run[..n], a);
      var before, last := RunAll(c, cfg, s, run[..n]), run[n];
      assert RunAll(c, cfg, s, run) == Attempted(c, cfg, before, last.request, last.accepts).1;
      LoginUsesLaterStep(c, cfg, before, last.request, last.accepts, a);
      AttemptKeepsRecord(c, cfg, s, before, last.request, last.accepts, a);
    }
  }

  lemma NothingYet(s: Store, a: AdminId)
    ensures RecordedStepsIncrease(s, |s.log|, a) && SessionStepsIncrease(s, |s.sessions|, a)
    ensures SessionsAreRecorded(s, |s.sessions|)
  {
  }

  lemma AttemptKeepsRecord(c: Crypto, cfg: Config, first: Store, s: Store, r: Request, n: nat, a: AdminId)
    requires first.log <= s.log && first.sessions <= s.sessions
    requires RecordedStepsIncrease(s, |first.log|, a) && SessionStepsIncrease(s, |first.sessions|, a)
    requires SessionsAreRecorded(s, |first.sessions|)
    ensures var t := Attempted(c, cfg, s, r, n).1;
            && first.log <= t.log && first.sessions <= t.sessions
            && RecordedStepsIncrease(t, |first.log|, a) && SessionStepsIncrease(t, |first.sessions|, a)
            && SessionsAreRecorded(t, |first.sessions|)
  {
    hide Attempted, Plan, Lifetime, TimeStep, RecordedStepsIncrease, SessionStepsIncrease, SessionsAreRecorded, StepOf;
    LoginUsesLaterStep(c, cfg, s, r, n, a);
    var t := Attempted(c, cfg, s, r, n).1;
    var (outcome, ws) := Plan(c, cfg, s, r);
    if outcome.SignedIn? && n > 0 {
      RecordsKept(s, t, |first.log|, a, ws, n);
      SessionsKept(s, t, |first.sessions|, a);
      LogsKept(s, t, |first.sessions|, ws, n);
    }
  }

  lemma RecordsKept(s: Store, t: Store, from: nat, a: AdminId, ws: seq<Write>, n: nat)
    requires RecordedStepsIncrease(s, from, a) && t.log == s.log + Cut(ws, n)
    requires forall k :: 1 <= k < |ws| ==> !ws[k].RecordStep?
    requires n > 0 && ws != [] && Uses(ws[0], a) ==>
               && (a in s.admins ==> Eligible(ws[0].step, s.admins[a].mfaLastUsedStep))
               && -1 <= ws[0].step - TimeStep(ws[0].at) <= 1 && UsedUp(t, a, ws[0].step)
    requires LaterStep(s, t, a)
    ensures RecordedStepsIncrease(t, from, a)
  {
    hide TimeStep;
    assert forall i :: 0 <= i < |s.log| ==> t.log[i] == s.log[i];
    forall i | |s.log| <= i < |t.log| && Uses(t.log[i], a) ensures i == |s.log| && t.log[i] == ws[0] && n > 0 {
      assert t.log[i] == ws[i - |s.log|];
    }
  }

  /** The last recorded step of a does not go back. */
  predicate LaterStep(s: Store, t: Store, a: AdminId) {
    a in s.admins ==>
      && a in t.admins
      && (s.admins[a].mfaLastUsedStep.Some? ==>
            t.admins[a].mfaLastUsedStep.Some? && s.admins[a].mfaLastUsedStep.value <= t.admins[a].mfaLastUsedStep.value)
  }

  lemma SessionsKept(s: Store, t: Store, from: nat, a: AdminId)
    requires SessionStepsIncrease(s, from, a) && s.sessions <= t.sessions && |t.sessions| <= |s.sessions| + 1
    requires LaterStep(s, t, a)
    requires |t.sessions| > |s.sessions| && UsedStep(t.sessions[|s.sessions|], a) ==>
               var step := t.sessions[|s.sessions|].step.value;
               (a in s.admins ==> Eligible(step, s.admins[a].mfaLastUsedStep)) && UsedUp(t, a, step)
    ensures SessionStepsIncrease(t, from, a)
  {
  }

  lemma LogsKept(s: Store, t: Store, from: nat, ws: seq<Write>, n: nat)
    requires SessionsAreRecorded(s, from) && s.log <= t.log && s.sessions <= t.sessions && |t.sessions| <= |s.sessions| + 1
    requires |t.sessions| > |s.sessions| && t.sessions[|s.sessions|].step.Some? ==>
               var session := t.sessions[|s.sessions|];
               && n > 0 && ws != [] && t.log == s.log + Cut(ws, n)
               && ws[0] == RecordStep(session.admin, session.step.value, session.at)
    ensures SessionsAreRecorded(t, from)
  {
    if |t.sessions| > |s.sessions| && t.sessions[|s.sessions|].step.Some? {
      assert t.log[|s.log|] == ws[0];
    }
  }

  // ---- the code is compulsory where deployed -------------------------------------------------------------

  /** A deployed configuration that loads offers some sign-in, and password sign-in only with codes. */
  lemma DeployedPasswordLoginNeedsMfa(env: SignInEnv, keyLength: string -> nat)
    requires forall e :: !Refused(env, keyLength, e)
    ensures var c := ConfigOf(env);
            && (c.oidc || c.passwordLoginEnabled)
            && (IsDeployed(env) && c.passwordLoginEnabled ==>
                  && c.requireMfa && Truthy(c.mfaKey) && keyLength(c.mfaKey.value) == 32
                  && (c.oidc ==> c.allowedEmails != []))
  {
    assert !Refused(env, keyLength, NO_WAY_TO_SIGN_IN);
    assert !Refused(env, keyLength, ALLOWED_EMAILS);
    assert !Refused(env, keyLength, REQUIRE_MFA);
    assert !Refused(env, keyLength, MFA_KEY_LENGTH);
    assert !Refused(env, keyLength, MFA_KEY_MISSING);
  }

  /**
   * Under any production or staging configuration that loads, every password
   * sign-in that opens a session, whatever comes of it, used up and recorded a
   * step, for an account on the list when single sign-on is configured.
   */
  lemma DeployedSignInUsesAStep(env: SignInEnv, keyLength: string -> nat, c: Crypto, s: Store, r: Request, n: nat)
    requires IsDeployed(env) && forall e :: !Refused(env, keyLength, e)
    requires Attempted(c, ConfigOf(env), s, r, n).0.SignedIn? || Attempted(c, ConfigOf(env), s, r, n).1.sessions != s.sessions
    ensures var t := Attempted(c, ConfigOf(env), s, r, n).1;
            |t.sessions| == |s.sessions| + 1 &&
            var session := t.sessions[|s.sessions|];
            && session.step.Some? && session.admin in s.admins && session.admin in t.admins
            && Eligible(session.step.value, s.admins[session.admin].mfaLastUsedStep)
            && t.admins[session.admin].mfaLastUsedStep == session.step
            && RecordStep(session.admin, session.step.value, r.nowMs) in t.log
            && s.admins[session.admin].email == NormalizeEmail(r.email)
            && (ConfigOf(env).oidc ==> NormalizeEmail(r.email) in ConfigOf(env).allowedEmails)
  {
    DeployedPasswordLoginNeedsMfa(env, keyLength);
    var cfg := ConfigOf(env);
    PlanNeedsPasswordLogin(c, cfg, s, r);
    hide Plan, NormalizeEmail, Refused, ConfigOf, Execute, Lifetime, TimeStep, Eligible, IsDeployed;
    LoginUsesLaterStep(c, cfg, s, r, n, "");
    assert s.sessions + [] == s.sessions;
    var (outcome, ws) := Plan(c, cfg, s, r);
    assert outcome.SignedIn? && n + 2 > |ws|;
    var step := AcceptedPlan(c, cfg, s, r);
    assert Cut(ws, n)[0] == ws[0];
  }

  lemma PlanNeedsPasswordLogin(c: Crypto, cfg: Config, s: Store, r: Request)
    ensures !cfg.passwordLoginEnabled ==> Plan(c, cfg, s, r).0.Rejected?
  {
  }

  lemma {:induction false} ExecuteKeepsEmails(s: Store, writes: seq<Write>)
    ensures var t := Execute(Apply, s, writes);
            t.admins.Keys == s.admins.Keys && forall b :: b in s.admins ==> t.admins[b].email == s.admins[b].email
  {
    if writes != [] {
      ExecuteKeepsEmails(s, writes[..|writes| - 1]);
    }
  }

  /** The session used a step that is recorded, and beside single sign-on its account is on the list. */
  ghost predicate Backed(s: Store, cfg: Config, session: Session) {
    && session.step.Some? && RecordStep(session.admin, session.step.value, session.at) in s.log
    && session.admin in s.admins
    && (cfg.oidc ==> s.admins[session.admin].email in cfg.allowedEmails)
  }

  /** Over every serial run of a deployed server, each session opened is backed so. */
  lemma {:induction false} DeployedSessionsUseSteps(
    env: SignInEnv, keyLength: string -> nat, c: Crypto, s: Store, run: seq<Attempt>)
    requires IsDeployed(env) && forall e :: !Refused(env, keyLength, e)
    ensures var t := RunAll(c, ConfigOf(env), s, run);
            && s.sessions <= t.sessions
            && forall i :: |s.sessions| <= i < |t.sessions| ==> Backed(t, ConfigOf(env), t.sessions[i])
  {
    hide Attempted, Plan, ConfigOf, Refused, IsDeployed, Backed;
    if run != [] {
      var n := |run| - 1;
      DeployedSessionsUseSteps(env, keyLength, c, s, run[..n]);
      var cfg, last := ConfigOf(env), run[n];
      var before := RunAll(c, cfg, s, run[..n]);
      DeployedAttemptIsBacked(env, keyLength, c, before, last.request, last.accepts);
      assert RunAll(c, cfg, s, run) == Attempted(c, cfg, before, last.request, last.accepts).1;
    }
  }

  lemma DeployedAttemptIsBacked(env: SignInEnv, keyLength: string -> nat, c: Crypto, s: Store, r: Request, n: nat)
    requires IsDeployed(env) && forall e :: !Refused(env, keyLength, e)
    ensures var cfg := ConfigOf(env);
            var t := Attempted(c, cfg, s, r, n).1;
            && s.sessions <= t.sessions
            && (forall session :: Backed(s, cfg, session) ==> Backed(t, cfg, session))
            && forall i :: |s.sessions| <= i < |t.sessions| ==> Backed(t, cfg, t.sessions[i])
  {
    var cfg := ConfigOf(env);
    var t := Attempted(c, cfg, s, r, n).1;
    ExecuteKeepsEmails(s, Cut(Plan(c, cfg, s, r).1, n));
    LoginUsesLaterStep(c, cfg, s, r, n, "");
    assert t.admins.Keys == s.admins.Keys && forall b :: b in s.admins ==> t.admins[b].email == s.admins[b].email;
    hide Attempted, Plan, ConfigOf, Refused, IsDeployed, Cut, Lifetime, TimeStep, Eligible, NormalizeEmail;
    var outcome := Plan(c, cfg, s, r).0;
    assert outcome.Rejected? || outcome.SignedIn?;
    assert s.log <= t.log && s.sessions <= t.sessions;
    if t.sessions != s.sessions {
      DeployedSignInUsesAStep(env, keyLength, c, s, r, n);
    }
  }

  // ---- who is let in ----------------------------------------------------------------------------------------

  /** The hash a password is checked against: the account's own, or the stand-in when it has none. */
  function HashFor(c: Crypto, admin: Admin): string {
    if admin.passwordHash.Some? && admin.passwordHash.value != "" then admin.passwordHash.value else c.dummyHash
  }

  /**
   * An enrolled account needs a code, whatever the configuration; another one gets
   * in only where none is required.
   */
  ghost predicate SecondFactorMet(c: Crypto, cfg: Config, admin: Admin, r: Request) {
    if admin.mfaEnabled && admin.mfaSecret.Some? && admin.mfaSecret.value != "" then
      && r.otp.Some? && r.otp.value != "" && cfg.mfaKey.Some? && cfg.mfaKey.value != ""
      && var secret := c.open(admin.mfaSecret.value, cfg.mfaKey.value);
        secret.Some? && Accepts(c.hmac, secret.value, r.otp.value, r.nowMs, admin.mfaLastUsedStep)
    else !cfg.requireMfa
  }

  lemma SecondFactorExactly(c: Crypto, cfg: Config, admin: Admin, r: Request)
    ensures SecondFactor(c, cfg, admin, r).Passed? <==> SecondFactorMet(c, cfg, admin, r)
  {
    hide Verify, Accepts;
    if admin.mfaEnabled && Truthy(admin.mfaSecret) && Truthy(r.otp) && Truthy(cfg.mfaKey) {
      var secret := c.open(admin.mfaSecret.value, cfg.mfaKey.value);
      if secret.Some? {
        AcceptsExactly(c.hmac, secret.value, r.otp.value, r.nowMs, admin.mfaLastUsedStep);
      }
    }
  }

  /** Exactly when a password sign-in is let in, if the database does not fail, and as whom. */
  lemma LetInExactly(c: Crypto, cfg: Config, s: Store, r: Request, a: AdminId)
    requires UniqueEmails(s)
    ensures Plan(c, cfg, s, r).0 == SignedIn(a) <==>
              && cfg.passwordLoginEnabled
              && a in s.admins && s.admins[a].email == Lower(Trim(r.email)) && s.admins[a].status == ACTIVE
              && (cfg.allowedEmails == [] || Lower(Trim(r.email)) in cfg.allowedEmails)
              && c.verifyPassword(HashFor(c, s.admins[a]), r.password)
              && SecondFactorMet(c, cfg, s.admins[a], r)
  {
    hide SecondFactor, SecondFactorMet, SignInWrites, Lower, Trim;
    if a in s.admins {
      SecondFactorExactly(c, cfg, s.admins[a], r);
      assert s.admins[a].email == Lower(Trim(r.email)) ==> HasEmail(s, a, Lower(Trim(r.email)));
    }
  }

  /** Why a sign-in is refused: the same error whatever is wrong with account, password or list. */
  lemma RefusalReasons(c: Crypto, cfg: Config, s: Store, r: Request, a: AdminId)
    requires ByEmail(s, Lower(Trim(r.email))) == Some(a)
    ensures var (outcome, ws) := Plan(c, cfg, s, r);
            var admin := s.admins[a];
            var known := admin.status == ACTIVE && c.verifyPassword(HashFor(c, admin), r.password)
                         && (cfg.allowedEmails == [] || Lower(Trim(r.email)) in cfg.allowedEmails);
            var enrolled := admin.mfaEnabled && Truthy(admin.mfaSecret);
            && (!cfg.passwordLoginEnabled <==> outcome == Rejected(PASSWORD_LOGIN_DISABLED))
            && (cfg.passwordLoginEnabled && !known <==> outcome == Rejected(INVALID_CREDENTIALS))
            && (cfg.passwordLoginEnabled && known && enrolled && !Truthy(r.otp) <==> outcome == Rejected(MFA_REQUIRED))
            && (cfg.passwordLoginEnabled && known && !enrolled && cfg.requireMfa <==> outcome == Rejected(MFA_SETUP_REQUIRED))
  {
    hide Verify, Lower, Trim, SignInWrites;
  }

  lemma NobodyIsRefused(c: Crypto, cfg: Config, s: Store, r: Request)
    requires cfg.passwordLoginEnabled && forall a :: a in s.admins ==> s.admins[a].email != Lower(Trim(r.email))
    ensures Plan(c, cfg, s, r).0 == Rejected(INVALID_CREDENTIALS)
  {
    hide Lower, Trim;
  }

  /** A session lasts as configured, and no longer than a break-glass one beside single sign-on. */
  lemma LifetimeIs(cfg: Config)
    ensures !cfg.oidc ==> Lifetime(cfg) == cfg.sessionTtlMs
    ensures cfg.oidc ==> Lifetime(cfg) <= cfg.sessionTtlMs && Lifetime(cfg) <= cfg.breakGlassMs
    ensures Lifetime(cfg) in {cfg.sessionTtlMs, cfg.breakGlassMs}
  {
  }

  /** An account without a local password. */
  ghost predicate SsoOnly(s: Store, email: string, a: AdminId) {
    ByEmail(s, email) == Some(a) && !Truthy(s.admins[a].passwordHash)
  }

  /**
   * An account without a local password is let in exactly when password sign-in
   * is on, it is ACTIVE and on the list, the stand-in hash accepts the password,
   * and the second factor passes.
   */
  lemma SsoOnlyAccountNeedsStandIn(c: Crypto, cfg: Config, s: Store, r: Request, a: AdminId)
    requires SsoOnly(s, NormalizeEmail(r.email), a)
    ensures Plan(c, cfg, s, r).0.SignedIn? <==>
              && cfg.passwordLoginEnabled && s.admins[a].status == ACTIVE && OnList(cfg, NormalizeEmail(r.email))
              && c.verifyPassword(c.dummyHash, r.password)
              && SecondFactor(c, cfg, s.admins[a], r).Passed?
  {
    hide NormalizeEmail, SecondFactor;
  }

  /**
   * The example behind it: whatever the configuration, a password that fits the
   * stand-in hash opens a session for such an account once the rest is passed.
   */
  lemma StandInOpensSession(c: Crypto, cfg: Config, s: Store, r: Request, a: AdminId, n: nat)
    requires SsoOnly(s, NormalizeEmail(r.email), a) && c.verifyPassword(c.dummyHash, r.password)
    requires cfg.passwordLoginEnabled && s.admins[a].status == ACTIVE && OnList(cfg, NormalizeEmail(r.email))
    requires SecondFactor(c, cfg, s.admins[a], r).Passed? && n > 3
    ensures var (outcome, t) := Attempted(c, cfg, s, r, n);
            outcome == SignedIn(a) && |t.sessions| == |s.sessions| + 1 && t.sessions[|s.sessions|].admin == a
  {
    SsoOnlyAccountNeedsStandIn(c, cfg, s, r, a);
    LoginUsesLaterStep(c, cfg, s, r, n, a);
    SignedInByEmail(c, cfg, s, r);
    hide Plan, Execute, Lifetime, TimeStep, NormalizeEmail, SecondFactor;
  }

  lemma SignedInByEmail(c: Crypto, cfg: Config, s: Store, r: Request)
    requires Plan(c, cfg, s, r).0.SignedIn?
    ensures ByEmail(s, NormalizeEmail(r.email)) == Some(Plan(c, cfg, s, r).0.admin)
  {
    hide NormalizeEmail, SecondFactor, SignInWrites;
  }

  /** One such case: no code is required and there is no list. */
  lemma StandInExample(c: Crypto, r: Request)
    requires c.verifyPassword(c.dummyHash, r.password)
    ensures var cfg := Config(false, true, [], false, None, 1, 1);
            var s := Store(map["a" := Admin(NormalizeEmail(r.email), None, ACTIVE, false, None, None, None)], [], []);
            SsoOnly(s, NormalizeEmail(r.email), "a") && Attempted(c, cfg, s, r, 4).0 == SignedIn("a")
  {
    hide NormalizeEmail;
    var cfg := Config(false, true, [], false, None, 1, 1);
    var s := Store(map["a" := Admin(NormalizeEmail(r.email), None, ACTIVE, false, None, None, None)], [], []);
    assert HasEmail(s, "a", NormalizeEmail(r.email));
    StandInOpensSession(c, cfg, s, r, "a", 4);
  }
}
