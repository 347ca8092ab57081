// Reads of the Stock Management adapter: a bearer token, one request, and one
// further attempt when a token is refused.
module StockAdapter {
  import opened Text
  import opened Errors
  import opened TokenCache

  /** The relevant part of the adapter context; an unset variable is None. */
  datatype Context = Context(baseUrl: Option<string>, apiToken: Option<string>, email: Option<string>, password: Option<string>)

  datatype Response = Response(status: nat, bodyText: string)

  /** What the n-th login request and the n-th read of an operation come to, and the clock of the n-th login. */
  datatype Upstream = Upstream(login: nat -> Reply, read: nat -> Result<Response, IntegrationError>, clock: nat -> int)

  datatype Auth = NoAuth | StaticToken(token: string) | PasswordLogin

  /** The requests of one operation: a login, or a read with the token it carried. */
  datatype Request = Login | Read(token: Option<string>)

  function ErrorForStatus(status: nat): IntegrationError {
    if status == 401 then IntegrationError(UNAUTHORIZED, false)
    else if status == 403 then IntegrationError(FORBIDDEN, false)
    else if status == 404 then IntegrationError(NOT_FOUND, false)
    else if status == 429 then IntegrationError(RATE_LIMITED, true)
    else Default(UPSTREAM_5XX)
  }

  /** Which refusals a retry may help with: rate limiting, server errors and unlisted statuses. */
  lemma RefusedForGood(status: nat)
    ensures !ErrorForStatus(status).retryable <==> status in {401, 403, 404}
    ensures status >= 500 ==> ErrorForStatus(status).code == UPSTREAM_5XX
  {
  }

  function AuthFor(c: Context): Auth {
    if Truthy(c.apiToken) then StaticToken(c.apiToken.value)
    else if Truthy(c.email) && Truthy(c.password) then PasswordLogin
    else NoAuth
  }

  /** The token of the n-th attempt. */
  function TokenFor(auth: Auth, up: Upstream, n: nat): Result<Option<string>, IntegrationError> {
    match auth
    case NoAuth => Ok(None)
    case StaticToken(t) => Ok(Some(t))
    case PasswordLogin =>
      match LoginOutcome(up.login(n))
      case Ok(t) => Ok(Some(t))
      case Err(e) => Err(e)
  }

  /** The whole operation: its result and its requests, in order. */
  function Fetched(c: Context, up: Upstream): (Result<Response, IntegrationError>, seq<Request>) {
    if !Truthy(c.baseUrl) then (Err(Default(CONFIG_INVALID)), []) else Attempts(AuthFor(c), up, 0)
  }

  function Attempts(auth: Auth, up: Upstream, n: nat): (Result<Response, IntegrationError>, seq<Request>)
    requires n < 2
    decreases 2 - n
  {
    var login := if auth.PasswordLogin? then [Login] else [];
    match TokenFor(auth, up, n)
    case Err(e) => (Err(e), login)
    case Ok(token) =>
      var sent := login + [Read(token)];
      match up.read(n)
      case Err(e) => (Err(e), sent)
      case Ok(res) =>
        if res.status == 401 && n == 0 && Truthy(token) then
          var (r, more) := Attempts(auth, up, 1);
          (r, sent + more)
        else if res.status >= 400 then (Err(ErrorForStatus(res.status)), sent)
        else (Ok(res), sent)
  }

  lemma TokenIs(auth: Auth, up: Upstream, n: nat)
    ensures auth.NoAuth? ==> TokenFor(auth, up, n) == Ok(None)
    ensures auth.StaticToken? ==> TokenFor(auth, up, n) == Ok(Some(auth.token))
  {
  }

  lemma AttemptsAre(auth: Auth, up: Upstream, n: nat)
    requires n < 2
    ensures var login := if auth.PasswordLogin? then [Login] else [];
            match TokenFor(auth, up, n)
            case Err(e) => Attempts(auth, up, n) == (Err(e), login)
            case Ok(token) =>
              match up.read(n)
              case Err(e) => Attempts(auth, up, n) == (Err(e), login + [Read(token)])
              case Ok(res) =>
                if res.status == 401 && n == 0 && Truthy(token) then
                  Attempts(auth, up, n) == (Attempts(auth, up, 1).0, login + [Read(token)] + Attempts(auth, up, 1).1)
                else if res.status >= 400 then Attempts(auth, up, n) == (Err(ErrorForStatus(res.status)), login + [Read(token)])
                else Attempts(auth, up, n) == (Ok(res), login + [Read(token)])
  {
    hide TokenFor, ErrorForStatus;
  }

  class StockManagementAdapter {
    const upstream: Upstream
    var sent: seq<Request>

    constructor (upstream: Upstream)
      ensures this.upstream == upstream && sent == []
    {
      this.upstream, sent := upstream, [];
    }

    /** Awaits the provider's token: nobody else is using this provider. */
    method Await(p: PasswordLoginAuthProvider, n: nat) returns (r: Result<Option<string>, IntegrationError>)
      requires p.Abs() == Empty
      modifies p, this
      ensures r == TokenFor(PasswordLogin, upstream, n) && sent == old(sent) + [Login]
      ensures p.inflight == None
    {
      var entry := p.GetAccessToken(n, upstream.clock(n));
      sent := sent + [Login];
      entry := p.LoginFinished(upstream.login(n), upstream.clock(n));
      entry := p.Cleanup(upstream.clock(n));
      return if entry.outcome.Ok? then Ok(Some(entry.outcome.value)) else Err(entry.outcome.error);
    }

    method Get(c: Context) returns (r: Result<Response, IntegrationError>)
      requires sent == []
      modifies this
      ensures (r, sent) == Fetched(c, upstream)
    {
      hide LoginOutcome, ErrorForStatus, Attempts, TokenFor;
      if !Truthy(c.baseUrl) {
        return Err(Default(CONFIG_INVALID));
      }
      var auth := AuthFor(c);
      var provider := new PasswordLoginAuthProvider(13 * 60 * 1000);
      var attempt := 0;
      while attempt < 2
        invariant attempt < 2
        invariant fresh(provider) && provider.Abs() == Empty
        invariant Attempts(auth, upstream, 0).0 == Attempts(auth, upstream, attempt).0
        invariant Attempts(auth, upstream, 0).1 == sent + Attempts(auth, upstream, attempt).1
      {
        ghost var before := sent;
        AttemptsAre(auth, upstream, attempt);
        TokenIs(auth, upstream, attempt);
        ghost var login := if auth.PasswordLogin? then [Login] else [];
        var token: Result<Option<string>, IntegrationError>;
        match auth {
          case NoAuth => token := Ok(None);
          case StaticToken(t) => token := Ok(Some(t));
          case PasswordLogin => token := Await(provider, attempt);
        }
        assert token == TokenFor(auth, upstream, attempt);
        assert sent == before + login;
        if token.Err? {
          return Err(token.error);
        }
        sent := sent + [Read(token.value)];
        assert sent == before + (login + [Read(token.value)]);
        var answer := upstream.read(attempt);
        if answer.Err? {
          return Err(answer.error);
        }
        var res := answer.value;
        if res.status == 401 && attempt == 0 && Truthy(token.value) {
          provider.OnUnauthorized(upstream.clock(attempt));
          assert before + (login + [Read(token.value)] + Attempts(auth, upstream, 1).1) == sent + Attempts(auth, upstream, 1).1;
          attempt := attempt + 1;
          continue;
        }
        if res.status >= 400 {
          return Err(ErrorForStatus(res.status));
        }
        return Ok(res);
      }
      assert false;
    }
  }

  // ---- what an operation may send ----------------------------------------------------------

  function Reads(sent: seq<Request>): nat {
    if sent == [] then 0 else (if sent[0].Read? then 1 else 0) + Reads(sent[1..])
  }

  function Logins(sent: seq<Request>): nat {
    if sent == [] then 0 else (if sent[0].Login? then 1 else 0) + Logins(sent[1..])
  }

  lemma {:induction false} CountsAdd(a: seq<Request>, b: seq<Request>)
    ensures Reads(a + b) == Reads(a) + Reads(b) && Logins(a + b) == Logins(a) + Logins(b)
  {
    if a == [] {
      assert a + b == b;
    } else {
      assert (a + b)[1..] == a[1..] + b;
      CountsAdd(a[1..], b);
    }
  }

  /** The first read was refused although it carried a token. */
  predicate TokenRefused(auth: Auth, up: Upstream) {
    && TokenFor(auth, up, 0).Ok? && Truthy(TokenFor(auth, up, 0).value)
    && up.read(0).Ok? && up.read(0).value.status == 401
  }

  /** What stopped the operation: the answer to its last request. */
  ghost predicate Explains(
    up: Upstream, sent: seq<Request>, readCount: nat, loginCount: nat, r: Result<Response, IntegrationError>)
  {
    && sent != []
    && match sent[|sent| - 1]
       case Login => loginCount > 0 && r.Err? && LoginOutcome(up.login(loginCount - 1)) == Err(r.error)
       case Read(_) =>
         && readCount > 0
         && match up.read(readCount - 1)
            case Err(e) => r == Err(e)
            case Ok(res) => if res.status < 400 then r == Ok(res) else r == Err(ErrorForStatus(res.status))
  }

  /** The requests of the n-th attempt. */
  function Sent(auth: Auth, up: Upstream, n: nat): seq<Request> {
    (if auth.PasswordLogin? then [Login] else [])
    + (if TokenFor(auth, up, n).Ok? then [Read(TokenFor(auth, up, n).value)] else [])
  }

  lemma SentCounts(auth: Auth, up: Upstream, n: nat)
    ensures Logins(Sent(auth, up, n)) == if auth.PasswordLogin? then 1 else 0
    ensures Reads(Sent(auth, up, n)) == if TokenFor(auth, up, n).Ok? then 1 else 0
    ensures auth.PasswordLogin? || TokenFor(auth, up, n).Ok?
  {
    hide TokenFor;
    var login := if auth.PasswordLogin? then [Login] else [];
    var read := if TokenFor(auth, up, n).Ok? then [Read(TokenFor(auth, up, n).value)] else [];
    CountsAdd(login, read);
    IsAuthenticated(auth, up, n);
  }

  lemma IsAuthenticated(auth: Auth, up: Upstream, n: nat)
    ensures TokenFor(auth, up, n).Err? ==> auth.PasswordLogin? && LoginOutcome(up.login(n)) == Err(TokenFor(auth, up, n).error)
  {
    hide LoginOutcome;
  }

  /** Attempt n by itself. */
  lemma OneAttempt(auth: Auth, up: Upstream, n: nat)
    requires n < 2 && !(n == 0 && TokenRefused(auth, up))
    ensures var (r, sent) := Attempts(auth, up, n);
            sent == Sent(auth, up, n) && Explains(up, sent, n + 1, n + 1, r)
  {
    hide LoginOutcome, ErrorForStatus;
  }

  lemma TwoAttempts(auth: Auth, up: Upstream)
    requires TokenRefused(auth, up)
    ensures Attempts(auth, up, 0).0 == Attempts(auth, up, 1).0
    ensures Attempts(auth, up, 0).1 == Sent(auth, up, 0) + Attempts(auth, up, 1).1
  {
    hide LoginOutcome, ErrorForStatus;
  }

  lemma AttemptsAreBounded(auth: Auth, up: Upstream)
    ensures var (r, sent) := Attempts(auth, up, 0);
            && Reads(sent) <= 2 && Logins(sent) <= 2
            && (auth.PasswordLogin? ==> Reads(sent) <= Logins(sent) <= Reads(sent) + 1)
            && (!auth.PasswordLogin? ==> Logins(sent) == 0)
            && Explains(up, sent, Reads(sent), Logins(sent), r)
            && sent == Sent(auth, up, 0) + if TokenRefused(auth, up) then Sent(auth, up, 1) else []
  {
    hide Attempts, LoginOutcome, ErrorForStatus, TokenFor, Reads, Logins;
    SentCounts(auth, up, 0);
    SentCounts(auth, up, 1);
    if TokenRefused(auth, up) {
      TwoAttempts(auth, up);
      OneAttempt(auth, up, 1);
      CountsAdd(Sent(auth, up, 0), Sent(auth, up, 1));
    } else {
      OneAttempt(auth, up, 0);
    }
  }

  /**
   * An operation sends at most two reads and two logins, and logs in only with
   * an email and a password. It makes a second attempt exactly when the first
   * read was refused with a token, each read carrying the
   * token of its own attempt. It returns only a final answer below 400,
   * and any error is that of its last request.
   */
  lemma FetchIsBounded(c: Context, up: Upstream)
    ensures var (r, sent) := Fetched(c, up);
            && Reads(sent) <= 2 && Logins(sent) <= 2
            && (Logins(sent) > 0 ==> AuthFor(c).PasswordLogin? && Reads(sent) <= Logins(sent) <= Reads(sent) + 1)
            && (r.Ok? ==> r.value.status < 400 && Reads(sent) > 0 && up.read(Reads(sent) - 1) == r)
            && (sent == [] <==> !Truthy(c.baseUrl))
            && (sent == [] ==> r == Err(Default(CONFIG_INVALID)))
            && (sent != [] ==>
                  && Explains(up, sent, Reads(sent), Logins(sent), r)
                  && sent == Sent(AuthFor(c), up, 0) + if TokenRefused(AuthFor(c), up) then Sent(AuthFor(c), up, 1) else [])
  {
    if Truthy(c.baseUrl) {
      AttemptsAreBounded(AuthFor(c), up);
      hide LoginOutcome, ErrorForStatus, TokenFor, Attempts, Sent;
    }
  }

  // ---- which credential, and which error ------------------------------------------------------

  /** An API token wins and is what each read carries; then email and password; then nothing. */
  lemma CredentialUsed(c: Context, up: Upstream, k: nat)
    requires k < |Fetched(c, up).1| && Fetched(c, up).1[k].Read?
    ensures var token := Fetched(c, up).1[k].token;
            && (c.apiToken.Some? && c.apiToken.value != "" ==> token == c.apiToken && Logins(Fetched(c, up).1) == 0)
            && (!Truthy(c.apiToken) && Truthy(c.email) && Truthy(c.password) ==>
                  exists n: nat :: n < 2 && LoginOutcome(up.login(n)).Ok? && token == Some(LoginOutcome(up.login(n)).value))
            && (!Truthy(c.apiToken) && !(Truthy(c.email) && Truthy(c.password)) ==> token == None)
  {
    FetchIsBounded(c, up);
    hide LoginOutcome, ErrorForStatus, Attempts, Fetched;
    var auth := AuthFor(c);
    assert forall n: nat :: forall i :: 0 <= i < |Sent(auth, up, n)| && Sent(auth, up, n)[i].Read? ==>
             TokenFor(auth, up, n).Ok? && Sent(auth, up, n)[i].token == TokenFor(auth, up, n).value;
    var first := Sent(auth, up, 0);
    if k < |first| {
      assert Fetched(c, up).1[k] == first[k];
    } else {
      assert Fetched(c, up).1[k] == Sent(auth, up, 1)[k - |first|];
    }
  }

  /** The errors of refused reads. */
  lemma StatusErrors(c: Context, up: Upstream, status: nat)
    requires status >= 400 && c.baseUrl.Some? && c.baseUrl.value != ""
    requires TokenFor(AuthFor(c), up, 0).Ok?
    requires up.read(0).Ok? && up.read(0).value.status == status && !TokenRefused(AuthFor(c), up)
    ensures Fetched(c, up).0 == Err(
              if status == 401 then IntegrationError(UNAUTHORIZED, false)
              else if status == 403 then IntegrationError(FORBIDDEN, false)
              else if status == 404 then IntegrationError(NOT_FOUND, false)
              else if status == 429 then IntegrationError(RATE_LIMITED, true)
              else IntegrationError(UPSTREAM_5XX, true))
  {
    hide LoginOutcome;
  }
}
