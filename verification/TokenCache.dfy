// The token provider of the Stock Management adapter: a token cached until it
// expires, and a login shared by every call that needs one meanwhile.
module TokenCache {
  import opened Text
  import opened Errors

  // ---- the login answer --------------------------------------------------------------------

  /** A body parsed as JSON; the access token is None when missing or not a string. */
  datatype Body = NotJson | Json(accessToken: Option<string>)

  datatype Reply = Failed(error: IntegrationError) | Answered(status: nat, body: Body)

  type Outcome = Result<string, IntegrationError>

  function LoginOutcome(reply: Reply): (r: Outcome)
    ensures r.Ok? <==>
            && reply.Answered? && reply.status == 200
            && reply.body.Json? && reply.body.accessToken.Some? && reply.body.accessToken.value != ""
    ensures r.Ok? ==> r.value == reply.body.accessToken.value
    ensures r.Err? && reply.Answered? ==> (r.error.code == UNAUTHORIZED <==> reply.status == 401)
    ensures r.Err? && reply.Failed? ==> r.error == reply.error
    ensures r.Err? && reply.Answered? ==>
              r.error == if reply.status == 401 then IntegrationError(UNAUTHORIZED, false)
                         else if reply.status == 200 then IntegrationError(MALFORMED_RESPONSE, false)
                         else IntegrationError(UPSTREAM_5XX, true)
  {
    match reply
    case Failed(e) => Err(e)
    case Answered(status, body) =>
      if status == 401 then Err(IntegrationError(UNAUTHORIZED, false))
      else if status != 200 then Err(Default(UPSTREAM_5XX))
      else if body.NotJson? || body.accessToken.None? || body.accessToken.value == "" then Err(Default(MALFORMED_RESPONSE))
      else Ok(body.accessToken.value)
  }

  // ---- one synchronous step at a time -----------------------------------------------------------

  /** The promise of a login under way: its outcome once the login has settled, and who awaits it. */
  datatype Flight = Flight(outcome: Option<Outcome>, waiting: seq<nat>)

  datatype State = State(token: Option<string>, expiresAt: int, inflight: Option<Flight>)

  /**
   * What happens next: a call, the end of the login request, the cleanup that
   * follows it, or a caller reporting a 401. Any of them may come between the
   * other three.
   */
  datatype Event = Call(now: int) | Finish(reply: Reply, now: int) | Release(now: int) | Unauthorized(now: int)

  /** What the event turned out to be. The callers of Released are answered with the outcome. */
  datatype Entry =
    | Served(token: string)
    | Started
    | Joined
    | Finished(outcome: Outcome)
    | Released(outcome: Outcome, callers: seq<nat>)
    | Forgotten

  const Empty := State(None, 0, None)

  /** The runtime finishes a login only while one is out, and cleans up only after that. */
  predicate Enabled(s: State, e: Event) {
    match e
    case Finish(_, _) => s.inflight.Some? && s.inflight.value.outcome == None
    case Release(_) => s.inflight.Some? && s.inflight.value.outcome.Some?
    case _ => true
  }

  predicate Fresh(s: State, now: int) {
    s.token.Some? && s.token.value != "" && now < s.expiresAt
  }

  function Step(ttl: nat, s: State, caller: nat, e: Event): (State, Entry)
    requires Enabled(s, e)
  {
    match e
    case Call(now) =>
      if Fresh(s, now) then (s, Served(s.token.value))
      else if s.inflight == None then (s.(inflight := Some(Flight(None, [caller]))), Started)
      else (s.(inflight := Some(s.inflight.value.(waiting := s.inflight.value.waiting + [caller]))), Joined)
    case Finish(reply, now) =>
      var outcome := LoginOutcome(reply);
      var t := s.(inflight := Some(s.inflight.value.(outcome := Some(outcome))));
      (if outcome.Ok? then t.(token := Some(outcome.value), expiresAt := now + ttl) else t, Finished(outcome))
    case Release(_) => (s.(inflight := None), Released(s.inflight.value.outcome.value, s.inflight.value.waiting))
    case Unauthorized(_) => (s.(token := None, expiresAt := 0), Forgotten)
  }

  class PasswordLoginAuthProvider {
    const ttlMs: nat
    var token: Option<string>
    var expiresAt: int
    var inflight: Option<Flight>

    ghost function Abs(): State
      reads this
    {
      State(token, expiresAt, inflight)
    }

    constructor (ttlMs: nat)
      ensures this.ttlMs == ttlMs && Abs() == Empty
    {
      this.ttlMs, token, expiresAt, inflight := ttlMs, None, 0, None;
    }

    /** The synchronous part of a call: a token at once, or a place among those waiting. */
    method GetAccessToken(caller: nat, now: int) returns (entry: Entry)
      modifies this
      ensures (Abs(), entry) == Step(ttlMs, old(Abs()), caller, Call(now))
    {
      if token.Some? && token.value != "" && now < expiresAt {
        return Served(token.value);
      }
      if inflight == None {
        inflight := Some(Flight(None, [caller]));
        return Started;
      }
      inflight := Some(inflight.value.(waiting := inflight.value.waiting + [caller]));
      return Joined;
    }

    method LoginFinished(reply: Reply, now: int) returns (entry: Entry)
      requires Enabled(Abs(), Finish(reply, now))
      modifies this
      ensures (Abs(), entry) == Step(ttlMs, old(Abs()), 0, Finish(reply, now))
    {
      var outcome := LoginOutcome(reply);
      if outcome.Ok? {
        token := Some(outcome.value);
        expiresAt := now + ttlMs;
      }
      inflight := Some(inflight.value.(outcome := Some(outcome)));
      return Finished(outcome);
    }

    method Cleanup(now: int) returns (entry: Entry)
      requires Enabled(Abs(), Release(now))
      modifies this
      ensures (Abs(), entry) == Step(ttlMs, old(Abs()), 0, Release(now))
    {
      entry := Released(inflight.value.outcome.value, inflight.value.waiting);
      inflight := None;
    }

    method OnUnauthorized(now: int)
      modifies this
      ensures Abs() == Step(ttlMs, old(Abs()), 0, Unauthorized(now)).0
    {
      token := None;
      expiresAt := 0;
    }
  }

  // ---- runs ---------------------------------------------------------------------------------------

  /** The state and the log after some events, entry i belonging to event i; None when they cannot happen. */
  function Run(ttl: nat, events: seq<Event>): (r: Option<(State, seq<Entry>)>)
    ensures r.Some? ==> |r.value.1| == |events|
  {
    if events == [] then Some((Empty, []))
    else
      var n := |events| - 1;
      var before := Run(ttl, events[..n]);
      if before == None || !Enabled(before.value.0, events[n]) then None
      else
        var (s, entry) := Step(ttl, before.value.0, n, events[n]);
        Some((s, before.value.1 + [entry]))
  }

  ghost predicate Monotone(events: seq<Event>) {
    forall i, j :: 0 <= i <= j < |events| ==> events[i].now <= events[j].now
  }

  predicate Grants(e: Entry) {
    e.Finished? && e.outcome.Ok?
  }

  predicate Waits(e: Entry) {
    e.Started? || e.Joined?
  }

  /** The login whose token the cache holds, if any: the last successful one, unless forgotten since. */
  function Grant(log: seq<Entry>): (r: Option<nat>)
    ensures r.Some? ==> r.value < |log| && Grants(log[r.value])
    ensures r.Some? ==> forall i :: r.value < i < |log| ==> !Grants(log[i]) && !log[i].Forgotten?
  {
    if log == [] then None
    else if Grants(log[|log| - 1]) then Some(|log| - 1)
    else if log[|log| - 1].Forgotten? then None
    else Grant(log[..|log| - 1])
  }

  /** The login that has started and not been cleaned up, if any. */
  function Open(log: seq<Entry>): (r: Option<nat>)
    ensures r.Some? ==> r.value < |log| && log[r.value].Started?
    ensures r.Some? ==> forall i :: r.value < i < |log| ==> !log[i].Started? && !log[i].Released?
  {
    if log == [] then None
    else if log[|log| - 1].Started? then Some(|log| - 1)
    else if log[|log| - 1].Released? then None
    else Open(log[..|log| - 1])
  }

  /** Call i was answered by the cleanup at m. */
  ghost predicate AnsweredAt(log: seq<Entry>, i: nat, m: nat) {
    i < m < |log| && log[m].Released? && i in log[m].callers
  }

  /** The login that began at f ended at k, and only there. */
  ghost predicate EndedAt(log: seq<Entry>, f: nat, k: nat) {
    && f < k < |log| && log[k].Finished?
    && forall i :: f < i < |log| && log[i].Finished? ==> i == k
  }

  ghost predicate EndedWith(log: seq<Entry>, f: nat, o: Outcome) {
    exists k: nat :: EndedAt(log, f, k) && log[k].outcome == o
  }

  ghost predicate Increasing(s: seq<nat>) {
    forall i, j :: 0 <= i < j < |s| ==> s[i] < s[j]
  }

  /** These are exactly the calls from f on that were made to wait, in order. */
  ghost predicate Awaits(log: seq<Entry>, f: nat, callers: seq<nat>) {
    && Increasing(callers)
    && forall i :: i in callers <==> f <= i < |log| && Waits(log[i])
  }

  // The fields are determined by the log.
  ghost predicate CacheIs(ttl: nat, events: seq<Event>, log: seq<Entry>, s: State)
    requires |events| == |log|
  {
    match Grant(log)
    case None => s.token == None
    case Some(g) => s.token == Some(log[g].outcome.value) && s.token.value != "" && s.expiresAt == events[g].now + ttl
  }

  ghost predicate FlightIs(log: seq<Entry>, s: State) {
    match Open(log)
    case None => s.inflight == None
    case Some(f) =>
      && s.inflight.Some?
      && Awaits(log, f, s.inflight.value.waiting)
      && (match s.inflight.value.outcome
          case None => forall i :: f < i < |log| ==> !log[i].Finished?
          case Some(o) => EndedWith(log, f, o))
  }

  lemma {:induction false} CacheFollows(ttl: nat, events: seq<Event>)
    requires Run(ttl, events).Some?
    ensures var (s, log) := Run(ttl, events).value; CacheIs(ttl, events, log, s)
  {
    hide CacheIs, Step, Enabled, Grant;
    if events == [] {
      NoToken(ttl);
    } else {
      var n := |events| - 1;
      CacheFollows(ttl, events[..n]);
      var (s, log) := Run(ttl, events[..n]).value;
      CacheStep(ttl, events, s, log);
    }
  }

  lemma NoToken(ttl: nat)
    ensures CacheIs(ttl, [], [], Empty)
  {
  }

  lemma CacheStep(ttl: nat, events: seq<Event>, s: State, log: seq<Entry>)
    requires |log| + 1 == |events| && Enabled(s, events[|log|]) && CacheIs(ttl, events[..|log|], log, s)
    ensures var (t, entry) := Step(ttl, s, |log|, events[|log|]); CacheIs(ttl, events, log + [entry], t)
  {
    hide Fresh, LoginOutcome;
    var entry := Step(ttl, s, |log|, events[|log|]).1;
    assert (log + [entry])[..|log|] == log;
  }

  lemma {:induction false} FlightFollows(ttl: nat, events: seq<Event>)
    requires Run(ttl, events).Some?
    ensures var (s, log) := Run(ttl, events).value; FlightIs(log, s)
  {
    hide FlightIs, Step, Enabled;
    if events == [] {
      NoFlight();
    } else {
      var n := |events| - 1;
      FlightFollows(ttl, events[..n]);
      var (s0, log0) := Run(ttl, events[..n]).value;
      FlightStep(ttl, s0, log0, events[n]);
    }
  }

  lemma NoFlight()
    ensures FlightIs([], Empty)
  {
  }

  lemma FlightStep(ttl: nat, s: State, log: seq<Entry>, e: Event)
    requires Enabled(s, e) && FlightIs(log, s)
    ensures var (t, entry) := Step(ttl, s, |log|, e); FlightIs(log + [entry], t)
  {
    hide LoginOutcome, Fresh, Awaits, EndedWith;
    var n := |log|;
    var (t, entry) := Step(ttl, s, n, e);
    var log' := log + [entry];
    assert log'[..n] == log;
    if Open(log).Some? {
      var f := Open(log).value;
      AwaitsMore(log, entry, f, s.inflight.value.waiting);
      Ends(log, entry, f);
    } else {
      AwaitsStart(log, entry);
    }
  }

  lemma Ends(log: seq<Entry>, entry: Entry, f: nat)
    requires f < |log|
    ensures entry.Finished? && (forall i :: f < i < |log| ==> !log[i].Finished?) ==> EndedWith(log + [entry], f, entry.outcome)
    ensures !entry.Finished? ==> forall o :: EndedWith(log, f, o) ==> EndedWith(log + [entry], f, o)
  {
    var log' := log + [entry];
    if entry.Finished? && forall i :: f < i < |log| ==> !log[i].Finished? {
      assert EndedAt(log', f, |log|);
    }
    forall o | !entry.Finished? && EndedWith(log, f, o) ensures EndedWith(log', f, o) {
      var k: nat :| EndedAt(log, f, k) && log[k].outcome == o;
      assert EndedAt(log', f, k);
    }
  }

  lemma AwaitsStart(log: seq<Entry>, entry: Entry)
    ensures Waits(entry) ==> Awaits(log + [entry], |log|, [|log|])
  {
  }

  lemma AwaitsMore(log: seq<Entry>, entry: Entry, f: nat, callers: seq<nat>)
    requires Awaits(log, f, callers) && f < |log|
    ensures Awaits(log + [entry], f, if Waits(entry) then callers + [|log|] else callers)
  {
    var log' := log + [entry];
    var callers' := if Waits(entry) then callers + [|log|] else callers;
    assert forall i :: 0 <= i < |callers| ==> callers[i] in callers;
    forall i: int ensures i in callers' <==> f <= i < |log'| && Waits(log'[i]) {
      assert i in callers' <==> i in callers || (Waits(entry) && i == |log|);
      if 0 <= i < |log| {
        assert log'[i] == log[i];
      }
    }
  }

  /** A run contains the runs of its beginnings, and each entry is the step taken there. */
  lemma {:induction false} Beginning(ttl: nat, events: seq<Event>, j: nat)
    requires Run(ttl, events).Some? && j <= |events|
    ensures var log := Run(ttl, events).value.1;
            var before := Run(ttl, events[..j]);
            && before.Some? && before.value.1 == log[..j]
            && (j < |events| ==>
                  && Enabled(before.value.0, events[j])
                  && log[j] == Step(ttl, before.value.0, j, events[j]).1)
  {
    hide Step, Enabled;
    var n := |events| - 1;
    if j == |events| {
      assert events[..j] == events;
    } else {
      var log := Run(ttl, events).value.1;
      assert log[..n] == Run(ttl, events[..n]).value.1;
      if j < n {
        Beginning(ttl, events[..n], j);
        assert events[..n][..j] == events[..j];
        assert log[..n][..j] == log[..j];
      }
    }
  }

  // ---- one login, one outcome ------------------------------------------------------------------------

  /** The cleanup at m passed on the outcome of the login begun at f, which ended at k, to all who waited for it. */
  ghost predicate Shares(log: seq<Entry>, f: nat, k: nat, m: nat) {
    && f < k < m < |log|
    && log[f].Started? && log[k].Finished? && log[m].Released?
    && (forall i :: f < i < m ==> !log[i].Started? && !log[i].Released? && (log[i].Finished? ==> i == k))
    && log[m].outcome == log[k].outcome
    && Increasing(log[m].callers)
    && forall i :: i in log[m].callers <==> f <= i < m && Waits(log[i])
  }

  lemma AtCleanup(log: seq<Entry>, s: State, f: nat, entry: Entry, all: seq<Entry>)
    requires FlightIs(log, s) && Open(log) == Some(f)
    requires s.inflight.value.outcome.Some?
    requires entry == Released(s.inflight.value.outcome.value, s.inflight.value.waiting)
    requires |log| < |all| && all[..|log|] == log && all[|log|] == entry
    ensures exists k: nat :: Shares(all, f, k, |log|)
  {
    var k: nat :| EndedAt(log, f, k) && log[k].outcome == s.inflight.value.outcome.value;
    assert forall i :: 0 <= i < |log| ==> all[i] == log[i];
    assert Shares(all, f, k, |log|);
  }

  /** All callers who joined one login, and only they, get the outcome of that login. */
  lemma JoinersAgree(ttl: nat, events: seq<Event>, m: nat)
    requires Run(ttl, events).Some? && m < |events|
    requires Run(ttl, events).value.1[m].Released?
    ensures exists f: nat, k: nat :: Shares(Run(ttl, events).value.1, f, k, m)
  {
    hide Shares, Awaits, EndedAt, Run;
    var log := Run(ttl, events).value.1;
    Beginning(ttl, events, m);
    FlightFollows(ttl, events[..m]);
    var (s, past) := Run(ttl, events[..m]).value;
    AtCleanup(past, s, Open(past).value, log[m], log);
  }

  lemma {:induction false} StartedIsOpenOrShared(ttl: nat, events: seq<Event>, i: nat)
    requires Run(ttl, events).Some? && i < |events|
    requires Run(ttl, events).value.1[i].Started?
    ensures var log := Run(ttl, events).value.1;
            Open(log) == Some(i) || exists k: nat, m: nat :: Shares(log, i, k, m)
  {
    var n := |events| - 1;
    var log := Run(ttl, events).value.1;
    if i < n {
      var (s, past) := Run(ttl, events[..n]).value;
      assert log[..n] == past;
      StartedIsOpenOrShared(ttl, events[..n], i);
      if Open(past) == Some(i) {
        FlightFollows(ttl, events[..n]);
        if log[n].Released? {
          JoinersAgree(ttl, events, n);
        }
      } else {
        var k: nat, m: nat :| Shares(past, i, k, m);
        assert Shares(log, i, k, m);
      }
    }
  }

  /** Between two starts the earlier login has ended and been cleaned up: one login at a time. */
  lemma OneLoginAtATime(ttl: nat, events: seq<Event>, i: nat, j: nat)
    requires Run(ttl, events).Some? && i < j < |events|
    requires var log := Run(ttl, events).value.1; log[i].Started? && log[j].Started?
    ensures exists k: nat, m: nat :: m < j && Shares(Run(ttl, events).value.1, i, k, m)
  {
    hide Shares, Awaits, EndedAt, Run;
    var log := Run(ttl, events).value.1;
    Beginning(ttl, events, j);
    FlightFollows(ttl, events[..j]);
    StartedIsOpenOrShared(ttl, events[..j], i);
    var past := Run(ttl, events[..j]).value.1;
    var k: nat, m: nat :| Shares(past, i, k, m);
    SharesLater(past, log, i, k, m);
  }

  lemma SharesLater(past: seq<Entry>, log: seq<Entry>, f: nat, k: nat, m: nat)
    requires past <= log && Shares(past, f, k, m)
    ensures m < |past| && Shares(log, f, k, m)
  {
    assert forall i :: 0 <= i < |past| ==> log[i] == past[i];
  }

  predicate StillWaits(s: State, i: nat) {
    s.inflight.Some? && i in s.inflight.value.waiting
  }

  lemma Keeps(ttl: nat, s: State, log: seq<Entry>, e: Event, i: nat)
    requires Enabled(s, e) && StillWaits(s, i) && i < |log|
    ensures var (t, entry) := Step(ttl, s, |log|, e);
            StillWaits(t, i) || AnsweredAt(log + [entry], i, |log|)
  {
    hide Fresh, LoginOutcome;
  }

  lemma {:induction false} Answered(ttl: nat, events: seq<Event>, i: nat)
    requires Run(ttl, events).Some? && i < |events|
    requires Waits(Run(ttl, events).value.1[i])
    ensures var (s, log) := Run(ttl, events).value;
            StillWaits(s, i) || exists m: nat :: AnsweredAt(log, i, m)
  {
    var n := |events| - 1;
    var (s, log) := Run(ttl, events).value;
    var (s0, past) := Run(ttl, events[..n]).value;
    assert log == past + [log[n]];
    if i < n {
      Answered(ttl, events[..n], i);
      assert log[n] == Step(ttl, s0, n, events[n]).1;
      hide Run, Step, StillWaits;
      if StillWaits(s0, i) {
        Keeps(ttl, s0, past, events[n], i);
      } else {
        var m: nat :| AnsweredAt(past, i, m);
        assert AnsweredAt(log, i, m);
      }
    }
  }

  lemma WaitingIsUnanswered(ttl: nat, events: seq<Event>, i: nat, m: nat)
    requires Run(ttl, events).Some?
    requires var (s, log) := Run(ttl, events).value; AnsweredAt(log, i, m)
    ensures !StillWaits(Run(ttl, events).value.0, i)
  {
    FlightFollows(ttl, events);
    JoinersAgree(ttl, events, m);
    hide Run, Step, Enabled;
  }

  /** A call that was made to wait is answered exactly once, or the login it waits for is not over. */
  lemma AnsweredOnce(ttl: nat, events: seq<Event>, i: nat)
    requires Run(ttl, events).Some? && i < |events|
    requires Waits(Run(ttl, events).value.1[i])
    ensures var (s, log) := Run(ttl, events).value;
            if StillWaits(s, i) then forall m: nat :: !AnsweredAt(log, i, m)
            else exists m: nat :: AnsweredAt(log, i, m) && forall m': nat :: AnsweredAt(log, i, m') ==> m' == m
  {
    Answered(ttl, events, i);
    var (s, log) := Run(ttl, events).value;
    forall m: nat | AnsweredAt(log, i, m) ensures !StillWaits(s, i) {
      WaitingIsUnanswered(ttl, events, i, m);
    }
    forall m: nat, m': nat | AnsweredAt(log, i, m) && AnsweredAt(log, i, m') ensures m == m' {
      JoinersAgree(ttl, events, m);
      JoinersAgree(ttl, events, m');
      hide Run;
    }
  }

  // ---- how long a token is used --------------------------------------------------------------------------

  /** At j the login that ended at g is the last successful one, and its token has not been forgotten. */
  ghost predicate Current(log: seq<Entry>, g: nat, j: nat) {
    && g < j <= |log| && Grants(log[g])
    && forall i :: g < i < j ==> !Grants(log[i]) && !log[i].Forgotten?
  }

  lemma {:induction false} GrantIsCurrent(log: seq<Entry>, g: nat)
    requires Current(log, g, |log|)
    ensures Grant(log) == Some(g)
  {
    var n := |log| - 1;
    if g < n {
      assert Current(log[..n], g, n);
      GrantIsCurrent(log[..n], g);
    }
  }

  lemma CurrentIsGrant(log: seq<Entry>, j: nat)
    requires j <= |log|
    ensures forall g: nat :: Current(log, g, j) <==> Grant(log[..j]) == Some(g)
  {
    forall g: nat | Current(log, g, j) ensures Grant(log[..j]) == Some(g) {
      assert Current(log[..j], g, j);
      GrantIsCurrent(log[..j], g);
    }
  }

  /** A call gets a token at once exactly when the current one is younger than ttl, and then it gets that one. */
  lemma ServedExactlyWhileFresh(ttl: nat, events: seq<Event>, j: nat)
    requires Run(ttl, events).Some? && j < |events| && events[j].Call?
    ensures var log := Run(ttl, events).value.1;
            && (log[j].Served? <==> exists g: nat :: Current(log, g, j) && events[j].now < events[g].now + ttl)
            && forall g: nat :: log[j].Served? && Current(log, g, j) ==> log[j].token == log[g].outcome.value
  {
    Beginning(ttl, events, j);
    CacheFollows(ttl, events[..j]);
    CurrentIsGrant(Run(ttl, events).value.1, j);
    hide Run, Current, Grant;
  }

  /**
   * As long as nobody reports a 401, a login that follows a successful one
   * starts at least ttl after it ended, and so after it started.
   */
  lemma LoginsAreSpaced(ttl: nat, events: seq<Event>, i: nat, k: nat, j: nat)
    requires Run(ttl, events).Some? && Monotone(events) && i < k < j < |events|
    requires var log := Run(ttl, events).value.1;
             && log[i].Started? && Grants(log[k]) && log[j].Started?
             && forall x :: k < x < j ==> !log[x].Forgotten?
    ensures events[i].now + ttl <= events[k].now + ttl <= events[j].now
  {
    var log := Run(ttl, events).value.1;
    Beginning(ttl, events, j);
    hide Run, Current;
    LatestGrant(log, k, j);
    var g: nat :| k <= g && Current(log, g, j);
    assert events[j].Call?;
    ServedExactlyWhileFresh(ttl, events, j);
  }

  lemma {:induction false} LatestGrant(log: seq<Entry>, k: nat, j: nat)
    requires k < j <= |log| && Grants(log[k])
    requires forall x :: k < x < j ==> !log[x].Forgotten?
    ensures exists g: nat :: k <= g && Current(log, g, j)
    decreases j
  {
    if Grants(log[j - 1]) {
      assert Current(log, j - 1, j);
    } else {
      LatestGrant(log, k, j - 1);
      var g: nat :| k <= g && Current(log, g, j - 1);
      assert Current(log, g, j);
    }
  }
}
