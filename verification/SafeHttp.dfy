// The guarded outbound HTTP client: a redirect loop that resolves, validates
// and pins the destination on every hop.
module SafeHttp {
  import opened Text
  import opened Errors
  import Ssrf
  import Ipv6

  datatype Url = Url(protocol: string, hostname: string)

  datatype Method = GET | HEAD | POST

  datatype Request = Request(verb: Method, url: string, headers: map<string, string>, body: string, correlationId: string)

  datatype TransportRequest = TransportRequest(
    verb: Method, url: string, hostname: string, pinnedIp: string, pinnedFamily: nat,
    headers: map<string, string>, body: string, maxBytes: int)

  /** A transport either answers or throws; `aborted` says whether the deadline had passed. */
  datatype Outcome =
    | Response(status: int, location: Option<string>, body: string)
    | Failure(thrown: Thrown, aborted: bool)

  datatype SafeResponse = SafeResponse(status: int, body: string)

  datatype Event =
    | Resolved(hop: nat, hostname: string, ips: seq<string>)
    | ResolveFailed(hop: nat, hostname: string)
    | Connected(hop: nat, request: TransportRequest)

  /**
   * The outside: URL parsing, address classification, the host pattern list, and
   * a resolver and transport that may answer differently on every hop.
   */
  datatype World = World(
    parseUrl: string -> Option<Url>,
    resolveReference: (string, string) -> Option<string>,
    isIp: string -> nat,
    isBlockedHost: string -> bool,
    byteLength: string -> nat,
    dns: (nat, string) -> Option<seq<string>>,
    transport: (nat, TransportRequest) -> Outcome)

  /** `assertAllowedOutboundUrl`. */
  function AllowedUrl(w: World, raw: string, allowlist: seq<string>): Option<Url> {
    match w.parseUrl(raw)
    case None => None
    case Some(u) => if IsAllowed(w, u, allowlist) then Some(u) else None
  }

  predicate IsAllowed(w: World, u: Url, allowlist: seq<string>) {
    && (u.protocol == "https:" || u.protocol == "http:")
    && !w.isBlockedHost(u.hostname)
    && exists k :: 0 <= k < |allowlist| && Lower(allowlist[k]) == Lower(u.hostname)
  }

  predicate AllUnblocked(w: World, ips: seq<string>) {
    forall k :: 0 <= k < |ips| ==> !Ssrf.IsBlockedIp(w.isIp, ips[k])
  }

  /** How a turn of the loop ends. */
  datatype HopResult = Done(result: Result<SafeResponse, Thrown>) | Follow(next: string)

  datatype Client = Client(allowlist: seq<string>, maxRedirects: int, maxBytes: int) {

    function Pinned(req: Request, url: string, u: Url, ips: seq<string>): TransportRequest
      requires ips != []
    {
      TransportRequest(req.verb, url, u.hostname, ips[0], if ':' in ips[0] then 6 else 4,
                       req.headers["x-correlation-id" := req.correlationId], req.body, maxBytes)
    }

    /** One turn of the loop: what it does, and whether it ends the run. */
    function Hop(w: World, req: Request, url: string, hop: nat): (HopResult, seq<Event>) {
      match AllowedUrl(w, url, allowlist)
      case None => (Done(Throw(SSRF_BLOCKED)), [])
      case Some(u) =>
        match w.dns(hop, u.hostname)
        case None => (Done(Throw(NETWORK)), [ResolveFailed(hop, u.hostname)])
        case Some(ips) =>
          var resolved := Resolved(hop, u.hostname, ips);
          if ips == [] || !AllUnblocked(w, ips) then (Done(Throw(SSRF_BLOCKED)), [resolved])
          else
            var t := Pinned(req, url, u, ips);
            (AfterTransport(w, url, hop, w.transport(hop, t)), [resolved, Connected(hop, t)])
    }

    function AfterTransport(w: World, url: string, hop: nat, res: Outcome): HopResult {
      match res
      case Failure(thrown, aborted) => Done(Err(TransportError(thrown, aborted)))
      case Response(status, location, body) =>
        if 300 <= status < 400 then
          if location == None || location == Some("") || hop == maxRedirects then Done(Throw(NETWORK))
          else
            match w.resolveReference(location.value, url)
            case None => Done(Err(Other))  // `new URL` throws a TypeError
            case Some(next) => Follow(next)
        else if w.byteLength(body) > maxBytes then Done(Throw(MALFORMED_RESPONSE))
        else Done(Ok(SafeResponse(status, body)))
    }

    /** What a run from hop `hop` at `url` returns and does, in order. */
    function Run(w: World, req: Request, url: string, hop: nat): (Result<SafeResponse, Thrown>, seq<Event>)
      decreases maxRedirects - hop
    {
      if hop > maxRedirects then (Throw(NETWORK), [])
      else
        var (end, events) := Hop(w, req, url, hop);
        match end
        case Done(r) => (r, events)
        case Follow(next) =>
          var rest := Run(w, req, next, hop + 1);
          (rest.0, events + rest.1)
    }

    static function TransportError(thrown: Thrown, aborted: bool): Thrown {
      if thrown.Integration? then thrown
      else Integration(Default(if aborted then TIMEOUT else NETWORK))
    }

    static function Throw<T>(code: Code): Result<T, Thrown> {
      Err(Integration(Default(code)))
    }

    /** Resolve, validate every address, pick the first. */
    method PinDestination(w: World, hop: nat, u: Url) returns (r: Result<string, Thrown>, event: Event)
      ensures match w.dns(hop, u.hostname)
              case None => r == Throw(NETWORK) && event == ResolveFailed(hop, u.hostname)
              case Some(ips) =>
                && event == Resolved(hop, u.hostname, ips)
                && r == (if ips == [] || !AllUnblocked(w, ips) then Throw(SSRF_BLOCKED) else Ok(ips[0]))
    {
      match w.dns(hop, u.hostname) {
        case None =>
          return Throw(NETWORK), ResolveFailed(hop, u.hostname);
        case Some(ips) =>
          event := Resolved(hop, u.hostname, ips);
          var allowed := Ssrf.ResolvedIpsAllowed(w.isIp, ips);
          if !allowed {
            return Throw(SSRF_BLOCKED), event;
          }
          return Ok(ips[0]), event;
      }
    }

    method Send(w: World, req: Request) returns (r: Result<SafeResponse, Thrown>, trace: seq<Event>)
      ensures (r, trace) == Run(w, req, req.url, 0)
    {
      hide Run, AllowedUrl, AllUnblocked, Lower;
      var currentUrl := req.url;
      trace := [];
      var hop := 0;
      ghost var goal := Run(w, req, req.url, 0);
      assert [] + goal.1 == goal.1;
      while hop <= maxRedirects
        invariant 0 <= hop
        invariant Continues(goal, trace, Run(w, req, currentUrl, hop))
        decreases maxRedirects - hop
      {
        RunUnfolds(w, req, currentUrl, hop);
        ghost var before := trace;
        assert before + [] == before;
        var url := AllowedUrl(w, currentUrl, allowlist);
        if url == None {
          return Throw(SSRF_BLOCKED), trace;
        }
        var pinned, event := PinDestination(w, hop, url.value);
        trace := trace + [event];
        if pinned.Err? {
          return Err(pinned.error), trace;
        }
        var t := TransportRequest(req.verb, currentUrl, url.value.hostname, pinned.value, if ':' in pinned.value then 6 else 4,
                                  req.headers["x-correlation-id" := req.correlationId], req.body, maxBytes);
        var res := w.transport(hop, t);
        trace := trace + [Connected(hop, t)];
        assert trace == before + [event, Connected(hop, t)];
        if res.Failure? {
          return Err(TransportError(res.thrown, res.aborted)), trace;
        }
        if 300 <= res.status < 400 {
          if res.location == None || res.location == Some("") {
            return Throw(NETWORK), trace;
          }
          if hop == maxRedirects {
            return Throw(NETWORK), trace;
          }
          var next := w.resolveReference(res.location.value, currentUrl);
          if next == None {
            return Err(Other), trace;
          }
          ghost var rest := Run(w, req, next.value, hop + 1).1;
          assert before + ([event, Connected(hop, t)] + rest) == trace + rest;
          currentUrl, hop := next.value, hop + 1;
          continue;
        }
        if w.byteLength(res.body) > maxBytes {
          return Throw(MALFORMED_RESPONSE), trace;
        }
        return Ok(SafeResponse(res.status, res.body)), trace;
      }
      RunUnfolds(w, req, currentUrl, hop);
      assert trace + [] == trace;
      return Throw(NETWORK), trace;
    }

    /** The whole run is the trace so far followed by the rest. */
    static ghost predicate Continues(
      goal: (Result<SafeResponse, Thrown>, seq<Event>), trace: seq<Event>, rest: (Result<SafeResponse, Thrown>, seq<Event>))
    {
      goal.0 == rest.0 && goal.1 == trace + rest.1
    }

    lemma RunUnfolds(w: World, req: Request, url: string, hop: nat)
      ensures hop > maxRedirects ==> Run(w, req, url, hop) == (Throw(NETWORK), [])
      ensures hop <= maxRedirects ==>
                var (end, events) := Hop(w, req, url, hop);
                && (end.Done? ==> Run(w, req, url, hop) == (end.result, events))
                && (end.Follow? ==>
                      var rest := Run(w, req, end.next, hop + 1);
                      Run(w, req, url, hop) == (rest.0, events + rest.1))
    {
    }
  }

  // ---- what every run guarantees -----------------------------------------------------

  /** A connect right after the resolution, by the same hop, of a host that passed the URL check. */
  ghost predicate Vetted(c: Client, w: World, before: Event, connect: Event) {
    && connect.Connected? && before.Resolved?
    && before.hop == connect.hop
    && before.hostname == connect.request.hostname
    && AllowedUrl(w, connect.request.url, c.allowlist).Some?
    && AllowedUrl(w, connect.request.url, c.allowlist).value.hostname == connect.request.hostname
    && before.ips != [] && connect.request.pinnedIp == before.ips[0]
    && connect.request.pinnedFamily == (if ':' in before.ips[0] then 6 else 4)
    && connect.request.maxBytes == c.maxBytes
    && AllUnblocked(w, before.ips)
  }

  /** Events of a run that starts at hop `hop`: resolutions on even places, connects on odd ones. */
  ghost predicate SafeTrace(c: Client, w: World, trace: seq<Event>, hop: nat) {
    && (forall k :: 0 <= k < |trace| ==> trace[k].hop == hop + k / 2)
    && (forall k :: 0 <= k < |trace| ==> (trace[k].Connected? <==> k % 2 == 1))
    && (forall k :: 0 < k < |trace| && trace[k].Connected? ==> Vetted(c, w, trace[k - 1], trace[k]))
  }

  /**
   * Every connect of every run: its URL passed the allow-list in the same hop,
   * the hop resolved that host once, all its addresses are unblocked and the
   * first one is pinned.
   */
  lemma {:induction false} EveryConnectIsVetted(c: Client, w: World, req: Request, url: string, hop: nat)
    ensures SafeTrace(c, w, c.Run(w, req, url, hop).1, hop)
    decreases c.maxRedirects - hop
  {
    hide Vetted, AllUnblocked, AllowedUrl;
    if hop <= c.maxRedirects {
      HopIsVetted(c, w, req, url, hop);
      var (end, events) := c.Hop(w, req, url, hop);
      if end.Follow? {
        EveryConnectIsVetted(c, w, req, end.next, hop + 1);
        PrependHop(c, w, events, c.Run(w, req, end.next, hop + 1).1, hop);
      }
    }
  }

  lemma HopIsVetted(c: Client, w: World, req: Request, url: string, hop: nat)
    ensures SafeTrace(c, w, c.Hop(w, req, url, hop).1, hop)
    ensures c.Hop(w, req, url, hop).0.Follow? ==> |c.Hop(w, req, url, hop).1| == 2
  {
  }

  lemma PrependHop(c: Client, w: World, first: seq<Event>, rest: seq<Event>, hop: nat)
    requires |first| == 2 && SafeTrace(c, w, first, hop) && SafeTrace(c, w, rest, hop + 1)
    ensures SafeTrace(c, w, first + rest, hop)
  {
    hide Vetted;
    var all := first + rest;
    forall k | 2 <= k < |all| ensures all[k] == rest[k - 2] && (k - 2) % 2 == k % 2 && (k - 2) / 2 == k / 2 - 1 {
    }
  }

  /** At most one resolution and one connect for each of maxRedirects + 1 hops. */
  lemma {:induction false} RunIsBounded(c: Client, w: World, req: Request, url: string, hop: nat)
    ensures |c.Run(w, req, url, hop).1| <= if hop > c.maxRedirects then 0 else 2 * (c.maxRedirects + 1 - hop)
    decreases c.maxRedirects - hop
  {
    if hop <= c.maxRedirects && c.Hop(w, req, url, hop).0.Follow? {
      RunIsBounded(c, w, req, c.Hop(w, req, url, hop).0.next, hop + 1);
    }
  }

  /** The connect at place k was answered with a redirect to `next`. */
  ghost predicate RedirectedTo(w: World, connect: Event, next: string) {
    && connect.Connected?
    && var res := w.transport(connect.hop, connect.request);
      && res.Response? && 300 <= res.status < 400 && res.location.Some?
      && w.resolveReference(res.location.value, connect.request.url) == Some(next)
  }

  /** The first connect is to `url`, each later one to the target of the redirect before it. */
  ghost predicate GoesWhereSent(w: World, req: Request, trace: seq<Event>, url: string) {
    && (|trace| > 1 ==> trace[1].Connected? && trace[1].request.url == url)
    && (forall k :: 3 <= k < |trace| && trace[k].Connected? ==> RedirectedTo(w, trace[k - 2], trace[k].request.url))
    && (forall k :: 0 <= k < |trace| && trace[k].Connected? ==>
          SameMessage(req, trace[k].request))
  }

  /** The caller's method, body and headers, plus the correlation id. */
  ghost predicate SameMessage(req: Request, t: TransportRequest) {
    && t.verb == req.verb && t.body == req.body
    && t.headers == req.headers["x-correlation-id" := req.correlationId]
  }

  /** A run goes where it was sent, always with the caller's message. */
  lemma {:induction false} RunFollowsRedirects(c: Client, w: World, req: Request, url: string, hop: nat)
    ensures GoesWhereSent(w, req, c.Run(w, req, url, hop).1, url)
    decreases c.maxRedirects - hop
  {
    hide GoesWhereSent;
    if hop <= c.maxRedirects {
      HopFollows(c, w, req, url, hop);
      var (end, events) := c.Hop(w, req, url, hop);
      if end.Follow? {
        RunFollowsRedirects(c, w, req, end.next, hop + 1);
        EveryConnectIsVetted(c, w, req, end.next, hop + 1);
        PrependRedirect(c, w, req, events, c.Run(w, req, end.next, hop + 1).1, url, end.next, hop);
      }
    } else {
      assert GoesWhereSent(w, req, [], url) by { EmptyRun(w, req, url); }
    }
  }

  lemma EmptyRun(w: World, req: Request, url: string)
    ensures GoesWhereSent(w, req, [], url)
  {
  }

  lemma HopFollows(c: Client, w: World, req: Request, url: string, hop: nat)
    ensures var (end, events) := c.Hop(w, req, url, hop);
            && GoesWhereSent(w, req, events, url)
            && (end.Follow? ==> |events| == 2 && RedirectedTo(w, events[1], end.next))
  {
    hide AllowedUrl, AllUnblocked;
  }

  lemma PrependRedirect(
    c: Client, w: World, req: Request, first: seq<Event>, rest: seq<Event>, url: string, next: string, hop: nat)
    requires |first| == 2 && GoesWhereSent(w, req, first, url) && RedirectedTo(w, first[1], next)
    requires GoesWhereSent(w, req, rest, next) && SafeTrace(c, w, rest, hop + 1)
    ensures GoesWhereSent(w, req, first + rest, url)
  {
    hide Vetted, RedirectedTo, SameMessage;
    var all := first + rest;
    assert forall k :: 2 <= k < |all| ==> all[k] == rest[k - 2];
    forall k | 3 <= k < |all| && all[k].Connected? ensures RedirectedTo(w, all[k - 2], all[k].request.url) {
      if k > 3 {
        assert rest[k - 2].Connected? && rest[k - 4] == all[k - 2];
      }
    }
  }

  /** An answer handed back is the last connect's, is no redirect, and fits. */
  lemma {:induction false} ReturnedAnswerIsFinal(c: Client, w: World, req: Request, url: string, hop: nat)
    requires c.Run(w, req, url, hop).0.Ok?
    ensures var (r, trace) := c.Run(w, req, url, hop);
            && !(300 <= r.value.status < 400) && w.byteLength(r.value.body) <= c.maxBytes
            && |trace| >= 2 && trace[|trace| - 1].Connected?
            && var res := w.transport(trace[|trace| - 1].hop, trace[|trace| - 1].request);
              res.Response? && r.value == SafeResponse(res.status, res.body)
    decreases c.maxRedirects - hop
  {
    hide Client.Run, AllowedUrl, AllUnblocked, Client.Pinned;
    c.RunUnfolds(w, req, url, hop);
    var (end, events) := c.Hop(w, req, url, hop);
    if end.Follow? {
      ReturnedAnswerIsFinal(c, w, req, end.next, hop + 1);
      var (r, rest) := c.Run(w, req, end.next, hop + 1);
      assert (events + rest)[|events + rest| - 1] == rest[|rest| - 1];
    }
  }

  // ---- what is allowed, and what comes back -----------------------------------------------

  /** The URL parses, to http or https, a host no pattern blocks, and one on the list in any case. */
  ghost predicate Permitted(w: World, url: string, hostname: string, allowlist: seq<string>) {
    && w.parseUrl(url).Some?
    && w.parseUrl(url).value.hostname == hostname
    && w.parseUrl(url).value.protocol in {"https:", "http:"}
    && !w.isBlockedHost(hostname)
    && exists k :: 0 <= k < |allowlist| && SameIgnoringCase(allowlist[k], hostname)
  }

  lemma AllowedIsPermitted(w: World, url: string, allowlist: seq<string>)
    ensures AllowedUrl(w, url, allowlist).Some? <==>
              w.parseUrl(url).Some? && Permitted(w, url, w.parseUrl(url).value.hostname, allowlist)
    ensures AllowedUrl(w, url, allowlist).Some? ==> AllowedUrl(w, url, allowlist) == w.parseUrl(url)
  {
    hide Lower, SameIgnoringCase;
    if w.parseUrl(url).Some? {
      var host := w.parseUrl(url).value.hostname;
      forall k | 0 <= k < |allowlist|
        ensures Lower(allowlist[k]) == Lower(host) <==> SameIgnoringCase(allowlist[k], host)
      {
        LowerIgnoresCase(allowlist[k], host);
      }
    }
  }

  /** Every connect of every run is to a host on the allow-list, over http or https. */
  lemma EveryConnectIsPermitted(c: Client, w: World, req: Request, url: string, hop: nat)
    ensures forall e :: e in c.Run(w, req, url, hop).1 && e.Connected? ==>
              Permitted(w, e.request.url, e.request.hostname, c.allowlist)
  {
    EveryConnectIsVetted(c, w, req, url, hop);
    var trace := c.Run(w, req, url, hop).1;
    hide AllUnblocked, AllowedUrl, Permitted;
    forall e | e in trace && e.Connected? ensures Permitted(w, e.request.url, e.request.hostname, c.allowlist) {
      var k :| 0 <= k < |trace| && trace[k] == e;
      assert Vetted(c, w, trace[k - 1], trace[k]);
      AllowedIsPermitted(w, e.request.url, c.allowlist);
    }
  }

  /** The request that goes out to a permitted host whose addresses are ips. */
  function Outgoing(c: Client, req: Request, url: string, hostname: string, ips: seq<string>): TransportRequest
    requires ips != []
  {
    TransportRequest(req.verb, url, hostname, ips[0], if ':' in ips[0] then 6 else 4,
                     req.headers["x-correlation-id" := req.correlationId], req.body, c.maxBytes)
  }

  /** Nothing stops the hop before its connect. */
  ghost predicate Reaches(c: Client, w: World, url: string, hop: nat, hostname: string, ips: seq<string>) {
    && hop <= c.maxRedirects && Permitted(w, url, hostname, c.allowlist)
    && w.dns(hop, hostname) == Some(ips) && ips != [] && AllUnblocked(w, ips)
  }

  /**
   * What a run comes to once it connects: a redirect is followed while any are
   * left, a fitting answer is returned, anything else is the stated error.
   */
  lemma AnswerDecides(c: Client, w: World, req: Request, url: string, hop: nat, hostname: string, ips: seq<string>)
    requires Reaches(c, w, url, hop, hostname, ips)
    ensures var t := Outgoing(c, req, url, hostname, ips);
            var (r, trace) := c.Run(w, req, url, hop);
            && |trace| >= 2 && trace[..2] == [Resolved(hop, hostname, ips), Connected(hop, t)]
            && match w.transport(hop, t)
               case Failure(Integration(e), _) => r == Err(Integration(e))
               case Failure(_, aborted) => r == Err(Integration(Default(if aborted then TIMEOUT else NETWORK)))
               case Response(status, location, body) =>
                 if status < 300 || status >= 400 then
                   r == if w.byteLength(body) <= c.maxBytes then Ok(SafeResponse(status, body))
                        else Err(Integration(Default(MALFORMED_RESPONSE)))
                 else if !Truthy(location) || hop == c.maxRedirects then r == Err(Integration(Default(NETWORK)))
                 else
                   match w.resolveReference(location.value, url)
                   case None => r == Err(Other)
                   case Some(next) => r == c.Run(w, req, next, hop + 1).0
  {
    ReachedHop(c, w, req, url, hop, hostname, ips);
    c.RunUnfolds(w, req, url, hop);
    AfterConnect(c, w, url, hop, w.transport(hop, Outgoing(c, req, url, hostname, ips)));
    hide Client.Run, Client.Hop, Client.AfterTransport, Reaches, Outgoing;
  }

  lemma ReachedHop(c: Client, w: World, req: Request, url: string, hop: nat, hostname: string, ips: seq<string>)
    requires Reaches(c, w, url, hop, hostname, ips)
    ensures var t := Outgoing(c, req, url, hostname, ips);
            c.Hop(w, req, url, hop) ==
              (c.AfterTransport(w, url, hop, w.transport(hop, t)), [Resolved(hop, hostname, ips), Connected(hop, t)])
    ensures hop <= c.maxRedirects
  {
    AllowedIsPermitted(w, url, c.allowlist);
    hide AllUnblocked, AllowedUrl, Client.AfterTransport;
  }

  lemma AfterConnect(c: Client, w: World, url: string, hop: nat, res: Outcome)
    ensures var end := c.AfterTransport(w, url, hop, res);
            match res
            case Failure(Integration(e), _) => end == Done(Err(Integration(e)))
            case Failure(_, aborted) => end == Done(Err(Integration(Default(if aborted then TIMEOUT else NETWORK))))
            case Response(status, location, body) =>
              if status < 300 || status >= 400 then
                end == Done(if w.byteLength(body) <= c.maxBytes then Ok(SafeResponse(status, body))
                            else Err(Integration(Default(MALFORMED_RESPONSE))))
              else if !Truthy(location) || hop == c.maxRedirects then end == Done(Err(Integration(Default(NETWORK))))
              else
                match w.resolveReference(location.value, url)
                case None => end == Done(Err(Other))
                case Some(next) => end == Follow(next)
  {
  }

  /** What a run comes to when it does not connect. */
  lemma RefusalDecides(c: Client, w: World, req: Request, url: string, hop: nat)
    requires forall hostname, ips :: !Reaches(c, w, url, hop, hostname, ips)
    ensures var (r, trace) := c.Run(w, req, url, hop);
            && (forall e :: e in trace ==> !e.Connected?)
            && r == Err(Integration(Default(
                 if hop > c.maxRedirects then NETWORK
                 else if !(w.parseUrl(url).Some? && Permitted(w, url, w.parseUrl(url).value.hostname, c.allowlist))
                 then SSRF_BLOCKED
                 else if w.dns(hop, w.parseUrl(url).value.hostname) == None then NETWORK
                 else SSRF_BLOCKED)))
  {
    AllowedIsPermitted(w, url, c.allowlist);
    c.RunUnfolds(w, req, url, hop);
    if hop <= c.maxRedirects && AllowedUrl(w, url, c.allowlist).Some? {
      var host := w.parseUrl(url).value.hostname;
      if w.dns(hop, host).Some? {
        assert !Reaches(c, w, url, hop, host, w.dns(hop, host).value);
      }
    }
    hide AllUnblocked, AllowedUrl, Permitted, Client.Run, Reaches;
  }

  // ---- the Host header ---------------------------------------------------------------

  /** The last value given for each header other than Host, and the intended Host. */
  function OutboundHeaders(entries: seq<(string, string)>, hostname: string): map<string, string> {
    Kept(entries)["host" := hostname]
  }

  function Kept(entries: seq<(string, string)>): map<string, string> {
    if entries == [] then map[]
    else
      var e := entries[|entries| - 1];
      var rest := Kept(entries[..|entries| - 1]);
      if Lower(e.0) != "host" && Settable(e.0) then rest[e.0 := e.1] else rest
  }

  method BuildOutboundHeaders(entries: seq<(string, string)>, hostname: string) returns (sanitized: map<string, string>)
    ensures sanitized == OutboundHeaders(entries, hostname)
  {
    sanitized := map[];
    for k := 0 to |entries|
      invariant sanitized == Kept(entries[..k])
    {
      assert entries[..k + 1][..k] == entries[..k];
      if Lower(entries[k].0) != "host" && Settable(entries[k].0) {
        sanitized := sanitized[entries[k].0 := entries[k].1];
      }
    }
    assert entries[..|entries|] == entries;
    sanitized := sanitized["host" := hostname];
  }

  /** No caller-supplied spelling of Host survives; every other header does, if an object can hold it. */
  lemma {:induction false} HostIsOwned(entries: seq<(string, string)>, hostname: string)
    ensures var m := OutboundHeaders(entries, hostname);
            && "host" in m && m["host"] == hostname
            && (forall k :: k in m && Lower(k) == "host" ==> k == "host")
            && (forall k :: k in m ==> k == "host" || (Settable(k) && exists i :: 0 <= i < |entries| && entries[i].0 == k))
            && (forall k :: 0 <= k < |entries| && Lower(entries[k].0) != "host" && Settable(entries[k].0) ==> entries[k].0 in m)
            && (forall k :: 0 <= k < |entries| && Lower(entries[k].0) != "host" && Settable(entries[k].0)
                            && (forall j :: k < j < |entries| ==> entries[j].0 != entries[k].0)
                            ==> m[entries[k].0] == entries[k].1)
  {
    assert Lower("host") == "host";
    KeptHeaders(entries);
  }

  lemma {:induction false} KeptHeaders(entries: seq<(string, string)>)
    ensures var m := Kept(entries);
            && (forall k :: k in m ==> Lower(k) != "host" && Settable(k) && exists i :: 0 <= i < |entries| && entries[i].0 == k)
            && (forall k :: 0 <= k < |entries| && Lower(entries[k].0) != "host" && Settable(entries[k].0) ==> entries[k].0 in m)
            && (forall k :: 0 <= k < |entries| && Lower(entries[k].0) != "host" && Settable(entries[k].0)
                            && (forall j :: k < j < |entries| ==> entries[j].0 != entries[k].0)
                            ==> m[entries[k].0] == entries[k].1)
  {
    hide Lower, Settable;
    if entries != [] {
      var n := |entries| - 1;
      KeptHeaders(entries[..n]);
      forall k | 0 <= k < n && Lower(entries[k].0) != "host" && Settable(entries[k].0)
                 && (forall j :: k < j < |entries| ==> entries[j].0 != entries[k].0)
        ensures Kept(entries)[entries[k].0] == entries[k].1
      {
        assert entries[..n][k] == entries[k];
        assert forall j :: k < j < n ==> entries[..n][j] == entries[j];
        assert entries[n].0 != entries[k].0;
      }
      forall k | 0 <= k < n && Lower(entries[k].0) != "host" && Settable(entries[k].0) ensures entries[k].0 in Kept(entries) {
        assert entries[..n][k] == entries[k];
      }
    }
  }

  // ---- the pinned family ----------------------------------------------------------------

  lemma {:induction false} JoinHasSeparator(items: seq<string>, sep: char)
    requires |items| >= 2
    ensures sep in Join(items, sep)
  {
  }

  /** What normalising an address drops after its first `%`. */
  function Zone(ip: string): string {
    Join(Split(Ssrf.StripBrackets(Lower(Trim(ip))), '%')[1..], '%')
  }

  lemma {:induction false} TrimKeeps(s: string, c: char)
    requires !IsSpace(c)
    ensures c in TrimStart(s) <==> c in s
    ensures c in TrimEnd(s) <==> c in s
  {
    hide IsSpace;
    if s != "" {
      TrimKeeps(s[1..], c);
      TrimKeeps(s[..|s| - 1], c);
      assert s == [s[0]] + s[1..] && s == s[..|s| - 1] + [s[|s| - 1]];
    }
  }

  lemma LowerKeepsColon(s: string)
    ensures ':' in Lower(s) <==> ':' in s
  {
    assert forall k :: 0 <= k < |s| ==> (Lower(s)[k] == ':' <==> s[k] == ':');
  }

  /** A colon is in the normal form or in the zone, or nowhere. */
  lemma ColonKept(ip: string)
    ensures ':' in ip <==> ':' in Ssrf.Normalize(ip) || ':' in Zone(ip)
  {
    hide TrimStart, TrimEnd, Lower, Split, IsSpace;
    assert !IsSpace(':') by { ColonIsNoSpace(); }
    TrimKeeps(ip, ':');
    TrimKeeps(TrimEnd(ip), ':');
    LowerKeepsColon(Trim(ip));
    var lower := Lower(Trim(ip));
    var bare := Ssrf.StripBrackets(lower);
    assert ':' in bare <==> ':' in lower by { BracketsKept(lower); }
    JoinOfSplit(bare, '%');
  }

  lemma ColonIsNoSpace()
    ensures !IsSpace(':')
  {
  }

  lemma BracketsKept(s: string)
    ensures ':' in Ssrf.StripBrackets(s) <==> ':' in s
  {
    var a := if s != "" && s[0] == '[' then s[1..] else s;
    assert s == a || s == "[" + a;
    assert Ssrf.StripBrackets(s) == a || a == Ssrf.StripBrackets(s) + "]";
  }

  /**
   * `includes(':')` tells the family of an allowed address, except for an IPv4
   * address written with a zone that has a colon.
   */
  lemma FamilyOfAllowedIp(w: World, ip: string)
    requires !Ssrf.IsBlockedIp(w.isIp, ip)
    ensures (':' in ip <==> w.isIp(Ssrf.Normalize(ip)) == 6) <==> !(w.isIp(Ssrf.Normalize(ip)) == 4 && ':' in Zone(ip))
  {
    ColonKept(ip);
    NormalFamily(w, Ssrf.Normalize(ip));
  }

  /** For the normal form the test is right. */
  lemma NormalFamily(w: World, addr: string)
    requires (w.isIp(addr) == 4 && !Ssrf.IsBlockedIpv4(addr)) || (w.isIp(addr) == 6 && Ipv6.ExpandIpv6(addr).Some?)
    ensures ':' in addr <==> w.isIp(addr) == 6
  {
    if w.isIp(addr) == 6 {
      var sp := Ipv6.AcceptedTextIsASpelling(addr);
      if sp.gap == 0 {
        JoinHasSeparator(sp.head + sp.QuadItems(), ':');
      }
    } else {
      JoinOfSplit(addr, '.');
      var parts := Split(addr, '.');
      forall k | 0 <= k < |parts| ensures ':' !in parts[k] {
        assert IsNumeral(parts[k], 10);
      }
      Ipv6.JoinAvoids(parts, '.', ':');
    }
  }
}
