# Verified models of the SLC Central Admin API

Dafny models of the parts of the API that decide something: which addresses the
server may connect to, when a call to an external system is made, what a
connection's status means, who is a Super Admin, who is signed in, and what a
page of results contains. Code that changes state is modelled by classes and
loops proved against specification functions; the properties are lemmas about
those functions, over every input or every run.

`dafny verify dfyconfig.toml` checks everything.

| module | models | main results |
|---|---|---|
| `Ipv6` | the hand-written IPv6 text parser | accepts exactly the text forms of section 2.2 of RFC 4291 (in lower case, without a zone), each with its own eight hextets; print then parse is the identity |
| `Ssrf` | the verdict on an address | depends on the address value only: an address passes iff its text denotes a value outside the listed CIDR blocks; embedded IPv4 gets the IPv4 verdict |
| `SafeHttp` | the redirect loop, the pinned destination, the Host header | every connect of every run is to an allow-listed host at a vetted, pinned address; bounds on connects; what each answer leads to |
| `Base32`, `Totp` | the Base32 codec over an overflowing 32-bit register, HOTP truncation, the code search | both round trips, the second as an if-and-only-if; six digits; the search accepts exactly the right steps |
| `PasswordLogin` | password sign-in with a code, and the start-up checks | exactly who is let in; accepted steps strictly increase over every run, wherever each sign-in stops; deployed sessions always use one up |
| `Policies` | retry and circuit breaker | the breaker is a function of its log; exactly when two trials run at once; call, delay and trial bounds |
| `Integration` | configure and test, with breaker, retry and credential resolution | every live status is the one its latest test derived, with database failures anywhere; bounds on the calls of a failing adapter |
| `TokenCache`, `StockAdapter` | the single-flight token provider in interleaved steps, and the bounded read | one login at a time, one outcome per login, exact freshness of the cache; at most two reads and two logins |
| `Identity` | role and account management in Keycloak | an enabled Super Admin remains after each single write; unprivileged actors leave enabled Super Admins as they are; reconciliation is exact |
| `Sessions` | the session table and the gate of protected routes | the table answers as the log of issues and revocations does |
| `Claims`, `SsoLogin` | role claims and sign-in through the identity provider | normal forms; subjects, emails, roles and sessions over runs of sign-ins that may stop anywhere |
| `Order`, `Paging` | keyset pages | a walk is complete and in order while the collection changes |
| `Text`, `Sets`, `Writes`, `Bits`, `Errors` | strings, finite sets, cut sequences of writes, 32-bit operators and error codes | split/join, numeral and bit-mask laws used above |

## Assumptions

- Database and Keycloak calls succeed or fail as whole steps, and any of them may
  fail: the writes of an invitation, a role change, a sign-in or a configuration
  may stop after any one, and each database call of a connection test and of the
  session table may fail by itself. Service operations that read and then write run one after another,
  except in `Policies` (calls through one breaker overlap) and `TokenCache` (steps
  interleave). A failed read is a stop before the next write.
- The clock does not go back where a statement says `Monotone`, `InOrder` or
  `FailsInOrder`; `AcceptedStepsIncrease` needs no such assumption.
- Session tokens are fresh and their hash is collision-free (an injective
  parameter).
- `net.isIP`, `new URL`, DNS, transports, argon2, HMAC-SHA-1 and AES-GCM are
  parameters: arbitrary functions, quantified over. HMAC returns 20 bytes.
- Keycloak user and group listings are complete (below the `max=1000` cut), and
  its user ids are fresh.

## Where the code and its documentation differ

- `apps/api/src/integration/policies.ts:72-76` promises a single HALF_OPEN trial.
  Two trials run at once exactly when a call starts in HALF_OPEN, or when an older
  call's late completion ends the half-open period of a trial still running and
  another trial starts (`Policies.AtMostOneTrialExactly`). `Policies.TwoTrialsHappen`
  and `Policies.OvertakenTrialHappens` are runs of the two kinds; calls that do not
  overlap keep the promise (`Policies.SerialRunsKeepPromise`).
- `apps/api/src/modules/identity/identity.service.ts:31-34` reserves any change to an
  existing Super Admin to `system.manage`. For enabled ones that holds
  (`Identity.EnabledSupersAreUntouched`), apart from signing them out. Disabled ones
  are not in the listing the guard reads, and the account's own roles show managed
  apps only. `Identity.SafeguardExactly` says exactly which requests pass: enabling
  and signing out always, disabling a disabled account, and role changes of a
  disabled account unless it holds the role directly in a managed Central Admin.
  `Identity.SuperAdminReEnabled`, `Identity.GroupSuperAdminChanged` and
  `Identity.UnmanagedSuperAdminChanged` are examples.
- `apps/api/src/middleware/requireAuth.ts:15-16` says a disabled administrator's sessions
  are revoked immediately. When that database call fails, the request is refused and
  the sessions stay (`Sessions.SessionService.RequireAuth`).
- `apps/api/src/modules/auth/oidc/oidc.service.ts:98-100` refuses an account that already has a
  subject by truthiness, so the empty subject does not hold.
  `SsoLogin.EmptySubjectIsRelinked` is the example; `SsoLogin.LinkIsForGood` and
  `SsoLogin.SubjectChangesExactly` give the exact condition.
- `packages/shared/src/index.ts:411-414` says TESTING, CONNECTED, DEGRADED and
  DISCONNECTED follow actual adapter execution only. A test derives CONNECTED only
  so; afterwards the status survives configurations that replace the adapter or the
  base URL or disable the integration (`Integration.ConnectedSurvivesChange`), and
  `Integration.SettingsSinceExactly` says when the settings are still the validated ones.
  `Integration.LiveWithoutAdapter` says exactly when a test derives each of the
  others without calling the adapter; an open breaker leaves DEGRADED, a wrong
  environment or a refused credential DISCONNECTED. TESTING is also written before
  the adapter is called, in every test.
- `apps/api/src/modules/auth/oidc/oidc.service.ts:101-113` links or creates the account before
  the account's status and the role table are checked, so a refused sign-in can
  leave a disabled account linked, or an ACTIVE account without roles;
  `SsoLogin.RefusedSignInWrites` says exactly when, `SsoLogin.DisabledAccountIsLinked`
  and `SsoLogin.UnseededAccountIsCreated` are examples.
- `apps/api/src/modules/auth/oidc/oidc.service.ts:125` replaces roles before the session
  exists, so a sign-in that fails afterwards has changed them;
  `SsoLogin.RejectedLoginChangesRoles` says exactly when.
- `apps/api/src/modules/auth/auth.service.ts:54` says accounts without a local password
  can never sign in here. The code verifies the password against a stand-in hash
  and goes on if that succeeds: `PasswordLogin.SsoOnlyAccountNeedsStandIn` is the exact
  rule, `PasswordLogin.StandInOpensSession` what follows, `PasswordLogin.StandInExample` an
  example. Verification turns an
  unparseable hash into a refusal (`apps/api/src/lib/password.ts:12-14`), so whether any
  password fits depends on the stand-in being a well-formed hash, which the model
  leaves open.
- A credential reference named `__none__` survives a configuration with an
  empty list, and only that one (`Integration.ReferencesEndAsListed`).
- With a failure threshold of zero or less the breaker is CLOSED although the counter has
  reached the threshold; `Policies.ClosedMeansBelowThreshold` makes this an
  if-and-only-if.

## Model

| member | source | states |
|---|---|---|
| Ipv6.SpellingParses | apps/api/src/integration/ssrf.ts:105-138 | every text form of an address (full, leading zeros, `::` anywhere for one or more zero groups, trailing dotted quad) is expanded to exactly its hextets |
| Ipv6.AcceptedTextIsASpelling | apps/api/src/integration/ssrf.ts:105-138 | conversely, any text the parser accepts is a text form of the hextets returned; the lemma gives the spelling |
| Ipv6.ParserAcceptsExactlyTheTextForms | apps/api/src/integration/ssrf.ts:105-138 | the parser returns h iff the text is a text form of h |
| Ipv6.AcceptedTextHasEightHextets | apps/api/src/integration/ssrf.ts:134-137 | an accepted text gives eight values in 0..65535 |
| Ipv6.PrintThenExpand | apps/api/src/integration/ssrf.ts:105-138 | printing any eight hextets, with any zero run compressed and either tail, and expanding the text gives them back |
| Ipv6.KnownTexts | apps/api/src/integration/ssrf.ts:105-138 | `::1` and `fe80::a` expand to the hextets everybody reads in them |
| Ssrf.OctetTestsAreTheRanges | apps/api/src/integration/ssrf.ts:60-75 | the comparisons on octets decide membership in the seven listed CIDR blocks; what is no dotted quad is blocked |
| Ssrf.MasksAreTheRanges | apps/api/src/integration/ssrf.ts:91-92 | the two bit-mask tests on the first hextet are membership of the 128-bit number in fe80::/10 and fc00::/7 |
| Ssrf.EmbeddedNumbers | apps/api/src/integration/ssrf.ts:96-98 | the dotted text built from two hextets denotes the low 32 bits they are |
| Ssrf.HextetTestsAreThePolicy | apps/api/src/integration/ssrf.ts:78-94 | the verdict on eight hextets is the policy by value, including mapped and compatible addresses and the signed 32-bit register at line 87 |
| Ssrf.DenotesOneAddress | apps/api/src/integration/ssrf.ts:45-58 | a text denotes at most one address, so the policy by value is well defined |
| Ssrf.AllowedIffUnblockedValue | apps/api/src/integration/ssrf.ts:45-58 | an address passes iff its normalised text denotes a value outside the blocked ranges; anything else is blocked |
| Ssrf.VerdictOnWriting | apps/api/src/integration/ssrf.ts:45-58 | an address written in any case, between white space, in brackets or with a zone gets the verdict of the address itself |
| Ssrf.NormalForms | apps/api/src/integration/ssrf.ts:45-46 | all those writings of one text normalise to that text |
| Ssrf.EmbeddedIpv4Verdict | apps/api/src/integration/ssrf.ts:81-90 | mapped and compatible addresses in every spelling get the verdict of the IPv4 address they embed |
| Ssrf.ResolvedIpsAllowed | apps/api/src/integration/ssrf.ts:144-153 | passes iff there is an address and none is blocked |
| Text.LowerIgnoresCase | apps/api/src/integration/ssrf.ts:174-175 | lower-casing makes equal exactly the texts that differ only in the case of ASCII letters, position by position |
| Text.LowerOfLetters | apps/api/src/integration/ssrf.ts:174-175 | the alphabet in capitals becomes the alphabet; text without capitals stays |
| SafeHttp.Client.PinDestination | apps/api/src/integration/http/safeHttpClient.ts:191-201 | one resolution; its failure, a blocked or empty answer, or the first address |
| SafeHttp.Client.Send | apps/api/src/integration/http/safeHttpClient.ts:203-256 | the redirect loop does exactly the hops of the specification, with the same trace of resolutions and connects |
| SafeHttp.EveryConnectIsVetted | apps/api/src/integration/http/safeHttpClient.ts:190-256 | over any resolver, transport and redirects: each connect follows the only resolution of its hop, its URL passed the allow-list in that hop, it pins the first address, and all addresses resolved are unblocked |
| SafeHttp.AllowedIsPermitted | apps/api/src/integration/ssrf.ts:160-179 | the guard passes a URL iff it parses, to http or https, a host that no pattern blocks and that some entry of the list equals ignoring case |
| SafeHttp.EveryConnectIsPermitted | apps/api/src/integration/http/safeHttpClient.ts:203-256 | over every run: each connect is to the host of a URL with those four properties |
| SafeHttp.AnswerDecides | apps/api/src/integration/http/safeHttpClient.ts:203-256 | a run whose URL is permitted and whose addresses are unblocked resolves, connects, and then: a fitting answer that is no redirect is returned; a redirect continues at its target while any are left; every other case has its stated error |
| SafeHttp.RefusalDecides | apps/api/src/integration/http/safeHttpClient.ts:203-220 | a run that does not get so far connects to nothing and returns SSRF_BLOCKED or NETWORK, as the first failing condition says |
| SafeHttp.RunIsBounded | apps/api/src/integration/http/safeHttpClient.ts:203-256 | at most one resolution and one connect for each of maxRedirects + 1 hops |
| SafeHttp.RunFollowsRedirects | apps/api/src/integration/http/safeHttpClient.ts:203-256 | the first connect goes to the given URL and each later one to the target of the redirect before it, with the same method, body and headers |
| SafeHttp.ReturnedAnswerIsFinal | apps/api/src/integration/http/safeHttpClient.ts:222-254 | a returned response is that of the last connect, is not 3xx and fits maxBytes |
| SafeHttp.BuildOutboundHeaders | apps/api/src/integration/http/safeHttpClient.ts:106-117 | the loop keeps the last value of each header that is not a spelling of Host and that an object can hold, and sets Host |
| SafeHttp.HostIsOwned | apps/api/src/integration/http/safeHttpClient.ts:106-117 | no spelling of Host from the caller survives, nothing is added, and no other header is lost except one named `__proto__`, which a plain object does not keep |
| SafeHttp.FamilyOfAllowedIp | apps/api/src/integration/http/safeHttpClient.ts:191-201 | for an allowed address, containing a colon is being IPv6, except exactly for an IPv4 address written with a zone that has a colon |
| Base32.Base32Encode | apps/api/src/lib/totp.ts:14-28 | the loop with an unmasked, overflowing 32-bit register computes the symbols of the bit string |
| Base32.Base32Decode | apps/api/src/lib/totp.ts:30-47 | likewise for decoding, with the error for a character outside the alphabet |
| Base32.AlphabetIs | apps/api/src/lib/totp.ts:10-10 | symbol i is the i-th of A to Z and 2 to 7 |
| Base32.BitOrder | apps/api/src/lib/totp.ts:14-28 | bits are read most significant first |
| Base32.FirstVector | apps/api/src/lib/totp.ts:14-28 | "f" encodes to MY, the first test vector of section 10 of RFC 4648 without its padding |
| Base32.EncodedForm | apps/api/src/lib/totp.ts:14-28 | encoded text has ceil(8n/5) alphabet symbols, whose bits are the bytes' bits and then zeros |
| Base32.DecodeOfEncode | apps/api/src/lib/totp.ts:14-47 | decoding undoes encoding for every byte string |
| Base32.EncodeOfDecode | apps/api/src/lib/totp.ts:14-47 | encoding undoes decoding iff the text is canonical: length mod 8 not 1, 3 or 6 and spare bits zero |
| Base32.DisplayDecodesAlike | apps/api/scripts/mfa-enroll.ts:59 | the secret as displayed in groups of four decodes to the same bytes |
| Totp.CounterRoundTrip | apps/api/src/lib/totp.ts:59-60 | the counter buffer determines the step |
| Totp.ByteOrder | apps/api/src/lib/totp.ts:59-60 | the most significant byte comes first |
| Totp.TruncationValue | apps/api/src/lib/totp.ts:61-63 | the offset is at most 15, so four bytes are read inside the 20-byte digest; the value is their low 31 bits modulo 10^6 |
| Totp.CodeValue | apps/api/src/lib/totp.ts:58-65 | the digits of a code denote the 31-bit big-endian number at the offset in the last byte, modulo 1000000 |
| Totp.TruncationExample | apps/api/src/lib/totp.ts:61-63 | the example of section 5.4 of RFC 4226 truncates to 872921 |
| Totp.CodeIsSixDigits | apps/api/src/lib/totp.ts:58-65 | a code is always six decimal digits with the truncated value |
| Totp.ThrowsOutOfRange | apps/api/src/lib/totp.ts:58-61 | a code cannot be computed iff the secret does not decode or the step is outside the 64-bit counter |
| Totp.VerifyTotp | apps/api/src/lib/totp.ts:72-85 | the search loop returns what the specification search finds |
| Totp.SearchFindsFirst | apps/api/src/lib/totp.ts:72-85 | the search returns the first eligible step whose code is the one given, nothing only when there is none |
| Totp.VerifyIsExact | apps/api/src/lib/totp.ts:72-85 | an accepted step lies within one of the current step, is later than the last accepted one and has the given code; a refusal means there is none |
| Totp.AcceptsExactly | apps/api/src/lib/totp.ts:53-85 | in the clock's terms: accepted iff the code is that of a step from the first usable one to one after floor(nowMs / 30000), the first usable one not being below zero |
| PasswordLogin.CollectErrors | apps/api/src/config/env.ts:251-300 | the errors collected are exactly the cross-field conditions that are violated |
| PasswordLogin.LoadSignInConfig | apps/api/src/config/env.ts:230-300 | the configuration loads iff no condition is violated, and otherwise every violated one is reported |
| PasswordLogin.ConfigFollows | apps/api/src/config/env.ts:269-286 | each field of the configuration in terms of the variables and their defaults |
| PasswordLogin.EnvironmentRefused | apps/api/src/config/env.ts:253-297 | in terms of the variables: exactly when the database, cookie, SSO and key checks fail |
| PasswordLogin.AuthService.FindByEmail | apps/api/src/modules/auth/auth.service.ts:50-50 | the account with that email, if any |
| PasswordLogin.AuthService.Put | apps/api/src/modules/auth/auth.service.ts:107-121 | a write takes effect whole or not at all |
| PasswordLogin.AuthService.Complete | apps/api/src/modules/auth/auth.service.ts:107-126 | the step, the session, the time and the reading back, as far as the database takes them |
| PasswordLogin.AuthService.SignIn | apps/api/src/modules/auth/auth.service.ts:37-137 | outcome and stored state are those of the sign-in plan, cut wherever the database fails; emails stay unique (who is let in is `PasswordLogin.LetInExactly`) |
| PasswordLogin.LetInExactly | apps/api/src/modules/auth/auth.service.ts:37-121 | for every account: signed in iff password sign-in is on, the account has the trimmed lower-cased email, is ACTIVE and on the list, its own hash (the stand-in when it has none) accepts the password, and the second factor is met |
| PasswordLogin.SecondFactorExactly | apps/api/src/modules/auth/auth.service.ts:94-118 | met iff an enrolled account, whatever the configuration, gives a code of a usable step within one of the current one, and any other account is on a configuration that requires none |
| PasswordLogin.RefusalReasons | apps/api/src/modules/auth/auth.service.ts:54-118 | exactly when each refusal is given; account, password and list share one |
| PasswordLogin.NobodyIsRefused | apps/api/src/modules/auth/auth.service.ts:50-81 | an email nobody has is refused in the same way |
| PasswordLogin.LifetimeIs | apps/api/src/modules/auth/auth.service.ts:120-120 | the configured lifetime, and beside SSO at most the break-glass one |
| PasswordLogin.LoginUsesLaterStep | apps/api/src/modules/auth/auth.service.ts:94-121 | wherever it stops: a refused sign-in changes nothing; an accepted one touches one account and records the step it used, later than the previous one and within one of the current step, before it opens its one session |
| PasswordLogin.AcceptedStepsIncrease | apps/api/src/modules/auth/auth.service.ts:95-120 | over any serial run, each sign-in stopping anywhere, the steps recorded for an administrator strictly increase and lie within one step of their moment, and no session that used a step exists without its record: none is accepted twice |
| PasswordLogin.DeployedPasswordLoginNeedsMfa | apps/api/src/config/env.ts:279-300 | a deployed configuration that loads leaves some way to sign in, and password sign-in only with codes, a 32-byte key and, beside SSO, a list of accounts |
| PasswordLogin.DeployedSignInUsesAStep | apps/api/src/modules/auth/auth.service.ts:83-120 | under any deployed configuration that loads, every password sign-in that succeeds or leaves a session used up and recorded a step; beside SSO its account is on the list |
| PasswordLogin.DeployedSessionsUseSteps | apps/api/src/modules/auth/auth.service.ts:83-120 | over every run: each session opened used a step, the step is recorded, and beside SSO its account is on the list |
| PasswordLogin.SsoOnlyAccountNeedsStandIn | apps/api/src/modules/auth/auth.service.ts:54-62 | an account without a local password is let in iff password sign-in is on, it is ACTIVE and on the list, the stand-in hash accepts the password, and the second factor passes |
| PasswordLogin.StandInOpensSession | apps/api/src/modules/auth/auth.service.ts:54-121 | under any configuration, a password that the stand-in hash accepts opens a session for such an account once status, list and second factor are passed |
| PasswordLogin.StandInExample | apps/api/src/modules/auth/auth.service.ts:54-121 | one such case, without codes and without a list |
| Policies.WithRetry | apps/api/src/integration/policies.ts:41-61 | calls, sleeps and outcome of the loop; it stops at the first success, first non-retryable error or attempt retries + 1 |
| Policies.RetryCalls | apps/api/src/integration/policies.ts:41-61 | the stopping rule fixes the number of calls, which is at most retries + 1 |
| Policies.RetryStops | apps/api/src/integration/policies.ts:50-54 | every call but the last failed with a retryable error, and the last one ended the loop for one of the three reasons |
| Policies.RetriedFailures | apps/api/src/integration/policies.ts:50-54 | a failure is retried iff attempts are left and it is no integration error marked otherwise; aborts report TIMEOUT, unknown exceptions NETWORK |
| Policies.DefaultRetries | apps/api/src/integration/errors.ts:12-30 | an integration error without explicit mark is retryable iff it is TIMEOUT, RATE_LIMITED, UPSTREAM_5XX or NETWORK |
| Policies.DelaysGrow | apps/api/src/integration/policies.ts:55-56 | without jitter the first delay is the base and each later one the factor times the one before |
| Policies.JitteredDelay | apps/api/src/integration/policies.ts:56-56 | jitter scales the delay by between one half and one, linearly in the random number |
| Policies.SleepBounds | apps/api/src/integration/policies.ts:55-57 | the total sleep of n retries is at most the sum of base*factor^i for i < n, and with jitter at least half of it |
| Policies.CircuitBreaker.constructor | apps/api/src/integration/policies.ts:78-85 | starts closed with no failures |
| Policies.CircuitBreaker.Begin | apps/api/src/integration/policies.ts:91-98 | whether a call is let through, and the state then |
| Policies.CircuitBreaker.OnSuccess | apps/api/src/integration/policies.ts:110-113 | the state after a success |
| Policies.CircuitBreaker.OnFailure | apps/api/src/integration/policies.ts:115-121 | the state after a failure |
| Policies.CircuitBreaker.Run | apps/api/src/integration/policies.ts:91-108 | a whole call around a retried task is the specification step |
| Policies.BreakerIsItsLog | apps/api/src/integration/policies.ts:77-122 | with any overlap, counter, state and opening time are determined by the log of starts and completions |
| Policies.AdmissionRule | apps/api/src/integration/policies.ts:91-98 | with any overlap, which calls are let through, in terms of the log |
| Policies.ClosedMeansBelowThreshold | apps/api/src/integration/policies.ts:110-121 | CLOSED iff fewer failures than the threshold, in every reachable state, iff the threshold is at least 1 |
| Policies.AtMostOneTrialExactly | apps/api/src/integration/policies.ts:72-121 | the two ways in which two trials come to run at once, and that there is no other: a start in HALF_OPEN, or a start after another call's late completion has ended the half-open period of a trial still running |
| Policies.SerialRunsKeepPromise | apps/api/src/integration/policies.ts:72-121 | calls that each complete before the next starts keep the promise |
| Policies.TwoTrialsHappen | apps/api/src/integration/policies.ts:91-98 | a run with two trials at once, the first started in OPEN and the second in HALF_OPEN |
| Policies.OvertakenTrialHappens | apps/api/src/integration/policies.ts:91-121 | a run with two trials at once, both started in OPEN |
| Policies.SerialBreaker | apps/api/src/integration/policies.ts:77-122 | without overlap the state is determined by the trailing run of failed calls and the last failure |
| Policies.SerialAdmissionRule | apps/api/src/integration/policies.ts:91-108 | without overlap a call runs iff that run is below the threshold or the reset time has passed since the last failure; a rejected call changes nothing |
| Policies.TargetCallsPerRun | apps/api/src/integration/policies.ts:41-122 | an always-failing target sees at most retries + 1 calls per failed run |
| Policies.TrialsAreSpaced | apps/api/src/integration/policies.ts:91-121 | failed trials after the opening are at least the reset time apart |
| Policies.FailingTargetIsSpared | apps/api/src/integration/policies.ts:41-122 | an always-failing target sees at most (retries + 1) * (threshold + floor(time since opening / reset time)) calls |
| Integration.Stopped | apps/api/src/integration/credentials/resolver.ts:29-63 | the first reference that is refused or whose access cannot be recorded, and that none before it is |
| Integration.AllResolved | apps/api/src/integration/credentials/resolver.ts:29-63 | all are handed over iff none is refused and every access is recorded |
| Integration.ReferenceRefused | apps/api/src/integration/credentials/resolver.ts:29-63 | a reference is handed over iff it is ACTIVE, of the runtime environment, from ENV and its secret is held and not empty; otherwise the code is that of the first condition that fails |
| Integration.IntegrationService.constructor | apps/api/src/integration/integration.service.ts:63-81 | no rows, events or breakers |
| Integration.IntegrationService.ConfigureIntegration | apps/api/src/integration/integration.service.ts:171-235 | the stored row, references and events are those of the configuration specification, cut wherever the database fails; 404 changes nothing |
| Integration.IntegrationService.ListReferences | apps/api/src/integration/integration.service.ts:203-228 | the deletion and one upsert per entry, as far as the database takes them |
| Integration.ConfigureSets | apps/api/src/integration/integration.service.ts:182-227 | each field is the one given, else the one before, else that of a disabled row without settings |
| Integration.ReferenceDefaults | apps/api/src/integration/integration.service.ts:208-227 | a reference comes from ENV and is ACTIVE unless it says otherwise |
| Integration.IntegrationService.ResolveCredentials | apps/api/src/integration/integration.service.ts:349-377 | accesses are recorded for exactly the references before the first stopped one, whose error is returned |
| Integration.IntegrationService.Fail | apps/api/src/integration/integration.service.ts:390-408 | status, last error and one failure event, as far as the database takes them |
| Integration.IntegrationService.Try | apps/api/src/integration/integration.service.ts:299-342 | the error the try block throws, and rows, events and breaker it leaves |
| Integration.IntegrationService.TestConnection | apps/api/src/integration/integration.service.ts:256-347 | row, events and breaker after a test, and whether it returns, are those of the test specification, whichever database calls fail (the statuses are tabulated in the next rows) |
| Integration.AdapterFailureStatus | apps/api/src/integration/integration.service.ts:299-347 | a returning test whose adapter was called and did not validate has the code of the attempt it gave up at as last error; TIMEOUT, UPSTREAM_5XX, RATE_LIMITED and NETWORK leave DEGRADED, NOT_SUPPORTED leaves NOT_APPLICABLE, the others DISCONNECTED |
| Integration.EarlyErrorStatus | apps/api/src/integration/integration.service.ts:299-347 | the same table for a returning test that ends before its adapter is called |
| Integration.RuledOut | apps/api/src/integration/integration.service.ts:268-294 | a wrong environment, a disabled row and a missing adapter leave DISCONNECTED, CONFIGURED and NOT_APPLICABLE with their codes |
| Integration.ConnectedNeedsCredentials | apps/api/src/integration/integration.service.ts:256-377 | CONNECTED by a test implies the right environment, an enabled row, a registered adapter and every reference ACTIVE, of that environment, from ENV, with a secret that is not empty |
| Integration.TestStatusExactly | apps/api/src/integration/integration.service.ts:256-347 | when a test writes a status at all, and when the one it leaves is CONNECTED or TESTING, whichever database calls fail |
| Integration.ConnectedIffValidated | apps/api/src/integration/integration.service.ts:256-347 | while the database works, a test leaves CONNECTED iff environment equal to runtime, enabled, adapter registered, all credentials resolved, egress allowed, breaker admitting and adapter validated |
| Integration.LiveStatusLaw | apps/api/src/integration/integration.service.ts:171-408 | over any run with database failures anywhere, a row has a live status iff a test derived it and since then no test wrote a status and no configuration left no adapter |
| Integration.ConnectedLaw | apps/api/src/integration/integration.service.ts:171-347 | over any run, CONNECTED iff the latest test of that integration that wrote a status validated and was saved, and no later configuration left it without an adapter |
| Integration.ConfigureNeverEntersLive | apps/api/src/integration/integration.service.ts:188-194 | configuring keeps a live status or derives one from the adapter; it never enters one |
| Integration.StepSettings | apps/api/src/integration/integration.service.ts:182-230 | a test keeps the settings it is about; a configuration keeps them iff it names only values already there |
| Integration.SettingsSinceExactly | apps/api/src/integration/integration.service.ts:182-230 | a CONNECTED row has had the validated settings ever since iff every later configuration of it named only values already there |
| Integration.ConnectedSurvivesChange | apps/api/src/integration/integration.service.ts:188-194 | CONNECTED survives another adapter, another base URL and being disabled |
| Integration.CompletedTestIsOver | apps/api/src/integration/integration.service.ts:295-346 | a test that returns does not leave TESTING |
| Integration.NoTestLeavesTesting | apps/api/src/integration/integration.service.ts:295-346 | no reachable row is TESTING as long as every test returned |
| Integration.OneTerminalEvent | apps/api/src/integration/integration.service.ts:323-408 | a test that returns records exactly one outcome, as its last event, and of the kind its status says; one that throws records none |
| Integration.LiveWithoutAdapter | apps/api/src/integration/integration.service.ts:256-347 | for each live status, the exact cases in which a test derives it without calling the adapter |
| Integration.BreakerIsOfCalls | apps/api/src/integration/integration.service.ts:242-249 | an integration's breaker is the one its tests that reached it account for |
| Integration.FailingAdapterIsSpared | apps/api/src/integration/integration.service.ts:316-322 | over every run in which an adapter always fails, it is called at most (retries + 1) * (threshold + floor(time since opening / reset time)) times, however credentials, egress and database behave |
| Integration.UpsertAllEndsAsListed | apps/api/src/integration/integration.service.ts:208-228 | a list of upserts leaves each listed name with its last entry and other rows as they were |
| Integration.ReferencesEndAsListed | apps/api/src/integration/integration.service.ts:203-230 | references end as the last entry per listed name and nothing else; with an empty list only `__none__` survives; a cut list counts as far as it got |
| Integration.ReferencesStayUnique | apps/api/src/integration/integration.service.ts:203-230 | names stay unique in every reachable row |
| TokenCache.LoginOutcome | apps/api/src/integration/adapter/stock-management/auth.ts:104-124 | a login succeeds iff it answers 200 with a non-empty string token; 401 is UNAUTHORIZED, 200 without such a token MALFORMED_RESPONSE, anything else UPSTREAM_5XX, of which only the last is retryable |
| TokenCache.PasswordLoginAuthProvider.constructor | apps/api/src/integration/adapter/stock-management/auth.ts:63-72 | an empty cache |
| TokenCache.PasswordLoginAuthProvider.GetAccessToken | apps/api/src/integration/adapter/stock-management/auth.ts:74-84 | served, started or joined, as the step specification says |
| TokenCache.PasswordLoginAuthProvider.LoginFinished | apps/api/src/integration/adapter/stock-management/auth.ts:91-124 | the settled login: token and expiry stored on success |
| TokenCache.PasswordLoginAuthProvider.Cleanup | apps/api/src/integration/adapter/stock-management/auth.ts:79-81 | the flight is dropped and its callers get its outcome |
| TokenCache.PasswordLoginAuthProvider.OnUnauthorized | apps/api/src/integration/adapter/stock-management/auth.ts:86-89 | token and expiry forgotten, the flight kept |
| TokenCache.OneLoginAtATime | apps/api/src/integration/adapter/stock-management/auth.ts:74-84 | in every interleaving, between two login starts the earlier login ended and was cleaned up |
| TokenCache.JoinersAgree | apps/api/src/integration/adapter/stock-management/auth.ts:78-83 | exactly the callers between a start and its cleanup are answered, all with the outcome of that one login |
| TokenCache.AnsweredOnce | apps/api/src/integration/adapter/stock-management/auth.ts:74-84 | a waiting call is answered exactly once, or its login is not over |
| TokenCache.ServedExactlyWhileFresh | apps/api/src/integration/adapter/stock-management/auth.ts:75-77 | a call is served at once iff the latest successful login has not been forgotten and is younger than ttl, and then with its token |
| TokenCache.LoginsAreSpaced | apps/api/src/integration/adapter/stock-management/auth.ts:75-89 | without a reported 401, a login that follows a successful one starts at least ttl after it |
| StockAdapter.RefusedForGood | apps/api/src/integration/adapter/stock-management/stockManagementAdapter.ts:22-36 | only 401, 403 and 404 are not retryable; 5xx maps to UPSTREAM_5XX |
| StockAdapter.StockManagementAdapter.constructor | apps/api/src/integration/adapter/stock-management/stockManagementAdapter.ts:52-55 | no request sent |
| StockAdapter.StockManagementAdapter.Await | apps/api/src/integration/adapter/stock-management/auth.ts:74-84 | a provider used by one caller logs in when empty and yields the token or the login's error |
| StockAdapter.StockManagementAdapter.Get | apps/api/src/integration/adapter/stock-management/stockManagementAdapter.ts:87-112 | result and requests of the attempt loop are those of the specification; the throw after the loop is never reached |
| StockAdapter.CredentialUsed | apps/api/src/integration/adapter/stock-management/stockManagementAdapter.ts:69-112 | a set API token is the token of every read, with no login; else the token of a login where email and password are set; else none |
| StockAdapter.StatusErrors | apps/api/src/integration/adapter/stock-management/stockManagementAdapter.ts:21-36 | the code and retryability of a refused read, status by status |
| StockAdapter.FetchIsBounded | apps/api/src/integration/adapter/stock-management/stockManagementAdapter.ts:70-112 | at most two reads and two logins; a second attempt iff the first read answered 401 with a token; a returned response is below 400 and is the last read's; an error is that of the last request |
| Identity.IdentityService.Put | apps/api/src/modules/identity/identity.service.ts:206-223 | a write takes effect whole or not at all |
| Identity.IdentityService.Validate | apps/api/src/modules/identity/identity.service.ts:183-203 | the first unknown app or role is refused before any write |
| Identity.IdentityService.ApplyOne | apps/api/src/modules/identity/identity.service.ts:210-222 | one app: additions, then removals, up to the first failed write |
| Identity.IdentityService.ApplyAppRoles | apps/api/src/modules/identity/identity.service.ts:206-225 | the writes of the plan up to the first failure; added and removed are the two set differences over the listed apps |
| Identity.IdentityService.InviteUser | apps/api/src/modules/identity/identity.service.ts:227-253 | accepted exactly as `InviteAccepted` says; once complete, one new enabled user in no group with exactly the requested roles, and nobody else changed; else the planned writes up to the failed one |
| Identity.IdentityService.SetUserAppRoles | apps/api/src/modules/identity/identity.service.ts:284-308 | accepted exactly as `RolesAccepted` says; once complete, each listed app has exactly the desired roles and nothing else differs; else the planned writes up to the failed one |
| Identity.IdentityService.SetUserEnabled | apps/api/src/modules/identity/identity.service.ts:347-365 | accepted exactly as `EnableAccepted` says; once complete, the flag is the one asked for and nothing else differs; else nothing changed |
| Identity.AcceptedExactly | apps/api/src/modules/identity/identity.service.ts:176-365 | for every actor and account: exactly when each operation goes through, in terms of the realm's users, groups and roles |
| Identity.RefusedWith | apps/api/src/modules/identity/identity.service.ts:227-365 | exactly when each refusal is FORBIDDEN, LAST_SUPER_ADMIN, SELF_DISABLE or, for a role change, NOT_FOUND |
| Identity.SuperExactly | apps/api/src/modules/identity/identity.service.ts:147-165 | who counts as an enabled Super Admin: an enabled user with the role itself or through a group |
| Identity.ValidExactly | apps/api/src/modules/identity/identity.service.ts:182-203 | the check passes iff every listed app is managed and known and has every role asked for |
| Identity.InviteComesTo | apps/api/src/modules/identity/identity.service.ts:227-253 | what an accepted invitation leaves once all its writes are made |
| Identity.SetRolesComesTo | apps/api/src/modules/identity/identity.service.ts:284-308 | likewise for a role change |
| Identity.EnableComesTo | apps/api/src/modules/identity/identity.service.ts:347-365 | likewise for enabling and disabling |
| Identity.RoleWritesExact | apps/api/src/modules/identity/identity.service.ts:206-225 | executing all role writes leaves the listed apps with the listed roles and nothing else changed |
| Identity.SecondRunIsNoOp | apps/api/src/modules/identity/identity.service.ts:213-219 | once the roles are as listed, the same request writes nothing |
| Identity.ReconciliationIsExact | apps/api/src/modules/identity/identity.service.ts:206-225 | a completed run leaves each listed app with precisely the desired roles, other apps and users untouched, and a second run empty |
| Identity.SuperRemainsAfterEachWrite | apps/api/src/modules/identity/identity.service.ts:284-365 | after each write of an accepted operation an enabled Super Admin remains |
| Identity.SuperAdminAlwaysRemains | apps/api/src/modules/identity/identity.service.ts:148-365 | the same over every serial run with failures anywhere, whichever apps are managed |
| Identity.UnprivilegedActorsKeepSupers | apps/api/src/modules/identity/identity.service.ts:227-365 | an operation by an actor without system.manage keeps the direct holders and loses no enabled Super Admin, at each write |
| Identity.UnprivilegedRunKeepsSupers | apps/api/src/modules/identity/identity.service.ts:227-365 | the same over whole runs of such actors |
| Identity.EnabledSupersAreUntouched | apps/api/src/modules/identity/identity.service.ts:227-365 | over whole runs of actors without system.manage the record of an enabled Super Admin is the same at each write |
| Identity.SafeguardExactly | apps/api/src/modules/identity/identity.service.ts:284-393 | for every Super Admin account, direct or by group, enabled or not: exactly when role changes, enabling, disabling and sign-out by an actor without system.manage go through |
| Identity.GroupSuperAdminChanged | apps/api/src/modules/identity/identity.service.ts:288-297 | such an actor gives a role to a disabled Super Admin who is one through a group |
| Identity.UnmanagedSuperAdminChanged | apps/api/src/modules/identity/identity.service.ts:288-297 | the same for a direct holder when Central Admin is not a managed app |
| Identity.SuperAdminReEnabled | apps/api/src/modules/identity/identity.service.ts:347-364 | an actor without system.manage re-enables a disabled Super Admin |
| Sessions.SessionService.CreateSession | apps/api/src/modules/auth/session.service.ts:25-50 | one row more, never outliving the configured lifetime, or none when the database fails; table and log agree |
| Sessions.SessionService.ResolveSession | apps/api/src/modules/auth/session.service.ts:61-81 | answers as the log does, whether or not the expired row could be deleted |
| Sessions.SessionService.RevokeSessionByToken | apps/api/src/modules/auth/session.service.ts:101-106 | revokes the token, or nothing when the database fails |
| Sessions.SessionService.RevokeAllSessions | apps/api/src/modules/auth/session.service.ts:109-113 | revokes every session of an administrator and counts them, or none when the database fails |
| Sessions.SessionService.RevokeSessionsByOidcSid | apps/api/src/modules/auth/session.service.ts:94-98 | revokes every session of one session at the identity provider and counts them, or none when the database fails |
| Sessions.SessionService.RequireAuth | apps/api/src/middleware/requireAuth.ts:18-55 | admits exactly the tokens that resolve to an ACTIVE administrator; revokes all sessions of a disabled one, who is refused even if that fails; and otherwise leaves the log alone |
| Sessions.PurgeRefines | apps/api/src/modules/auth/session.service.ts:94-113 | issuing and revoking keep table and log together |
| Sessions.SweepRefines | apps/api/src/modules/auth/session.service.ts:71-74 | dropping expired rows, or not, changes no answer |
| Sessions.LookupIsTheLog | apps/api/src/modules/auth/session.service.ts:61-81 | a token resolves iff issued, unexpired and not covered by a later revocation |
| Sessions.DeadStaysDead | apps/api/src/modules/auth/session.service.ts:61-81 | an issued token that no longer resolves never does again |
| Sessions.RevokedAdminIsOut | apps/api/src/modules/auth/session.service.ts:109-113 | after a revocation by administrator none of the tokens issued so far resolves to that administrator |
| Sessions.RevokedTokenIsOut | apps/api/src/modules/auth/session.service.ts:101-106 | after a revocation by token it resolves to nobody |
| Sessions.RevokedSidIsOut | apps/api/src/modules/auth/session.service.ts:94-98 | a revocation by provider session ends exactly the sessions issued under it |
| Sessions.IssuedIsIn | apps/api/src/modules/auth/session.service.ts:25-81 | a session just issued resolves to its administrator before its expiry and, for a fresh token, not after |
| Sessions.RunRefines | apps/api/src/modules/auth/session.service.ts:25-113 | every serial run keeps table and log together |
| Sessions.TokensResolveByTheLog | apps/api/src/modules/auth/session.service.ts:25-113 | after every serial run, whichever expired rows were deleted, the table answers as the log |
| Claims.ReadClaimPath | apps/api/src/modules/auth/oidc/claims.ts:12-21 | the loop walks the dotted path and stops at the first missing step |
| Claims.ExtractRoleKeys | apps/api/src/modules/auth/oidc/claims.ts:28-39 | the loop collects the known keys |
| Claims.RoleKeysNormalForm | apps/api/src/modules/auth/oidc/claims.ts:28-39 | the roles are strictly increasing and are exactly the known keys among the values |
| Claims.RolesOfToken | apps/api/src/modules/auth/oidc/claims.ts:12-39 | on the claims themselves: with `realm_access.roles` a list, exactly its members among the five named keys; with a single text, that one if it is a key; otherwise none |
| Claims.NoRolesInToken | apps/api/src/modules/auth/oidc/claims.ts:12-39 | without the claim, no role |
| Claims.RoleKeysIgnoreOrder | apps/api/src/modules/auth/oidc/claims.ts:28-39 | claims with the same values give the same roles |
| Claims.JoinedRolesAgree | apps/api/src/modules/auth/oidc/oidc.service.ts:168-171 | the comparison of joined texts holds iff stored and token roles are the same set |
| Claims.AppRolesNormalForm | apps/api/src/modules/auth/oidc/claims.ts:75-91 | exactly the allowed clients with some role, `__proto__` excepted, each with its role strings sorted and without repeats |
| Claims.ParseOfExtracted | apps/api/src/modules/auth/permissions.ts:18-28 | reading the stored value gives back what sign-in extracted |
| Claims.ParseOfParsed | apps/api/src/modules/auth/permissions.ts:18-28 | parsing is idempotent for any stored value |
| SsoLogin.SsoService.FindBySubject | apps/api/src/modules/auth/oidc/oidc.service.ts:89-89 | the administrator with that subject, if any |
| SsoLogin.SsoService.FindByEmail | apps/api/src/modules/auth/oidc/oidc.service.ts:93-93 | the administrator with that email, if any |
| SsoLogin.SsoService.Put | apps/api/src/modules/auth/oidc/oidc.service.ts:101-143 | a write takes effect whole or not at all |
| SsoLogin.SsoService.SyncRoles | apps/api/src/modules/auth/oidc/oidc.service.ts:162-190 | roles become the token's; or nothing changes, because the role table lacks one or the database fails |
| SsoLogin.SsoService.CompleteFor | apps/api/src/modules/auth/oidc/oidc.service.ts:121-148 | the part after the account is known |
| SsoLogin.SsoService.CompleteSsoLogin | apps/api/src/modules/auth/oidc/oidc.service.ts:53-159 | outcome and tables are those of the sign-in plan, cut wherever the database fails |
| SsoLogin.SsoService.ApplyBackchannelLogout | apps/api/src/modules/auth/oidc/oidc.service.ts:196-216 | ends the sessions the token names and counts them, or none when the database fails |
| SsoLogin.AttemptKeepsUnique | apps/api/src/modules/auth/oidc/oidc.service.ts:88-143 | emails and subjects stay unique wherever a sign-in stops |
| SsoLogin.RunKeepsUnique | apps/api/src/modules/auth/oidc/oidc.service.ts:88-143 | the same over every serial run |
| SsoLogin.SubjectChangesExactly | apps/api/src/modules/auth/oidc/oidc.service.ts:88-107 | a sign-in changes the subject of an existing account iff the subject is new, the verified email is its own, it had no subject or an empty one, and the database took the first write |
| SsoLogin.LinkIsForGood | apps/api/src/modules/auth/oidc/oidc.service.ts:88-107 | over every serial run, each sign-in stopping anywhere, a non-empty subject stays with its administrator and with nobody else |
| SsoLogin.EmptySubjectIsRelinked | apps/api/src/modules/auth/oidc/oidc.service.ts:98-104 | two sign-ins from an empty table: an account created with an empty subject is taken over by the next subject with that email |
| SsoLogin.LinkingNeedsVerifiedEmail | apps/api/src/modules/auth/oidc/oidc.service.ts:91-107 | linking, or signing in to, an account not linked to the subject needs its verified email and no other subject |
| SsoLogin.RoleRowsComplete | apps/api/src/modules/auth/oidc/oidc.service.ts:173-177 | as many role rows as roles means the same roles |
| SsoLogin.SyncIsExact | apps/api/src/modules/auth/oidc/oidc.service.ts:162-190 | the sync succeeds iff the roles are already right or all seeded, and then the roles are the token's |
| SsoLogin.LetInExactly | apps/api/src/modules/auth/oidc/oidc.service.ts:81-126 | from the inputs: a sign-in is let in, and as whom, iff roles and email are present, the subject is known or the email is verified and not linked elsewhere or nobody's, the account is not disabled, and every role is seeded |
| SsoLogin.RejectionReasons | apps/api/src/modules/auth/oidc/oidc.service.ts:81-123 | exactly when each of the five refusals is given |
| SsoLogin.ProfileFollows | apps/api/src/modules/auth/oidc/oidc.service.ts:127-141 | after a success the email is the token's unless somebody else has it, the name is the token's unless that is empty, and the app roles are the token's |
| SsoLogin.SignInIsOrderly | apps/api/src/modules/auth/oidc/oidc.service.ts:88-143 | wherever a sign-in stops: link or creation, then exactly the token's roles, then the profile, then one session, and nothing else; a refused one stops after the first of these |
| SsoLogin.RefusedSignInWrites | apps/api/src/modules/auth/oidc/oidc.service.ts:81-126 | a refused sign-in has changed something iff its token has roles and email, a new subject and an adoptable account; the change is that one link or creation, and the refusal is for a disabled account or an unseeded role |
| SsoLogin.DisabledAccountIsLinked | apps/api/src/modules/auth/oidc/oidc.service.ts:101-123 | a disabled account without subject: refused, and linked |
| SsoLogin.UnseededAccountIsCreated | apps/api/src/modules/auth/oidc/oidc.service.ts:110-125 | nothing seeded, email not verified: refused, and an ACTIVE account exists |
| SsoLogin.LoginIsAllOrNothing | apps/api/src/modules/auth/oidc/oidc.service.ts:53-159 | a successful sign-in ends ACTIVE, linked, with exactly the token's roles and one new session; a refused one changes no roles and creates no session |
| SsoLogin.RejectedLoginChangesRoles | apps/api/src/modules/auth/oidc/oidc.service.ts:125-148 | a rejected sign-in has changed roles iff its token would have been let in, its roles were not the account's and the database failed after the role write; it leaves a session iff the account could not be read back |
| SsoLogin.SessionComesLast | apps/api/src/modules/auth/oidc/oidc.service.ts:121-143 | a session only appears with link, roles and profile of its token in place |
| SsoLogin.LoginKeepsRolesInTable | apps/api/src/modules/auth/oidc/oidc.service.ts:173-184 | stored roles are always seeded ones, wherever a sign-in stops |
| SsoLogin.RunKeepsRolesInTable | apps/api/src/modules/auth/oidc/oidc.service.ts:173-184 | the same over every serial run |
| SsoLogin.LogoutEndsExactly | apps/api/src/modules/auth/oidc/oidc.service.ts:201-209 | back-channel logout ends a session iff its sid is named, or no sid is and its administrator has the named subject |
| Order.LessExactly | apps/api/src/modules/apps/jeevamitra/jeevamitra.store.ts:130-131 | names are ordered by the first code point in which they differ, a proper prefix first |
| Paging.ListVets | apps/api/src/modules/apps/pasunestam/pasunestam.store.ts:309-325 | the loop that fills in the records returns the same page as the shared cursor scheme; every id listed is that of a document with role vet, and email and disabled are those of its account, or absent |
| Paging.UsersListed | apps/api/src/modules/apps/jeevamitra/jeevamitra.store.ts:126-138 | each listed user is a document with the role and verification asked for, shown with its own |
| Paging.HitsAreTheMatches | apps/api/src/modules/apps/jeevamitra/jeevamitra.store.ts:126-138 | the query result: the matching documents beyond the cursor, in name order |
| Paging.PageOfHits | apps/api/src/modules/apps/jeevamitra/jeevamitra.store.ts:134-137 | a page holds the first hits, at most limit; there is a next cursor iff some are left, and it is the last name on the page |
| Paging.PageIsAWindow | apps/api/src/modules/apps/jeevamitra/jeevamitra.store.ts:126-138 | a page is increasing, beyond the cursor, only matches, and leaves no gap up to the next cursor |
| Paging.WalkIsIncreasing | apps/api/src/modules/apps/jeevamitra/jeevamitra.store.ts:126-138 | following the cursor, with the collection changing, returns strictly increasing names |
| Paging.WalkReturnsMatches | apps/api/src/modules/apps/jeevamitra/jeevamitra.store.ts:126-138 | everything returned matched when its page was read |
| Paging.WalkCovers | apps/api/src/modules/apps/jeevamitra/jeevamitra.store.ts:126-138 | a completed walk leaves out nothing that matched throughout |
| Paging.WalkIsComplete | apps/api/src/modules/apps/jeevamitra/jeevamitra.store.ts:126-138 | a completed walk from the start returns each document that matches throughout exactly once, in order, whatever is inserted or removed between pages |
| Paging.WalkByFields | apps/api/src/modules/apps/jeevamitra/jeevamitra.store.ts:126-138 | the same in terms of the documents' role and isVerified: a completed walk returns each id that fits throughout exactly once, and none that fitted on no page |
| Paging.WalkOfVets | apps/api/src/modules/apps/pasunestam/pasunestam.store.ts:309-325 | a completed walk of the vets returns each id that is a vet's throughout exactly once, and none that never was |
| Paging.PagesAreCeiling | apps/api/src/modules/apps/jeevamitra/jeevamitra.store.ts:134-137 | the page count used below is max(1, ceil(n / limit)) |
| Paging.FixedWalkLength | apps/api/src/modules/apps/jeevamitra/jeevamitra.store.ts:126-138 | on a fixed collection the walk ends after that many pages and has returned all n matches |

## Left out

- The web app, routing, request schemas, cookies, CORS, rate limits, logging and audit entries: wiring without decisions of this kind. `SignIn` accepts any text as a code, where the route admits six digits only.
- `changePassword`, `adminUsers.service.ts`, offset pagination, `sanitizeReturnTo`, `scrubMetadata`, the host pattern list and the rest of `loadConfig`: short branches or simpler copies of what is proved here. The host pattern list is a parameter of `SafeHttp`.
- Ssrf.OctetTestsAreTheRanges: octets are decimal numerals; other texts that JavaScript's `Number` accepts (hexadecimal, exponents, blanks) count as unparseable, so blocked. `net.isIP` lets none of them through as IPv4.
- Text.Lower: maps ASCII letters only; other letters are left as they are.
- Claims.ReadClaimPath: claims are plain JSON values; properties a JavaScript object inherits from its prototype are not found.
- Claims.AppRolesNormalForm: role strings are sorted by code point. JavaScript's `sort` compares UTF-16 code units, which differs outside the Basic Multilingual Plane. (For document names code-point order is Firestore's own.)
- Integration.IntegrationService.TestConnection: breakers are kept by value per integration, so two callers do not share a breaker object; latencies are not modelled, and a test's breaker reads the clock at the test's start and end.
- Policies.WithRetry: delays are real numbers; floating-point rounding is not modelled, and neither are real timers and abort signals (`withTimeout` is its outcome only).
- Sessions.SessionService.ResolveSession: the sliding `lastUsedAt` and the stored ID token hint are not kept.
- Identity.IdentityService.SetUserAppRoles: ending sessions after a removal, and the Firebase revocation and logout calls of a disable or sign-out, write nothing that decides who is a Super Admin and are left out; sign-out is the operation that writes nothing.
- Identity.IdentityService.InviteUser: the invitation mail is left out; it does not change roles.
- PasswordLogin.AuthService.SignIn: event recording and the user record returned to the client are left out; argon2 and AES-GCM are parameters, and a secret that cannot be decrypted is an error like any other throw.
- SafeHttp.Client.Send: the deadline appears as the flag of a failed transport; sockets, TLS and the streaming size limit of the default transport are not modelled.
- StockAdapter.StockManagementAdapter.Get: the path, the trailing slash of the base URL and the schemas of the bodies are left out; `/health` uses no token and no loop.
- TokenCache.PasswordLoginAuthProvider.Cleanup: the callers are answered in the step that clears the flight; in JavaScript they resume in later microtasks, with the same outcome.
- Races between separate reads and writes of the services: the code takes no locks, and those runs are serial here.
