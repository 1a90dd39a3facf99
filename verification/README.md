# A verified model of Kovcheg's stateful cores

Kovcheg is a messenger back end: an authentication service, an API with real-time sockets, a worker
that moves messages from a transactional outbox to those sockets, and a web client. This project
models its stateful parts in Dafny and proves what they promise, over all inputs, all runs and, where
several processes meet, all interleavings.

| part | files | what is modelled |
|---|---|---|
| Authentication repository | `AuthState`, `LocalAuthRepository`, `AuthInvariant`, `AuthOutcomes`, `AuthAccess`, `AuthRuns`, `AuthRevocation`, `AuthSessionLife`, `AuthChallengeBudget`, `AuthSignCounter` | the mutable class with its eight maps, operation by operation, what each operation does to the records, and what its runs keep |
| Limits and service | `RateLimiters`, `LimitLoops`, `AuthService` | both sliding-window limiters against a full log, the loops that charge them, challenge and session requests |
| Passkey ceremonies | `PasskeyCeremonies`, `PasskeyRuns` | the single-use store, the finishing requests, and all their interleavings |
| Outbox | `Outbox`, `OutboxRuns` | claim, mark and release, one publishing round, any number of publishers |
| Real-time delivery | `RelayReplies`, `Gateway`, `DeliveryRuns`, `DeliveryLoop`, `DeliveryProgress`, `Pipeline` | relay, gateway, peers and sockets as programs and as a step system, and the two systems joined at their stream |
| History and subscription | `Messages`, `SubscriptionRuns`, `SubscriptionLoss`, `History`, `ClientSync` | pages, walks, join before snapshot and when it loses something, catching up |
| Client state | `Timeline`, `TimelineBound`, `Deduplicators` | the timeline merge, what bounding it between merges changes, and the two bounded de-duplicators |
| Cookies | `Cookies` | the two readers of the session cookie |

Code that updates state in place is a class or a method with loops, proved against a function of the
old state; the promises are lemmas about that function. Processes that meet at an await are step
systems: a state, the moves, a run as a sequence of moves, an invariant kept by every move.

`dafny verify dfyconfig.toml` checks everything.

## Assumptions

- Ids and tokens from the random source are new. Only the results that need it say so (`FreshRun` for
  challenge ids, new call, request, socket and instance ids in the step systems).
- The clock does not run backwards where a result says so (`Clocked`), for the limiters each key by
  itself. `invalidateChallenge` is called with the time of issue, so it is exempt.
- Operations of one repository object run one at a time, in order; an earlier failure does not block a
  later one. SQL statements, Redis commands and scripts are atomic.
- Sequences of one chat are unique and appended in increasing order, a message id stands for one
  message, and an event enters the outbox with its message. The SQL functions that ensure it are not
  part of this model.
- The adapter's acknowledged emission reaches the live instances, resolves only when each has answered
  once or has been found dead, and gives up an instance only when it is dead. Session checks fail
  closed; the membership query answers truly or fails.
- Keyed hashes are injective and compared for equality; keys of different limits differ.
- Message ids are numbered in the order the collation gives them, which is total; a draft's prefixed id
  is never a message id.

## What turned out

- The service accepts passkey challenges of 1 to 1366 characters (apps/auth/src/a2/passkey-service.ts:52),
  the store hands back only those of 16 to 512 (apps/auth/src/a2/passkey-ceremony-store.ts:22):
  `LostChallenges` gives the exact condition, `ShortChallengesAreLost` an instance.
- Whole-key expiry of the Redis limiter is harmless exactly when every dropped key's newest stored
  attempt is at least a window behind the caller's clock: `ExpiryIsHarmlessExactlyWhen`. The script
  reads the caller's clock for the window and the server's for expiry; if for each key the callers'
  clock gains at least what the server's does this always holds (`SteadyClocksAreHarmless`), otherwise
  it may fail (`ExpiryNeedsTheClocks`).
- The panel cuts its list to 400 items after every update. That shows in a later list unless nothing is
  forgotten for good or the later batch brings at least as many newer items as it settles drafts
  (`EarlyBoundIsExact`); forward pages meet the condition whenever the list starts out tidy and within
  the bound (`PagesAreExact`), a page of older messages may not (`OlderBatchesMayDiffer`).
- A subscription that fails takes its socket out of the room even when an earlier subscription of the
  same socket to the same chat has joined it (apps/api/src/realtime/realtime.gateway.ts:136). From then
  on messages can be lost, and only then: `NothingIsLostExactlyWhen`.
- The two de-duplicators agree on every sequence over a set of events exactly when in that set the
  message follows from the event id (`AgreementIsDetermination`); the list version with capacity zero
  never forgets.
- Validating and authenticating a session differ exactly for a session presented before it was issued.
- The cookie names of the two services agree exactly when the cookie is secure in production and only
  there.

## Model

| member | source | states |
|---|---|---|
| AuthInvariant.StepKeepsInv | apps/auth/src/a2/local-adapters.ts:157-766 | Every operation, whatever its arguments and the clock, keeps the repository consistent: the e-mail and id indexes are inverse and so are the two passkey indexes; exactly one server owner exists once any account does and it stays a platform administrator; no grant repeats; the idle bound is always the smaller of the absolute bound and the last touch plus the idle lifetime; a challenge is never both used and invalidated and never counts more wrong codes than allowed; an account has at most one open challenge; a deactivated account has no live session, open challenge or unrevoked passkey |
| AuthInvariant.ReachableInv | apps/auth/src/a2/local-adapters.ts:140-768 | All of this holds in every state reachable from an empty repository |
| AuthRevocation.ReachableAccounts | apps/auth/src/a2/local-adapters.ts:237-274 | In every reachable state with an account there is exactly one server owner, it holds `platform_administrator`, an e-mail leads to an account exactly when the account has that e-mail, a credential to a passkey likewise, and no grant repeats |
| AuthRuns.DeactivationIsTotal | apps/auth/src/a2/local-adapters.ts:672-705 | In every reachable state a deactivated account has no unrevoked session, no open challenge and no unrevoked passkey |
| AuthRuns.StepOnlyCloses | apps/auth/src/a2/local-adapters.ts:157-737 | No operation removes a session, passkey or challenge, reassigns it, rewrites `revokedAt` or `usedAt`, lowers a counter or reopens what is closed |
| AuthRuns.DeactivationIsPermanent | apps/auth/src/a2/local-adapters.ts:672-705 | Whatever is done after a deactivation, reactivation included, none of the account's earlier sessions, passkeys or challenges works again |
| AuthRevocation.ReportIsExact | apps/auth/src/a2/local-adapters.ts:603-670 | Every revocation call and security reset reports exactly the number of sessions that were live before it and are not afterwards |
| AuthRevocation.SecurityResetIsExact | apps/auth/src/a2/local-adapters.ts:157-194 | A security reset reports the exact numbers of live sessions, open challenges and unrevoked passkeys of the account, leaves none, and leaves every other account's as they were except the acting session's idle clock |
| AuthRevocation.RevokeAllIsExact | apps/auth/src/a2/local-adapters.ts:603-620 | Revoking all reports the account's number of live sessions, leaves none, and leaves every other session, challenge, passkey and account as it was except the acting session's idle clock |
| AuthRevocation.RevokeSessionIsExact | apps/auth/src/a2/local-adapters.ts:639-659 | Revoking one session answers true exactly when the account has a live session of that id, and then revokes one such session and nothing else; only the acting session's idle clock moves besides |
| AuthRevocation.NoSessionCountedTwice | apps/auth/src/a2/local-adapters.ts:157-194 | Over any run the reports of all revocation calls add up to the number of different sessions they counted, each live before and revoked after |
| AuthRevocation.ThrowingChangesNothing | apps/auth/src/a2/local-adapters.ts:739-761 | An administrative call that throws changes nothing except the acting session's idle clock |
| AuthAccess.DeactivationShutsOut | apps/auth/src/a2/local-adapters.ts:672-705 | After an accepted deactivation, and through every later run until activation is asked for, none of the account's sessions authenticates or validates, its address is sent no challenge, none of its challenges opens anything, the bridge opens nothing for it, and none of its passkeys is read or logs in |
| AuthAccess.ReactivationReopens | apps/auth/src/a2/local-adapters.ts:672-705 | After an accepted activation the account is active: past its cooldown its address is sent a challenge and an unused bridge token opens a session, while the sessions it had while deactivated stay closed |
| AuthAccess.AdministratorsAreMade | apps/auth/src/a2/local-adapters.ts:452-466 | Over any run, whoever administers at the end and did not at the start was made administrator by bootstrapping the very first account or by the owner, acting on a session that might administer |
| AuthAccess.ManagersAreAdmitted | apps/auth/src/a2/local-adapters.ts:739-761 | A session is told that it may manage accounts exactly when administrative requests on it get past the check; any other such request changes nothing |
| AuthAccess.NewAddressWorks | apps/auth/src/a2/local-adapters.ts:422-443 | A created account is sent a challenge at its address; an account whose address changed at the new one and no longer at the old one |
| AuthAccess.RevokedNeverActs | apps/auth/src/a2/local-adapters.ts:661-670 | A session revoked by its token authenticates and validates at no later point of any run |
| AuthAccess.OnlyTheNewestOpens | apps/auth/src/a2/local-adapters.ts:481-520 | Once a challenge has been issued, no code opens an earlier one of the account, in any later run |
| AuthAccess.TakenBackNeverOpens | apps/auth/src/a2/local-adapters.ts:468-475 | Nor one that was taken back |
| AuthAccess.RegisteredLogsIn | apps/auth/src/a2/local-adapters.ts:556-601 | A registered passkey is read back as it was registered and logs its account in, on a session that may act |
| AuthAccess.OwnersCanStart | apps/auth/src/a2/local-adapters.ts:237-274 | From nothing, bootstrapping, a challenge and its code reach a session of the owner that may administer |
| AuthAccess.AccountsCanBeAdministered | apps/auth/src/a2/local-adapters.ts:672-705 | From every reachable state in which a session may administer, an account can be made, deactivated and activated again |
| AuthOutcomes.AuthenticateOutcome | apps/auth/src/a2/local-adapters.ts:196-217 | Which sessions authenticate, what the principal tells, how the session is touched, and that one that may not act any more is revoked: all on the stored fields, everything else unchanged |
| AuthOutcomes.ValidateOutcome | apps/auth/src/a2/local-adapters.ts:219-235 | Which sessions validate, and that the principal tells account and session as stored |
| AuthOutcomes.OidcOutcome | apps/auth/src/a2/local-adapters.ts:386-420 | When the bridge opens a session, says no or conflicts, and the one session it adds, field by field |
| AuthOutcomes.RevokeByVerifierOutcome | apps/auth/src/a2/local-adapters.ts:661-670 | True exactly for a live session, which then is revoked at that time and nothing else |
| AuthOutcomes.IssueOutcome | apps/auth/src/a2/local-adapters.ts:481-520 | Issued exactly for an active account past its cooldown; then the new challenge is stored unused for it, its other open ones are invalidated, and the cooldown starts |
| AuthOutcomes.InvalidateOutcome | apps/auth/src/a2/local-adapters.ts:468-475 | Exactly an unused challenge is invalidated at that time |
| AuthOutcomes.ConsumeOutcome | apps/auth/src/a2/local-adapters.ts:335-384 | The answer and the whole new state for every challenge, code and account: not compared, wrong and counted, closed, conflicting, or spent on the session asked for |
| AuthOutcomes.RegisterOutcome | apps/auth/src/a2/local-adapters.ts:556-601 | Who registers which credential, and the passkey stored, field by field |
| AuthOutcomes.ReadOutcome | apps/auth/src/a2/local-adapters.ts:522-554 | A credential is read exactly when usable and made by then, and as stored |
| AuthOutcomes.LoginOutcome | apps/auth/src/a2/local-adapters.ts:276-333 | A sound login succeeds and opens the session asked for; every other one changes nothing, with the answer it gets |
| AuthOutcomes.BootstrapOutcome | apps/auth/src/a2/local-adapters.ts:237-274 | The very first account is an active owner and administrator; later only the same names are answered, with the stored account |
| AuthOutcomes.GateOutcome | apps/auth/src/a2/local-adapters.ts:739-761 | Exactly an acceptable session of an administrator gets past, and only its idle clock moves |
| AuthOutcomes.CreateAccountOutcome | apps/auth/src/a2/local-adapters.ts:422-443 | Refusals and their order; otherwise an active account without grants, found by id and address |
| AuthOutcomes.GiveGrantOutcome | apps/auth/src/a2/local-adapters.ts:452-466 | Refusals and their order, only the owner giving administration; otherwise the grant is held after those held before |
| AuthOutcomes.TakeGrantOutcome | apps/auth/src/a2/local-adapters.ts:622-637 | Refusals and their order; otherwise the grant is cut out and the others stay in place |
| AuthOutcomes.SetStatusOutcome | apps/auth/src/a2/local-adapters.ts:672-705 | The status asked for is stored and replied, no other field or account changes, and deactivating closes exactly what the account had open |
| AuthOutcomes.SetDomainStatusOutcome | apps/auth/src/a2/local-adapters.ts:707-716 | The domain status asked for is stored and replied, and nothing else changes |
| AuthOutcomes.UpdateAccountOutcome | apps/auth/src/a2/local-adapters.ts:718-737 | Address and name are stored and replied; the new address leads to the account, the old one to nobody, the others where they did |
| AuthOutcomes.SecurityResetOutcome | apps/auth/src/a2/local-adapters.ts:157-194 | Exactly what the account had open is closed, and no account changes |
| AuthOutcomes.RevokeOneOutcome | apps/auth/src/a2/local-adapters.ts:639-659 | The first live session of that id and account, in the order of creation, is revoked; the answer says whether there is one |
| AuthSessionLife.TouchesLink | apps/auth/src/a2/local-adapters.ts:196-217 | Over any run the touches of a session are each less than the idle lifetime after the one before and before the absolute bound, and the last one is what the session shows |
| AuthSessionLife.SessionLife | apps/auth/src/a2/local-adapters.ts:196-235 | Over any run a session is accepted at a time exactly when it is unrevoked, its account is active, and the time lies before the absolute bound and within the idle lifetime of the last touch in the chain that starts at its creation |
| AuthSessionLife.LinkedReach | apps/auth/src/a2/local-adapters.ts:213-214 | A session accepted after n touches is less than n idle lifetimes older than its creation |
| AuthSessionLife.ValidateAgreesWithAuthenticate | apps/auth/src/a2/local-adapters.ts:219-235 | Validating answers as authenticating would exactly unless an otherwise acceptable session is presented before it was issued |
| AuthChallengeBudget.WrongCodeBudget | apps/auth/src/a2/local-adapters.ts:335-520 | In any window the wrong codes counted against one account are at most maxAttempts times (window length divided by cooldown, rounded down, plus two) |
| AuthChallengeBudget.WrongCodesLimited | apps/auth/src/a2/local-adapters.ts:341-356 | Over any run a challenge counts every wrong code compared with it, and never more than its limit |
| AuthChallengeBudget.OneSessionPerChallenge | apps/auth/src/a2/local-adapters.ts:335-384 | Over any run a challenge opens at most one session, and none once it is closed |
| AuthSignCounter.CounterIsMaximum | apps/auth/src/a2/local-adapters.ts:276-333 | Over any run the stored counter of a passkey is the largest of its registered value and all counters presented in accepted logins |
| AuthSignCounter.LoginCounter | apps/auth/src/a2/local-adapters.ts:292-311 | A login with a stale expected counter is refused without change; otherwise `advanced` is reported exactly when the stored counter grew and `regressed` exactly when a smaller one was presented |
| LocalRepository.LocalAuthRepository.AuthenticateSession | apps/auth/src/a2/local-adapters.ts:196-217 | Authenticating touches an acceptable session, revokes one that is expired or whose account is not active, and leaves a revoked or unknown one alone |
| LocalRepository.LocalAuthRepository.ValidateSession | apps/auth/src/a2/local-adapters.ts:219-235 | Validating gives the same answer without changing anything |
| LocalRepository.LocalAuthRepository.CreateOidcSession | apps/auth/src/a2/local-adapters.ts:386-420 | One session per source token and active account; taken tokens and session ids conflict |
| LocalRepository.LocalAuthRepository.RevokeSessionByVerifier | apps/auth/src/a2/local-adapters.ts:661-670 | Revokes a live session and says whether there was one |
| LocalRepository.LocalAuthRepository.RevokeLiveSessions | apps/auth/src/a2/local-adapters.ts:612-618 | The counting loop revokes exactly the account's live sessions and counts them |
| LocalRepository.LocalAuthRepository.InvalidateOpenChallenges | apps/auth/src/a2/local-adapters.ts:163-173 | The counting loop invalidates exactly the account's open challenges and counts them |
| LocalRepository.LocalAuthRepository.RevokeLivePasskeys | apps/auth/src/a2/local-adapters.ts:181-187 | The counting loop revokes exactly the account's unrevoked passkeys and counts them |
| LocalRepository.LocalAuthRepository.IssueEmailChallenge | apps/auth/src/a2/local-adapters.ts:481-520 | Neutral for unknown or inactive addresses and within the cooldown; otherwise closes the account's open challenges and opens one |
| LocalRepository.LocalAuthRepository.InvalidateChallenge | apps/auth/src/a2/local-adapters.ts:468-475 | Invalidates an unused challenge, possibly again |
| LocalRepository.LocalAuthRepository.ConsumeChallengeAndCreateSession | apps/auth/src/a2/local-adapters.ts:335-384 | Wrong codes are counted, a right one spends the challenge and opens a session, an inactive account closes it, a taken token conflicts |
| LocalRepository.LocalAuthRepository.RegisterPasskey | apps/auth/src/a2/local-adapters.ts:556-601 | Only a valid session with user verification registers, and only new credential and passkey ids |
| LocalRepository.LocalAuthRepository.ReadPasskeyByCredentialId | apps/auth/src/a2/local-adapters.ts:522-554 | Only an unrevoked passkey of an active account, and not before it was created, is read |
| LocalRepository.LocalAuthRepository.CompletePasskeyLogin | apps/auth/src/a2/local-adapters.ts:276-333 | A login needs an unrevoked passkey of an active account, user verification, the expected counter and unused session names; it moves the counter and opens a session |
| LocalRepository.LocalAuthRepository.BootstrapAdministrator | apps/auth/src/a2/local-adapters.ts:237-274 | The first administrator is created once; repeating it with the same names answers the same account |
| LocalRepository.LocalAuthRepository.RequireAdministrator | apps/auth/src/a2/local-adapters.ts:739-761 | An administrator's acting session is checked and touched, or nothing changes |
| LocalRepository.LocalAuthRepository.AdminSecurityResetAuthAccess | apps/auth/src/a2/local-adapters.ts:157-194 | The whole state after a security reset and its three counts |
| LocalRepository.LocalAuthRepository.FindAccountById | apps/auth/src/a2/local-adapters.ts:445-450 | The account of an id, if there is one |
| LocalRepository.LocalAuthRepository.CreateAccountAsAdministrator | apps/auth/src/a2/local-adapters.ts:422-443 | A new account without grants, refused when its id or e-mail is taken |
| LocalRepository.LocalAuthRepository.GrantFunctionalGrantAsAdministrator | apps/auth/src/a2/local-adapters.ts:452-466 | A grant is added once; only the server owner gives administration |
| LocalRepository.LocalAuthRepository.RevokeFunctionalGrantAsAdministrator | apps/auth/src/a2/local-adapters.ts:622-637 | A grant is removed; the server owner's administration cannot be |
| LocalRepository.LocalAuthRepository.RevokeAllSessionsAsAdministrator | apps/auth/src/a2/local-adapters.ts:603-620 | The account's live sessions are revoked and counted |
| LocalRepository.LocalAuthRepository.RevokeSessionAsAdministrator | apps/auth/src/a2/local-adapters.ts:639-659 | The first live session with that id and account is revoked |
| LocalRepository.LocalAuthRepository.SetAccountStatusAsAdministrator | apps/auth/src/a2/local-adapters.ts:672-705 | The status is set; deactivating closes all access |
| LocalRepository.LocalAuthRepository.SetDomainStatusAsAdministrator | apps/auth/src/a2/local-adapters.ts:707-716 | Only the domain status changes |
| LocalRepository.LocalAuthRepository.UpdateAccountAsAdministrator | apps/auth/src/a2/local-adapters.ts:718-737 | E-mail and name change together with the e-mail index; another account's e-mail conflicts |
| RateLimiters.LocalRateLimiter.Consume | apps/auth/src/a2/local-adapters.ts:795-811 | One attempt against the pruned list of one key |
| RateLimiters.LocalIsExact | apps/auth/src/a2/local-adapters.ts:800-810 | If for no key the clock runs backwards, the pruned lists decide every call as the full, never pruned log would; the clocks of different keys are not compared |
| RateLimiters.NoWindowOverflows | apps/auth/src/a2/local-adapters.ts:801-810 | No interval (x, y] as long as the window holds more attempts of one key allowed by the log than its limit |
| RateLimiters.LimitersKeepWindows | apps/auth/src/a2/local-adapters.ts:795-811 | Nor more attempts allowed by the limiters themselves: by the in-memory one whenever no key's clock runs backwards, by the script whenever besides no drop forgets what the window covers |
| RateLimiters.LimitersDecideByCount | apps/auth/src/a2/local-adapters.ts:800-811 | Both limiters, under the same conditions, allow a call exactly when they have allowed fewer than the limit on its key within its window |
| RateLimiters.RedisServer.ConsumeScript | apps/auth/src/a2/redis-rate-limiter.ts:23-40 | The script's commands, one by one, are the sliding window on a sorted set |
| RateLimiters.KeysExpireAWindowLater | apps/auth/src/a2/redis-rate-limiter.ts:33-38 | A call touches its own key only, which afterwards expires one window after the server's time or, if it holds nothing, is gone |
| RateLimiters.RedisIsExact | apps/auth/src/a2/redis-rate-limiter.ts:23-77 | The script decides every call as the log and as the in-memory limiter in every run in which no key's clock runs backwards and no dropped key held an attempt the window still covers |
| RateLimiters.ExpiryIsHarmlessExactlyWhen | apps/auth/src/a2/redis-rate-limiter.ts:23-40 | For every run: whenever a key expires, its newest stored attempt is at least a window behind the caller's clock if and only if at no point of the run asking the last key again, however often, is answered otherwise than by the log |
| RateLimiters.SteadyClocksAreHarmless | apps/auth/src/a2/redis-rate-limiter.ts:33-38 | Expiry forgets nothing the window covers in any run in which, between two calls of one key, the callers' clock gains at least what the server's does; calls of different keys are not compared |
| RateLimiters.ExpiryNeedsTheClocks | apps/auth/src/a2/redis-rate-limiter.ts:33-38 | For every key, time and rule with a positive limit and window: when the server's clock has gained a window between two calls of one moment, the key may be dropped and an attempt the window covers is forgotten; with a limit of one the second call is allowed where the log refuses |
| LimitLoops.ConsumeNeutralChallengeRateLimits | apps/auth/src/a2/auth-service.ts:533-550 | The loop behind the neutral response charges every limit and allows when none refused |
| LimitLoops.ConsumeRateLimits | apps/auth/src/a2/auth-service.ts:562-579 | The loop that throws stops at the first limit that refuses |
| LimitLoops.NeutralChargesEachAlone | apps/auth/src/a2/auth-service.ts:533-550 | Behind the neutral response each limit is charged and answers as if it were the only one |
| LimitLoops.ThrowingStopsAtRefusal | apps/auth/src/a2/auth-service.ts:562-579 | The throwing loop charges exactly the limits up to the first that refuses, touches no other key, and allows exactly when none refuses |
| AuthService.AuthService.RequestEmailChallenge | apps/auth/src/a2/auth-service.ts:272-332 | The response names the new challenge and the address whatever the limits and the accounts say; the limits are charged and a challenge is issued under the policy only when all allow it |
| AuthService.AuthService.DeliverChallenge | apps/auth/src/a2/auth-service.ts:369-391 | A message that could not be delivered takes its challenge back |
| AuthService.AuthService.VerifyEmailChallenge | apps/auth/src/a2/auth-service.ts:465-516 | Limits first; then a malformed code is compared as one that cannot be right; the session opened carries the policy's lifetimes |
| AuthService.AuthService.CreateOidcSession | apps/auth/src/a2/auth-service.ts:207-242 | A proof of impossible length is refused before the repository is asked |
| AuthService.ChallengeResponseIsNeutral | apps/auth/src/a2/auth-service.ts:272-332 | Any two repositories lead to the same limiter state, in which the address, the fingerprint and the network are each charged under their own rule; a message is sent exactly when all three allow it and an active account is past its cooldown, and otherwise the repository is unchanged |
| AuthService.MessageTellsTheChallenge | apps/auth/src/a2/auth-service.ts:296-325 | The message carries the id in the response, the code whose verifier is stored, the stored expiry and the account's address; the stored challenge has the policy's attempts, none of them used |
| AuthService.SentCodeOpens | apps/auth/src/a2/auth-service.ts:272-516 | Whoever presents the code and the challenge id of the message opens a session for the recipient's account exactly until the message's expiry, when the limits allow it and nothing happens in between |
| AuthService.OnlyTheSentCodeOpens | apps/auth/src/a2/auth-service.ts:465-516 | Any other string than the code in the message is refused and, if compared, counted |
| AuthService.UndeliveredNeverOpens | apps/auth/src/a2/auth-service.ts:369-391 | The challenge of a message that could not be delivered opens nothing in any later run |
| AuthService.VerifyOutcome | apps/auth/src/a2/auth-service.ts:465-516 | For every state and code: refused by the limits, not valid, conflicting or opened, exactly when, what is counted or spent, and that the reply hands out the stored session under the names asked for |
| AuthService.VerifyChargesItsLimits | apps/auth/src/a2/auth-service.ts:465-486 | The challenge and then the network are charged under their own rules, the network only when the challenge allows it |
| AuthService.OpenedSessionWorks | apps/auth/src/a2/auth-service.ts:489-515 | The reply hands out token, session id, account and bounds as stored, and the session is accepted exactly until the idle bound, if nothing else happens |
| AuthService.OpenedOidcWorks | apps/auth/src/a2/auth-service.ts:207-242 | The same for the session of an OIDC proof, which can never open a second one |
| AuthService.OpenOidcOutcome | apps/auth/src/a2/auth-service.ts:207-242 | A proof opens a session exactly when it has 16 to 4096 characters, its account is active and its token and the names are unused; then the reply hands out the stored session |
| PasskeyCeremonies.CeremonyStore.Put | apps/auth/src/a2/passkey-ceremony-store.ts:71-86 | A ceremony is stored only under a new id and with a positive lifetime |
| PasskeyCeremonies.CeremonyStore.Take | apps/auth/src/a2/passkey-ceremony-store.ts:88-111 | Reading a ceremony removes it |
| PasskeyCeremonies.StoredOnceTakenOnce | apps/auth/src/a2/passkey-ceremony-store.ts:61-116 | A stored ceremony comes back once and then never; it comes back intact exactly when its challenge has 16 to 512 characters |
| PasskeyCeremonies.OnlyThisCeremony | apps/auth/src/a2/passkey-ceremony-store.ts:71-111 | Stored exactly under an unused id with a positive lifetime; no other ceremony is touched by storing or taking |
| PasskeyCeremonies.LostChallenges | apps/auth/src/a2/passkey-service.ts:52 | Of the challenges of 1 to 1366 characters that the service admits, the store hands back exactly those of 16 to 512 |
| PasskeyCeremonies.ShortChallengesAreLost | apps/auth/src/a2/passkey-service.ts:52 | An instance of one that is lost |
| PasskeyCeremonies.FinishAuthentication | apps/auth/src/a2/passkey-service.ts:247-322 | The login request step by step: response, limits, ceremony, context, credential, assertion, repository |
| PasskeyCeremonies.FinishedLoginsAreEarned | apps/auth/src/a2/passkey-service.ts:247-322 | A finished login had a stored authentication ceremony of the same client context and an accepted assertion for its challenge by a passkey of its account, and opened the session asked for; a refused one leaves the repository unchanged; past the first two checks the ceremony is consumed |
| PasskeyCeremonies.SoundLoginsFinish | apps/auth/src/a2/passkey-service.ts:247-322 | A login finishes exactly when it is within the limits, its ceremony is stored for its context, its usable credential is accepted for that challenge with a verified user, and its session names are unused; then the session asked for is stored |
| PasskeyCeremonies.FinishRegistration | apps/auth/src/a2/passkey-service.ts:158-217 | The registration request step by step |
| PasskeyCeremonies.FinishedRegistrationsAreEarned | apps/auth/src/a2/passkey-service.ts:158-217 | A finished registration had a stored registration ceremony of the same context, account and session and an accepted attestation for its challenge, and stored exactly that credential for that account; a refused one leaves the repository unchanged |
| PasskeyCeremonies.SoundRegistrationsFinish | apps/auth/src/a2/passkey-service.ts:158-217 | A registration finishes exactly when its session may act, its ceremony is stored for context, account and session, and an accepted credential with a verified user has unused ids; then that passkey is stored |
| PasskeyRuns.FinishingLoginIsARun | apps/auth/src/a2/passkey-service.ts:247-322 | Left alone, the steps of a login request do to store and repository what the method does |
| PasskeyRuns.FinishingRegistrationIsARun | apps/auth/src/a2/passkey-service.ts:158-217 | Left alone, the steps of a registration request do to store and repository what the method does, and commit exactly when it finishes |
| PasskeyRuns.BeginningStores | apps/auth/src/a2/passkey-service.ts:106-245 | A ceremony begun under a new id is in the store, of its kind and for its context |
| PasskeyRuns.CeremoniesAreSingleUse | apps/auth/src/a2/passkey-service.ts:158-390 | Under any interleaving one ceremony leads to at most one registration or login, and each traces to a ceremony of its kind stored for the same client context |
| PasskeyRuns.TakingConsumes | apps/auth/src/a2/passkey-service.ts:380-390 | Taking consumes the ceremony whatever kind was expected, and the request goes on exactly when kind, context, account and session fit |
| PasskeyRuns.SessionsAreTraced | apps/auth/src/a2/passkey-service.ts:247-322 | Every session of a run was opened at exactly one move, absent before and there after: by the OIDC bridge answering yes to an unused source token of an active account, by the right code spending an open challenge of the session's account there, or by the recorded commit of a verified passkey login |
| OutboxPublishing.OutboxRepository.ClaimNext | apps/worker/src/realtime/outbox.repository.ts:54-115 | The claim goes to the row OldestIsClaimed names, or to none; too short a lease is refused |
| OutboxRows.OldestIsClaimed | apps/worker/src/realtime/outbox.repository.ts:62-79 | Of the undelivered, due, unlocked rows without a running claim the one available first, then the one that occurred first, then the one with the smallest id is put under the new token until the lease ends, its attempt counted and its event handed out; nothing is claimed exactly when there is no such row |
| OutboxRows.OnlyTheCurrentToken | apps/worker/src/realtime/outbox.repository.ts:117-134 | A delivery is recorded and a claim given back exactly under the row's current token while it is undelivered, and no other row changes |
| OutboxPublishing.OutboxRepository.MarkPublished | apps/worker/src/realtime/outbox.repository.ts:117-125 | Only the row's current claim token can record the delivery |
| OutboxPublishing.OutboxRepository.Release | apps/worker/src/realtime/outbox.repository.ts:127-134 | Only the row's current claim token can give the claim back |
| OutboxPublishing.PublishOnce | apps/worker/src/realtime/outbox-publisher.ts:16-54 | One round with every failure path: what it does to the rows and to the stream, and what it answers |
| OutboxPublishing.RoundChangesOneRow | apps/worker/src/realtime/outbox-publisher.ts:16-54 | A round changes at most the oldest row that may be taken, appends its event unless the append did nothing, records it exactly when the append answered and the record was made, otherwise gives the claim back unless that fails, and answers accordingly |
| OutboxPublishing.IdleRounds | apps/worker/src/realtime/outbox-publisher.ts:16-54 | A round has nothing to do exactly when no row may be taken |
| OutboxRuns.RoundIsARun | apps/worker/src/realtime/outbox-publisher.ts:16-54 | Whatever befalls its commands, a round does what its moves do one after another |
| OutboxRuns.DeliveredWasAppended | apps/worker/src/realtime/outbox-publisher.ts:38-49 | In every run with any number of publishers and crashes, a row marked delivered has its own event in the stream |
| OutboxRuns.OneEffectiveHolder | apps/worker/src/realtime/outbox.repository.ts:117-134 | At most one publisher can mark or release a given row |
| OutboxRuns.DeliveredIsFinal | apps/worker/src/realtime/outbox.repository.ts:117-134 | A delivered row never changes again |
| OutboxRuns.LostClaimIsPowerless | apps/worker/src/realtime/outbox.repository.ts:117-134 | A claim once lost can at no later point mark or release the row |
| OutboxRuns.TakeoverEndsTheOldClaim | apps/worker/src/realtime/outbox.repository.ts:62-79 | Taking a row over ends the claim whoever had it |
| OutboxRuns.AppendsWithinAttempts | apps/worker/src/realtime/outbox-publisher.ts:16-54 | The appends of a row's event never exceed its `attempt_count` |
| OutboxRuns.ClaimFindsWork | apps/worker/src/realtime/outbox.repository.ts:63-73 | A claim finds nothing exactly when no unlocked row is claimable |
| OutboxRuns.LeasesRunOut | apps/worker/src/realtime/outbox.repository.ts:63-77 | In every reachable state an undelivered due row may be taken again at the latest one lease on, and then a claim takes it or one no later in availability, occurrence and id |
| OutboxRuns.RowsCanBeDelivered | apps/worker/src/realtime/outbox-publisher.ts:16-54 | From every reachable state an undelivered row with a valid event can still be delivered, its event appended and no other row changed |
| OutboxRuns.RowsCanBeInserted | apps/worker/src/realtime/outbox.repository.ts:23-115 | A row under a new id comes into being undelivered, unclaimed and without attempts |
| Gateway.RealtimeGateway.DeliverLocal | apps/api/src/realtime/realtime.gateway.ts:181-203 | The loop over the room, socket by socket, in order; once it has delivered, all sockets are served as DeliveryReachesEveryone says |
| Gateway.DeliveryReachesEveryone | apps/api/src/realtime/realtime.gateway.ts:181-203 | Local delivery succeeds exactly when membership could be decided for every authentic socket; then the entitled sockets were sent the event in order and keep their connection and all their rooms, all others found were disconnected and taken out of every room, and nobody else was touched |
| Gateway.FailedDeliveryStops | apps/api/src/realtime/realtime.gateway.ts:189-199 | A delivery that fails has served exactly the sockets before the first undecided one; that one and all after it are connected and in rooms as before |
| Gateway.EntitledOneByOne | apps/api/src/realtime/realtime.gateway.ts:187-198 | Who is sent the event depends on each socket's two checks alone and keeps the order of the room |
| Gateway.RealtimeGateway.EmitMessageCreated | apps/api/src/realtime/realtime.gateway.ts:141-160 | An event is accepted exactly when it is well formed, delivered locally, and either this is the only instance or all peers answered and none refused |
| Gateway.RealtimeGateway.Subscribe | apps/api/src/realtime/realtime.gateway.ts:98-139 | A subscription joins the room before it reads, succeeds exactly when every step does, and on every failure after authentication leaves the room |
| Gateway.AcknowledgesOnlySettled | apps/worker/src/realtime/realtime-relay.ts:101-106 | A round acknowledges only entries that are unreadable or were delivered, and all of those unless an acknowledgement fails |
| Gateway.AcknowledgesInOrder | apps/worker/src/realtime/realtime-relay.ts:101-106 | Entries are acknowledged in order up to the first acknowledgement that fails, and none from it on |
| Gateway.RealtimeRelay.RelayOnce | apps/worker/src/realtime/realtime-relay.ts:66-108 | One round: the group first, reclaimed entries before new ones, entries in order |
| DeliveryLoop.LoopAgreesWithTheGateway | apps/api/src/realtime/realtime.gateway.ts:187-199 | Uninterrupted, the steps of a local delivery fail exactly when the gateway's loop does and otherwise serve and disconnect the same sockets |
| DeliveryRuns.NextKeepsOk | apps/api/src/realtime/realtime.gateway.ts:71-203 | Every step of relays, instances, sockets and crashes keeps the bookkeeping that the results below rest on, and undoes nothing that was completed, accepted, dead or gone |
| DeliveryRuns.AcknowledgedMeansDelivered | apps/worker/src/realtime/realtime-relay.ts:101-106 | In every run a well-formed entry is acknowledged only after the receiving instance and every peer it asked, unless dead, completed delivery: each socket found was sent the event after its checks or is disconnected for good |
| DeliveryRuns.EveryLivePeerIsAsked | apps/api/src/realtime/realtime.gateway.ts:152-160 | The peers asked are all other live instances after local delivery completed; nobody is asked only when there is nobody else |
| DeliveryRuns.EveryActIsGrounded | apps/api/src/realtime/realtime.gateway.ts:184-199 | A delivery finds exactly the room, passes a socket only on a live session, sends only to a member that passed, and disconnects only on a failed check |
| DeliveryRuns.EmissionsFollowChecks | apps/api/src/realtime/realtime.gateway.ts:188-197 | In every run whoever is sent an event had a live session and, at a later step, membership, both checked by that delivery |
| DeliveryRuns.WhoStaysIsSent | apps/api/src/realtime/realtime.gateway.ts:181-203 | A socket in the room before the entry is first posted, which never leaves and is still connected when the entry has been acknowledged, was sent the event |
| DeliveryProgress.EntitledCanBeSent | apps/api/src/realtime/realtime.gateway.ts:181-203 | From every reachable state a socket in its room with a live session and membership can still be sent any entry of the chat, and the entry acknowledged |
| DeliveryProgress.RoomsCanBeJoined | apps/api/src/realtime/realtime.gateway.ts:71-96 | A new socket can connect to any instance that is not dead and come into any room |
| Pipeline.RowsReachSockets | apps/worker/src/realtime/outbox-publisher.ts:16-54 | From the outbox row to the sockets, over every run of publishers, relays and instances: a delivered row has its event in the stream, and wherever an entry with it is acknowledged, it was delivered everywhere |
| SubscriptionRuns.JoiningFirstLosesNothing | apps/api/src/realtime/realtime.gateway.ts:98-139 | For every interleaving of commits, deliveries and a successful subscription during which the joined socket is never found out of its room, each message above the cursor is in the returned history, or lies above the returned cursor and was either committed when a full page was read or, wherever its event is acknowledged, was sent to the socket |
| SubscriptionRuns.SubscribingAlone | apps/api/src/realtime/realtime.gateway.ts:98-139 | Left alone, a subscription ends in the room with its page, or rejected and out of the room, or disconnected, exactly as session and membership say, and touches nobody else |
| SubscriptionRuns.NobodyLeaves | apps/api/src/realtime/realtime.gateway.ts:98-139 | The joined socket stays in its room, through all moves of all processes, as long as no other subscription of it leaves that room |
| SubscriptionLoss.NothingIsLostExactlyWhen | apps/api/src/realtime/realtime.gateway.ts:132-138 | For every run with any number of subscriptions of one socket: no continuation without a further leave, from its end or any earlier point, loses a message if and only if the joined and connected socket was at no point out of its room; joining again does not mend it |
| SubscriptionLoss.OutLoses | apps/api/src/realtime/realtime.gateway.ts:132-138 | From every reachable point at which the joined socket is connected but out of its room, the subscription can succeed and a message be committed, delivered and acknowledged that the socket never gets |
| SubscriptionRuns.PageOrBeyond | apps/api/src/realtime/realtime.repository.ts:122-137 | The page read holds the first hundred messages above the cursor; what it misses lies above its last one |
| RelayReplies.ParseFieldArray | apps/worker/src/realtime/realtime-relay.ts:14-24 | The first text under an `event` field, fields and values alternating |
| RelayReplies.ParseEntries | apps/worker/src/realtime/realtime-relay.ts:26-41 | Items that are not entries or have no event are passed over, the others kept in order |
| RelayReplies.ParseXReadGroupReply | apps/worker/src/realtime/realtime-relay.ts:43-49 | The entries of the first stream of a read reply |
| RelayReplies.ParseXAutoClaimReply | apps/worker/src/realtime/realtime-relay.ts:51-53 | The entries of a claim reply |
| RelayReplies.EventIsFound | apps/worker/src/realtime/realtime-relay.ts:18-22 | An entry's first event value is found wherever it stands |
| RelayReplies.NoEventIsNone | apps/worker/src/realtime/realtime-relay.ts:14-24 | An entry yields nothing exactly when it has no event field |
| RelayReplies.RepliesRoundTrip | apps/worker/src/realtime/realtime-relay.ts:26-53 | Every entry of a reply comes out once and in order exactly if each has an event |
| History.BackwardPage | apps/api/src/message-flow/postgres-message-flow.repository.ts:223-272 | A page read backwards is the end of what lies below its cursor, oldest first; `hasMore` and the next cursor are there exactly when something is left, all of which lies below the next cursor |
| History.ForwardPage | apps/api/src/message-flow/postgres-message-flow.repository.ts:223-272 | A page read forwards is the start of what lies above its cursor; `hasMore` and a larger next cursor are there exactly when something is left, all of which lies above it |
| History.NextCursorIsAccepted | apps/api/src/message-flow/message-flow.service.ts:130-176 | Every cursor a page hands out passes the validation of the next request and leads to the page from there |
| History.ReadersNeedAccess | apps/api/src/message-flow/message-flow.service.ts:130-176 | A request is invalid exactly when a parameter is or both cursors are named, whatever the access; without access a well-formed request answers that, the same for any messages; with it, it reads the page of the cursor it names |
| History.PagesHoldMessages | apps/api/src/message-flow/postgres-message-flow.repository.ts:223-272 | A page holds at most as many messages as asked for, each once, oldest first, all of the chat and on the named side of the cursor |
| History.BackwardWalkRebuilds | apps/web/src/app/chat-panel.tsx:264-280 | Following the backward cursor ends, with a strictly decreasing cursor, and the pages joined oldest first are exactly the history at the first read, even when messages are appended between reads |
| History.ForwardStep | apps/web/src/app/chat-panel.tsx:180-195 | Each read of the loop continues where the merged messages end: nothing is skipped or repeated, and its next cursor is strictly larger |
| History.CatchUp | apps/web/src/app/chat-panel.tsx:177-200 | The loop ends connected exactly when its last read showed nothing beyond the pages read, and then has merged exactly the messages above its starting cursor at that read; the exit for a cursor that does not move is never taken. A tidy list within the bound, whose cursor is not ahead and which is consistent with the server, ends as if all pages had been merged at once and bounded once |
| ClientSync.Resume | apps/web/src/app/chat-panel.tsx:211-233 | Subscribing and catching up receive exactly the messages above the client's cursor: snapshot and pages meet without gap or overlap. A tidy list within the bound and consistent with the server ends as one bounded merge of all of them |
| TimelineBound.EarlyBoundIsExact | apps/web/src/app/chat-panel.tsx:76-85 | Bounding before a batch that agrees with the timeline changes the result of the bounded update unless nothing was forgotten for good, or the batch brings at least as many new items after everything forgotten as it settles kept drafts: an exact condition |
| TimelineBound.NewerBatchesAreExact | apps/web/src/app/chat-panel.tsx:76-85 | Bounding before a batch changes nothing when the batch lies above the timeline's cursor and the drafts alone fit the bound |
| TimelineBound.PagesAreExact | apps/web/src/app/chat-panel.tsx:187-195 | Two pages in order, merged and bounded one after the other, leave the list that merging both at once and bounding it leaves |
| TimelineBound.OlderBatchesMayDiffer | apps/web/src/app/chat-panel.tsx:40-46 | With a full list and one draft, an old message that settles the draft ends up in the list in place of the message the bound forgot |
| Timeline.MergeStoredMessages | apps/web/src/a6/message-state.ts:99-125 | The two filling loops and the sort produce the one sorted listing of the old items without the drafts that came back and with the batch |
| Timeline.MergeHolds | apps/web/src/a6/message-state.ts:99-125 | What a merge holds: of every id in the batch its last message, and from before the drafts and stored messages whose client id or id the batch does not have; the cursor is the largest sequence seen |
| Timeline.MergeConcat | apps/web/src/a6/message-state.ts:99-125 | Two merges are one merge of the concatenation |
| Timeline.MergeIdempotent | apps/web/src/a6/message-state.ts:99-125 | Merging a batch again changes nothing |
| Timeline.MergeCommutes | apps/web/src/a6/message-state.ts:99-125 | The order of two batches does not matter exactly when they agree on every message id |
| Timeline.OrderIsUnique | apps/web/src/a6/message-state.ts:41-57 | There is only one strict order of given items, so the sort decides the list |
| Timeline.SortTimelineIsSorted | apps/web/src/a6/message-state.ts:41-57 | Items with different ids come out in strict order: stored by sequence and id, drafts last |
| Timeline.DraftsFollowTheirMessage | apps/web/src/a6/message-state.ts:59-97 | Sending and failing touch only the draft of that client id; a stored client id is never queued again |
| Timeline.DraftsItemByItem | apps/web/src/a6/message-state.ts:59-97 | The same item by item: which draft is marked or unmarked, that its text and sender stay, and which one is added |
| Timeline.TimelinesAreTidy | apps/web/src/a6/message-state.ts:59-125 | Through any enqueueing, failing, merging and bounding the timeline stays sorted with unique ids, holds no client id as both draft and stored, and its cursor covers every stored message and never falls |
| Timeline.TidyReadsInOrder | apps/web/src/a6/message-state.ts:41-57 | A tidy timeline lists stored messages by sequence, then id, and after them the drafts by client id |
| Timeline.BoundIsTidy | apps/web/src/app/chat-panel.tsx:40-46 | Bounding keeps exactly the last 400 items and the cursor, and drops only items that come before them |
| Deduplicators.RealtimeEventDeduplicator.Accept | packages/contracts/src/realtime.ts:133-153 | The map answers as the log that never forgets, and holds exactly its last `capacity` accepted keys |
| Deduplicators.CreateRealtimeEventDeduplicator | packages/contracts/src/realtime.ts:133-136 | Only a positive safe capacity is admitted |
| Deduplicators.ListIsReference | apps/web/src/a6/realtime-state.ts:11-24 | The list answers as the log that never forgets, and holds exactly its last `capacity` accepted ids |
| Deduplicators.AcceptsAreSpaced | packages/contracts/src/realtime.ts:139-151 | Between two accepts of one key lie at least `capacity` accepts of other keys |
| Deduplicators.RefusedExactlyWhen | packages/contracts/src/realtime.ts:139-151 | A key is refused exactly when it was accepted before and fewer than `capacity` keys have been accepted since |
| Deduplicators.DeduplicatorsAgree | apps/web/src/a6/realtime-state.ts:11-24 | With a capacity of at least one, both answer alike every sequence of events whose message follows from their id |
| Deduplicators.AgreementIsDetermination | apps/web/src/a6/realtime-state.ts:11-24 | For any set of possible events, both versions answer every sequence of them alike if and only if in that set the message follows from the id |
| Deduplicators.UndeterminedMessagesDisagree | packages/contracts/src/realtime.ts:141 | Any two events with one id and two messages are one event for the list and two for the map |
| Deduplicators.CapacityZeroNeverForgets | apps/web/src/a6/realtime-state.ts:19 | With capacity zero, which only the list admits, it forgets nothing |
| Cookies.ParseCookieHeader | apps/auth/src/a2/session-cookie.ts:9-23 | The loop keeps, for every name, the value of the first cookie of that name |
| Cookies.SessionCookie.constructor | apps/auth/src/a2/session-cookie.ts:29-38 | The name follows from the secure flag and the lifetime is rounded up to seconds |
| Cookies.CreateSessionCookie | apps/auth/src/a2/session-cookie.ts:29-35 | Impossible lifetimes and insecure production cookies are refused |
| Cookies.SessionCookie.Issue | apps/auth/src/a2/session-cookie.ts:44-49 | Exactly tokens of 32 to 512 URL-safe characters are issued, and the header issued reads as its token |
| Cookies.SessionCookie.Clear | apps/auth/src/a2/session-cookie.ts:40-42 | The clearing header reads as no token |
| Cookies.SessionCookie.Read | apps/auth/src/a2/session-cookie.ts:51-54 | The first cookie of the name decides, and only a token of the right shape is read |
| Cookies.ParseSessionCookie | apps/api/src/session/application-session.ts:37-51 | The second reader, with its early return, answers from the same first cookie, printed anew |
| Cookies.ReadersAgree | apps/api/src/session/application-session.ts:37-51 | For one name, the second reader yields `name=token` exactly when the first yields `token` |
| Cookies.NamesAgree | apps/api/src/session/application-session.ts:41 | The two services look for the same name exactly when the cookie is secure in production and only there |
| Cookies.ReprintingKeepsTheToken | apps/api/src/session/application-session.ts:47-48 | What is passed on reads as the same token, or as none |
| Cookies.IssuedTokenIsReadBack | apps/auth/src/a2/session-cookie.ts:44-54 | A token that may be issued is read back from any cookie list (section 4.2.1 of RFC 6265) in which it is the first entry of its name |
| Cookies.SerializedCarriesTheValue | apps/auth/src/a2/session-cookie.ts:56-65 | The header that sets a session carries its token and the one that clears it carries none |
| Cookies.SerializedAttributes | apps/auth/src/a2/session-cookie.ts:56-65 | Cut at its semicolons the header reads as the cookie, Path=/, HttpOnly, SameSite=Lax, the lifetime in decimal and, only if so configured, Secure |

## Left out

- DeliveryRuns.AcknowledgedMeansDelivered: a peer found dead is excused, as the socket adapter drops it from the answers it waits for.
- OutboxRuns.LeasesRunOut: says that a due row becomes claimable, not that a row whose event violates the contract is ever delivered; it is released and selected again.
- Timeline.TimelinesAreTidy: does not say that the timeline has no gap below its cursor; merging one's own sent message can move the cursor past messages not yet seen.
- History.CatchUp: models one loop at a time; other updates of the timeline between its pages are not interleaved with it.
- Gateway.RealtimeGateway.Subscribe: error frames to the socket are not modelled, only rooms, connections and events.
- PostgreSQL functions, privileges and the production repository: their bodies are outside the modelled sources.
- Shared account and passkey objects: the indexes hold identifiers instead of references, so aliasing is not modelled as such.
- Keyed hashing, signatures, WebAuthn and token verification: equality or oracles.
- The OpenID Connect provider and the browser flow around it: network calls and field checks.
- The limiter's `unavailable` answer: a command that fails ends the request before anything else happens.
- Normalising addresses, names and reasons, parsing events field by field, configuration: each settled by reading one branch.
- E-mail transport, timers and the response-time envelope: only whether delivery failed matters to the state.
- User interface, HTTP wiring, schemas, start-up and shutdown.
