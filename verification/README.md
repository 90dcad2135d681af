# Verified models of the exchange system's stateful parts

The exchange system is three Go services (spot, user, order), a shared library and a client.
This project models the parts of it that keep state, in Dafny 4.11, and proves what they promise.
`dafny verify dfyconfig.toml` checks all of it.

Conventions:

- Every cache and repository call, and every other section under one mutex, is one atomic step. Objects that
  the program changes in place are classes whose methods are proved against functions on values; interleavings
  are state machines (`State`, `Action`, `Step`, `Run`) over those functions, with one program counter per call.
- Times are whole nanoseconds. A clock reading is a parameter, so any readings are covered; where a theorem
  needs a clock that does not go back, time is part of the machine's state.
- A context is a list of numbered looks at it; once cancelled, it stays cancelled.
- New uuids are parameters that the machine accepts only if they are new.
- JSON round trips: what was marshalled unmarshals to itself. Prices are exact integers. A SQL transaction is
  atomic. Cryptography and password checks are arbitrary booleans.

## What is modelled

**The LRU cache** (`LinkedList`, `LruSpec`, `LruCache`, `LruTraces`). `LruCache.LRUCache` has the program's
map of entry objects and its list of nodes. Its invariant keeps them in step (each entry's node is in the
list and carries its key, and the other way round), and every method computes a function on the sequence of
(key, value, expiry), most recently used first. Over whole traces from a new cache: list order is last-use
order, what is found is what was last set, and a key stays unless at least `maxSize` other keys were used
since its last use, which is exact when nothing but eviction removes entries.

**The market service** (`SpotService`, `Staleness`). With a fixed repository the cached service answers as
the uncached one, and caches of two capacities satisfy the stack property although their clocks and expiries
differ. With a repository that changes between the steps of any number of calls, a served market is at most
300 s plus the loading call's latency old.

**Users and refresh tokens** (`UserStores`, `UserRepositories`, `AuthProtocol`, `AuthResults`,
`AuthConservation`, `AuthRegistration`, `AuthRefresh`, `AuthRoles`, `AuthService`, `AuthMeaning`). The repositories
are classes over objects. The service's calls are a machine with arbitrarily many in flight, in which the indexes,
the e-mails and revocation are invariant, an e-mail is registered at most once, a token that is refreshed was
unrevoked and unexpired when looked up, a stored role is the one last given, and refreshing conserves a user's
tokens under an exact condition. The service itself is a class, and its methods are proved to be runs of the machine
in which nothing else happens; what each of these does is stated on the stored fields.

**Orders** (`OrderAdmission`, `OrderLedger`). The admission limit with n calls in flight, and a run that
reaches it, for every n. The Postgres `Save` conserves balance plus spending over any run.

**Idempotency** (`TestAndSet`, `IdempotencyStore`, `RedisIdempotency`, `RedisProtocol`). A lossy test-and-set
machine, and the two stores that follow it, one of them on top of the LRU cache. For each store, over whole runs
and in terms of the operations alone: a check is a duplicate if and only if an earlier one was granted the key and
nothing since made the store forget it.

**Shutdown** (`Shutdown`, `ShutdownProtocol`), **retry** (`Retry`), **the client's token manager**
(`TokenManager`, and with its lock step by step `TokenProtocol`) and **the refresh cookie** (`Cookies`).

## Where the code does less than one might read into it

Each of these is proved with the exact condition under which the code does meet the promise, and with a run or a
value for which it does not.

- With n calls of a user in flight the limit of 500 orders is one of 500 + n - 1, and that many are reached
  (`OrderAdmission.OrderLimit`, `OrderAdmission.LimitIsReached`).
- A successful refresh conserves the number of unrevoked tokens if and only if the presented token is still
  unrevoked when the refresh comes to revoke it (`AuthConservation.ConservesExactlyWhen`). So k overlapping
  refreshes of one token can all succeed and leave k - 1 tokens too many
  (`AuthConservation.InterleavedRefreshesDoNotConserve`), and one that fails after its Revoke leaves one too few
  (`AuthConservation.RefreshesOfOneToken`).
- Overlapping checks of the cache-backed idempotency store keep its promise if and only if no Set finds its key there
  and unexpired (`RedisProtocol.GrantedTwiceExactlyWhen`, `RedisProtocol.FollowsExactlyWhen`), as is the case when no
  Set of the key by another call falls between a check's Get and its Set (`RedisProtocol.NoSetBetweenSuffices`). Two
  that do overlap are both told "not duplicate" (`RedisProtocol.OverlappingChecksBothGranted`).
- `Trigger` uses up the `sync.Once` that `Run` needs. So the branch of `Run` for a cancelled context is never
  taken, and after a `Trigger` no closer is ever closed (`ShutdownProtocol.ContextBranchIsDead`,
  `ShutdownProtocol.TriggerClosesNothing`): Run returns nil and leaves the registered closers alone
  (`ShutdownProtocol.TriggerThenRunHappens`).
- A closer whose `Register` checked the flag just before it was set can be appended after the loop has begun
  (`ShutdownProtocol.LateRegistrationHappens`); there is at most one (`ShutdownProtocol.AtMostOneLateRegistration`).
  A closer is closed if and only if it was registered by the signal (`ShutdownProtocol.StartedExactlyWhen`).
- `MaxInterval` bounds the intervals from the second on. It bounds every wait if and only if the first and the last
  interval, times Multiplier and the largest jitter, stay within it (`Retry.AllWaitsWithinMaxExactlyWhen`).
- With `MaxAttempts` below 1, and only then, a retry reports success without a call (`Retry.NoErrorWithoutACall`).
- The client's `RefreshToken` waits for ever for its own lock on a file with a refresh token, and only then
  (`TokenProtocol.StuckExactlyWhen`, `TokenProtocol.StuckForEver`). A logout that cannot remove the file is undone
  by the next start (`TokenProtocol.LogoutIsUndone`), unless a save has overwritten the file in between
  (`TokenProtocol.LoggedOutTokenReturnsExactlyWhen`).

## Model

| member | source | states |
|---|---|---|
| LinkedList.List.LinkFront | spot-service/internal/cache/lru.go:82 | the node is linked in front of the list's nodes, whose order is unchanged |
| LinkedList.List.Remove | spot-service/internal/cache/lru.go:128 | exactly the given node leaves the list |
| LinkedList.List.MoveToFront | spot-service/internal/cache/lru.go:51 | the given node comes first, the others keep their order |
| LruCache.LRUCache.constructor | spot-service/internal/cache/lru.go:28-34 | a new cache is empty, whatever its capacity |
| LruCache.LRUCache.Get | spot-service/internal/cache/lru.go:36-55 | map and list stay in step; a live call finds the entry and brings it to the front, or removes it when it has expired; a dead one changes nothing |
| LruCache.LRUCache.Set | spot-service/internal/cache/lru.go:57-86 | map and list stay in step; the entry ends in front with its new value and expiry, and only a new key in a full, non-empty cache drops the last one |
| LruCache.LRUCache.Delete | spot-service/internal/cache/lru.go:88-99 | map and list stay in step; the key's entry, and nothing else, is gone |
| LruCache.LRUCache.Close | spot-service/internal/cache/lru.go:101-107 | the cache is empty, with a new list |
| LruCache.LRUCache.RemoveEntry | spot-service/internal/cache/lru.go:127-130 | entry and node go together |
| LruCache.LRUCache.RemoveOldest | spot-service/internal/cache/lru.go:132-138 | the last node and its entry go together; nothing goes from an empty list |
| LruCache.LRUCache.ContentsWellFormed | spot-service/internal/cache/lru.go:14-26 | in every valid object no key is listed twice and the size is at most max(1, maxSize) |
| LruCache.Position | spot-service/internal/cache/lru.go:44 | a key is in the map exactly when it is listed, and its entry's node stands at its place |
| LruSpec.OperationsKeepWellFormed | spot-service/internal/cache/lru.go:36-138 | each operation keeps the keys distinct and the size within max(1, maxSize) |
| LruSpec.OperationsAddNothingElse | spot-service/internal/cache/lru.go:36-99 | only Set brings an entry in, its own, and replaces the one of the same key |
| LruSpec.ExpiryMeans | spot-service/internal/cache/lru.go:119-125 | without a time to live the expiry is the first instant of the year 9999; else it is that many seconds from now, and the int64 product of more than 9223372036 s wraps round to a time in the past |
| LruSpec.GetMeans | spot-service/internal/cache/lru.go:44-54 | a value is found exactly when its key is listed and not past its expiry |
| LruTraces.RecencyIsLastUseOrder | spot-service/internal/cache/lru.go:36-86 | over every trace, list order is the order of last use |
| LruTraces.NeverWrong | spot-service/internal/cache/lru.go:36-107 | over every trace, each cached entry is the one last set for its key, not deleted, closed or found expired since |
| LruTraces.FoundIsRemembered | spot-service/internal/cache/lru.go:44-53 | what a Get finds is the last value set, and it has not expired |
| LruTraces.OutnumberedOrPresent | spot-service/internal/cache/lru.go:36-86 | only keys used since its last use stand in front of a key; a key that was evicted had at least maxSize of them |
| LruTraces.Retention | spot-service/internal/cache/lru.go:36-86 | a key set and not deleted, closed or expired is found with its value while fewer than maxSize other keys were used since its last use |
| LruTraces.FrontIsUsedSince | spot-service/internal/cache/lru.go:36-86 | when only evictions remove entries, the keys in front of a key are exactly those used since it |
| LruTraces.PresentExactlyWhen | spot-service/internal/cache/lru.go:36-86 | when only evictions remove entries, a key is present if and only if fewer than maxSize others were used since its last use |
| SpotService.SpotService.GetMarketByID | spot-service/internal/service/service.go:94-147 | the program computes Serve on the cache's contents, or Uncached without a cache, with every fallback and ignored error |
| SpotService.ServeIsFaithful | spot-service/internal/service/service.go:104-146 | one call keeps every cached entry the encoding of the repository's market, and serves only the repository's answers |
| SpotService.AlwaysFaithful | spot-service/internal/service/service.go:104-146 | after any calls every cached entry encodes what the repository has under its key |
| SpotService.CachedEqualsUncached | spot-service/internal/service/service.go:94-147 | after any calls, a call with a live context answers as without a cache, and any other call as that or with the context's error |
| SpotService.AnswersAreTheRepositorys | spot-service/internal/service/service.go:94-147 | after any calls, a valid call with a live context answers the repository's market, nil or error |
| SpotService.RefusedTouchesNothing | spot-service/internal/service/service.go:94-103 | a call with an invalid id or a dead context is refused and leaves the cache as it is |
| SpotService.BadEntryIsDropped | spot-service/internal/service/service.go:105-124 | an entry that does not decode is gone after the call that meets it, and the answer is the repository's |
| SpotService.TakeCommutes | spot-service/internal/cache/lru.go:57-86 | keeping the n most recent ids and then using one gives the same as using it first and keeping n |
| SpotService.CacheHoldsMostRecent | spot-service/internal/service/service.go:104-143 | the cached ids are exactly the most recent min(capacity, count) distinct ids that were looked up with success, whatever has expired |
| SpotService.StackProperty | spot-service/internal/service/service.go:104-143 | for capacities 1 <= a <= b and any two runs of clock readings, the smaller cache's id list is a prefix of the larger's |
| SpotService.RecentElements | spot-service/internal/cache/lru.go:51-83 | the recency list of a sequence of ids has exactly its ids |
| SpotService.RecentOrder | spot-service/internal/cache/lru.go:51-83 | and has them in the order of their last occurrence |
| Staleness.StepKeepsInv | spot-service/internal/service/service.go:104-146 | every step of every call, every write to the repository and every passing of time keeps cached entries and in-flight results traceable to a genuine read |
| Staleness.HitIsGenuine | spot-service/internal/service/service.go:105-124 | a cache hit serves the market of a genuine load at most 300 s after it was put there |
| Staleness.BoundedStaleness | spot-service/internal/service/service.go:94-147 | over every interleaving, a served market was the repository's at an instant at most 300 s plus the loading call's latency before |
| Staleness.BoundIsReached | spot-service/internal/service/service.go:94-147 | for every latency some run serves a market that the repository stopped having exactly 300 s plus that latency before |
| Staleness.LoneCallServes | spot-service/internal/service/service.go:104-146 | a call of the machine with nothing else going on does to the cache, and ends, as Serve says |
| UserRepositories.UserRepository.Create | user-service/internal/repository/memory.go:33-55 | the user, with both times set to now, and its e-mail are added together; refused exactly if the context is dead or the id or the e-mail is taken |
| UserRepositories.UserRepository.GetByID | user-service/internal/repository/memory.go:57-72 | the user of that id or the right error |
| UserRepositories.UserRepository.GetByEmail | user-service/internal/repository/memory.go:74-94 | the user the index leads to or the right error |
| UserRepositories.UserRepository.Update | user-service/internal/repository/memory.go:96-111 | the user given, with the time of the change, replaces the stored one of its id, and no other changes; refused, with nothing changed, exactly if the context is dead or there is none; the index stays |
| UserRepositories.TokenRepository.Store | user-service/internal/repository/memory.go:126-137 | the object is stored under its token and appended to its user's list |
| UserRepositories.TokenRepository.Get | user-service/internal/repository/memory.go:139-160 | a copy of the token exactly if it is stored, unrevoked and unexpired, else the first error that applies |
| UserRepositories.TokenRepository.Revoke | user-service/internal/repository/memory.go:162-176 | the stored object's flag is set in place, and no other |
| UserRepositories.TokenRepository.RevokeAllByUser | user-service/internal/repository/memory.go:178-197 | the loop sets the flag of exactly the listed tokens that are stored |
| UserStores.NoSharedEmail | user-service/internal/repository/memory.go:41-53 | with the index intact, two users never share an e-mail |
| UserStores.GetByEmailFinds | user-service/internal/repository/memory.go:74-94 | with the index intact, a lookup by e-mail finds the user who has it, or nobody has it |
| UserStores.StoreKeepsListed | user-service/internal/repository/memory.go:134-135 | storing a new token keeps every user's list equal to the user's stored tokens, without repetition |
| UserStores.RevokeAllRevokesAll | user-service/internal/repository/memory.go:186-195 | the user is left with no unrevoked token, other users with what they had |
| AuthProtocol.TokensKeep | user-service/internal/repository/memory.go:126-197 | no step of any call breaks the token lists, drops a token or undoes a revocation |
| AuthProtocol.UsersKeep | user-service/internal/repository/memory.go:33-111 | no step of any call breaks the e-mail index or changes a user's e-mail |
| AuthProtocol.UpdateKeeps | user-service/internal/repository/memory.go:96-111 | an update from a stale copy keeps the index, because a copy's e-mail cannot be stale |
| AuthProtocol.StepKeepsInv | user-service/internal/service/auth.go:51-276 | each step of any call, between any others, keeps the stores right and every call's local copies true |
| AuthProtocol.RunKeepsInv | user-service/internal/service/auth.go:51-276 | so does every run, and nothing stored goes back |
| AuthResults.IndexesAreRight | user-service/internal/repository/memory.go:20-197 | in every reachable state a user's token list names exactly the stored tokens of that user, once, and users and e-mail index are mutually inverse |
| AuthResults.NothingGoesBack | user-service/internal/repository/memory.go:33-197 | between any two moments users keep their e-mails, tokens stay stored, and revoked tokens stay revoked |
| AuthResults.UnrevokedGrowth | user-service/internal/repository/memory.go:126-197 | over any run a user's unrevoked tokens change by exactly the number of Store steps for the user less the number of the user's unrevoked tokens that Revoke and RevokeAllByUser steps take |
| AuthResults.LogoutAllIsFinal | user-service/internal/service/auth.go:225-232 | after the step of LogoutAll that revokes, no token stored before is ever unrevoked, and the unrevoked ones number at most the Store steps since |
| AuthResults.RefreshImpliesRevoked | user-service/internal/service/auth.go:168-211 | a successful RefreshToken implies its presented token is revoked, then and for ever, although Revoke's error is only logged |
| AuthResults.RefreshedTokenIsSpent | user-service/internal/service/auth.go:168-176 | every RefreshToken whose Get runs afterwards answers ErrTokenInvalid |
| AuthResults.LoneRefreshConserves | user-service/internal/service/auth.go:168-211 | run alone, with a context that may be cancelled at any moment, a successful refresh swaps one unrevoked token for another and conserves every user's count |
| AuthConservation.StepsOf | user-service/internal/service/auth.go:191-206 | every successful refresh has a Revoke step and, later, a Store step, both with a live context |
| AuthConservation.ConservesExactlyWhen | user-service/internal/service/auth.go:191-206 | whatever else runs, the two effects of a successful refresh on everybody's unrevoked tokens cancel out if and only if the presented token was unrevoked at its Revoke step |
| AuthConservation.RefreshesOfOneToken | user-service/internal/service/auth.go:168-211 | refreshes of one live token, interleaved and cancelled in any way: its user gains one token for each success and loses one if the token has been revoked, as it has been if any succeeded; nobody else is affected |
| AuthConservation.InterleavedRefreshesDoNotConserve | user-service/internal/service/auth.go:168-211 | for every k a run on new stores in which k refreshes of a user's only token all succeed, and the user ends with k |
| AuthRegistration.RegisteredAtMostOnce | user-service/internal/service/auth.go:61-91 | over every interleaving, of the Register calls for one e-mail at most one succeeds |
| AuthRefresh.LookUpMeans | user-service/internal/service/auth.go:168-176 | a live lookup of a refresh is refused with ErrTokenInvalid if and only if the token is not stored, is revoked, or its expiry lies before the clock; otherwise the call goes on with a copy |
| AuthRefresh.RefreshedTokenWasGood | user-service/internal/service/auth.go:168-211 | over every interleaving, each successful refresh found its token stored, unrevoked and unexpired at one of its own steps, and the token's user active at another |
| AuthRoles.RoleUpdatedIsStored | user-service/internal/repository/memory.go:96-111 | a role is reported as changed if and only if the context is live and the user stored; the user reported is then the stored one, with the data of the copy read, and no other user changes |
| AuthRoles.CreatedIsStored | user-service/internal/repository/memory.go:33-55 | a registered user is stored with the data of the call, under an id and an e-mail that were free, and no other changes |
| AuthRoles.RegisteredAsAsked | user-service/internal/service/auth.go:61-91 | over every interleaving, a registration that succeeds is of the e-mail, name and password with which its call was begun, as an active USER |
| AuthRoles.RoleUpdatedAsAsked | user-service/internal/service/auth.go:247-276 | over every interleaving, a change of role that succeeds is of the user and to the role with which its call was begun |
| AuthRoles.UsersKeepTheirData | user-service/internal/repository/memory.go:33-111 | between any two moments a stored user keeps its id, e-mail, name, password, activity and time of creation |
| AuthRoles.RoleIsLastGiven | user-service/internal/service/auth.go:61-276 | over every interleaving, the stored role of every user is that of the last change reported as made, or else USER from the registration |
| AuthService.AuthService.Register | user-service/internal/service/auth.go:61-113 | the program over the repository objects computes RegisterCall; a failed Store is ignored |
| AuthService.AuthService.Login | user-service/internal/service/auth.go:116-166 | the program computes LoginCall |
| AuthService.AuthService.RefreshToken | user-service/internal/service/auth.go:168-211 | the program computes RefreshCall; a failed Revoke is ignored, a failed Store is not |
| AuthService.AuthService.Logout | user-service/internal/service/auth.go:213-223 | the program computes LogoutCall; an unknown token is no error |
| AuthService.AuthService.LogoutAll | user-service/internal/service/auth.go:225-232 | the program computes LogoutAllCall |
| AuthService.AuthService.UpdateRole | user-service/internal/service/auth.go:247-276 | only an administrator's call reaches the users; it computes UpdateRoleCall, on a copy |
| AuthService.RefreshIsLoneRun | user-service/internal/service/auth.go:168-211 | RefreshCall is what some run of the protocol machine does when nothing else happens, for every cancellation |
| AuthService.LoginIsLoneRun | user-service/internal/service/auth.go:116-166 | the same for Login |
| AuthService.RegisterIsLoneRun | user-service/internal/service/auth.go:61-113 | the same for Register |
| AuthService.LogoutsAreLoneRuns | user-service/internal/service/auth.go:213-232 | the same for Logout and LogoutAll |
| AuthService.UpdateRoleIsLoneRun | user-service/internal/service/auth.go:253-265 | the same for UpdateRole |
| AuthMeaning.RefreshMeans | user-service/internal/service/auth.go:168-211 | alone, a refresh succeeds, is told ErrTokenInvalid, or is told ErrUnauthorized, each exactly when the stored token, its user and the context say so |
| AuthMeaning.RefreshStores | user-service/internal/service/auth.go:191-206 | a refresh that succeeds sets the presented token's flag, adds the new token for the same user, and changes nothing else |
| AuthMeaning.LoginMeans | user-service/internal/service/auth.go:116-166 | alone, a login succeeds exactly with a known e-mail, the right password, an active user, a signature and a live context, and then adds one token for that user; a wrong password and an unknown e-mail get one and the same error, an inactive user another |
| AuthMeaning.RegisterMeans | user-service/internal/service/auth.go:61-113 | alone, a registration creates the active USER asked for exactly if the id and e-mail are free; the answer needs a signature too, but no stored token |
| AuthMeaning.LogoutMeans | user-service/internal/service/auth.go:213-223 | under a live context exactly the presented token is flagged |
| AuthMeaning.LogoutAllMeans | user-service/internal/service/auth.go:225-232 | under a live context exactly the user's stored tokens are flagged |
| AuthMeaning.UpdateRoleMeans | user-service/internal/service/auth.go:247-276 | alone, the role asked for is stored and reported exactly if the context is live and the user stored, and nothing else of any user changes but the time |
| OrderAdmission.Repository.Save | order-service/internal/adapters/inmemory/repository.go:27-35 | the order is stored under its id, unless the context is dead |
| OrderAdmission.Repository.ListByUser | order-service/internal/adapters/inmemory/repository.go:50-64 | the loop lists each of the user's orders once, in some order |
| OrderAdmission.Repository.CountByUser | order-service/internal/adapters/inmemory/repository.go:65-78 | the loop counts exactly the user's orders |
| OrderAdmission.ListingLength | order-service/internal/adapters/inmemory/repository.go:50-78 | the count is the length of the listing, which has only the user's orders |
| OrderAdmission.OrderService.CreateOrder | order-service/internal/service/order_service.go:44-104 | alone, the call computes Create and never lifts a user above 500 |
| OrderAdmission.CreateIsLoneRun | order-service/internal/service/order_service.go:62-103 | Create is what the admission machine does when one call runs alone |
| OrderAdmission.CreateMeans | order-service/internal/service/order_service.go:44-104 | alone, an order is created exactly with valid ids, a live context, fewer than 500 orders and a market not known to be inactive; too many orders and an inactive market are each refused exactly then, and only the created order is added |
| OrderAdmission.InactiveMarketIsRefused | order-service/internal/service/order_service.go:71-78 | over every interleaving, the market check refuses exactly the answer "inactive"; without a client, or when the check fails, the call goes on |
| OrderAdmission.StepCounts | order-service/internal/service/order_service.go:62-96 | a step admits a call only after a count below the limit, and saves only an admitted call's order |
| OrderAdmission.OrderLimit | order-service/internal/service/order_service.go:15-96 | with at most n calls of a user in flight, saved orders plus admitted calls never exceed 500 + n - 1; with one at a time, 500 |
| OrderAdmission.LimitIsReached | order-service/internal/service/order_service.go:62-96 | for every n some run with at most n calls in flight ends with exactly 500 + n - 1 orders |
| OrderLedger.Repository.Save | order-service/internal/adapters/postgres/repository.go:24-66 | the order is saved and its price debited together, exactly when nothing fails, the id is new and the balance suffices; otherwise nothing changes |
| OrderLedger.SpentWithout | order-service/internal/adapters/postgres/repository.go:56-60 | the sum of a user's order prices does not depend on the order of summation |
| OrderLedger.DebitConserves | order-service/internal/adapters/postgres/repository.go:35-60 | a debit with its insert keeps every user's balance plus spending, and no balance goes negative |
| OrderLedger.SaveAll | order-service/internal/adapters/postgres/repository.go:24-66 | over any run of saves, failing at any stage, balance plus spending is constant for every user, balances stay non-negative, no order is lost or changed, and the new orders are exactly those of the calls that answered Saved, with their rows |
| TestAndSet.DuplicateExactlyWhen | shared/idempotency/idempotency.go:39-51 | a check is a duplicate if and only if a grant of the key stands |
| TestAndSet.GrantStandsOrIsLost | shared/idempotency/idempotency.go:39-51 | a grant stands with its own expiry until it is lost, if by expiry then by its own |
| TestAndSet.LossBetweenGrants | shared/idempotency/idempotency.go:32-89 | between two grants of a key there is a deletion, an eviction, a closing, or an expiry of the first grant |
| TestAndSet.WithinItsTime | shared/idempotency/idempotency.go:50 | a second grant within the first one's time has a cause other than expiry |
| TestAndSet.GrantsMatchLosses | shared/idempotency/idempotency.go:32-89 | a key's grants exceed its losses by one while it is held and by none otherwise |
| IdempotencyStore.Store.CheckAndSet | shared/idempotency/idempotency.go:32-52 | the store follows the machine: duplicate exactly when the key is there, else a grant, after an eviction of some key when the store is full; never above maxKeys |
| IdempotencyStore.Store.Delete | shared/idempotency/idempotency.go:54-59 | the store follows the machine: exactly the key goes |
| IdempotencyStore.Store.Cleanup | shared/idempotency/idempotency.go:77-84 | the sweep removes exactly the keys whose time is over, each an expiry in the machine |
| IdempotencyStore.DuplicateIffStanding | shared/idempotency/idempotency.go:32-89 | over any interleaving, a live check is a duplicate if and only if an earlier check was granted the key and no operation since deleted it, swept it after its time, or evicted it |
| IdempotencyStore.ForgottenBetween | shared/idempotency/idempotency.go:32-89 | between two "not duplicate" answers for a key one of the operations deleted it, swept it after the first one's time, or was a check of another key that found the store full and dropped this one |
| IdempotencyStore.Interleave | shared/idempotency/idempotency.go:32-89 | the program on a new store: its contents after every operation are a run of the store, its answers are right in both directions, and it never holds more than maxKeys |
| RedisIdempotency.GetFollows | shared/adapters/redis_idempotency.go:18-24 | the Get is a duplicate, an expiry or nothing in the machine |
| RedisIdempotency.SetFollows | shared/adapters/redis_idempotency.go:25 | the Set is a grant in the machine, after an eviction when the cache is full |
| RedisIdempotency.CheckFollows | shared/adapters/redis_idempotency.go:17-26 | one call at a time, the store follows the test-and-set machine and answers as it does, errors included; a grant expires after 86400 s |
| RedisIdempotency.CheckHeld | shared/adapters/redis_idempotency.go:17-26 | a check is a duplicate exactly when its key is held and not expired; otherwise it forgets the expired key, may drop the last one, and holds its own for 86400 s |
| RedisIdempotency.GrantLastsADay | shared/adapters/redis_idempotency.go:17-26 | a check right after a grant is a duplicate exactly until 86400 s after it |
| RedisIdempotency.DeleteHeld | shared/adapters/redis_idempotency.go:28-30 | a deletion forgets exactly its key |
| RedisIdempotency.RedisIdempotencyStore.CheckAndSet | shared/adapters/redis_idempotency.go:17-26 | the program over the LRU cache object computes Check |
| RedisIdempotency.RedisIdempotencyStore.Delete | shared/adapters/redis_idempotency.go:28-30 | the program deletes the key from the cache object, under a live context |
| RedisIdempotency.RedisIdempotencyStore.Close | shared/adapters/redis_idempotency.go:32-34 | the program empties the cache object |
| RedisIdempotency.DuplicateIffStanding | shared/adapters/redis_idempotency.go:17-34 | over any run of calls one at a time, a live check is a duplicate if and only if an earlier check was granted the key, no operation since made the store forget it, and its 86400 s are not over |
| RedisIdempotency.ForgottenBetween | shared/adapters/redis_idempotency.go:17-34 | between two "not duplicate" answers for a key an operation deleted it, closed the cache, found it expired, or evicted it; at the latest the second check found it expired |
| RedisIdempotency.RunFollows | shared/adapters/redis_idempotency.go:17-34 | every such run is one of the test-and-set machine |
| RedisIdempotency.ServeAll | shared/adapters/redis_idempotency.go:17-34 | the program on a new cache gives the answers of the run that the operations determine, and they are right in both directions |
| RedisProtocol.FollowsExactlyWhen | shared/adapters/redis_idempotency.go:18-25 | with any number of overlapping checks and deletions, the run is one of the test-and-set machine if and only if no Set finds its key there and unexpired |
| RedisProtocol.GrantedTwiceExactlyWhen | shared/adapters/redis_idempotency.go:18-25 | two checks of a key are both answered "not duplicate" with no deletion, closing, eviction or expiry of the first grant up to the second, if and only if some Set finds its key there and unexpired |
| RedisProtocol.NoSetBetweenSuffices | shared/adapters/redis_idempotency.go:18-25 | it is when no Set of a key falls between another call's Get and Set of that key |
| RedisProtocol.DoomedMeansSet | shared/adapters/redis_idempotency.go:18-25 | a check's Set finds its key there only if another call has set it since the check's Get |
| RedisProtocol.CheckIsLoneRun | shared/adapters/redis_idempotency.go:17-26 | Check is the machine's Get and Set of one call with nothing in between |
| RedisProtocol.OverlappingChecksBothGranted | shared/adapters/redis_idempotency.go:18-25 | on a new store two overlapping checks are both told "not duplicate", and nothing has been lost |
| Shutdown.ShutdownHandler.constructor | shared/shutdown/shutdown.go:34-44 | a timeout that is not positive becomes 30 s |
| Shutdown.ShutdownHandler.Register | shared/shutdown/shutdown.go:46-59 | appends the closer, unless it is nil or the shutdown has begun |
| Shutdown.ShutdownHandler.Run | shared/shutdown/shutdown.go:72-93 | the first call shuts down on a signal; any later one returns nil at once |
| Shutdown.ShutdownHandler.DoShutdown | shared/shutdown/shutdown.go:95-151 | the loop starts the closers by the schedule of their reverse order and returns with its outcome |
| Shutdown.ShutdownHandler.Trigger | shared/shutdown/shutdown.go:161-166 | cancels the context if it comes first; starts no closer |
| Shutdown.ScheduleBounds | shared/shutdown/shutdown.go:101-137 | whatever the closers do, the next one starts when this one is done, its time is up or all time is up, whichever is first |
| Shutdown.NextStartsExactly | shared/shutdown/shutdown.go:104-137 | the next closer starts at the instant at which this one is back, if that is within max(timeout/10, 1 s) of its start and within the timeout; otherwise exactly when the first of these is over |
| Shutdown.HangingClosersGetTheirTime | shared/shutdown/shutdown.go:104-137 | when no closer ever comes back, the j-th from the end starts at exactly min(timeout, j * max(timeout/10, 1 s)) |
| Shutdown.GoneByMeans | shared/shutdown/shutdown.go:114-125 | a goroutine is gone by a time exactly if its Close does not hang and has come back, with or without a panic, by then |
| Shutdown.LastInFirstClosed | shared/shutdown/shutdown.go:101-137 | each closer is started once, last registered first, the j-th from the end by min(timeout, j * max(timeout/10, 1 s)) |
| Shutdown.ReturnsInTime | shared/shutdown/shutdown.go:139-150 | the call returns by the timeout, nil only if every Close has come back, and nil whenever all are back before the timeout |
| Shutdown.PromptClosersRunInTurn | shared/shutdown/shutdown.go:127-137 | closers that keep within their time never overlap, and the shutdown takes exactly their total time |
| ShutdownProtocol.StepKeepsInv | shared/shutdown/shutdown.go:46-166 | every step of every Register, Run, Trigger and goroutine keeps the Once, the lock, the wait group and the channels right |
| ShutdownProtocol.RunKeepsInv | shared/shutdown/shutdown.go:46-166 | so does every run of a new handler |
| ShutdownProtocol.NeverBlocks | shared/shutdown/shutdown.go:111-125 | a closer's goroutine always finds the one slot of its channel free, even if nobody waits for it any more |
| ShutdownProtocol.ContextBranchIsDead | shared/shutdown/shutdown.go:81-86 | while Run waits its context is not cancelled, so only a signal ends the wait |
| ShutdownProtocol.EveryCloserOnceLastFirst | shared/shutdown/shutdown.go:95-151 | over every interleaving, the closers started are those registered at the signal, each once, last first, all of them by the time Run returns; nil only if every Close has come back |
| ShutdownProtocol.AllGoneReturnsNil | shared/shutdown/shutdown.go:139-147 | a Run past its loop whose goroutines are all gone can return nil |
| ShutdownProtocol.ShutdownSucceeds | shared/shutdown/shutdown.go:46-151 | a run of a new handler in which a closer is registered, a signal comes, the closer is closed and Run returns nil |
| ShutdownProtocol.TriggerClosesNothing | shared/shutdown/shutdown.go:161-166 | once a Trigger has the Once no closer is ever started |
| ShutdownProtocol.TriggerThenRunHappens | shared/shutdown/shutdown.go:46-166 | a run of a new handler in which a closer is registered, Trigger runs, and a later Run returns nil with nothing closed |
| ShutdownProtocol.NoSignalNoClose | shared/shutdown/shutdown.go:72-93 | without a signal no closer is ever started |
| ShutdownProtocol.AtMostOneLateRegistration | shared/shutdown/shutdown.go:46-59 | after the flag is set at most one more closer is ever registered, and none unless a call had already checked the flag |
| ShutdownProtocol.LateRegistrationHappens | shared/shutdown/shutdown.go:51-58 | a run of a new handler in which a registration checks the flag, Run sets it, a signal starts the loop with no closer, and the closer is then appended |
| ShutdownProtocol.StartedExactlyWhen | shared/shutdown/shutdown.go:101-102 | a closer registered after the signal is never started; when Run has returned, exactly those registered by then have been |
| Retry.Do | shared/retry/retry.go:17-58 | the loop makes the calls and waits, and returns the error, that the attempts come to |
| Retry.DoWithResult | shared/retry/retry.go:60-100 | the loop does the same with a result |
| Retry.SameCallsAndWaits | shared/retry/retry.go:17-100 | Do and DoWithResult make the same calls and waits and return the same error on the same function, context and random numbers |
| Retry.RetryOutcome | shared/retry/retry.go:17-100 | fn is called until the first success, the last attempt or the first look that finds the context cancelled, and the result is that of the last call or the context's error |
| Retry.LiveCalls | shared/retry/retry.go:21-38 | with a live context fn is called min(first success, MaxAttempts) times, with one wait fewer |
| Retry.NoErrorWithoutACall | shared/retry/retry.go:21-57 | success without a call is reported if and only if MaxAttempts is below 1 |
| Retry.IntervalGrows | shared/retry/retry.go:51-54 | the next interval is Multiplier times this one, less a fraction of a nanosecond, or MaxInterval if that is less; truncation never shrinks it |
| Retry.IntervalRange | shared/retry/retry.go:51-54 | from the second on intervals are at most MaxInterval, and none falls below both it and the first |
| Retry.IntervalBound | shared/retry/retry.go:51-54 | the k-th interval is at most Initial * Multiplier^(k-1) |
| Retry.IntervalLowerBound | shared/retry/retry.go:51-54 | from the second on an interval is MaxInterval, or more than Initial * Multiplier^(k-1) less the truncations 1 + m + ... + m^(k-2) |
| Retry.WholeMultiplier | shared/retry/retry.go:51-54 | with a whole Multiplier the k-th interval, from the second on, is exactly min(MaxInterval, Initial * Multiplier^(k-1)) |
| Retry.IntervalsDoNotShrink | shared/retry/retry.go:51-54 | from the second on the intervals never shrink |
| Retry.DelayBounds | shared/retry/retry.go:110-123 | a delay is within Randomization of Multiplier times the interval, up to truncation, and not negative |
| Retry.DelayIsBounded | shared/retry/retry.go:40-123 | every delay is at most max(Initial, MaxInterval) * Multiplier * (1 + Randomization), and at most Initial * Multiplier^k * (1 + Randomization) |
| Retry.WaitLowerBound | shared/retry/retry.go:40-123 | without jitter the k-th wait is at least Initial * Multiplier^k less the truncations 1 + m + ... + m^(k-1), or MaxInterval * Multiplier less a nanosecond, whichever is less |
| Retry.WholeWait | shared/retry/retry.go:40-123 | without jitter and with a whole Multiplier the k-th wait is exactly Multiplier times min(MaxInterval, Initial * Multiplier^(k-1)), the first Multiplier * Initial |
| Retry.BackoffDoubles | shared/retry/retry.go:17-100 | for the configuration of 100 ms, 10 s and a Multiplier of 2 the first waits are 200, 400 and 800 ms |
| Retry.JitterIsLinear | shared/retry/retry.go:113-122 | the wait is linear in the random number, from 1 - Randomization to 1 + Randomization times its mean, to the nanosecond |
| Retry.WaitsInGeneral | shared/retry/retry.go:110-123 | no wait is negative, whatever the configuration, and without a positive Randomization the random number does not matter |
| Retry.TotalSleep | shared/retry/retry.go:40-54 | there are at most MaxAttempts - 1 waits, and their sum is within the linear and the geometric bound |
| Retry.TotalSleepAtLeast | shared/retry/retry.go:21-54 | a run in which every call fails, with a live context and no jitter, sleeps at least the sum of these bounds over its MaxAttempts - 1 waits |
| Retry.WaitWithinMaxExactlyWhen | shared/retry/retry.go:40-123 | the wait after attempt k is within MaxInterval for every draw if and only if its interval, times Multiplier and the largest jitter, is (to the nanosecond) |
| Retry.AllWaitsWithinMaxExactlyWhen | shared/retry/retry.go:40-123 | every wait of every run is within MaxInterval if and only if that holds of the first and of the last interval waited for |
| Retry.EveryWaitHappens | shared/retry/retry.go:21-49 | when every call fails and the context stays live there are MaxAttempts - 1 waits |
| Retry.FirstWaitCanExceedMaxInterval | shared/retry/retry.go:40-54 | a configuration whose first wait is Multiplier times MaxInterval |
| TokenManager.TokenManager.constructor | order-client/internal/auth/token_manager.go:33-49 | a new manager holds what the file holds, with the zero expiry if the file has none that parses, or nothing |
| TokenManager.TokenManager.SaveToDisk | order-client/internal/auth/token_manager.go:162-178 | it waits for ever exactly if the write lock is held; else the file gets the tokens and the expiry in whole seconds, or the write fails |
| TokenManager.TokenManager.Login | order-client/internal/auth/token_manager.go:51-98 | on success memory has the new access token, no refresh token and 15 minutes, and the file is written after the lock is released |
| TokenManager.TokenManager.GetAccessToken | order-client/internal/auth/token_manager.go:100-108 | the token, exactly while there is one and its time is not over |
| TokenManager.TokenManager.RefreshToken | order-client/internal/auth/token_manager.go:110-134 | the call computes RefreshAlone: it is stuck, with the write lock held, exactly when there is a refresh token and the service accepts it; otherwise nothing changes |
| TokenManager.TokenManager.Logout | order-client/internal/auth/token_manager.go:136-154 | memory is empty; the file is gone if it could be removed |
| TokenManager.RestartsFloorOnce | order-client/internal/auth/token_manager.go:162-203 | any chain of restarts keeps both tokens, floors the expiry once, costs less than a second in all, and never makes a token accepted that would not have been |
| TokenManager.LoginLasts | order-client/internal/auth/token_manager.go:51-98 | a login's token is accepted exactly until 900 s after it |
| TokenManager.SavedLoginLasts | order-client/internal/auth/token_manager.go:162-203 | after a restart it is accepted exactly until the whole second at or before that |
| TokenManager.NoExpiryNoToken | order-client/internal/auth/token_manager.go:180-203 | a token whose file has no readable expiry is not accepted after the first instant of the year 1 |
| TokenProtocol.RunKeepsLockInv | order-client/internal/auth/token_manager.go:51-203 | in every run the lock's writer and readers are the calls between their Lock and Unlock, and a writer is alone |
| TokenProtocol.WritersAreAlone | order-client/internal/auth/token_manager.go:51-203 | while a call writes memory no other call reads or writes it |
| TokenProtocol.NeverStuck | order-client/internal/auth/token_manager.go:51-203 | over every interleaving, failure and restart, from any file without a refresh token, the refresh token is empty in memory and on disk, no call waits for a lock it holds, and the holder can go on |
| TokenProtocol.StuckExactlyWhen | order-client/internal/auth/token_manager.go:110-134 | some run has a call that waits for a lock it holds if and only if the first file has a refresh token |
| TokenProtocol.StuckForEver | order-client/internal/auth/token_manager.go:110-134 | until a restart such a call never moves again, and memory and file never change |
| TokenProtocol.LoginIsLoneRun | order-client/internal/auth/token_manager.go:51-98 | what the program's Login does is what a lone call of the machine does, lock steps included |
| TokenProtocol.RefreshIsLoneRun | order-client/internal/auth/token_manager.go:110-134 | so is what RefreshToken does, and it is stuck exactly when the lone call waits for itself |
| TokenProtocol.LogoutIsLoneRun | order-client/internal/auth/token_manager.go:136-154 | so is what Logout does |
| TokenProtocol.GetIsLoneRun | order-client/internal/auth/token_manager.go:100-108 | so is what GetAccessToken gives |
| TokenProtocol.AcceptedWasIssued | order-client/internal/auth/token_manager.go:51-203 | a token is given out only if a login or registration of the run obtained it, and not longer than 15 minutes from then; restarts take off less than a second |
| TokenProtocol.LogoutForgets | order-client/internal/auth/token_manager.go:136-154 | after a logout that removes the file only later logins count |
| TokenProtocol.LoggedOutTokenReturnsExactlyWhen | order-client/internal/auth/token_manager.go:136-154 | after a logout and any steps short of a new login, the next start accepts a token exactly when the file was not removed, nothing has changed it since, and it holds a token whose time is not over; after a save that succeeded it is the token logged out, for its whole seconds |
| TokenProtocol.LogoutIsUndone | order-client/internal/auth/token_manager.go:136-154 | a run on no file: a login is saved, a logout empties memory but cannot remove the file, and the next start gives the token out again |
| Cookies.GetRefreshToken | user-service/internal/handler/grpc.go:181-204 | the loop over the pieces computes RefreshTokenOf |
| Cookies.JoinOfSplit | user-service/internal/handler/grpc.go:196 | joining the pieces of any string gives the string back |
| Cookies.SplitPieces | user-service/internal/handler/grpc.go:196 | no piece contains the separator |
| Cookies.SplitOfJoin | user-service/internal/handler/grpc.go:196 | splitting a join of pieces without the separator gives the pieces back |
| Cookies.TrimPadded | user-service/internal/handler/grpc.go:197 | trimming takes off exactly the white space around |
| Cookies.PrefixIsName | user-service/internal/handler/grpc.go:198-199 | the prefix matches if and only if the names are equal, and what follows is the value |
| Cookies.CookieRoundTrip | user-service/internal/handler/grpc.go:181-204 | from any printed cookies the value of the first one of the configured name comes back, and the body token if there is none |
| Cookies.StandardRoundTrip | user-service/internal/handler/grpc.go:181-204 | from name=value pairs joined by "; " the value of the first one of the configured name comes back, and the body token if there is none; names and values have no ";" and no white space, by code point, at their edges |
| Cookies.SpacesByCode | user-service/internal/handler/grpc.go:197 | what is trimmed is exactly the white space of unicode.IsSpace, listed by code point |
| Cookies.SecondCookieIsFound | user-service/internal/handler/grpc.go:196-201 | the second cookie of the header "a=b; r=x" is found |
| Cookies.BodyTokenOtherwise | user-service/internal/handler/grpc.go:182-194 | without cookies in use, metadata or a cookie header it is the body token |
| Cookies.FirstNamedMeans | user-service/internal/handler/grpc.go:196-201 | the first of that name: no earlier cookie has it, and none has it when nothing is found |

## Left out

- RedisIdempotency.CheckFollows: is about a cache that only this store uses.
- Cookies.CookieRoundTrip: assumes a configured cookie name without '=', as cookie names are.
- LinkedList.List.MoveToFront: the ring of container/list with its sentinel is not modelled; a list is its nodes in order, and a node knows its list.
- Orders have no status, which no code modelled here changes: `CountByUser` counts all of a user's orders.
- Users are values, not objects: the repositories hand out copies, and no caller changes a user after storing it, so no aliasing is lost.
- Orders, in the same way, are values; `GetByID` of the order repositories and the listing of the Postgres one are not modelled.
- Float64 rounding and the overflow of a float64 that is converted to a Duration in the retry; int64 overflow anywhere but in the cache's time to live, where the wrap-around is modelled.
- The difference between wall and monotonic clocks, and time zones whose offset has seconds, in the token file's expiry.
- Concurrent writes of the token file that mix their bytes: a write happens, does not happen, or leaves no JSON object.
- The rounding of prices to NUMERIC(20,8), the text form of prices, and a commit whose success the client does not learn.
- The time the shutdown handler's own steps take; in `Shutdown` they take none, in `ShutdownProtocol` any.
- OS signals before Run listens for them, and `WaitForCompletion` of the shutdown handler.
- `Stats` of the caches and stores, the stop channel of the idempotency store's cleanup loop, and tickers.
- `ViewMarkets`, field and enum mappers, and the validators of ids, e-mails and passwords. Validation of ids is a flag
  where it decides whether state is touched.
- JWT signing and validation, bcrypt, JSON, Redis and the SQL driver, which are taken as described above.
- The circuit breaker and the rate limiter, whose state machines are in libraries outside the repository.
- gRPC servers, clients and interceptors, configuration, wiring, logging and metrics.
