# Anti-bruteforce: a verified model

The service decides whether a login attempt may go ahead. It asks a whitelist and a blacklist of
subnets first, then three sliding-window limiters: per login, per password hash and per IP. This
project models that logic in Dafny and proves what it guarantees.

`dafny verify dfyconfig.toml` checks everything.

## What is modelled

- **The in-memory bucket store** (`SlidingWindow`, `Buckets`, `BucketsDB`). The class `BucketsDB`
  is a map of timelines, each a slice over an array of its own, changed in place as the program
  does it and proved against the function `Admit`. Clock readings are nanoseconds; stamps and
  cuts are floored to milliseconds as `UnixMilli` does.
- **What a bucket guarantees** (`WindowTheorems`, `RealTimeTheorems`, `GreedyTheorems`). The
  window bound for stamps that take the lock out of order, the bound in real nanoseconds, each
  with the exact interval length for which it holds, and how admitting whenever there is room
  compares with any other policy.
- **The store under threads** (`BucketSteps`, `Linearizability`, `BucketProgress`,
  `BucketSchedules`, `ConcurrentChecks`). Every call is split at each lock operation, at the clock
  reading, and at each turn of the trim loop. All schedules are covered: linearizability, absence
  of deadlock, bounded calls, the window bound and its exactness, concurrent checks.
  A writer that waits for the map lock shuts out new readers, as `sync.RWMutex` does.
- **The Redis bucket store** (`RedisWindow`, `RedisStore`, `RedisTheorems`, `RedisReach`,
  `ExpiryThreshold`, `RedisChecks`, `StoreComparison`). One bucket is a map from member text to
  score with a deadline. The exact set and decision for any order of stamps, the bound over many
  instances and its exact reach, expiry and how much clock error it bears, checks of many
  instances at once, and the exact comparison with the in-memory store.
- **The decision** (`Text`, `Limits`, `Pipeline`, `ServiceRuns`, `RateLimitService`). Limiters,
  their key names, the order of the checks, and whole runs of the service on either store.
- **The subnet lists** (`Ipv4`, `SubnetLists`, `LocalMode`, `SubnetSync`). Parsing is a parameter.
  Local mode is a class over an in-memory repository. External mode is a system of instances with
  message queues whose reloads read the two lists separately while calls go on.

Clock readings, random suffixes, the password hash, the text of an IP, CIDR parsing and the order
in which maps yield their entries are inputs or free choices, so each theorem holds for all of
them. A limit and a window are positive where a theorem asks for `Working`.

## Where a promise holds only in part

- The documentation promises at most N attempts per window. Both stores keep that promise on
  every run exactly when stamps are not out of order or the limit is one
  (`FullWindowInBothStores`). With stamps out of order by up to d milliseconds and a limit of two
  or more they keep it for intervals of length window − d and no longer
  (`SkewBoundIsExact`, `ManyInstancesBoundIsExact`). Threads on one machine suffice to bring this
  about: the clock is read before the lock is taken (`AnyOrderHappens`, `ThreadBoundIsExact`).
- In real time the in-memory store covers intervals one millisecond short of the window, less
  the disorder of the readings unless the limit is one, and no longer ones (`RealBoundIsExact`,
  `RealThreadBoundIsExact`).
- Admitting whenever there is room never falls behind a policy that keeps the window bound
  (`GreedyIsOptimal`). It keeps that bound itself, and is then optimal, only by stamps and for
  windows of whole milliseconds (`GreedyIsFeasible`).
- The expiry of Redis keys stays unseen exactly while clients' clocks are within half a window of
  the server's (`ThresholdIsHalfAWindow`).
- The two implementations of the same port differ: Redis records denied attempts and so denies
  more. `DecisionsDiffer` says when, `AgreeOnlyAtOneMilli` for which windows.
- A CIDR is stored before it is validated. In local mode every later call fails until it is
  removed (`LocalAgreement`). In external mode every subscriber is safe only if each single call
  leaves loadable lists (`SurvivalIsCertain`); a CIDR that is removed again before anyone reads
  it does no harm (`SurvivalIsPossible`), one still stored at quiescence has ended every
  subscriber (`BadCidrTakesAllDown`).
- `docs/desigin.md:140-145` names the password bucket `pass:`; the code uses `password:`. The
  repository's README says a reset takes login and IP only; `Reset` also clears the bucket of the
  hash of whatever password it is given. The model follows the code.

## Model

| member | source | states |
|---|---|---|
| SlidingWindow.TrimCount | internal/storage/memory/bucketsdb.go:68-75 | the trim loop passes over a longest prefix of expired stamps, so on any list it never drops an entry newer than the cut |
| SlidingWindow.TrimIsFilter | internal/storage/memory/bucketsdb.go:68-75 | on a sorted list the trim loop keeps exactly the entries newer than the cut |
| SlidingWindow.ReplaySince | internal/storage/memory/bucketsdb.go:51-100 | under one rule the content of a bucket is determined by the attempts since its last reset |
| WindowTheorems.HeldSuffix | internal/storage/memory/bucketsdb.go:68-83 | the list is always the tail of everything admitted since the reset and never longer than the limit |
| WindowTheorems.SkewBound | internal/storage/memory/bucketsdb.go:52-85 | stamps out of lock order by at most d: every interval up to window − d holds at most `limit` admissions; the sliding-window guarantee for d = 0 |
| WindowTheorems.SkewHeld | internal/storage/memory/bucketsdb.go:66-80 | the other side: what an attempt still finds held is newer than its cut less d, and a denial finds exactly `limit` such entries |
| WindowTheorems.SkewBoundIsExact | internal/storage/memory/bucketsdb.go:52-85 | for every rule and every skew the intervals for which the bound holds on all runs are exactly those up to `Reach`: the window for a limit of one, otherwise the window less d, and none when d is a window or more |
| WindowTheorems.FullWindowKept | internal/storage/memory/bucketsdb.go:52-85 | the whole window is kept on all runs with skew d if and only if d is 0 or the limit is one |
| WindowTheorems.InMemoryClosedForm | internal/storage/memory/bucketsdb.go:66-84 | in time order an attempt is admitted exactly when its own window holds fewer than `limit` earlier admissions |
| WindowTheorems.SingleBound | internal/storage/memory/bucketsdb.go:52-85 | with a limit of one the full window is kept under any skew |
| WindowTheorems.AgeFromStamp | internal/storage/memory/bucketsdb.go:66-75 | an entry kept is younger in real time than the window; an entry dropped is older than the window less one millisecond |
| RealTimeTheorems.RealBound | internal/storage/memory/bucketsdb.go:60-84 | readings out of lock order by at most d nanoseconds: any real interval one millisecond and d short of the window holds at most `limit` admissions; a sequential run for d = 0 |
| RealTimeTheorems.RealBoundIsExact | internal/storage/memory/bucketsdb.go:60-84 | for every rule and every d the real intervals covered on all runs are exactly those up to `RealReach`; with a limit of one the disorder costs nothing |
| WindowTheorems.DenialWitness | internal/storage/memory/bucketsdb.go:77-80 | every denial is justified by the latest `limit` admissions, all younger in real time than the window |
| GreedyTheorems.GreedyIsOptimal | internal/storage/memory/bucketsdb.go:66-84 | for every window, by stamps and by clock readings: in every prefix of non-decreasing arrivals no choice of admissions within the same window bound has admitted more, and its m-th admission is no earlier |
| GreedyTheorems.GreedyIsFeasible | internal/storage/memory/bucketsdb.go:66-84 | the store keeps the bound its rivals are held to, and so is optimal among them, if and only if they are compared by stamps and the window is whole milliseconds |
| Buckets.Isolation | internal/storage/memory/bucketsdb.go:33-100 | after any mixed history a key's content is the replay of the calls on that key alone |
| Buckets.AllowIsAdmit | internal/storage/memory/bucketsdb.go:52-85 | a call of the store, early returns included, answers and changes its bucket as `Admit` says and no other |
| BucketsStore.Timeline.Admission | internal/storage/memory/bucketsdb.go:66-84 | the section under the lock, on the array, has the outcome of `Admit` and never lets the list outgrow the limit |
| BucketsStore.BucketsDB.constructor | internal/storage/memory/bucketsdb.go:26-31 | a new store is empty |
| BucketsStore.BucketsDB.GetTimeline | internal/storage/memory/bucketsdb.go:33-49 | returns the key's timeline, created empty if it was missing, and replaces no existing one |
| BucketsStore.BucketsDB.Charge | internal/storage/memory/bucketsdb.go:60-85 | `Allow` past its early returns: its own bucket gets the outcome of `Admit`, no other bucket changes |
| BucketsStore.BucketsDB.Allow | internal/storage/memory/bucketsdb.go:51-85 | the whole store and the answer are those of the atomic map; no limit denies and no window admits, both without a change |
| BucketsStore.BucketsDB.Reset | internal/storage/memory/bucketsdb.go:87-100 | empties that bucket and no other, and creates none |
| BucketsStore.Timeline.Advance | internal/storage/memory/bucketsdb.go:73-75 | moving the start of the slice drops a prefix |
| BucketsStore.Timeline.Append | internal/storage/memory/bucketsdb.go:83-83 | appending in place or into a fresh array of any larger capacity adds the stamp at the end |
| BucketsStore.Timeline.Truncate | internal/storage/memory/bucketsdb.go:96-98 | truncating to zero clears the list and keeps the array |
| BucketsStore.Timeline.CountExpired | internal/storage/memory/bucketsdb.go:68-72 | the loop over the array stops where the specification stops |
| BucketsStore.BucketsDB.AdmitTo | internal/storage/memory/bucketsdb.go:63-84 | one timeline of the store and its array change as `Admit` says; all other timelines and arrays stay as they are |
| Linearizability.SettleKept | internal/storage/memory/bucketsdb.go:66-84 | no step inside the critical section changes what the section will leave or answer |
| Linearizability.LockingAbs | internal/storage/memory/bucketsdb.go:61-63 | taking the timeline's lock is the step at which a call takes effect, on its own bucket only |
| Linearizability.NextKeepsInv | internal/storage/memory/bucketsdb.go:33-100 | every step of every thread keeps locks, references, results and contents consistent |
| Linearizability.Linearizable | internal/storage/memory/bucketsdb.go:33-100 | every schedule refines the atomic map: calls take effect once, between call and return, with the atomic store's results; a reset that reads nil is a no-op on an empty bucket |
| Linearizability.TimelinesArePermanent | internal/storage/memory/bucketsdb.go:41-48 | a key's timeline object is created at most once, never replaced, never shared |
| BucketProgress.NoTwoLocks | internal/storage/memory/bucketsdb.go:33-99 | no thread holds the map lock and a timeline lock together |
| BucketProgress.NoDeadlock | internal/storage/memory/bucketsdb.go:33-99 | while any call is unfinished some unfinished call can step |
| BucketProgress.OwnStepDecreases | internal/storage/memory/bucketsdb.go:33-99 | each step of a call reduces its remaining steps or its remaining trim turns |
| BucketProgress.OtherStepKeeps | internal/storage/memory/bucketsdb.go:33-99 | and no other thread's step gives them back |
| BucketProgress.CallsAreBounded | internal/storage/memory/bucketsdb.go:33-99 | on every schedule a call takes at most 14 steps of its own and one more for each entry of the list it found when it got the lock |
| BucketProgress.LetThroughIsAdmitted | internal/storage/memory/bucketsdb.go:51-85 | on a legal trace the calls let through on a key are those the sequential bucket admits |
| BucketProgress.ConcurrentWindowBound | internal/storage/memory/bucketsdb.go:52-85 | over all interleavings, between resets of a key, intervals up to window − d hold at most `limit` of the calls let through |
| BucketProgress.ConcurrentHeld | internal/storage/memory/bucketsdb.go:66-80 | over all interleavings a bucket never exceeds the limit and a further call keeps only entries newer than its cut less d |
| BucketSchedules.AnyOrderHappens | internal/storage/memory/bucketsdb.go:60-63 | any clock readings in any order are locked in by some schedule along which the clock never goes back |
| BucketSchedules.ThreadBoundIsExact | internal/storage/memory/bucketsdb.go:52-85 | so under threads, with a clock that never goes back, the intervals for which the bound holds on all schedules with skew d are exactly those up to `Reach` |
| BucketSchedules.RealThreadBoundIsExact | internal/storage/memory/bucketsdb.go:52-85 | the same in real time: under threads the real intervals covered on all schedules are exactly those up to `RealReach` |
| ConcurrentChecks.CallsAreNotShared | internal/app/ratelimit_service.go:78-95 | a call in a trace belongs to one check answered true at most |
| ConcurrentChecks.ConcurrentServiceBound | internal/app/ratelimit_service.go:66-96 | for checks that run concurrently, each three calls of its thread: per login, password hash and IP every interval up to `Reach` holds at most the configured number of those answered true |
| Text.DecimalRoundTrip | internal/storage/redisdb/buckets_repo.go:53-53 | the decimal text of a number determines it and contains only digits |
| Text.BucketKeyInjective | internal/domain/ratelimit/limiter.go:42-51 | `limitType + ":" + key` names a different bucket for every pair, also for keys with colons |
| Text.MemberInjective | internal/storage/redisdb/buckets_repo.go:52-54 | the member text determines milliseconds and suffix |
| RedisWindow.ScoresAreStamps | internal/storage/redisdb/buckets_repo.go:53-54 | every member in the set is a recorded attempt and its score is that attempt's stamp |
| RedisWindow.SliceIsMembers | internal/storage/redisdb/buckets_repo.go:46-60 | above every cut made so far the set is exactly the recorded (milliseconds, suffix) pairs, whatever order the stamps came in |
| RedisWindow.ExactSet | internal/storage/redisdb/buckets_repo.go:46-60 | whatever the order of the stamps, a member is in the set exactly when some attempt with that member has not been reached by its own or a later cut |
| RedisWindow.DecisionInAnyOrder | internal/storage/redisdb/buckets_repo.go:46-71 | so an attempt is granted exactly when at most `limit` attempts, itself included, have not been reached by a cut |
| RedisWindow.ManyInstancesBound | internal/storage/redisdb/buckets_repo.go:43-71 | clients' stamps out of execution order by at most d, distinct members: intervals up to window − d hold at most `limit` grants |
| RedisWindow.RedisDenialWitness | internal/storage/redisdb/buckets_repo.go:56-71 | a denial is witnessed by at least limit + 1 recorded attempts newer than that client's cut |
| RedisWindow.OrderedSet | internal/storage/redisdb/buckets_repo.go:56-60 | with attempts in time order ZCARD counts the distinct members recorded inside the window |
| RedisWindow.ClosedForm | internal/storage/redisdb/buckets_repo.go:48-71 | attempt k since the reset is granted exactly when k < limit or the attempt `limit` places earlier, granted or not, is a window old |
| RedisStore.Transaction | internal/storage/redisdb/buckets_repo.go:44-65 | the four queued commands, run in order, have the effect the specification gives the transaction |
| RedisStore.RedisIsLocal | internal/storage/redisdb/buckets_repo.go:42-72 | the transaction depends on and changes the entry of its key only |
| RedisStore.BucketsRepo.RunPipeline | internal/storage/redisdb/buckets_repo.go:44-65 | issuing the four commands has the effect of the transaction and returns its count |
| RedisStore.BucketsRepo.Allow | internal/storage/redisdb/buckets_repo.go:42-72 | issuing those commands leaves the keyspace and the answer of the specification |
| RedisStore.BucketsRepo.Reset | internal/storage/redisdb/buckets_repo.go:74-76 | deletes the key and nothing else |
| RedisTheorems.ExpiryUnobservable | internal/storage/redisdb/buckets_repo.go:56-63 | with client clocks within half a window of the server, deleting the key two windows after its last touch changes no decision and no set after a call |
| ExpiryThreshold.ThresholdIsHalfAWindow | internal/storage/redisdb/buckets_repo.go:54-63 | for whole-millisecond windows the expiry of keys never shows in an answer if and only if clients' clocks are within half a window of the server's |
| RedisReach.SingleGrantBound | internal/storage/redisdb/buckets_repo.go:43-71 | with a limit of one the full window is kept over many instances, in whatever order their stamps come |
| RedisReach.ManyInstancesBoundIsExact | internal/storage/redisdb/buckets_repo.go:43-76 | over calls on the keyspace, with expiry, clients within half a window of the server and stamps out of order by at most d, the intervals covered on all runs are exactly those up to `Reach` |
| RedisReach.FullWindowInBothStores | internal/storage/redisdb/buckets_repo.go:42-72 | both stores keep the whole window on all runs with skew d if and only if d is 0 or the limit is one |
| StoreComparison.DecisionsDiffer | internal/storage/redisdb/buckets_repo.go:42-72 | on the same ordered attempts the two stores decide differently exactly when the window of the attempt holds `limit` earlier attempts but fewer than `limit` that the in-memory store admitted |
| StoreComparison.Domination | internal/storage/redisdb/buckets_repo.go:42-72 | and then it is Redis that denies: whatever it grants the in-memory store admits |
| StoreComparison.HistoriesDiffer | internal/storage/redisdb/buckets_repo.go:42-76 | the same exact condition over histories with resets and with expiry |
| StoreComparison.DominationOverHistories | internal/storage/redisdb/buckets_repo.go:42-76 | domination over histories with resets and with expiry |
| StoreComparison.DominationIsStrict | internal/storage/redisdb/buckets_repo.go:46-60 | for every limit and every whole-millisecond window above one millisecond some ordered run ends with an attempt the in-memory store admits and Redis denies |
| StoreComparison.AgreeOnlyAtOneMilli | internal/storage/redisdb/buckets_repo.go:46-60 | among whole-millisecond windows the stores agree on all ordered runs exactly for one millisecond |
| StoreComparison.Lockout | internal/storage/redisdb/buckets_repo.go:46-71 | attempts that keep coming within a window of the one `limit` places earlier are all denied |
| Limits.ConfiguredByPositives | internal/domain/subnetlist/config.go:9-25 | the configuration gives every limit type a working rule exactly when its three numbers and its window are positive |
| Limits.AllowIsLocal | internal/ports/limit_repo.go:9-15 | in either store a call depends on and changes the bucket of its key only |
| Limits.BucketIsolation | internal/domain/ratelimit/limit_checker.go:28-42 | any calls on other (type, key) pairs leave a pair's bucket and future decisions unchanged, in either store |
| Pipeline.CheckEffect | internal/app/ratelimit_service.go:78-95 | a check passes when the three limiters pass it, each judging by its own bucket, and touches the bucket of a type exactly when it reaches it |
| Pipeline.ResetEffect | internal/app/ratelimit_service.go:98-113 | a reset empties the buckets of that login, password hash and IP and no others |
| Pipeline.ChargesArePrefix | internal/app/ratelimit_service.go:81-95 | in memory mode the entries a check adds are for the first n of login, password, IP; the answer is true exactly when n is 3 |
| ServiceRuns.BucketIsArrivals | internal/app/ratelimit_service.go:66-113 | after any run of the service a bucket of either store is what its store makes of the attempts that reached it since its last reset |
| ServiceRuns.WholeServiceBound | internal/app/ratelimit_service.go:66-96 | over any run of checks, resets and list changes, between resets of a login, password hash or IP, any window holds at most its limit of the limited checks answered true |
| ServiceRuns.AnswerIsTrueWhen | internal/app/ratelimit_service.go:66-96 | the answer is true exactly on the whitelist, or off the blacklist with all three limiters letting it through, in either store |
| ServiceRuns.ConfiguredBounds | internal/domain/subnetlist/config.go:9-25 | the same in the configuration's terms: LoginAttempts, PasswordAttempts and IPAttempts in one Window |
| ServiceRuns.ConfiguredAnswer | internal/domain/subnetlist/config.go:9-25 | both sides: after any run in memory mode a check left to the limiters is answered true exactly when the windows of its login, password hash and IP hold fewer than LoginAttempts, PasswordAttempts and IPAttempts admissions |
| ServiceRuns.WholeServiceBoundOnRedis | internal/app/ratelimit_service.go:66-96 | the same on Redis, for distinct members and clocks within half a window |
| RedisChecks.KeyIsOwnCalls | internal/storage/redisdb/buckets_repo.go:42-76 | on a keyspace shared by all clients and keys, what a key holds depends on its own calls only |
| RedisChecks.SharedServiceBound | internal/app/ratelimit_service.go:66-96 | checks of many instances that interleave transaction by transaction: per login, password hash and IP every interval up to `Reach` holds at most the configured number of those answered true |
| ServiceRuns.ListedChecksAreFree | internal/app/ratelimit_service.go:67-76 | taking every check the lists answered out of a run changes neither its final state, buckets included, nor any answer of the limiters |
| ServiceRuns.ResetRestoresQuota | internal/app/ratelimit_service.go:66-113 | after a reset, in either store and at any times, the service answers the next min(N, M, K) consecutive limited checks of the triple with true |
| ServiceRuns.OneMoreIsDenied | internal/app/ratelimit_service.go:66-113 | and one more inside the same window with false |
| RateLimitService.Limiter.Allow | internal/domain/ratelimit/limiter.go:41-45 | charges the bucket named by type and key under the limiter's rule |
| RateLimitService.Limiter.Reset | internal/domain/ratelimit/limiter.go:47-51 | resets that bucket |
| RateLimitService.LimitChecker.constructor | internal/domain/ratelimit/limit_checker.go:18-26 | one limiter for each configured type, with its rule, all on one store |
| RateLimitService.LimitChecker.Allow | internal/domain/ratelimit/limit_checker.go:28-34 | dispatches by type; a type without a limiter is denied and changes nothing |
| RateLimitService.LimitChecker.Reset | internal/domain/ratelimit/limit_checker.go:36-42 | dispatches by type; a type without a limiter changes nothing |
| RateLimitService.RateLimiterService.constructor | internal/app/ratelimit_service.go:31-56 | wires policer and checker to the given store, limits and parser, with two empty lists |
| RateLimitService.RateLimiterService.Check | internal/app/ratelimit_service.go:66-96 | true on the whitelist, otherwise exactly when off the blacklist and the buckets `login:<login>`, `password:<hash of the password>` and `ip:<ip>` each admit it; those three buckets, in that order and up to the first refusal, change as `Admit` says and nothing else does |
| RateLimitService.RateLimiterService.Reset | internal/app/ratelimit_service.go:98-113 | empties the buckets `login:<login>`, `password:<hash of the password>` and `ip:<ip>` and leaves all others as they are |
| RateLimitService.RateLimiterService.ReloadSubnets | internal/app/ratelimit_service.go:58-64 | the lists hold what their loads leave, no bucket changes, and the reload fails exactly when one of the two loads does |
| Ipv4.NetIsAligned | internal/domain/subnetlist/subnetlist.go:42-55 | the address check of `Add` accepts exactly the CIDRs without host bits |
| Ipv4.ContainsIsInterval | internal/domain/subnetlist/subnetlist.go:57-64 | masked comparison is membership in [base, base + 2^(32 − p)) |
| Ipv4.NestedOrDisjoint | internal/domain/subnetlist/subnetlist.go:42-64 | two networks are nested or disjoint, and their prefixes say which |
| SubnetLists.SubnetList.Add | internal/domain/subnetlist/subnetlist.go:42-55 | stores a CIDR under its text exactly when it parses and its address has no bit set behind the prefix |
| SubnetLists.SubnetList.Contains | internal/domain/subnetlist/subnetlist.go:57-64 | true exactly when some stored network contains the address, in whatever order they are scanned |
| SubnetLists.SubnetList.Remove | internal/domain/subnetlist/subnetlist.go:66-68 | removes that CIDR only |
| SubnetLists.SubnetList.Clear | internal/domain/subnetlist/subnetlist.go:70-72 | leaves the list empty |
| SubnetLists.SubnetList.Load | internal/domain/subnetlist/subnetlist.go:74-88 | a failed read changes nothing; otherwise the list holds what was read up to the first unacceptable CIDR, and there is no error exactly when every text read names a network without host bits |
| SubnetLists.LoadIsExact | internal/domain/subnetlist/subnetlist.go:74-88 | a load without error is exact, and any load holds only acceptable entries of what was read |
| SubnetLists.SubnetPolicer.constructor | internal/domain/subnetlist/subnetpolicer.go:20-26 | two separate empty lists |
| SubnetLists.SubnetPolicer.Check | internal/domain/subnetlist/subnetpolicer.go:28-38 | allow on the whitelist, else deny on the blacklist, else continue |
| SubnetLists.SubnetPolicer.ReloadSubnets | internal/domain/subnetlist/subnetpolicer.go:40-54 | whitelist then blacklist; a failed whitelist load leaves the blacklist as it was |
| SubnetLists.DecideByIntervals | internal/domain/subnetlist/subnetpolicer.go:28-38 | the answer is membership in the unions of the networks' intervals, the whitelist first |
| SubnetLists.CoveredByCidrs | internal/domain/subnetlist/subnetlist.go:42-64 | a loaded list covers an address exactly when it lies in [addr, addr + 2^(32 − p)) for the address and prefix of some acceptable CIDR of the list |
| SubnetLists.DecideByCidrs | internal/domain/subnetlist/subnetpolicer.go:28-38 | the answer from the texts of both lists: allow inside a whitelist CIDR, else deny inside a blacklist CIDR, else continue |
| SubnetLists.Start | internal/adapters/redissubscriber/subscriber.go:25-43 | reloads on every message: after any messages served the lists are those the last message found, after a failed reload what its two loads left of those; the loop ends on cancellation, closure or a failed reload |
| LocalMode.SubnetListDB.GetSubnetLists | internal/storage/memory/subnetlistdb.go:32-46 | the stored CIDRs of the list, each once, in some order |
| LocalMode.SubnetListDB.AddCIDRToSubnetList | internal/storage/memory/subnetlistdb.go:68-79 | adds to that list only, without validation |
| LocalMode.SubnetListDB.RemoveCIDRFromSubnetList | internal/storage/memory/subnetlistdb.go:81-91 | removes from that list only |
| LocalMode.SubnetListDB.ClearSubnetList | internal/storage/memory/subnetlistdb.go:60-66 | empties that list only |
| LocalMode.SubnetListService.PublishSubnetUpdated | internal/adapters/subnetupdatepublisher/local_publisher.go:13-15 | reloads the holder from the repository before returning |
| LocalMode.ReloadOutcome | internal/domain/subnetlist/subnetpolicer.go:40-54 | whatever the order in which the CIDRs are read, a reload succeeds exactly when all stored ones are acceptable, leaves the caches equal to them, and on failure leaves only stored entries in the list being loaded |
| LocalMode.SubnetListService.AddToWhitelist | internal/app/subnetlist_service.go:36-45 | stores, reloads, and succeeds exactly when all stored CIDRs are acceptable, with the caches then equal to the repository |
| LocalMode.SubnetListService.AddToBlacklist | internal/app/subnetlist_service.go:47-56 | the same for the blacklist |
| LocalMode.SubnetListService.RemoveFromWhitelist | internal/app/subnetlist_service.go:58-67 | the same for removal |
| LocalMode.SubnetListService.RemoveFromBlacklist | internal/app/subnetlist_service.go:69-78 | the same for removal |
| LocalMode.StoredIsLastAdded | internal/app/subnetlist_service.go:36-78 | a CIDR is stored exactly when the last call about it added it |
| LocalMode.SubnetListService.Administer | internal/app/subnetlist_service.go:36-78 | any calls on the service make a run of its steps; from an empty repository each succeeds exactly when nothing added and still there is unacceptable |
| LocalMode.LocalAgreement | internal/app/subnetlist_service.go:36-78 | in any run of edits, reads in any order and loads, whatever failed before, a call succeeds exactly when every text added and still there parses and has no host bits, and then the caches equal the repository |
| SubnetSync.AlwaysFresh | internal/domain/subnetlist/subnetpolicer.go:40-54 | in every reachable state a cached list differs from the repository only while a call is unpublished, a message is queued or a reload has yet to load that list |
| SubnetSync.QuiescentAgrees | internal/adapters/redissubscriber/subscriber.go:25-43 | at quiescence every running instance caches exactly the repository's two lists |
| SubnetSync.BadCidrTakesAllDown | internal/adapters/redissubscriber/subscriber.go:38-40 | at quiescence with a stored CIDR that cannot be loaded no subscriber is running |
| SubnetSync.StaysUp | internal/adapters/redissubscriber/subscriber.go:33-41 | while only acceptable CIDRs are stored no subscriber ends |
| SubnetSync.SurvivalIsCertain | internal/adapters/redissubscriber/subscriber.go:33-41 | for given calls, every interleaving keeps every subscriber running if and only if after each single call all stored CIDRs can be loaded |
| SubnetSync.SurvivalIsPossible | internal/adapters/redissubscriber/subscriber.go:33-41 | some interleaving comes to rest with every subscriber running if and only if the lists the calls end with can be loaded |
| SubnetSync.Converges | internal/app/subnetlist_service.go:36-78 | once calls stop every schedule ends within a known number of steps, and only in quiescence |

## Left out

- BucketsStore.BucketsDB: its methods run one at a time; locks and threads are the matter of `BucketSteps`, where a timeline is a sequence.
- RateLimitService.LimitChecker.Allow: takes one of the three declared limit types; other strings, which no caller passes, are not modelled.
- RateLimitService.RateLimiterService: is built on the in-memory store; the same decision on Redis is covered by the `Store` functions it is proved against.
- RedisStore.BucketsRepo.Allow: does not model failures of the connection or of the random source, which the program returns as errors without a decision.
- LocalMode.SubnetListService: administrative calls run one at a time and checks do not overlap a reload, because the cached lists have no lock.
- SubnetSync: messages are delivered, publishes succeed, instances are subscribed from the start and reads of the repository succeed; loading a list is one step for readers.
- Redis is taken as documented: a transaction runs at one server time, scores are exact integers, EXPIRE is exact although the client library sends whole seconds.
- 64-bit overflow of times and counts.
- IPv6, and the text formats net.ParseCIDR accepts.
- SHA-256, the random generator and net.IP.String: uninterpreted functions or inputs.
- `SaveSubnetList`, which no service calls and which the two repositories implement differently.
- The PostgreSQL repository, apart from being a set of CIDRs per list.
- gRPC server, command-line client, configuration, logging, migrations and start-up.
