# Verified model of toko-mo-co

toko-mo-co is an LLM proxy written in Go. This project models the algorithms behind its
decisions in Dafny and proves properties of whole runs of them. Each component is a plain
specification (functions on values) with its properties as lemmas, and, where the Go code
updates state in place, classes and loops that are proved to make exactly the specified
changes.

`dafny verify dfyconfig.toml` checks everything.

| files | component |
|---|---|
| `BucketKeys`, `RateLimiter`, `LimiterRuns`, `LimiterQuota`, `LimiterCleanup` | token buckets, daily quotas, the background cleaner, and their bounds over runs of whole operations |
| `LimiterService` | what the limiter has to grant, exactly, and which buckets the cleaner keeps |
| `LimiterNotice` | exactly when a caller can tell that a bucket was cleaned away and created anew |
| `LimiterRegions`, `LimiterInterleaving`, `LimiterOvertaking` | the same limiter lock region by lock region, callers and cleaner interleaved in any way: what still holds, and exactly when the bounds break |
| `RulesEngine`, `RuleSelection`, `RuleMeaning`, `EngineRuns`, `EngineLimits`, `EngineInterleaving` | compiling, sorting and evaluating rules; what the stored rows mean; what a rule guarantees over whole runs, and when evaluations overlap |
| `LruOrder`, `ResponseCache`, `CacheObject`, `CacheInterleaving` | the LRU and TTL response cache, sequentially and under every interleaving of its lock regions |
| `Upstream` | retry with back-off, provider failover chain, fallback, and who closes which response |
| `Similarity`, `SimilarityLaws`, `MemoryModel`, `MemoryConflicts`, `MemoryRanking`, `MemoryStore`, `MemoryInterleaving`, `VectorStore` | cosine and hybrid similarity; the memory store's quotas, evictions, conflicts and ranking, and its lock regions interleaved; the semantic cache's vectors |
| `HubModel`, `HubObject` | the dashboard's WebSocket event loop and its summary cache |
| `Luhn`, `Iban` | the two checksums of the redactor, with the errors they detect characterised exactly |
| `Pricing`, `PricingStore` | longest-prefix pricing and the bounded record of unknown models |
| `SessionAgents`, `SessionTable` | the comma list of agents kept by the session upsert |
| `Wrappers` | the Option datatype |

## Conventions

- Time is an integer number of nanoseconds handed to each operation. Where the code needs a clock
  that never goes back, runs say so (`RunOk`, `TicksOk`, `Possible`, `CanRun`); nothing else is assumed about it.
- Request refill is the exact floor of elapsed * limit / window; money, weights and similarities are
  reals. A square root is any function with the two defining properties of one; the recency factors
  are any positive, suitably monotone functions.
- Library calls that cannot be seen from here (regular expressions, globs, URL checks, wording
  heuristics, the reranker, the HTTP exchange) are arbitrary functions or arbitrary results, so the
  lemmas hold whatever they return.
- Go map iteration is a loop that picks any remaining key.

## What the proofs show about the code and its documentation

Where the two disagree, the model follows the code.

- `rules/ratelimiter.go:171` calls the request limit a sliding window. Checks that run one after the
  other admit up to twice the limit in one window, and not more: `LimiterRuns.AdmittedInAnyInterval` and
  `LimiterCleanup.TwiceTheLimitInOneWindow`. The quotas behave alike at a rollover.
- A check gets its bucket under one lock and uses it under another, and the cleaner can delete the bucket
  in between: its caller is overtaken. In every stretch of every interleaving at most twice the limit passes
  in one window, and at most twice the quota is charged in a period, besides one request, or one quota, for
  each overtaken caller (`LimiterOvertaking.PassedWithOvertaken`, `LimiterOvertaking.PaidWithOvertaken`). That
  is exact: for any number n of them, twice the limit and n more do pass, within one window, and twice the
  quota and n more quotas are charged within a nanosecond (`LimiterOvertaking.EveryExcessIsReached`). So
  overtaking removes every fixed bound. From any state the bound can be exceeded without anybody else being
  overtaken exactly when somebody already holds a deleted bucket and can get something out of it
  (`LimiterOvertaking.BoundBreaksIff`).
- Cleanup goes unnoticed as long as nobody is overtaken and every bucket created in place of one cleaned away
  is first used at once, a token's time later or more, or, for a quota, more than a period later
  (`LimiterInterleaving.InterleavedCleanupIsUnobservable`). The code reads the clock again between creation
  and use, and a gap d is noticed, by some later answer, exactly if 0 < d and d is shorter than a token's
  time, or no longer than the quota's period (`LimiterNotice.CleanupNoticedIff`,
  `LimiterNotice.LateFirstUseIsNoticedIff`).
- The cleaner is to keep the map of buckets from growing without bound, but a quota bucket with a charge in it
  is never removed, however long nobody uses it (`LimiterService.ChargedBucketsStay`).
- A refill drops the fraction of a token each time, so a steady demand can get less than the configured rate.
  It never gets less than half: after any stretch in which a requests passed, fewer than the limit, and long
  enough for 2 * a + 1 tokens, the next request passes (`LimiterService.HalfTheRateIsGuaranteed`, and `LimiterService.HalfTheRateUnderInterleaving` for every
  interleaving, for a caller not overtaken).
- The scope "global" still has one bucket per agent (`BucketKeys.OneScopeSeparatesAgents`).
- A rule with a request_count condition never fires, so the built-in "rate-limiter" template
  (`rules/rule.go:187-206`) limits nothing (`EngineRuns.TemplateLimitsNothing`); overlapping evaluations do
  not change that (`EngineInterleaving.CountingRulesNeverAct`).
- A cost_daily and a cost_monthly condition are one and the same: both compare the cost of the session so
  far and no period (`RulesEngine.CostQuotaIsSessionCostIff`).
- A prompt_content condition without a mode compares the whole prompt; the substring search commented as the
  default is reached only by an undocumented mode (`RulesEngine.PromptSearchedIff`).
- A request refused by a later check of a rate-limit action has still paid for the earlier ones
  (`RuleSelection.EveryPassedStageIsPaid`); it is charged nothing exactly when the first check configured
  refuses it, or only the cost check comes before and the cost is zero (`RuleSelection.RefusedForFreeIff`).
- The cache is warm-loaded most recent first, each row pushed to the front, so the recency list comes
  out reversed and a full cache first evicts its hottest entry
  (`ResponseCache.WarmLoadedCacheEvictsTheHottest`).
- Storing under a key that is cached replaces body, headers, token counts, price and expiry, but keeps the status,
  provider and model of the first response (`ResponseCache.StoredIsServed`).
- A slow `Lookup` that saw an expired entry can delete a fresh one stored in between
  (`CacheInterleaving.LateDropRemovesAnyRenewal`, in every state with such a lookup). It does exactly when
  the last step in between that touched the key stored an entry still fresh
  (`CacheInterleaving.LateDropRemovesFreshIff`, `CacheInterleaving.DropAfterCheckRemovesFreshIff`).
- The failover chain closes the body that came with an error a second time (`proxy/handler.go:327-329`); the
  HTTP library has closed it already (`Upstream.Call.Execute`).
- With a whole multiplier the back-off of the loop is the closed form beside it exactly when the first delay
  does not pass the cap (`Upstream.LoopFollowsClosedFormIff`): the loop caps only from the second delay on.
  With a fraction in the multiplier the loop, which cuts every delay to nanoseconds, falls behind the closed
  form under some cap, whatever the first delay, if there is one (`Upstream.LoopFollowsUnderEveryCapIff`).
- A fact is looked for under one lock and stored under another: n requests that all look before one of them
  stores leave n copies (`MemoryInterleaving.EveryCopyIsStored`). A request stores a duplicate exactly when another one wrote a
  similar entry after its scan that is still there (`MemoryInterleaving.DuplicateIff`).
- `executeUpstreamRequest` returns neither a response nor an error exactly when the retry loop never
  runs and nobody in the chain answers; configuration validation (`config/config.go:455`) rules it out.
- `SearchHybrid` can return a hit with an empty hash, exactly when nothing is similar and the threshold
  is not positive (`VectorStore.PhantomHitIff`); configuration validation (`config/config.go:491`) keeps
  the threshold between 0.5 and 1.
- The cap of 500 unknown models holds unless the empty model name is recorded and is the oldest
  (`PricingStore.FullRecordCanGrowIff`, `PricingStore.SomeRunPassesTheLimit`).
- The session list's LIKE test is exact for an id if and only if the id has no wildcard and, with
  SQLite's case folding, no letter (`SessionAgents.TestIsExactIff`); an agent with a comma
  in its name always has a look-alike that makes a session lose it (`SessionAgents.CommaNamesGetLost`).
- A reranker that names a candidate twice gets it returned twice (`MemoryRanking.PicksDistinctIff`).
- The IBAN check misses neighbour exchanges for exactly the pairs 1-B, 2-M and 3-X, Luhn for exactly 0 and 9.

## Model

| member | source | states |
|---|---|---|
| `BucketKeys.KeysFixTheRule` | rules/ratelimiter.go:145-214 | equal keys of one kind belong to the same rule, whatever colons scope and agent contain |
| `BucketKeys.KindsAreDisjoint` | rules/ratelimiter.go:174-214 | request, cost and token keys never coincide |
| `BucketKeys.OneScopeSeparatesAgents` | rules/ratelimiter.go:172-178 | within one scope, "global" included, keys are equal exactly for equal agents |
| `BucketKeys.KeysEqualIff` | rules/ratelimiter.go:145-214 | keys of one kind are equal exactly for equal rule ids and equal joined "scope:agent" strings |
| `BucketKeys.ScopesCollideIff` | rules/ratelimiter.go:178 | two scopes of a rule (before and after an edit, or the peek's fixed "agent") share a bucket for some agents exactly when one, with its colon, begins the other |
| `BucketKeys.ColonFreeScopesSeparate` | rules/rule.go:110 | colon-free scopes, as the documented ones are, never share one, whatever the agent ids hold |
| `RateLimiter.TokenBucket.ConsumeOneToken` | rules/ratelimiter.go:35-55 | refill by whole tokens, cap, take one if there is one: the field updates are `ConsumeOne` |
| `RateLimiter.TokenBucket.ConsumeAmount` | rules/ratelimiter.go:59-74 | roll the period over, refuse above the quota, else accumulate: the field updates are `ConsumeQuota` |
| `RateLimiter.TokenBucket.IsStale` | rules/ratelimiter.go:103-112 | the cleaner's test, for both kinds of bucket |
| `RateLimiter.Limiter.GetOrCreateRequest` | rules/ratelimiter.go:124-139 | an absent key gets a full bucket; nothing else in the map changes |
| `RateLimiter.Limiter.GetOrCreateQuota` | rules/ratelimiter.go:124-139 | likewise for a quota bucket, with its period starting now |
| `RateLimiter.Limiter.CheckAndConsumeRequest` | rules/ratelimiter.go:174-188 | run alone with one clock reading, the bucket map changes at this key only, by one consumption of the found or created bucket |
| `RateLimiter.Limiter.CheckAndConsumeCost` | rules/ratelimiter.go:193-205 | the same for the cost quota |
| `RateLimiter.Limiter.CheckAndConsumeTokens` | rules/ratelimiter.go:210-222 | the same for the token quota |
| `RateLimiter.Limiter.PeekRequest` | rules/ratelimiter.go:145-169 | answers from the refilled balance and changes nothing; an absent bucket is "allowed" |
| `RateLimiter.Limiter.Cleanup` | rules/ratelimiter.go:97-120 | one tick removes exactly the stale buckets, in any visiting order |
| `LimiterRuns.StepKeepsInv` | rules/ratelimiter.go:35-74 | after every operation 0 <= tokens <= limit and 0 <= used <= quota, for every bucket |
| `LimiterRuns.RefillCredit` | rules/ratelimiter.go:39-48 | a refill creates no credit and banks less than one token of fraction |
| `LimiterRuns.IntervalBound` | rules/ratelimiter.go:35-55 | from any reachable state, a stretch of length D admits at most limit + ceil(D * limit / window) |
| `LimiterRuns.AdmittedInAnyInterval` | rules/ratelimiter.go:174-188 | the same for every stretch of every run of whole operations from an empty limiter, cleanups between them included; at most twice the limit in a window |
| `LimiterCleanup.StaleRequestIsFresh` | rules/ratelimiter.go:103-109 | a request bucket idle for two windows refills to exactly the state of a new one |
| `LimiterCleanup.StaleQuotaIsFresh` | rules/ratelimiter.go:109-112 | an unused quota bucket past its reset rolls over to exactly the state of a new one |
| `LimiterCleanup.SameRequestIff` | rules/ratelimiter.go:35-55 | a request at t makes the same of a stale bucket and of one created at c in its place exactly if t = c or t - c is a token's time or more |
| `LimiterCleanup.SameChargeIff` | rules/ratelimiter.go:59-74 | a charge exactly if t = c or t - c is more than the period |
| `LimiterCleanup.CleanupIsUnobservable` | rules/ratelimiter.go:97-120 | in runs of operations in which buckets created in place of cleaned ones are first used at such times, deleting all cleanup changes no allow, deny or peek answer |
| `LimiterCleanup.WholeOperationsAreHarmless` | rules/ratelimiter.go:174-188 | runs of whole operations are such runs |
| `LimiterCleanup.PeekForetellsRequest` | rules/ratelimiter.go:145-188 | in every reachable state the peek is the answer a request would get at the same instant |
| `LimiterCleanup.SpacedRequestPasses` | rules/ratelimiter.go:35-55 | a request one token's time after the last operation is always admitted |
| `LimiterCleanup.TwiceTheLimitInOneWindow` | rules/ratelimiter.go:171-188 | for all limits, a run one window long that admits exactly twice the limit |
| `LimiterService.RefillGivesAll` | rules/ratelimiter.go:39-48 | a refilled balance is the whole tokens that balance and elapsed time are worth, up to the limit; below it less than one token's worth is lost |
| `LimiterService.BurstAdmits` | rules/ratelimiter.go:35-55 | from any reachable state, a burst of n requests at one instant passes exactly as far as the bucket's fields are worth, the whole limit if there is no bucket |
| `LimiterService.EarnedRequestsPass` | rules/ratelimiter.go:35-55 | after time for k tokens, the tokens left and k more requests pass at once, up to the limit |
| `LimiterService.HalfTheRateIsGuaranteed` | rules/ratelimiter.go:174-188 | after any stretch of any run in which fewer than the limit passed, and less than half of what it earned, the next request passes |
| `LimiterService.HalfTheRateUnderInterleaving` | rules/ratelimiter.go:97-188 | likewise after any interleaved lock regions, for a caller that is not overtaken |
| `LimiterService.ChargesPassIffTheyFit` | rules/ratelimiter.go:59-74 | until the period ends, any sequence of charges passes as a whole exactly if the sum fits what is left |
| `LimiterService.FirstChargesPassIffTheyFit` | rules/ratelimiter.go:59-74 | a key's first charges within a period pass exactly if the sum fits the quota |
| `LimiterService.NewPeriodNewQuota` | rules/ratelimiter.go:65-68 | after the period the whole quota is there again, for a full period from the first charge on |
| `LimiterService.UsedBucketsStayAWindow` | rules/ratelimiter.go:103-109 | a request bucket survives every tick until a window after its use, and none more than two windows after |
| `LimiterService.ChargedBucketsStay` | rules/ratelimiter.go:109-112 | over any run without another charge to its key, a quota bucket with a charge in it is neither removed nor changed |
| `LimiterService.UnchargedBucketsGo` | rules/ratelimiter.go:109-112 | one without goes at a tick exactly if its period is over |
| `LimiterNotice.CleanupNoticedIff` | rules/ratelimiter.go:97-139 | after any run so far unnoticed, the next use keeps to these times exactly if no sequence of later operations on its key is ever answered otherwise than without cleanup |
| `LimiterNotice.LateFirstUseIsNoticedIff` | rules/ratelimiter.go:97-139 | for every limit, quota and gap d between creation and first use: cleanup can be noticed exactly if 0 < d and d is less than a token's time, or no more than the period |
| `LimiterQuota.ChargedInPeriod` | rules/ratelimiter.go:59-74 | until a period ends no more is charged than was left in it |
| `LimiterQuota.ChargedInAnyPeriod` | rules/ratelimiter.go:59-74 | any stretch no longer than the period of any run of whole operations is charged at most twice the quota |
| `LimiterQuota.TwiceTheQuotaAtARollover` | rules/ratelimiter.go:65-68 | one nanosecond around a rollover suffices for twice the quota |
| `LimiterRegions.MoveRefines` | rules/ratelimiter.go:97-139 | every lock region of callers and cleaner is at most one operation on the buckets that can still be found, and tells its caller what that operation answers |
| `LimiterInterleaving.RunRefines` | rules/ratelimiter.go:97-222 | so every interleaving of regions is a run of operations, with the same buckets left to be found |
| `LimiterInterleaving.PassedInAnyInterval` | rules/ratelimiter.go:97-188 | under every interleaving from an empty limiter, a stretch of length D admits at most limit + ceil(D * limit / window), twice the limit in a window, besides what passes on buckets deleted under their callers |
| `LimiterInterleaving.PaidInAnyPeriod` | rules/ratelimiter.go:97-222 | likewise twice the quota in a stretch no longer than the period, besides what is charged on such buckets |
| `LimiterInterleaving.LateWereOvertaken` | rules/ratelimiter.go:101-139 | no more requests pass on deleted buckets than the cleaner overtook callers |
| `LimiterInterleaving.LateChargesWereOvertaken` | rules/ratelimiter.go:101-139 | and no more is charged on them than a quota for each |
| `LimiterInterleaving.UndisturbedBounds` | rules/ratelimiter.go:97-222 | if no caller is overtaken, the bounds hold for all that passes or is charged |
| `LimiterInterleaving.InterleavedCleanupIsUnobservable` | rules/ratelimiter.go:97-222 | if moreover buckets created in place of cleaned ones are first used at once or late enough, callers are told what a limiter without cleanup tells them |
| `LimiterOvertaking.PassedWithOvertaken` | rules/ratelimiter.go:97-188 | under every interleaving from any reachable state, at most twice the limit passes in a window, and one request for each caller overtaken before or in it |
| `LimiterOvertaking.PaidWithOvertaken` | rules/ratelimiter.go:97-222 | at most twice the quota is charged in a period, and one quota for each |
| `LimiterOvertaking.StraysComeOnTop` | rules/ratelimiter.go:101-139 | from any state, whatever others do, all callers holding deleted buckets can be served within one window or period on top of twice the limit or quota |
| `LimiterOvertaking.BoundBreaksIff` | rules/ratelimiter.go:101-139 | from any state, some continuation that overtakes nobody exceeds a key's bound exactly if a caller holds a deleted bucket of the key and has a request to make, or a positive charge within the quota |
| `LimiterOvertaking.EveryExcessIsReached` | rules/ratelimiter.go:101-139 | for every limit, quota and n, an interleaving from the empty limiter that overtakes n callers and then passes exactly twice the limit and n in one window, or charges twice the quota and n quotas within a nanosecond |
| `RulesEngine.Engine.Reload` | rules/engine.go:158-188 | rules that compile, sorted by priority and id, replace the old slice |
| `RulesEngine.Engine.ConditionHolds` | rules/conditions.go:129-302 | the Evaluate methods, branch by branch, decide what `Holds` says; a request_count condition peeks and changes nothing |
| `RulesEngine.LimiterMattersIff` | rules/conditions.go:238-258 | request_count conditions are exactly those whose verdict the buckets or the clock can change |
| `RulesEngine.CostQuotaIsSessionCostIff` | rules/conditions.go:52-71 | daily and monthly cost conditions are one condition on the session cost so far; it agrees with cost_session gte exactly where there is a session or the threshold is positive |
| `RulesEngine.PromptSearchedIff` | rules/conditions.go:153-182 | a prompt condition looks for its text inside the prompt exactly under a mode that is neither empty nor documented |
| `RulesEngine.Engine.MatchAll` | rules/engine.go:147-154 | true exactly when every condition holds |
| `RulesEngine.Engine.Apply` | rules/actions.go:93-222 | result and bucket changes of each action |
| `RulesEngine.Engine.ApplyRateLimit` | rules/actions.go:128-176 | three stages in order, stopping at the first refusal, without rollback |
| `RulesEngine.Engine.Evaluate` | rules/engine.go:114-141 | result, match flag and bucket changes are those of the first rule that applies |
| `RuleSelection.SortIsUnique` | rules/engine.go:173-179 | with distinct ids, whatever sorting algorithm is used the order is the same |
| `RuleSelection.RowOrderIrrelevant` | rules/engine.go:158-188 | the loaded rules do not depend on the order of the rows |
| `RuleSelection.EvaluatePicksTheBestRule` | rules/engine.go:114-141 | the outcome is that of the applying rule with highest priority, then lowest id; none applying, nothing changes |
| `RuleSelection.WinnerIsUnique` | rules/engine.go:173-179 | there is only one such rule |
| `RuleMeaning.ResultNamesTheDecidingRow` | rules/engine.go:114-188 | after a reload, whatever the order of the rows, the result names a row exactly if it applies, no applying row has a higher priority, and none with the same has a lower id; it shows that row's action |
| `RuleMeaning.RowAppliesIff` | rules/engine.go:114-154 | a row applies exactly if it is enabled, meant for this agent or application or for all, and each of its stored conditions holds |
| `RuleMeaning.SpecMeansWhatItCompilesTo` | rules/conditions.go:21-302 | a stored condition, compiled and evaluated, compares the field it names with its value in the way its mode or operator says |
| `RuleMeaning.RowCompilesIff` | rules/engine.go:192-211 | a row is left out exactly if a condition is of no known kind or has a bad expression, or its action lacks what it needs |
| `RuleMeaning.ResultShowsAction` | rules/actions.go:20-222 | verdict, status, message, model, prompt and target of the result are those of the stored action, with 403 and 429 where no status is given |
| `RuleMeaning.RefusalNamesItsCheck` | rules/actions.go:128-176 | the message of a refusal tells which of the three checks failed first |
| `RuleMeaning.FirstUseOpensAccounts` | rules/actions.go:128-176 | an agent's first request opens a bucket with the rule's limit and window, and budgets that run for 24 hours |
| `RuleSelection.IrrelevantRuleChangesNothing` | rules/engine.go:114-141 | adding a rule that does not compile, does not apply or ranks below the winner changes no outcome |
| `RuleSelection.EvaluateTouchesOneRule` | rules/engine.go:114-141 | a bucket that changes belongs to the rule named in the result |
| `RuleSelection.RefusedRequestsStillPay` | rules/actions.go:128-176 | a passed request stage leaves one token less than the refilled balance, a passed cost stage the cost on top of what was used, also when a later stage refuses |
| `RuleSelection.EveryPassedStageIsPaid` | rules/actions.go:128-176 | allowed exactly if all three accounts have room; each account moves by its charge exactly if its stage was reached and passed |
| `RuleSelection.RefusedForFreeIff` | rules/actions.go:128-176 | a refused request is charged nothing exactly when the first stage configured refuses it, or only a cost stage passed and the cost is zero |
| `RuleSelection.PeriodsStayForward` | rules/ratelimiter.go:59-74 | no action and no cleanup makes a quota period end before it begins, which the payment results assume |
| `EngineRuns.StepKeepsCountersAbsent` | rules/conditions.go:253-258 | no evaluation or cleanup creates a request bucket of a rule with a request_count condition |
| `EngineRuns.RequestCountRulesNeverFire` | rules/conditions.go:238-258 | in no state of any run from an empty limiter does such a rule apply |
| `EngineRuns.TemplateLimitsNothing` | rules/rule.go:187-206 | installed alone, the template passes every request of every run |
| `EngineRuns.CountingRulesAreInert` | rules/conditions.go:238-258 | deleting all such rules changes no answer of any run |
| `EngineLimits.TickRuns` | rules/actions.go:128-176 | every engine step is a run of the bucket operations it lists |
| `EngineLimits.RunPays` | rules/actions.go:135-172 | every allowed request was admitted by the rule's request bucket, its cost charged to the cost bucket and its tokens to the token bucket |
| `EngineLimits.AllowedRequestsInAnyWindow` | rules/actions.go:135-145 | with evaluations and sweeps one after the other, and whatever other rules and agents do, at most twice the limit per agent in any window |
| `EngineLimits.AllowedAmountInAnyDay` | rules/actions.go:147-172 | likewise the requests a rule allows an agent within a day cost at most twice the money budget and hold at most twice the token budget |
| `EngineInterleaving.AllowedUnderInterleaving` | rules/actions.go:128-145 | with evaluations, peeks and cleanup interleaved region by region: of the requests allowed in the end, those that took their token in a stretch keep the limiter's bound, besides what passes late |
| `EngineInterleaving.SpentUnderInterleaving` | rules/actions.go:147-172 | and those charged in a day keep within twice the budget, besides what is charged late |
| `EngineInterleaving.UndisturbedStretch` | rules/actions.go:128-172 | where the cleaner overtakes no evaluation, nothing passes or is charged late, so the bounds hold for everything |
| `EngineInterleaving.CountingRulesNeverAct` | rules/conditions.go:238-258 | with evaluations, peeks and cleanup interleaved region by region, no evaluation of a rule with a request_count condition reaches its action, and no request bucket of such a rule is created |
| `LruOrder.CacheIsRecencyPrefix` | cache/cache.go:231-331 | the list of a cache is the prefix of the full recency order that fits its capacity |
| `LruOrder.SmallerCacheIsPrefix` | cache/cache.go:231-331 | a smaller cache holds a prefix of what a larger one holds |
| `LruOrder.HitsGrowWithCapacity` | cache/cache.go:231-331 | more capacity never means fewer hits |
| `LruOrder.KeptIffFewOthersSince` | cache/cache.go:231-331 | a key is kept exactly when fewer than the capacity of other keys were accessed since |
| `ResponseCache.StoreKeeps` | cache/cache.go:282-306 | after a store, list and map agree and hold at most max(1, maxEntries) keys |
| `ResponseCache.EvictExpiredKeeps` | cache/cache.go:147-161 | after a sweep they still agree, and no key is added |
| `ResponseCache.GetOrFillIsAccess` | proxy/handler.go:811-833 | look up, store on a miss: the list moves by one LRU access and hits exactly the listed keys |
| `ResponseCache.HitIffFewOthersSince` | proxy/handler.go:944-965 | over any sequence of such requests a key hits exactly when fewer than the capacity of others came since |
| `ResponseCache.LargerCacheHitsMore` | proxy/handler.go:811-833 | over the same requests, nothing expired, a larger cache never hits less often |
| `ResponseCache.StoredIsServed` | cache/cache.go:231-306 | what was stored under a key is served, content and all, exactly until it expires, and the key is the most recent; an update keeps hash, provider, model and status of the first store |
| `ResponseCache.StoreLeavesOthers` | cache/cache.go:282-331 | no other entry changes, and one is lost exactly if it is the least recent and a new key comes to a full cache |
| `ResponseCache.LookupLeavesOthers` | cache/cache.go:231-278 | a lookup changes no entry and removes exactly its own key when expired |
| `ResponseCache.SweepGoesUnnoticed` | cache/cache.go:147-161 | every lookup after a sweep answers as without it, and nothing expired is left |
| `ResponseCache.WarmLoadReverses` | cache/cache.go:103-125 | loaded rows end up in reverse order of recency |
| `ResponseCache.WarmLoadKeeps` | cache/cache.go:93-130 | the loaded cache is well formed and within its capacity |
| `ResponseCache.WarmLoadedCacheEvictsTheHottest` | store/db.go:1402-1403 | in a full warm-loaded cache the first new store evicts the most recently accessed row, and only it |
| `CacheObject.LruCache.ValidView` | cache/cache.go:51-60 | the object's invariant: entries, list and index hold the same keys, each once, within the capacity |
| `CacheObject.LruCache.LookupEntry` | cache/cache.go:231-278 | run alone, entry, recency and counters change as in the sequential cache: expired entries are dropped, others promoted |
| `CacheObject.LruCache.StoreEntry` | cache/cache.go:282-306 | overwrite in place and promote, or evict exactly the last and insert at the front |
| `CacheObject.LruCache.EvictLRU` | cache/cache.go:322-331 | the last list element goes, from all three structures |
| `CacheObject.LruCache.DropEntry` | cache/cache.go:243-249 | the key goes from all three structures, if it is there |
| `CacheObject.LruCache.PromoteEntry` | cache/cache.go:254-259 | the key moves to the front, if it is there |
| `CacheObject.LruCache.RemoveExpired` | cache/cache.go:147-161 | exactly the expired entries go, in any visiting order |
| `CacheObject.LruCache.Flush` | cache/cache.go:358-368 | everything is emptied and the counters reset |
| `CacheObject.LruCache.LoadRows` | cache/cache.go:93-125 | the loading loop builds the reversed list |
| `CacheInterleaving.StepsAreRegions` | cache/cache.go:231-331 | each lock region changes the shared cache as one sequential operation does |
| `CacheInterleaving.StartAgrees` | cache/cache.go:70-90 | the empty cache satisfies what every interleaving keeps |
| `CacheInterleaving.EveryInterleavingAgrees` | cache/cache.go:147-368 | under every interleaving, after every step, entries, list and index hold the same keys, each leading to its own list element, within the capacity |
| `CacheInterleaving.LookupsAreCounted` | cache/cache.go:231-368 | every lookup ever begun is still running, or one hit or one miss that is counted or was reset, wherever the resets of a flush fall |
| `CacheInterleaving.UndisturbedLookup` | cache/cache.go:231-278 | with nothing in between, the regions of a lookup make the sequential lookup |
| `CacheInterleaving.FreshIffRenewedLast` | cache/cache.go:147-368 | after any steps a key is fresh exactly when the last step that touched it stored it so, or it was fresh before and none touched it |
| `CacheInterleaving.LastStoreIsServed` | cache/cache.go:147-368 | under every interleaving, the entry a key leads to has the content of the last store under that key |
| `CacheInterleaving.LateDropRemovesFreshIff` | cache/cache.go:241-252 | from any state, a lookup about to drop its key removes a fresh entry exactly in these two cases |
| `CacheInterleaving.DropAfterCheckRemovesFreshIff` | cache/cache.go:241-252 | measured from a check of the entry still mapped, exactly when the last touch in between is a store of an entry still fresh |
| `CacheInterleaving.LateDropIsHarmless` | cache/cache.go:241-252 | so if nobody stores the key in between, a late drop finds it expired or gone |
| `CacheInterleaving.LateDropRemovesAnyRenewal` | cache/cache.go:241-252 | in every reachable state with a lookup about to drop, at every capacity, a store of a fresh entry is then thrown away |
| `Upstream.LoopFollowsClosedFormIff` | reliability/retry.go:105-125 | for whole multipliers the sleeps of the loop equal the closed form exactly when initial delay <= cap |
| `Upstream.LoopNeverSleepsLonger` | reliability/retry.go:105-125 | for any multiplier, fractional ones included, the loop never sleeps longer than the closed form, except uncapped at first |
| `Upstream.LoopFollowsUnderEveryCapIff` | reliability/retry.go:105-125 | for any multiplier of at least 1 the two agree under every cap not below the initial delay exactly when that delay is 0 or the multiplier is whole |
| `Upstream.RetryStopsOnce` | reliability/retry.go:48-116 | outcomes and configuration fix the number of attempts |
| `Upstream.RetriesOnlyAfterFailures` | reliability/retry.go:31-116 | the loop goes on only after an error or a status of 429, 500, 502, 503, 504 or 529, and stops short of the maximum only without one |
| `Upstream.EveryAnswerIsClosedOnce` | proxy/handler.go:232-391 | the ledger that all steps keep: each answer closed once, the returned one not, a body that came with an error twice in the chain |
| `Upstream.NothingAnsweredAfter` | proxy/handler.go:300-337 | the answer held is the newest: everything tried after it failed without one |
| `Upstream.Client.Do` | proxy/handler.go:240-253 | one exchange; the body of a response that comes with an error is already closed |
| `Upstream.Call.Operation` | proxy/handler.go:260-274 | a response worth retrying is closed, any other is kept open |
| `Upstream.Call.RetryWithBackoff` | reliability/retry.go:48-116 | attempts stop at the first that is no failure or at the maximum; the sleeps in between; all but the kept response closed |
| `Upstream.Call.TryOne` | proxy/handler.go:312-329 | one provider of the chain: a 2xx wins, a newer failure displaces and closes the held one |
| `Upstream.Call.TryChain` | proxy/handler.go:300-337 | the chain ends at its first 2xx, else with the newest answer held and all others closed |
| `Upstream.Call.Execute` | proxy/handler.go:232-391 | every answer is closed exactly once or is the one returned; a body that came with an error is closed once, but twice in the chain; a 2xx is always the result; when the fallback is asked; no response means an error unless the loop never ran |
| `Similarity.CauchySchwarz` | memory/memory.go:1089-1094 | for all vectors dot^2 <= normA * normB, and both norms are non-negative |
| `Similarity.CosineSimilarity` | memory/memory.go:1085-1101 | the accumulating loop computes the cosine |
| `Similarity.CosineIsBoundedAndSymmetric` | memory/memory.go:1085-1101 | it lies in [-1, 1] and is symmetric |
| `Similarity.SparseCosineBySwapping` | memory/memory.go:949-970 | the smaller-map version computes the sparse cosine in any iteration order |
| `Similarity.SparseCosineEarlyZero` | vectorstore/vectorstore.go:459-489 | so does the early-zero version: the two agree |
| `Similarity.SparseCosineIsBoundedAndSymmetric` | vectorstore/vectorstore.go:459-489 | it lies in [-1, 1] and is symmetric |
| `Similarity.SparseCosineOfWeights` | vectorstore/vectorstore.go:457-458 | for non-negative weights it lies in [0, 1] |
| `Similarity.HybridIsBounded` | memory/memory.go:415-418 | blended with a weight in [0, 1] it stays in [-1, 1] and symmetric |
| `Similarity.HybridSimilarity` | memory/memory.go:415-418 | when and how the two similarities are blended |
| `SimilarityLaws.CosineIsOneIffSameDirection` | memory/memory.go:1085-1101 | two vectors that are not zero have similarity 1 exactly if one is a positive multiple of the other |
| `SimilarityLaws.NormIsPositiveIff` | memory/memory.go:1089-1097 | the norm is positive exactly for a vector that is not zero |
| `SimilarityLaws.SparseIsDenseWrittenOut` | memory/memory.go:949-970 | the sparse similarity is the dense one of the vectors written out over any list of all their tokens |
| `SimilarityLaws.BlendEnds` | memory/memory.go:415-418 | weight 1 gives the sparse similarity, weight 0, or a missing sparse vector, the dense one |
| `SimilarityLaws.BlendMovesEvenly` | memory/memory.go:415-418 | in between the blend moves in proportion to the weight |
| `MemoryModel.StaleScoresBelowActive` | memory/memory.go:1001-1015 | every stale entry scores below every active one |
| `MemoryModel.VictimIsTheLongestIdleStale` | memory/memory.go:985-1036 | if any candidate is stale the victim is stale, and idle the longest |
| `MemoryModel.LessUsedAndLongerIdleScoresLower` | memory/memory.go:1001-1015 | among active entries, less used and longer idle scores no higher |
| `MemoryModel.VictimWasAccessedLongestAgo` | memory/memory.go:1001-1021 | if a candidate's recorded last access is before the cut-off, so is the victim's, and none is earlier, whenever they were created and however often used |
| `MemoryModel.TouchedIsSpared` | memory/memory.go:985-1021 | an entry just touched is never the victim while such a candidate is there |
| `MemoryModel.VictimIsUsedLeast` | memory/memory.go:1010-1021 | with every candidate recent, the victim has the least accesses plus one, weighted by the decay since its last access |
| `MemoryModel.FewerAccessesGoFirst` | memory/memory.go:1010-1021 | of candidates accessed at the same time the less used goes |
| `MemoryModel.UseRaisesTheScore` | memory/memory.go:482-502 | a use always raises an entry's score |
| `MemoryModel.UnrecordedCountsFromCreation` | memory/memory.go:1001-1005 | an entry without a recorded access counts as accessed when created |
| `MemoryModel.SomeVictim` | memory/memory.go:993-1021 | where there is a candidate there is a victim |
| `MemoryModel.FallbackEvictsTheOldest` | memory/memory.go:1023-1027 | without a candidate the entry created first goes |
| `MemoryModel.QuotasShareTheStore` | memory/memory.go:613-619 | the agents' quotas together fit the store and leave less than one entry each over, or are the guaranteed 100 |
| `MemoryModel.CapacityIsKept` | memory/memory.go:611-629 | an insert never passes the capacity |
| `MemoryModel.EveryRunKeepsCapacity` | memory/memory.go:553-635 | nor does any run of inserts, updates, deletions and touches |
| `MemoryModel.AgentOverQuotaPaysItself` | memory/memory.go:613-629 | a full store trades one of the agent's own entries for the new one and changes no agent's count |
| `MemoryModel.AgentUnderQuotaDisplacesOne` | memory/memory.go:613-629 | below its quota an agent displaces the global victim, exactly one entry |
| `MemoryModel.QuotaLimitsGrowth` | memory/memory.go:611-629 | in a full store no named agent grows past its quota |
| `MemoryRanking.InsertionSort` | memory/memory.go:430-435 | the two nested loops compute the stable insertion sort |
| `MemoryRanking.SortRanks` | memory/memory.go:430-435 | the result is a permutation, descending, ties in store order |
| `MemoryRanking.RankingIsUnique` | memory/memory.go:430-435 | there is only one such permutation |
| `MemoryRanking.ScoreCandidates` | memory/memory.go:405-440 | filter, score, sort, cut: the result is `Best` |
| `MemoryRanking.BestIsExact` | memory/memory.go:405-440 | `Best` is ranked, as long as the limit allows, holds only qualifying entries, and no dropped one precedes a kept one |
| `MemoryRanking.SearchReturnsTheBestEntries` | memory/memory.go:405-440 | in terms of the entries: matching ones with their similarity, by similarity faded with age, and a matching one is missing only for a full result that is no worse throughout |
| `MemoryRanking.BestPositionsDiffer` | memory/memory.go:405-440 | the candidates handed to the reranker are pairwise different entries, as the results on picks assume |
| `MemoryRanking.RerankMatches` | memory/memory.go:445-478 | the reranked picks, or the unchanged input on error, empty ranking, too few candidates or no valid line |
| `MemoryRanking.PickedAreCandidates` | memory/memory.go:462-473 | a reranked result only holds candidates, with the reranker's score |
| `MemoryRanking.PicksNothingIff` | memory/memory.go:462-476 | nothing is picked exactly when no line names a candidate |
| `MemoryRanking.PickedAsOftenAsMentioned` | memory/memory.go:462-473 | a candidate is returned exactly as often as lines refer to it, by index or by id |
| `MemoryRanking.PicksFollowTheAnswer` | memory/memory.go:462-473 | picks come in the order of the answer's lines, each by its index, else by its id as a number, with the line's score |
| `MemoryRanking.PicksDistinctIff` | memory/memory.go:462-473 | an entry is returned twice exactly when two lines refer to the same candidate |
| `MemoryConflicts.DecisionIsUnique` | memory/memory.go:557-585 | the first similar entry decides: skip, replace, or store as new |
| `MemoryConflicts.StoredAsNewIff` | memory/memory.go:557-585 | a fact is stored as new exactly if no entry of its agent is more similar than 0.95 or the conflict threshold |
| `MemoryConflicts.ReplacesIff` | memory/memory.go:569-577 | it replaces exactly the agent's first conflicting entry, if that is at most 0.95 similar and the wording says so |
| `MemoryConflicts.StoredFactIsFound` | memory/memory.go:553-602 | any search with its vectors and a threshold of at most 1 then matches it fully |
| `MemoryConflicts.NewEntryIsUnused` | memory/memory.go:587-602 | it starts without uses, accessed when created, and becomes stale ttlDays later |
| `MemoryConflicts.StoredFactIsRecognised` | memory/memory.go:553-635 | a fact stored as new is skipped when offered again at once, whatever was evicted for it |
| `MemoryStore.Store.CountAgentEntries` | memory/memory.go:1063-1071 | the number of the agent's entries |
| `MemoryStore.Store.CountDistinctAgents` | memory/memory.go:1075-1081 | the number of different agents |
| `MemoryStore.Store.FindVictim` | memory/memory.go:993-1021 | the scan finds the first candidate of least score, or none exactly when there is no candidate |
| `MemoryStore.Store.EvictForAgent` | memory/memory.go:985-1036 | exactly the victim is spliced out, or the oldest entry when the agent has none |
| `MemoryStore.Store.EvictGlobalOldest` | memory/memory.go:1040-1059 | exactly the entry created first is spliced out |
| `MemoryStore.Store.MakeRoom` | memory/memory.go:612-628 | the quota decides between the agent's entries and all entries |
| `MemoryStore.Store.Append` | memory/memory.go:611-630 | evict if full, then append |
| `MemoryStore.Store.StoreFact` | memory/memory.go:553-635 | the decision of the conflict scan, and the whole new contents it leads to |
| `MemoryStore.Store.Touch` | memory/memory.go:482-502 | exactly the matched entries get a new access time and one more access, repeated ids counting once |
| `MemoryInterleaving.StepKeepsInv` | memory/memory.go:553-718 | scans, writes, deletions and searches keep the ids of the entries distinct and issued, so a remembered entry is one entry |
| `MemoryInterleaving.UndisturbedStore` | memory/memory.go:553-635 | a scan and its write with nothing in between do what one StoreFact call does |
| `MemoryInterleaving.DuplicateIff` | memory/memory.go:557-630 | under every interleaving, a request that found nothing similar writes to a store with a similar entry exactly when a write in between made one that stayed |
| `MemoryInterleaving.NoWriteNoDuplicate` | memory/memory.go:557-630 | so without another write in between, nothing similar is there |
| `MemoryInterleaving.EveryCopyIsStored` | memory/memory.go:557-630 | n requests for one fact that scan before any of them writes store n similar copies, for every n there is room for |
| `MemoryInterleaving.OverwriteTakesEffectIff` | memory/memory.go:571-576 | a fact that replaces an entry is in the store exactly when that entry is still there at the write; else nothing changes |
| `MemoryInterleaving.SearchNotesAccesses` | memory/memory.go:482-502 | a search notes one access of each entry it returned, and changes nothing else |
| `VectorStore.Store.SearchHybrid` | vectorstore/vectorstore.go:237-274 | a best match in scope if it reaches the threshold, in any iteration order |
| `VectorStore.BestSimilarityIsUnique` | vectorstore/vectorstore.go:256-268 | the order can change the match, never its similarity |
| `VectorStore.FoundIsTheMostSimilar` | vectorstore/vectorstore.go:237-274 | with a positive threshold something is found exactly if a vector of that provider and model reaches it, and none of those is more similar |
| `VectorStore.PhantomHitIff` | vectorstore/vectorstore.go:253-273 | a hit names no stored vector exactly when nothing is similar and the threshold is not positive |
| `VectorStore.HitsAreInRange` | vectorstore/vectorstore.go:237-274 | with a positive threshold a hit is stored, in scope, and between the threshold and 1 |
| `VectorStore.Store.StoreHybrid` | vectorstore/vectorstore.go:201-226 | a new key in a full map displaces one oldest vector; nothing else changes |
| `VectorStore.Store.EvictOldest` | vectorstore/vectorstore.go:379-396 | exactly one vector of least creation time goes |
| `VectorStore.StoredStaysBounded` | vectorstore/vectorstore.go:207-224 | the map never passes its capacity and holds the new vector |
| `VectorStore.StoreKeepsTheYounger` | vectorstore/vectorstore.go:201-226 | a vector is displaced exactly by a new key in a full map; it is one, and none that stays was created before it |
| `HubModel.StepKeepsInv` | dashboard/hub.go:78-111 | every event keeps every client's channel and history consistent |
| `HubModel.EveryClientGetsAContiguousStretch` | dashboard/hub.go:78-111 | in every run a client's live messages are a gap-free stretch of the accepted broadcasts, in the order sent, from its registration on; its channel is closed once if it is gone, else never |
| `HubModel.DeliveryDropsOnlyTheFull` | dashboard/hub.go:94-108 | a delivery drops exactly the clients with a full buffer, and everybody else gets the message |
| `HubModel.QueueKeepsTheOrder` | dashboard/hub.go:94-319 | over any run, the messages broadcast while fewer than 256 were waiting are taken from the queue, or wait in it, in the order sent; no others |
| `HubModel.EverythingPushedArrives` | dashboard/hub.go:94-241 | a client receives exactly what was put into its buffer, live and replayed messages alike, in that order |
| `HubModel.ConnectedAfterStepIff` | dashboard/hub.go:78-111 | a client is connected from its registration until it is unregistered or found with 256 unread messages |
| `HubModel.SummaryIsReused` | dashboard/hub.go:266-309 | until the next invalidation every query repeats the last summary, also without the database |
| `HubModel.SummariesAreNeverStale` | dashboard/hub.go:250-309 | a summary is never older than the last invalidation, and current if nothing was inserted since |
| `HubObject.HubLoop.RegisterClient` | dashboard/hub.go:81-85 | the client joins the set |
| `HubObject.HubLoop.UnregisterClient` | dashboard/hub.go:87-92 | a connected client leaves and its channel is closed; any other is left alone |
| `HubObject.HubLoop.BroadcastMessage` | dashboard/hub.go:313-319 | queued, or dropped when the queue is full |
| `HubObject.HubLoop.OfferToAll` | dashboard/hub.go:94-103 | everyone with room gets the message, exactly the others are noted, in any order |
| `HubObject.HubLoop.DropAll` | dashboard/hub.go:104-108 | exactly the noted clients leave, each channel closed once |
| `HubObject.HubLoop.DeliverNext` | dashboard/hub.go:94-108 | both passes together are one delivery step of the model, never sending on a closed channel |
| `Luhn.ValidateLuhn` | redactor/patterns.go:329-357 | the right-to-left loop decides validity by the weighted sum of 13 to 19 digits |
| `Luhn.ValidIffCheckDigit` | redactor/patterns.go:343-356 | valid exactly when the last digit is the check digit of the rest (ISO/IEC 7812-1, Annex B) |
| `Luhn.SeparatorsDoNotMatter` | redactor/patterns.go:330-336 | spaces, dashes or any other non-digits may be inserted anywhere |
| `Luhn.SingleDigitChangeDetected` | redactor/patterns.go:329-357 | in a valid number every change of one digit is detected |
| `Luhn.SwapDetectedIff` | redactor/patterns.go:329-357 | an exchange of neighbouring digits is missed exactly for equal ones and for 0 and 9 |
| `Iban.ValidateIBAN` | redactor/patterns.go:363-392 | the big-number check decides what the running remainder of ISO/IEC 7064 MOD 97-10 decides |
| `Iban.ToNumeric` | redactor/patterns.go:374-385 | the loop writes digits and two-digit letters, or stops at any other character |
| `Iban.ExpandedIsNumber` | redactor/patterns.go:374-389 | the decimal string denotes the number of the character codes |
| `Iban.RemainderOfNumber` | redactor/patterns.go:387-391 | its remainder is the running one |
| `Iban.ValidIffCheckDigits` | redactor/patterns.go:363-392 | behind the country, the two check digits are right exactly if they are 98 less the remainder of account, country and "00" (ISO 13616), modulo 97 |
| `Iban.SpacesDoNotMatter` | redactor/patterns.go:365-366 | a space may stand anywhere |
| `Iban.SameClassChangeDetected` | redactor/patterns.go:363-392 | in a valid IBAN, however spaced, every change of a digit to a digit or a letter to a letter is detected |
| `Iban.ExchangeDetectedIff` | redactor/patterns.go:363-392 | an exchange of neighbours of the rearranged string is missed exactly for equal ones, 1-B, 2-M and 3-X |
| `Pricing.TierIsUnique` | tracker/pricing_store.go:135-170 | a model is priced from exactly one place: row order, tie order and iteration order do not matter |
| `Pricing.FirstMatchIsLongest` | tracker/pricing_store.go:146-151 | in a longest-first list the first prefix of a model is the longest |
| `Pricing.DatabaseComesFirst` | tracker/pricing_store.go:135-170 | a database row for a model or a prefix of it decides whatever the defaults say, an exact one before all others; the fallback price is 3 and 15 |
| `Pricing.NewRowPricesIff` | tracker/pricing_store.go:135-170 | a new row prices exactly the models that begin with it and with no longer row, and changes no other price |
| `Pricing.KnownIffPriced` | tracker/pricing_store.go:232-263 | a model is known exactly when a lookup does not reach the unknown tier (no default has an empty name) |
| `Pricing.KnownButUnpricedIff` | tracker/pricing_store.go:250-263 | for any default table at all, exactly when the two disagree |
| `Pricing.EvictionTrims` | tracker/pricing_store.go:187-200 | a full record without an empty name loses one oldest entry, in any iteration order |
| `Pricing.EvictionCanFailIff` | tracker/pricing_store.go:188-199 | some iteration order finds no victim exactly when the empty name is strictly oldest (or nothing is recorded) |
| `PricingStore.Store.ReloadCache` | tracker/pricing_store.go:58-85 | map and longest-first list hold the same rows |
| `PricingStore.Store.FirstFit` | tracker/pricing_store.go:146-151 | the first fit in the list is the longest prefix in the map |
| `PricingStore.Store.LookupPricing` | tracker/pricing_store.go:135-170 | the price of the unique tier, database before defaults; only an unpriced model is recorded |
| `PricingStore.BestDefault` | tracker/cost_calculator.go:347-352 | the running best over the defaults is the longest prefix, in any iteration order |
| `PricingStore.Store.IsKnownModel` | tracker/pricing_store.go:232-263 | true exactly when some exact or prefix entry exists |
| `PricingStore.Store.TrackUnknownModel` | tracker/pricing_store.go:177-208 | what one recording may leave, over all iteration orders |
| `PricingStore.RecordIsBounded` | tracker/pricing_store.go:172-208 | in every run without an empty model name, at most 500 are recorded |
| `PricingStore.RecordCountsLookups` | tracker/pricing_store.go:177-208 | in every run a recorded model was looked up as often as its count says since it was recorded, first and last when the record says |
| `PricingStore.FullRecordCanGrowIff` | tracker/pricing_store.go:186-207 | a full record can grow exactly when the empty name is its oldest |
| `PricingStore.SomeRunPassesTheLimit` | tracker/pricing_store.go:177-208 | a run from an empty record that ends with 501 names |
| `SessionAgents.MembersPassTheTest` | store/db.go:477 | a listed id always passes the LIKE test |
| `SessionAgents.PlainIdsAreTestedExactly` | store/db.go:477 | for wildcard-free (and, folding case, letter-free) ids the test is list membership |
| `SessionAgents.TestIsExactIff` | store/db.go:477 | and for no others |
| `SessionAgents.CommasSeparateItems` | store/db.go:478 | the length difference counts the items |
| `SessionAgents.SanitizedIsTheTrimmedName` | store/db.go:460-463 | stored is the name without surrounding spaces, commas made underscores, or "unknown" if nothing is left |
| `SessionAgents.NamelessIsNeverAdded` | store/db.go:474-476 | a nameless agent never joins a list that somebody began |
| `SessionAgents.ExtendKeeps` | store/db.go:474-480 | one request keeps the items distinct, non-empty and at most 20, and only ever appends |
| `SessionAgents.ListStaysWellFormed` | store/db.go:457-486 | so after any sequence of requests |
| `SessionAgents.ListOnlyGrows` | store/db.go:474-480 | each older list is a prefix of every later one |
| `SessionAgents.PlainAgentIsRecordedIff` | store/db.go:474-480 | such an agent is listed after its request exactly if it was before or there was room |
| `SessionAgents.RecordedWhereRoomIff` | store/db.go:460-480 | a sanitised id is sure to be recorded where there is room exactly if it is plain |
| `SessionAgents.CommaNamesGetLost` | store/db.go:460-480 | every agent with a comma in its trimmed name has another agent that, beginning a session, keeps it from being recorded |
| `SessionTable.Table.InsertRequest` | store/db.go:469-488 | the session's row is created or updated, and no other |
| `SessionTable.RowIsMadeOfItsOwnRequests` | store/db.go:469-488 | after any run a row exists exactly for sessions with requests and sums up its own: count, cost, tokens, agents, first and last time, last application named |
| `SessionTable.EveryListIsWellFormed` | store/db.go:469-488 | every row of every reachable table has a well-formed list |

## Left out

- Floating point: rounding, NaN and overflow; money, weights and scores are reals, refill an exact floor, `sqrt` and `exp` parameters.
- `RateLimiter.Limiter.CheckAndConsumeRequest`: get and consume are one call with one clock reading; LimiterRegions takes them apart, with a reading each.
- `RateLimiter.Limiter.CheckAndConsumeCost`: the same.
- `RateLimiter.Limiter.CheckAndConsumeTokens`: the same.
- `LimiterRuns.AdmittedInAnyInterval`: whole operations; `LimiterInterleaving.PassedInAnyInterval` is the bound for interleaved lock regions.
- `LimiterQuota.ChargedInAnyPeriod`: whole operations; `LimiterInterleaving.PaidInAnyPeriod` is the bound for interleaved lock regions.
- `EngineLimits.AllowedRequestsInAnyWindow`: evaluations one after the other; `EngineInterleaving.AllowedUnderInterleaving` lets them overlap.
- `EngineLimits.AllowedAmountInAnyDay`: evaluations one after the other; `EngineInterleaving.SpentUnderInterleaving` lets them overlap.
- `LimiterRegions.MoveRefines`: a lookup in the bucket map and its double-checked creation are one region; the clock readings of the regions never decrease along a run.
- `EngineInterleaving.AllowedUnderInterleaving`: which rule an evaluation picks is left open, except that it passes a request_count condition only on a refused peek.
- `EngineRuns.RequestCountRulesNeverFire`: evaluations one after the other; `EngineInterleaving.CountingRulesNeverAct` lets them overlap.
- `EngineRuns.CountingRulesAreInert`: evaluations one after the other.
- `LimiterNotice.CleanupNoticedIff`: charges are compared for positive quotas; the engine makes none against a quota of 0 (`rules/actions.go:147`).
- Reloading rules while requests run: the runs of EngineRuns, EngineLimits and EngineInterleaving keep one rule set.
- Condition parameters that no verdict depends on (the threshold and window of request_count), rule names and descriptions.
- Regular expressions, globs, case-insensitive search and URL validation: arbitrary functions in `External`.
- `CacheInterleaving.LookupsAreCounted`: the saved-cost counter is modelled only in the sequential class; counter resets may come at any time, not only after a flush.
- Loading memories and vectors from the database at start (at most the capacity, by the query's LIMIT): the runs of `EveryRunKeepsCapacity` start from any store within its capacity.
- Database persistence of the cache, memories, vectors and prices; SQL transactions, dialects and the Postgres vector search.
- Request hashing, JSON, HTTP headers and routing; choosing the fallback provider and its URL (a parameter of `Execute`).
- `Upstream.LoopFollowsClosedFormIff`: multipliers with a fraction, for which it is false; `Upstream.LoopFollowsUnderEveryCapIff` is the exact result for them. The only configuration built uses 2.
- `MemoryStore.Store.StoreFact`: its read-locked scan and write-locked append are one call; MemoryInterleaving takes them apart.
- `MemoryModel.VictimIsTheLongestIdleStale`: the cut-off is ttlDays times 24 hours, without daylight-saving shifts; scores are compared exactly.
- Memory entries carry no session, provider or model name; the wording heuristics for replacing a fact are a parameter; a failed database write is not modelled.
- `HubModel.EveryClientGetsAContiguousStretch`: history replay is a step that pushes into a connected client's buffer; its timing against a close, and the debounce timer of the summaries, are not modelled.
- The objects behind the map entries of `PricingStore` and `VectorStore` and the rows of `SessionTable` are values in a map field, so aliasing of entries handed out is not captured.
- `SessionAgents.TestIsExactIff`: LIKE without an escape character, and lengths that ignore NUL characters; Postgres' backslash escapes are not modelled.
- `CalculateCost`, price seeding, the remaining redactor patterns, templates, sessions, authentication keys and loop detection: easy or the same patterns again.
