# Coulisse: a model and its proofs

Coulisse is an LLM gateway: it rate-limits and budgets requests, routes them through
experiments to agents, holds per-user OAuth sessions to MCP servers, streams replies, and
keeps its configuration in a watched YAML file with database overrides. This project models
the parts of it that are state machines, arithmetic or text algorithms, and proves what they
promise.

| component | modules |
|---|---|
| rate limits and spend budgets | `Tracker`, `Calendar`, `TokenStore`, `Admission`, `LimitRuns`, `SpendRuns` |
| experiment router | `Experiments`, `Router`, `Floats`, `Seeds`, `Fnv`, `SeedCollision` |
| MCP session pool | `Pool`, `Overlaps` |
| schema migrations | `Lex`, `SemVer`, `Migrate` |
| configuration text and validation | `Text`, `Expand`, `KeptPlaceholders`, `ConfigVars`, `ConfigRules`, `ConfigErrors`, `Config`, `Removals` |
| configuration file | `ConfigStore` |
| tool names | `Sanitize` |
| streaming and repair | `Stream`, `Completion` |
| overrides | `Merge`, `AgentsAdmin`, `Rebuilds` |
| secrets file | `Secrets` |

`dafny verify dfyconfig.toml` checks everything.

## Conventions

- The clock, random ids and secrets, network answers, vault and file outcomes, crashes,
  transaction failures and calls dropped by their caller are parameters, so a theorem is about
  all of them unless it names the ones it excludes. So are the SemVer parser, the YAML parser,
  the reply validator and the upgrade steps.
- A table is a map or a sequence; a statement or transaction is atomic. `u64` values bound to
  an `INTEGER` column saturate at 2^63 - 1 (`ToI64`); stored sums are unbounded, and the
  theorems about them ask that times and charges fit the column.
- In the text passes characters stand for UTF-8 bytes, so offsets and lengths are byte
  counts; in `Sanitize` they are Unicode characters. Whitespace is ASCII.
- Weights, rates and scores are reals. The draw counter and the hash are exact 64-bit
  arithmetic, wrap-around included; the unit value of a seed is given both over the reals and
  as the two floating-point roundings compute it.
- Objects whose methods change fields are classes; each method is proved against a function
  of the old state, and the theorems about whole runs are about those functions. The
  rate-limit and budget bounds, the pool and the configuration store are also state machines
  over their atomic steps, because several requests run at once. Ghost fields record the
  history a guarantee speaks of.

## Where the code and its documentation differ

The model follows the code.

- `crates/experiments/src/router.rs:306` calls the unit interval half open. Over the reals the
  greatest seed, and no other, reaches 1.0 (`Router.UnitBelowOneIff`, `Router.FallsThroughIff`);
  with the roundings of the code the top 2^39 + 2^10 seeds do (`Router.RoundedUnitBelowOneIff`,
  `Router.RoundedFallsThroughIff`).
- `crates/experiments/src/router.rs:184` says ties go to the first arm; `max_by` returns the
  last (`Router.TiesGoToLast`, `Router.TieExample`).
- `crates/experiments/src/router.rs:288` says a per-request seed differs on every draw. It does
  within any block of 2^40 draws (`Seeds.DrawsDiffer`), not over the whole counter
  (`SeedCollision.DrawsCanRepeat`).
- `crates/mcp/src/sanitize.rs:69-70` says every name is rewritten to match the provider's
  pattern of 1 to 128 characters. A suffixed name can be longer (`Sanitize.SuffixOverflows`) and
  an empty one stays empty (`Sanitize.EmptyNameIsOffered`); `Sanitize.NameFitsIff` says exactly
  which names match.
- `crates/auth/src/token.rs:414-415` leaves revoked tokens to the verify step. A request verified
  before the revocation still passes the budget gate after it, at any spend
  (`SpendRuns.BudgetOvershootBound`, `SpendRuns.RevokedTokenOvershoots`).
- `cli/src/config.rs:193` leaves `${vars.*}` for the second pass; other openings can be left
  too, and `KeptPlaceholders.EnvPassLeavesOnlyKept` says exactly when.

## Model

| member | source | states |
|---|---|---|
| `Tracker.CountersRefineHistory` | crates/limits/src/tracker.rs:76-115 | after any run of `record` calls in clock order, each of the three counters reads exactly what the user spent in the current hour, day and month |
| `Tracker.CountIsExactIff` | crates/limits/src/tracker.rs:76-115 | for any order of upserts: the stored counter never reads high, and equals the true sum if and only if no upsert of that window was followed by one of another window |
| `Tracker.OrderedIsExact` | crates/limits/src/tracker.rs:76-115 | upserts that land in clock order satisfy that condition for the current window |
| `Tracker.LateUpsertForgets` | crates/limits/src/tracker.rs:84-92 | a concrete late upsert that moves the row back and makes the newer hour read 0 instead of 5 |
| `Tracker.CountAfter` | crates/limits/src/tracker.rs:84-92 | what one upsert does to any window's reading: nothing, add, or replace |
| `Tracker.WindowsAreAligned` | crates/limits/src/tracker.rs:42-66 | windows start on multiples of 3600, 86400 and 2592000 seconds and hold the instant they were asked for |
| `Tracker.CallCharges` | crates/limits/src/tracker.rs:76-101 | one call, statement by statement: each of the three rows is higher by its tokens if it was of the current window, and replaced by them otherwise; no other row changes |
| `Tracker.CountersNest` | crates/limits/src/error.rs:45-54 | because 3600 divides 86400 divides 2592000, hour count <= day count <= month count between calls |
| `Tracker.NestingInsideACall` | crates/limits/src/tracker.rs:81-99 | inside a call the hour row lands first, then the day row: after the first statement hour <= day if and only if the call fits beneath the day's old spend, after the second day <= month if and only if it fits beneath the month's |
| `Tracker.NestingFailsInsideACall` | crates/limits/src/tracker.rs:81-99 | a user's first call is such a moment |
| `Tracker.InterleavedCountersNest` | crates/limits/src/tracker.rs:76-115 | overlapping calls: in any clock-ordered interleaving of complete calls the three counters read the true spends, and so they nest |
| `Tracker.UsedIgnoresOrder` | crates/limits/src/tracker.rs:76-115 | the true spend does not depend on the order in which statements landed |
| `Tracker.RetryAfterIsLeastIff` | crates/limits/src/tracker.rs:42-66 | for every rejection the hint lies in 1..=window size, and it is the least delay after which the window reads 0, if nothing more is recorded, exactly when something was used; otherwise the cap is 0 and no delay helps |
| `Tracker.ZeroCapRejectsTheUnused` | crates/limits/src/tracker.rs:52-62 | the input: a cap of 0 tokens an hour rejects a user who used nothing, asking for the rest of the hour |
| `Tracker.Tracker.Check` | crates/limits/src/tracker.rs:42-66 | rejects exactly when some supplied cap, hourly, daily or monthly, is at most that window's count (on an ordered history: the true spend), naming the first such window in the order hour, day, month with its cap, count and time left |
| `Tracker.Tracker.Record` | crates/limits/src/tracker.rs:76-101 | the table stays the replay of all statements issued; the caller's hour, day and month rows are charged as `Tracker.CallCharges` says and no other row changes; a zero charge changes nothing |
| `Tracker.Tracker.Execute` | crates/limits/src/tracker.rs:84-98 | the upsert statement adds to a row of the same window and replaces any other |
| `Calendar.MonthStartIsGreatestBoundary` | crates/auth/src/token.rs:516-525 | through the year 9999 `month_start_secs` is the greatest Gregorian month boundary not after `now`, boundaries being counted by adding up month lengths |
| `Calendar.MonthStartLaws` | crates/auth/src/token.rs:516-525 | idempotent everywhere and monotone through 9999; a later timestamp falls back to 0 |
| `Calendar.FirstDayClosed` | crates/auth/src/token.rs:516-525 | the closed form of the day a month starts agrees with adding up the lengths of all months before it |
| `Calendar.FirstFebruary` | crates/auth/src/token.rs:516-525 | 2678399 is the last second of January 1970 |
| `TokenStore.BudgetRoundTrip` | crates/auth/src/token.rs:163-215 | every budget survives its two database columns |
| `TokenStore.ExceededIsSticky` | crates/auth/src/token.rs:406-433 | over any run of operations a lifetime cap once met stays met until revocation, and a monthly one while the clock stays in the month |
| `TokenStore.AdvancesTransitive` | crates/auth/src/token.rs:329-488 | every operation advances the tables, and so does any run of them |
| `TokenStore.ListingMatchesGate` | crates/auth/src/token.rs:406-466 | the listed period spend is the very sum the gate compares, and never more than lifetime spend |
| `TokenStore.SpendNarrows` | crates/auth/src/token.rs:490-500 | a later window start never raises the sum |
| `TokenStore.SpendGrows` | crates/auth/src/token.rs:490-500 | a longer ledger never lowers the sum |
| `TokenStore.ChargeCounts` | crates/auth/src/token.rs:435-501 | one more charge adds its cost to its own token's lifetime spend, and to the period spend unless the budget is monthly and the charge is older than the month; other tokens' sums stay |
| `TokenStore.NewMonthReopens` | crates/auth/src/token.rs:406-433 | in a month without charges a monthly budget reads 0 and is not exceeded |
| `TokenStore.RecordShowsToken` | crates/auth/src/token.rs:435-466 | a listed record shows its own row's id, times and budget |
| `TokenStore.OddColumnsFailOpen` | crates/auth/src/token.rs:163-175 | an unknown kind or a missing limit reads as unlimited |
| `Outcomes.ColumnSaturates` | crates/core/src/lib.rs:45-47 | a value bound to an integer column is kept when it fits 63 bits, and is the greatest such number otherwise |
| `TokenStore.TokenStore.Mint` | crates/auth/src/token.rs:329-348 | adds exactly one unrevoked token with the given budget, unless its id or secret clashes |
| `TokenStore.TokenStore.Revoke` | crates/auth/src/token.rs:368-377 | true exactly for a live token; a second revocation keeps the first timestamp |
| `TokenStore.TokenStore.Verify` | crates/auth/src/token.rs:386-404 | finds exactly the live token with that secret hash and stamps only its last use |
| `TokenStore.TokenStore.CheckBudgetAt` | crates/auth/src/token.rs:406-433 | rejects exactly the exceeded tokens, reporting their own limit and the sum compared; unknown, revoked and unlimited tokens pass |
| `TokenStore.TokenStore.RecordSpendAt` | crates/auth/src/token.rs:468-488 | appends positive charges only |
| `TokenStore.TokenStore.ListAt` | crates/auth/src/token.rs:435-466 | every token once, newest first, each with its lifetime and period spend |
| `LimitRuns.OvershootBound` | cli/src/server.rs:258-330 | with at most n requests admitted and unrecorded at a time, each costing at most m, in every interleaving of clock reads, SELECTs and upserts: a window never reads more than cap - 1 + (n + late)*m, late counting the checks since the window opened whose clock named an older one, and the user never truly spends more than that plus cap - 1 + (n - 1)*m for each record that landed for an older window |
| `LimitRuns.OnTimeBound` | cli/src/server.rs:258-330 | when every check's SELECT lands in the window its clock named, the reading stays within cap - 1 + n*m however late the records land; when every record does too, so does the true spend |
| `LimitRuns.LateCheckPasses` | crates/limits/src/tracker.rs:46-55 | a check stuck across a rollover always passes once the new window has a row, so each one costs the bound another m |
| `LimitRuns.LateCallsOvershoot` | crates/limits/src/tracker.rs:42-101 | the inputs: one such check lets a window read 2 with cap 1, n 1 and m 1, and one late record lets the user spend 3 with cap 1, n 2 and m 1 |
| `LimitRuns.LimitStepRefines` | crates/limits/src/tracker.rs:42-101 | every tracker statement, own or foreign, for a clock value read at any earlier moment, is a move of the abstract meter |
| `SpendRuns.BudgetOvershootBound` | crates/auth/src/token.rs:406-501 | in every interleaving, late gates, late charges and revocation included: a token's total or monthly spend stays within cap - 1 + n*m while it is live, and within cap - 1 + (n + late)*m once late requests have passed the gate after its revocation |
| `SpendRuns.BudgetCeilingIsReached` | crates/auth/src/token.rs:406-501 | tight for every cap, n, m and late: a run of the ledger from a fresh token ends exactly there, live or revoked |
| `SpendRuns.RevokedTokenOvershoots` | crates/auth/src/token.rs:414-418 | the input: with a total of 1, n 1 and m 1, two requests waved through after the revocation bring the spend to 3 |
| `SpendRuns.SpendStepRefines` | crates/auth/src/token.rs:406-501 | every ledger operation, own or foreign, revocation included, on any earlier clock value, is a move of the same meter; an earlier month start only makes the gate stricter, and a revoked token passes it |
| `Admission.StepKeepsBound` | cli/src/server.rs:258-330 | admitting, admitting late, landing, landing too late, falling and reopening each keep the bounds on what is read and what is used |
| `LimitRuns.CeilingIsReached` | cli/src/server.rs:258-330 | both bounds are tight, for every window kind, cap, n, m, number of late checks and number of late records: a run of the tracker from an empty table ends exactly on both |
| `Router.SplitIsProportional` | crates/experiments/src/router.rs:252-266 | of the seeds 0..=M mapped to k/M, the number that select variant i is within one of M*w_i/W |
| `Router.HoldsIffPicked` | crates/experiments/src/router.rs:252-266 | the pick is the one variant whose cumulative interval holds the target, the last taking whatever is past the end |
| `Router.HoldsUniquely` | crates/experiments/src/router.rs:252-266 | with positive weights those intervals do not overlap |
| `Router.SplitRoutesOnDigest` | crates/experiments/src/router.rs:223-266 | a split picks the variant whose interval holds the target of the digest of user, name and draw, or of user and name alone when it is sticky |
| `Router.DrawsRouteApart` | crates/experiments/src/router.rs:233-239 | an experiment that is not sticky routes two different draws of one block of 2^40 on different seeds |
| `Router.SelectedIff` | crates/experiments/src/router.rs:252-266 | the exact range of seeds that selects a variant |
| `Router.FallsThroughIff` | crates/experiments/src/router.rs:252-266 | over the reals the `last()` fallback answers for exactly the greatest seed |
| `Router.RoundedFallsThroughIff` | crates/experiments/src/router.rs:252-266 | with the two rounding casts of the code it answers for exactly the seeds from 2^64 - 2^39 - 2^10 on |
| `Router.UnitBelowOneIff` | crates/experiments/src/router.rs:306-312 | over the reals the unit value is below 1 for exactly the other seeds, so the comment's half-open interval fails at one |
| `Router.RoundedUnitBelowOneIff` | crates/experiments/src/router.rs:306-312 | as computed, `f64` and then `f32` rounding to nearest with ties to even: the unit value is below 1 for exactly the seeds under 2^64 - 2^39 - 2^10 |
| `Router.MaxRoundsToTwo64` | crates/experiments/src/router.rs:310-312 | the divisor `u64::MAX as f64` is 2^64, which is why the quotient is exact |
| `Floats.RoundIsNearest` | crates/experiments/src/router.rs:310-312 | the rounding used takes the nearest number of the format, and the even one of two |
| `Router.WeightedPick` | crates/experiments/src/router.rs:252-266 | total on a non-empty list and equal to the interval pick |
| `Router.WarmUpEndsOnTime` | crates/experiments/src/router.rs:186-200 | each scored forced turn pays off exactly one missing sample, so forcing ends after exactly the initial deficit and does not resume |
| `Router.TurnPaysOne` | crates/experiments/src/router.rs:186-200 | one scored turn lowers the deficit by one exactly when its arm was forced |
| `Router.ExploitsTheLeader` | crates/experiments/src/router.rs:201-218 | after warm-up every non-exploring pick has a mean at least that of every arm |
| `Router.BanditDecides` | crates/experiments/src/router.rs:178-220 | a bandit sends the request to an arm short of samples if there is one, counted off by the sticky digest; else to any arm, counted off the same way, when the unit of its seed is below epsilon (0.1 unless set); else to a leader |
| `Router.ShortIff` | crates/experiments/src/router.rs:186-200 | an arm is short when its last score is missing or has fewer samples than asked (30 unless set) |
| `Router.UniformPickCountsOff` | crates/experiments/src/router.rs:272-280 | consecutive seeds count the arms off in turn |
| `Router.MaxByIsLastMaximum` | crates/experiments/src/router.rs:206-218 | the chosen arm is the last of those with the greatest mean |
| `Router.TiesGoToLast` | crates/experiments/src/router.rs:182-218 | the doc comment's "first of several tied arms" holds if and only if no later arm ties the first leader |
| `Router.TieExample` | crates/experiments/src/router.rs:182-218 | two tied arms, for any seed: the second wins |
| `Router.ShadowCoversAll` | crates/experiments/src/router.rs:155-170 | every variant of a validated shadow experiment runs exactly once, in the foreground or behind it |
| `Router.CoinIsFair` | crates/experiments/src/router.rs:137-153 | shadow sampling (and a bandit's exploration) comes up for its share of the seeds 0..=M, rounded up |
| `Router.DrawsDoNotMove` | crates/experiments/src/router.rs:223-239 | sticky experiments, shadow primaries and forced arms are the same for a user at every draw |
| `Router.ExperimentRouter.ResolveWithScores` | crates/experiments/src/router.rs:110-130 | a name that is no experiment passes through and spends no draw; an experiment spends one and resolves to the agent of the variant picked on that draw's seed, sticky or not as it is declared, with the shadows behind it |
| `Router.ExperimentRouter.ShadowShouldSample` | crates/experiments/src/router.rs:137-153 | spends a draw only for a rate strictly between 0 and 1, and compares it then |
| `Router.ExperimentRouter.NextSeed` | crates/experiments/src/router.rs:172-177 | returns the old draw and advances the counter, wrapping |
| `Router.ByName` | crates/experiments/src/router.rs:46-55 | the table holds every declared name, each under its own key |
| `Seeds.DrawsDiffer` | crates/experiments/src/router.rs:288-295 | a per-request seed differs for any two draws of the same block of 2^40, so over a router's first 2^40 picks, for every user and experiment |
| `SeedCollision.DrawsCanRepeat` | crates/experiments/src/router.rs:288-295 | two draws far apart with the same seed: the comment's "every draw" does not hold over the whole range of the counter |
| `Seeds.PerRequestSeed` | crates/experiments/src/router.rs:289-295 | three writes to the hasher equal one digest of the concatenated bytes |
| `Seeds.DrawReadsBack` | crates/experiments/src/router.rs:289-295 | the eight little-endian bytes of a draw give it back |
| `Seeds.StickySeed` | crates/experiments/src/router.rs:298-303 | the sticky seed is the digest of user and name alone |
| `Fnv.DigestDiffers` | crates/experiments/src/router.rs:316-337 | equal-length inputs that differ only within their first five bytes hash differently from any state |
| `Fnv.NoCancel` | crates/experiments/src/router.rs:331-336 | with the prime 2^40 + 435, five small digits cancel modulo 2^64 only if the first is zero |
| `Fnv.SameTail` | crates/experiments/src/router.rs:331-336 | hashing a common tail never merges two states |
| `Fnv.DigestAppend` | crates/experiments/src/router.rs:331-336 | writing in pieces is writing the concatenation |
| `Fnv.Fnv64.Write` | crates/experiments/src/router.rs:331-336 | the loop computes the digest of the bytes from the current state |
| `Pool.EveryGrantIsCurrent` | crates/mcp/src/pool.rs:155-326 | over every run of calls, callbacks and evictions against any environment, calls dropped half way included: every refresh grant presents the refresh token most recently issued for that user and server, as long as no rotated token was lost — to a call dropped before its vault write, or to an unreadable reply or failed write together with a failed delete |
| `Pool.RotationSafeIff` | crates/mcp/src/pool.rs:242-267 | the safety so kept, said of each position of the log |
| `Pool.HealthyVaultIsSafe` | crates/mcp/src/pool.rs:155-326 | with a vault that works and no call dropped between a grant and its write, none is ever lost, so every grant is current |
| `Overlaps.DroppedCallReplays` | crates/mcp/src/pool.rs:242-267 | the input without the latter: a call dropped after the server rotated leaves the old token in a healthy vault, and the next call presents it |
| `Pool.ExchangeKeepsCurrent` | crates/mcp/src/oauth.rs:284-301 | after one grant the row left behind carries the latest issued token, rotated or not |
| `Pool.ServeKeepsCurrent` | crates/mcp/src/pool.rs:155-326 | after a whole call, including a second grant in the same call, the row is current again |
| `Pool.CachedImpliesStored` | crates/mcp/src/pool.rs:155-326 | in every reachable state a cached session has a stored token |
| `Pool.CallOutcome` | crates/mcp/src/pool.rs:155-195 | on a cache miss `Ok` leaves the vault holding the very token connected with, `NotConnected` leaves none, any other error keeps a token if there was one, and no other key is touched |
| `Pool.SpawnDecides` | crates/mcp/src/pool.rs:155-326 | the whole decision table of a cache miss, in terms of the row and the answers: which token the session opens on, or which error |
| `Pool.CallbackThenSpawn` | crates/mcp/src/oauth.rs:284-301 | a token stored by a callback at `at` with a lifetime of `secs` is connected with, no grant made, until `at + secs - 60`, and from then on its refresh token is presented first, or without one the row is dropped; one without a lifetime is never due |
| `Pool.GrantThenSpawn` | crates/mcp/src/oauth.rs:284-301 | the same for a token stored by a grant |
| `Pool.ConnectsFresh` | crates/mcp/src/pool.rs:275-290 | no session opens on an expiring token without a grant first, and a fresh token that connects costs none |
| `Overlaps.ManyCallsSafeIff` | crates/mcp/src/pool.rs:155-326 | any number of calls served from one vault row, their grants in any order: every order is safe if and only if at most one of them makes a grant or the server rotates in none, issuing at most the row's own refresh token again; otherwise some order of whole grants is already unsafe |
| `Overlaps.OverlappingCallsSafeIff` | crates/mcp/src/pool.rs:155-326 | for two calls the same condition decides the orders of whole grants and those event by event |
| `Overlaps.GrantBetweenTwoReplays` | crates/mcp/src/pool.rs:209-240 | the input an order of whole calls misses: the first call refreshes without rotation and again after a rejected connect, and the second's rotation falls between |
| `Overlaps.OverlappingCallsReplay` | crates/mcp/src/pool.rs:155-326 | so two overlapping calls on an expiring token replay it when the first is given a new one |
| `Pool.UserMcpPool.GetOrSpawn` | crates/mcp/src/pool.rs:155-195 | cache, configuration, vault, refresh, connect and retry in order: the new state is one transition of the protocol, whose result is `Pool.SpawnDecides` |
| `Pool.UserMcpPool.Open` | crates/mcp/src/pool.rs:174-193 | past the lookups: the session token or error, the vault row, the grants made |
| `Pool.UserMcpPool.Refresh` | crates/mcp/src/pool.rs:242-267 | writes the vault exactly when the grant succeeded and the write did; the expiry written is absolute (`Pool.GrantThenSpawn`) |
| `Pool.UserMcpPool.RefreshIfExpiring` | crates/mcp/src/pool.rs:275-290 | leaves a token alone until 60 seconds before its expiry |
| `Pool.UserMcpPool.RefreshOrForceReauth` | crates/mcp/src/pool.rs:296-326 | any failure to refresh drops the stored token |
| `Pool.UserMcpPool.ReconnectAfterRefresh` | crates/mcp/src/pool.rs:209-240 | one refresh and one more connect; a second rejection drops the token |
| `Pool.UserMcpPool.HandleCallback` | crates/mcp/src/routes.rs:408-435 | stores what the code exchange returned, with no refresh-token fallback; the expiry stored is absolute (`Pool.CallbackThenSpawn`) |
| `Migrate.EveryHistoryIsOrderly` | crates/core/src/migrate.rs:109-171 | over any sequence of boots of any releases, with crashes and failures anywhere: nothing committed, or one initialisation and then each later version once and in order, version and schema always agreeing |
| `Migrate.HistoryClimbs` | crates/core/src/migrate.rs:109-155 | from a stored version, all later boots together commit the versions after it once each, in order |
| `Migrate.BootFromVersion` | crates/core/src/migrate.rs:109-155 | one boot on any stored version, with failures and crashes before or after any commit: it ends done only at the release's last version, stops there undone only by a crash after its last commit or in its opening statements, and reports a version the release does not know exactly when it reads one |
| `Migrate.BootIsDoneIff` | crates/core/src/migrate.rs:109-155 | a boot on a stored version ends done if and only if the opening statements succeed and every remaining step exists and its transaction commits |
| `Migrate.BootEndsAt` | crates/core/src/migrate.rs:109-155 | otherwise the versions committed are those before the first step that does not, that one included if the crash came after its commit, and the outcome says which it was |
| `Migrate.BootFresh` | crates/core/src/migrate.rs:109-171 | a fresh database gets schema and version together exactly when the opening statements succeed and the initialising transaction lands, ends done exactly when it also does not crash, and otherwise stays as it was |
| `Migrate.DoneIsLatestAndStable` | crates/core/src/migrate.rs:109-171 | a successful boot leaves the schema a fresh database would have; a further boot commits nothing and succeeds exactly when its opening statements do |
| `Migrate.ResumeMeetsUninterrupted` | crates/core/src/migrate.rs:109-171 | crash or fail, then succeed: the same database as an undisturbed boot |
| `Migrate.WalkClimbs` | crates/core/src/migrate.rs:140-152 | each step of the walk commits once, in order, and touches no other feature; it ends done only at the last version (`Migrate.WalkEndsAt` says exactly where) |
| `Migrate.WalkEndsAt` | crates/core/src/migrate.rs:140-152 | where the walk stops: past the steps that exist and whose transactions commit, at the first whose step fails, whose transaction fails, or that a crash cuts off, before or after its commit; with all of them it ends done at the last version |
| `Migrate.AscendingEverywhere` | crates/core/src/migrate.rs:189-191 | comparing neighbours suffices: every earlier version precedes every later one, so none occurs twice |
| `Migrate.PositionIsIndex` | crates/core/src/migrate.rs:132-138 | `position` finds the stored version's own index, or nothing in a release that predates it |
| `Migrate.Validate` | crates/core/src/migrate.rs:175-193 | accepts exactly the non-empty, parseable, strictly ascending lists, and otherwise reports the first thing wrong, each error with what it says of the list |
| `Migrate.Database.Run` | crates/core/src/migrate.rs:109-155 | validation, opening statements, initialisation or the walk: the method computes one boot, whose end `Migrate.BootIsDoneIff` and `Migrate.BootEndsAt` give |
| `Migrate.Database.WalkFrom` | crates/core/src/migrate.rs:140-152 | the transaction loop commits the versions of the walk, whose end is `Migrate.WalkEndsAt`, and ends as it does |
| `Migrate.Database.UpgradeStep` | crates/core/src/migrate.rs:140-152 | one step commits schema and version together, or ends the boot with nothing changed |
| `Migrate.Database.Initialize` | crates/core/src/migrate.rs:157-171 | schema and version row in one transaction |
| `SemVer.VersionLessIsStrictTotal` | crates/core/src/migrate.rs:175-193 | versions, compared by precedence (section 11 of SemVer 2.0.0) and then by build metadata, are strictly and totally ordered |
| `SemVer.PrecedenceIff` | crates/core/src/migrate.rs:175-193 | the order read outright: core numbers, then a pre-release below its release and below another at the first identifier where they part (numbers by value, before text), then the build metadata |
| `Lex.NameLessIff` | crates/core/src/migrate.rs:175-193 | texts compare at their first differing character, a prefix first |
| `SemVer.BuildMetadataOrders` | crates/core/src/migrate.rs:189-191 | `1.0.0+a` comes before `1.0.0+b`, so that list is accepted |
| `SemVer.BuildPartLessIsStrictTotal` | crates/core/src/migrate.rs:189-191 | so are the parts of the build metadata |
| `SemVer.IdentifierLessIsStrictTotal` | crates/core/src/migrate.rs:189-191 | so are pre-release identifiers |
| `Sanitize.Dedupe` | crates/mcp/src/sanitize.rs:92-104 | terminates by pigeonhole without overflowing its `u32`, returning the candidate or its first free suffix |
| `Sanitize.AppliedNamesAreGood` | crates/mcp/src/sanitize.rs:73-104 | the exposed names are pairwise distinct and use only `[a-zA-Z0-9_-]` |
| `Sanitize.NameFitsIff` | crates/mcp/src/sanitize.rs:69-104 | an exposed name matches the provider's pattern, 1 to 128 characters of its alphabet, if and only if its candidate was free and the original name is not empty, or the candidate leaves room for the separator and the first free counter |
| `Sanitize.SuffixOverflows` | crates/mcp/src/sanitize.rs:69-104 | two tools with one compliant name of 128 characters: the second is offered under 130 |
| `Sanitize.EmptyNameIsOffered` | crates/mcp/src/sanitize.rs:69-104 | a tool with an empty name keeps it, which the pattern refuses |
| `Sanitize.Apply` | crates/mcp/src/sanitize.rs:73-90 | keeps count and order, wraps a tool exactly when its name changes, and every call still reaches the tool itself |
| `Sanitize.IdempotentIff` | crates/mcp/src/sanitize.rs:20-104 | a second pass changes nothing if and only if every name is at most 128 long or its candidate was cut at exactly 128 |
| `Sanitize.SuffixesDiffer` | crates/mcp/src/sanitize.rs:92-104 | different counters give different suffixed names, none equal to the candidate |
| `Sanitize.DecimalInjective` | crates/mcp/src/sanitize.rs:92-104 | decimal printing is injective |
| `Sanitize.DecimalReadsBack` | crates/mcp/src/sanitize.rs:92-104 | a counter is printed as the decimal numeral that reads back as it, without leading zeros |
| `Sanitize.SanitizeName` | crates/mcp/src/sanitize.rs:24-39 | character by character: letters, digits, `_` and `-` stay and anything else becomes `_`, cut at 128; unchanged exactly when the name already is compliant and fits |
| `Expand.EnvExpansion` | cli/src/config.rs:179-211 | the pass is the generic one of `Expand.ExpandedMeans` with the environment as its table |
| `Expand.ExpandedMeans` | cli/src/config.rs:179-257 | what either pass returns, stated over the source's segments without running it |
| `Expand.ExpandEnvVars` | cli/src/config.rs:179-211 | the loop computes that pass over the source's own segments, so no substituted value is scanned again; its result is the outcome `Expand.EnvOutcome` describes |
| `Expand.EnvOutcome` | cli/src/config.rs:179-211 | what the pass returns, read off the scan: the concatenation of one piece per segment (literal text, `${vars.*}` untouched, the value otherwise); or the first unset variable, `${name}` standing at the reported offset; or, with none unset, an opening at the reported offset with no `}` after it |
| `Expand.ParseIsFaithful` | cli/src/config.rs:179-211 | the segments, put back together, are the source |
| `Expand.ParseIsWellFormed` | cli/src/config.rs:179-211 | no literal contains an opening and no name a closing brace |
| `Expand.OffsetPointsAtPlaceholder` | cli/src/config.rs:179-211 | at a reported offset the named placeholder stands in the source, letter for letter |
| `Expand.UnclosedOffset` | cli/src/config.rs:179-211 | at an unclosed offset an opening stands with no closing brace after it |
| `KeptPlaceholders.EnvPassLeavesOnlyKept` | cli/src/config.rs:179-211 | when no value contains `$` or `{`: every `${` left starts a kept placeholder if and only if no kept name nests an opening and no `$` meets a `{` across empty values |
| `KeptPlaceholders.NonEmptyValuesLeaveOnlyKept` | cli/src/config.rs:179-211 | on a whole file: with non-empty values without `$` or `{`, and no opening nested in a kept name, every `${` left starts a kept placeholder |
| `KeptPlaceholders.KeptReadsVars` | cli/src/config.rs:193-198 | a kept placeholder reads `${vars.` in the output |
| `KeptPlaceholders.EmptyValueMakesAnOpening` | cli/src/config.rs:179-211 | the file `$${X}{` with `X` empty: how it scans, and that its expansion is a stray `${` |
| `KeptPlaceholders.NestedNameKeepsAnOpening` | cli/src/config.rs:193-198 | the file `${vars.a${b}`: how it scans, and that it is kept as it is, with a second opening inside |
| `ConfigVars.VarsExpansion` | cli/src/config.rs:224-257 | the pass is the generic one of `Expand.ExpandedMeans` with the declared variables as its table |
| `ConfigVars.ExpandConfigVars` | cli/src/config.rs:224-257 | the loop computes that pass; its result is the outcome `ConfigVars.VarsOutcome` describes |
| `ConfigVars.VarsOutcome` | cli/src/config.rs:224-257 | what the second pass returns, read off the scan: one piece per segment, a declared placeholder as a block under the blanks that open the output line it lands on (each non-empty continuation line starts with them, and stripping them gives the value back); or the first undeclared name at its offset; or the unclosed opening |
| `ConfigVars.SpliceRoundTrip` | cli/src/config.rs:242-252 | stripping the indent off each non-empty continuation line of a spliced block gives the value back exactly |
| `ConfigVars.BlankLineIsItsIndent` | cli/src/config.rs:230-268 | on a line blank so far the indent is that whole line, so the block lines up under its placeholder |
| `ConfigVars.Locate` | cli/src/config.rs:273-291 | one plus the number of newlines before the offset, and the newline-free line there, for every offset including past the end |
| `ConfigVars.LineAtIsUnique` | cli/src/config.rs:273-291 | there is only one such line |
| `ConfigVars.ReportedLineHoldsPlaceholder` | cli/src/config.rs:1066-1069 | newline-free text standing at the reported offset — the opening, or a whole placeholder on one line — stands on the reported line, at the matching column |
| `Config.RoutingIsTotal` | cli/src/config.rs:346-457 | in a sound config, for every user, draw and score list, each agent, experiment, subagent, smoke target and plain trigger agent resolves to a declared agent whose provider, judges and MCP servers exist |
| `Removals.RoutingSurvivesRemoval` | crates/agents/src/admin.rs:146-171 | removing agents at runtime, which is not validated: a name keeps resolving to a servable agent that is still there when no agent it can come to is removed — itself, a shadow primary, or any variant |
| `Removals.RemovalIsSafeIff` | crates/agents/src/admin.rs:146-171 | for agent names, shadows and bandits exactly then |
| `Removals.TargetIsReached` | crates/experiments/src/router.rs:186-239 | each of those agents is reached, a bandit arm by scores that leave only it unmeasured |
| `Removals.SplitReachesVariant` | crates/experiments/src/router.rs:252-266 | a split reaches every variant whose share of the seeds exceeds one |
| `Config.ReferencedIsRoutable` | cli/src/config.rs:576-690 | every name the config refers to is an agent or an experiment |
| `Config.ExperimentIsRoutable` | cli/src/config.rs:411-457 | a validated experiment has distinct declared agents with positive weights, no agent's name, and a shadow primary among its variants |
| `Config.BanditIsMeasured` | cli/src/config.rs:762-818 | a bandit's metric names a judge and one of its criteria, and every arm is scored by that judge |
| `Config.Validate` | cli/src/config.rs:346-377 | succeeds exactly on sound configs (names distinct, references resolving, weights and rates in range, each experiment with its own strategy's fields and no other's), and otherwise reports the first fault of the first faulty section, a rule that the config breaks (`ConfigErrors.Explains`) |
| `ConfigErrors.ReportedIsTrue` | cli/src/config.rs:346-690 | what each reported error says of the config: an item of the first faulty section breaks the very rule the error names, with the names it carries, and keeps every rule checked before |
| `ConfigErrors.ExperimentFaultMeans` | cli/src/config.rs:411-457 | for experiments: a name taken by an agent or an earlier experiment, no variants, the first bad arm, then the strategy |
| `ConfigErrors.BanditFaultMeans` | cli/src/config.rs:762-818 | for bandits: another strategy's field, no metric, no dot in it, no judge named before the first dot, no such criterion after it, the first arm that judge does not score, epsilon outside [0, 1] |
| `ConfigRules.ValidatedIffSound` | cli/src/config.rs:346-377 | no check of any section fires exactly when the config is sound, read declaratively |
| `ConfigRules.ExperimentsOkIff` | cli/src/config.rs:411-457 | the same for experiments: distinct names that are no agent's, distinct declared arms with positive weights, and sound strategy fields |
| `ConfigRules.StrategyOkIff` | cli/src/config.rs:762-863 | the strategy checks pass exactly when a split has no other strategy's field, a shadow has a primary among its variants and a rate in [0, 1], and a bandit's metric is `judge.criterion` for a declared judge that scores every arm |
| `Config.SoundAgentsMerge` | crates/agents/src/merge.rs:39-89 | a sound config meets what the override merge asks of its YAML side |
| `Config.ValidateJudges` | cli/src/config.rs:459-488 | no fault exactly when judge names are distinct and each has rubrics, a rate in [0, 1] and a configured provider; otherwise the first one |
| `Config.ValidateAgents` | cli/src/config.rs:379-409 | no fault exactly when agent names are distinct and every provider, MCP server and judge reference resolves; otherwise the first one |
| `Config.ValidateExperiments` | cli/src/config.rs:411-457 | no fault exactly when the experiments are sound, given sound judges and agents; otherwise the first one |
| `Config.ValidateSmokeTests` | cli/src/config.rs:576-614 | no fault exactly when names are distinct, counts positive, and persona provider and target resolve; otherwise the first one |
| `Config.ValidateSubagents` | cli/src/config.rs:619-645 | no fault exactly when every list is distinct, without its own agent, and resolves; otherwise the first one |
| `Config.ValidateTriggers` | cli/src/config.rs:647-690 | no fault exactly when names and webhook paths are distinct, paths are under `/hooks/`, plain agents resolve and schedules parse; otherwise the first one, schedules last |
| `Config.ValidateSidecars` | cli/src/config.rs:563-574 | no fault exactly when names are distinct and no command is blank; otherwise the first one |
| `Config.ValidateMcpOAuth` | cli/src/config.rs:490-561 | no fault exactly when no static field is blank; otherwise one of them, in the hash map's own order |
| `Stream.TraceShape` | cli/src/stream.rs:102-181 | a trace starts with the role chunk; a completed one ends with exactly one stop or error and then exactly one `[DONE]`; an uncompleted one has neither |
| `Stream.StopsOnlyWhenValid` | cli/src/stream.rs:158-180 | the stop chunk is there exactly when the inner stream ended cleanly and its text passed the check |
| `Stream.ClosingChunk` | cli/src/stream.rs:158-180 | the last chunk before `[DONE]`: the stream's failure, else what the check found in the received text, else a stop, with the last usage reported if the client asked for usage |
| `Stream.LastReportStands` | cli/src/stream.rs:145-150 | the last usage report is the one that counts; without any, zero |
| `Stream.PollAdds` | cli/src/stream.rs:112-156 | what each kind of poll adds to the chunks and to the text |
| `Stream.ContentIsReceived` | cli/src/stream.rs:136-144 | the content chunks are the received deltas, nothing more or less |
| `Stream.Response.Serve` | cli/src/stream.rs:102-181 | for every event sequence, heartbeat interleaving and disconnect point: the emitted chunks are a prefix of the trace, the flush fires once, and the flushed text is exactly the emitted content |
| `Stream.Response.Loop` | cli/src/stream.rs:112-156 | stops at the first closing poll, the client's departure or the end of the polls, with text and usage up to date |
| `Stream.Response.Judge` | cli/src/stream.rs:158-179 | the chunk that closes a clean stream, after the structured-output check |
| `Stream.Response.Finish` | cli/src/stream.rs:158-180 | the rest of the trace, cut where the client leaves |
| `Stream.Response.Handle` | cli/src/stream.rs:130-155 | what one poll adds to the trace, the text and the usage |
| `Stream.Response.Drop` | cli/src/stream.rs:207-217 | takes the text and flushes it with the last usage |
| `Completion.CompleteValidated` | cli/src/server.rs:208-256 | at most 1 + MAX_FORMAT_REPAIRS calls; only validated text is returned, with the usage of every call |
| `Completion.OutcomeIsDetermined` | cli/src/server.rs:208-256 | a request has one outcome, and succeeds exactly when some call within the limit is answered with valid text after only rejected ones |
| `Completion.UsageIsSum` | cli/src/server.rs:208-256 | each field of the usage is the sum of that field over the calls made |
| `Completion.RepairsAreAsked` | cli/src/server.rs:235-250 | each call is made with exactly the conversation so far, and a reply the format rejects is followed in it by that reply and its own repair message |
| `Completion.ThreeRejectionsGiveUp` | cli/src/server.rs:208-256 | after three rejections the third error is returned |
| `Merge.Merge` | crates/agents/src/merge.rs:39-89 | exactly each entry no row names, as YAML, and each live row's config, as an override where YAML has the name and dynamic otherwise; each once, sorted; the four counts are the numbers of unshadowed entries, tombstones, overrides and dynamic rows |
| `Merge.EffectiveIff` | crates/agents/src/merge.rs:39-89 | an agent is effective under its name exactly when it is one of those |
| `Merge.CountsSumToNames` | crates/agents/src/merge.rs:25-89 | the counts sum to the number of distinct names |
| `Merge.MergeIsUnique` | crates/agents/src/merge.rs:39-89 | only one sorted list has those members |
| `Merge.AdminView` | crates/agents/src/merge.rs:127-181 | exactly each entry no row names and each row with its own config, tombstones included without one, marked by source and by whether YAML has the name; each once, sorted |
| `Merge.AdminOfIff` | crates/agents/src/merge.rs:127-181 | an admin row is its name's exactly when it is one of those |
| `Merge.AdminViewIsMergePlusTombstones` | crates/agents/src/merge.rs:39-181 | the admin view without its tombstones is the effective list, in the same order |
| `Merge.MergeYaml` | crates/agents/src/merge.rs:45-67 | the first loop resolves and counts exactly the YAML names |
| `Merge.MergeRows` | crates/agents/src/merge.rs:69-85 | the second loop adds exactly the rows no YAML entry carries |
| `Lex.SortBy` | crates/agents/src/merge.rs:87-87 | sorting distinct names keeps the members and orders them strictly |
| `Lex.AscendingIsUnique` | crates/agents/src/merge.rs:87-87 | a strictly ascending list is determined by its members |
| `AgentsAdmin.AgentsAdmin.Create` | crates/agents/src/admin.rs:51-62 | the name now serves the new config, every other name what it did, and the runtime list is the merge again |
| `AgentsAdmin.AgentsAdmin.Update` | crates/agents/src/admin.rs:192-210 | the same under an unchanged name; a renaming body is refused and changes nothing |
| `AgentsAdmin.AgentsAdmin.RemoveAgent` | crates/agents/src/admin.rs:146-171 | the name is gone from the runtime list: tombstoned if YAML-backed, deleted otherwise; unknown names are reported and change nothing |
| `AgentsAdmin.AgentsAdmin.Reset` | crates/agents/src/admin.rs:176-190 | the name is back to its YAML value, or gone if there is none |
| `AgentsAdmin.AgentsAdmin.Rebuild` | crates/agents/src/store.rs:173-183 | afterwards the runtime list holds each live row's config and each YAML entry no row names, and nothing else, once each and sorted |
| `AgentsAdmin.AgentsAdmin.ReloadYaml` | crates/agents/src/store.rs:173-183 | new YAML under the same overrides: the runtime list is their merge again |
| `AgentsAdmin.AgentsAdmin.List` | crates/agents/src/store.rs:99-107 | every row once, ordered by name |
| `AgentsAdmin.AgentsAdmin.PutActive` | crates/agents/src/store.rs:116-139 | writes an active row with this config, its old creation time if there was one and the update time, and leaves every other row |
| `AgentsAdmin.AgentsAdmin.PutTombstone` | crates/agents/src/store.rs:147-163 | writes a row without a config, its old creation time if there was one and the update time, and leaves every other row |
| `AgentsAdmin.AgentsAdmin.Delete` | crates/agents/src/store.rs:88-94 | drops the row and says whether there was one |
| `AgentsAdmin.RebuildSyncs` | crates/agents/src/store.rs:173-183 | any sorted resolution of the listed rows serves exactly what the table and YAML say |
| `AgentsAdmin.SyncedMembers` | crates/agents/src/store.rs:173-183 | what a list in sync holds, row by row and entry by entry |
| `AgentsAdmin.SyncedListIsUnique` | crates/agents/src/store.rs:173-183 | YAML and table leave the runtime list no freedom |
| `AgentsAdmin.ListedIffServed` | crates/agents/src/store.rs:173-183 | a name is listed exactly when something serves it |
| `Rebuilds.CurrentIff` | crates/agents/src/store.rs:173-183 | the list stored last is the current merge if and only if the YAML and table it was made from serve every name as they do now |
| `Rebuilds.OrderedStoresEndCurrent` | cli/src/commands/serve.rs:773-803 | overlapping handlers and config reloads, when no store overtakes one made from newer YAML or a newer table, come to rest on the current merge, however they interleave |
| `Rebuilds.SlowStoreEndsStale` | crates/agents/src/admin.rs:51-210 | two handlers whose stores land the other way round: if their tables serve some name differently, the list left in place is not the current merge |
| `Rebuilds.ReloadInBetweenEndsStale` | crates/agents/src/admin.rs:135-140 | a handler that has loaded the YAML list before a reload and stores after it leaves a list made from the old YAML, not the current merge |
| `ConfigStore.EveryInterleavingIsSafe` | cli/src/config_store.rs:114-238 | in every interleaving of writers and watcher: each visible snapshot is the validated parse of some version of the file, the file is the serial outcome of the committed writes, and at quiescence snapshot and published config are the parse of the file |
| `ConfigStore.EveryWriteIsSeen` | cli/src/config_store.rs:114-238 | nothing gets stuck: from any point of a run there are steps to quiescence without another write, and there the file as it was is what readers see |
| `ConfigStore.SerialStep` | cli/src/config_store.rs:209-238 | every atomic step keeps the file equal to the committed writes replayed one after the other |
| `ConfigStore.CoherentStep` | cli/src/config_store.rs:114-206 | every atomic step keeps the snapshot current or a reload pending |
| `ConfigStore.ValidatedStep` | cli/src/config_store.rs:164-206 | every atomic step publishes only validated versions of the file |
| `ConfigStore.SectionSurvives` | cli/src/config_store.rs:224-238 | a section keeps its value through every later write of other sections |
| `ConfigStore.WriteAloneLands` | cli/src/config_store.rs:193-238 | a write that meets nobody leaves its document in the file, its parse in the snapshot and published, and events for the watcher |
| `ConfigStore.ReloadAloneLands` | cli/src/config_store.rs:114-174 | a reload that meets nobody publishes what the file parses to, or changes nothing |
| `ConfigStore.DrainAfterReadWouldLoseAnUpdate` | cli/src/config_store.rs:120-135 | were the queue drained after the read instead of before it, an update would be lost |
| `ConfigStore.Store.WriteSection` | cli/src/config_store.rs:224-238 | one call is its five atomic steps in a row or nothing at all: the file is the old one with that key set, snapshot and published config are its parse, or the error says why not and nothing changed |
| `ConfigStore.Store.WriteAll` | cli/src/config_store.rs:210-222 | the same for a whole document; one that is no mapping is refused |
| `ConfigStore.Store.ValidateAndWrite` | cli/src/config_store.rs:193-206 | writes and publishes exactly the documents that validate |
| `ConfigStore.Store.ReloadFromDisk` | cli/src/config_store.rs:164-174 | publishes the parse of the file as snapshot and live config, or reports it invalid and leaves both |
| `Secrets.RoundTripIff` | cli/src/secrets.rs:103-208 | what is written reads back unchanged if and only if both keys are one line without edge whitespace or edge quotes; padding `=` survives |
| `Secrets.GeneratedKeysReadBack` | cli/src/secrets.rs:92-102 | generated keys, base64 of any bytes, read back from the file as they were written |
| `Secrets.Base64IsClean` | cli/src/secrets.rs:92-102 | base64 text is one line without edge whitespace or quotes |
| `Secrets.DecodesBack` | cli/src/secrets.rs:92-102 | a strict base64 decoder gives the encoded bytes back |
| `Secrets.GeneratedKeysDecode` | cli/src/secrets.rs:92-102 | each generated key decodes to its own random bytes |
| `Secrets.BodyValues` | cli/src/secrets.rs:103-189 | for any one-line keys the file reads back as their trimmed, unquoted values |
| `Secrets.CutReads` | cli/src/secrets.rs:103-208 | a file cut short by a failed write: up to the second key's `=` it is malformed, and from there on it reads as the first key with whatever there is of the second |
| `Secrets.CutOfGenerated` | cli/src/secrets.rs:92-208 | for generated keys that is a prefix of the second key, the empty one included |
| `Secrets.KeyLineParses` | cli/src/secrets.rs:103-135 | a written key line parses to its variable and value, whatever `=` the value holds |
| `Secrets.ParseFile` | cli/src/secrets.rs:103-135 | the last value given for each variable, with the line that gives it, or an error when some variable is given by no line |
| `Secrets.LineGivesIff` | cli/src/secrets.rs:110-120 | what a line gives: the trimmed sides of its first `=`, the value without its quotes; comments and lines without `=` give nothing |
| `Secrets.TrimIs` | cli/src/secrets.rs:110-120 | trimming and unquoting cut off nothing but such characters, and all of them at the edges |
| `Secrets.BlankIff` | cli/src/config.rs:563-574 | a text is blank exactly when trimming leaves nothing of it |
| `Secrets.Resolve` | cli/src/secrets.rs:147-208 | a full environment wins, then the file, then keys generated from random bytes, which are written so that the next boot reads the same ones; a write that fails leaves no file, or a cut one that the next boot refuses or reads with a shortened second key |

## Left out

- Tracker.Tracker.Check: database errors are not modelled, because they only propagate.
- Tracker.CountersRefineHistory: asks that charges and times fit a signed 64-bit column; SQLite's promotion of a larger sum to a float is not modelled.
- TokenStore.TokenStore.CheckBudgetAt: dollars, their conversion and rounding, and the parsing of budget forms are not modelled; limits are integer micro-dollars.
- TokenStore.TokenStore.Mint: the random id and secret are parameters, and the hash is an opaque string.
- Calendar.MonthStartLaws: the date library's conversion is modelled by its calendar, not its code.
- Router.SplitIsProportional: over the reals; the roundings of `f32` and `f64` are modelled for the unit value alone, not for the weights, their sums and the scores, and NaN scores are not modelled.
- Router.RoundedFallsThroughIff: the product with the total and the running sum are over the reals.
- LimitRuns.OvershootBound: the clock does not run backwards, and a request's cap stays the same from one request to the next.
- SpendRuns.BudgetOvershootBound: times up to the year 9999, after which the month window falls back to 0; the gate's two queries are one step.
- Seeds.DrawsDiffer: draws of different blocks of 2^40 are covered by a counterexample only, at values no counter reaches in practice; which of them collide is not characterised.
- Pool.EveryGrantIsCurrent: about calls for one key that follow each other; for calls that read the same row before any of them refreshes `Overlaps.ManyCallsSafeIff` says exactly when all orders of their grants are safe. Which row their vault writes leave, and calls that overlap a callback, are not characterised. A code exchange whose reply cannot be read starts a grant the pool never sees and is not logged. Discovery, client registration and the signed links are not modelled.
- Migrate.Validate: the SemVer parser is a parameter.
- Migrate.Database.Run: `split_sql` is not modelled; a step is one function from schema to schema.
- Sanitize.Dedupe: at most 2^32 - 1 tools, so that the counter cannot overflow.
- Expand.ExpandEnvVars: the environment is a function of the name.
- Config.Validate: YAML parsing, the auth section's own checks and cron schedules enter as verdicts; `from_str` as a pipeline and the base URL are not modelled.
- ConfigStore.EveryInterleavingIsSafe: no edits from outside and no `${` in the file, where the watcher's text passes would change what is parsed; every failure before the rename is one step that changes nothing.
- Stream.Response.Serve: what happens to a flush afterwards (memory, judges, extractor) is not modelled.
- Completion.CompleteValidated: overflow of the usage counters is not modelled.
- Merge.Merge: repeated YAML names and rows whose config and tombstone flag disagree are excluded, as the validator (`Config.SoundAgentsMerge`) and the table's writers exclude them. The experiment and judge crates repeat this merge over their own types.
- AgentsAdmin.AgentsAdmin.Create: database errors are not modelled; handlers run one at a time here and overlap with each other and with config reloads in `Rebuilds`.
- Removals.RemovalIsSafeIff: agents only; removing or overriding an experiment or a judge at runtime is not modelled.
- Secrets.Resolve: the random bytes are parameters, the header is any comment lines, none included, and file permissions are not modelled.
- HTTP routing, HTML pages, OpenAPI, command line, process control, logging and error texts: presentation and input/output only.
- Cryptography: token encryption, signatures and link signing.
- The task queue, trigger dispatch, memory store, subagent tool and provider clients.
