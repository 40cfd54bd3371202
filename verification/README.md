# Verification of the MySQL MCP server's core

This project models the parts of the server whose correctness is not visible from one function body,
and proves what they promise: the per-IP rate limiter, the reference-counted connection pool with its
two-phase hot reload, the `LIMIT` rewriter, the escaping of search patterns and identifiers, the bounded
search loop, the publication of new rules, the file watcher, and the algebra of the allow and block lists.

`dafny verify dfyconfig.toml` checks everything. Each file is one module.

| area | modules |
|---|---|
| rate limiter | `RateLimiterModel` (steps), `RateLimiterProofs`, `RateLimiterExact`, `RateLimiterLaw`, `IPRateLimiter` (the object) |
| connection pool | `PoolModel` (steps), `PoolSafety`, `PoolDrain`, `PoolCover`, `PoolConvergence`, `PoolOverlap`, `PoolClose`, `PoolWrap`, `PoolLock`, `Pool` (the object) |
| LIMIT rewriter | `LimitScanner`, `LimitRewriter`, `LimitAppender`, `LimitPages`, `Rewriter` (the object), with `Ascii`, `Decimal`, `Sql` |
| escaping and search | `LikePattern`, `Identifier`, `SearchTables` |
| policy and publication | `Policy`, `Query` (what `executeQuery` runs), `SqlText` (what MySQL reads of it), `RulePublication`, `Server` (the objects) |
| reload | `WatcherModel` (steps), `WatcherProofs`, `WatcherTracking`, `Watcher` (the object) |

## How to read the model

**Objects and steps.** Where calls interleave, a transition system gives the atomic steps and the theorems
speak of every run of it. Beside it a class has the fields and loops of the source, and each of its methods is
proved to take those steps. What the source protects with a mutex is one step. Map iteration order is
arbitrary. Clocks, connects, query answers and file contents are parameters.

**References.** Buckets and pool entries are kept in sequences that only grow; an index stands for the Go
reference, so an object dropped from a map can still be used by whoever fetched it before. Every `sql.Open`
returns a database of its own.

**Time.** The pool's ten seconds are 200 ticks of 50 ms. The rate limiter uses real numbers. A request
fetches its bucket and asks it at most `stall` seconds later; with `stall` 0 the two happen at once.

**Text.** A `char` is one byte; case folding and white space are ASCII.

## What turned out to depend on a condition

* A request is admitted if and only if, for every moment before it, the requests of its address admitted since then
  and itself are at most the burst and the inflow since then (`RateLimiterLaw.AdmittedExactlyWhenThereIsRoom`).
  This law, too, holds in all runs exactly under the following condition.
* Eviction after five minutes is invisible, and the limiter keeps to its rate, if and only if
  `burst <= rate * (300 s - stall)` (`RateLimiterExact.ProvisoIsExact`). The defaults meet it for any stall up
  to 298 seconds.
* A drained database can still be handed out, because `Get` checks the closing flag and increments the count
  in two steps: to exactly the `Get`s that are between the two when phase 2 sees a count of zero
  (`PoolDrain.GracefulDrain`). One combined step would close the gap (`PoolDrain.IndivisibleDrainIsSafe`).
* The reference count is 32 bits wide and no production code calls `release`. The count of a mapped entry is
  the number of handles out modulo 2^32, hence equal to it exactly below 2^31 (`PoolSafety.CountsNeverUndercount`);
  `PoolWrap.UnreleasedGetsWrap` reaches any number of handles.
* Phase 2 deletes by name, so with overlapping updates it can delete an entry that it never marked, which then
  leaks and can be handed out under an old identity (`PoolOverlap.OverlapLeaks`,
  `PoolOverlap.OverlapGetSeesStaleIdentity`). In any run, an open entry stays in the map exactly as long as
  whatever is deleted is closing (`PoolCover.CoveredExactlyWhen`). A caller can tell beforehand: a call that begins
  beside others is safe, however they go on, exactly when it adds no name that one of them still has to
  delete (`PoolCover.OverlapIsSafeExactlyWhen`).
* `Close` sets no closing flag. The `Get`s that can hold a database it closed are exactly those in flight on it
  (`PoolClose.CloseHandsOutExactly`).
* A reload delivers what it loaded. If the files are written between the loads and the `Stat`, nothing looks newer
  afterwards, and the server is up to date exactly when the contents are the same
  (`WatcherProofs.WriteBeforeStatIsLost`); the same holds if a later reload overtakes it
  (`WatcherProofs.OverlappingReloadsDeliverOldContent`). Over whole runs, with any overlaps and any writes that bring
  something new, the server is up to date exactly when neither file was written since the reload delivered last had
  loaded it (`WatcherTracking.SyncedExactlyWhen`). Polls do not notice. A file event that comes after
  the reload starts another one, which does bring the server up to date (`WatcherProofs.TriggerSyncs`).
* Rule generations are ordered throughout a run exactly when its updates do not overlap
  (`RulePublication.OrderedExactlyWhenSerial`). After overlapping ones the checker, or the rewriter, has the newest
  rules exactly when no older call reached it after the newest (`RulePublication.EndsAgreeExactlyWhen`). A query's
  timeout and row cap are never older than its check in any run. Its rewrite can be, without overlaps by one
  generation, and exactly when both of its reads fall between the checker's update and the rewriter's
  (`RulePublication.LagsExactlyWhen`).
* The block list decides something exactly when DROP, TRUNCATE or RENAME is both blocked and allowed
  (`Policy.BlockListMattersOnlyInConflict`); rules accepted by `Validate` never are such.
* `executeQuery` asks the rewriter only about unguarded writes, so `max_limit` does not bound a SELECT there
  (`Query.SelectRunsUncapped`).
* The limit appended to an unguarded write is read as code exactly when the trimmed text does not end in an open
  comment, literal or quoted identifier; behind `DELETE FROM t -- x` MySQL reads none of it
  (`Query.UnguardedWritesAreLimited`).
* In `LIMIT 5000, 10` the cap falls on the offset. After capping no clause allows more rows than the bound exactly when
  the numbers behind commas were within it and all others fitted an int
  (`LimitPages.CapBoundsRowsExactlyWhen`); `LIMIT 0, 1000000` stays as it is.
* If the checker has rules and the rewriter has none, an unguarded write becomes the empty statement
  (`Query.EmptiedExactlyBeforeTheFirstRules`). The server program does not get there, since reloads bring rules only
  if it was started with some (`cmd/server/main.go:58-67`); a direct call of `Server.UpdateConfig` can.
* `search_tables` swallows failures: a result not marked as truncated misses a table exactly when each of its
  occurrences lies in a database that failed, or past the point where its rows broke off
  (`SearchTables.UntruncatedSearchMissesExactlyTheLost`). `list_tables` takes rows that break off for all of them.
* `USE` quotes a name without doubling its backticks, which is right exactly for the names without one
  (`Identifier.RawQuotingIsRightWithoutBackticks`).

## Where the code and its documentation disagree

* `internal/database/doc.go:17-22` speaks of a reconnect and of a 30 second timeout. The code waits 10 seconds and
  removes a cluster whose host, port, user or password changed; only the next update opens it again
  (`internal/database/pool.go:104-157`, asserted in `internal/database/pool_update_test.go:44-65`). The model
  follows the code.

## Model

| member | source | states |
|---|---|---|
| RateLimiterProofs.CleanupIsInvisible | internal/server/ratelimit.go:72-133 | in every run of requests and cleanups, every decision is the one that a bucket never evicted would have made, given the proviso |
| RateLimiterProofs.AnswersDependOnOwnRequests | internal/server/ratelimit.go:72-133 | in any two runs, an address that asked at the same times gets the same answer, whatever other addresses and cleanups did |
| RateLimiterProofs.AdmissionsAreBounded | internal/server/ratelimit.go:72-133 | every address, in every window, has at most burst + rate * length requests admitted, evictions included |
| RateLimiterProofs.Potential | internal/server/ratelimit.go:118-133 | admissions since any moment plus the tokens left never exceed the burst plus the inflow |
| RateLimiterLaw.AdmittedExactlyWhenThereIsRoom | internal/server/ratelimit.go:118-133 | in every run, evictions included, a request is admitted if and only if, in every window that ends with it, the admissions of its address and itself are at most burst + rate * length |
| RateLimiterLaw.FaithfulIsLawful | internal/server/ratelimit.go:118-133 | deciding as never-dropped buckets do is the same as admitting exactly where there is room |
| RateLimiterLaw.LawNeedsTheProviso | internal/server/ratelimit.go:72-133 | that law holds in all runs if and only if the proviso does |
| RateLimiterExact.ProvisoIsExact | internal/server/ratelimit.go:72-115 | the proviso burst <= rate * (300 s - stall) holds if and only if eviction is invisible in all runs, and if and only if all runs keep to the rate |
| RateLimiterExact.EvictionShows | internal/server/ratelimit.go:105-115 | for every configuration that fails the proviso, a run that exceeds the rate in some window |
| RateLimiterProofs.DefaultsMeetProviso | internal/server/ratelimit.go:28-34 | rate 10 and burst 20 meet the proviso exactly for stalls of up to 298 seconds |
| IPRateLimiter.IPRateLimiter.GetLimiter | internal/server/ratelimit.go:72-88 | one arrival step: creates a full bucket for a new address, refreshes lastSeen of a known one, and answers the mapped bucket |
| IPRateLimiter.IPRateLimiter.Allow | internal/server/ratelimit.go:121 | one decision step: admits and takes a token exactly when one is there |
| IPRateLimiter.IPRateLimiter.Cleanup | internal/server/ratelimit.go:105-115 | one cleanup step: drops exactly the entries idle for more than five minutes and touches no bucket |
| IPRateLimiter.IPRateLimiter.Admit | internal/server/ratelimit.go:118-133 | the middleware's decision is that of the address's bucket, or of a full one for a new address |
| PoolSafety.OpenEntriesAreCurrent | internal/database/pool.go:104-157 | in every reachable state, overlaps included, a mapped entry that is not closing is configured, and its host, port, user and password are those it was opened with |
| PoolSafety.CountsNeverUndercount | internal/database/pool.go:71-101 | in every reachable state a mapped entry's count is its outstanding handles modulo 2^32, equal to them exactly below 2^31, and no entry's count is below its handles while fewer than 2^31 were given |
| PoolWrap.UnreleasedGetsWrap | internal/database/pool.go:71-89 | any number n of unreleased handles is reachable, and the count then reads n modulo 2^32: zero at 2^32 |
| PoolDrain.ClosingAdmitsNoOne | internal/database/pool.go:80-88 | from a state where an entry is closing, no interleaving lets a new Get past the check |
| PoolDrain.GracefulDrain | internal/database/pool.go:144-171 | once phase 2 has seen a count of zero, a Get can be handed the closed database if and only if it was between check and increment at that moment; no other one ever uses it, in any interleaving |
| PoolDrain.IndivisibleDrainIsSafe | internal/database/pool.go:80-88 | with check and increment in one step no one ever holds a database found drained |
| PoolDrain.SplitCheckHandsOutClosedDb | internal/database/pool.go:80-88 | a reachable state in which a drained and closed database is held |
| PoolDrain.UpdateWaitsAtMost200Ticks | internal/database/pool.go:140-171 | phase 2 with n entries waits at most 200 ticks altogether and takes at most 400 + 5n steps, whatever runs beside it |
| PoolDrain.NoTimeOutBefore200Ticks | internal/database/pool.go:140-171 | phase 2 gives up waiting only when 200 ticks have passed since phase 1 |
| PoolDrain.DrainIsBounded | internal/database/pool.go:140-171 | waits plus ticks left never exceed the ticks at the start, and own steps plus rank never exceed the rank |
| PoolDrain.UpdateCanMove | internal/database/pool.go:144-171 | an unfinished phase 2 always has a step of its own to take |
| PoolCover.StepCovers | internal/database/pool.go:104-157 | in any interleaving, a step keeps every entry that is not closing in the map exactly when what it unmaps is closing |
| PoolCover.CoveredExactlyWhen | internal/database/pool.go:104-198 | over whole runs, overlaps and shutdowns included: open entries are in the map at all times exactly when every delete and every Close takes closing entries only |
| PoolCover.CoveredGetSeesCurrentIdentity | internal/database/pool.go:71-89 | as long as that holds, a Get that finds its entry not closing finds it mapped and under the current identity |
| PoolCover.OverlapIsSafeExactlyWhen | internal/database/pool.go:104-157 | in a state that careful updates have led to, without Close: an update that begins beside others can lead to a leak, or to an open entry outside the map, if and only if it adds a name that one of them still owes a delete |
| PoolCover.DoomedLeaks | internal/database/pool.go:144-154 | an update that owes a name leading to an entry it did not mark leaks that entry if it is left to run |
| PoolCover.CarefulRunsLeakNothing | internal/database/pool.go:104-198 | if no update adds an owed name, then with any overlaps and shutdowns every database ever opened is in the map or closed |
| PoolCover.CarefulGetSeesCurrentIdentity | internal/database/pool.go:71-89 | and until Close a Get that finds its entry not closing sees the current identity |
| PoolConvergence.NothingLeaks | internal/database/pool.go:104-157 | in particular in runs without overlap and without Close: every database ever opened is in the map or closed |
| PoolConvergence.SerialGetSeesCurrentIdentity | internal/database/pool.go:71-89 | in such runs a Get that finds its entry not closing finds it mapped and under the current identity |
| PoolConvergence.UpdateSettles | internal/database/pool.go:104-157 | one update among any gets and releases leaves exactly the configured clusters without those whose identity changed, and keeps the others' databases |
| PoolConvergence.SecondUpdateIsExact | internal/database/pool.go:126-138 | the same configuration again marks nothing and reaches exactly the configured clusters |
| PoolConvergence.ThirdUpdateIsNoOp | internal/database/pool.go:104-157 | a further one changes no entry and no binding |
| PoolConvergence.RepeatedUpdateConverges | internal/database/pool_update_test.go:44-65 | the three calls in a row: after two the map is exact, the third is a no-op |
| PoolOverlap.OverlapLeaks | internal/database/pool.go:144-154 | overlapping updates that delete by name reach a state with an open, unmarked database outside the map |
| PoolOverlap.OverlapGetSeesStaleIdentity | internal/database/pool.go:71-89 | and a Get passes its closing check on that database after the identity has moved on |
| PoolClose.OnlyThoseInFlight | internal/database/pool.go:71-89 | an entry that has left the map is used by no Get that was not in flight on it then, in any interleaving |
| PoolClose.CloseHandsOutExactly | internal/database/pool.go:184-198 | the Gets that can hold a database after Close has closed it are exactly those in flight on it: holding, past the check, or looked up with the entry not closing |
| PoolClose.CloseHandsOutClosedDb | internal/database/pool.go:184-198 | in every reachable state a Get that has just read the map can be handed a closed database of any cluster not being drained |
| PoolLock.ReleaseNeedsNoDrain | internal/database/pool.go:92-101 | with the mutex as part of the state: in every run a handle can be given back as soon as the holders of the lock leave, without a step of a drain or a tick of its clock |
| PoolLock.LockedRunsAreRuns | internal/database/pool.go:104-157 | runs with the mutex are runs of the model, each locked section one step |
| Pool.Pool.Get | internal/database/pool.go:71-89 | answers the mapped database exactly for known clusters not closing, counts it once, changes nothing otherwise |
| Pool.Pool.Release | internal/database/pool.go:92-101 | decrements the count of the entry that wraps the database if it is still mapped, handle or no handle, and nothing else |
| Pool.Pool.GiveBack | internal/database/pool.go:92-101 | giving back the handle of a Get is one release step |
| Pool.Pool.MarkStale | internal/database/pool.go:106-124 | marks and collects exactly the clusters that are removed or change their host, port, user or password |
| Pool.Pool.AddNew | internal/database/pool.go:126-136 | opens every missing cluster that can be reached, leaves the rest |
| Pool.Pool.WaitForRelease | internal/database/pool.go:160-171 | undisturbed, reports drained exactly when the count is zero, else uses the budget up; its iterations are observe, wait and time-out steps of the model |
| Pool.Pool.Drain | internal/database/pool.go:144-154 | closes every marked entry, unmaps its name, keeps all else, within one budget |
| Pool.Pool.UpdateConfig | internal/database/pool.go:104-157 | an undisturbed call is a run of the model that ends in the settled map; between updates a cluster keeps its database if and only if it is still configured with the same host, port, user and password, and otherwise its database is closed; nothing leaks |
| Pool.Pool.MarkAndAdd | internal/database/pool.go:106-138 | phase 1 is one step of the model |
| Pool.CallKeepsQuiet | internal/database/pool.go:104-157 | between updates, every database ever opened is mapped or closed and nothing mapped is closing; any completed update restores this |
| Pool.Pool.NewPool | internal/database/pool.go:36-53 | succeeds exactly when all clusters connect, in the initial state of the model; otherwise every database it had opened is closed |
| Pool.Pool.Close | internal/database/pool.go:184-198 | closes every mapped database, empties the map, marks nothing |
| LimitScanner.ClauseForm | internal/security/rewriter.go:18 | a string is one match exactly when it is LIMIT in any case, blanks, digits; the digits are the literal |
| LimitScanner.ClauseIsLongestPrefix | internal/security/rewriter.go:18 | if any prefix matches, the scanner matches there and takes at least that much (greedy) |
| LimitRewriter.LexFindsMatches | internal/security/rewriter.go:18 | the left-to-right scan starts a match at exactly the positions where the expression matches |
| LimitRewriter.CapIsPointwise | internal/security/rewriter.go:87-106 | the cap keeps all text outside matches, turns the i-th value v into min(v, max) if it fits an int and leaves it otherwise, adds and removes no match, and lengthens nothing |
| LimitRewriter.CapComposes | internal/security/rewriter.go:87-106 | capping by a and then by b is capping by min(a, b), for every text |
| LimitRewriter.CapIsIdempotent | internal/security/rewriter.go:87-106 | capping twice by the same bound is capping once |
| LimitAppender.LexAppend | internal/security/rewriter.go:74-84 | appending text that cannot join a match leaves the earlier matches as they were |
| LimitAppender.AddLimitGoesBehindTheStatement | internal/security/rewriter.go:74-84 | every text is white space around a statement and the semicolons that end it, in one way as far as the statement goes, and the limit is appended to that statement; a limit that is not positive adds nothing |
| LimitAppender.AddLimitAppendsOneMatch | internal/security/rewriter.go:74-84 | the matches after addLimit are those of the trimmed text and one final match of the given value |
| LimitAppender.CapTrims | internal/security/rewriter.go:74-106 | trimming and capping commute |
| LimitAppender.AddThenCap | internal/security/rewriter.go:74-106 | capping after adding is adding the smaller limit after capping |
| Rewriter.CapBoundsEveryLimit | internal/security/rewriter.go:87-106 | no match is left with a representable value above the bound, and the text changes exactly when there was one |
| LimitPages.CapBoundsRowsExactlyWhen | internal/security/rewriter.go:87-106 | with `LIMIT offset, count` read as MySQL does: the cap leaves every count beside an offset as it was, and afterwards no clause allows more rows than the bound if and only if those counts were within it and all other values fitted an int |
| Rewriter.RewriteEnforcesRules | internal/security/rewriter.go:42-71 | an unguarded UPDATE or DELETE ends in the configured limit, the matches of a SELECT are capped and it is flagged exactly when one was above the bound, all else keeps its text |
| Rewriter.RewriteSelectTwice | internal/security/rewriter.go:59-68 | rewriting a rewritten SELECT changes nothing |
| Rewriter.Rewriter.Rewrite | internal/security/rewriter.go:42-71 | the method answers what the theorems above speak of |
| LikePattern.EscapedMatchesOnlyItself | internal/validation/validator.go:93-101 | an escaped pattern, as a LIKE pattern, matches the original text and nothing else |
| LikePattern.SearchIsSubstring | internal/mcp/tools.go:746-782 | the LIKE test of a search holds exactly when some part of the name is the pattern up to case |
| Identifier.QuotingIsLexing | internal/validation/validator.go:104-107 | a lexer of quoted identifiers reads a name exactly out of its quoting |
| Identifier.QualifiedNameLexesBack | internal/mcp/tools.go:659-662 | a quoted database and table lex back to that pair, backticks included |
| Identifier.QualifiedNamesAreDistinct | internal/mcp/tools.go:659-662 | different pairs are quoted differently |
| Identifier.RawQuotingIsRightWithoutBackticks | internal/database/router.go:78-84 | quoting without doubling is correct, and reads back, exactly for names without a backtick |
| Identifier.AcceptedExactlyWhen | internal/validation/validator.go:39-54 | accepted are exactly the names of 1 to 64 letters, digits and underscores not beginning with a digit; empty and overlong names have errors of their own |
| Identifier.AcceptedNamesQuoteRaw | internal/validation/validator.go:43-54 | every name the validator accepts is quoted correctly by USE |
| SearchTables.MaxRows | internal/mcp/tools.go:377-382 | the configured maximum if it is positive, else 10000 |
| SearchTables.ExecuteSearchTables | internal/mcp/tools.go:742-814 | the loop over the databases computes Search up to that maximum |
| SearchTables.ScanRows | internal/mcp/tools.go:790-803 | the loop over the rows of one database computes Scan |
| SearchTables.SearchCollectsTheFirst | internal/mcp/tools.go:750-813 | the matches are the first max of everything delivered; truncated exactly when there is more, or a database asks for room that is used up; untruncated has all that was delivered, truncated is full |
| SearchTables.UntruncatedSearchMissesExactlyTheLost | internal/mcp/tools.go:750-813 | with databases failing in any way, a match is always wanted, and an untruncated search misses a wanted table if and only if each occurrence lies in a failed database or past the break of its rows |
| SearchTables.UntruncatedSearchFindsExactlyTheMatches | internal/mcp/tools.go:750-813 | if all answer in full, an untruncated search finds exactly the tables whose name contains the pattern up to case |
| SearchTables.ExecuteListTables | internal/mcp/tools.go:543-591 | lists the first 1000 tables in order, truncated exactly when there are more; fails exactly on a failed query or a scan that breaks off among them; unmarked results are incomplete exactly when the rows broke off earlier |
| SqlText.AppendedLimitIsInForceExactlyWhen | internal/security/rewriter.go:74-84 | the appended clause is read as code in full if and only if the text before it ends in code, and otherwise not a byte of it is |
| SqlText.InLineExactlyWhen | internal/security/rewriter.go:74-84 | a text ends in a comment to the end of the line exactly when one has begun and no line has ended since |
| SqlText.InBlockExactlyWhen | internal/security/rewriter.go:74-84 | a text ends in a bracketed comment exactly when one has begun and no end mark has come since |
| SqlText.DashesEndWithTheirLine | internal/security/rewriter.go:74-84 | a line of two bare dashes changes nothing in how the lines after it are read |
| Query.UnguardedWritesAreLimited | internal/mcp/tools.go:409-430 | an UPDATE or DELETE without WHERE runs unchanged if it has its own limit or the configured one is not positive; otherwise the configured one is appended as the last match, and is read as code exactly when the trimmed text does not end in an open comment or quotes |
| Query.RunsExactlyWhen | internal/mcp/tools.go:409-430 | with rules, a SELECT, INSERT, UPDATE or DELETE runs exactly when its name is in the DML list up to case, a DDL statement when its name is in the DDL list and is not a blocked DROP, TRUNCATE or RENAME, SHOW and EXPLAIN always; without rules all known kinds; only unguarded writes are ever changed |
| Query.SelectRunsUncapped | internal/mcp/tools.go:409-430 | a SELECT runs with the text the rewriter would give it exactly when no literal was above the bound: the cap is not applied on this path |
| Query.EmptiedExactlyBeforeTheFirstRules | internal/mcp/tools.go:409-430 | a statement becomes empty exactly when it is an unguarded write, the checker has rules and the rewriter has none |
| Server.Handler.CheckAndRewrite | internal/mcp/tools.go:409-430 | answers a statement exactly when the lists permit it, and answers it unchanged unless it is an UPDATE or DELETE without WHERE |
| Policy.BlockListMattersOnlyInConflict | internal/security/checker.go:36-137 | emptying the block list changes no decision exactly when DROP, TRUNCATE and RENAME are never both blocked and allowed |
| Policy.ValidRulesNeedNoBlockList | internal/config/validation.go:65-77 | for rules accepted by Validate the block list decides nothing |
| Policy.ConflictsAreFound | internal/config/validation.go:65-77 | Validate's search reports a conflict exactly when some operation, in any spelling, is in both lists |
| Policy.AcceptedExactlyWhen | internal/config/validation.go:65-94 | Validate accepts exactly the rules in which nothing is both allowed and blocked, with at most five minutes, a million rows and an automatic limit of ten thousand |
| Policy.MoreAllowedLessBlocked | internal/security/checker.go:36-137 | growing allow lists and shrinking the block list never refuses what was allowed, and keeps the need for a rewrite |
| Policy.BlockListCoversThreeOperations | internal/security/checker.go:78-95 | block lists that agree on DROP, TRUNCATE and RENAME give the same result for every statement |
| Policy.ListedFolds | internal/config/config.go:182-212 | upper-casing the operation makes no difference to membership in a list |
| Policy.ListedExactlyWhen | internal/config/config.go:182-212 | an operation is in a list exactly when some element is the same word up to the case of its letters |
| RulePublication.OrderedExactlyWhenSerial | internal/server/http.go:244-261 | in any run, config >= checker >= rewriter >= config - 1 holds at every step if and only if no two updates overlap |
| RulePublication.GenerationsStayOrdered | internal/server/http.go:244-261 | in runs without overlap the order holds, all three agree between updates, and a query's rewrite is at most one generation older than its check |
| RulePublication.LimitsAreNeverOlderThanTheCheck | internal/mcp/tools.go:369-382 | in every run, overlaps included, a query's timeout and row cap are never from older rules than its check |
| RulePublication.EndsAgreeExactlyWhen | internal/server/http.go:244-250 | when all updates are done, the checker (the rewriter) has the newest rules if and only if no older update reached it after the newest one |
| RulePublication.LagsExactlyWhen | internal/mcp/tools.go:162-165 | without overlaps, a query that reads the rewriter is rewritten under older rules than it was checked under if and only if the newest update has reached the checker and not the rewriter, and the query was checked after that |
| RulePublication.RewriterLagsBehindCheck | internal/mcp/tools.go:162-165 | a run in which that happens |
| RulePublication.OverlapLeavesOldRules | internal/server/http.go:244-250 | two overlapping updates, all done, can leave the older rules in checker and rewriter |
| RulePublication.OverlapSplitsTheRules | internal/mcp/tools.go:162-165 | or the newer rules in the checker and the older ones in the rewriter |
| Server.RulesAfterUpdates | internal/server/http.go:244-250 | after any sequence of updates checker and rewriter hold the rules of the last update that had any, or those of the start, and the configuration those of the last update |
| Server.RulesAgreeExactlyWhen | internal/server/http.go:244-250 | after any sequence of updates checker and rewriter agree; the configuration agrees with them exactly when the last update had rules or none ever did |
| Server.Server.UpdateConfig | internal/server/http.go:244-261 | afterwards the configuration, and if there are rules the checker and the rewriter, hold the rules given; without rules those two keep theirs; the pool is settled |
| Server.Server.New | internal/server/http.go:42-95 | a new server's components start from the same rules, with exactly the configured clusters |
| Server.Handler.UpdateSecurityRules | internal/mcp/tools.go:162-165 | checker and rewriter both get the rules |
| WatcherTracking.SyncedExactlyWhen | internal/config/watcher.go:155-226 | in every run, with overlapping reloads and writes at any time: if neither file was written since the reload delivered last had loaded it, the delivered pair equals the files; if every write brings content that no reload under way has loaded and that was not delivered last, it equals them only then |
| WatcherProofs.UnchangedMeansSynced | internal/config/watcher.go:155-226 | in every orderly run, between reloads, files no newer than recorded equal the last delivered pair |
| WatcherProofs.PollSyncs | internal/config/watcher.go:203-226 | a poll whose loads succeed brings delivered pair and files into agreement |
| WatcherProofs.FailedLoadIsRetried | internal/config/watcher.go:155-169 | a reload that fails on either file delivers and records nothing, so a pending change stays pending |
| WatcherProofs.TriggerSyncs | internal/config/watcher.go:141-187 | a reload started by an event or a signal, whose loads succeed, does so whether or not anything looks newer |
| WatcherProofs.WriteBeforeStatIsLost | internal/config/watcher.go:171-180 | in every state of an orderly run, writes to either file after the loads leave nothing newer than recorded, and the delivered pair agrees with the files exactly when the contents are those loaded; polls do not notice |
| WatcherProofs.WriteBetweenLoadsIsLost | internal/config/watcher.go:155-180 | the same for the configuration file written between the two loads |
| WatcherProofs.OverlappingReloadsDeliverOldContent | internal/config/watcher.go:155-187 | if a second reload overtakes one that has not delivered yet, the older delivers last, and the server is up to date then exactly when the files hold what that one had loaded |
| Watcher.Watcher.Reload | internal/config/watcher.go:155-187 | calls every callback once, in order, with the loaded pair, and records the times; does nothing if a load fails |
| Watcher.Watcher.CheckMtime | internal/config/watcher.go:203-226 | reloads exactly when a watched file is newer than recorded |
| Watcher.ReloadTakesTheModelsSteps | internal/config/watcher.go:155-187 | with any writes between its reads, a reload delivers and records what the steps of the model do |

## Left out

- The TiDB parser, the MySQL driver, `database/sql`, HTTP, the MCP protocol, JWT, fsnotify, YAML, environment-variable expansion, audit and metrics: foreign code or I/O; their answers are parameters.
- `executeQuery` beyond its check, its rewrite and its reads of the rules: parsing, an empty parse, audit records, execution and the reading of rows.
- The LIMIT results speak of the text, as the code does: a match inside a comment or a string literal is a match.
- Hot reload of the database routing: `Server.UpdateConfig` does not perform it.
- `NewTestPool`: a pool without configurations, built only by tests.
- Unicode case folding and white space; MySQL collations and the `NO_BACKSLASH_ESCAPES` mode.
- The infinite rate and the floating-point rounding of `golang.org/x/time/rate`; its buckets follow the package's documentation over the reals.
- Extraction of the client address (`getRealIP`), `setDefaults`, range checks of clusters, audit truncation: easy members only.
- PoolDrain.GracefulDrain: holds while fewer than 2^32 handles to the entry were ever given, because at 2^32 the count reads zero (`PoolWrap.UnreleasedGetsWrap`).
- PoolModel.Next: in runs, a handle is released at most once (`Pool.Pool.GiveBack`); the effect of a release without a handle is stated for one call only (`Pool.Pool.Release`).
- PoolLock.ReleaseNeedsNoDrain: the mutex's queue and its preference for writers are not modelled; the result says that a release can go through, not that it is scheduled.
- Query.UnguardedWritesAreLimited: says that the clause is read as code, not what it does there; in a text of several statements it belongs to the last one, while the parser looks at the first.
- Policy.Check: its reasons, like the errors of `Policy.Validate`, are messages; which of several is given is not stated.
- LimitPages.RowCount: a comment between the numbers of a clause is not looked through.
- SqlText.EndsOpen: MySQL's version comments (`/*! */`) are read as comments, and the `ANSI_QUOTES` mode is not modelled.
- Pool.Pool.UpdateConfig: states an undisturbed call; interleaved calls are the subject of `PoolConvergence`, `PoolDrain` and `PoolOverlap`.
- WatcherProofs.UnchangedMeansSynced: assumes that no file is written between the server's first load and the creation of the watcher.
- WatcherModel.Next: a reload's callbacks run as one step; a callback that is registered while a reload is under way is not modelled.
- Server.Server.New: leaves out the failure of the JWT validator and of the audit logger.
