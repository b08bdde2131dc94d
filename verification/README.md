# Najm, modelled and proved

Najm is a set of TypeScript packages for server applications. This project models the parts of it
whose promises are hardest to see from the code, and proves those promises for every input, every
call tree, every interleaving or every history, as the case may be.

- **Transactions** (`TransactionService`, and the repository getter of `DatabaseService`).
  `SqliteQueue` is the promise chain of one synchronous SQLite client as a step machine: any number
  of calls, interleaved at every `await`, retries going back to the end of the queue. `SqliteClient`
  is the same protocol as code over mutable fields, each method tied to a step of the machine.
  `SqliteClients` puts any number of such clients together, with bodies that await inner calls on
  any of them, and `SqliteDeadlock` says exactly which calls can still get on.
  `TransactionTree` gives the meaning of a whole tree of nested, joined, retried and failing runs on
  several databases as a list of events; `TransactionProtocol` is an independent referee that reads
  only the events; `TransactionCounts` counts over whole traces, `TransactionRetries` says which
  attempts there are and what is raised; `TransactionService` is the code.
- **Content Security Policy** (`security.ts`, `app.ts`). `CspParser` is the parser of section 2.2.1
  of Content Security Policy Level 3 with its round trip, `Csp` the token language and the intended
  policy, `CspPolicy` the generator and what a browser reads back; `CspSources` tells the accepted
  sources by how they are written, `CspMeaning` the accepted options and the policy field by field.
- **Scanners** (`McpBuilderService`). `Scanner` holds the three scanning loops over one automaton,
  `ScannerLaws` conservation, uniqueness, agreement and the parameter-list round trip.
- **Rate limiting** (`RateLimitService`, `MemoryDriver.incr`, `clientAddress`). `RateLimit` defines
  windows on histories without counters and bounds admissions over time, `RateLimiter` is the
  service with its counters and index, `ClientAddress` the normaliser and the trusted-hop choice,
  `AddressMeaning` the addresses that accepted texts denote by section 2.2 of RFC 4291,
  `AddressChoice` which texts have which key and whose text decides.
- **Translations** (`I18nService`, `defineI18n`, `translator`). `Catalogue` is the layered merge with
  its lookup law, `Scope` the projection onto a branch and what it does to lookups.
- **Stateful services.** `SingleFlight` (`CacheService.getOrSet`), `SeedTable`, `Seed` and
  `SeedLaws` (`SeedService`), `DatabaseClose` (`DatabaseService`).
- `Base`, `Text` and `Numerals` hold shared datatypes, string operations and decimal numerals.

## What the proofs found

- A source with a non-ASCII path, such as `https://a/é`, is accepted by `isNajmCspSource`, but a
  browser drops the whole directive it stands in. The printed policy is read back as meant if and
  only if every supplied source is ASCII (`CspPolicy.BrowserReads`). With that source for a script,
  the policy is printed and the browser enforces no script-src (`CspPolicy.ScriptSrcIsLost`).
- Calls on synchronous SQLite clients can deadlock, also across clients: `run(A) { run(B) }` beside
  `run(B) { run(A) }` stops both for ever (`SqliteDeadlock.CrossedCallsHappen`). A call that is
  queued or running never moves again if and only if following who waits for whom leads into a
  cycle (`SqliteDeadlock.StuckIffCycle`), and an inner call closes one exactly when the head of the
  queue it joins waits for its caller, or is stuck already (`SqliteDeadlock.NestingDeadlocks`). A
  second name on the caller's own client is the simplest case
  (`SqliteDeadlock.SecondNameWaitsOnItself`).
- In any windowMs consecutive milliseconds a key admits at most 2 * limit - 1 requests. Each removal
  of the counter in between, by `reset` or by the memory driver's eviction at `maxKeys`, allows
  `limit` more (`RateLimit.BoundOverTime`). The bound is reached for every limit, every window of at
  least two milliseconds and every number of removals (`RateLimit.BoundIsReached`).
- `scope(p).translate(k)` and `translate(p.k)` agree exactly when the language has the branch, or no
  dictionary, or answers what the default language answers, or answers nothing and falls back
  (`Scope.ScopePreservesLookup`); lists on the path make scoping twice differ from scoping once
  (`Scope.ScopesCompose`, `Scope.ScopesCanDiffer`).
- Text in front of a forwarded chain is harmless for all chains of a length exactly when the chain
  is longer than the declared hops; whole entries are harmless from equality on
  (`ClientAddress.PrependedText`, `ClientAddress.PrependedEntriesAreIgnored`).
- Of the texts of one address, two have one key exactly when they differ in letter case alone or are
  both dotted; `::1` and `0::1` keep separate keys (`AddressMeaning.KeysOfOneAddress`,
  `ClientAddress.SpellingsKeepTheirKeys`). Texts that denote no address are accepted as well, such as
  `:` and `1:2` (`AddressMeaning.JunkIsAccepted`), and of the addresses exactly those with a dotted
  tail behind anything but `::ffff:` are refused and share one bucket, such as
  `0:0:0:0:0:ffff:1.2.3.4`; both conditions are exact (`AddressMeaning.AcceptedAddresses`,
  `AddressMeaning.RefusedAddresses`, `AddressMeaning.LongMappedIsRefused`).
- `CacheService.destroy` keeps single flight if and only if no call is pending: from any other state
  some run has two factories of one key in flight (`SingleFlight.DestroyIsSafe`).
- Offering the same rows a second time inserts nothing, or replacing with them changes nothing, if
  and only if every row carries its unique key (`SeedTable.SameRowsAgain`,
  `SeedTable.SameReplacedAgain`).
- A seed run in a PostgreSQL transaction with `failFast` off commits nothing once an insert has
  failed, yet reports the rows inserted before as inserted (`Seed.ReportCountsGrowth`,
  `Seed.ReportOfNothing`).
- Merging catalogues is associative exactly where no leaf of the middle layer stands between an
  object of the lower layer and one of the upper that is silent about something the lower holds
  (`Catalogue.GroupingMatters`).
- A user's translations are merged without being checked, unlike contributions: a language whose
  value is null throws (`Catalogue.MergeContributedTranslations`, `Catalogue.NullLanguageThrows`).
- `onDestroy` closes once: databases registered after its first call are never closed by it
  (`DatabaseClose.DatabaseService.OnDestroy`).

## Assumptions

- ROLLBACK succeeds, a COMMIT that fails commits nothing, and nobody bypasses the service with the
  raw client. BEGIN, COMMIT, ROLLBACK, statements and callbacks succeed or fail as an input says.
- A body that awaits no other call finishes some time, and a body awaits one inner call at a time.
- In call trees (`TransactionTree`) no two database names share a SQLite client that is in use;
  what happens when they do is the subject of `SqliteDeadlock`.
- The cache's increment is atomic and time does not run backwards. A `reset` runs alone: no request
  of the same key is between remembering its key and its increment.
- A definition's table names are distinct, and a table has one unique key, which the entry names.
- After a failed statement PostgreSQL refuses the rest of the transaction, and its COMMIT rolls back
  without an error.
- Strings are sequences of Unicode characters; lower-casing is ASCII lower-casing, which decides
  every comparison made here.

## Model

| member | source | states |
|---|---|---|
| SqliteQueue.StepKeepsInv | packages/najm-database/src/TransactionService.ts:422-461 | every step of every call keeps: released promises are a prefix of those created, each waiter waits for the promise before its own, the map entry is the last one, and an open transaction belongs to the first in line |
| SqliteQueue.FifoLock | packages/najm-database/src/TransactionService.ts:422-461 | in every reachable state at most one call is between BEGIN and COMMIT/ROLLBACK, calls got in in registration order, the entry is the tail and absent exactly when nobody is outstanding, and the head waits for nobody in the queue |
| SqliteQueue.MutualExclusion | packages/najm-database/src/TransactionService.ts:422-430 | two running calls are the same call, and it is the head of the queue |
| SqliteQueue.EntersInOrder | packages/najm-database/src/TransactionService.ts:424-428 | whoever passes `await previous` is the next in registration order |
| SqliteQueue.EntryIsTail | packages/najm-database/src/TransactionService.ts:427-460 | the map entry is absent if and only if no call holds a ticket, and is otherwise owned by the youngest |
| SqliteQueue.AheadAfterStep | packages/najm-database/src/TransactionService.ts:424-460 | whom a call waits for in the queue changes by its own steps alone, when that call leaves, or, for a call that has not joined yet, when another joins |
| SqliteClients.EveryClientIsSerialisable | packages/najm-database/src/TransactionService.ts:317-462 | with any number of clients and inner calls across them, and inner bodies that write on the transactions of the calls awaiting them, every client's database is the replay of its commit log |
| SqliteClients.ClientsAreQueues | packages/najm-database/src/TransactionService.ts:422-427 | whatever the clients do to one another, each has made a run of its own queue |
| SqliteDeadlock.StuckIffCycle | packages/najm-database/src/TransactionService.ts:424-428 | a queued or running call never changes again, in any continuation, if and only if following who waits for whom from it leads into a cycle |
| SqliteDeadlock.HeadStuckIffCycle | packages/najm-database/src/TransactionService.ts:424-428 | so for the head of every client's queue in every reachable state |
| SqliteDeadlock.HistoryKeepsClosed | packages/najm-database/src/TransactionService.ts:424-428 | calls that wait for one another and nobody else stay as they are for ever |
| SqliteDeadlock.Unblock | packages/najm-database/src/TransactionService.ts:424-460 | off the cycles the calls ahead can be served one after another, and nobody else is touched |
| SqliteDeadlock.NestingDeadlocks | packages/najm-database/src/TransactionService.ts:277-291 | an inner call closes a cycle if and only if the queue it joins is not empty and its head waits, through any number of calls, for the caller, or is stuck already |
| SqliteDeadlock.SecondNameWaitsOnItself | packages/najm-database/src/TransactionService.ts:416-428 | an inner call under a second name on the caller's own client: stuck at once and for ever |
| SqliteDeadlock.CrossedCallsDeadlock | packages/najm-database/src/TransactionService.ts:277-428 | two calls on two clients that await inner calls on each other's client are both stuck for ever, neither by a second name |
| SqliteDeadlock.CrossedCallsHappen | packages/najm-database/src/TransactionService.ts:277-428 | such a state is reached from two empty databases |
| SqliteDeadlock.WriterIsOutside | packages/najm-database/src/TransactionService.ts:277-445 | a call on whose transaction a body can still write, its own or one that it awaits at any depth and that rejoins it, is never among calls that wait for one another and nobody else |
| SqliteQueue.StepRefinesSerial | packages/najm-database/src/TransactionService.ts:407-462 | each step of the interleaved machine is nothing, a caller joining the queue, or one whole attempt of its first caller run alone |
| SqliteQueue.Serialisable | packages/najm-database/src/TransactionService.ts:317-462 | in every reachable state the committed database is the committed bodies replayed one after another in COMMIT order; failed attempts leave no trace and an open one has seen only the committed state and its own writes |
| SqliteQueue.RunCommitsOnce | packages/najm-database/src/TransactionService.ts:325-350 | over a whole run each call makes at most retries + 1 attempts, one ticket each, and is in the commit log exactly once if it committed and not at all otherwise |
| SqliteQueue.AttemptsEnd | packages/najm-database/src/TransactionService.ts:325-350 | a call goes back to the end of the queue if and only if its attempt failed with an error worth another and one is left; any other failure is final, and so is a COMMIT; no other step changes this |
| SqliteQueue.FailedForAReason | packages/najm-database/src/TransactionService.ts:338-346 | in a run a call has failed for good only by an error not worth another attempt, or after retries + 1 attempts |
| SqliteClient.Client.Register | packages/najm-database/src/TransactionService.ts:424-427 | the caller joins the end of the queue; the state is the machine's next state |
| SqliteClient.Client.Begin | packages/najm-database/src/TransactionService.ts:428-430 | only the first caller gets here, with nothing open; a failing BEGIN makes it leave |
| SqliteClient.Client.Exec | packages/najm-database/src/TransactionService.ts:444 | a statement changes the working copy only |
| SqliteClient.Client.Finish | packages/najm-database/src/TransactionService.ts:448-461 | the first caller leaves the queue, and the database becomes the working copy on COMMIT and stays on ROLLBACK |
| SqliteClient.Client.Release | packages/najm-database/src/TransactionService.ts:459-460 | the promise is resolved and the entry deleted only if it is still this one |
| TransactionProtocol.RunAccepted | packages/najm-database/src/TransactionService.ts:271-405 | every run of every call tree, in every scope and however it ends, satisfies the referee: nested BEGIN/COMMIT/ROLLBACK, one transaction per database, getters and hooks see it, getDepth is the number of runs inside one another, and exactly the callbacks registered in the ended attempt run next, each once, in order |
| TransactionProtocol.TopLevelRunAccepted | packages/najm-database/src/TransactionService.ts:271-296 | a run from outside is accepted from nothing and leaves nothing open or due |
| TransactionProtocol.RetryAccepted | packages/najm-database/src/TransactionService.ts:317-351 | each failed attempt's rollback callbacks all run before anything of the next attempt |
| TransactionProtocol.ExecuteAccepted | packages/najm-database/src/TransactionService.ts:353-405 | one attempt opens and ends one transaction and leaves due the commit or the rollback callbacks of that attempt |
| TransactionProtocol.BodyAccepted | packages/najm-database/src/TransactionService.ts:442-445 | what a body does inside keeps the referee where it was, but for the callbacks it registered |
| TransactionProtocol.PerformAccepted | packages/najm-database/src/DatabaseService.ts:188-205 | a repository sees the active transaction of its database, or the raw database when none is active |
| TransactionProtocol.HookAccepted | packages/najm-database/src/TransactionService.ts:246-255 | a commit callback is kept, or run at once outside a transaction; a rollback callback is kept or ignored |
| TransactionProtocol.AcceptsFlush | packages/najm-database/src/TransactionService.ts:257-265 | flushing runs all due callbacks in order, whichever throw |
| TransactionCounts.RunQuiet | packages/najm-database/src/TransactionService.ts:277-286 | inside an active transaction no run begins, commits or rolls it back |
| TransactionCounts.ExecuteCounts | packages/najm-database/src/TransactionService.ts:353-405 | an attempt begins at most once and ends what it began, by COMMIT exactly when it returned |
| TransactionCounts.RetryCounts | packages/najm-database/src/TransactionService.ts:325-350 | at most one BEGIN per attempt left, at most one commit, and every other BEGIN rolled back |
| TransactionCounts.RetryPersists | packages/najm-database/src/TransactionService.ts:325-350 | a run that raises a retriable error, with no rollback callback throwing, has used all its attempts |
| TransactionCounts.OutermostCounts | packages/najm-database/src/TransactionService.ts:271-351 | over a whole outermost run: at most retries + 1 BEGINs and one commit, even when a commit callback throws |
| TransactionRetries.RetryStops | packages/najm-database/src/TransactionService.ts:317-351 | a run tries again exactly after an attempt whose error is worth it, none of whose rollback callbacks threw, while attempts are left; when it stops, only the rollback callbacks of the last attempt follow, and it raises the first error one of them threw, or else the attempt's own |
| TransactionRetries.RunStops | packages/najm-database/src/TransactionService.ts:277-296 | the same for a whole run, with the commit callbacks after a commit and the first error that one of them threw |
| TransactionRetries.BeginsAreAttempts | packages/najm-database/src/TransactionService.ts:325-350 | the whole trace holds as many BEGINs as attempts up to the one that stops the run, and no more |
| TransactionRetries.AttemptMeans | packages/najm-database/src/TransactionService.ts:353-405 | an attempt begins unless there are no transactions or BEGIN fails, and raises the first failure of BEGIN, entry hook, body and COMMIT |
| TransactionRetries.FirstFailures | packages/najm-database/src/TransactionService.ts:257-265 | the error reported of callbacks is that of the first that threw, and none if and only if all returned |
| TransactionRetries.RetriableErrors | packages/najm-database/src/TransactionService.ts:481-496 | exactly five phrases in the message, in any case, or four codes make an error worth another attempt |
| TransactionRetries.OperationShows | packages/najm-database/src/TransactionService.ts:235-255 | what each operation of a body shows and raises |
| TransactionRetries.BodyStops | packages/najm-database/src/TransactionService.ts:442-445 | a body performs its operations up to the first that raises, and raises that error |
| TransactionService.Service.Run | packages/najm-database/src/TransactionService.ts:271-296 | the code does what the tree means and leaves active transactions and depth as it found them on every exit |
| TransactionService.Service.ExecuteWithRetries | packages/najm-database/src/TransactionService.ts:317-351 | the attempt loop is the recursive meaning of its attempts |
| TransactionService.Service.ExecuteTransaction | packages/najm-database/src/TransactionService.ts:353-405 | one attempt, with the scope restored however the body ends |
| TransactionService.Service.ContainerRun | packages/najm-database/src/TransactionService.ts:368-384 | the new scope lasts exactly as long as the hook and the body |
| TransactionService.Service.Perform | packages/najm-database/src/TransactionService.ts:246-255 | hooks and getters go through the scope of the moment |
| TransactionService.Service.FlushCallbacks | packages/najm-database/src/TransactionService.ts:257-265 | all callbacks run in order; the first error is the one reported |
| CspParser.TokenRoundTrip | packages/najm-next/src/security.ts:243-260 | a printed directive is read back as it was, or dropped whole when it is not ASCII |
| CspParser.ParsePrint | packages/najm-next/src/security.ts:243-260 | the parser of CSP Level 3, section 2.2.1, reads any printed policy of distinct safe directives back, but for those that are not ASCII |
| Csp.SourceIsContained | packages/najm-next/src/app.ts:133-146 | an accepted source holds no whitespace, semicolon or comma and is neither eval nor a wildcard |
| CspSources.SourceTexts | packages/najm-next/src/app.ts:118-146 | a source is accepted if and only if it is one of six words, or https in any case, an optional `*.`, labels of letters, digits and hyphens with dots between, an optional port of one to five digits and an optional path without spaces, quotes, parentheses, separators, backslash and @ |
| Csp.NonceIsContained | packages/najm-next/src/security.ts:106-125 | an accepted nonce cannot end a value, and its source is none of the keywords |
| Csp.DedupedMembers | packages/najm-next/src/security.ts:127-137 | deduplication keeps exactly the members |
| Csp.DedupedOrder | packages/najm-next/src/security.ts:127-137 | in the order of their first occurrence, so none twice |
| Csp.Dedupe | packages/najm-next/src/security.ts:127-137 | the loop over a seen set computes it |
| CspPolicy.CreateNajmCsp | packages/najm-next/src/security.ts:176-261 | succeeds exactly for the accepted inputs, and then prints the intended sixteen directives |
| CspMeaning.AcceptedInputs | packages/najm-next/src/security.ts:139-241 | which inputs are accepted, list by list: sources everywhere, no `'none'` among the extras and scripts, inline scripts only as overrides in development, and a `'none'` frame alone in the three frame lists together |
| CspMeaning.PolicyMeans | packages/najm-next/src/security.ts:204-260 | each of the sixteen directives holds its own words, then the sources of the application, of the location and of the overrides, each once in the order of first occurrence |
| CspMeaning.BrowserReadsIntended | packages/najm-next/src/security.ts:176-261 | a browser reads nothing but these directives, each exactly when all its sources are ASCII |
| CspPolicy.CheckSourceList | packages/najm-next/src/app.ts:322-337 | the list checks of an application definition, both directions |
| CspPolicy.CheckOverrideSources | packages/najm-next/src/security.ts:139-154 | accepts exactly the lists of accepted sources; its own ban on eval never fires |
| CspPolicy.CheckLocation | packages/najm-next/src/security.ts:156-198 | accepts exactly the contributions of accepted sources without inline scripts |
| CspPolicy.BrowserReads | packages/najm-next/src/security.ts:176-261 | what a browser reads from an accepted policy is the sixteen directives, each with its deduplicated sources in order, if and only if every supplied source is ASCII, and otherwise those whose supplied sources are |
| CspPolicy.OnePolicy | packages/najm-next/src/security.ts:243-260 | the text holds no comma, so the header is one policy |
| CspPolicy.ProductionScriptSrc | packages/najm-next/src/security.ts:210-226 | a script-src read in production has the nonce and neither eval nor inline, and is there exactly when the supplied script sources are ASCII |
| CspPolicy.PathIsAccepted | packages/najm-next/src/app.ts:118-146 | every path of permitted characters is accepted, ASCII or not |
| CspPolicy.NonAsciiSourceIsAccepted | packages/najm-next/src/app.ts:133-146 | a concrete source that is accepted and that a browser cannot read |
| CspPolicy.ScriptSrcIsLost | packages/najm-next/src/security.ts:176-261 | with it as a script source, and any nonce, the input is accepted, the policy printed, and no script-src read |
| CspPolicy.PolicyWithoutScriptSrc | packages/najm-next/src/security.ts:176-261 | there are such inputs: an accepted nonce and accepted options whose printed policy is read without a script-src |
| CspPolicy.OneScriptIsAccepted | packages/najm-next/src/security.ts:176-226 | one accepted script source, neither inline nor none, makes an accepted input |
| Scanner.SplitTopLevel | packages/najm-mcp/src/McpBuilderService.ts:548-571 | the loop returns the pieces of the automaton without a blank last one |
| Scanner.SliceBeforeTopLevel | packages/najm-mcp/src/McpBuilderService.ts:587-605 | on every input, balanced or not, the slice is the first piece |
| Scanner.FindEnd | packages/najm-mcp/src/McpBuilderService.ts:518-540 | the loop finds the bracket that brings the depth back to 0, or none |
| Scanner.ParameterName | packages/najm-mcp/src/McpBuilderService.ts:573-585 | the last word before the default and the type; nothing for destructured and rest parameters |
| Scanner.ParseParameterList | packages/najm-mcp/src/McpBuilderService.ts:518-546 | the names of the parts between the first bracket and its end |
| ScannerLaws.CutIsUnique | packages/najm-mcp/src/McpBuilderService.ts:548-571 | a list is the cut of a text if and only if no piece holds a separator at depth 0 outside a literal, all but the last end there, and it joins to the text |
| ScannerLaws.SplitConserves | packages/najm-mcp/src/McpBuilderService.ts:548-571 | the parts joined by the separator rebuild the input up to a dropped blank last piece |
| ScannerLaws.SliceAgreesWithSplit | packages/najm-mcp/src/McpBuilderService.ts:587-605 | the slice is the first part, unless the only part was blank and dropped |
| ScannerLaws.ChunkPasses | packages/najm-mcp/src/McpBuilderService.ts:548-605 | plain text, complete literals with escapes and nested brackets leave the automaton where it was, uncut |
| ScannerLaws.ParamPasses | packages/najm-mcp/src/McpBuilderService.ts:518-571 | so does a printed parameter |
| ScannerLaws.NameOfParam | packages/najm-mcp/src/McpBuilderService.ts:573-585 | the name is recovered whatever modifiers, annotation and default there are; patterns and rest parameters have none |
| ScannerLaws.ParameterListRoundTrip | packages/najm-mcp/src/McpBuilderService.ts:518-605 | from any function text with such parameters exactly the names of those that have one come back, in order |
| ScannerLaws.EndIsFirst | packages/najm-mcp/src/McpBuilderService.ts:522-540 | the end found is the first bracket outside literals that closes the first one opened, and there is none only if there is no such bracket |
| ScannerLaws.NoListNoNames | packages/najm-mcp/src/McpBuilderService.ts:518-542 | without an opening bracket, or with one never closed, there are no names |
| ScannerLaws.DepthCounts | packages/najm-mcp/src/McpBuilderService.ts:548-571 | outside literals the depth is brackets opened less brackets closed, however they match |
| RateLimit.FirstOfWindow | packages/najm-rate/src/RateLimitService.ts:189-195 | a request is admitted if and only if fewer than `limit` requests on its key came before it since its window opened |
| RateLimit.CounterIsWindow | packages/najm-cache/src/drivers/MemoryDriver.ts:124-157 | a counter holds the number of requests of its window and expires with it |
| RateLimit.LastOfWindow | packages/najm-cache/src/drivers/MemoryDriver.ts:124-157 | what an increment returns is the request's place in its window and the window's end |
| RateLimit.KeysAreIndependent | packages/najm-rate/src/RateLimitService.ts:189-192 | a key's counter depends on that key's events alone, whatever is interleaved |
| RateLimit.BoundOverTime | packages/najm-rate/src/RateLimitService.ts:163-226 | with monotone time a key admits fewer than (2 + removals) * limit requests in any windowMs consecutive milliseconds |
| RateLimit.BoundIsReached | packages/najm-rate/src/RateLimitService.ts:189-195 | for every limit, every window of two milliseconds or more and every number of removals, a run that admits exactly (2 + removals) * limit - 1 requests in the interval |
| RateLimiter.Limiter.Request | packages/najm-rate/src/RateLimitService.ts:163-226 | the decision is that of the windows, `remaining` is the window's rest, `resetAt` its end, and Retry-After the least number of seconds, at least one, that reaches it; the index and the counters keep agreeing with the history |
| RateLimiter.Limiter.Incr | packages/najm-cache/src/drivers/MemoryDriver.ts:124-157 | the next count and expiry; a new key at maxKeys drops what has expired and, if that is not enough, the oldest other counter, and no other changes |
| RateLimiter.Limiter.MakeRoom | packages/najm-cache/src/drivers/MemoryDriver.ts:138-144 | the oldest live key goes exactly when the live keys alone fill the store, unless it is the empty key |
| RateLimiter.CoveredAfterHit | packages/najm-rate/src/RateLimitService.ts:304-311 | remembering a key keeps every counter indexed under every base key that made requests on it, the new pair included |
| RateLimiter.Limiter.ForgetKey | packages/najm-rate/src/RateLimitService.ts:332-344 | a base key is dropped whole, any other key from every set, empty sets going too |
| RateLimiter.CandidatesCover | packages/najm-rate/src/RateLimitService.ts:313-330 | every counter a base key made requests on since its last reset is among its candidates |
| RateLimiter.CandidatesAre | packages/najm-rate/src/RateLimitService.ts:313-330 | the candidates are the key's own counter, first, and those indexed under it |
| RateLimiter.Limiter.Check | packages/najm-rate/src/RateLimitService.ts:378-391 | the first live candidate is reported with its count and expiry: the key's own counter, then those of its requests in the order they were first made; nothing is reported only if no live counter had a request under this base key since its last reset |
| RateLimiter.Limiter.ResetKey | packages/najm-rate/src/RateLimitService.ts:396-405 | no counter that the base key made requests on is left, every other is untouched and still indexed; the base key is indexed no more, nor are its counters under any other |
| RateLimiter.RequestRecorded | packages/najm-rate/src/RateLimitService.ts:189-192 | a request keeps every counter indexed under every base key that made requests on it, and the store equal to the history |
| ClientAddress.NormalizeIpv4 | packages/najm-rate/src/clientAddress.ts:42-52 | the octet loop accepts four unpadded numbers up to 255 |
| ClientAddress.Ipv4Texts | packages/najm-rate/src/clientAddress.ts:42-52 | a text is accepted if and only if it is the print of four octets |
| ClientAddress.DottedIsInjective | packages/najm-rate/src/clientAddress.ts:42-52 | distinct addresses print differently, so they have distinct keys |
| ClientAddress.NormalizeIpv6 | packages/najm-rate/src/clientAddress.ts:54-77 | the checks and the group loop, mapped addresses first |
| ClientAddress.MappedSharesKey | packages/najm-rate/src/clientAddress.ts:57-60 | the `::ffff:` spelling of the dotted mapped form in any case, bare or in brackets, with or without a port after them, has the key of its IPv4 form |
| ClientAddress.KeysAreFixed | packages/najm-rate/src/clientAddress.ts:83-107 | every key normalises to itself, has at most 45 characters and is not `unresolved` |
| ClientAddress.SpellingsKeepTheirKeys | packages/najm-rate/src/clientAddress.ts:54-77 | `::1` and `0::1` are both accepted, under different keys |
| AddressMeaning.AcceptedAddresses | packages/najm-rate/src/clientAddress.ts:54-76 | a lower-case text is an IPv6 address by section 2.2 of RFC 4291, in any of its three forms, and accepted, if and only if it has no dot and is well placed (eight groups, or at most seven around a `::`, and no colon alone at an end), or is `::ffff:` with four octets |
| AddressMeaning.RefusedAddresses | packages/najm-rate/src/clientAddress.ts:83-107 | an IPv6 address has no key, bare or in brackets, if and only if it has a dotted tail and is not the `::ffff:` spelling |
| AddressMeaning.LongMappedIsRefused | packages/najm-rate/src/clientAddress.ts:98-102 | `0:0:0:0:0:ffff:1.2.3.4` is an address, the IPv4-mapped one of 1.2.3.4, and is refused, where `::ffff:1.2.3.4` has the key of that IPv4 address |
| AddressMeaning.PlainAddresses | packages/najm-rate/src/clientAddress.ts:62-76 | a text of hexadecimal groups is an address if and only if the group loop accepts it and it is well placed |
| AddressMeaning.AcceptedDenotes | packages/najm-rate/src/clientAddress.ts:83-107 | an accepted text denotes an address if and only if it is dotted or well placed |
| AddressMeaning.KeysOfOneAddress | packages/najm-rate/src/clientAddress.ts:54-107 | accepted texts of one address have one key if and only if they agree but for letter case or are both dotted |
| AddressMeaning.KeysSeparateAddresses | packages/najm-rate/src/clientAddress.ts:54-107 | texts with one key denote the same |
| AddressMeaning.OneAddressTwoKeys | packages/najm-rate/src/clientAddress.ts:54-77 | `::1` and `0::1` denote one address and have two keys |
| AddressMeaning.JunkIsAccepted | packages/najm-rate/src/clientAddress.ts:62-76 | `:` and `1:2` are accepted under keys of their own and denote nothing |
| AddressChoice.GroupTexts | packages/najm-rate/src/clientAddress.ts:62-76 | the texts of groups accepted, denoting an address or not: fields of at most four hexadecimal digits between colons, at most eight not empty, and at most one place with two colons in a row |
| AddressChoice.KeyTexts | packages/najm-rate/src/clientAddress.ts:83-107 | a text has a key if and only if, blanks around it aside, it has at most 45 characters and is four octets, the `::ffff:` spelling, a text of groups, or one of the last two in brackets with anything behind |
| AddressChoice.PeerDecides | packages/najm-rate/src/clientAddress.ts:178-195 | without declared proxies, or with none given, the result is the key of the socket peer whatever the header, and `unresolved` exactly when it has none |
| AddressChoice.EntryDecides | packages/najm-rate/src/clientAddress.ts:210-234 | with n proxies and a chain of at least n entries the result is the key of the n-th entry from the end, whatever the others and the peer are, and `unresolved` exactly when it has none |
| AddressChoice.NobodyDecides | packages/najm-rate/src/clientAddress.ts:150-222 | a missing or short chain gives `unresolved`; only a negative number of proxies is an error |
| ClientAddress.ResultIsKey | packages/najm-rate/src/clientAddress.ts:170-234 | whatever the headers, the result is `unresolved` or a bounded key that normalises to itself |
| ClientAddress.PrependedEntriesAreIgnored | packages/najm-rate/src/clientAddress.ts:210-226 | entries in front of a chain of at least `hops` entries change nothing |
| ClientAddress.PrependedText | packages/najm-rate/src/clientAddress.ts:210-226 | text run into the first entry is harmless for all chains of a length if and only if there are more entries than hops |
| Catalogue.DeepClone | packages/najm-i18n/src/I18nService.ts:254-267 | the recursive loop cleans the dangerous keys away at every depth |
| Catalogue.MergeObjects | packages/najm-i18n/src/I18nService.ts:228-252 | the two loops build the field-by-field merge |
| Catalogue.DeepMerge | packages/najm-i18n/src/I18nService.ts:206-226 | the loops over languages, whatever their values are; it throws exactly when a language that is not dangerous has no value |
| Catalogue.MergeContributedTranslations | packages/najm-i18n/src/I18nService.ts:157-185 | the valid contributions in order and the user's translations last, unchecked, a missing value among them throwing |
| Catalogue.InvalidIsSkipped | packages/najm-i18n/src/I18nService.ts:168-176 | a contribution of the wrong shape is as if it had not been made |
| Catalogue.NullLanguageThrows | packages/najm-i18n/src/I18nService.ts:206-226 | user translations on which it throws |
| Catalogue.MergeLaw | packages/najm-i18n/src/I18nService.ts:206-252 | lookup in a merge along every safe path: the source's value, the merge of two objects, or the target's value unless a source leaf covers the path |
| Catalogue.NothingDangerous | packages/najm-i18n/src/I18nService.ts:206-267 | no path through a dangerous key leads anywhere in a merge |
| Catalogue.DangerousKeys | packages/najm-i18n/src/I18nService.ts:206-267 | these are `__proto__`, `constructor` and `prototype`, wherever in a path |
| Catalogue.MergedWithSelf | packages/najm-i18n/src/I18nService.ts:228-267 | merging a value with itself cleans it |
| Catalogue.MergedClean | packages/najm-i18n/src/I18nService.ts:234-246 | cloning the target before merging changes nothing |
| Catalogue.EntriesByIndex | packages/najm-i18n/src/I18nService.ts:206-226 | a text or a list in place of an object is taken by its indices |
| Catalogue.LastLayerWins | packages/najm-i18n/src/I18nService.ts:157-185 | the last layer that says anything at a path decides it, whatever the layers below hold |
| Catalogue.GroupingMatters | packages/najm-i18n/src/I18nService.ts:157-185 | the two groupings of three layers differ if and only if at some safe path the middle one has a leaf between objects of the others, and the lower object holds something where the upper is silent |
| Catalogue.MergedAdds | packages/najm-i18n/src/I18nService.ts:228-252 | merging onto an object differs from cleaning if and only if it holds something where the source is silent |
| Catalogue.HidingHappens | packages/najm-i18n/src/I18nService.ts:157-185 | three layers where it happens |
| Scope.DefineI18n | packages/najm-i18n/src/defineI18n.ts:217-245 | the two checks of a definition |
| Scope.DefinedExactly | packages/najm-i18n/src/defineI18n.ts:217-245 | a definition is accepted if and only if its default language and all languages with metadata have an entry |
| Scope.ScopeTo | packages/najm-i18n/src/defineI18n.ts:303-344 | every language projected, missing branches kept as undefined; an error if the default language has no object there |
| Scope.ScopeKeepsLanguages | packages/najm-i18n/src/defineI18n.ts:303-344 | a scope exists if and only if the default language has an object there; it keeps languages, default, fallback and metadata |
| Scope.ScopesCompose | packages/najm-i18n/src/defineI18n.ts:203-344 | scoping twice is scoping to the joined path if and only if no language hides an object inside a list, or the joined path is no scope |
| Scope.ScopesCanDiffer | packages/najm-i18n/src/defineI18n.ts:203-344 | a definition whose second scope loses a branch that the joined path finds |
| Scope.ScopePreservesLookup | packages/najm-i18n/src/defineI18n.ts:303-344 | a lookup in the scope is the lookup of the joined key if and only if the language has the branch or no dictionary, or answers what the default language answers, or answers nothing and falls back |
| Scope.LackingIsSilent | packages/najm-i18n/src/translator.ts:21-31 | without a list in the way, a language that lacks the branch answers nothing below it |
| Scope.ScopedTemplate | packages/najm-i18n/src/translator.ts:50-71 | what a scoped lookup answers, in terms of the original catalogue |
| Scope.Answers | packages/najm-i18n/src/translator.ts:50-71 | a lookup answers what the language says, the default language for one without a dictionary, and with fallback the default where the language says nothing |
| Scope.KeysWalk | packages/najm-i18n/src/translator.ts:21-31 | a key walks down objects field by field and into lists by index |
| Scope.ListsAreSkipped | packages/najm-i18n/src/defineI18n.ts:203-215 | with a list at the branch the scope reads the default language where the joined key reads the list |
| Scope.ScopeCanChangeLookup | packages/najm-i18n/src/defineI18n.ts:315-328 | a partial catalogue whose scope answers where the joined key does not |
| SingleFlight.SingleFlightHolds | packages/najm-cache/src/CacheService.ts:283-306 | after any interleaving without destroy: one factory in flight per key, `pending` holds a key exactly while its leader is unfinished, every joiner has its leader's outcome |
| SingleFlight.RunKeepsInv | packages/najm-cache/src/CacheService.ts:283-306 | every run without destroy keeps the invariant behind it |
| SingleFlight.LeaderDeletesItsOwn | packages/najm-cache/src/CacheService.ts:300-305 | a leader that finishes removes its own entry and no other |
| SingleFlight.SomeoneMoves | packages/najm-cache/src/CacheService.ts:289-305 | every unfinished call can move, or the leader it joined can |
| SingleFlight.DestroyIsSafe | packages/najm-cache/src/CacheService.ts:340-345 | nothing is pending if and only if, after destroy, every run without another has at most one factory per key in flight |
| SingleFlight.DestroyAllowsTwo | packages/najm-cache/src/CacheService.ts:340-345 | with destroy in between two factories run for one key, and the first to finish drops the other's entry |
| SingleFlight.CacheService.AfterLookup | packages/najm-cache/src/CacheService.ts:288-300 | a call leads if and only if it missed and no call for the key leads; a joiner joins an unfinished call for its key; nobody else is touched and the invariant is kept |
| SingleFlight.CacheService.Finally | packages/najm-cache/src/CacheService.ts:301-305 | the entry removed was the leader's own and the only one to go, and afterwards no call for the key leads |
| SingleFlight.CacheService.Lead | packages/najm-cache/src/CacheService.ts:294-305 | what a leader does: the factory's value is stored and returned, an error of the factory or of the write is thrown and stores nothing, and the entry is gone |
| SingleFlight.CacheService.Awaited | packages/najm-cache/src/CacheService.ts:291-292 | a joiner ends with the outcome of the leader it joined |
| SingleFlight.CacheService.Alone | packages/najm-cache/src/CacheService.ts:283-306 | a call with no other for its key under way returns what is stored and leaves the store, or else does what a leader does, and leaves `pending` as it was |
| SingleFlight.CacheService.Clear | packages/najm-cache/src/CacheService.ts:340-345 | the service stays valid, and single flight holds from here, if and only if nothing was pending |
| SeedTable.SkipAgain | packages/najm-database/src/SeedService.ts:391-397 | rows with the same keys a second time write nothing |
| SeedTable.SameRowsAgain | packages/najm-database/src/SeedService.ts:391-397 | the same rows a second time write nothing if and only if each carries its unique key |
| SeedTable.SkipKeepsRows | packages/najm-database/src/SeedService.ts:391-397 | rows that were there are found as they were |
| SeedTable.UpsertHolds | packages/najm-database/src/SeedService.ts:398-409 | after overwriting row by row, every offered key holds the last row offered for it and other keys are untouched |
| SeedTable.ReplaceHolds | packages/najm-database/src/SeedService.ts:398-409 | a replacing insert fails exactly when PostgreSQL meets a key twice, and otherwise leaves the last row offered for each key, which without repeats is the row offered |
| SeedTable.ReplaceAgain | packages/najm-database/src/SeedService.ts:398-409 | replacing with the same rows a second time changes nothing, repeated keys or not |
| SeedTable.SameReplacedAgain | packages/najm-database/src/SeedService.ts:398-409 | if and only if each of them carries its key |
| SeedTable.QueryBackRows | packages/najm-database/src/SeedService.ts:488-505 | the loop returns the live row of each offered key that has one |
| SeedTable.QueryBackFindsAll | packages/najm-database/src/SeedService.ts:488-505 | when all keys are taken, one live row for each, in order |
| Seed.SeedService.InsertRows | packages/najm-database/src/SeedService.ts:368-415 | the strategy's insert into one table, the others untouched, and the live rows; an insert that fails in a PostgreSQL transaction aborts it |
| Seed.SeedService.ExecuteSeed | packages/najm-database/src/SeedService.ts:70-173 | the loop over the definition, totals, report lines and errors included |
| Seed.SeedService.Run | packages/najm-database/src/SeedService.ts:39-180 | outside a transaction errors leave what was written; inside, rows are resolved up front, and an error that is thrown, or on PostgreSQL any failed insert, leaves nothing |
| Seed.AbortedIsFinal | packages/najm-database/src/SeedService.ts:119-156 | once PostgreSQL has aborted the transaction, the rest of the run writes and counts nothing |
| Seed.ExistingRowsStay | packages/najm-database/src/SeedService.ts:70-173 | with every conflict skipped, a run with or without errors only adds rows at the end of tables |
| Seed.NothingIsLost | packages/najm-database/src/SeedService.ts:134-139 | whatever the strategies, inserted plus skipped is the number of rows offered by the entries that did not fail |
| Seed.InsertedIsGrowth | packages/najm-database/src/SeedService.ts:134-139 | with nothing replaced, the rows counted as inserted are exactly those that the tables have gained |
| Seed.ReportCountsGrowth | packages/najm-database/src/SeedService.ts:39-180 | so for what is reported and what is left, unless PostgreSQL aborted the transaction, when nothing is gained |
| Seed.ReportOfNothing | packages/najm-database/src/SeedService.ts:142-173 | a report of a row inserted by a transaction that leaves nothing |
| Seed.SecondRunChangesNothing | packages/najm-database/src/SeedService.ts:70-180 | where conflicts are skipped and keys, or replaced and rows, do not depend on the run, a second run changes nothing, shows resolvers the same rows and fails where the first did; if all are skipped, it inserts nothing |
| Seed.SecondOutcomeChangesNothing | packages/najm-database/src/SeedService.ts:39-180 | in a transaction or not, skipping or replacing, a second run leaves the tables as the first left them, rolled back or not; it fails exactly when the first did, with the same error, and inserts nothing if all conflicts are skipped and the first was not rolled back |
| Seed.ResolversSeeLiveRows | packages/najm-database/src/SeedService.ts:119-132 | what every later resolver is given are the live rows of all keys offered, as the table still holds them at the end |
| SeedLaws.DryRunWritesNothing | packages/najm-database/src/SeedService.ts:105-114 | a dry run, whatever its definition, strategies and transaction, leaves the tables as they were and reports nothing inserted and all rows of entries that did not fail skipped |
| SeedLaws.EntrySucceeds | packages/najm-database/src/SeedService.ts:78-132 | an entry succeeds if and only if its table is known, its rows resolve, and there are none, or all pass the schema and, but for a dry run, the database takes them |
| SeedLaws.OwnStrategyDecides | packages/najm-database/src/SeedService.ts:386-410 | the entry's own strategy, and without one the run's, decides what its table holds afterwards |
| SeedLaws.PlainInsert | packages/najm-database/src/SeedService.ts:387-390 | a plain insert fails if and only if it meets a key that is taken, by a row or by an earlier one offered, and otherwise adds all rows |
| SeedLaws.KeylessRowsAreShown | packages/najm-database/src/SeedService.ts:127-130 | of rows without keys, which no query finds again, resolvers are given the rows inserted |
| SeedLaws.FailFast | packages/najm-database/src/SeedService.ts:142-160 | with failFast the run ends at the first entry that fails, with its error and what was written before it; without, it never throws |
| SeedLaws.ReportLines | packages/najm-database/src/SeedService.ts:134-173 | one line for each entry in order, saying what was done; the totals are the sums of the lines |
| SeedLaws.EnteredOrNothing | packages/najm-database/src/SeedService.ts:46-68 | a transaction with an entry whose table is unknown, whose rows do not resolve or do not pass the schema fails and leaves nothing |
| SeedLaws.RowsUpFront | packages/najm-database/src/SeedService.ts:84-91 | inside the transaction every entry is given the rows it resolved to up front |
| SeedLaws.AllOrNothing | packages/najm-database/src/SeedService.ts:39-180 | what a run leaves: nothing of a transaction in which an error was thrown or PostgreSQL refused rows, and otherwise all that was written |
| DatabaseClose.DatabaseService.Register | packages/najm-database/src/DatabaseService.ts:239-256 | the registration is remembered under the database's least name even if connecting fails; only a connected one is offered |
| DatabaseClose.DatabaseService.Least | packages/najm-database/src/DatabaseService.ts:328 | no other remaining entry has a smaller name |
| DatabaseClose.BeforeIsFirstDifference | packages/najm-database/src/DatabaseService.ts:328 | names are ordered by their first difference |
| DatabaseClose.DatabaseService.Closers | packages/najm-database/src/DatabaseService.ts:327-338 | exactly the closable clients not closed yet, each under the least name ever registered for a closable database on it |
| DatabaseClose.DatabaseService.CloseConnections | packages/najm-database/src/DatabaseService.ts:323-355 | every such client is attempted, whichever fail, and the failures reported are those of this call |
| DatabaseClose.DatabaseService.OnDestroy | packages/najm-database/src/DatabaseService.ts:317-321 | the first call closes; later calls repeat its outcome and touch nothing; over any sequence no client is attempted twice |
| DatabaseClose.DatabaseService.Clear | packages/najm-database/src/DatabaseService.ts:376-399 | what can disconnect and is still open is attempted and nothing else, without closing every such registration; the registrations are gone, and with closing still no client is attempted twice |

## Left out

- RateLimit.BoundOverTime: stated for a positive limit and a positive window; a limit of 0 or less admits nothing and a window of 0 never expires, both covered by RateLimit.FirstOfWindow, and negative windows are not modelled.
- Scope.ScopePreservesLookup: compares templates before interpolation; a key that resolves nowhere is echoed as it was asked for, which differs with the prefix.
- Catalogue.NothingDangerous: objects inside lists are copied as they are by the code, dangerous keys included, and paths here do not enter lists.
- Properties inherited from JavaScript prototypes (`toString`, `__proto__`) are no part of catalogue lookups here.
- Overlapping joins within one transaction scope, for which the depth counter is not meaningful.
- Callbacks that themselves open transactions or register callbacks: a callback only returns or throws.
- Bodies that await several calls at once, or calls that they did not make.
- Backoff delays, jitter, isolation options, log lines, warnings and the wording of errors.
- A factory of getOrSet that looks up its own key and so waits for itself.
- PostgreSQL drivers that reject the COMMIT of an aborted transaction: no report then, and nothing is left either.
- MySQL seeding, generated columns, several unique keys per table, unique-key detection and dialect detection.
- The other fields of an application definition, and values of the wrong JavaScript type.
- Template-literal nesting and comment stripping; splitControllerInput and interpolateTranslation, whose claims are single passes over a record or a text.
- The parsing of window strings, key strategies and response headers of the rate limiter, and its skip, reject and shared policies.
- Address length is counted in characters, not in UTF-16 code units; the two differ only for text after a closing bracket.
- Real drivers, transports, dependency injection, decorators and React code.
