# Verified models of the crawler's shared state, settings and scoring

This project models the parts of the crawler whose behaviour depends on many interacting branches
or on many callers at once, and proves what they promise:

- **Rate limiting** (`rate_limit.dfy`, `rate_limit_runs.dfy`). The sliding-window limiter over an
  ordered dictionary of timestamp deques agrees, over every run, with a plain log of accepted
  requests; a bucket is present exactly when fewer than `max_clients` distinct other clients have
  called since its client's last call; the announced retry delay is compared with the true wait.
- **Dispatcher registry** (`dispatchers.dfy`, `dispatchers_left_behind.dfy`). Double-checked lookups
  racing with shutdowns, as a transition system over any number of calls: conservation of
  dispatchers, one per mode between two clears, clean-up exactly once, no deadlock, termination.
- **Redis breaker** (`redis_breaker.dfy`, `redis_in_flight.dfy`) and **run lifecycle**
  (`crawl_run.dfy`, `crawl_run_table.dfy`): what every sequence of failures, or of status changes,
  keeps.
- **Run settings** (`crawl_settings.dfy`, `crawl_settings_reading.dfy`,
  `crawl_settings_normal_form.dfy`). What each stored entry is read from. Storing the normal form
  of a settings dictionary keeps every view of it, and storing it twice is storing it once, with the
  exact conditions.
- **Price text** (`record_signals.dfy`). Printing amounts the US or the European way, with any number
  of decimals, and reading them back.
- **Field names** (`field_policy.dfy`, `field_key_spelling.dfy`, `requested_fields.dfy`,
  `requested_resolution.dfy`). Key normalisation and where keys break, the alias table and its
  meaning, the longest token match, idempotence.
- **Selector rules** (`domain_memory.dfy`, `selector_rules.dfy`, `selector_rules_reading.dfy`).
  What each rule is read from, normalisation, dedupe, override by the run contract, storage round
  trip, the two-surface loader.
- **Confidence** (`confidence.dfy`, `confidence_properties.dfy`, `confidence_requests.dfy`,
  `confidence_penalties.dfy`, `confidence_aliases.dfy`, `repair_targets.dfy`). What a field is charged, the fields
  scored by request, bounds of the score, the split into present and missing fields, monotonicity in
  the listed sources.
- **Log stream** (`log_stream.dfy`, `log_stream_drain.dfy`). The cursor-driven websocket poller
  against a growing table.
- **Audit triage** (`audit_triage.dfy`). Grouping issues by root cause: partition and conservation.

`text.dfy` (with `text_properties.dfy`), `python_values.dfy` and `sorting.dfy` hold the string
operations, JSON-like values and the stable sort the other modules share. Code that updates objects or loops over lists is a class or a
method proved equal to a specification function; the properties are lemmas about that function.

`dafny verify dfyconfig.toml` checks everything.

## What the proofs found out about the code

Where a property fails, a theorem says exactly when the code has it, and a lemma shows an input at
which it has not.

- The limiter forgets a client it throws out. Its decision is always "fewer than `max_requests`
  accepted since the client's bucket was last created, inside the window"
  (`RateLimitRuns.DecisionIsLive`). That is the plain log for a client with fewer than `max_clients`
  other callers inside its window, and this bound is tight in every configuration
  (`RateLimitRuns.FewOthersIsTight`); with more of them it still is, unless a call inside the window
  brings those since the client's own last call up to `max_clients`
  (`RateLimitRuns.DecisionUnlessPushedOut`).
- A retry after exactly the announced delay is refused when truncation lost a fraction of a second
  (`RateLimitRuns.AnnouncedDelayTooShort`); one second more always suffices. The delay is sent as
  Retry-After (section 10.2.3 of RFC 9110).
- The comment at `backend/app/core/dependencies.py:121-123` says no fresh dispatcher can escape
  clean-up. One that is built after a clear stays in the registry until the next shutdown
  (`DispatchersLeftBehind.LeftBehind`); `Dispatchers.NothingEscapesCleanup` states what does hold.
- Normalised settings keep `max_pages`, `max_scrolls`, `max_records` (and with them the fetch
  profile) exactly when the stored text is a number or the configured default lies inside its own
  bounds (`CrawlSettingsNormalForm.UnboundedDefaultMoves` shows a default that does not). Settings
  are browser-only after storage exactly when they were so before and the stored fetch profile has a
  fetch mode of its own; a flat one is dropped (`CrawlSettingsNormalForm.FlatBrowserOnlyIsDropped`), but the stored contract
  has absorbed it by then, so no view changes.
- Whole amounts with European grouping ("1.234") are read as decimals from one thousand up, and not
  at all from one million up; the numeric check accepts them all, but refuses US grouping from one
  million up.
- After a comma with no dot in sight only one or two digits are read as decimals; any other number of
  them is run together with the whole part (`RecordSignals.CommaDecimalsReadExactly`).
- The alias table is idempotent exactly when no key is claimed only by a row whose canonical name
  normalises to nothing (`RequestedFields.MarkBreaks`). Resolving a requested name twice can move a
  name left over from "sections." that no alias fits (`RequestedResolution.NestedSectionMoves`).
- Reading a stored selector rule back changes a blank source or status to its default, once
  (`DomainMemory.BlankSourceMoves`).
- A URL slug appended to the sources of a title lowers the record's score exactly when the title is
  weighted, present, not generic, at least four characters long and without a slug so far
  (`ConfidenceProperties.SlugLowersScore`). The score passes 1 before clamping
  exactly when the bonus of the requested fields passes 1 by enough
  (`ConfidenceProperties.AboveOneExactly`), which does happen
  (`ConfidenceProperties.UpperClampActs`).
- The log stream orders a snapshot by creation time but moves its cursor by id. It sends each row once
  and in order exactly as long as, at every poll, none of the first 500 pending rows was created after
  a later one; a row out of order is sent twice (`LogStreamDrain.LateCreationResends`).

## Model

| member | source | states |
|---|---|---|
| RateLimit.Limiter.Consume | backend/app/core/rate_limit.py:54-83 | one call leaves the ordered dictionary well formed, whatever the configuration, and takes exactly the step every run theorem is about, raising included |
| RateLimit.Limiter.Touch | backend/app/core/rate_limit.py:65-70 | the caller's key becomes the most recent, keeping its deque or getting an empty one; no other bucket changes |
| RateLimit.Limiter.DropExpired | backend/app/core/rate_limit.py:72-74 | the caller's deque loses exactly its leading times at or before the cutoff |
| RateLimit.Limiter.EvictOldest | backend/app/core/rate_limit.py:81-82 | the oldest keys go until the bound holds; a negative bound empties the dictionary and fails |
| RateLimitRuns.DecisionIsLive | backend/app/core/rate_limit.py:63-83 | the exact law of every run: a client is allowed iff fewer than max_requests of its requests were accepted inside the window and since its bucket was last created |
| RateLimitRuns.DecisionMatchesLog | backend/app/core/rate_limit.py:63-83 | over every run with a clock that never goes back, a client not thrown out inside its window is allowed iff fewer than max_requests of its requests were accepted in it |
| RateLimitRuns.DecisionWithFewOthers | backend/app/core/rate_limit.py:63-83 | the same for any client with fewer than max_clients other callers in its window, whatever was thrown out before |
| RateLimitRuns.DecisionUnlessPushedOut | backend/app/core/rate_limit.py:63-83 | the same, however many others call in all, unless some call inside the window is the one that brings the distinct clients seen since the client's last call up to max_clients |
| RateLimitRuns.EvictedExactly | backend/app/core/rate_limit.py:81-82 | a call throws a client's bucket out iff it is the one that brings the distinct others since that client's last call up to max_clients |
| RateLimitRuns.FewOthersIsTight | backend/app/core/rate_limit.py:72-82 | that bound is tight in every configuration: with any max_clients other callers there is a run in which a client at its limit is allowed once more and its window holds one accepted request too many |
| RateLimitRuns.WindowNeverOverfull | backend/app/core/rate_limit.py:72-80 | no interval one window long holds more than max_requests accepted requests of a client not thrown out inside it |
| RateLimitRuns.EvictionForgets | backend/app/core/rate_limit.py:81-82 | the smallest such run, for two clients and a table of one bucket |
| RateLimitRuns.PresentExactly | backend/app/core/rate_limit.py:65-82 | a client has a bucket iff it has called and fewer than max_clients distinct others, allowed or denied, have called since; never more than max_clients buckets |
| RateLimitRuns.OrderIsRecency | backend/app/core/rate_limit.py:65-82 | the keys are the last max_clients callers in order of last call |
| RateLimitRuns.BucketsBounded | backend/app/core/rate_limit.py:72-80 | every reachable bucket is sorted, holds only past times and at most max_requests of them |
| RateLimitRuns.DenialDelay | backend/app/core/rate_limit.py:76-78 | on denial with true wait w the delay r satisfies w > 0, r >= 1, r <= max(1, w), w < r + 1, and r >= w iff w <= 1 or w is whole |
| RateLimitRuns.RetryExactly | backend/app/core/rate_limit.py:72-83 | a retry with no accepted request in between is allowed iff the true wait has passed or the bucket is gone |
| RateLimitRuns.RetryAfterPlusOne | backend/app/core/rate_limit.py:76-78 | a retry one second beyond the announced delay is always allowed |
| RateLimitRuns.RetryAtAnnouncedDelay | backend/app/core/rate_limit.py:76-78 | a retry at the announced delay is allowed iff the wait was at most one second or whole, or the bucket is gone |
| RateLimitRuns.AnnouncedDelayTooShort | backend/app/core/rate_limit.py:76-78 | a client told to wait 59 seconds is refused again after 59 seconds |
| RateLimitRuns.RaisesExactly | backend/app/core/rate_limit.py:76-82 | in any run a call raises on an empty deque iff max_requests <= 0, and on an empty dictionary iff max_requests >= 1 and max_clients < 0 |
| RateLimitRuns.FifoServesInClockOrder | backend/app/core/rate_limit.py:63-64 | however clock readings and grants of the first-in first-out lock interleave, calls are served in clock order |
| Dispatchers.StepKeepsInv | backend/app/core/dependencies.py:97-142 | every step of every call keeps the lock discipline, the place of each dispatcher and the clean-up ledger |
| Dispatchers.Reachable | backend/app/core/dependencies.py:97-142 | the invariant holds after any interleaving of lookups and shutdowns |
| Dispatchers.CreatedIsAccountedFor | backend/app/core/dependencies.py:103-126 | the dispatchers ever built are the disjoint union of those in the registry, the one in flight and those taken by exactly one shutdown |
| Dispatchers.OnePerModeAndEpoch | backend/app/core/dependencies.py:103-126 | at most one dispatcher per mode is built between two consecutive clears |
| Dispatchers.ReturnedWasShared | backend/app/core/dependencies.py:97-116 | a returned dispatcher was in the registry for the requested mode at some instant of that very call |
| Dispatchers.RegisteredReturnsAtOnce | backend/app/core/dependencies.py:100-102 | a lookup that finds its mode registered returns at once, whoever holds the lock |
| Dispatchers.NothingEscapesCleanup | backend/app/core/dependencies.py:119-142 | when all calls have ended, each dispatcher is either in the registry and not cleaned up, or cleaned up exactly once; the latter iff some clear came after it was built |
| DispatchersLeftBehind.LeftBehind | backend/app/core/dependencies.py:97-142 | a possible interleaving in which a lookup builds after a whole shutdown has gone by: all calls have ended and its dispatcher is never cleaned up |
| Dispatchers.CleanedAtMostOnce | backend/app/core/dependencies.py:124-142 | at every instant a dispatcher has been cleaned up at most once, and only after a shutdown removed it |
| Dispatchers.NeverStuck | backend/app/core/dependencies.py:97-142 | while some call is unfinished, some started call can step |
| Dispatchers.StepsRunOut | backend/app/core/dependencies.py:97-142 | each step of a started call shortens its remaining way |
| RedisBreaker.FailureState.TemporarilyDisable | backend/app/core/redis.py:56-66 | a failure moves the deadline, the counter and the log time as specified and says whether it warns |
| RedisBreaker.DisabledUntilOnlyGrows | backend/app/core/redis.py:56-58 | over every clocked run the deadline never decreases and is at most one cooldown ahead |
| RedisBreaker.StartsExactlyWhenCool | backend/app/core/redis.py:50-53 | with any number of operations in flight, one starts iff Redis is switched on and no failure was recorded in the last 30 seconds |
| RedisBreaker.WarningsAreSpaced | backend/app/core/redis.py:60-66 | two disable warnings are at least 30 seconds apart |
| RedisBreaker.SilentExactlyAfterWarning | backend/app/core/redis.py:60-66 | a failure is not announced iff it falls within a cooldown of an earlier warning or of clock zero |
| RedisBreaker.TotalCountsFailures | backend/app/core/redis.py:59 | the counter equals the number of recorded failures |
| RedisInFlight.InFlightIsBalance | backend/app/core/redis.py:103-110 | operations in flight are those started less those ended; a refused attempt never runs, so it cannot fail |
| CrawlLifecycle.CrawlRun.Set | backend/app/models/crawl_run.py:98-107 | writes the specified status and completion time, or nothing when the change is rejected |
| CrawlLifecycle.StatusTextReads | backend/app/models/crawl_domain.py:52-58 | every status written to the column reads back as itself |
| CrawlLifecycleTable.WordsExactly | backend/app/models/crawl_domain.py:31-58 | the words a status is read from, "cancelled" and "degraded" included, in any case and between blanks, and no others |
| CrawlLifecycleTable.MovesExactly | backend/app/models/crawl_domain.py:35-72 | a change is accepted iff both words are known and it stays put or follows one of the nine arrows |
| CrawlLifecycleTable.TerminalExactly | backend/app/models/crawl_domain.py:16-49 | terminal are exactly the statuses without a way out |
| CrawlLifecycleTable.CompletedWhenTerminal | backend/app/models/crawl_run.py:98-107 | the completion time is that of the one change that made the run terminal |
| CrawlLifecycle.CompletedExactlyWhenTerminal | backend/app/models/crawl_run.py:98-107 | after any sequence of changes, rejected ones included, completed_at is set iff the status reached through the table is terminal |
| CrawlLifecycle.TerminalIsFrozen | backend/app/models/crawl_domain.py:45-49 | once terminal, no later change touches status or completion time |
| CrawlLifecycle.RunningCameFirst | backend/app/models/crawl_domain.py:35-49 | a paused, completed, failed or proxy-exhausted run was running after some earlier change |
| CrawlSettings.ProxyListLoop | backend/app/models/crawl_settings.py:138-150 | the list is the non-empty stripped texts of the nested list, or of the flat one, in order |
| CrawlSettings.InferRotationLoop | backend/app/models/crawl_settings.py:91-110 | the stored word wins; otherwise sticky iff some proxy's user name contains a marker |
| CrawlSettings.ProxyProfile | backend/app/models/crawl_settings.py:152-167 | the stored profile with its flag, list and (on request) rotation replaced, nothing else |
| CrawlSettings.AcquisitionContract | backend/app/models/crawl_settings.py:235-310 | browser-only settings always prefer the browser and never hand off, whatever is stored; otherwise the stored preference stands; engine choices are never blank, failure counts never negative |
| CrawlSettings.OverwriteInOrder | backend/app/models/crawl_settings.py:478-513 | the key-by-key writing leaves alone every entry no view owns, the flat fetch mode, absent endpoints, and an advanced mode whose flag is set; an unset flag leaves no advanced mode, an absent time-to-live no flat one |
| CrawlSettings.NormalizedForStorage | backend/app/models/crawl_settings.py:478-513 | fails iff the traversal mode is unsupported, else gives the normal form |
| CrawlSettingsReading.StoredPages | backend/app/models/crawl_settings.py:315-325 | the page limit stored, flat and nested alike, is the nested entry if there is one, else the flat one, else the default, read as a number and moved into its bounds |
| CrawlSettingsReading.StoredScrolls | backend/app/models/crawl_settings.py:334-346 | the same for the scroll limit, at least one |
| CrawlSettingsReading.StoredDelay | backend/app/models/crawl_settings.py:353-368 | the delay is the nested entry, else request_delay_ms, else sleep_ms, else the minimum; both flat names and the nested one store it |
| CrawlSettingsReading.StoredRecords | backend/app/models/crawl_settings.py:327-351 | the record limit is the entry or the default, at least one; robots.txt is respected only if asked for |
| CrawlSettingsReading.StoredFetchTexts | backend/app/models/crawl_settings.py:172-208 | each text of the stored profile is the entry of that name, stripped and lower-cased, or its default, with or without a profile; iframes only if asked for; these nine entries and no others |
| CrawlSettingsReading.StoredTtl | backend/app/models/crawl_settings.py:174-207 | the time-to-live is the nested entry, else the flat one, read as a number in its bounds, or null; the flat copy is there iff it is not null |
| CrawlSettingsReading.StoredTraversal | backend/app/services/crawl/utils.py:189-240 | from the entry that gives the mode: normalisation fails iff its word is no mode, no older name of one and no way to say none; else the present name is stored |
| CrawlSettingsReading.StoredLocality | backend/app/models/crawl_settings.py:210-216 | country, stripped, or "auto"; the two hints, stripped, or null |
| CrawlSettingsReading.StoredDiagnostics | backend/app/models/crawl_settings.py:218-233 | each capture flag is the truth of its entry, or its default, true for all but the screenshot; the network text is the entry or "off" |
| CrawlSettingsReading.StoredContractFlags | backend/app/models/crawl_settings.py:235-300 | each flag is the truth of its entry, or false; prefer_curl_handoff counts iff there is no handoff_eligible; browser-only settings prefer the browser and hand nothing off |
| CrawlSettingsReading.StoredContractTexts | backend/app/models/crawl_settings.py:281-309 | the two engines, "auto" by default, and for browser-only settings the cookie engine always; the failure count, at least zero, and the stale flag |
| CrawlSettingsReading.StoredQuality | backend/app/models/crawl_settings.py:252-301 | null without a quality success; else its six known entries cleaned, each from the entry of that name, and every other entry as it was |
| CrawlSettingsReading.StoredProxies | backend/app/models/crawl_settings.py:138-167 | the nested list and flag win over the flat ones; the list holds exactly the non-blank texts in order; every other entry of the profile stays |
| CrawlSettingsReading.RotationReads | backend/app/models/crawl_settings.py:91-167 | the stored word; else "sticky" iff a marker occurs in the user name of some listed proxy; else what was stored |
| CrawlSettingsReading.StoredTargets | backend/app/models/crawl_settings.py:132-136 | every target is cleaned on its own and none is lost; endpoints are cleaned when there are any |
| CrawlSettingsReading.StoredRest | backend/app/models/crawl_settings.py:509-513 | an advanced mode stays under its flag, is null without it if it was there, and entries without a view do not change |
| CrawlSettingsNormalForm.CoerceSettles | backend/app/models/crawl_settings.py:20-29 | coercing a coerced integer changes nothing iff the original was readable or the default respects its bounds |
| TextProperties.ReadIntExactly | backend/app/models/crawl_settings.py:24 | int(str()) reads exactly digits with single underscores between them, one sign or none before them and blanks around them |
| TextProperties.FalsyExactly | backend/app/models/crawl_settings.py:82 | the values that count as false |
| TextProperties.TextsAre | backend/app/models/crawl_settings.py:24 | str() of null, the truths and the empty containers; that of an integer reads back as it |
| TextProperties.StripExactly | backend/app/models/crawl_settings.py:41 | strip() takes blanks away at both ends, all of them, and nothing else |
| TextProperties.LowerExactly | backend/app/models/crawl_settings.py:87 | lower() replaces each capital by its small letter and leaves every other character |
| CrawlSettingsNormalForm.OptionalSettles | backend/app/models/crawl_settings.py:32-53 | coercing an optional integer twice is coercing it once, unless non-positive results are rejected, the maximum is not positive and the value reads positive; then it is not |
| CrawlSettingsNormalForm.IntViewsStable | backend/app/models/crawl_settings.py:315-368 | the delay view survives storage always, max_pages and max_scrolls iff their text or default settles |
| CrawlSettingsNormalForm.UnboundedDefaultMoves | backend/app/models/crawl_settings.py:315-325 | with a default below the minimum, max_pages given as a word are the default before storage and the minimum after |
| CrawlSettingsNormalForm.TraversalStable | backend/app/services/crawl/utils.py:192-240 | the traversal mode survives storage, whichever of its four sources gave it |
| CrawlSettingsNormalForm.FetchProfileStable | backend/app/models/crawl_settings.py:172-208 | the whole fetch profile survives storage iff its two open defaults settle |
| CrawlSettingsNormalForm.LocalityStable | backend/app/models/crawl_settings.py:210-216 | the locality profile survives storage |
| CrawlSettingsNormalForm.DiagnosticsStable | backend/app/models/crawl_settings.py:218-233 | the diagnostics profile survives storage |
| CrawlSettingsNormalForm.QualitySettles | backend/app/models/crawl_settings.py:251-280 | the last quality success, unknown keys included, settles after one normalisation |
| CrawlSettingsNormalForm.ContractStable | backend/app/models/crawl_settings.py:235-310 | the contract survives storage even when the fetch profile drops the browser-only mode it was built under |
| CrawlSettingsNormalForm.BrowserOnlyFades | backend/app/models/crawl_settings.py:181-243 | settings are browser-only after storage iff they were before and the stored fetch profile has a fetch mode of its own |
| CrawlSettingsNormalForm.FlatBrowserOnlyIsDropped | backend/app/models/crawl_settings.py:198-243 | its witness: with no stored profile, a flat "browser_only" holds before storage and not after |
| CrawlSettingsNormalForm.ProxiesStable | backend/app/models/crawl_settings.py:138-167 | proxy list, flag and profile, with or without inferred rotation, survive storage |
| CrawlSettingsNormalForm.NormalFormKeepsViews | backend/app/models/crawl_settings.py:478-513 | normalisation fails only on an unsupported traversal mode; otherwise every view of the normal form equals that of the original, for the three views with an open default and the fetch profile iff they settle |
| CrawlSettingsNormalForm.NormalFormIsFixed | backend/app/models/crawl_settings.py:478-513 | normalising twice is normalising once iff the open defaults and the two cleaners settle on these settings |
| RecordSignals.TwoDecimalsRoundTrip | backend/harness/record_signals.py:113-132 | every amount with two decimals, US or European, grouped or not, in any text free of digits, dots and commas, is read back exactly |
| RecordSignals.DotDecimalsRoundTrip | backend/harness/record_signals.py:113-132 | an amount with any number of decimals after a dot, its thousands grouped by commas or not, in such text, is read back exactly |
| RecordSignals.CommaDecimalsReadExactly | backend/harness/record_signals.py:113-132 | after a comma: behind thousands grouped by dots any decimals are read back exactly; without a dot one or two are, and any other number of them is run together with the whole part |
| RecordSignals.OneDecimalRoundTrip | backend/harness/record_signals.py:125-126 | an amount with one decimal after a bare comma is read back exactly |
| RecordSignals.NoPriceNoNumber | backend/harness/record_signals.py:129-132 | text without a digit, dot or comma holds no price |
| RecordSignals.LoneMarkNoNumber | backend/harness/record_signals.py:129-132 | nor does a lone dot or comma |
| RecordSignals.UsWholeRoundTrip | backend/harness/record_signals.py:113-132 | every whole US amount, grouped or not, in such text is read back exactly |
| RecordSignals.EuWholeReadExactly | backend/harness/record_signals.py:113-132 | a whole European amount, in any text free of digits, dots and commas, is read back iff below one thousand; then divided by a thousand; nothing from a million up |
| RecordSignals.TwoDecimalsLookNumeric | backend/harness/record_signals.py:96-110 | every bare two-decimal form looks numeric |
| RecordSignals.DecimalsLookNumericExactly | backend/harness/record_signals.py:96-110 | an amount with a mark, grouped or not, looks numeric iff a digit follows the mark |
| RecordSignals.NumericHasPriceChars | backend/harness/record_signals.py:96-110 | whatever looks numeric holds digits, dots and commas and nothing else |
| RecordSignals.WholeLooksNumeric | backend/harness/record_signals.py:96-110 | whole amounts look numeric: European grouping always, US grouping iff below a million |
| RecordSignals.SurroundingTextIgnored | backend/harness/record_signals.py:114-117 | text without digits, dots and commas around an amount makes no difference |
| FieldKeys.SeparateCamelCase | backend/app/services/field_policy.py:142-159 | the loop gives the lower-cased text with an underscore before each word-starting capital |
| FieldKeys.NormalizeFieldKeyLoop | backend/app/services/field_policy.py:124-139 | the loop with its separator flag gives the specified key |
| FieldKeys.KeyIsCanonical | backend/app/services/field_policy.py:124-159 | a key has only small letters, digits, dots and single underscores, and no mark at either end |
| FieldKeys.FixedExactlyWhenCanonical | backend/app/services/field_policy.py:124-159 | normalisation fixes exactly those texts; so it is idempotent |
| FieldKeys.KeySpellsText | backend/app/services/field_policy.py:124-159 | a key spells the letters and digits of its text, lower-cased, none lost or reordered |
| FieldKeySpelling.KeySpelledExactly | backend/app/services/field_policy.py:124-159 | the key of any text is one pass over it, letters, digits and dots lower-cased, an underscore before each that follows something else or starts a hump, with underscores and dots at the ends cut |
| FieldKeySpelling.SeparatedWords | backend/app/services/field_policy.py:124-139 | two words of small letters and digits, any run of other characters but dots between them, are joined by one underscore |
| FieldKeySpelling.HumpBreaks | backend/app/services/field_policy.py:142-159 | a capital behind small letters or digits starts a new word |
| FieldKeySpelling.AcronymBreaks | backend/app/services/field_policy.py:142-159 | so does the last capital of an acronym before a small letter |
| RequestedFields.AddAliasesLoop | backend/app/services/field_policy.py:194-200 | the inner loop adds each new non-empty alias key of one row to the table and each distinct one to the row's list |
| RequestedFields.BuildLoop | backend/app/services/field_policy.py:188-205 | the nested loops give the two tables the next rows are about |
| RequestedFields.TableGivesMeaning | backend/app/services/field_policy.py:188-200 | whatever the overlaps and the order, a key leads to itself if it names a row, else to the first row that lists it, else nowhere |
| RequestedFields.TableIdempotentExactly | backend/app/services/field_policy.py:188-200 | every entry leads to a canonical key that leads to itself iff no key is claimed only by a row without a usable name |
| RequestedFields.MarkBreaks | backend/app/services/field_policy.py:188-200 | its witness: a row named by a lone underscore or dot, with any one-letter alias |
| RequestedFields.AliasListsExactly | backend/app/services/field_policy.py:189-205 | exactly the canonical keys have an alias list; it starts with the key, repeats nothing and holds besides it exactly the alias keys of the last row of that name |
| RequestedFields.BuildDistinct | backend/app/services/field_policy.py:188-200 | the table never holds a key twice |
| RequestedResolution.CandidatesLoop | backend/app/services/field_policy.py:249-256 | the text itself, then each new non-empty rest after a prefix |
| RequestedResolution.CandidatesExactly | backend/app/services/field_policy.py:249-256 | the candidates are the text and the non-empty rests after a prefix of it, none twice |
| RequestedResolution.ExactLoop | backend/app/services/field_policy.py:239-246 | the loop stops at the specified entry |
| RequestedResolution.TokensAreSegments | backend/app/services/field_policy.py:219-221 | the token set holds exactly the pieces between underscores |
| RequestedResolution.FitsExactly | backend/app/services/field_policy.py:218-226 | an alias fits a candidate iff each of its pieces between underscores is one of the candidate's |
| RequestedResolution.FuzzyLoop | backend/app/services/field_policy.py:216-228 | the nested loops with their best score end at the canonical field of the specified pair |
| RequestedResolution.BestIsFirstHighest | backend/app/services/field_policy.py:216-228 | that pair is the first in scan order among the fitting ones with the greatest (token count, length); there is none iff no alias fits |
| RequestedResolution.ResolvesExactly | backend/app/services/field_policy.py:208-246 | the first candidate that is an alias decides; the token match only when none is; unresolved iff no alias fits either |
| RequestedResolution.NormalizeRequestedFieldLoop | backend/app/services/field_policy.py:208-228 | the whole resolution as it runs gives the specified field |
| RequestedResolution.CanonicalResolvesToItself | backend/app/services/field_policy.py:208-246 | a canonical field resolves to itself |
| RequestedResolution.IdempotentExactly | backend/app/services/field_policy.py:208-256 | resolving twice is resolving once iff the name was found, or the rest after "sections." is itself a key outside every section |
| RequestedResolution.NestedSectionMoves | backend/app/services/field_policy.py:208-256 | its witness: with no alias, a letter inside two sections loses one of them at each resolution |
| RequestedResolution.IdempotentOutsideSections | backend/app/services/field_policy.py:208-256 | for every name whose key does not start with "sections." resolving is idempotent |
| RequestedResolution.BuiltTableIsSound | backend/app/services/field_policy.py:188-200 | canonical names with usable keys outside the sections build a table those lemmas apply to |
| DomainMemory.NormalizedIsClean | backend/app/services/domain_memory_service.py:11-23 | normalised texts are stripped, the field name lower-case, absent texts never blank |
| SelectorRulesReading.NormalizedReads | backend/app/services/domain_memory_service.py:11-23 | each entry of a rule is read from the row's entry of that name: texts stripped or none, the field lower-cased, source and status with their defaults, active unless said otherwise, numbers or none |
| DomainMemory.ReadBack | backend/app/services/domain_memory_service.py:11-23 | normalising a stored clean rule changes only a blank source or status, to its default |
| DomainMemory.ReadBackExactly | backend/app/services/domain_memory_service.py:11-23 | a normalised rule reads back as itself iff neither is blank, and after one more round always |
| DomainMemory.BlankSourceMoves | backend/app/services/domain_memory_service.py:11-23 | its witness: a source of nothing but spaces stays blank at first and becomes the default when read back |
| DomainMemory.SignatureOfNormalized | backend/app/services/domain_memory_service.py:26-33 | a row, its stored normal form and the rule itself have one signature |
| DomainMemory.SignaturesAgree | backend/app/services/domain_memory_service.py:26-33 | two normalised rules have one signature iff they agree in field, css, xpath and regex |
| SelectorRules.DedupeOnto | backend/app/services/domain_memory_service.py:202-212 | the loop with its seen set dedupes the concatenation of what was there and what comes |
| SelectorRules.DedupeIsFirsts | backend/app/services/domain_memory_service.py:202-212 | exactly the first occurrence of each signature stays, in order |
| SelectorRules.DedupeSettles | backend/app/services/domain_memory_service.py:202-212 | signatures come out pairwise distinct and deduping again changes nothing |
| SelectorRules.DedupeByField | backend/app/services/domain_memory_service.py:202-212 | deduping commutes with looking at one field |
| SelectorRules.ComposeRuntimeRules | backend/app/services/domain_memory_service.py:168-199 | whatever the two lists hold, the result is the composition the next row is about |
| SelectorRules.ComposeByField | backend/app/services/domain_memory_service.py:168-199 | per non-empty field: the deduped contract rules if the contract mentions it, else the deduped saved ones; the whole result is distinct and settled |
| SelectorRules.ContractRuleMarked | backend/app/services/domain_memory_service.py:177-188 | a contract rule carries the run's source and never a blank status, and is otherwise the rule it would have been |
| SelectorRules.RulesFromMemoryLoop | backend/app/services/domain_memory_service.py:84-118 | reads the rule list if there is one, else the older one-entry-per-field form |
| SelectorRules.FallbackIdsCount | backend/app/services/domain_memory_service.py:97-118 | rules of the older form are numbered 1, 2, 3, ... without gaps |
| SelectorRulesReading.FallbacksRead | backend/app/services/domain_memory_service.py:97-118 | exactly the entries without a leading underscore that are dictionaries give a rule, in order: the field is the entry's name, css falls back to the older key, every other text comes from the key of its name |
| SelectorRulesReading.MemoryReads | backend/app/services/domain_memory_service.py:84-118 | the list under "rules" when there is one, each dictionary a rule, else the older form; nothing without a dictionary |
| SelectorRules.PayloadFromRules | backend/app/services/domain_memory_service.py:121-134 | stores the normalised rules and a next id above zero and above every rule's id |
| SelectorRules.StoredRulesReadBack | backend/app/services/domain_memory_service.py:84-134 | reading stored rules back gives the normalised rules in order iff none has a blank source or status |
| SelectorRules.LoadRules | backend/app/services/domain_memory_service.py:137-165 | the loader equals the deduped surface rules followed by the default surface's, also when the two surfaces coincide or the surface is blank |
| SelectorRules.SurfaceRulesWin | backend/app/services/domain_memory_service.py:137-165 | the surface's own rules come first and win every shared signature |
| Confidence.FieldSourceQuality | backend/app/services/confidence.py:249-265 | the best quality of the candidates, with the tier of a candidate that has it, or the base quality with the text tier |
| Confidence.WeightedFieldConfidence | backend/app/services/confidence.py:94-119 | the loop gives the weighted sum, the split into present and missing fields, the penalties of the present ones and the weight behind each tier; the tier weights add up to the present weight |
| ConfidencePenalties.ChargedExactly | backend/app/services/confidence.py:268-331 | a present field is charged a penalty iff its condition on surface, field and text holds, with the kinds, weights, field names and texts written out |
| ConfidencePenalties.FactorExactly | backend/app/services/confidence.py:104-116 | its quality counts for one less the sum of those charges, of which at most 0.85 count |
| ConfidencePenalties.QualityExactly | backend/app/services/confidence.py:249-265 | the quality is at least 0.58, at least that of every listed tier, and otherwise that of one of them |
| ConfidencePenalties.TextExactly | backend/app/services/confidence.py:361-375 | the text of a value is its own, stripped, and of a list the non-blank texts of its items joined by spaces |
| ConfidencePenalties.PresentExactly | backend/app/services/confidence.py:100-103 | present is any value but null and the empty text, list and dictionary |
| ConfidencePenalties.WeightsExactly | backend/app/services/confidence.py:28-34 | a surface has its own weights, or else one for each of six fields |
| Confidence.TierWeightsAddUp | backend/app/services/confidence.py:99-117 | conservation: whatever tiers the fields fall in, their weights sum to the weight of the present fields |
| Confidence.WeightedBounded | backend/app/services/confidence.py:94-119 | the weighted sum lies between 0.087 times the present weight and the present weight |
| ConfidenceProperties.ScoreBounded | backend/app/services/confidence.py:66-71 | the unrounded score is at least 0.087 times present weight over total; it exceeds 1 before clamping only if the bonus does, and then matches outnumber requested fields; up to 1 clamping leaves it alone |
| ConfidenceProperties.AboveOneExactly | backend/app/services/confidence.py:36-71 | the score before clamping exceeds 1 iff there are requested fields and 0.15 times the bonus above 1 is more than what the weighted sum falls short of the total weight |
| ConfidenceProperties.UpperClampActs | backend/app/services/confidence.py:30-71 | under the default weights, a sound record from the best source, asked for its title under an alias it has a value for as well, scores above 1 before clamping |
| ConfidenceProperties.PresentAndMissing | backend/app/services/confidence.py:94-154 | present and missing fields are disjoint; they are exactly the weighted fields with a value, and those without one plus the unmatched requested ones |
| ConfidenceProperties.PresentIsMatched | backend/app/services/confidence.py:165-229 | a requested field with a value under its own key is always matched |
| ConfidenceProperties.MoreSourcesNeverHurt | backend/app/services/confidence.py:94-162 | appending a source to a listed field never lowers the score, through weights and bonus, except url_slug on the title |
| ConfidenceProperties.SlugOnTitleExactly | backend/app/services/confidence.py:22-71 | for a slug no tier lists above the base: appending it lowers the record's score iff the title is weighted, present, not generic, at least four characters and without a slug so far; raises it iff such a title is shorter |
| ConfidenceProperties.SlugLowersScore | backend/app/services/confidence.py:298-311 | a record at which it does lower the score |
| ConfidenceRequests.AliasToCanonicalLoop | backend/app/services/confidence.py:171-179 | the nested setdefault loops give the specified alias map |
| ConfidenceAliases.AliasesLeadToFirst | backend/app/services/confidence.py:171-179 | a key leads to the name of the first list that mentions it, by name or alias; the empty key nowhere |
| ConfidenceAliases.AliasesOfFirst | backend/app/services/confidence.py:192 | the aliases of a key are those of the list of that name |
| ConfidenceAliases.SourceFieldIsLast | backend/app/services/confidence.py:131-135 | of the listed fields with one key the last stands for it |
| ConfidenceRequests.RequestedMatchKeys | backend/app/services/confidence.py:165-197 | the list with its seen set is the specified key list |
| ConfidenceRequests.MatchKeysExactly | backend/app/services/confidence.py:180-197 | match keys are distinct and non-empty: the requests' own keys and the companions of each request not already collected |
| ConfidenceRequests.ResolveRequestedFieldMatch | backend/app/services/confidence.py:200-229 | skipping candidates already looked at does not change the match |
| ConfidenceRequests.MatchIsFirstAnswer | backend/app/services/confidence.py:215-229 | a match is a present field answering the first candidate that has an answer; none iff no candidate has |
| ConfidenceRequests.BonusLoop | backend/app/services/confidence.py:155-161 | summing one share per match gives the total quality over the requested count |
| ConfidenceRequests.ScoreRecord | backend/app/services/confidence.py:28-71 | from the surface and the names as they come: the weights chosen, the names cleaned, the targets added, and the parts assembled give the clamped score, the two field lists, the counts of names asked for and matched, the penalties and the tier weights the other rows are about |
| ConfidenceRequests.AskedPresentAndMissing | backend/app/services/confidence.py:38-66 | whatever names are asked for, present and missing fields are disjoint and exactly as `PresentAndMissing` says, and a target with a value is matched, provided the configuration writes its fields as keys |
| RepairTargets.ExpandRequestedFields | backend/app/services/field_policy.py:259-265 | the loop gives the resolved names, the empty one left out, each once, by first appearance |
| RepairTargets.TargetsExactly | backend/app/services/field_policy.py:272-312 | the targets are exactly the allowed fields some asked name resolves to and the surface's own targets with an allowed key |
| RepairTargets.TargetsNoRepeats | backend/app/services/field_policy.py:296-312 | no target is listed twice unless the configuration lists one twice |
| LogStream.LogSocket.Turn | backend/app/api/crawls.py:454-472 | one turn sends all rows, moves the cursor to the last, counts misses and closes as specified |
| LogStream.ConservedExactly | backend/app/api/crawls.py:442-473 | at every instant of every interleaving, rows sent followed by rows pending are the run's rows after after_id, in order, iff at every poll none of the first 500 pending rows was created after a later one |
| LogStream.SentExactly | backend/app/api/crawls.py:442-473 | ids sent strictly increase and are exactly the run's rows with id in (after_id, cursor] iff the same holds of every poll; creation in id order is enough |
| LogStream.UnavailableExactly | backend/app/api/crawls.py:458-466 | the socket closes with 1011 iff the last three polls in a row missed the run |
| LogStream.CompletedMeansAllSent | backend/app/api/crawls.py:467-472 | close 1000 comes only on an empty snapshot with a terminal last known status; if the run was found, no row is pending, and every row after after_id has been sent once and in order iff the polls met rows in order |
| LogStreamDrain.DrainsAndCloses | backend/app/services/crawl/log_stream.py:31-40 | a terminal run that gets no more rows, its pending rows created in order, is drained 500 at a time and closed with 1000 |
| LogStreamDrain.SendsExactlyWhenCreatedInOrder | backend/app/services/crawl/crud.py:274-281 | against a table that no longer changes, some number of turns sends exactly the pending rows, each once and in id order, iff none of them was created before an earlier one |
| LogStreamDrain.LateCreationResends | backend/app/services/crawl/crud.py:274-281 | its witness: a two-row table of which one row is sent twice, and which no number of turns sends in order |
| AuditTriage.ClassifyIsFirstMatch | agent_debug/json_issue_audit_triage.py:402-409 | the cause is that of the first matching rule, or uncategorized when none matches |
| AuditTriage.CauseExactly | agent_debug/json_issue_audit_triage.py:402-409 | a rule takes an issue of its own category whose message fits its pattern |
| AuditTriage.AdviceExactly | agent_debug/json_issue_audit_triage.py:398-427 | the advice on a cause is that of the last rule for it, else its own name, an unknown layer, actionable |
| AuditTriage.CountIssue | agent_debug/json_issue_audit_triage.py:420-451 | finding or creating the group with its rule's advice, then counting one issue into it entry by entry |
| AuditTriage.BuildRootCauseGroups | agent_debug/json_issue_audit_triage.py:412-465 | the nested loops and the sort give the sorted groups the next rows are about, and with each the ascending list of exactly its named hosts |
| AuditTriage.OneList | agent_debug/json_issue_audit_triage.py:463-464 | a set of hosts has only one ascending list, so the order in which it is run through does not matter |
| AuditTriage.GroupHolds | agent_debug/json_issue_audit_triage.py:412-451 | a group counts exactly the issues of its cause, its hosts are exactly those they name, and it lists five of them, or all when there are fewer |
| AuditTriage.SamplesHold | agent_debug/json_issue_audit_triage.py:445-451 | the sample URLs are the first three distinct ones by appearance, the sample evidence the first two pieces given |
| AuditTriage.UrlsByAppearance | agent_debug/json_issue_audit_triage.py:445-448 | the distinct URLs are the non-empty ones given, once each, and more issues only add to the end |
| AuditTriage.GroupsPartition | agent_debug/json_issue_audit_triage.py:412-451 | a cause has a group iff it has issues; the group's advice, count, top severity, number of distinct named hosts, first five of them, first three distinct URLs and first two pieces of evidence are exactly theirs |
| AuditTriage.CountsAddUp | agent_debug/json_issue_audit_triage.py:435-436 | the group counts sum to the number of issues |
| AuditTriage.EveryIssueCounted | agent_debug/json_issue_audit_triage.py:416-436 | and that number is the total over all audited records |
| AuditTriage.GroupsSorted | agent_debug/json_issue_audit_triage.py:453-462 | the output is a stable reordering by actionable, severity, then falling count |
| AuditTriage.SortedByFields | agent_debug/json_issue_audit_triage.py:453-462 | of two groups the actionable one comes first, then the one of worse severity, high before medium before low before any other, then the larger |
| Sorting.SortedIsOrdered | agent_debug/json_issue_audit_triage.py:455-462 | the model of sorted() orders by the key and keeps every element |
| Sorting.SortedIsStable | agent_debug/json_issue_audit_triage.py:455-462 | elements with equal keys keep their order |

## Left out

- RateLimitRuns.DecisionMatchesLog: stated for clients not thrown out inside the window, because the code forgets the others (`FewOthersIsTight`); the law for all of them is `DecisionIsLive`.
- RateLimitRuns.PresentExactly: for limits and table sizes of at least one; other configurations are covered by `RaisesExactly` and by `Consume`.
- RateLimit.Limiter.Consume: one call is one atomic step (nothing is awaited under the lock); cancellation while waiting for the lock is not modelled. Time is exact, floats are not rounded.
- Dispatchers.NothingEscapesCleanup: a dispatcher without a shutdown method, or whose clean-up raises, counts as cleaned up; cancellation in the middle of a shutdown is not modelled. The registry is a transition system, not an object, since its properties are about interleavings.
- RedisBreaker.StartsExactlyWhenCool: a start and the check before it are one step (nothing is awaited between them); background scheduling adds only a second check.
- CrawlSettings.NormalizedForStorage: the dictionary is a record of named slots, so key order is not captured; the name of the time-to-live key is fixed; values with a `model_dump` are not modelled. Views that normalisation does not touch (LLM snapshot, concurrency, timeouts, acquisition plan) are omitted.
- CrawlSettingsNormalForm.NormalFormIsFixed: `normalize_target_url`, the endpoint cleaner, `urlparse`, and the printing of non-empty lists and dictionaries are parameters; sticky markers come already cleaned.
- CrawlLifecycle.CrawlRun.Set: an unknown status and a forbidden change are one kind of rejection.
- RecordSignals.TwoDecimalsRoundTrip: amounts are exact; rounding by `float()` is not modelled. The empty text stands for every falsy value.
- FieldKeys.KeyIsCanonical: ASCII text only; case folding and letters beyond ASCII are not modelled, here or anywhere else.
- RequestedFields.TableGivesMeaning: the configured fields and aliases are parameters; the merging of alias bases and extras and the per-surface alias edits are left out as easy list merging.
- SelectorRules.StoredRulesReadBack: the database row is a parameter; saving and looking up rows is left out.
- Confidence.WeightedFieldConfidence: tier and weight tables and the text of a dictionary value are parameters; a record's source lists come already stripped.
- ConfidenceRequests.ScoreRecord: the surface's alias lists, allowed fields and configured targets are parameters; before rounding to four places; the confidence level and the wording of the source reasoning are left out as comparisons.
- ConfidenceProperties.SlugOnTitleExactly: for a slug no tier lists above the base quality; a better slug may outweigh its penalty.
- LogStream.SentExactly: assumes rows become visible in id order; creation times may be in any order. Authentication, disconnects and failures while sending are left out.
- AuditTriage.BuildRootCauseGroups: message patterns are a parameter.
- The host summary and the triage section of the audit: easier versions of the same grouping.
- Limits on the number of digits `int()` accepts.
- Web routes, database sessions, task queues, the frontend, HTML parsing and everything resting on third-party libraries.
