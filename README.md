# Ice-Committee registration portal, modelled in Dafny

The portal lets students apply for posts on the Ice Committee and lets admins
review, select, re-assign and delete applicants. This project models its core:

- the backend utilities:
  - the in-process TTL cache with LRU eviction and its response-caching
    middleware (`backend/utils/cache.js`);
  - the circuit breaker, the retry manager and the health-check registry
    (`backend/utils/resilience.js`);
  - the request-metrics monitor (`backend/utils/performance.js`);
- the route handlers that change the `student` table:
  - registration (`backend/routes/register.js`);
  - selection and deletion (`backend/routes/select.js`);
  - re-assignment of a post (`backend/routes/updatePost.js`);
- admin login (`backend/routes/adminLogin.js`);
- the registration form's client-side checks (`frontend/script.js`);
- the admin dashboard's HTML escaping, student filter and photo zoom
  (`frontend/admin.js`).

Each stateful object of the source (`CacheManager`, `CircuitBreaker`,
`RetryManager`, `HealthChecker`, `PerformanceMonitor`, the database table, the
zoom level) is a Dafny `class` whose methods perform the source's steps; the
one exception is the zoom class `ZoomControl`, whose zoom-out is the corrected
one (see "## Findings"), while the zoom-out as written is modelled by
`ZoomedOut` and `ZoomRun`. Each
method is proved equal to a pure function from the old state to the new state
and the result (`GetOp`, `ExecuteOp`, `SelectOp`, …). The lemmas then state
what the source promises about those functions.

Time, randomness, the outcome of wrapped calls, JSON serialization and
database availability are parameters:

- `now` is a clock reading;
- `random` is a value of `Math.random()`;
- `Outcome` and `Probe` say how a wrapped call or health check settled;
- `sizeOf` and `serializes` describe `JSON.stringify`;
- `storeUp` says whether the database answers.

Files:

- `common.dfy`: JavaScript string helpers (`\s`, `trim`, `toLowerCase`,
  `includes`) and sequence lemmas;
- `sorting.dfy`: the stable sort of `Array.prototype.sort`;
- `cache.dfy` and `cache_middleware.dfy`: the cache and its middleware;
- `resilience.dfy`: the breaker, the retry loop and the health checks;
- `performance.dfy`: the metrics monitor;
- `student_table.dfy`: the `student` table and the HTTP replies;
- `register.dfy`, `select_route.dfy`, `update_post.dfy`: the route handlers
  that write the table;
- `admin_login.dfy`: admin login;
- `form_validation.dfy`: the form checks;
- `admin_panel.dfy`: the dashboard helpers.

## Model

| member | source | states |
|---|---|---|
| Cache.TimerDelay | backend/utils/cache.js:38-41 | the expiry timer fires after the TTL when it lies in Node's accepted range, and after between 1 ms and 2^31-1 ms otherwise |
| Cache.GetSpec | backend/utils/cache.js:51-59 | get of an absent key yields null and changes nothing; get of a present key yields its value, adds one hit, stamps the access time and leaves every other entry, the TTLs, the timers and the size counter alone |
| Cache.GetKeepsInv | backend/utils/cache.js:51-59 | get keeps the cache invariant: each key listed once, the three maps agree, and every timer matches its TTL |
| Cache.CacheManager.Has | backend/utils/cache.js:62-64 | has is true exactly for a stored key |
| Cache.CacheManager.Get | backend/utils/cache.js:51-59 | the method's new state and result are those of the get specification, and it keeps the invariant |
| Cache.DeleteSpec | backend/utils/cache.js:67-83 | delete reports whether the key was present; afterwards the key is gone from all three maps and from the iteration order, the size counter drops by exactly that value's size, and every other key keeps its entry, TTL and timer |
| Cache.DeleteDrift | backend/utils/cache.js:67-83 | delete leaves the gap between the size counter and the live total unchanged |
| Cache.CacheManager.Delete | backend/utils/cache.js:67-83 | the method performs the delete specification and keeps the invariant |
| Cache.CacheManager.Expire | backend/utils/cache.js:38-41 | an expiry timer fires only when pending and due, and then runs delete |
| Cache.OldestIndexIsOldest | backend/utils/cache.js:110-125 | the LRU scan picks an entry of least access time, and the first such entry in insertion order |
| Cache.CacheManager.FindOldest | backend/utils/cache.js:110-121 | the scan loop finds no key exactly for an empty cache, and otherwise a stored key of least access time |
| Cache.EvictSpec | backend/utils/cache.js:110-125 | evictLRU removes nothing from an empty cache and at most one entry otherwise, leaving the other entries as they were |
| Cache.EvictRemovesOldest | backend/utils/cache.js:110-125 | the entry evictLRU removes is not under the empty key, has the least access time, and comes first in insertion order among such entries |
| Cache.EvictKeepsInv | backend/utils/cache.js:110-125 | evictLRU keeps the invariant and the size gap |
| Cache.CacheManager.EvictLRU | backend/utils/cache.js:110-125 | the method performs the eviction specification and keeps the invariant |
| Cache.SetSpec | backend/utils/cache.js:13-48 | set returns true exactly when the value serializes; then the key holds a fresh entry with no hits, its TTL and a timer set to fire after the TTL, at most one other entry is evicted and every other surviving entry is unchanged; when currentSize plus the value's size stays within maxSize nothing is evicted, the key set gains only the key, currentSize grows by the value's size and every other key keeps its entry, TTL and timer; otherwise nothing changes |
| Cache.SetKeepsInv | backend/utils/cache.js:13-48 | set keeps the invariant |
| Cache.SetDrift | backend/utils/cache.js:16-35 | set of a new key keeps the size counter in step with the live entries; overwriting a present key adds the new size without subtracting the old one |
| Cache.SetCanOverflow | backend/utils/cache.js:19-21 | a single eviction cannot make room for a value larger than the capacity: the size counter can exceed maxSize |
| Cache.SetThenGet | backend/utils/cache.js:13-59 | a get right after a successful set returns the stored value and counts its first hit |
| Cache.MakeRoomFrame | backend/utils/cache.js:18-21 | set evicts only when currentSize plus the new size would pass maxSize, and then at most one entry, leaving the others as they were |
| Cache.CacheManager.Set | backend/utils/cache.js:13-48 | the method performs the set specification (a left-out TTL is 30 seconds) and keeps the invariant |
| Cache.InvalidateCount | backend/utils/cache.js:86-98 | invalidatePattern returns the number of stored keys that match |
| Cache.InvalidateSpec | backend/utils/cache.js:86-98 | after invalidatePattern no stored key matches, and every key that does not match keeps its entry, TTL and timer |
| Cache.CacheManager.InvalidatePattern | backend/utils/cache.js:86-98 | the loop removes the matching keys one by one and returns the specified count, keeping the invariant |
| Cache.ClearSpec | backend/utils/cache.js:101-107 | clear leaves an empty cache that satisfies the invariant, with the size counter back in step |
| Cache.CacheManager.Clear | backend/utils/cache.js:101-107 | the method empties every map and zeroes the size counter |
| Cache.StatsCounts | backend/utils/cache.js:128-139 | getStats reports the entry count, the size counter, the 50 MiB capacity and min(10, size) hit counts |
| Cache.StatsSorted | backend/utils/cache.js:128-139 | topHits lists hit counts from highest to lowest |
| Cache.StatsTopMembers | backend/utils/cache.js:128-139 | each topHits pair is a stored key with its true hit count |
| Cache.TopHitsAreTop | backend/utils/cache.js:128-139 | a key left out of topHits has no more hits than any key listed |
| Sorting.SortBy | backend/utils/cache.js:135-137 | the sort returns a permutation of its input, ordered by the key |
| Sorting.TakeSortedIsTop | backend/utils/performance.js:71-79 | whatever the first n of a sorted sequence leave out has a key at least as large as anything kept |
| CacheMiddleware.DefaultKeyInjective | backend/utils/cache.js:147 | with the default key, two requests share a cache entry exactly when their method and path are equal |
| CacheMiddleware.OnlyGetUsesCache | backend/utils/cache.js:148-164 | requests other than GET neither read nor write the cache |
| CacheMiddleware.LookupServes | backend/utils/cache.js:150-155 | a request is answered from the cache exactly when it is a GET whose key holds a truthy value, and the answer is that value |
| CacheMiddleware.FailureNotRecorded | backend/utils/cache.js:159-164 | a response that reports success: false is never stored |
| CacheMiddleware.RecordThenLookup | backend/utils/cache.js:145-168 | after a storable, truthy GET response is recorded, the same GET is answered from the cache with that body |
| CacheMiddleware.Lookup | backend/utils/cache.js:150-155 | the lookup on the shared cache performs the lookup specification and keeps the cache invariant |
| CacheMiddleware.Record | backend/utils/cache.js:159-164 | the replaced res.json stores the body as specified, with the factory's TTL (30 seconds when left out), and sends it unchanged |
| Resilience.OrDefault | backend/utils/resilience.js:12-15 | an option that is absent or 0 falls back to its default |
| Resilience.InitialBreakerInv | backend/utils/resilience.js:4-16 | a new breaker is closed with both counters at zero and no failure time, and satisfies the breaker invariant |
| Resilience.CircuitBreaker.constructor | backend/utils/resilience.js:4-16 | the constructor applies the four defaults and starts closed with zero counters |
| Resilience.FailureTransitions | backend/utils/resilience.js:67-75 | onFailure records the time and counts the failure; it opens the breaker exactly when it was closed and the count reaches the threshold, and never moves a half-open or open breaker |
| Resilience.SuccessTransitions | backend/utils/resilience.js:54-65 | onSuccess clears the failure count; a half-open breaker counts the success and closes, with the count back at 0, on reaching the threshold |
| Resilience.CircuitBreaker.OnSuccess | backend/utils/resilience.js:54-65 | the method performs the success transition |
| Resilience.CircuitBreaker.OnFailure | backend/utils/resilience.js:67-75 | the method performs the failure transition |
| Resilience.ExecuteKeepsInv | backend/utils/resilience.js:19-52 | execute keeps the breaker invariant: a closed breaker stays below its threshold, only a half-open breaker counts successes, and an open breaker has a recorded failure |
| Resilience.OpenShortCircuits | backend/utils/resilience.js:20-30 | while open and within resetTimeout of the last failure, execute makes no call, changes nothing, and answers with the fallback's value or null |
| Resilience.OpenProbesAfterReset | backend/utils/resilience.js:20-26 | once more than resetTimeout has passed, an open breaker goes half-open and makes the call |
| Resilience.NotOpenInvokes | backend/utils/resilience.js:19-38 | a closed or half-open breaker always makes the call, so half-open admits any number of trial calls |
| Resilience.HalfOpenFailureStaysHalfOpen | backend/utils/resilience.js:43-51 | a failed half-open trial leaves the breaker half-open, counts the failure and rethrows the error even when a fallback exists |
| Resilience.FailedCallResponse | backend/utils/resilience.js:33-51 | a failed or timed-out call answers with the fallback exactly when that failure opened the breaker and a fallback was given; otherwise it rethrows the call's error or the timeout error |
| Resilience.FailuresOpen | backend/utils/resilience.js:67-75 | repeated failures open a closed breaker once the count reaches the threshold, and it stays open |
| Resilience.FailuresBelowThresholdStayClosed | backend/utils/resilience.js:67-75 | failures that leave the count below the threshold keep the breaker closed |
| Resilience.HalfOpenRecovers | backend/utils/resilience.js:54-65 | a half-open breaker stays half-open for successThreshold - 1 successes and closes on the next one |
| Resilience.CircuitBreaker.Execute | backend/utils/resilience.js:19-52 | the method's new state, response and whether it called the operation are those of the execute specification, and it keeps the invariant |
| Resilience.StatusOf | backend/utils/resilience.js:78-86 | the status copies the state and both counters, and reports lastFailure only when the failure time is truthy |
| Resilience.CircuitBreaker.GetStatus | backend/utils/resilience.js:78-86 | getStatus reports the breaker's current state |
| Resilience.ResetStatus | backend/utils/resilience.js:89-95 | after reset the status report is that of a new breaker |
| Resilience.CircuitBreaker.Reset | backend/utils/resilience.js:89-95 | reset puts the breaker back in its initial state, and its status report is then that of a new breaker |
| Resilience.RetryManager.constructor | backend/utils/resilience.js:100-103 | the defaults 3 and 100 apply only to arguments that are left out |
| Resilience.RetryStopsAtFirstDecisive | backend/utils/resilience.js:105-129 | the loop ends at the first call that does not fail transiently, returning its value or throwing its client error |
| Resilience.RetryExhausts | backend/utils/resilience.js:105-129 | when every call fails transiently the loop makes maxRetries + 1 calls and throws the last error |
| Resilience.RetryCallsBound | backend/utils/resilience.js:105-129 | the loop makes at most maxRetries + 1 calls |
| Resilience.ReturnsFirstSuccess | backend/utils/resilience.js:105-129 | execute returns v exactly when some call within the budget resolved with v and every earlier call failed transiently |
| Resilience.ClientErrorStops | backend/utils/resilience.js:114-117 | a 4xx error ends execute at once, after the call that raised it |
| Resilience.FirstDecisive | backend/utils/resilience.js:105-129 | finds the first call that does not fail transiently, every earlier one having done so |
| Resilience.JitterBounds | backend/utils/resilience.js:119-124 | a pause lies between the back-off delay and 1.1 times it |
| Resilience.RetryManager.Execute | backend/utils/resilience.js:105-129 | the loop's outcome is that of the retry specification, it waits once between consecutive calls, and the i-th wait lies between baseDelay·2^i and 1.1 times that |
| Resilience.RunChecksSpec | backend/utils/resilience.js:144-174 | runChecks reports every registered check: healthy with its duration exactly when it resolved, otherwise unhealthy with its error or the timeout message; getStatus then shows that verdict and the time it was taken |
| Resilience.RegisterSpec | backend/utils/resilience.js:140-142 | registering a name makes its status unknown and never checked, and leaves the other checks alone |
| Resilience.HealthChecker.RegisterCheck | backend/utils/resilience.js:140-142 | the method adds or resets the record and keeps registration order |
| Resilience.HealthChecker.RunChecks | backend/utils/resilience.js:144-174 | the loop over the checks produces the specified records and results |
| Resilience.HealthChecker.GetStatus | backend/utils/resilience.js:176-185 | getStatus has one entry per registered check |
| Performance.RecordedSpec | backend/utils/performance.js:11-35 | the buffer keeps the newest min(old + 1, maxMetrics) samples, ending with the new one |
| Performance.RecordedBounded | backend/utils/performance.js:22-27 | the buffer never exceeds maxMetrics and is not trimmed while below it |
| Performance.PerformanceMonitor.RecordRequest | backend/utils/performance.js:11-35 | the method returns the sample it built and appends it as specified |
| Performance.MinMaxBounds | backend/utils/performance.js:49-50 | the minimum and maximum are elements of the sequence and bound all of it |
| Performance.PercentileIsElement | backend/utils/performance.js:97-102 | a percentile of a non-empty array is one of its elements, between its minimum and maximum |
| Performance.PercentileMonotone | backend/utils/performance.js:97-102 | a higher percentile is never smaller |
| Performance.SumBetweenMinAndMax | backend/utils/performance.js:46-51 | the sum of the response times lies between n·min and n·max |
| Performance.GroupKeys | backend/utils/performance.js:61-69 | the per-endpoint accumulator has exactly the endpoints seen, each once |
| Performance.GroupCounts | backend/utils/performance.js:61-69 | each endpoint's record counts exactly its samples, their total time and its errors |
| Performance.GroupCountsSum | backend/utils/performance.js:61-69 | the per-endpoint counts add up to the number of samples |
| Performance.NoMetricsIffEmptyWindow | backend/utils/performance.js:38-44 | "No metrics available" is returned exactly when no sample falls within the window |
| Performance.StatsOrdering | backend/utils/performance.js:46-93 | the request count is the window's size, min ≤ avg ≤ max, and min ≤ p95 ≤ p99 ≤ max |
| Performance.ErrorRateSpec | backend/utils/performance.js:57-58 | the error rate is the percentage of window samples with status 400 or more, between 0 and 100 |
| Performance.RankedSpec | backend/utils/performance.js:71-79 | the ranked endpoints are real records, at most ten, by non-increasing total time |
| Performance.TopEndpointsSpec | backend/utils/performance.js:61-93 | topEndpoints has at most ten rows by non-increasing total time, each naming an endpoint of the window with its true sample and error counts |
| Performance.TopEndpointsAreHeaviest | backend/utils/performance.js:71-79 | an endpoint left out of topEndpoints has no more total time than any kept |
| Performance.PerformanceMonitor.GetStats | backend/utils/performance.js:38-94 | the accumulating loop computes the specified statistics over the last lastNMinutes (60 when left out) |
| Performance.SliceTo | backend/utils/performance.js:109 | slice(0, end) is a prefix of min(end, length) elements for a non-negative end |
| Performance.SlowQueriesAreSlow | backend/utils/performance.js:105-110 | getSlowQueries returns at most limit samples, each from the buffer and above the threshold |
| Performance.SlowQueriesOrdered | backend/utils/performance.js:105-110 | the slowest sample comes first |
| Performance.SlowQueriesAreSlowest | backend/utils/performance.js:105-110 | a slow sample that is left out is no slower than any returned |
| Performance.PerformanceMonitor.GetSlowQueries | backend/utils/performance.js:105-110 | the method returns the specified slow queries, at most limit of them (20 when left out) |
| Performance.PerformanceMonitor.Reset | backend/utils/performance.js:113-115 | reset empties the buffer |
| StudentTable.UpdateKeepsInv | backend/routes/updatePost.js:63-66 | rewriting a record without touching its id or e-mail keeps ids matching keys and e-mail addresses unique |
| StudentTable.RemoveKeepsInv | backend/routes/select.js:66 | deleting a record keeps the table invariant |
| StudentTable.InsertKeepsInv | backend/routes/register.js:42-55 | a new record under a fresh id with an unused e-mail address keeps the table invariant |
| StudentTable.Table.FindByEmail | backend/routes/register.js:33-35 | the unique lookup by e-mail finds a record exactly when one has that address |
| Register.NewRecord | backend/routes/register.js:42-55 | the new record has the submitted address, is not selected, stores a falsy batch as null and a falsy note as the empty string |
| Register.RegisterSpec | backend/routes/register.js:27-77 | registration succeeds exactly when the schema accepts the body, the database answers, the address is unused and the key is free; it then adds exactly one record and returns it with 201; a schema failure is a 400 "Validation failed"; then a database failure is a 500 "Registration failed", and an address already in the table, seeded or registered, is a 400 "Email already registered"; any failure leaves the table unchanged |
| Register.RegisterTwiceRejected | backend/routes/register.js:33-39 | once an address is registered, a second registration with it is refused with "Email already registered" |
| Register.RegisterIgnoresEmail | backend/routes/register.js:58-63 | whether the confirmation e-mail went out does not change the outcome |
| Register.RegisterKeepsInv | backend/routes/register.js:27-77 | registration keeps the table invariant |
| Register.HandleRegister | backend/routes/register.js:27-77 | the handler on the table performs the registration specification and keeps the invariant |
| SelectRoute.SelectSpec | backend/routes/select.js:13-53 | selection succeeds exactly for a known id while the database answers; it sets selected on that student only and returns the updated record; a missing id is a 400, a database failure after that a 500 "Failed to select student", an unknown id a 404, and failures change nothing |
| SelectRoute.SelectIdempotent | backend/routes/select.js:31-34 | selecting twice leaves the table as selecting once |
| SelectRoute.SelectIgnoresEmail | backend/routes/select.js:37-42 | whether the selection e-mail went out does not change the outcome |
| SelectRoute.SelectKeepsInv | backend/routes/select.js:13-53 | selection keeps the table invariant |
| SelectRoute.HandleSelect | backend/routes/select.js:13-53 | the handler on the table performs the selection specification |
| SelectRoute.DeleteSpec | backend/routes/select.js:56-76 | deletion succeeds exactly for a known id while the database answers, removing exactly that record; a database failure is a 500 "Failed to delete student" and an unknown id a 404, and neither changes anything |
| SelectRoute.HandleDelete | backend/routes/select.js:56-76 | the handler on the table performs the deletion specification |
| UpdatePost.UpdatePostSpec | backend/routes/updatePost.js:12-77 | the update succeeds exactly when the post is present and listed, the database answers and the student exists; then only that student's post changes and the reply carries the record; otherwise the table is unchanged |
| UpdatePost.UpdatePostGuardOrder | backend/routes/updatePost.js:17-77 | a missing post is a 400 before the whitelist, which comes before the lookup; a listed post with the database down is a 500 "Failed to update post", and a 404 arises exactly for a listed post and an unknown student |
| UpdatePost.UpdatePostIdempotent | backend/routes/updatePost.js:63-66 | repeating an update changes nothing more |
| UpdatePost.UpdatePostKeepsInv | backend/routes/updatePost.js:63-66 | the update keeps the table invariant |
| UpdatePost.HandleUpdatePost | backend/routes/updatePost.js:12-77 | the handler on the table performs the update specification |
| AdminLogin.SessionCookie | backend/routes/adminLogin.js:43-48 | the cookie is HTTP-only, SameSite lax, lasts seven days and is secure exactly in production |
| AdminLogin.StoreDownFails | backend/routes/adminLogin.js:19-73 | with both fields present, a database that does not answer gives 500 "Login failed", whatever the credentials |
| AdminLogin.LoginNeedsBothFields | backend/routes/adminLogin.js:23-25 | a missing or empty username or password is a 400 before any lookup |
| AdminLogin.StoredAdminDecides | backend/routes/adminLogin.js:28-51 | with a stored admin of that name, login succeeds exactly when the hash accepts the password, and the token names that admin; a built-in pair does not help |
| AdminLogin.BuiltInAdminsOnly | backend/routes/adminLogin.js:54-69 | without a stored admin of that name, login succeeds exactly for the two built-in pairs, with a token naming only the user |
| AdminLogin.LoginCookie | backend/routes/adminLogin.js:43-48 | every successful login sets the same week-long HTTP-only cookie |
| FormValidation.ValidateEmailShape | frontend/script.js:284-287 | the e-mail pattern accepts exactly the strings without white space that have exactly one `@`, something before it, and a `.` after it that is neither the first nor the last character of the domain |
| FormValidation.CleanPhone | frontend/script.js:291 | the cleaned number holds no white space and no `-` |
| FormValidation.ValidatePhoneShape | frontend/script.js:289-294 | a number is accepted exactly when, once cleaned, it is 11 characters starting 01 or 14 starting +8801, with digits after the prefix |
| FormValidation.SeparatorsIgnored | frontend/script.js:291 | spaces and dashes inserted anywhere do not change the verdict |
| FormValidation.PrefixesInterchangeable | frontend/script.js:292 | 0 and +880 are interchangeable prefixes |
| FormValidation.TrimIrrelevantForPhone | frontend/script.js:404-405 | trimming before the phone check changes nothing |
| FormValidation.ExtensionSpec | frontend/script.js:398 | the extension is the dot-free suffix of the name after its last dot |
| FormValidation.PhotoSelectSpec | frontend/script.js:183-202 | a chosen file is previewed exactly when it is at most 3 MiB and a JPEG or PNG; an oversized file is refused for its size whatever its type |
| FormValidation.AcceptedFormSpec | frontend/script.js:384-417 | an accepted form has a photo of at most 3 MiB named jpg, jpeg or png in any case, a national or international phone number, and an e-mail address of the accepted shape |
| FormValidation.PhoneBeforeEmail | frontend/script.js:404-416 | once the photo passes, a bad phone is reported whatever the e-mail holds, the e-mail message appears exactly for a good phone and a bad address, and the form is accepted exactly when both pass |
| FormValidation.PhotoChecksFirst | frontend/script.js:386-401 | without a photo, or with a bad one, the form is refused whatever the phone and e-mail fields hold |
| FormValidation.OversizedDropCaughtOnSubmit | frontend/script.js:168-180 | the drop handler previews an oversized JPEG or PNG, but submit refuses it for its size |
| FormValidation.NoteInput | frontend/script.js:269-280 | the counter shows the typed length; the value is cut to its first 500 characters exactly when longer, and the counter turns red exactly then |
| FormValidation.NoteInputIdempotent | frontend/script.js:269-280 | a second input event on the cut value changes nothing |
| FormValidation.PhoneBlurAgreesWithSubmit | frontend/script.js:246-253 | for a non-empty phone field, the blur mark is valid exactly when the submit check accepts it |
| FormValidation.SpaceNotEmail | frontend/script.js:285 | an address with white space anywhere is refused |
| FormValidation.EmailBlurStricterThanSubmit | frontend/script.js:234-241 | an accepted address typed after a space is marked as an error on blur yet accepted on submit, which trims first |
| AdminPanel.EscapeAppend | frontend/admin.js:331-340 | escaping works character by character |
| AdminPanel.EscapedIsInert | frontend/admin.js:331-340 | the escaped text contains no `<`, `>`, `"` or `'` |
| AdminPanel.EscapeIdentity | frontend/admin.js:331-340 | text without the five special characters is left unchanged |
| AdminPanel.EscapeRoundTrip | frontend/admin.js:331-340 | unescaping the escaped text gives back the input, so nothing is lost |
| AdminPanel.FilterStudentsSpec | frontend/admin.js:115-136 | the filtered list keeps the loaded order and holds exactly the students every active filter matches; with no filter set it is the whole list |
| AdminPanel.StatusFilter | frontend/admin.js:129-131 | "selected" keeps only selected students, "pending" only the others, and any other status keeps nobody |
| AdminPanel.ZoomRunKeepsInv | frontend/admin.js:343-365 | with zoomOut as written, whatever buttons are pressed, the level stays a multiple of 20 between 40 and 300: never above the maximum |
| AdminPanel.ZoomOutPassesMinimum | frontend/admin.js:355-360 | three zoom-outs from 100 reach 40, below the minimum of 50, where the level then stays |
| AdminPanel.ClampedZoomedOut | frontend/admin.js:355-360 | a zoom-out that checks the level after the step never goes below the minimum |
| AdminPanel.ClampedZoomStaysInBounds | frontend/admin.js:343-360 | with that zoom-out and the unchanged zoom-in, the level stays a multiple of 20 between 50 and 300 |
| AdminPanel.ZoomControl.ZoomIn | frontend/admin.js:348-353 | zoomIn adds one step while below the maximum, and the level stays between 50 and 300 |
| AdminPanel.ZoomControl.ZoomOut | frontend/admin.js:355-360 | zoomOut, corrected as under Findings, subtracts one step only when the result stays at or above the minimum, so the level stays within bounds |
| AdminPanel.ZoomControl.ResetZoom | frontend/admin.js:362-365 | resetZoom sets the level to 100 |

## Left out

- Timers and promises are not modelled as running code. The breaker's race,
  the health check's 3-second race and the cache's `setTimeout` become inputs:
  how each call settled (`Outcome`, `Probe`) and the instant a timer fires
  (`Expire`).
- Floating point is not modelled. Averages and rates are exact `Fraction`s,
  and `toFixed` formatting is omitted. The jitter is a real number in [0, 1).
- `Math.random()` and `Date.now()` are parameters. A passing health check
  reads the clock three times: at its start, for `lastCheck`, and for the end
  of `responseTime`. These are the three fields of `Passed`, and nothing
  relates them to each other. A failing check reads it once, for `lastCheck`.
- `JSON.stringify` and the pattern regex of `invalidatePattern` are abstract:
  `sizeOf`, `serializes` and `matches` functions. So `new RegExp(pattern)`
  throwing on an invalid pattern, before anything is deleted, is not
  modelled, and neither is `delete` re-measuring a stored value that the
  caller mutated after `set` (the model's values are immutable, so there is
  no aliasing).
- The middleware's truthiness of a stored value and its `data.success ===
  false` test are abstract predicates, and a null `data` is not modelled.
- `performanceTrackerMiddleware` and the periodic cleanup timers
  (`startPeriodic`, `stopPeriodic`) are not part of this model.
- A fallback that itself throws is not modelled; a fallback is a value.
- A call that rejects with `null` or `undefined` is not modelled: every
  rejection is an `Error` with a message and an optional status code. The
  source reads `error.message` and `error.statusCode` without a guard, so
  such a rejection raises a `TypeError` instead. This changes three paths:
  - `CircuitBreaker.execute` throws after `onFailure` has run, even when the
    breaker is now OPEN and a fallback was given. `FailedCallResponse` does
    not cover this case.
  - `RetryManager.execute` throws after the first call, with no retry.
    `RetryExhausts` and `ReturnsFirstSuccess` do not cover this case.
  - `runChecks` marks that check UNHEALTHY with a new `lastCheck`, then
    rejects. The later checks do not run and no result is returned.
- E-mail sending (`backend/utils/email.js`), Cloudinary upload, JWT signing
  and the authentication middleware that guards the admin routes are not
  part of this model. E-mail delivery is a boolean input that the handlers
  ignore.
- The other routes (`backend/routes/students.js`, the login page, seed and
  config scripts, `server.js`) are not part of this model.
- DOM work is not modelled: `applyZoom`, the counter's text, `showMessage`,
  `previewPhoto`, field colours, and the drop handler's assignment to
  `photoInput.files`.
- Concurrency is not modelled. Two concurrent registrations with one address
  can both pass the duplicate check before either inserts.
- Database failures are all-or-nothing: `storeUp` false makes the first
  query throw. A failure between a lookup and the write that follows is not
  modelled.
- The zod schema's `email()` and `url()` checks and bcrypt's comparison are
  abstract predicates. The error details of a 400 (`error.flatten()`) are
  not modelled, nor are body fields of a non-string type.
- The login cookie is an output value; the signed token is its payload.
- `backend/routes/adminLogin.js` counts no login attempts, so no rate
  limiter is modelled.
- `toLowerCase` is ASCII only. A JavaScript string's UTF-16 code units are
  modelled as Dafny characters, which affects the note's length, its
  `substring` and `Extension`.
- The order of `Object.entries` for integer-like keys, and keys that clash
  with `Object.prototype` names, are not modelled; the accumulator keeps
  insertion order.
- Performance.Percentile: requires `p <= 100`; the source is called only with
  0.95 and 0.99.

## Findings

| source | as written | input that shows it | evidently intended | confidence | as-written member | corrected member |
|---|---|---|---|---|---|---|
| frontend/admin.js:355-360 | `zoomOut` tests the level before subtracting the step, so a level of 60 goes to 40 | three zoom-out presses from the default level of 100 | the zoom level never goes below `MIN_ZOOM` (50); the viewer class uses the corrected zoom-out | medium, not executed | AdminPanel.ZoomOutPassesMinimum | AdminPanel.ClampedZoomStaysInBounds |
