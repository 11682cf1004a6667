# A verified model of the travel platform's protocols and domain algorithms

This project models, in Dafny, the parts of the platform whose correctness is not visible from one
function body: protocols with interleaved steps, incremental readers, recursion over cyclic data,
calendar and decimal arithmetic. One module models one source file, or one protocol.

| module | what it models |
|---|---|
| `PermissionCacheKey`, `PermissionCache` | the Redis cache in front of the role-permission query: Redis with expiry times, the database as a history of versions, every lookup as separate steps, any interleaving, any Redis failure, writes that take effect late |
| `TokenRefresh` | the web client's shared token refresh: responses, promise callbacks and resuming requests as single events over any number of requests |
| `Pagination`, `AuditLog` | keyset pages of the audit log and the walk over them while the table grows |
| `Redaction`, `RedactionOrder` | redaction of object graphs with a shared visited set |
| `CivilDate`, `DateStrings`, `Calendar`, `StayRanges`, `RentalInterval` | Gregorian dates, date strings, day enumeration, consumed stays, rental chronology |
| `StreamFraming` | the chunked reader of the assistant's event stream |
| `Migrations`, `SchemaCells`, `MigrationRepeats`, `MigrationRecovery` | the migration runner, with failures anywhere and DDL that is not rolled back; which files can be run again |
| `CapacityHolds`, `CapacityCommits` | reservation holds and capacity: transactions with row locks and unlocked reads, in any interleaving, and the ledger they leave |
| `Money` | decimal parsing, printing and minor-unit arithmetic |
| `EventBus` | the in-process event bus, with handlers that subscribe and unsubscribe while a publication is in flight |
| `Slug`, `StringHash` | slug normal form, the two string hashes |
| `Common`, `Decimal`, `Sorting` | string order and trimming, decimal digits, sorting |

Code that updates state in place is modelled by classes and loops whose contracts equate the new
state with a step function or a specification function; the theorems are about those functions, over
all runs. `dafny verify dfyconfig.toml` checks the whole project.

## Assumptions

- Redis, MySQL and the HTTP transport act in atomic single operations; a Redis entry is visible
  until its expiry and then not. Time is a count of seconds that never runs backwards.
- A database read sees the version current at one moment of the call; a plain read does not wait
  for row locks, and a locking read sees what is committed.
- A resent request keeps the `retried` mark (axios copies unknown configuration keys).
- `JSON.parse` undoes `JSON.stringify` on lists of keys, and `decodeCursor` undoes `encodeCursor`
  on positive ids (base64url, section 5 of RFC 4648).
- Rows that become visible between two pages have larger ids than all rows before.
- A JavaScript engine reads real dates and writes days as sections 15.9.1.3 to 15.9.1.15 of
  ECMA-262 edition 5.1 say; nothing is assumed about impossible days such as 2026-02-30.
- Unicode normalisation, mark removal and lower-casing leave text of `a-z0-9-` unchanged.
- The application's text columns are compared by their collation classes.

## Where the code differs from what is said about it

- The cache comment (cachedPermissionRepository.js:4-7) bounds a revocation by the time-to-live. A
  filler that read before the revocation can write after it, so the exact bound adds its
  read-to-write delay (`PermissionCache.RevocationBoundExact`).
- The cache key is ambiguous for role codes with commas (`PermissionCacheKey.CommaCollides`).
- One refresh for every expiry (client.js:61-65) holds while a refresh is in flight; a 401 arriving
  later makes another POST (`TokenRefresh.LateFailurePostsAgain`). The error of a failed resend is
  never seen by the caller (`TokenRefresh.RejectedWithTheFirstError`).
- `publish` can throw (domainEventBus.js:87) when a handler of the type is removed in flight
  (`EventBus.PublishThrowsExactly`), and can blame another handler
  (`EventBus.BlamesTheRightHandlerExactly`).
- Not every migration is idempotent (migrate.js:29-31): 0014, 0016, 0017, 0025, 0027, 0028, 0030,
  0034, 0035 and 0037 to 0041 add columns without a guard, 0019 adds an index, and 0031 drops a
  column (`MigrationRecovery.StuckExactly`, `MigrationRecovery.UnguardedColumnSticks`). `up 0` runs
  everything.
- Releasing a hold restores its capacity without having locked its row
  (availabilityService.js:1651-1680), so two overlapping removals of one hold restore it twice
  (`CapacityHolds.ConservedExactly`, `CapacityHolds.DoubleReleaseOverfills`).
- String order is not chronology for all the times the rental validator admits, such as 99:99
  (`RentalInterval.PickupMustBeClockTime`, `RentalInterval.ReturnMustHaveNoCarry`); and the same
  instant is accepted as a return when only the return is written with seconds.
- `Money` adds amounts of one currency without comparing their decimal places, and adds doubles
  (`Money.AddIsDecimalAddition`).
- `previousDay("0000-01-01")` is not a date string (`StayRanges.PreviousDayExact`).
- `redact` assigns an entry named `__proto__` to the prototype, and it is lost from the result
  (`Redaction.ShowsAllExactly`).

## Model

| member | source | states |
|---|---|---|
| `PermissionCacheKey.JoinInjective` | apps/api/src/infrastructure/cache/cachedPermissionRepository.js:45 | Comma-free non-empty lists with one joined string are the same list |
| `PermissionCacheKey.KeyIsTheMultiset` | apps/api/src/infrastructure/cache/cachedPermissionRepository.js:44-47 | For non-empty lists of comma-free codes: same cache key if and only if permutations of each other |
| `PermissionCacheKey.SameKeySameAnswer` | apps/api/src/infrastructure/database/repositories/permissionRepository.js:21-33 | Lists that share a key have the same SQL answer, under any grants |
| `PermissionCacheKey.OrderNeverMatters` | apps/api/src/infrastructure/cache/cachedPermissionRepository.js:14-16 | The order of the role codes never changes the key, commas or not |
| `PermissionCacheKey.CommaCollides` | apps/api/src/infrastructure/cache/cachedPermissionRepository.js:44-47 | Where the key is ambiguous: for all ordered a, b the one code "a,b" has the key of the pair a, b, and grants exist under which the answers differ |
| `PermissionCacheKey.KeySpelled` | apps/api/src/infrastructure/cache/cachedPermissionRepository.js:44-47 | The key as Redis gets it: `cache:permissions:` and the codes in order with commas between |
| `PermissionCacheKey.AnswerExact` | apps/api/src/infrastructure/database/repositories/permissionRepository.js:24-32 | The query answers with a permission exactly when some listed role has a row granting it |
| `PermissionCacheKey.AnswerConcat` | apps/api/src/infrastructure/database/repositories/permissionRepository.js:24-32 | The answer for two lists of roles together is the union of their answers |
| `PermissionCacheKey.AnswerOne` | apps/api/src/infrastructure/database/repositories/permissionRepository.js:24-32 | For one role the answer is what that role is granted, nothing for an unknown role |
| `PermissionCache.StepKeepsInv` | apps/api/src/infrastructure/cache/cachedPermissionRepository.js:49-70 | Every single step of any lookup or of the world keeps the provenance invariant: each stored entry and each answer comes from a database read, whose write took effect one time-to-live before the expiry; history is only extended |
| `PermissionCache.RunKeepsInv` | apps/api/src/infrastructure/cache/cachedPermissionRepository.js:49-70 | The invariant holds after every run, in any interleaving |
| `PermissionCache.MissIsCurrent` | apps/api/src/infrastructure/cache/cachedPermissionRepository.js:60-69 | Over every run, a lookup answered by the database returns exactly the permissions that some one of its roles granted in a version held at a moment during that call |
| `PermissionCache.HitIsBoundedStale` | apps/api/src/infrastructure/cache/cachedPermissionRepository.js:53-58 | Over every run, a cache hit at time g returns exactly what some one of its roles granted in a version the database held at the filler's read time r, with w <= g < r + ttl + (w - r), where w is when the filler's write took effect |
| `PermissionCache.NoRolesNoKeys` | apps/api/src/infrastructure/cache/cachedPermissionRepository.js:50 | A lookup for no roles returns no keys, over every run |
| `PermissionCache.RedisNeverRejects` | apps/api/src/infrastructure/cache/cachedPermissionRepository.js:18-20 | Whatever Redis does, a lookup is rejected only when the database read fails |
| `PermissionCache.OutageFallsThrough` | apps/api/src/infrastructure/cache/cachedPermissionRepository.js:53-69 | With Redis down for the read and the write, a lookup returns exactly what its roles are granted in the current version, and is rejected exactly when the database fails too |
| `PermissionCache.WrittenIsServed` | apps/api/src/infrastructure/cache/cachedPermissionRepository.js:53-64 | A stored answer is what a lookup of the same roles in any order gets, without the database, until the time-to-live has passed, and not afterwards |
| `PermissionCache.RemovedIsAMiss` | apps/api/src/infrastructure/cache/cachedPermissionRepository.js:53-58 | An evicted entry and one that is no JSON text are misses |
| `PermissionCache.RevocationHolds` | apps/api/src/infrastructure/cache/cachedPermissionRepository.js:4-7 | No run with fills within the delay returns a revoked permission to a lookup begun ttl + delay or later |
| `PermissionCache.RevocationBoundExact` | apps/api/src/infrastructure/cache/cachedPermissionRepository.js:4-7 | Exactly which bound is true: a revocation takes effect within `bound` in all runs with fill delay at most `delay` if and only if bound >= ttl + delay; the documented bound, ttl, holds only for delay 0 |
| `PermissionCache.SlowRunEnds` | apps/api/src/infrastructure/cache/cachedPermissionRepository.js:60-64 | The run that attains the bound: read, revoke, delayed write, hit in the last second of the entry |
| `PermissionCache.CachedPermissionRepository.constructor` | apps/api/src/infrastructure/cache/cachedPermissionRepository.js:33-42 | A new repository: nothing cached, 60 seconds by default |
| `PermissionCache.CachedPermissionRepository.Lookup` | apps/api/src/infrastructure/cache/cachedPermissionRepository.js:49-51 | The call up to its first wait is the step Begin, with the early return for an empty list |
| `PermissionCache.CachedPermissionRepository.ReceiveCached` | apps/api/src/infrastructure/cache/cachedPermissionRepository.js:53-58 | The settled cache read is the step CacheGet: hit, miss, expired, corrupt or failing |
| `PermissionCache.CachedPermissionRepository.ReceiveRows` | apps/api/src/infrastructure/cache/cachedPermissionRepository.js:60-61 | The settled database read is the step ReadDatabase, rejection included |
| `PermissionCache.CachedPermissionRepository.SendSet` | apps/api/src/infrastructure/cache/cachedPermissionRepository.js:63-64 | Issuing the cache write is the step IssueSet |
| `PermissionCache.CachedPermissionRepository.ExecuteSet` | apps/api/src/infrastructure/cache/cachedPermissionRepository.js:64 | Redis executing the write is the step ApplyWrite: entry and expiry, possibly after the caller gave up on it |
| `PermissionCache.CachedPermissionRepository.Finish` | apps/api/src/infrastructure/cache/cachedPermissionRepository.js:65-69 | The lookup returns what it read, however the write settled |
| `TokenRefresh.StepKeepsInv` | apps/web/src/api/client.js:66-122 | Every event keeps the invariant: one refresh in flight at most and the shared promise is that one; session-expired emitted once per failed refresh; every request consistent with the outcome of the refresh it joined |
| `TokenRefresh.OnePostOutstanding` | apps/web/src/api/client.js:66-91 | Over every run, two outstanding refresh POSTs are the same one, and it is the shared promise |
| `TokenRefresh.SentAtMostTwice` | apps/web/src/api/client.js:99-118 | Over every run, a request is sent once or twice, twice only after a refresh that gave a token, and an auth endpoint never joins a refresh |
| `TokenRefresh.ExpiryEmittedOnce` | apps/web/src/api/client.js:81-85 | Over every run, each failed refresh has emitted session-expired exactly once, a successful one never |
| `TokenRefresh.WaitersShareTheOutcome` | apps/web/src/api/client.js:111-117 | Over every run, requests that awaited one refresh are all resent, or all rejected, each with its own first error |
| `TokenRefresh.RejectedWithTheFirstError` | apps/web/src/api/client.js:110-117 | From the first refreshable error on, whatever happens later, a rejection carries that error, also when the resend is what failed |
| `TokenRefresh.StoreHoldsLatest` | apps/web/src/api/client.js:76-85 | Over every run without other logins or logouts, the stored token is the one of the latest refresh to have an outcome, none if it failed |
| `TokenRefresh.ResentWithTheNewToken` | apps/web/src/api/client.js:112-114 | Then a request resuming after the latest refresh is resent with the token it gave |
| `TokenRefresh.SentWithTheStoredToken` | apps/web/src/api/client.js:53-58 | Over every run, a request carries, until it is resent, `Bearer` with the non-empty token that was stored when it was sent, and no header when none or the empty one was |
| `TokenRefresh.ResentWithTheStoredToken` | apps/web/src/api/client.js:111-114 | Over every run, a request resuming after a renewed token is sent a second and last time with the non-empty token stored by then, a later login's too, and only without one with the token its refresh gave |
| `TokenRefresh.OutcomeOfTheReply` | apps/web/src/api/client.js:76-85 | Whatever else happens, a refresh settles as its POST was answered: renewed with the replied token, expired on an error or a malformed body |
| `TokenRefresh.BodyIsDelivered` | apps/web/src/api/client.js:94 | A success delivers its body to the caller, for good |
| `TokenRefresh.FailureIsReported` | apps/web/src/api/ApiError.js:22-50 | What a first failure that no refresh can mend shows the caller, for good: the server's own code, message and status; else a network error without a status exactly when there was no response or a network code; else an unknown error with the status and a message that is never empty |
| `TokenRefresh.StoredExactly` | apps/web/src/api/client.js:76-85 | Over every run, after a login or logout elsewhere the store holds what the latest refresh gives of those undecided then or begun since, and that login's token exactly while none of them is decided |
| `TokenRefresh.LogoutStandsExactly` | apps/web/src/api/client.js:76-80 | A logout is undone by a refresh in flight if and only if that refresh can still store a token: its POST is outstanding, or has been answered with a token not yet stored |
| `TokenRefresh.PostsExactlyWhen` | apps/web/src/api/client.js:68-108 | A POST is made exactly when, with no refresh in flight, a 401 with code UNAUTHENTICATED meets a request on the wire that is not to an auth endpoint and was not retried |
| `TokenRefresh.BurstMakesOnePost` | apps/web/src/api/client.js:61-65 | Until the refresh in flight finishes, any number of failures make one POST in all, none if one was in flight |
| `TokenRefresh.LateFailurePostsAgain` | apps/web/src/api/client.js:61-65 | A 401 that arrives after the refresh has finished makes a second POST although a new token is stored |
| `TokenRefresh.NoWaiterIsStuck` | apps/web/src/api/client.js:86-90 | From every reachable state, once the server replies, whatever the reply, the due callbacks leave no request waiting |
| `TokenRefresh.ApiClient.SendRequest` | apps/web/src/api/client.js:53-58 | The request interceptor is the step Send; which header that attaches is SentWithTheStoredToken |
| `TokenRefresh.ApiClient.RefreshAccessToken` | apps/web/src/api/client.js:68-91 | The shared promise is joined or made, with a POST only when made |
| `TokenRefresh.ApiClient.OnResponseError` | apps/web/src/api/client.js:95-121 | The response interceptor is the step Fail |
| `TokenRefresh.ApiClient.OnRefreshed` | apps/web/src/api/client.js:76-80 | The `then` callback is the step RunThen; a malformed reply makes it throw |
| `TokenRefresh.ApiClient.OnRefreshFailed` | apps/web/src/api/client.js:81-85 | The `catch` callback is the step RunCatch: token cleared, session-expired emitted |
| `TokenRefresh.ApiClient.OnRefreshSettled` | apps/web/src/api/client.js:86-88 | The `finally` callback is the step RunFinally |
| `TokenRefresh.ApiClient.ResumeRequest` | apps/web/src/api/client.js:111-117 | After its await a request is resent or rejected as the step Resume; with which header is ResentWithTheStoredToken |
| `AuditLog.NewestExact` | apps/api/src/infrastructure/database/repositories/auditLogRepository.js:121-133 | The query lists exactly the matching rows, strictly newest first |
| `AuditLog.FilterExact` | apps/api/src/infrastructure/database/repositories/auditLogRepository.js:90-113 | The conditions pushed for a filter select exactly the rows that agree with every field given |
| `AuditLog.BelowCuts` | apps/api/src/infrastructure/database/repositories/auditLogRepository.js:115-119 | Rows below the id of the k-th listed row are exactly the rows listed after it |
| `AuditLog.InsertsInvisible` | apps/api/src/infrastructure/database/repositories/auditLogRepository.js:13-16 | Rows inserted later with larger ids never appear below a cursor |
| `AuditLog.CutPage` | apps/api/src/infrastructure/database/pagination.js:49-62 | Over-fetching by one and cutting: has_more exactly when more than the limit match, the cursor is that of the last row kept, and the limit is reported |
| `AuditLog.PageExact` | apps/api/src/infrastructure/database/repositories/auditLogRepository.js:77-139 | A page fetched from a grown table is the next slice of the rows matched at the first fetch, with the right cursor and has_more |
| `AuditLog.WalkReturnsSnapshot` | apps/api/src/infrastructure/database/repositories/auditLogRepository.js:77-139 | The whole walk, for any limit of at least 1 and any larger-id inserts between pages: every row that matched at the first fetch exactly once, strictly descending, in exactly as many pages as those rows fill |
| `AuditLog.ListedWalkShowsSnapshot` | apps/api/src/infrastructure/database/repositories/auditLogRepository.js:77-139 | The walk over the pages that `list` returns, with other users on each page: complete exactly after as many pages as the rows matching at the first fetch fill, and then showing exactly those rows, each once, newest first, by every listed column |
| `AuditLog.DomainPageExact` | apps/api/src/infrastructure/database/repositories/auditLogRepository.js:24-40 | A returned page shows the rows that were cut, one for one: id, actor, action, target, both snapshots, address and time of each, and its actor's name if that user exists |
| `AuditLog.NameExact` | apps/api/src/infrastructure/database/repositories/auditLogRepository.js:28-31 | An actor's name is both names with one space between, or the non-empty one, or none without either |
| `AuditLog.MalformedCursorStartsOver` | apps/api/src/infrastructure/database/repositories/auditLogRepository.js:115-119 | An empty cursor, and one that decodes to no usable id, give the first page |
| `AuditLog.PageCountIsCeiling` | apps/api/src/infrastructure/database/repositories/auditLogRepository.js:132 | The page count is the ceiling of matches over limit |
| `AuditLog.AuditLogRepository.Record` | apps/api/src/infrastructure/database/repositories/auditLogRepository.js:50-75 | Recording only appends a row with the whole entry, under an id larger than all before |
| `AuditLog.AuditLogRepository.List` | apps/api/src/infrastructure/database/repositories/auditLogRepository.js:77-139 | The conditions pushed one by one, the over-fetching query, the cut and the mapping give the specified page, which shows each cut row in its place by every column |
| `Redaction.RedactValue` | apps/api/src/infrastructure/observability/sentryErrorTracker.js:22-36 | The recursive procedure with its shared visited set and key loop terminates on every graph and computes the specified tree and set |
| `Redaction.RedactCopies` | apps/api/src/infrastructure/observability/sentryErrorTracker.js:22-36 | The result is a copy: primitives kept, entries in order, the value at every sensitive key replaced, nothing else replaced but repeated objects |
| `Redaction.CopiedOnce` | apps/api/src/infrastructure/observability/sentryErrorTracker.js:24-25 | The objects copied are the newly seen ones, each exactly once |
| `Redaction.SeenIsReached` | apps/api/src/infrastructure/observability/sentryErrorTracker.js:24-33 | Every object seen is reached from the value without going through a sensitive key |
| `Redaction.SeenIsClosed` | apps/api/src/infrastructure/observability/sentryErrorTracker.js:24-33 | Every object such an edge leads to from a seen object is seen |
| `Redaction.RedactExact` | apps/api/src/infrastructure/observability/sentryErrorTracker.js:22-36 | On any graph, cyclic or shared: a copy in which exactly the objects reachable without a sensitive key are expanded, each once |
| `Redaction.CopiesAtEveryDepth` | apps/api/src/infrastructure/observability/sentryErrorTracker.js:30-34 | At every depth each copy replaces the values of its source's sensitive keys |
| `RedactionOrder.FirstOccurrenceCopied` | apps/api/src/infrastructure/observability/sentryErrorTracker.js:24-33 | Of each object the first occurrence in depth-first order is copied, unless it was seen before, and every later one is the marker; what is seen afterwards is what was met |
| `Redaction.ShowsAllExactly` | apps/api/src/infrastructure/observability/sentryErrorTracker.js:29-35 | Nothing is lost, on any graph: every reached object is in the result, read by own properties, with every item and entry it has, if and only if none of them has an entry named `__proto__` |
| `Redaction.PrimitivesKept` | apps/api/src/infrastructure/observability/sentryErrorTracker.js:23-35 | While no reached object keeps an object under `__proto__`: the primitive at a place of a reached object is shown by that object in the result if and only if its key is not `__proto__` |
| `Redaction.ProtoEntryVanishes` | apps/api/src/infrastructure/observability/sentryErrorTracker.js:29-34 | The input: redacting the parsed text {"__proto__": 5} gives an object without properties |
| `CivilDate.CivilOfDay` | apps/api/src/core/domain/accommodationDateSemantics.js:43-47 | The date of a day number is valid and has that day number, over all integers (leap years, centuries) |
| `CivilDate.CivilRoundTrip` | apps/api/src/core/domain/accommodationDateSemantics.js:43-47 | Every valid Gregorian date is the date of its day number: with the former, a bijection |
| `CivilDate.BeforeIsDayOrder` | apps/api/src/core/domain/calendarExpansion.js:15-19 | Order on year, month, day is order of day numbers |
| `CivilDate.NextDayAddsOne` | apps/api/src/core/domain/calendarExpansion.js:57 | Carrying into month and year is adding one day |
| `DateStrings.OrderIsChronological` | apps/api/src/core/domain/calendarExpansion.js:15-19 | String order of date strings is chronological order, and equal strings are equal days |
| `DateStrings.EcmaEngineConforms` | apps/api/src/validation/isoDate.js:18-21 | An engine that writes ISO strings as ECMA-262 does meets the assumptions used below, signed six-digit years included |
| `DateStrings.SchemaAcceptsRealDates` | apps/api/src/validation/isoDate.js:13-25 | Whatever the engine makes of impossible days, exactly the zero-padded real dates of years 0000 to 9999 are accepted |
| `Calendar.EnumerateDates` | apps/api/src/core/domain/calendarExpansion.js:46-60 | The loop stepping by 24 hours terminates and returns the specified list, or the range error |
| `Calendar.EnumerationExact` | apps/api/src/core/domain/calendarExpansion.js:35-60 | For real dates in order: exactly the dates between them, strictly increasing, each the calendar successor of the one before, as many as the day difference plus one |
| `Calendar.VetoByDay` | apps/api/src/core/domain/calendarExpansion.js:29-33 | The veto by string comparison is the veto by day number |
| `Calendar.ExpansionExact` | apps/api/src/core/domain/calendarExpansion.js:72-83 | Entry n is the day n after the start, and it is available exactly when no blackout covers it and its row, if any, says so |
| `Calendar.SpanErrorsExact` | apps/api/src/core/domain/calendarExpansion.js:46-83 | For any texts: enumerating and expanding fail exactly when the span ends before it starts, and a bound that is no date gives no days |
| `StayRanges.UtcDate.SetUTCDate` | apps/api/src/core/domain/accommodationDateSemantics.js:45 | Replacing the date field moves the day by the difference, carrying over months and years |
| `StayRanges.PreviousDay` | apps/api/src/core/domain/accommodationDateSemantics.js:43-47 | The in-place date computation gives the specified day before, or throws on an invalid date |
| `StayRanges.PreviousDayExact` | apps/api/src/core/domain/accommodationDateSemantics.js:43-47 | The result is the date one day earlier if and only if the date is not 0000-01-01 |
| `StayRanges.LodgingExact` | apps/api/src/core/domain/accommodationDateSemantics.js:34-41 | The types whose stays end before checkout are exactly HOTEL_ROOM and PROPERTY_UNIT |
| `StayRanges.ResolvedExact` | apps/api/src/core/domain/accommodationDateSemantics.js:58-63 | For any texts: the range starts where the request does and ends there too for a same-day request and for anything but lodging; only lodging can fail, exactly on an unreadable date |
| `StayRanges.NightsConsumed` | apps/api/src/core/domain/accommodationDateSemantics.js:58-63 | A stay in a HOTEL_ROOM or PROPERTY_UNIT consumes the days from check-in up to checkout, or its one day |
| `StayRanges.StaysSplit` | apps/api/src/core/domain/accommodationDateSemantics.js:58-63 | Consecutive stays share no night, together consume exactly the long stay, and nights are day differences |
| `StayRanges.RentalsShareTheMeetingDay` | apps/api/src/core/domain/accommodationDateSemantics.js:58-63 | Consecutive rentals share exactly the meeting day |
| `RentalInterval.TimeOrder` | apps/api/src/core/domain/rentalIntervalValidation.js:12-18 | String order of times is field order, except that adding seconds makes an equal time later |
| `RentalInterval.AcceptedByFields` | apps/api/src/core/domain/rentalIntervalValidation.js:44-49 | Acceptance in terms of day, hour, minute and second, for all times the validator lets through |
| `RentalInterval.AcceptedByInstants` | apps/api/src/core/domain/rentalIntervalValidation.js:31-50 | Between clock times: accepted if and only if the return is strictly later, or the same instant with seconds written only on the return |
| `RentalInterval.AcceptedIsNotBefore` | apps/api/src/core/domain/rentalIntervalValidation.js:44-49 | From a pickup at a time of day an accepted return is never before it, and strictly later in the same width, whatever the return fields are |
| `RentalInterval.PickupMustBeClockTime` | apps/api/src/modules/booking-holds/validators/bookingHoldValidators.js:21-24 | In the same width, accepted always means strictly later, for every return the validator admits, if and only if the pickup is a time of day |
| `RentalInterval.ReturnMustHaveNoCarry` | apps/api/src/core/domain/rentalIntervalValidation.js:31-50 | In the same width, strictly later always means accepted, for every pickup the validator admits, if and only if no carry is due in the return: its seconds are at most 60 or its minutes 99, and its minutes and seconds make at most an hour or its hours are 99 |
| `RentalInterval.LaterReturnRejected` | apps/api/src/core/domain/rentalIntervalValidation.js:44-48 | The input: pickup 10:30, return 09:99 on one date is nine minutes later and rejected |
| `StreamFraming.BlankLineIsFirst` | apps/web/src/api/aiStreamClient.js:50 | The blank line a split finds is the first one |
| `StreamFraming.SplitExact` | apps/web/src/api/aiStreamClient.js:50-51 | The pieces are the one leftmost cut at blank lines that joins back to the text |
| `StreamFraming.SplitAppended` | apps/web/src/api/aiStreamClient.js:49-51 | Appending text: completed frames stand, only the tail is split again |
| `StreamFraming.DeliverConcat` | apps/web/src/api/aiStreamClient.js:53-60 | Delivering frames in two batches is delivering them in one, a parse error ending both |
| `StreamFraming.DeliveryExact` | apps/web/src/api/aiStreamClient.js:53-60 | Delivery stops at the first frame whose data does not parse, if there is one, and fails exactly then; the values are, one for each earlier frame with a `data: ` line and in order, the parse of that frame's first data |
| `StreamFraming.LinesExact` | apps/web/src/api/aiStreamClient.js:54-55 | The lines of a frame are the one cut at line feeds that joins back to it |
| `StreamFraming.FirstDataExact` | apps/web/src/api/aiStreamClient.js:54-58 | The data of a frame is what follows `data: ` on its first such line; there is none exactly without such a line |
| `StreamFraming.StreamAssistantMessage` | apps/web/src/api/aiStreamClient.js:41-62 | For every chunking, the reader yields the parse of the first data of each complete frame of the whole text that has any, in order, up to the first that does not parse, and fails exactly if there is one; the unterminated tail is dropped |
| `StreamFraming.YieldFrames` | apps/web/src/api/aiStreamClient.js:53-60 | The inner loop appends what its frames deliver, as DeliveryExact says, to what was yielded |
| `Migrations.ListingExact` | apps/api/src/infrastructure/database/migrate.js:46-67 | Listing fails exactly on a misnamed file; otherwise all files in version order, strictly ascending exactly when versions are distinct |
| `Migrations.PendingExact` | apps/api/src/infrastructure/database/migrate.js:115-118 | The pending files are exactly the unrecorded ones, in the order of the list |
| `Migrations.ChosenExact` | apps/api/src/infrastructure/database/migrate.js:119 | No number and 0 choose all pending files, n the first n, and -n all but the last n |
| `Migrations.RowsExact` | apps/api/src/infrastructure/database/migrate.js:152-155 | The rows to revert are exactly the records, the latest version first |
| `Migrations.Database.ExecuteStatements` | apps/api/src/infrastructure/database/migrate.js:102 | A multi-statement file runs up to its first rejected statement, and what ran stays |
| `Migrations.Database.RunMigration` | apps/api/src/infrastructure/database/migrate.js:99-109 | One file and its record: only the record is rolled back |
| `Migrations.Database.MigrateUp` | apps/api/src/infrastructure/database/migrate.js:111-146 | The up loop computes the specified outcome, failures at any point included; what it runs is UpRunsScripts |
| `Migrations.Database.MigrateDown` | apps/api/src/infrastructure/database/migrate.js:148-179 | The down loop computes the specified outcome, missing files, failures and a negative limit included; what it runs is DownRunsScripts |
| `Migrations.CommandsKeepPrefix` | apps/api/src/infrastructure/database/migrate.js:111-179 | From a prefix of the list, every sequence of up and down commands, failing anywhere, leaves a prefix recorded |
| `Migrations.UpRunsScripts` | apps/api/src/infrastructure/database/migrate.js:99-146 | Whatever fails, up from a prefix has run the up files of the next migrations in order, each in full before its record, and at most a beginning of the one file after the last record |
| `Migrations.DownRunsScripts` | apps/api/src/infrastructure/database/migrate.js:99-179 | Whatever fails, down from a prefix has run the down files of the migrations that lost their record, newest first, and at most a beginning of the one file after them |
| `Migrations.UpCompletesExactly` | apps/api/src/infrastructure/database/migrate.js:111-146 | An undisturbed up completes exactly when the chosen files run one after another |
| `Migrations.DownCompletesExactly` | apps/api/src/infrastructure/database/migrate.js:148-179 | An undisturbed down completes exactly when the down files exist and run one after another; a negative number of steps is rejected before anything runs |
| `Migrations.UpThenDown` | apps/api/src/infrastructure/database/migrate.js:111-179 | A successful up(n), 1 <= n <= pending, then a successful down(n) restore the recorded set, and have run exactly the n up files in order and then their n down files in the opposite order |
| `Migrations.UpThenDownRestores` | apps/api/src/infrastructure/database/migrate.js:111-179 | When each down file undoes its up file on the schema that file met, a successful up(n) and then a successful down(n) restore the schema as well as the records |
| `SchemaCells.QuietAbsorbs` | apps/api/src/infrastructure/database/migrate.js:29-31 | For one table column: statements that only create its table if missing and modify it, run after any first part of them, give the result of one run |
| `MigrationRepeats.RepeatableWithoutDrops` | apps/api/src/infrastructure/database/migrate.js:29-31 | A file that drops no table is repeatable if and only if it adds and drops no column, key or constraint |
| `MigrationRepeats.RepeatsExactly` | apps/api/src/infrastructure/database/migrate.js:29-31 | A repeatable file that runs can be run after any part of it, with exactly the schema of one run, definitions included |
| `MigrationRepeats.RerunExact` | apps/api/src/infrastructure/database/migrate.js:29-31 | For every script that runs: it runs again after every partial run if and only if it is repeatable, a condition on its text alone |
| `MigrationRepeats.JammedStays` | apps/api/src/infrastructure/database/migrate.js:24-29 | A file jammed at a statement stays jammed there whatever part of it is run |
| `MigrationRecovery.FailuresLeaveNoTrace` | apps/api/src/infrastructure/database/migrate.js:24-31 | When the pending files are repeatable and an undisturbed up would complete: after any up runs failing anywhere, the next undisturbed one completes with the same schema and records; a further up changes nothing |
| `MigrationRecovery.JammedForever` | apps/api/src/infrastructure/database/migrate.js:111-146 | Behind a jammed file no sequence of up calls records anything |
| `MigrationRecovery.StuckExactly` | apps/api/src/infrastructure/database/migrate.js:99-146 | For a next file that runs: some lost connection leaves the runner stuck at it for good if and only if the file is not repeatable |
| `MigrationRecovery.UnguardedColumnSticks` | apps/api/src/infrastructure/database/migrations/0014_search_filter_metadata.up.sql:25-261 | Migration 0014 and every file of its shape, guarded creations around an unguarded column: losing the connection anywhere after that column leaves the runner stuck |
| `Money.DecimalStringExact` | apps/api/src/core/domain/money.js:21 | The accepted strings are exactly a sign, digits, and a point with digits |
| `Money.PrintedParts` | apps/api/src/core/domain/money.js:69-78 | The printed form is a decimal string with the sign of the amount and exactly the currency's decimal places |
| `Money.PrintThenParse` | apps/api/src/core/domain/money.js:52-78 | For every safe amount and every number of decimal places, parsing the print gives the money back |
| `Money.ParseTruncates` | apps/api/src/core/domain/money.js:51-67 | Parsing truncates toward zero by less than one minor unit and keeps the sign |
| `Money.ParseExact` | apps/api/src/core/domain/money.js:51-67 | What any text gives that is, trimmed, a sign, whole digits and fraction digits: the one amount that truncates the value written, with its sign and the upper-cased currency; an error for an unsafe amount or a blank currency |
| `Money.ParseRejects` | apps/api/src/core/domain/money.js:54-56 | Exactly the other texts are rejected as no decimal string |
| `Money.CanonicalUnique` | apps/api/src/core/domain/money.js:69-78 | Two strings in the printer's form with one value are one string |
| `Money.ParseThenPrint` | apps/api/src/core/domain/money.js:52-78 | Printing a parsed text gives it back if and only if it is in the printer's form, and parsing the print again changes nothing |
| `Money.SafeSum` | apps/api/src/core/domain/money.js:96-112 | A sum of two safe amounts is kept by a double up to 2^53 and beyond it when even; otherwise it is off by one |
| `Money.AddIsDecimalAddition` | apps/api/src/core/domain/money.js:96-112 | For safe amounts, adding is decimal addition if and only if the decimal places agree or the argument is zero, and the sum is at most 2^53 or even; subtracting undoes it if and only if the latter |
| `Money.MismatchExactly` | apps/api/src/core/domain/money.js:88-112 | Adding and subtracting fail on the currency exactly when the currencies differ, and subtracting is adding the negation |
| `Money.NearestIsNearest` | apps/api/src/core/domain/money.js:96-112 | The double a sum is rounded to is the nearest multiple of its last bit, of two equally near the even one |
| `Money.AddRounds` | apps/api/src/core/domain/money.js:96-112 | The input: 9007199254740991 + 2 minor units gives 9007199254740992, and subtracting 2 gives 9007199254740990 |
| `EventBus.DeletedDistinct` | apps/api/src/core/events/domainEventBus.js:53-55 | Unsubscribing removes exactly the handler and keeps the set a set |
| `EventBus.SubscribedExact` | apps/api/src/core/events/domainEventBus.js:48-51 | A subscribed handler is in the set of its type, behind those that were there and once only, and every other type is as it was |
| `EventBus.UnsubscribedExact` | apps/api/src/core/events/domainEventBus.js:53-55 | An unsubscribed handler leaves its set, the others keep their order, and every other type is as it was |
| `EventBus.DomainEventBus.SubscribeHandler` | apps/api/src/core/events/domainEventBus.js:36-51 | Subscribing fails exactly on a type that is blank after trimming, changing nothing, and otherwise adds the handler as SubscribedExact says |
| `EventBus.DomainEventBus.UnsubscribeHandler` | apps/api/src/core/events/domainEventBus.js:53-55 | Unsubscribing removes the handler from its type only |
| `EventBus.DomainEventBus.StartPublish` | apps/api/src/core/events/domainEventBus.js:66-73 | The handlers of the type are spread into a list before the wait |
| `EventBus.DomainEventBus.FinishPublish` | apps/api/src/core/events/domainEventBus.js:85-98 | The loop over the results, looking handlers up in the live set, reports as specified, a throw included |
| `EventBus.RunKeepsSets` | apps/api/src/core/events/domainEventBus.js:48-55 | Whatever subscribes and unsubscribes, the handlers of each type stay a set |
| `EventBus.InvokedExactlyOnce` | apps/api/src/core/events/domainEventBus.js:66-83 | On a bus with any history, whatever handlers and subscribers do in between: the handlers invoked are those registered at the start, in order, none twice, later ones never, and all of them once all have settled |
| `EventBus.PublishThrowsExactly` | apps/api/src/core/events/domainEventBus.js:85-98 | `publish` throws if and only if a failed handler's index is past the end of the live set |
| `EventBus.NeverThrowsExactly` | apps/api/src/core/events/domainEventBus.js:58-63 | It throws for no outcomes if and only if the live set is at the end no smaller than at the start |
| `EventBus.BlamesTheRightHandlerExactly` | apps/api/src/core/events/domainEventBus.js:87-96 | Every failure is logged against its own handler, for all outcomes, if and only if the list spread at the start is a prefix of the live set |
| `EventBus.ReportsEveryFailure` | apps/api/src/core/events/domainEventBus.js:58-63 | When no handler of the type is removed in flight, nothing is thrown and every failure is logged against the handler that failed |
| `EventBus.SelfRemovalThrows` | apps/api/src/core/events/domainEventBus.js:85-98 | A lone handler that unsubscribes itself and then fails makes `publish` throw |
| `Slug.FullSlugByWords` | apps/api/src/core/domain/slugify.js:23-28 | The pattern steps give the maximal alphanumeric runs of the folded text joined by single hyphens |
| `Slug.WordsExact` | apps/api/src/core/domain/slugify.js:27 | The words are all there is of `a-z` and `0-9` in the text, cut wherever anything else stands between |
| `Slug.AlphabetExact` | apps/api/src/core/domain/slugify.js:27 | The characters of words are exactly the 26 letters and the 10 digits |
| `Slug.SlugWellFormed` | apps/api/src/core/domain/slugify.js:18-31 | Every slug is words joined by single hyphens with none at either end, under every limit |
| `Slug.SlugIsLongestFit` | apps/api/src/core/domain/slugify.js:29-30 | The slug under a limit is the longest well-formed prefix of the full slug that fits |
| `Slug.SlugPrefix` | apps/api/src/core/domain/slugify.js:29-30 | A smaller limit gives a prefix of the slug under a larger one |
| `Slug.SlugifyIdempotent` | apps/api/src/core/domain/slugify.js:18-31 | Slugifying a slug again under the same or a larger limit changes nothing |
| `CapacityHolds.RestoreWorkSum` | apps/api/src/modules/availability/services/availabilityService.js:142-159 | Grouping hold rows by unit and range restores exactly one for each row and each date it covers |
| `CapacityHolds.GroupHoldsByRange` | apps/api/src/modules/availability/services/availabilityService.js:142-159 | The grouping loop gives the specified groups |
| `CapacityHolds.DeletedBalance` | apps/api/src/modules/availability/repositories/mysqlReservationHoldRepository.js:152-159 | Of the hold rows a transaction read, what it deletes and what it finds gone make up the whole |
| `CapacityHolds.StepKeepsInv` | apps/api/src/modules/availability/services/availabilityService.js:1428-1775 | Every step of any transaction keeps every slot balanced and every other transaction in order |
| `CapacityHolds.NeverNegative` | apps/api/src/modules/availability/services/availabilityService.js:1592-1628 | Over every interleaving of reservations, releases, bookings and expiry sweeps, with any aborts: no calendar row goes below zero, and each is its capacity, 1 for a unit without one, plus the sum of its ledger |
| `CapacityHolds.ConservedExactly` | apps/api/src/modules/availability/services/availabilityService.js:1651-1775 | Over every interleaving: available is capacity less held and booked, if and only if no removal covering the slot has found one of its hold rows already deleted; otherwise it is more, by the number of those |
| `CapacityHolds.ExclusiveConserves` | apps/api/src/modules/availability/services/availabilityService.js:1651-1775 | Over every run in which no two transactions at work have read one hold row, capacity is conserved and never oversold |
| `CapacityHolds.DoubleReleaseOverfills` | apps/api/src/modules/availability/services/availabilityService.js:1651-1680 | The input: two overlapping releases of one hold of the only room leave two available |
| `CapacityHolds.Inventory.LockForCapacity` | apps/api/src/modules/availability/repositories/mysqlAvailabilityCalendarRepository.js:187-216 | Locking, checking and writing the next row is the step Advance; a row locked by another waits |
| `CapacityHolds.Inventory.RollBack` | apps/api/src/infrastructure/database/transaction.js:47-59 | An ended transaction releases its locks and leaves the committed rows as they were |
| `CapacityHolds.Inventory.ReleaseHold` | apps/api/src/modules/availability/services/availabilityService.js:1651-1662 | Releasing fails unless every hold is active and the caller's, and otherwise reads and groups their rows |
| `CapacityCommits.ReleaseBeginsExactly` | apps/api/src/modules/availability/services/availabilityService.js:1651-1662 | A release reads its hold rows exactly when all are live, unexpired, the caller's and none is named twice; otherwise nothing happens |
| `CapacityCommits.ConsumeBeginsExactly` | apps/api/src/modules/availability/services/availabilityService.js:1687-1699 | Likewise turning holds into a booking |
| `CapacityCommits.SweepBeginsExactly` | apps/api/src/modules/availability/repositories/mysqlReservationHoldRepository.js:167-176 | The sweep takes exactly live rows that have run out, anybody's |
| `CapacityCommits.AdvanceExact` | apps/api/src/modules/availability/services/availabilityService.js:1592-1620 | A transaction's next write: a reservation of more than it sees in the row ends; any other locks the row and then sees it, and no other, changed by that much |
| `CapacityCommits.CommitWrites` | apps/api/src/infrastructure/database/transaction.js:47-59 | A commit makes every row what the transaction saw there, appends its entries to the ledger and frees its locks |
| `CapacityCommits.ReservationCommits` | apps/api/src/modules/availability/services/availabilityService.js:1622-1634 | A committed reservation leaves as many new hold rows as it asked for, of its range, user and expiry, and the others as they were |
| `CapacityCommits.RemovalCommits` | apps/api/src/modules/availability/services/availabilityService.js:1664-1703 | A committed removal deletes exactly the hold rows it has read; consuming them books their spans, one for each |
| `CapacityCommits.LedgerAddsUp` | apps/api/src/modules/availability/services/availabilityService.js:1467-1485 | Over every interleaving, each ledger entry states the quantity its row had just before it, the capacity with all earlier entries of that row, and the quantity after it |
| `CapacityCommits.GrantedExactly` | apps/api/src/modules/availability/services/availabilityService.js:1576-1645 | A reservation that nobody disturbs and no veto ends is granted if and only if every day of its range has at least the quantity it asks for |
| `StringHash.PolynomialConcat` | packages/ui/src/utils/hashStringToIndex.js:12-16 | The concatenation law of the base-31 polynomial |
| `StringHash.HashStringToIndex` | packages/ui/src/utils/hashStringToIndex.js:10-18 | The shift-and-wrap loop is the base-31 polynomial reduced to signed 32 bits; the index is in range for every palette but an empty one |
| `StringHash.Hash32Concat` | packages/ui/src/utils/hashStringToIndex.js:12-16 | The wrapped hash of a concatenation follows from the wrapped hashes of its parts |
| `StringHash.SeedToIndex` | apps/web/src/components/DestinationArt/DestinationArt.jsx:89-102 | The sibling loop is the same polynomial modulo 2147483647, every intermediate a safe integer; a number is truncated toward zero |

## Left out

- Money.PrintThenParse: amounts above 2^53 - 1 are left out, because the printer turns to exponents and the parser to rounding; the parser model reports such magnitudes as an error.
- Money.ParseTruncates: likewise only for magnitudes up to 2^53 - 1; negative zero is zero here, and only ASCII letters of a currency code are upper-cased.
- Money.AddIsDecimalAddition: stated for operands up to 2^53 - 1; the sum is any double, and an infinite one is an error.
- PermissionCache.RevocationBoundExact: a time-to-live of 0 is excluded, because Redis refuses it.
- Redaction.RedactExact: getters, proxies and holes in arrays are not modelled; an object is the list of its own enumerable entries.
- MigrationRepeats.RerunExact: statements create and drop tables, and add, modify and drop one column, key or constraint each; an ALTER TABLE of several clauses is several statements here, RENAME INDEX, INSERT and UPDATE in migration files are not modelled, and a foreign key does not look at the table it refers to.
- Redaction.PrimitivesKept: when an object is kept under `__proto__`, what of it is still shown elsewhere depends on the order of the visit; that case is covered by ShowsAllExactly only.
- CapacityHolds.ConservedExactly: one reservation in a transaction, fixed unit capacities, and bookings that are not cancelled; blocks, external reservations, calendar edits and the removal of calendar rows are other writers that the model leaves out, and deadlocks are aborts.
- CapacityCommits.GrantedExactly: blackouts and blocked days are vetoes that may end a reservation at any time, without their own condition.
- Slug.SlugifyIdempotent: Unicode folding is a parameter, assumed to keep text of `a-z0-9-`.
- AuditLog.WalkReturnsSnapshot: rows deleted by hand are not modelled; a cursor decodes to an id or to nothing.
- StreamFraming.StreamAssistantMessage: chunks are decoded text; the request, its status check and the UTF-8 decoder are not modelled, and `JSON.parse` is a parameter that may fail.
- TokenRefresh.OnePostOutstanding: speaks of this module only; the bootstrap refresh of `AuthProvider` is a promise of its own.
- Reading migration files, connections, logging and the `status` command: input and output only.
- Two runners at once on one database, and two processes sharing one Redis key outside this protocol.
- `Money.multiply` and the comparison getters: floating-point rounding, or single expressions.
- Express wiring, guards, React components, configuration, storage, queues and the Sentry client: plumbing over libraries.
- Booking, payment and refund services, and the rest of the availability service: pricing, permissions, events and imports.
- Status tables, role seeds, capability matrices and sort options: small finite tables with only easy members.
- Encryption, tokens and password hashing: foreign cryptography.
