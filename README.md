# exclusive-lock, modelled in Dafny

`ExclusiveLock` (lib/exclusive-lock.js) is a distributed lock for Node.js processes.
It is built on a Redis-compatible cache. An instance owns the lock when its
`SET <lock name> <contents> PX <lock_ttl_ms> NX` creates the key. While it holds the
lock, a timer sends `PEXPIRE` every `lock_refresh_ms`, unless `auto_refresh` is
false. `release()` stops the timer and deletes the key. `inspect()` reads the key
back and parses it with the reviver of lib/json-parse-filter.js, which turns
ISO-8601 timestamps into Dates.

The model has these parts:

- `Wrappers`: the `Option` and `Result` types.
- `Slugs`: `app_name.replace(/[\s\W]+/g, '-')`. Every maximal run of characters
  outside `[A-Za-z0-9_]` becomes one `-`.
- `LockOptions`: the constructor's checks in their fixed order, its defaults
  (3000 ms time to live, 1000 ms refresh, contents `1`, auto-refresh on) and the
  derived lock name `lock-manager:<slug>`.
- `RedisStore`: the cache.
  - It is a map from key to value and remaining time to live, with the four
    commands the lock uses and the passing of time.
  - Each command either completes or has its promise rejected. A rejected
    command may or may not have reached the server.
  - `Store` is the shared server object that the lock instances update in place.
- `ExclusiveLocking`: one pure step function per operation, and the class
  `ExclusiveLock`.
  - A step function gives the new instance fields, the new store, the ordered
    store commands and timer operations, and the reply.
  - The class keeps `got_lock`, `is_refreshing` and whether the refresh timer
    runs. Its methods are proved to follow the step functions.
  - `refresh()` returns before its `PEXPIRE` settles, so it is split into
    `RefreshStart` (raise the flag, send `PEXPIRE`) and `RefreshSettle` (the
    `finally` that lowers the flag).
- `IsoDateReviver`: the regular expression
  `\d{4}-\d{2}-\d{2}T\d{2}:\d{2}:\d{2}.\d{3}Z` as 24 character classes tried at
  every position, and the reviver built on it.
- `LeaseProperties`: properties of one instance across several operations.
- `MutualExclusion`: two instances on one key and one store, under any
  interleaving of their operations and of time.
  - At most one instance holds the lock, and the holder's key is in the store.
    This needs both refresh intervals to be positive, and no held key may run out
    of time.
  - Two counterexamples show that neither condition can be dropped.
  - `Interleave` proves the same for two `ExclusiveLock` objects that share one
    `Store` and run a schedule.

The option names follow lib/exclusive-lock.js. The constructor reads `app_name`,
and the schema rules follow test/fixtures/schema.js, which requires `app_name`.
The code and lib/schemas/instantiation-options.js disagree: that file declares
the property as `name`. The integration tests in test/integration/exclusive-lock.js
also belong to a later revision. They expect an `exclusive-lock:` prefix,
`key_prefix`, events and an `acquired` property. The model follows the code as
written, with prefix `lock-manager:` and no events.

## Model

| member | source | states |
|---|---|---|
| Slugs.Slug | lib/exclusive-lock.js:69 | each maximal run of non-word characters becomes one `-` and word characters are copied (stated by the Slug* lemmas below); the result is empty exactly when the name is empty |
| Slugs.SlugIsSlug | lib/exclusive-lock.js:69 | the normalised name holds only word characters and `-`, and never two `-` in a row |
| Slugs.SlugKeepsWords | lib/exclusive-lock.js:69 | the word characters of the name survive in order, and no others appear |
| Slugs.SlugIsCollapsedDashify | lib/exclusive-lock.js:69 | the replacement equals an independent definition: map every separator to `-`, then collapse runs of `-` |
| Slugs.SlugFixesSlugs | lib/exclusive-lock.js:69 | a name already in slug form is unchanged |
| Slugs.SlugIdempotent | lib/exclusive-lock.js:69 | normalising twice equals normalising once; a name is a fixed point exactly when it is in slug form |
| Slugs.SlugKeepsWordRun | lib/exclusive-lock.js:69 | a run of word characters is copied unchanged in front of the rest |
| Slugs.SlugCollapsesSeparatorRun | lib/exclusive-lock.js:69 | a maximal run of separators becomes exactly one `-` |
| Slugs.SlugJoinsWords | lib/exclusive-lock.js:69 | words separated by separator runs come out joined by single dashes |
| LockOptions.Violations | test/fixtures/schema.js:9-65 | lists exactly the broken schema rules (required `app_name` and `cache_connection`, co-required timings, non-empty `app_name`, object `cache_connection`), and the first listed is the earliest broken rule in the validator's order |
| LockOptions.LockName | lib/exclusive-lock.js:69-75 | the key is `lock-manager:` followed by a slug |
| LockOptions.Configure | lib/exclusive-lock.js:17-80 | construction succeeds exactly when all four checks pass; every error has code EINVAL; checks run in order: logger first, then the first broken schema rule, then `set`, then the 500 ms spacing with its values; a success is well formed with the slugged name, chosen timings and defaults |
| LockOptions.DefaultTimingsPass | lib/exclusive-lock.js:39-55 | with no timings given, the defaults 3000/1000 are used and pass the spacing check |
| LockOptions.NoOptionsFails | lib/exclusive-lock.js:18-24 | a missing options object is reported as a missing logger |
| LockOptions.ValidationOrderExamples | test/integration/errors.js:43-99 | only the earliest broken rule is reported: a missing `app_name` before a missing `cache_connection`, and a lone `lock_ttl_ms` |
| LockOptions.SpacingExample | lib/exclusive-lock.js:54-66 | 500/100 fails with a RangeError carrying 500, 100 and diff 400 |
| LockOptions.LockNameJoinsWords | lib/exclusive-lock.js:69-75 | a name of words and separator runs gets the key `lock-manager:` plus the words joined by `-` |
| LockOptions.ExampleNameIsSpaced | test/integration/exclusive-lock.js:22 | the test name `some deployment "name" with spaces` is five words joined by the separator runs ` `, ` "`, `" ` and ` ` |
| LockOptions.LockNameExample | lib/exclusive-lock.js:69-75 | the name `some deployment "name" with spaces` gets the key `lock-manager:some-deployment-name-with-spaces` |
| RedisStore.SetIfAbsent | lib/exclusive-lock.js:92-98 | `SET NX PX` creates the key with the value and time when it is absent, the time is positive and the server executed it, and otherwise leaves the store alone; it replies true exactly when delivered and created, and rejects exactly when lost or the time is not positive |
| RedisStore.ResetExpiry | lib/exclusive-lock.js:129-130 | `PEXPIRE` resets an existing key's time, deletes it for a non-positive time, never adds keys, and succeeds exactly when delivered |
| RedisStore.Delete | lib/exclusive-lock.js:147 | `DEL` removes the key when executed, and succeeds exactly when delivered |
| RedisStore.Lookup | lib/exclusive-lock.js:116 | `GET` returns the stored value, or null exactly for a missing key |
| RedisStore.Elapse | lib/exclusive-lock.js:95-96 | keys whose time runs out disappear; the rest keep their value with the time reduced |
| RedisStore.ElapseAdditive | lib/exclusive-lock.js:95-96 | waiting in two stretches equals waiting for their sum |
| RedisStore.Store.constructor | test/common/setup-chain/actions/cache-connection.js:15-19 | a fresh server model starts empty |
| RedisStore.Store.SetNxPx | lib/exclusive-lock.js:92-98 | updates the shared map and replies as `SetIfAbsent` says |
| RedisStore.Store.PExpire | lib/exclusive-lock.js:129-130 | updates the shared map and replies as `ResetExpiry` says |
| RedisStore.Store.Del | lib/exclusive-lock.js:147 | updates the shared map and replies as `Delete` says |
| RedisStore.Store.Get | lib/exclusive-lock.js:116 | replies as `Lookup` says and changes nothing |
| RedisStore.Store.Tick | lib/exclusive-lock.js:95-96 | time passing on the server, as `Elapse` says |
| ExclusiveLocking.AcquireStep | lib/exclusive-lock.js:86-112 | held: no call, resolves true; otherwise one `SET NX PX` whose effect on the store is kept, ownership exactly when the write won, the timer started only then and only with auto-refresh, a lost write rejects (never resolves false) with the instance unchanged, and a losing write makes no other call |
| ExclusiveLocking.RefreshStartStep | lib/exclusive-lock.js:125-130 | not held or already refreshing: no call, nothing changes; otherwise the flag goes up and one `PEXPIRE` to `lock_refresh_ms` has exactly its store effect (reset, or deletion for a non-positive time) |
| ExclusiveLocking.RefreshSettleStep | lib/exclusive-lock.js:131-139 | on success or failure only the in-flight flag is cleared |
| ExclusiveLocking.ReleaseStep | lib/exclusive-lock.js:142-154 | not held: nothing; held: the timer stops before `DEL`, and the instance ends unheld even when the delete fails |
| ExclusiveLocking.ParseRaw | lib/exclusive-lock.js:117-122 | parsable contents come back parsed; unparsable contents are returned raw, exactly as read |
| ExclusiveLocking.InspectStep | lib/exclusive-lock.js:114-123 | not held: resolves undefined with no call; held: one `GET`, which rejects exactly when lost, and otherwise the parsed or raw contents |
| ExclusiveLocking.ExclusiveLock.constructor | lib/exclusive-lock.js:68-79 | a new instance is unheld, not refreshing and without a timer |
| ExclusiveLocking.ExclusiveLock.Acquire | lib/exclusive-lock.js:86-112 | fields, shared store, calls and result follow `AcquireStep`; the invariant holds |
| ExclusiveLocking.ExclusiveLock.RefreshStart | lib/exclusive-lock.js:125-130 | fields, shared store and calls follow `RefreshStartStep` |
| ExclusiveLocking.ExclusiveLock.RefreshSettle | lib/exclusive-lock.js:131-139 | fields follow `RefreshSettleStep` |
| ExclusiveLocking.ExclusiveLock.Release | lib/exclusive-lock.js:142-154 | fields, shared store and calls follow `ReleaseStep` |
| ExclusiveLocking.ExclusiveLock.Inspect | lib/exclusive-lock.js:114-123 | result and calls follow `InspectStep`; fields and store unchanged |
| ExclusiveLocking.New | lib/exclusive-lock.js:17-80 | throws exactly the error `Configure` reports, and otherwise yields a fresh unheld instance with the configured fields |
| ExclusiveLocking.ContendedAcquire | lib/exclusive-lock.js:86-112 | two instances on one free key: the first wins and may start its timer, the second loses and starts none |
| IsoDateReviver.SearchFrom | lib/json-parse-filter.js:3 | the search is true exactly when a match starts at or after the position |
| IsoDateReviver.IsIsoDate | lib/json-parse-filter.js:3 | `test` is true exactly when a match starts somewhere in the string; the `.` accepts only characters a single UTF-16 code unit can hold |
| IsoDateReviver.JsonParseFilter | lib/json-parse-filter.js:5-11 | a value becomes a Date exactly when its string form contains a match; otherwise it is returned as is |
| IsoDateReviver.ShortStringsNeverMatch | lib/json-parse-filter.js:3 | strings shorter than 24 characters never match |
| IsoDateReviver.EmbeddingKeepsMatch | lib/json-parse-filter.js:3 | the pattern is unanchored: text around a match keeps it matching |
| IsoDateReviver.DotAcceptsAnyCharacter | lib/json-parse-filter.js:3 | the unescaped `.` accepts any character up to U+FFFF but a line terminator |
| IsoDateReviver.MatchesStayInBasicPlane | lib/json-parse-filter.js:3 | no character of a match lies above U+FFFF, so matching characters and matching UTF-16 code units agree |
| IsoDateReviver.AstralAtDotPreventsMatch | lib/json-parse-filter.js:3 | a character above U+FFFF in place of the `.` prevents a match |
| IsoDateReviver.MatchingExamples | lib/json-parse-filter.js:3 | a `JSON.stringify`-style timestamp matches, and so does one with `_` before the milliseconds |
| IsoDateReviver.NonMatchingExamples | lib/json-parse-filter.js:3 | a newline at the `.`, or a space at the `T`, prevents a match |
| LeaseProperties.AcquireTwiceWritesOnce | lib/exclusive-lock.js:86-90 | a second `acquire()` while held writes nothing and resolves true |
| LeaseProperties.AcquireReleaseRoundTrip | lib/exclusive-lock.js:142-154 | acquiring a free key and releasing it restores the store and the instance |
| LeaseProperties.ReacquireSeesNewContents | lib/exclusive-lock.js:114-123 | after a release, a new holder inspects its own contents, not the old ones |
| LeaseProperties.InspectReadsOwnContents | lib/exclusive-lock.js:114-123 | a holder reads back what it wrote: parsed when it parses, raw otherwise |
| LeaseProperties.FirstPeriodHasMargin | lib/exclusive-lock.js:54-66 | after `acquire()` the key outlives any wait shorter than `lock_refresh_ms + 500` |
| LeaseProperties.RefreshLeavesNoMargin | lib/exclusive-lock.js:129-130 | a refresh sets the time to `lock_refresh_ms`, so the key is gone exactly when the next tick is due |
| LeaseProperties.OverlappingRefreshIsDropped | lib/exclusive-lock.js:125-139 | a refresh while one is in flight sends nothing; settling restores the state whatever the outcome |
| LeaseProperties.FailedReleaseStillUnholds | lib/exclusive-lock.js:146-153 | a failed delete is swallowed: unheld, no timer, key left to expire |
| MutualExclusion.ApplyKeepsExclusion | lib/exclusive-lock.js:86-154 | one action by either instance, or a lapse-free wait, keeps the lock exclusive |
| MutualExclusion.RunKeepsExclusion | lib/exclusive-lock.js:86-154 | every lapse-free schedule of two instances with positive refresh intervals keeps at most one holder, whose key is stored |
| MutualExclusion.Perform | lib/exclusive-lock.js:86-154 | one action on the objects moves fields and shared store as `Apply` says |
| MutualExclusion.Interleave | lib/exclusive-lock.js:86-154 | two objects sharing a `Store` follow `Run` for any schedule, and a lapse-free run keeps the lock exclusive |
| MutualExclusion.LapseBreaksExclusion | lib/exclusive-lock.js:92-103 | when the holder's key expires, the other instance acquires and both hold |
| MutualExclusion.ZeroRefreshBreaksExclusion | lib/exclusive-lock.js:54-66 | with `lock_refresh_ms` 0, which passes the spacing check, the holder's `PEXPIRE` deletes its own key and both instances hold |

## Left out

- Logging: `log.info`, `warn`, `debug` and `error`, their messages, and the
  logger object beyond whether `log.error` is truthy.
- Ajv: the validator's internals, the `errors` array with `instancePath` and
  message texts, and the error message strings. Errors are modelled by their
  kind, class, code EINVAL and the `meta` values.
- Type rules of the schema: `lock_ttl_ms`/`lock_refresh_ms` must be numbers,
  `lock_contents` one of four JSON types, and `auto_refresh` a boolean. The
  Dafny types make other values unrepresentable. The numbers are integers, so
  fractional, NaN and infinite milliseconds are not modelled.
- `lock_contents` is modelled as the JSON text `JSON.stringify` produces. The
  stringification itself is not modelled.
- The timer: `setInterval`/`clearInterval` are recorded as `StartTimer`/`StopTimer`
  calls. Ticks are explicit `DoRefreshStart` actions, and wall-clock time is the
  explicit `Wait` action.
- `JSON.parse` is the parameter `parse`. The reviver's `new Date(val)` is the
  constructor `DateFrom` without a date value. `RegExp.prototype.test`'s
  conversion to a string is the parameter `asString`.
- IsIsoDate: strings are sequences of Unicode scalar values, so a JavaScript
  string holding a lone surrogate code unit cannot be given to it; such a string
  would let the `.` match that lone surrogate.
- Interleavings inside one `await`: `acquire()`, `release()` and `inspect()` are
  single atomic steps. Only `refresh()` is split at its `await`.
- `New`: the store object stands in for `opts.cache_connection`. The options
  record holds only its shape, object or not and whether `set` is a function.
- RefreshSettleStep: the `succeeded` argument only selects the log line, which
  is not modelled.
- The `lock_name` getter and `toString()` are plain reads. `lock_name` is the
  field `Config.lockName`.
- The later revision exercised by the integration tests (`ELOGLEVELS`,
  `key_prefix`, events, `acquired`, `exclusive-lock:` prefix) is not part of
  this model.
- lib/schemas/index.js is not part of this model.
