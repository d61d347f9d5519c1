# go-logger index lifecycle manager, in Dafny

This project models the index lifecycle manager of go-logger and its two
functional-options config builders.

The index lifecycle manager keeps log records in hour-sharded bleve
indexes named `<base>-YYYY-MM-DD-HH.log`. It does five things:

- It makes the shard of the current hour the active one, opening it if its
  file exists and creating it otherwise.
- It writes each record under an id derived from its timestamp, with a
  bounded retry.
- It rolls over to a new shard every hour.
- It recovers the shards already on disk at startup.
- It sweeps away shards whose name dates them beyond the retention window.

The options builders copy a default config and apply setters to the copy
from left to right.

Module layout:

- `Wrappers`: `Option` and `Result`.
- `Errors`: the errors the manager reports.
- `Decimal`: zero-padded decimal digits and their parsing.
- `Calendar`: the part of Go's `time` the retention test relies on. This
  covers `time.Date` with its month and day normalisation, days since the
  Unix epoch, and `Time.Sub`, which saturates to the int64 `Duration`
  range.
- `ShardNames`: the hourly shard name and the leftmost-match search for
  `index-(\d{4})-(\d{2})-(\d{2})-\d{2}`. It also holds `isOlderThan` and
  the `<base>*.log` glob.
- `Records`: a log record and its document id, in the `20060102150405.000`
  layout.
- `Shards`: the manager's state as a value, with the operations and lemmas
  about it. The state has five parts: the active shard, the search alias,
  the `indices` registry the sweep walks, the open shards and the shard
  files on disk. The operations are open-or-create, rollover, startup
  recovery and the retention sweep.
- `Lifecycle`: the class `IndexLifecycleManager`. Its methods update those
  fields in place, and each method is proved against the matching `Shards`
  function.
- `AppOptions` and `ServerOptions`: the config records as classes, the
  setters, and `applyOptions` as a loop. Each loop is proved against a
  left fold, and lemmas state what that fold does.

The world outside the program is passed in as parameters:

- the local hour `time.Now()` reads;
- the UTC instant it reads;
- whether `bleve.New` succeeds;
- how each `bleve.Open` attempt ends;
- which file removals fail;
- whether each write to the index succeeds;
- the order in which Go's map iteration visits the registry.

Behaviour of the code worth knowing:

- getActiveIndex does not add the shard to the alias or the registry.
  Only the constructor adds the first shard, and it adds it to the alias
  only. Rollover adds each new shard to both.
- Opening an existing shard in getActiveIndex does not use the timeout
  wrapper. If that open fails, the process exits.
- A rollover whose shard cannot be created stores the missing handle as the
  active shard, appends it to the alias, and then calls a method on it,
  which panics. No usable active shard remains.
- The sweep stops at the first name that carries no date and at the first
  file that cannot be removed, so shards older than the window that come
  later in the walk survive it. Evicted shards stay in the registry.
- indexWithRetry sleeps after the last failed attempt too.

## Model

| member | source | states |
|---|---|---|
| Decimal.PaddedRoundTrip | pkg/app/index.go:92 | A number below 10^width, zero-padded to `width` digits, is exactly `width` digits long and parses back to itself. |
| Decimal.PaddedInjective | pkg/app/index.go:92 | Distinct numbers in range give distinct zero-padded strings. |
| Calendar.Elapsed | pkg/app/index.go:199 | `now.Sub(then)` is the difference when it fits in an int64 and is clamped to the int64 bounds otherwise. |
| Calendar.ElapsedExceedsExactly | pkg/app/index.go:199-201 | For any window inside the Duration range, the clamped difference exceeds the window exactly when the true difference does, so saturation never changes the age test's answer. |
| Calendar.ElapsedMonotone | pkg/app/index.go:199 | The saturated difference never decreases as `now` advances. |
| Calendar.YearLength | pkg/app/index.go:193 | `time.Date` puts 366 days between consecutive New Year's days after a leap year and 365 otherwise. |
| Calendar.MonthEndCarries | pkg/app/index.go:193 | A day one past the end of its month normalises to the first day of the next month, with month 13 being January of the next year. |
| Calendar.MonthCarries | pkg/app/index.go:193 | A month beyond 12 carries into the year, as time.Date normalises it. |
| Calendar.KnownDates | pkg/app/index.go:193 | Midnight UTC of 1970-01-01 is instant 0, and of 2024-01-01 is 1704067200 seconds. |
| ShardNames.FindMatch | pkg/app/index.go:180-181 | The search returns the leftmost position where the pattern matches, and returns nothing exactly when the pattern matches nowhere. |
| ShardNames.IsOlderThan | pkg/app/index.go:178-202 | Models isOlderThan: the date groups of the leftmost match, midnight UTC of that date, and the saturated difference to `now` compared strictly with the window. Its properties are stated by HourlyNameAge, UnindexedBaseRejected, OlderThanMonotone and OlderThanIsStrict. |
| ShardNames.ParseShardDate | pkg/app/index.go:180-190 | The result is "invalid filename format" exactly when the name holds no match; otherwise it is the three groups of the leftmost match, read as decimal numbers. |
| ShardNames.HourlyName | pkg/app/index.go:91-94 | Models the shard path `<base>-YYYY-MM-DD-HH.log` built from the hour's zero-padded fields. Its properties are stated by HourlyNameInjective, HourlyNameGlobbed and HourlyNameParses. |
| ShardNames.HourlyNameInjective | pkg/app/index.go:91-94 | For a fixed base, two well-formed hours share a shard name if and only if they are the same hour. |
| ShardNames.HourlyNameGlobbed | pkg/app/index.go:230 | Every hourly shard name is found by the startup glob `<base>*.log`. |
| ShardNames.HourlyNameParses | pkg/app/index.go:178-193 | Round trip: when the base ends in "index" and carries no date of its own, the date read back from an hourly name is the hour's year, month and day. |
| ShardNames.HourlyNameAge | pkg/app/index.go:178-201 | For such a base, isOlderThan on an hourly name compares against midnight UTC of the hour's day; the hour itself is ignored. |
| ShardNames.UnindexedBaseRejected | pkg/app/index.go:180-185 | When the base does not end in "index" and neither holds nor ends in part of a date, isOlderThan rejects every hourly name as an invalid filename. |
| ShardNames.OlderThanMonotone | pkg/app/index.go:196-201 | A shard that is older than `age` at `now` stays older for any later clock reading and any shorter window. |
| ShardNames.OlderThanIsStrict | pkg/app/index.go:199-201 | A shard exactly `age` old is not older than `age`. |
| Records.DocumentId | pkg/app/index.go:78 | Models the document id, the timestamp formatted in the `20060102150405.000` layout. DocumentIdIdentifiesMillisecond states what it identifies. |
| Records.DocumentIdIdentifiesMillisecond | pkg/app/index.go:78 | Two well-formed timestamps get the same document id if and only if they agree down to the millisecond. |
| Shards.OpenOrCreate | pkg/app/index.go:96-126 | Getting the active shard fails only when its file is missing and cannot be created. Otherwise the shard ends up open and on disk, and nothing else changes. |
| Shards.Contains | pkg/app/index.go:252 | `strings.Contains` holds if and only if the part occurs somewhere in the text. |
| Shards.OpenIndexWithTimeout | pkg/app/index.go:240-259 | Only a successful open yields a handle. An error whose text contains "index is already open" becomes "index is busy", any other error is passed on, and a timeout becomes the timeout error. |
| Shards.Startup | pkg/app/index.go:33-71 | Models NewIndexLifecycleManager as a function of the disk: open or create the hour's shard, make it active and searchable, then recover. StartupRecovers states its outcome. |
| Shards.FindAllIndexes | pkg/app/index.go:228-238 | Models findAllIndexes: the files on disk that the glob `<base>*.log` matches. HourlyNameGlobbed states that every hourly shard of the base is among them. |
| Shards.Recover | pkg/app/index.go:261-276 | Models getIndexAlias: the glob matches that open join the alias, the registry and the open set. StartupRecovers and Lifecycle.IndexLifecycleManager.GetIndexAlias state its effect. |
| Shards.StartupRecovers | pkg/app/index.go:33-71 | See the note after the table. |
| Shards.Rollover | pkg/app/index.go:159-176 | Models indexRollover: close the active shard, open or create the new hour's shard, and make it active, searchable and registered. RolloverKeepsInv and RolloverKeepsPreviousSearchable state its properties. |
| Shards.RolloverKeepsInv | pkg/app/index.go:159-176 | Rollover keeps the invariant and never shrinks the alias or the registry. The new shard is active, searchable, registered, open and on disk. |
| Shards.RolloverKeepsPreviousSearchable | pkg/app/index.go:159-176 | After rolling over to a different hour, the previous shard is closed but still searchable, next to the new one. |
| Shards.Sweep | pkg/app/index.go:204-226 | The sweep never changes the active shard or the registry, and only shrinks the alias, the open set and the disk. |
| Shards.StopIndex | pkg/app/index.go:204-226 | The sweep stops at the first registry entry whose name has no date or whose due file cannot be removed, or at the end. |
| Shards.SweepOutcome | pkg/app/index.go:204-226 | See the note after the table. |
| Shards.SweepEffects | pkg/app/index.go:211-222 | See the note after the table. |
| Shards.SweepControlIgnoresState | pkg/app/index.go:204-226 | The sweep's error and effects depend on the names, the clock and the failing removals, never on the state it starts from. |
| Shards.SweepIdempotent | pkg/app/index.go:204-226 | Sweeping again with the same clock reading and the same iteration order changes nothing and reports the same outcome. |
| Shards.SweepRerunAnyOrder | pkg/app/index.go:204-226 | After a successful sweep of the whole registry, a second sweep with the same clock reading, in any iteration order of the registry, changes no state and succeeds again. |
| Shards.SweepKeepsInv | pkg/app/index.go:204-226 | The sweep keeps the invariant: open shards are searchable and on disk, and searchable shards are registered or are the constructor's shard. |
| Shards.SweepEvictsExactlyDue | pkg/app/index.go:204-226 | See the note after the table. |
| Shards.SweepSparesUnregistered | pkg/app/index.go:205 | A shard that was never registered, such as the constructor's shard, is never touched by any sweep. |
| Shards.SweepSparesCurrentHour | pkg/app/index.go:178-226 | For a base that ends in "index" and holds no date of its own, with a window of at least a day, the sweep never evicts the current hour's shard while the clock is on the UTC day that shard is named after. |
| Lifecycle.IndexLifecycleManager.Init | pkg/app/index.go:37-46 | The freshly built manager holds the base name and retention window; the alias and registry are empty and no shard is active or open. |
| Lifecycle.IndexLifecycleManager.New | pkg/app/index.go:33-71 | Construction returns no manager and the error exactly when startup fails. Otherwise it returns a fresh manager in the startup state, and the invariant holds. The one searchable shard allowed outside the registry is the hour's shard the constructor made active. |
| Lifecycle.IndexLifecycleManager.GetActiveIndex | pkg/app/index.go:96-126 | The manager's new state and the result are those of open-or-create on the hour's name. |
| Lifecycle.IndexLifecycleManager.GetIndexAlias | pkg/app/index.go:261-276 | The new state is the old one plus exactly the glob matches that open, added to the alias, the registry and the open set. |
| Lifecycle.IndexLifecycleManager.IndexWithRetry | pkg/app/index.go:73-89 | See the note after the table. |
| Lifecycle.IndexLifecycleManager.IndexRollover | pkg/app/index.go:159-176 | The new state is the rollover of the old one to the hour's name, and the invariant is kept. |
| Lifecycle.IndexLifecycleManager.IndexCleanUp | pkg/app/index.go:204-226 | The new state, the effects and the error are those of the sweep with isOlderThan at the manager's window, and the invariant is kept. |
| Lifecycle.IndexLifecycleManager.SweepRegistry | pkg/app/index.go:205-224 | The loop of indexCleanUp, for any age test, produces exactly the sweep's state, effects and error. |
| AppOptions.Set | pkg/app/option.go:19-35 | Each setter writes its own field with the option's value and leaves the other two fields as they were. |
| AppOptions.Applied | pkg/app/option.go:38-45 | Models the loop of applyOptions as a left fold of the setters over the copied config. AppliedFields and AppliedConcat state what the fold yields. |
| AppOptions.AppliedFields | pkg/app/option.go:41-43 | Last one wins: after applying the options, a field holds the value of the last option that sets it. If no option sets it, the field keeps the input's value, so no options give back the input. |
| AppOptions.AppliedConcat | pkg/app/option.go:38-45 | Applying `a + b` equals applying `b` to the result of applying `a`. |
| AppOptions.AppConfig.Apply | pkg/app/option.go:19-35 | Running an option's closure on a record updates it as the setter says. |
| AppOptions.DefaultConfig | pkg/app/option.go:13-17 | The default record holds index name "index-storage/index", a retention window of 12*24 hours and a shutdown timer of 5 seconds. |
| AppOptions.ApplyOptions | pkg/app/option.go:38-45 | The result is a fresh record holding the left-to-right application of the options to the input. The input record is unchanged. |
| ServerOptions.Set | pkg/server/option.go:18-34 | Each setter writes its own field with the option's value and leaves the other two fields as they were. |
| ServerOptions.Applied | pkg/server/option.go:36-43 | Models the loop of applyOptions as a left fold of the setters over the copied config. AppliedFields and AppliedConcat state what the fold yields. |
| ServerOptions.AppliedFields | pkg/server/option.go:39-41 | Last one wins: after applying the options, a field holds the value of the last option that sets it. If no option sets it, the field keeps the input's value. |
| ServerOptions.AppliedConcat | pkg/server/option.go:36-43 | Applying `a + b` equals applying `b` to the result of applying `a`. |
| ServerOptions.ServerConfig.Apply | pkg/server/option.go:18-34 | Running an option's closure on a record updates it as the setter says. |
| ServerOptions.DefaultConfig | pkg/server/option.go:13-16 | The default record holds a shutdown timer of 5 seconds, port "8080" and an empty index name. |
| ServerOptions.ApplyOptions | pkg/server/option.go:36-43 | The result is a fresh record holding the left-to-right application of the options to the input. The input record is unchanged. |

Notes on the longer contracts:

- **Shards.StartupRecovers.** Construction fails only when the hour's shard
  is missing and cannot be created. Otherwise the new shard is active,
  searchable, open and on disk. The registry is exactly the glob matches
  that open, and the alias is the registry plus the new shard.
- **Shards.SweepOutcome.** This is the sweep in closed form. Due shards
  before the stopping point leave the alias, the open set and the disk. A
  due shard whose file cannot be removed leaves the alias and the open set
  but stays on disk. The sweep fails exactly when it stops early, and it
  reports that shard's error.
- **Shards.SweepEffects.** The effects are the due shards before the
  stopping point, in the order walked, followed by the shard whose removal
  failed. Each of these shards gets three effects back to back: removal
  from the alias, close, and file removal.
- **Shards.SweepEvictsExactlyDue.** This applies to a sweep over the whole
  registry that succeeds. A registered shard leaves the alias, the open set
  and the disk if and only if it is older than the window. Every other
  shard keeps its membership in all three.
- **Lifecycle.IndexLifecycleManager.IndexWithRetry.** It makes one to three
  attempts and stops at the first success. It succeeds if and only if one
  of the first three attempts does. Attempts and 5-second sleeps alternate,
  every attempt writes the record's millisecond id to the active shard, and
  a sleep follows every failed attempt, the last one included.

## Left out

- A bleve index handle is reduced to the path it was opened from. The alias
  is a set of paths, while bleve's alias is a list of handles, so adding
  the same shard twice collapses. The same reduction affects removal:
  bleve's Remove and Close act on one handle. If startup recovery opens the
  constructor's shard a second time and registers it, a sweep that evicts
  it removes only the recovered handle in the source, and the constructor's
  handle stays searchable. The model removes the name, so that shard leaves
  the alias.
- File system, bleve and logging I/O are not modelled. Their outcomes are
  parameters: whether creation succeeds, how each open ends, which removals
  fail, and whether each index write succeeds.
- The gocron scheduler, StartScheduler and StopScheduler are not modelled.
  They only register and start the two hourly jobs, and this model runs
  rollover and cleanup as direct calls.
- Concurrency is not modelled. That covers the race between jobs, writers
  and searches. It also covers the goroutine in openIndexWithTimeout, where
  an open that finishes after the timeout leaves a handle open that nobody
  holds. The model sees only the timeout.
- Sleep in indexWithRetry is recorded in the returned trace, not performed.
- The clock in the sweep: isOlderThan reads `time.Now()` once per registry
  entry, so the instants in one sweep can differ. Shards.Sweep and
  Lifecycle.IndexLifecycleManager.IndexCleanUp use a single instant `now`
  for the whole walk.
- Local time and UTC: the hour stamp is taken as the local-time fields and
  `now` as a UTC instant. The model does not relate the two through a time
  zone.
- Shards.OpenOrCreate: opening an existing shard file is taken to succeed.
  In the source a failed open there ends the process through log.Fatalf.
- Lifecycle.IndexLifecycleManager.IndexRollover requires the new hour's
  shard to exist or be creatable. The source goes on to dereference a nil
  handle otherwise.
- Lifecycle.IndexLifecycleManager.IndexCleanUp requires `order` to list the
  registry, each name once, as Go's map iteration does. The actual
  iteration order is arbitrary and is a parameter.
- AppOptions.ApplyOptions: only the three package setters are modelled as
  options. `AppOption` is an open function type, so a caller's own option
  could change any field in any way.
- ServerOptions.ApplyOptions: only the three package setters are modelled as
  options. `ServerOption` is an open function type, so a caller's own option
  could change any field in any way.
- Lifecycle.IndexLifecycleManager.GetIndexAlias visits the glob matches as
  a set. Glob's sorted order does not affect the result, because each open
  is independent.
- Shards.FindAllIndexes takes the base name literally. Glob metacharacters
  in the base are not interpreted, and glob's error path (a malformed
  pattern, which ends the process through log.Fatal) is not modelled. The
  model also returns disk names as they are, while `filepath.Glob` returns
  paths cleaned by `filepath.Join`. For a base such as `./index`, the source
  registers `index-...log` and the hourly name is `./index-...log`; the
  model treats the two as the same shard, the source does not.
- Calendar: `time.Time` holds its instant in 64-bit fields, and the model
  uses unbounded integers. Dates far outside the int64 range, where Go's
  arithmetic wraps, are not modelled. The dates a shard name can carry do
  not reach them: years 0 to 9999, with month and day 00 to 99. Years before
  year 1 are included, because `CivilDays` follows Go's proleptic Gregorian
  calendar there too. For example, month 00 of year 0000 normalises to
  December of year -1.
- The gocron scheduler's construction failure is fatal in the source and is
  not modelled.
- Searching (SearchManager's search path), the queues, the processor, the
  HTTP servers and the sharding proxy lie outside this model.
