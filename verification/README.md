# Verified model of the solar monitoring platform

A Dafny model of the parts of the platform whose correctness is hardest to see from
one function body, with proofs of what they promise. `dafny verify dfyconfig.toml`
checks everything; every `.dfy` file is one module.

**Energy accounting.** `CounterSeries` holds the loops over a cumulative counter: the
glitch filter, its display sibling, and the daily total. `EnergyTheorems` says what they
mean: bounds for every series, when the rollup's end-minus-start is the same number,
exactly which counter resets keep their energy, and exactly when an inserted glitch is
invisible. `Calendar` builds the proleptic Gregorian calendar from day numbers and proves
the period buckets. `Grouping` is the algebra of group-by-sum, used by `Rollup` (the
loader and bucketing loops) and `RollupTheorems` (order, conservation, countries adding up
to the fleet). `Merging` is the merge loop that `PerformanceRatio` and `Emissions` share;
`EmissionsTheorems` ties the CO2 series back to the fleet's energy.

**Ingestion.** `TelemetryRules` are the pure rules, `Ingest` the database with its MQTT
and cloud-import drivers as methods, each specified by a function of the old state under
arbitrary failures; `Acceptance` says in figures what they accept and store.
`IngestTheorems` and `ArrivalTheorems` prove safety over all runs and,
without failures, order independence, idempotence and agreement of the two paths.
`ResetFlags` proves when the stored reset flags are right, and with it that the fast form
of a day's energy equals the slow one; `LateReadings` proves what a late reading does to
it. `ConcurrentIngest` interleaves statements of concurrent workers. `Sandbox`,
`SandboxOrder` and `SandboxTheorems` prove when a CSV upload says what the ingestor would
say. `Paging` is keyset pagination under concurrent inserts.

**Protocols and encodings.** `AuditText` is the text an audit row is hashed over,
`AuditChain` the hash-chained log with the digest as a parameter, `AuditTheorems` what the
chain makes evident. `Pkcs1` is the padding of section 7.2.1 of RFC 8017 on byte arrays.
`VendorSync`, `VendorSyncTheorems`, `VendorOutcomes`, `VendorRevocation` and
`VendorStatus` are the vendor poller as a state machine; `Dynsec` the MQTT
request/response matcher; `ExportJobs` the export job queue with its workers, stale-job
healing and restarts; `Discovery` the reconciliation of vendor
plants with registered devices, on a registry whose calls may fail or lose their reply.

Floating point is modelled by exact reals, instants and days by integers, tables by maps
and sequences. The daily rollup view is taken to hold the least and greatest counter value
of a device's day, and to carry `has_reset` when some stored reading of that day is
flagged. No row is ever deleted.

Where the code does not do what its comments say, the model follows the code, shows it
with a concrete case and states exactly when the promise holds:

- `SmoothIsolatedDips` is not idempotent (`CounterSeries.SmoothingIsNotIdempotent`; exactly
  when it is: `CounterSeries.SmoothingIsIdempotentExactly`).
- Reset flags are not recomputed when an older reading arrives later, so the rollup can
  report the wrong energy for that day (`ResetFlags.LateReadingBreaksTheFastForm`; exactly
  when it does: `LateReadings.LateReadingExactly`).
- A reset whose second reading is back at 0.9 of the old level loses energy
  (`EnergyTheorems.ResetDayEnergy` is an equivalence).
- A new emission factor older than every factor on record changes past figures unless it
  says the same as the oldest (`Emissions.RecordingKeepsPastFigures` is an equivalence).
- The sandbox comparator is no order when a timestamp does not parse
  (`SandboxTheorems.UnreadableTimestampBlocksTheSort`; exactly when the order survives:
  `SandboxOrder.SortOrdersExactly`).
- The audit trigger joins columns with a bar without escaping, and the user action log
  stores e-mail addresses and other free text as target ids
  (`AuditTheorems.BarInAnEmailHidesTampering`; exactly which logs are tamper-evident:
  `AuditTheorems.TamperEvidence`). NULL and the empty string hash alike
  (`AuditTheorems.EveryEditIsPinpointed` is an equivalence).
- Status updates of vendor connections are unguarded, so a sync still to come undoes a
  revocation (`VendorRevocation.InPlayRevives`; exactly when a revocation sticks:
  `VendorRevocation.RevocationIsPermanentExactly`).
- A late dynsec response is taken for the answer to the next request
  (`Dynsec.LateResponseIsMismatched`; exact condition in `Dynsec.SendReturnsTheOldestOwed`).
- A stale Get can overwrite a job that has just completed
  (`ExportJobs.StaleGetOverwritesACompletedJob`; exactly when a completed job is safe:
  `ExportJobs.CompletedIsPermanentExactly`).
- A partial inverter listing splits a plant over two sites
  (`Discovery.PartialListingSplitsAPlant`; exact condition in `Discovery.SiteForIsHome`).

## Model

| member | source | states |
|---|---|---|
| CounterSeries.FilterSpuriousDips | internal/domain/analytics.go:30-45 | what survives, in order: all but the interior readings below half of both neighbours whose right neighbour is at least 0.9 of the left, each test written out on the original readings |
| CounterSeries.SmoothIsolatedDips | internal/domain/analytics.go:56-70 | exactly those readings become the mean of their neighbours and are listed in order; every other reading is unchanged |
| CounterSeries.DailyEnergyFromReadings | internal/domain/analytics.go:79-92 | the total is the sum of positive steps of the filtered series, zero for fewer than two readings |
| CounterSeries.FilterKeepsEnds | internal/domain/analytics.go:34-43 | first and last reading always survive the filter |
| CounterSeries.NoAdjacentDips | internal/domain/analytics.go:36-42 | on a non-negative counter the neighbours of a dropped reading are never dropped |
| CounterSeries.SmoothedPositionsAreTheDroppedOnes | internal/domain/analytics.go:47-69 | the changed indices are exactly the filter's dropped positions: removing them gives the filtered series |
| CounterSeries.SmoothingIsNotIdempotent | internal/domain/analytics.go:56-70 | a series that smoothing twice changes again |
| CounterSeries.SmoothingIsIdempotentExactly | internal/domain/analytics.go:56-70 | on a non-negative series smoothing twice is smoothing once iff no repair turns a neighbour into a new dip |
| EnergyTheorems.FilteringNeverAddsEnergy | internal/domain/analytics.go:18-29 | for every series, filtering never raises the sum of positive steps |
| EnergyTheorems.EnergyCoversTheNetGain | internal/domain/analytics.go:72-92 | a day's energy is at least max(0, last - first) |
| EnergyTheorems.FastEqualsSlow | internal/registry/analytics.go:216-237 | on a day that never descends, rollup end minus start equals the slow form |
| EnergyTheorems.ResetDayEnergy | internal/domain/analytics.go:72-92 | a day of climbing segments has the energy of all climbs iff no reset looks like a glitch, and never more |
| EnergyTheorems.GenuineResetsLoseNothing | internal/domain/analytics.go:26-29 | resets that stay below 0.9 of the old level for two readings lose no energy |
| EnergyTheorems.GlitchesAreInvisible | internal/domain/analytics.go:18-45 | readings below half of both neighbours, the right one at least 0.9 of the left, inserted into any set of gaps, leave the filtered series and the energy unchanged iff none sits beside a reading already dropped |
| Calendar.YearOf | internal/registry/analytics.go:242-252 | the year computed from a day number contains that day, for every day |
| Calendar.MonthLengths | internal/registry/analytics.go:242-252 | 30 days for April, June, September and November, 29 or 28 for February by the leap rule, 31 otherwise, for every year |
| Calendar.DateRoundTrip | internal/registry/analytics.go:242-252 | day to date to day is the identity |
| Calendar.DayRoundTrip | internal/registry/analytics.go:242-252 | date to day to date is the identity on valid dates, leap days included |
| Calendar.AddMonth | internal/registry/analytics.go:258-267 | one month after the first of a month is the first of the next, over year ends |
| Calendar.BucketIdempotent | internal/registry/analytics.go:239-252 | the bucket of a bucket start is itself |
| Calendar.BucketContainsDay | internal/registry/analytics.go:239-267 | PeriodBucket(d) <= d < periodBucketEnd(PeriodBucket(d)) |
| Calendar.BucketIsInterval | internal/registry/analytics.go:239-267 | the days of a bucket are exactly its half-open interval |
| Calendar.BucketsTile | internal/registry/analytics.go:254-267 | the end of a bucket is the start of the next |
| Calendar.BucketMonotone | internal/registry/analytics.go:239-252 | later days never fall in earlier buckets |
| Calendar.MonthlyBucketIsTheFirst | internal/registry/analytics.go:247-248 | the monthly bucket of every date of the calendar is the first of its month |
| Calendar.LeapDayBuckets | internal/registry/analytics.go:239-252 | anchors: week and month of 29 February 2024, and 1 May 2024 in its own month |
| Grouping.Conservation | internal/registry/analytics.go:284-307 | group sums over all keys add up to the total, for any grouping |
| Grouping.Fusion | internal/registry/analytics.go:284-307 | grouping finely, then coarsely, is grouping coarsely |
| Grouping.PartitionByCategory | internal/registry/analytics.go:152-214 | splitting rows by category and grouping each part loses and double-counts nothing |
| Rollup.CollapseByDay | internal/registry/analytics.go:47-130 | the loader loops keep one row per day, in order of appearance, with the day's sums and peak |
| Rollup.BucketDailyRows | internal/registry/analytics.go:284-307 | the bucketing loop is group-by-sum over period buckets |
| Rollup.FleetEnergyByCountry | internal/registry/analytics.go:152-214 | one series per country that occurs, a site without one counting as "unknown", each the bucketed days of that country's rows |
| Rollup.CountryHoldsItsOwnRows | internal/registry/analytics.go:170-180 | a country's rows are those of its own sites, each exactly as often as it occurs |
| RollupTheorems.ADayOfOneDevice | internal/registry/analytics.go:216-237 | a single row comes to end minus start, to nothing if either is missing, and on a day with a reset to the raw readings' total |
| RollupTheorems.DayPeakIsPeak | internal/registry/analytics.go:66-82 | the day's peak is the largest power and names the first device to reach it |
| RollupTheorems.DailyRowsAreOrdered | internal/registry/analytics.go:47-86 | day-ordered rollup rows give strictly increasing days |
| RollupTheorems.BucketedIsOrdered | internal/registry/analytics.go:284-307 | day-ordered rows give strictly increasing period starts |
| RollupTheorems.BucketHoldsItsPeriod | internal/registry/analytics.go:284-307 | a point holds the sums over exactly the days between its start and the next period |
| RollupTheorems.BucketingConserves | internal/registry/analytics.go:284-307 | energy, reading and backfilled counts are conserved, and the cumulative total is their sum |
| RollupTheorems.CollapsingConserves | internal/registry/analytics.go:47-86 | collapsing devices per day conserves the same totals |
| RollupTheorems.PointsSumTheRollup | internal/registry/analytics.go:47-130 | a point of the two-stage series is the direct sum of the period's rollup rows |
| RollupTheorems.CountriesAddUpToTheFleet | internal/registry/analytics.go:152-214 | per period the countries' energies add up to the fleet's point, in any order |
| Merging.InStartOrder | internal/registry/analytics.go:563-574 | the merged periods come out strictly ordered, one per period, with pooled sums |
| Merging.MergeConserves | internal/registry/emissions.go:281-301 | merging loses neither energy nor CO2 |
| Merging.MergeKeepsGroups | internal/registry/analytics.go:536-574 | a merged series has the same periods and sums as what went in |
| PerformanceRatio.BucketPerformanceRatio | internal/registry/analytics.go:482-519 | the days with positive irradiance, in order, each contribute their energy and irradiance times system size to their period; only the pooled sums are divided |
| PerformanceRatio.SitePerformanceRatio | internal/registry/analytics.go:452-480 | which sites are refused and why, and the pooled series otherwise |
| PerformanceRatio.FleetPerformanceRatio | internal/registry/analytics.go:530-575 | although merged from bucketed site points, the series pools every retained (site, day) pair; an error iff no site is usable |
| PerformanceRatio.RatioIsBetweenItsParts | internal/registry/analytics.go:482-519 | each ratio lies between the smallest and largest ratio of the days pooled into it |
| PerformanceRatio.SeriesPoolTheFleet | internal/registry/analytics.go:536-574 | merging the sites' series equals pooling the (site, day) pairs |
| PerformanceRatio.FleetRatioIsBetweenItsSites | internal/registry/analytics.go:536-574 | the fleet's ratio lies between those of its sites in the period |
| Emissions.FactorAsOf | internal/registry/emissions.go:108-117 | the loop finds the latest factor not after the instant, the oldest one before all of them |
| Emissions.RecordingChangesItsOwnInterval | internal/registry/emissions.go:97-117 | a factor recorded at any date changes exactly the instants up to the next factor, and the far past when it is the oldest |
| Emissions.RecordingKeepsThePast | internal/registry/emissions.go:97-107 | earlier instants keep their factor iff the new factor is not older than all on record |
| Emissions.RecordingKeepsPastFigures | internal/registry/emissions.go:97-117 | earlier points keep their CO2 iff the new factor is not older than all on record or equals the oldest in value |
| Emissions.ToSeries | internal/registry/emissions.go:325-336 | each period's kg are its energy times the factor in effect at its own midnight; the total is the sum of the points |
| Emissions.RecordingKeepsEarlierPoints | internal/registry/emissions.go:312-336 | recording a factor leaves every point that starts before it unchanged |
| Emissions.SiteEmissions | internal/registry/emissions.go:214-232 | an error iff the country has no factor; the newest factor is reported; 1000 times the tonnes is the sum of the points' kg |
| Emissions.FleetEmissions | internal/registry/emissions.go:244-310 | ordered merge of the configured countries; tonnes agree with points and breakdown; which of factor and breakdown is reported |
| Emissions.BreakdownLines | internal/registry/emissions.go:262-279 | a configured country's line carries its newest factor and its points' CO2, an unconfigured one's is flagged and empty |
| Emissions.TotalsAgree | internal/registry/emissions.go:262-309 | points, contributions and breakdown carry the same CO2, unconfigured countries none |
| EmissionsTheorems.PricingKeepsEnergy | internal/registry/emissions.go:325-333 | pricing a series keeps its energy per period |
| EmissionsTheorems.EmissionPointsCarryFleetEnergy | internal/registry/emissions.go:281-291 | each CO2 point carries the fleet's energy of its period less that of unconfigured countries |
| Ingest.Database.PreviousEnergyByTS | cmd/ingestor/main.go:234-247 | the energy of the chronological predecessor, whatever the insertion order |
| Ingest.Database.InsertValidated | cmd/ingestor/main.go:175-212 | the flag compares with the predecessor, and the first reading of a key wins |
| Ingest.Database.HandleMessage | cmd/ingestor/main.go:117-226 | the whole new database and verdict for every message and every pattern of failed statements; bytes that are no JSON leave nothing behind |
| Ingest.Database.SubmitReadings | internal/registry/cloud_import.go:119-246 | the same for a batch, with its per-reading results |
| Acceptance.MessageIsStoredAsSent | cmd/ingestor/main.go:147-212 | for every pattern of failed statements, in figures: a message is accepted iff its device is known and not revoked, every range holds and the three statements it depends on succeed; a new row holds each field under its own name, is metered iff at most 15 minutes old, and is flagged iff the latest earlier reading is greater |
| Acceptance.MessageIsRejectedFor | internal/domain/telemetry.go:57-101 | the reason given is a rule the message breaks |
| Acceptance.MessageIsAccountedFor | cmd/ingestor/main.go:121-226 | last_contact_at becomes now even for a rejected message, last_seen_at moves forward only, and one audit row is processed iff the message was accepted, with an error otherwise |
| Acceptance.ReadingIsStoredAsSent | internal/registry/cloud_import.go:144-240 | the same for one reading of a batch at any state |
| Acceptance.SubmissionIsStoredAsSent | internal/registry/cloud_import.go:119-246 | over a whole failure-free batch: which submissions and readings are accepted, what the row of the first reading with its key holds, and each reading's audit row |
| Acceptance.SubmissionMovesTheTimestamps | internal/registry/cloud_import.go:144-246 | last_contact_at becomes now and last_seen_at moves forward to the latest accepted reading |
| Acceptance.UploadIsJudgedByTheRules | internal/registry/sandbox.go:195-237 | each uploaded row by the same rules in figures, a reset iff the last accepted row before it has a greater counter |
| IngestTheorems.EveryStepIsSafe | cmd/ingestor/main.go:196-222 | whatever fails, stored readings never change, last_seen_at never moves back nor past the data |
| IngestTheorems.EveryRunIsSafe | internal/registry/cloud_import.go:140-246 | the same over every run of both drivers |
| IngestTheorems.StepIsArrivals | internal/registry/cloud_import.go:144-245 | without failures each driver does exactly what its accepted readings do one by one |
| IngestTheorems.RunIsArrivals | cmd/ingestor/main.go:117-226 | runs of both drivers refine the sequence of accepted readings |
| ArrivalTheorems.LastSeenIsTheLatestStored | cmd/ingestor/main.go:214-222 | after any failure-free run last_seen_at is the greatest stored ts of each device |
| ArrivalTheorems.RunLetsTheFirstReadingWin | internal/db/telemetry.sql.go:44-50 | each (device, ts) holds its first accepted reading |
| ArrivalTheorems.ArrivalOrderDoesNotMatter | cmd/ingestor/main.go:228-233 | permuted arrivals with distinct keys store the same values and last_seen_at, across drivers |
| ArrivalTheorems.BatchIsOneByOne | internal/registry/cloud_import.go:140-246 | submitting a batch is submitting its readings one by one |
| ArrivalTheorems.BothPathsAgree | internal/registry/cloud_import.go:113-118 | a reading stores the same over MQTT and over cloud import |
| ArrivalTheorems.ResubmissionIsHarmless | internal/registry/cloud_import.go:228-229 | resubmitting a batch changes nothing and reports every accepted reading Duplicate |
| ResetFlags.ArrivalKeepsFlagsExact | cmd/ingestor/main.go:183-188 | a new reading keeps all flags exact iff the flag of its successor still fits |
| ResetFlags.InOrderArrivalsKeepFlagsExact | cmd/ingestor/main.go:228-247 | in-order arrivals, duplicates allowed, keep flags exact |
| ResetFlags.ExactFlagsMakeTheFastFormExact | internal/registry/analytics.go:216-237 | with exact flags the rollup's daily energy is the slow form on every day |
| ResetFlags.InOrderRunsHaveExactEnergy | internal/registry/analytics.go:216-237 | hence on every day of every in-order run of both drivers |
| ResetFlags.LateReadingBreaksTheFastForm | cmd/ingestor/main.go:183-188 | a late reading after which the rollup reports 50 of 70 kWh |
| LateReadings.TwoClimbsExactly | internal/registry/analytics.go:216-237 | on a day of two climbs, greatest minus least reading is the slow form iff no descent, or no rise after it, is left after filtering |
| LateReadings.LateReadingExactly | internal/registry/analytics.go:216-237 | after a late reading into an exactly flagged table, the rollup's energy of its day is right iff the day has a flag or that condition holds of its readings |
| LateReadings.OtherDaysStayRight | cmd/ingestor/main.go:183-188 | the late reading leaves the energy of every other day right |
| ConcurrentIngest.StepKeepsInv | internal/registry/cloud_import.go:144-245 | the invariant of interleaved lookups, inserts and last_seen_at updates |
| ConcurrentIngest.QuietPointsAreExact | cmd/ingestor/main.go:183-222 | in every interleaving the first insert wins, and at quiescence last_seen_at is the latest stored ts |
| Sandbox.SortStable | internal/registry/sandbox.go:185-193 | the rows permuted in place, in insertion-sort order when there are at most 20 or all timestamps parse |
| Sandbox.Upload | internal/registry/sandbox.go:185-237 | results are the verdicts on the sorted rows; counters and the row limit; accepted + rejected = rows |
| SandboxOrder.SortIsStable | internal/registry/sandbox.go:188-193 | rows of equal timestamp keep their order |
| SandboxOrder.SortOrdersExactly | internal/registry/sandbox.go:188-193 | the readable rows come out in time order iff no row was uploaded after a later one with an unreadable row in between |
| SandboxTheorems.ResultsArePermutation | internal/registry/sandbox.go:185-237 | the results are the uploaded rows, each once, even with unreadable timestamps |
| SandboxTheorems.SandboxMatchesTheIngestor | internal/registry/sandbox.go:195-237 | under that condition and distinct readable timestamps, verdict, reset flag and provenance equal those of replaying the rows in time order through the ingestor on a fresh device |
| SandboxTheorems.UnreadableTimestampBlocksTheSort | internal/registry/sandbox.go:188-193 | an unreadable timestamp leaves later rows first and invents a reset |
| Paging.ListTelemetryForSite | internal/db/telemetry.sql.go:98-111 | the greatest matching keys below the cursor, greatest first |
| Paging.List | internal/registry/telemetry.go:29-67 | limit 50 unless 1 to 500 is asked for; the rows are the site's, within the range and past the cursor, latest and then greatest device first; whatever is left out comes after a full page; a next cursor iff the page is full |
| Ordering.LessIsLexicographic | internal/db/telemetry.sql.go:98-111 | the device order: a proper prefix first, else the first difference decides |
| Paging.ExportSiteTelemetry | internal/registry/exports.go:152-182 | with arbitrary inserts between pages: strictly decreasing keys, every row present at the first page exactly once unless the cap cuts in, at most 50000 rows, termination |
| Paging.DescendingHasNoDuplicates | internal/pagination/cursor.go:1-4 | such an export never repeats a row |
| Paging.QuietExportIsTheSortedTable | internal/registry/exports.go:152-182 | without inserts the pages concatenate to the sorted, filtered table up to the cap |
| Paging.PageIsDetermined | internal/db/telemetry.sql.go:98-111 | the query has exactly one answer |
| AuditChain.AuditLog.Append | migrations/0013_audit_log_tamper_evidence.sql:84-97 | the insert trigger adds one good row, keeps the rows before and the id order, and leaves an intact log intact and a broken one broken |
| AuditChain.VerifyFindsTheFirstBadRow | internal/db/audit_verify.sql.go:12-32 | zero mismatches iff every row is intact; first_bad_id is the earliest bad row |
| AuditChain.BuiltLogsVerify | migrations/0013_audit_log_tamper_evidence.sql:84-130 | every log built by appending verifies |
| AuditText.SplitBeforeJson | migrations/0001_init.sql:54-61 | a trailing JSON text, or nothing, is determined by a bar-joined text whatever precedes it |
| AuditText.RowTextIsInjective | internal/db/audit_verify.sql.go:23-24 | a row text determines the row up to NULL against the empty string, for any device id and any other row of the table, if action, target type and target id hold no bar |
| AuditText.TextDeterminesTheRow | internal/db/audit_verify.sql.go:64-72 | and only if: with a stray bar another admissible row has the same text |
| AuditTheorems.LastHashDeterminesTheLog | internal/db/audit_verify.sql.go:12-45 | two verifying logs with the same last hash agree in length and every hashed column if one has no stray bar |
| AuditTheorems.TamperEvidence | internal/db/audit_verify.sql.go:39-45 | no other verifying log has the same last hash iff no row has a stray bar |
| AuditTheorems.IngestionLogIsTamperEvident | internal/db/audit_verify.sql.go:12-32 | the ingestion log is tamper-evident for arbitrary device ids |
| AuditTheorems.UserActionLogIsTamperEvident | internal/db/audit_verify.sql.go:53-81 | the user action log is, iff no action, target type or target id holds a bar |
| AuditTheorems.BarInAnEmailHidesTampering | internal/registry/signup.go:101-102 | two different one-row logs that verify with the same hash when an e-mail holds a bar |
| AuditTheorems.EditIsPinpointed | internal/db/audit_verify.sql.go:39-45 | editing one row is seen iff it changes the row text, and then as one mismatch at that row |
| AuditTheorems.EveryEditIsPinpointed | migrations/0013_audit_log_tamper_evidence.sql:3-9 | every edit of a row is pinpointed iff it has no stray bar and no NULL or empty target; in the ingestion log always |
| AuditTheorems.PrevHashEditIsPinpointed | internal/db/audit_verify.sql.go:20-26 | overwriting only a prev_hash, with another value or NULL, is one mismatch at that row |
| AuditTheorems.EntryHashEditIsPinpointed | internal/db/audit_verify.sql.go:13-26 | overwriting only an entry_hash is a mismatch at that row and at the next |
| AuditTheorems.DeletionIsPinpointed | migrations/0013_audit_log_tamper_evidence.sql:3-9 | deleting a row is pinpointed at the next one, except at the end of the log |
| Pkcs1.RandomReader.ReadFull | internal/syncengine/felicity_solar.go:183-186 | fills exactly the slice, or fails when the supply is short |
| Pkcs1.RandomReader.FillNonZeroRandom | internal/syncengine/felicity_solar.go:183-198 | the slice is filled with non-zero bytes, the non-zero ones supplied kept in place, and the rest of the block untouched |
| Pkcs1.PaddingKeepsNonZeros | internal/syncengine/felicity_solar.go:185-196 | zero bytes are replaced, in order, by the non-zero bytes that follow; it fails iff too few of either are supplied |
| Pkcs1.RsaEncryptPKCS1v15 | internal/syncengine/felicity_solar.go:159-179 | too long iff len > k - 11; else 00 02 PS 00 M with PS non-zero and at least 8 long, the block below the modulus, k bytes out |
| Pkcs1.BlockIsBelowModulus | internal/syncengine/felicity_solar.go:160-175 | the leading zero keeps the block below the modulus for every key length |
| Pkcs1.CiphertextFits | internal/syncengine/felicity_solar.go:174-178 | a residue fits in k bytes and reads back unchanged |
| Pkcs1.BytesRoundTrip | internal/syncengine/felicity_solar.go:174-177 | FillBytes and SetBytes are inverse on values that fit |
| Pkcs1.UnpadInvertsPadding | internal/syncengine/felicity_solar.go:164-172 | removing the padding as in section 7.2.2 of RFC 8017 gives back the message |
| Pkcs1.UnpadAcceptsOnlyPadding | internal/syncengine/felicity_solar.go:164-172 | and accepts only padded blocks |
| VendorSync.SyncConnection | cmd/vendor-sync/main.go:182-274 | which single Mark call a sync ends with, written out: success under the first reference if any device got through all four stages, else the one deciding failure, as wrong credentials iff the vendor says so |
| VendorSyncTheorems.StepKeepsInv | cmd/vendor-sync/main.go:94-127 | semaphore and wait group count the goroutines, decisions follow the listing, marks are exact |
| VendorSyncTheorems.AtMostEightSyncs | cmd/vendor-sync/main.go:105-126 | in every run at most 8 syncs at once and never two of one connection |
| VendorSyncTheorems.CyclesDoNotOverlap | cmd/vendor-sync/main.go:118-127 | no cycle lists before every goroutine of the previous one is done |
| VendorSyncTheorems.EveryDueConnectionIsMarkedOnce | cmd/vendor-sync/main.go:94-127 | over a cycle a connection that decrypts, is neither revoked nor rejected, of a known provider and at least its interval past its last sync gets exactly one Mark, all others none |
| VendorSyncTheorems.OnlyItsOwnSyncChangesARow | cmd/vendor-sync/main.go:201-206 | a row changes only by its own revocation or by the one goroutine syncing it |
| VendorOutcomes.MarkedRow | internal/db/vendor_connections.sql.go:175-237 | the row a Mark leaves: active and synced now under the reference, in error, or rejected, with everything else as it was |
| VendorOutcomes.ListedExactlyIf | internal/db/vendor_connections.sql.go:72-77 | a cycle lists a row that decrypts iff it is pending, active or in error |
| VendorOutcomes.FailedSyncIsRetriedExactlyIf | cmd/vendor-sync/main.go:182-199 | in any later cycle that finds the row as its sync left it, the connection is listed again iff the failure was not put down to the credentials |
| VendorRevocation.RevocationIsPermanentExactly | internal/db/vendor_connections.sql.go:175-237 | at any point of any run a revocation is permanent in every continuation iff the connection is neither syncing, nor held for a slot, nor queued with a known provider |
| VendorRevocation.InPlayRevives | cmd/vendor-sync/main.go:106-127 | from any such connection in play, some continuation syncs it and writes status active |
| VendorStatus.SuccessesAreSpaced | cmd/vendor-sync/main.go:114-116 | two successful syncs of a connection are at least its provider's poll interval apart, in every run |
| VendorStatus.GivenUpIsPermanent | internal/db/vendor_connections.sql.go:72-84 | when every revocation finds its connection out of play, revoked is permanent and invalid_credentials can only become revoked |
| VendorStatus.GivenUpIsNeverDispatched | cmd/vendor-sync/main.go:182-199 | and such a connection stays out of play: not syncing, not held, not queued with a known provider |
| VendorStatus.SyncGetsInFlight | cmd/vendor-sync/main.go:118-124 | a run with a sync in flight |
| Dynsec.ReadResponse | internal/mqttadmin/dynsec.go:137-148 | a parse failure iff the payload does not parse, success iff every error is empty, else the command and error of the first entry with one |
| Dynsec.VerdictIsTheFirstRejection | internal/mqttadmin/dynsec.go:137-148 | the same of the verdict the protocol is stated with |
| Dynsec.SendReturnsTheOldestOwed | internal/mqttadmin/dynsec.go:106-154 | a completed send returns the verdict on the oldest request still owed at its drain, its own iff none was |
| Dynsec.PromptSendsGetTheirOwnVerdict | internal/mqttadmin/dynsec.go:84-154 | if late responses arrive before the next drain, in every interleaving every completed send is told of success iff no command of its own batch was rejected, and otherwise of the first that was |
| Dynsec.LateResponseIsMismatched | internal/mqttadmin/dynsec.go:106-154 | a run in which a send returns the answer to one given up, or to one reported as not published |
| Decimals.DecimalIsInjective | internal/registry/exports.go:128 | distinct ids print differently |
| ExportJobs.KeysOfDistinctJobsDiffer | internal/registry/exports.go:128 | no file name makes two jobs share a key |
| ExportJobs.CompletedJobsHaveTheirExport | internal/registry/exports.go:128-137 | in every reachable state a completed job has a key under which its own export is stored |
| ExportJobs.ResultKeysDiffer | internal/registry/exports.go:128-137 | result keys of distinct jobs differ |
| ExportJobs.BodiesRunAtMostOnce | internal/registry/exports.go:57-67 | each body begins at most once, at most four at a time, no job in two workers, restarts included |
| ExportJobs.EnqueuesExactlyWhileThereIsRoom | internal/registry/exports.go:59-104 | the queue never holds more than 100 jobs and a requester waits exactly while it holds that many |
| ExportJobs.YoungJobsAreNotTimedOut | internal/registry/exports.go:250-257 | in every run a job of at most ten minutes is finished only by its own worker; a Get may go on to fail it iff it is older |
| ExportJobs.BodiesMarkTheirOwnJob | internal/registry/exports.go:109-146 | every status write moves its own job to the status it names, no other job, and the last frees the worker |
| ExportJobs.RestartLosesUnfinishedJobs | internal/registry/exports.go:25-35 | a job unfinished at a restart never completes in any continuation, and only a Get can still fail it |
| ExportJobs.WithoutStorageNothingRuns | internal/registry/exports.go:111-117 | without storage no job runs or completes and nothing is stored |
| ExportJobs.CompletedIsLostExactlyToAStaleGet | internal/registry/exports.go:250-257 | a completed job stops being completed exactly when a Get that read it as stale lands its write |
| ExportJobs.CompletedIsPermanentExactly | internal/registry/exports.go:250-257 | at any point of any run a completed job stays completed in every continuation iff no Get that read it as stale has yet to write |
| ExportJobs.RestartSecuresCompletedJobs | internal/registry/exports.go:250-257 | a job completed before a restart stays completed in every continuation |
| ExportJobs.StaleGetOverwritesACompletedJob | internal/registry/exports.go:238-260 | a run in which it does |
| Discovery.SiteForIsHome | cmd/pvpro-sync/main.go:163-192 | reconciliation finds the plant's own site iff the site is its PVPRO one or the listing shows a registered inverter |
| Discovery.PvProSitesDiffer | cmd/pvpro-sync/main.go:186-189 | plants never share a PVPRO site id |
| Discovery.Connector.ReconcileSite | cmd/pvpro-sync/main.go:163-220 | the site of the first registered inverter, without any call if the first serial is cached, else the PVPRO site, created only if absent, with the plant's detail at hand and no inverter registered |
| Discovery.Connector.EnsureDeviceRegisteredAndTokenCached | cmd/pvpro-sync/main.go:222-246 | registers only what is missing; succeeds iff every call is answered, and then, and only then, caches the site and the token just issued |
| Discovery.Connector.SyncDevices | cmd/pvpro-sync/main.go:114-127 | the devices to sync are, in listing order, all but the empty serials and those one of whose own calls failed; they are the non-empty listed serials cached afterwards, and the cache gains exactly them |
| Discovery.Connector.SyncPlant | cmd/pvpro-sync/main.go:101-127 | one plant keeps its site if its listing is recognisable; otherwise, failure-free, every listed inverter lands in the PVPRO site; what it returns to sync |
| Discovery.Connector.RunOnce | cmd/pvpro-sync/main.go:87-128 | one cycle under arbitrary failures keeps sites, cache and registry in agreement and syncs plant by plant what was picked there, a fault in one plant or device costing no other; failure-free it syncs every listed serial once per listing and leaves nothing to create |
| Discovery.Connector.RunCycles | cmd/pvpro-sync/main.go:60-85 | over any number of cycles, listings being recognisable in the registry of their cycle: one site per plant, one PVPRO site at most, nothing moved, and nothing created after a failure-free cycle over the same plants |
| Discovery.PartialListingSplitsAPlant | cmd/pvpro-sync/main.go:168-189 | for every registry and every unrecognisable listing of a plant with a registered inverter, a failure-free pass leaves that inverter and the listed ones in different sites |

## Left out

- Floating-point rounding: reals are exact, so guards such as `cur < prev*0.5` are decided exactly.
- The night flag and local time zones: the cloud import path does not compute the flag.
- SQL engine, continuous aggregates, retention jobs and row deletion: only the named queries and statements, on maps and sequences.
- JSON, base64 and CSV parsing and formatting: messages, cursor tokens and CSV rows are their decoded fields.
- HTTP handlers, router, dashboard, PDF output, e-mail, user, invite and site administration: thin plumbing.
- Vendor HTTP clients other than the PKCS #1 padding, and the weather service: their results are parameters.
- Hash functions, modular exponentiation and the random source: an abstract injective digest, a mathematical power modulo the modulus, and a finite supply of bytes.
- Benchmarks, coverage, anomaly thresholds, alerts, power curves, yield and capacity factor: one-branch facts.
- cmd/solarman-sync: repeats the reconciliation of cmd/pvpro-sync.
- Sandbox.SortStable: with more than 20 rows and an unreadable timestamp sort.SliceStable merges sorted blocks by a comparator that is no order; the contract then promises a permutation only.
- Sandbox.Upload: starts from parsed rows; storing the finished upload is not part of the model.
- Ingest.Database.SubmitReadings: token hashing is a boolean, the conversion of the battery percentage to a 16-bit column is not modelled, and a device's site and size are looked up from one record.
- Emissions.SiteEmissions: the default country used for a site without one is not modelled, and factors of equal effective date keep the order in which they were recorded.
- Emissions.FactorAsOf: requires the non-empty ascending list its caller loads.
- Rollup.FleetEnergyByCountry: Go's random map order becomes an arbitrary choice; the database query for raw readings is the row's own list of readings.
- PerformanceRatio.FleetPerformanceRatio: fails only for lack of usable sites; a failed weather fetch is not modelled.
- Paging.List: text collation is code-unit order, and a malformed cursor token cannot occur.
- AuditText.RowTextIsInjective: JSON texts are recognised by a lexical scan that every JSON text passes, so the results cover more than the values jsonb can hold; ids and instants are taken to print without a bar.
- VendorSync.SyncConnection: takes the outcome of each stage as given instead of calling vendor and API; the stage a failure message is prefixed with is part of the message.
- VendorSyncTheorems.EveryDueConnectionIsMarkedOnce: process shutdown in the middle of a cycle is not modelled.
- Dynsec.PromptSendsGetTheirOwnVerdict: requests and responses are neither duplicated nor lost by the broker, and stay in order.
- ExportJobs.CompletedJobsHaveTheirExport: access checks of Get and expiry of stored objects are not modelled.
- Discovery.Connector.RunOnce: returns the devices to sync; fetching and submitting their readings is the ingestion part of the model.
- Discovery.Connector.RunCycles: registrations by other actors while the connector is running are not modelled.
