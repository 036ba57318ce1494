# Stitch quota monitor — a Dafny model

The Stitch quota monitor is the command-line script that counts how many
Stitch requests a project makes each calendar month. It keeps one record
(`state/stitch_usage.json`). The record holds two counters (`standard`,
limit 350, and `experimental`, limit 50), the `YYYY-MM` month those
counters belong to, and a `history` of archived months. Every command except
`reset` and `help` first runs the monthly rollover; `increment` runs it only
after its mode check. If the stored month is not the current month, the
old month's counts are appended to `history` (unless the stored month is
empty), both counters are zeroed and the month is updated. After that:

- `increment <standard|experimental>` adds one to a counter and writes the
  record back. It then reports the floor percentage of the limit, warns from
  80%, and fails from the limit on. The request stays counted even then.
- `status` shows both categories with a percentage, a tier (red from 80%,
  yellow from 60%) and a 20-cell progress bar.
- `remaining` shows the limit minus the count, which can go negative.
- `json` and `history` show the record or its archive.
- `reset` overwrites the record with the default one: zero counts, the current
  month and an empty history.

Files:

- `wrappers.dfy`: `Option`.
- `quota.dfy` (module `Quota`): the constants, the mode check, the percentage, the warning and
  exceeded signals, the remaining count, the tier and the progress bar, as functions and lemmas.
- `month_tag.dfy` (module `MonthTag`): `getCurrentMonth`. The clock reading becomes the
  parameters `year` (as `getFullYear` returns it) and `monthIndex` (as `getMonth` returns it).
  This file also defines `String(n)`, `padStart(2, '0')` and a character-wise order that agrees
  with JavaScript's `<` on the ASCII tags compared here, and
  proves that distinct calendar months give distinct tags and that, for four-digit years,
  tags sort in calendar order.
- `usage.dfy` (module `Usage`): the record as a value. Each command's effect on the record is a
  function (`Rollover`, `Increment`, `StatusOf`, `RemainingOf`, `DefaultUsage`), and lemmas state
  what the monitor promises about them.
- `ledger.dfy` (module `Ledger`): the class `UsageLedger`. Its four fields are the record, which
  `checkMonthlyReset` and `incrementUsage` update in place. Each method's `ensures` gives the new
  fields and ties them to the function in `Usage`.

Two points about the archive:

- A reset drops the history along with the counts, because `initializeUsage` writes
  `getDefaultUsageData()`, whose history is empty (`Usage.DefaultUsage`,
  `Ledger.UsageLedger.InitializeUsage`).
- The code does not keep archived months unique or earlier than the current month. The model
  proves this holds while the clock moves forward with four-digit years
  (`Usage.ForwardClockKeepsChronological`), and that a clock going back archives a month twice
  (`Usage.BackwardClockRepeatsMonth`).

## Model

| member | source | states |
|---|---|---|
| `Quota.ParseMode` | scripts/stitch-quota-monitor.ts:150-153 | a mode string is accepted exactly when it is the storage key of a category, and the accepted category has that key |
| `Quota.ParseModeName` | scripts/stitch-quota-monitor.ts:150 | each category's own name is accepted as that category |
| `Quota.Limit` | scripts/stitch-quota-monitor.ts:25-26 | the standard limit is 350, the experimental one is 50, and both are positive |
| `Quota.Percent` | scripts/stitch-quota-monitor.ts:160 | the percentage is the floor of count·100/limit: the largest p with p·limit ≤ count·100 |
| `Quota.PercentAtLeast` | scripts/stitch-quota-monitor.ts:117-118 | the percentage reaches a threshold t exactly when count·100 ≥ t·limit |
| `Quota.WarningBoundary` | scripts/stitch-quota-monitor.ts:27 | a category warns exactly when 5·count ≥ 4·limit, i.e. from 280 standard or 40 experimental requests |
| `Quota.StandardBoundaries` | scripts/stitch-quota-monitor.ts:164-168 | 280 standard requests warn and 279 do not; 350 exceed the quota and 349 do not |
| `Quota.ExceededWarns` | scripts/stitch-quota-monitor.ts:164-168 | a count at or over the limit always also warns |
| `Quota.Warns` | scripts/stitch-quota-monitor.ts:164 | the warning test `percent >= WARNING_THRESHOLD`; its meaning in counts is stated by `Quota.WarningBoundary` and `Usage.Report` |
| `Quota.Exceeded` | scripts/stitch-quota-monitor.ts:168 | the exceeded test `count >= limit`; its relation to the warning and the exit status is stated by `Quota.ExceededWarns` and `Usage.IncrementSignals` |
| `Quota.Remaining` | scripts/stitch-quota-monitor.ts:182-183 | remaining plus count equals the limit; remaining is ≤ 0 exactly when the quota is exceeded and negative exactly when the count is over the limit |
| `Quota.TierOf` | scripts/stitch-quota-monitor.ts:124 | red exactly when the percentage warns, green exactly below 60%, yellow in between; monotonicity and count bounds in `Quota.TierMonotone` and `Quota.TierByCount` |
| `Quota.TierMonotone` | scripts/stitch-quota-monitor.ts:124 | a higher percentage never gives a milder tier |
| `Quota.TierByCount` | scripts/stitch-quota-monitor.ts:131 | tier in terms of the count: red iff 5·count ≥ 4·limit, yellow iff 3·limit ≤ 5·count < 4·limit, green otherwise (standard yellow for 210..279, experimental for 30..39) |
| `Quota.Filled` | scripts/stitch-quota-monitor.ts:109 | the filled cells never exceed the width, fill the whole width exactly from 100% up, and below that are the floor of percent/(100/width) |
| `Quota.CellFacts` | scripts/stitch-quota-monitor.ts:109 | the unclamped cell count is the floor of percent/(100/width), and it is below the width exactly when the percentage is below 100 |
| `Quota.Repeat` | scripts/stitch-quota-monitor.ts:110 | `'#'.repeat(n)` and `'-'.repeat(n)`: n copies of the character |
| `Quota.ProgressBar` | scripts/stitch-quota-monitor.ts:108-112 | the bar has width+2 characters, `[` first and `]` last, `#` in the filled cells and `-` in the rest |
| `Quota.DefaultBar` | scripts/stitch-quota-monitor.ts:108-109 | at the default width 20 each `#` stands for 5%, at most 20 are filled, and the bar has 22 characters |
| `MonthTag.NatToDecimal` | scripts/stitch-quota-monitor.ts:44-45 | `String(n)` is a non-empty string of digits that starts with `0` only for 0, and has one character exactly below 10 |
| `MonthTag.DecimalRoundTrip` | scripts/stitch-quota-monitor.ts:44-45 | reading the decimal spelling of n back gives n |
| `MonthTag.IntToDecimal` | scripts/stitch-quota-monitor.ts:44 | `String(year)` is non-empty and starts with `-` exactly for a negative year |
| `MonthTag.IntToDecimalInjective` | scripts/stitch-quota-monitor.ts:44 | different years have different spellings |
| `MonthTag.MonthPart` | scripts/stitch-quota-monitor.ts:45 | the month half of the tag, `String(getMonth() + 1).padStart(2, '0')`; `MonthTag.MonthPartShape` states it is two digits valued month+1 |
| `MonthTag.PadStart2` | scripts/stitch-quota-monitor.ts:45 | `padStart(2, '0')` leaves strings of two or more characters alone and otherwise puts zeros in front up to length 2, keeping the string as the suffix |
| `MonthTag.CurrentMonth` | scripts/stitch-quota-monitor.ts:42-47 | `getCurrentMonth` for a clock reading; its shape, length, injectivity and order are stated by `MonthTag.CurrentMonthShape`, `CurrentMonthLength`, `CurrentMonthInjective` and `CurrentMonthChronological` |
| `MonthTag.CurrentMonthShape` | scripts/stitch-quota-monitor.ts:42-47 | the tag is the year's spelling, `-`, and two digits whose value is the month number 1..12 |
| `MonthTag.CurrentMonthLength` | scripts/stitch-quota-monitor.ts:42-47 | for a four-digit year the tag has 7 characters |
| `MonthTag.CurrentMonthInjective` | scripts/stitch-quota-monitor.ts:42-47 | two clock readings give the same tag exactly when they are in the same year and month, so the `!==` test of the rollover fires exactly on a change of calendar month |
| `MonthTag.CurrentMonthChronological` | scripts/stitch-quota-monitor.ts:42-47 | with four-digit years, a later calendar month has a tag that is later in character-wise order, which on these ASCII tags is JavaScript's `<` |
| `MonthTag.JanuaryExample` | scripts/stitch-quota-monitor.ts:42-47 | January and December 2024 give `2024-01` and `2024-12` |
| `Usage.DefaultUsage` | scripts/stitch-quota-monitor.ts:54-61 | both counters are 0, the month is the current one, the history is empty, and a rollover in that month leaves it as it is |
| `Usage.ReadUsage` | scripts/stitch-quota-monitor.ts:63-69 | a stored record is returned as it is; without one the default record, which the rollover then leaves alone |
| `Usage.Archived` | scripts/stitch-quota-monitor.ts:89-93 | the history entry pushed for a stale month: its month and its two counts; `Usage.RolloverArchives` states that this is what a rollover appends |
| `Usage.UsageData.Count` | scripts/stitch-quota-monitor.ts:156-160 | `data[mode]`, the counter of a category; `Usage.Bump` states that an increment changes this one counter only |
| `Usage.Rollover` | scripts/stitch-quota-monitor.ts:86-99 | the result is of the current month; a current record is unchanged; a stale one has both counters zeroed; the old history is a prefix of the new, which grows by one exactly when a stale non-empty month is archived (details in `Usage.RolloverArchives`, `RolloverFirstRun`, `RolloverIdempotent`) |
| `Usage.FirstRunAcrossMonthBoundary` | scripts/stitch-quota-monitor.ts:54-94 | with no stored record, a default record built in one month and rolled over in a later one archives an empty entry for the earlier month |
| `Usage.RolloverArchives` | scripts/stitch-quota-monitor.ts:86-99 | a stale non-empty month appends exactly one entry (old month, old counts) at the end of the history, keeps the earlier entries, zeroes both counters and sets the current month |
| `Usage.RolloverFirstRun` | scripts/stitch-quota-monitor.ts:88-99 | an empty stored month zeroes the counters and sets the month but archives nothing |
| `Usage.RolloverIdempotent` | scripts/stitch-quota-monitor.ts:86-105 | a record of the current month is returned unchanged, so rolling over twice is the same as once, and the result is always of the current month |
| `Usage.RolloverAppendOnly` | scripts/stitch-quota-monitor.ts:88-94 | the old history is a prefix of the new one, which has at most one entry more, however many months passed |
| `Usage.ArchivalExample` | scripts/stitch-quota-monitor.ts:86-99 | 10 standard and 2 experimental in 2024-01, read in 2024-02, become zero counts in 2024-02 with `{2024-01, 10, 2}` appended |
| `Usage.Bump` | scripts/stitch-quota-monitor.ts:156 | the chosen counter grows by one; the other counter, the month and the history are unchanged |
| `Usage.Report` | scripts/stitch-quota-monitor.ts:159-168 | the report carries the category, the count and its limit, and the floor percentage p with p·limit ≤ count·100 < (p+1)·limit; the warning is set iff that percentage reaches 80, which is iff 5·count ≥ 4·limit, and the exceeded flag iff count ≥ limit |
| `Usage.Increment` | scripts/stitch-quota-monitor.ts:150-168 | the outcome is `InvalidMode` exactly for a mode that is neither name, and then the record is the input record; otherwise the report names the mode given, the record is of the current month and the reported count is the stored one (details in `Usage.IncrementAddsOne`, `IncrementSignals`) |
| `Usage.ExitStatus` | scripts/stitch-quota-monitor.ts:150-171 | the exit status is 0 or 1, and 0 exactly for a recorded increment that is not over the quota (in counts: `Usage.IncrementSignals`, `Usage.IncrementInvalidMode`) |
| `Usage.IncrementAddsOne` | scripts/stitch-quota-monitor.ts:155-157 | after the rollover the chosen counter grows by exactly one; the other counter, the month and the history stay as the rollover left them; the report carries the new count and the category's limit |
| `Usage.IncrementInvalidMode` | scripts/stitch-quota-monitor.ts:150-153 | a mode that is neither name leaves the record untouched (no rollover either) and exits with status 1 |
| `Usage.IncrementSignals` | scripts/stitch-quota-monitor.ts:159-171 | the warning is set iff 5·count ≥ 4·limit, the exceeded flag and exit status 1 iff count ≥ limit, and the incremented count stays in the record in every case |
| `Usage.StandardIncrementBoundaries` | scripts/stitch-quota-monitor.ts:164-168 | counting the 280th standard request warns and the 279th does not; the 350th exceeds the quota and the 349th does not |
| `Usage.IncrementTimesCounts` | scripts/stitch-quota-monitor.ts:155-157 | n ≥ 1 increments in one month add exactly n to the chosen counter and change nothing else |
| `Usage.FirstRunIncrements` | scripts/stitch-quota-monitor.ts:63-69 | with no stored record, n standard increments leave the standard counter at n |
| `Usage.CategoryStatusOf` | scripts/stitch-quota-monitor.ts:117-133 | one category's line carries its count and limit, the floor percentage, the tier of that percentage, a warning exactly in the red tier and exactly when 5·count ≥ 4·limit, and the 22-character progress bar drawn for that percentage at width 20 |
| `Usage.StatusOf` | scripts/stitch-quota-monitor.ts:114-143 | the standard line is the category line of the standard count against 350 and the experimental line that of the experimental count against 50, so each line's percentage, tier and bar follow `Usage.CategoryStatusOf` (tiers in counts: `Usage.StatusTiers`) |
| `Usage.StatusTiers` | scripts/stitch-quota-monitor.ts:117-143 | each category is judged on its own count: standard red from 280 and yellow for 210..279, experimental red from 40 and yellow for 30..39; the warning line appears exactly in the red tier |
| `Usage.FirstRunStatus` | scripts/stitch-quota-monitor.ts:114-133 | with no stored record the status is 0/350 and 0/50 at 0%, both green, with empty bars `[--------------------]` |
| `Usage.RemainingOf` | scripts/stitch-quota-monitor.ts:179-183 | remaining plus count is 350 for standard and 50 for experimental, and each is negative exactly when its count is over the limit |
| `Usage.ChronologicalNoRepeats` | scripts/stitch-quota-monitor.ts:89-93 | a history in calendar order holds no month twice |
| `Usage.RolloverKeepsChronological` | scripts/stitch-quota-monitor.ts:86-99 | rolling over to a later month keeps the history in order and entirely before the current month |
| `Usage.IncrementKeepsChronological` | scripts/stitch-quota-monitor.ts:155-157 | an increment in a later or the same month keeps the history in order |
| `Usage.ForwardClockKeepsChronological` | scripts/stitch-quota-monitor.ts:84-99 | when the clock does not go back (four-digit years), the rollover keeps the history in calendar order |
| `Usage.BackwardClockRepeatsMonth` | scripts/stitch-quota-monitor.ts:86-94 | going from 2024-02 to 2024-01, back to 2024-02 and to 2024-01 again archives 2024-02 twice |
| `Ledger.UsageLedger.Load` | scripts/stitch-quota-monitor.ts:63-69 | loading gives the stored record, or the default record for the current month when there is none |
| `Ledger.UsageLedger.CheckMonthlyReset` | scripts/stitch-quota-monitor.ts:82-106 | reports a rollover exactly when the stored month differs; afterwards the month is current, the counters are zero after a rollover and unchanged otherwise, and the history has the old month appended exactly when it rolled over from a non-empty month |
| `Ledger.UsageLedger.IncrementUsage` | scripts/stitch-quota-monitor.ts:149-172 | an invalid mode returns `InvalidMode` with the record unchanged; a valid one leaves the rolled-over record with one more request in that category and reports its count, limit, percentage and signals |
| `Ledger.UsageLedger.DisplayStatus` | scripts/stitch-quota-monitor.ts:114-147 | rolls over, then returns the status of the current record |
| `Ledger.UsageLedger.CheckRemaining` | scripts/stitch-quota-monitor.ts:179-188 | rolls over, then returns values that with the counts add up to 350 and 50 |
| `Ledger.UsageLedger.OutputJson` | scripts/stitch-quota-monitor.ts:174-177 | rolls over, then returns the whole record |
| `Ledger.UsageLedger.ShowHistory` | scripts/stitch-quota-monitor.ts:190-203 | rolls over, then returns the history in archival order, the old history itself when the month was current |
| `Ledger.UsageLedger.InitializeUsage` | scripts/stitch-quota-monitor.ts:77-80 | the record becomes the default record: zero counts, the current month, an empty history |

## Left out

- File access (`fs.readFile`, `fs.writeFile`, `fs.mkdir`) is not modelled. The record lives in
  the fields of `UsageLedger`, and a read is `UsageLedger.Load` with the stored record as a
  parameter (`None` for a missing or unparsable file). The model does not tell a change in memory
  from a write. For example, `status` on a missing file creates no file, and the model does not
  show that.
- `JSON.parse` and `JSON.stringify` are library calls and are not modelled. The cast at line 66
  checks nothing, so the model assumes a well-formed record. Counters are natural numbers, so
  negative, fractional or missing counters in a hand-edited file are not modelled.
- JavaScript numbers are doubles. Counts beyond 2^53 lose precision, and the model uses unbounded
  naturals instead.
- `new Date()` is not modelled. `CurrentMonth` takes the year and the month index as inputs, and
  the ledger methods take the current month tag as a string. Each command takes one reading,
  while on a first run the source reads the clock twice: once for the default record (lines 58
  and 68) and once in `checkMonthlyReset` (line 84). `Usage.ReadUsage`, `Usage.FirstRunStatus`
  and `Usage.FirstRunIncrements` pass one month to both steps; the case of a month boundary
  between the two readings is `Usage.FirstRunAcrossMonthBoundary`.
- Console and `chalk` output are not modelled. This includes the rollover message, which becomes
  the `rolledOver` result. `process.exit` becomes `Usage.ExitStatus`.
- The command dispatch and help text of `main` are not modelled: unknown commands, `help`, and
  the `args[1] || 'standard'` default. `incrementUsage`'s own default parameter is never reached
  from `main`, so it is not modelled either.
- Quota.ProgressBar: only widths that divide 100 are modelled. For other widths, `100 / width`
  is a floating-point division whose rounding is not modelled. The script only uses width 20.
- Two runs of the script at the same time can lose an update, because the last writer wins. The
  code promises nothing here, and the model is sequential.
- `scripts/setup-stitch-mcp.ts`, the `website/` components and hooks, and the test templates
  under `stages/` are not part of this model. They are subprocess calls, rendering and animation,
  floating-point audio, and test scaffolding.
