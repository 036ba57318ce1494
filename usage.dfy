/**
 * The usage record of the Stitch quota monitor as a value, and each command's
 * effect on it as a function: the monthly rollover (checkMonthlyReset), an
 * increment, the status snapshot, the remaining counts and the reset. The
 * lemmas state what the monitor promises about them.
 */
module Usage {
  import opened Wrappers
  import opened Quota
  import opened MonthTag

  /** One archived month. */
  datatype HistoryEntry = HistoryEntry(month: string, standard: nat, experimental: nat)

  /** The persisted record: this month's two counters, the month they belong to, and the archive. */
  datatype UsageData = UsageData(standard: nat, experimental: nat, month: string, history: seq<HistoryEntry>)
  {
    /** data[mode] */
    function Count(m: Mode): nat {
      match m
      case Standard => standard
      case Experimental => experimental
    }
  }

  /** getDefaultUsageData: nothing counted, the current month, no history. */
  function DefaultUsage(currentMonth: string): (r: UsageData)
    ensures forall m: Mode :: r.Count(m) == 0
    ensures r.month == currentMonth && |r.history| == 0
    ensures Rollover(r, currentMonth) == r
  {
    UsageData(0, 0, currentMonth, [])
  }

  /** readUsageFile, with the stored record as a parameter: None stands for a file that is missing or unreadable. */
  function ReadUsage(stored: Option<UsageData>, currentMonth: string): (r: UsageData)
    ensures stored.Some? ==> r == stored.value
    ensures stored.None? ==> Rollover(r, currentMonth) == r && r.history == [] && r.Count(Standard) == 0 && r.Count(Experimental) == 0
  {
    match stored
    case Some(d) => d
    case None => DefaultUsage(currentMonth)
  }

  /** The archive entry for the record's month. */
  function Archived(d: UsageData): HistoryEntry {
    HistoryEntry(d.month, d.standard, d.experimental)
  }

  /** checkMonthlyReset: a stale month is archived (unless it is empty) and the counters restart. */
  function Rollover(d: UsageData, currentMonth: string): (r: UsageData)
    ensures r.month == currentMonth
    ensures d.month == currentMonth ==> r == d
    ensures d.month != currentMonth ==> r.Count(Standard) == 0 && r.Count(Experimental) == 0
    ensures |d.history| <= |r.history| <= |d.history| + 1 && r.history[..|d.history|] == d.history
    ensures |r.history| == |d.history| + 1 <==> d.month != currentMonth && d.month != ""
  {
    if d.month == currentMonth then d
    else
      assert (d.history + [Archived(d)])[..|d.history|] == d.history;
      UsageData(0, 0, currentMonth, if d.month != "" then d.history + [Archived(d)] else d.history)
  }

  /** A stale, non-empty month is appended to the end of the history, and nothing else there changes. */
  lemma RolloverArchives(d: UsageData, currentMonth: string)
    requires d.month != currentMonth && d.month != ""
    ensures var r := Rollover(d, currentMonth);
      |r.history| == |d.history| + 1 &&
      r.history[..|d.history|] == d.history &&
      r.history[|d.history|] == HistoryEntry(d.month, d.standard, d.experimental) &&
      r.standard == 0 && r.experimental == 0 && r.month == currentMonth
  {
    assert (d.history + [Archived(d)])[..|d.history|] == d.history;
  }

  /** An empty stored month (the first run) restarts the counters without archiving anything. */
  lemma RolloverFirstRun(d: UsageData, currentMonth: string)
    requires d.month == "" && currentMonth != ""
    ensures Rollover(d, currentMonth) == UsageData(0, 0, currentMonth, d.history)
  {
  }

  /** A record of the current month is left as it is, so a second rollover is a no-op. */
  lemma RolloverIdempotent(d: UsageData, currentMonth: string)
    ensures d.month == currentMonth ==> Rollover(d, currentMonth) == d
    ensures Rollover(Rollover(d, currentMonth), currentMonth) == Rollover(d, currentMonth)
    ensures Rollover(d, currentMonth).month == currentMonth
  {
  }

  /** The history only grows, by at most one entry per rollover, however many months were skipped. */
  lemma RolloverAppendOnly(d: UsageData, currentMonth: string)
    ensures var h := Rollover(d, currentMonth).history;
      |d.history| <= |h| <= |d.history| + 1 && h[..|d.history|] == d.history
  {
    assert (d.history + [Archived(d)])[..|d.history|] == d.history;
  }

  /** The archival example: 10 standard and 2 experimental requests in 2024-01, read in 2024-02. */
  lemma ArchivalExample(past: seq<HistoryEntry>)
    ensures Rollover(UsageData(10, 2, "2024-01", past), "2024-02")
      == UsageData(0, 0, "2024-02", past + [HistoryEntry("2024-01", 10, 2)])
  {
  }

  /** data[mode] += 1 */
  function Bump(d: UsageData, m: Mode): (r: UsageData)
    ensures r.Count(m) == d.Count(m) + 1 && r.Count(Other(m)) == d.Count(Other(m))
    ensures r.month == d.month && r.history == d.history
  {
    match m
    case Standard => d.(standard := d.standard + 1)
    case Experimental => d.(experimental := d.experimental + 1)
  }

  /** What incrementUsage reports after counting a request. */
  datatype IncrementOutcome =
    | InvalidMode
    | Recorded(mode: Mode, count: nat, limit: nat, percent: nat, warning: bool, exceeded: bool)

  function Report(m: Mode, count: nat): (o: IncrementOutcome)
    ensures o.Recorded? && o.mode == m && o.count == count && o.limit == Limit(m)
    ensures o.percent * Limit(m) <= count * 100 < (o.percent + 1) * Limit(m)
    ensures o.warning <==> Warns(o.percent)
    ensures o.warning <==> 5 * count >= 4 * Limit(m)
    ensures o.exceeded <==> count >= Limit(m)
  {
    WarningBoundary(m, count);
    var limit := Limit(m);
    var percent := Percent(count, limit);
    Recorded(m, count, limit, percent, Warns(percent), Exceeded(count, limit))
  }

  /** incrementUsage on a record: the record it writes back and what it reports. */
  function Increment(d: UsageData, mode: string, currentMonth: string): (r: (UsageData, IncrementOutcome))
    ensures r.1.InvalidMode? <==> mode != "standard" && mode != "experimental"
    ensures r.1.InvalidMode? ==> r.0 == d
    ensures r.1.Recorded? ==> ModeName(r.1.mode) == mode && r.0.month == currentMonth && r.1.count == r.0.Count(r.1.mode)
  {
    match ParseMode(mode)
    case None => (d, InvalidMode)
    case Some(m) =>
      var r := Bump(Rollover(d, currentMonth), m);
      (r, Report(m, r.Count(m)))
  }

  /** The process exit status of an increment: 1 for an invalid mode and for an exceeded quota. */
  function ExitStatus(o: IncrementOutcome): (status: nat)
    ensures status <= 1
    ensures status == 0 <==> o.Recorded? && !o.exceeded
  {
    if o.InvalidMode? || o.exceeded then 1 else 0
  }

  /** An increment counts exactly one request in the chosen category, after the rollover, and touches nothing else. */
  lemma IncrementAddsOne(d: UsageData, m: Mode, currentMonth: string)
    ensures var (r, o) := Increment(d, ModeName(m), currentMonth);
      var base := Rollover(d, currentMonth);
      r.Count(m) == base.Count(m) + 1 && r.Count(Other(m)) == base.Count(Other(m)) &&
      r.month == currentMonth && r.history == base.history &&
      o.Recorded? && o.mode == m && o.count == r.Count(m) && o.limit == Limit(m)
    ensures d.month == currentMonth ==>
      var r := Increment(d, ModeName(m), currentMonth).0;
      r.Count(m) == d.Count(m) + 1 && r.Count(Other(m)) == d.Count(Other(m)) &&
      r.month == d.month && r.history == d.history
  {
    ParseModeName(m);
  }

  /** A mode that names no category is refused before the record is read: nothing changes, not even the month. */
  lemma IncrementInvalidMode(d: UsageData, mode: string, currentMonth: string)
    requires mode != "standard" && mode != "experimental"
    ensures Increment(d, mode, currentMonth) == (d, InvalidMode)
    ensures ExitStatus(InvalidMode) == 1
  {
  }

  /**
   * The signals of an increment: a warning from 80% of the limit, a failure from the limit on;
   * the request stays recorded even then, since the record is written before the check.
   */
  lemma IncrementSignals(d: UsageData, m: Mode, currentMonth: string)
    ensures var (r, o) := Increment(d, ModeName(m), currentMonth);
      o.Recorded? &&
      (o.warning <==> 5 * r.Count(m) >= 4 * Limit(m)) &&
      (o.exceeded <==> r.Count(m) >= Limit(m)) &&
      (ExitStatus(o) == 1 <==> r.Count(m) >= Limit(m)) &&
      r.Count(m) == Rollover(d, currentMonth).Count(m) + 1
  {
    IncrementAddsOne(d, m, currentMonth);
    var r := Increment(d, ModeName(m), currentMonth).0;
    WarningBoundary(m, r.Count(m));
  }

  /** Counting the 280th standard request warns and the 279th does not; the 350th fails and the 349th does not. */
  lemma StandardIncrementBoundaries(d: UsageData, currentMonth: string)
    requires d.month == currentMonth
    ensures d.standard == 279 ==> Increment(d, "standard", currentMonth).1.warning
    ensures d.standard == 278 ==> !Increment(d, "standard", currentMonth).1.warning
    ensures d.standard == 349 ==> Increment(d, "standard", currentMonth).1.exceeded
    ensures d.standard == 348 ==> !Increment(d, "standard", currentMonth).1.exceeded
  {
    IncrementSignals(d, Standard, currentMonth);
  }

  /** n increments of one category in a row. */
  function IncrementTimes(d: UsageData, m: Mode, currentMonth: string, n: nat): UsageData
    decreases n
  {
    if n == 0 then d else IncrementTimes(Increment(d, ModeName(m), currentMonth).0, m, currentMonth, n - 1)
  }

  /** n increments in one month add n to the chosen counter and leave everything else as the rollover left it. */
  lemma {:induction false} IncrementTimesCounts(d: UsageData, m: Mode, currentMonth: string, n: nat)
    requires n > 0
    ensures var r, base := IncrementTimes(d, m, currentMonth, n), Rollover(d, currentMonth);
      r.Count(m) == base.Count(m) + n && r.Count(Other(m)) == base.Count(Other(m)) &&
      r.month == currentMonth && r.history == base.history
    decreases n
  {
    IncrementAddsOne(d, m, currentMonth);
    var next := Increment(d, ModeName(m), currentMonth).0;
    if n > 1 {
      IncrementTimesCounts(next, m, currentMonth, n - 1);
      RolloverIdempotent(d, currentMonth);
    }
  }

  /** On a first run, n standard increments leave the standard counter at n. */
  lemma FirstRunIncrements(currentMonth: string, n: nat)
    requires n > 0
    ensures IncrementTimes(ReadUsage(None, currentMonth), Standard, currentMonth, n).standard == n
  {
    IncrementTimesCounts(ReadUsage(None, currentMonth), Standard, currentMonth, n);
  }

  /** One category's line of the status display. */
  datatype CategoryStatus = CategoryStatus(count: nat, limit: nat, percent: nat, tier: Tier, bar: string, warning: bool)

  datatype Status = Status(standard: CategoryStatus, experimental: CategoryStatus)

  /** One category's line of displayStatus: its count against its limit, percentage, colour and bar. */
  function CategoryStatusOf(count: nat, limit: nat): (s: CategoryStatus)
    requires limit > 0
    ensures s.count == count && s.limit == limit
    ensures s.percent * limit <= count * 100 < (s.percent + 1) * limit
    ensures s.warning <==> s.tier == Warning
    ensures s.warning <==> 5 * count >= 4 * limit
    ensures s.tier == TierOf(s.percent) && s.bar == ProgressBar(s.percent, BAR_WIDTH)
    ensures |s.bar| == BAR_WIDTH + 2
  {
    PercentAtLeast(count, limit, WARNING_THRESHOLD);
    var percent := Percent(count, limit);
    CategoryStatus(count, limit, percent, TierOf(percent), ProgressBar(percent, BAR_WIDTH), Warns(percent))
  }

  /** displayStatus on a record that has already been rolled over: each category judged on its own count. */
  function StatusOf(d: UsageData): (s: Status)
    ensures s.standard.count == d.standard && s.standard.limit == STANDARD_QUOTA
    ensures s.experimental.count == d.experimental && s.experimental.limit == EXPERIMENTAL_QUOTA
    ensures s.standard == CategoryStatusOf(d.standard, STANDARD_QUOTA)
    ensures s.experimental == CategoryStatusOf(d.experimental, EXPERIMENTAL_QUOTA)
  {
    Status(CategoryStatusOf(d.standard, STANDARD_QUOTA), CategoryStatusOf(d.experimental, EXPERIMENTAL_QUOTA))
  }

  /** The tiers of the status display in terms of the counts: red from 280 / 40, yellow from 210 / 30. */
  lemma StatusTiers(d: UsageData)
    ensures var s := StatusOf(d);
      (s.standard.tier == Warning <==> d.standard >= 280) &&
      (s.standard.tier == Caution <==> 210 <= d.standard < 280) &&
      (s.standard.tier == Normal <==> d.standard < 210) &&
      (s.experimental.tier == Warning <==> d.experimental >= 40) &&
      (s.experimental.tier == Caution <==> 30 <= d.experimental < 40) &&
      (s.experimental.tier == Normal <==> d.experimental < 30) &&
      (s.standard.warning <==> s.standard.tier == Warning) &&
      (s.experimental.warning <==> s.experimental.tier == Warning)
  {
    TierByCount(Standard, d.standard);
    TierByCount(Experimental, d.experimental);
  }

  /** With no stored record the status is 0/350 and 0/50, both at 0%, both normal, with empty bars. */
  lemma FirstRunStatus(currentMonth: string)
    ensures var s := StatusOf(Rollover(ReadUsage(None, currentMonth), currentMonth));
      s.standard.count == 0 && s.standard.limit == 350 && s.standard.percent == 0 &&
      s.experimental.count == 0 && s.experimental.limit == 50 && s.experimental.percent == 0 &&
      s.standard.tier == Normal && s.experimental.tier == Normal &&
      s.standard.bar == "[--------------------]" && s.experimental.bar == "[--------------------]"
  {
    assert Repeat('-', 20) == "--------------------";
  }

  /**
   * On a first run the default record is built from one clock reading and rolled over with a
   * second: when a month boundary falls between them, an empty entry for the earlier month is archived.
   */
  lemma FirstRunAcrossMonthBoundary(readMonth: string, currentMonth: string)
    requires readMonth != "" && readMonth != currentMonth
    ensures var r := Rollover(ReadUsage(None, readMonth), currentMonth);
      r.history == [HistoryEntry(readMonth, 0, 0)] && r.month == currentMonth &&
      r.standard == 0 && r.experimental == 0
  {
  }

  /** checkRemaining: what is left of each limit, not clamped at zero. */
  function RemainingOf(d: UsageData): (r: (int, int))
    ensures r.0 + d.standard == STANDARD_QUOTA && r.1 + d.experimental == EXPERIMENTAL_QUOTA
    ensures r.0 < 0 <==> d.standard > STANDARD_QUOTA
    ensures r.1 < 0 <==> d.experimental > EXPERIMENTAL_QUOTA
  {
    (Remaining(d.standard, STANDARD_QUOTA), Remaining(d.experimental, EXPERIMENTAL_QUOTA))
  }

  /**
   * The archive in calendar order: each month strictly before the next and before the
   * current month (so no month is archived twice).
   */
  ghost predicate Chronological(d: UsageData) {
    (forall i, j :: 0 <= i < j < |d.history| ==> TagBefore(d.history[i].month, d.history[j].month)) &&
    (forall i :: 0 <= i < |d.history| ==> TagBefore(d.history[i].month, d.month))
  }

  lemma ChronologicalNoRepeats(d: UsageData, i: nat, j: nat)
    requires Chronological(d) && i < j < |d.history|
    ensures d.history[i].month != d.history[j].month
  {
    TagBeforeIrreflexive(d.history[i].month);
  }

  /** A rollover to a later month keeps the archive chronological; nothing else touches the archive but reset. */
  lemma RolloverKeepsChronological(d: UsageData, currentMonth: string)
    requires Chronological(d)
    requires d.month == currentMonth || TagBefore(d.month, currentMonth)
    ensures Chronological(Rollover(d, currentMonth))
  {
    if d.month != currentMonth {
      var h := Rollover(d, currentMonth).history;
      forall i | 0 <= i < |h|
        ensures TagBefore(h[i].month, currentMonth)
      {
        if i < |d.history| {
          TagBeforeTransitive(h[i].month, d.month, currentMonth);
        }
      }
    }
  }

  lemma IncrementKeepsChronological(d: UsageData, mode: string, currentMonth: string)
    requires Chronological(d)
    requires d.month == currentMonth || TagBefore(d.month, currentMonth)
    ensures Chronological(Increment(d, mode, currentMonth).0)
  {
    RolloverKeepsChronological(d, currentMonth);
  }

  /** With a clock that never goes back (four-digit years), every command keeps the archive chronological. */
  lemma ForwardClockKeepsChronological(d: UsageData, y1: int, m1: nat, y2: int, m2: nat)
    requires 1000 <= y1 <= 9999 && 1000 <= y2 <= 9999 && m1 < 12 && m2 < 12
    requires y1 < y2 || (y1 == y2 && m1 <= m2)
    requires Chronological(d) && d.month == CurrentMonth(y1, m1)
    ensures Chronological(Rollover(d, CurrentMonth(y2, m2)))
  {
    if y1 != y2 || m1 != m2 {
      CurrentMonthChronological(y1, m1, y2, m2);
    }
    RolloverKeepsChronological(d, CurrentMonth(y2, m2));
  }

  /** A clock that goes back and forth archives the same month twice: the code itself does not keep the archive chronological. */
  lemma BackwardClockRepeatsMonth()
    ensures var h := Rollover(Rollover(Rollover(DefaultUsage("2024-02"), "2024-01"), "2024-02"), "2024-01").history;
      |h| == 3 && h[0].month == h[2].month == "2024-02"
  {
  }
}
