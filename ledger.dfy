/**
 * The usage record as the monitor handles it: an object whose four fields
 * checkMonthlyReset and incrementUsage update in place. Each command reads
 * the record, changes these fields and writes them back, so the fields stand
 * for the stored record. Every method is tied to the function in module Usage
 * that gives its effect on the record's value.
 */
module Ledger {
  import opened Wrappers
  import opened Quota
  import opened Usage

  class UsageLedger {
    var standard: nat
    var experimental: nat
    var month: string
    var history: seq<HistoryEntry>

    /** The record as a value. */
    function Data(): UsageData
      reads this
    {
      UsageData(standard, experimental, month, history)
    }

    /** readUsageFile: the stored record, or the default record when there is none. */
    constructor Load(stored: Option<UsageData>, currentMonth: string)
      ensures Data() == ReadUsage(stored, currentMonth)
      ensures stored.None? ==> standard == 0 && experimental == 0 && month == currentMonth && history == []
    {
      match stored {
        case Some(d) =>
          standard, experimental, month, history := d.standard, d.experimental, d.month, d.history;
        case None =>
          standard, experimental, month, history := 0, 0, currentMonth, [];
      }
    }

    /** checkMonthlyReset: archive a stale, non-empty month, zero both counters and move to the current month. */
    method CheckMonthlyReset(currentMonth: string) returns (rolledOver: bool)
      modifies this
      ensures rolledOver <==> old(month) != currentMonth
      ensures month == currentMonth
      ensures rolledOver ==> standard == 0 && experimental == 0
      ensures !rolledOver ==> standard == old(standard) && experimental == old(experimental)
      ensures history == if rolledOver && old(month) != "" then old(history) + [HistoryEntry(old(month), old(standard), old(experimental))]
                         else old(history)
      ensures Data() == Rollover(old(Data()), currentMonth)
    {
      rolledOver := month != currentMonth;
      if rolledOver {
        if month != "" {
          history := history + [HistoryEntry(month, standard, experimental)];
        }
        standard := 0;
        experimental := 0;
        month := currentMonth;
      }
    }

    /**
     * incrementUsage: refuse an unknown mode before touching the record; otherwise roll over,
     * count the request, and report the percentage and the warning and exceeded signals.
     */
    method IncrementUsage(mode: string, currentMonth: string) returns (outcome: IncrementOutcome)
      modifies this
      ensures ParseMode(mode).None? ==> outcome == InvalidMode && Data() == old(Data())
      ensures ParseMode(mode).Some? ==>
        var m := ParseMode(mode).value;
        Data() == Bump(Rollover(old(Data()), currentMonth), m) &&
        outcome == Report(m, Data().Count(m))
      ensures (Data(), outcome) == Increment(old(Data()), mode, currentMonth)
    {
      var parsed := ParseMode(mode);
      if parsed.None? {
        return InvalidMode;
      }
      var m := parsed.value;
      var _ := CheckMonthlyReset(currentMonth);
      var count: nat;
      match m {
        case Standard =>
          standard := standard + 1;
          count := standard;
        case Experimental =>
          experimental := experimental + 1;
          count := experimental;
      }
      var limit := Limit(m);
      var percent := Percent(count, limit);
      outcome := Recorded(m, count, limit, percent, percent >= WARNING_THRESHOLD, count >= limit);
    }

    /** displayStatus: roll over, then report both categories. */
    method DisplayStatus(currentMonth: string) returns (status: Status)
      modifies this
      ensures Data() == Rollover(old(Data()), currentMonth)
      ensures status == StatusOf(Data())
    {
      var _ := CheckMonthlyReset(currentMonth);
      status := StatusOf(Data());
    }

    /** checkRemaining: roll over, then what is left of each limit. */
    method CheckRemaining(currentMonth: string) returns (standardRemaining: int, experimentalRemaining: int)
      modifies this
      ensures Data() == Rollover(old(Data()), currentMonth)
      ensures standardRemaining + standard == STANDARD_QUOTA
      ensures experimentalRemaining + experimental == EXPERIMENTAL_QUOTA
    {
      var _ := CheckMonthlyReset(currentMonth);
      standardRemaining := STANDARD_QUOTA - standard;
      experimentalRemaining := EXPERIMENTAL_QUOTA - experimental;
    }

    /** outputJson: roll over, then the whole record. */
    method OutputJson(currentMonth: string) returns (d: UsageData)
      modifies this
      ensures d == Data() == Rollover(old(Data()), currentMonth)
    {
      var _ := CheckMonthlyReset(currentMonth);
      d := Data();
    }

    /** showHistory: roll over, then the archive in the order it was written. */
    method ShowHistory(currentMonth: string) returns (entries: seq<HistoryEntry>)
      modifies this
      ensures Data() == Rollover(old(Data()), currentMonth)
      ensures entries == history
      ensures old(month) == currentMonth ==> entries == old(history)
    {
      var _ := CheckMonthlyReset(currentMonth);
      entries := history;
    }

    /** initializeUsage (the reset command): overwrite with the default record, history included, archiving nothing. */
    method InitializeUsage(currentMonth: string)
      modifies this
      ensures Data() == DefaultUsage(currentMonth)
      ensures standard == 0 && experimental == 0 && month == currentMonth && history == []
    {
      var initial := DefaultUsage(currentMonth);
      standard, experimental, month, history := initial.standard, initial.experimental, initial.month, initial.history;
    }
  }
}
