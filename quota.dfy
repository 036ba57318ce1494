/**
 * Quota arithmetic of the Stitch quota monitor: the two fixed monthly limits,
 * the floor percentage of a limit used, the warning and quota-exceeded signals,
 * the remaining count, the severity tier of the status display and the textual
 * progress bar.
 */
module Quota {
  import opened Wrappers

  const STANDARD_QUOTA: nat := 350
  const EXPERIMENTAL_QUOTA: nat := 50
  /** Percent of a limit from which usage is reported as a warning. */
  const WARNING_THRESHOLD: nat := 80
  /** Percent of a limit from which the status display colours a category as a caution. */
  const CAUTION_THRESHOLD: nat := 60
  /** Default width of the progress bar. */
  const BAR_WIDTH: nat := 20

  /** The two quota categories. */
  datatype Mode = Standard | Experimental

  /** The key under which a category's counter is stored, which is also how it is spelled on the command line. */
  function ModeName(m: Mode): string {
    match m
    case Standard => "standard"
    case Experimental => "experimental"
  }

  /** The mode check of incrementUsage: a name is accepted exactly when it is the name of a category. */
  function ParseMode(s: string): (r: Option<Mode>)
    ensures r.Some? ==> ModeName(r.value) == s
    ensures r.None? ==> forall m: Mode :: ModeName(m) != s
  {
    if s == "standard" then Some(Standard)
    else if s == "experimental" then Some(Experimental)
    else None
  }

  lemma ParseModeName(m: Mode)
    ensures ParseMode(ModeName(m)) == Some(m)
  {
  }

  /** The other category. */
  function Other(m: Mode): (o: Mode)
    ensures o != m
  {
    match m
    case Standard => Experimental
    case Experimental => Standard
  }

  /** The monthly limit of a category. */
  function Limit(m: Mode): (limit: nat)
    ensures limit > 0
    ensures m == Standard ==> limit == STANDARD_QUOTA
    ensures m == Experimental ==> limit == EXPERIMENTAL_QUOTA
  {
    match m
    case Standard => STANDARD_QUOTA
    case Experimental => EXPERIMENTAL_QUOTA
  }

  /** Math.floor(count * 100 / limit): the largest p with p * limit <= count * 100. */
  function Percent(count: nat, limit: nat): (p: nat)
    requires limit > 0
    ensures p * limit <= count * 100 < (p + 1) * limit
  {
    count * 100 / limit
  }

  /** The percentage reaches a threshold exactly when the count reaches that share of the limit. */
  lemma PercentAtLeast(count: nat, limit: nat, threshold: nat)
    requires limit > 0
    ensures Percent(count, limit) >= threshold <==> count * 100 >= threshold * limit
  {
    var p := Percent(count, limit);
    if p >= threshold {
      assert threshold * limit <= p * limit by {
        MulMonotone(threshold, p, limit);
      }
    } else {
      assert (p + 1) * limit <= threshold * limit by {
        MulMonotone(p + 1, threshold, limit);
      }
    }
  }

  lemma MulMonotone(a: nat, b: nat, c: nat)
    requires a <= b
    ensures a * c <= b * c
  {
  }

  /** The warning signal of incrementUsage and of the status display. */
  predicate Warns(percent: nat) {
    percent >= WARNING_THRESHOLD
  }

  /** The quota-exceeded signal of incrementUsage. */
  predicate Exceeded(count: nat, limit: nat) {
    count >= limit
  }

  /** A category warns exactly from four fifths of its limit on: 280 standard or 40 experimental requests. */
  lemma WarningBoundary(m: Mode, count: nat)
    ensures Warns(Percent(count, Limit(m))) <==> 5 * count >= 4 * Limit(m)
    ensures m == Standard ==> (Warns(Percent(count, Limit(m))) <==> count >= 280)
    ensures m == Experimental ==> (Warns(Percent(count, Limit(m))) <==> count >= 40)
  {
    PercentAtLeast(count, Limit(m), WARNING_THRESHOLD);
  }

  /** The boundary cases of the warning and exceeded signals for the standard category. */
  lemma StandardBoundaries()
    ensures Warns(Percent(280, STANDARD_QUOTA)) && !Warns(Percent(279, STANDARD_QUOTA))
    ensures Exceeded(350, STANDARD_QUOTA) && !Exceeded(349, STANDARD_QUOTA)
  {
    WarningBoundary(Standard, 280);
    WarningBoundary(Standard, 279);
  }

  /** A category over its limit is always also reported as a warning. */
  lemma ExceededWarns(count: nat, limit: nat)
    requires limit > 0
    requires Exceeded(count, limit)
    ensures Warns(Percent(count, limit))
  {
    PercentAtLeast(count, limit, WARNING_THRESHOLD);
  }

  /** The requests left in a category: not clamped, so negative once the limit is overrun. */
  function Remaining(count: nat, limit: nat): (r: int)
    ensures r + count == limit
    ensures r <= 0 <==> Exceeded(count, limit)
    ensures r < 0 <==> count > limit
  {
    limit - count
  }

  /** Severity tier of the status display: red, yellow or green. */
  datatype Tier = Normal | Caution | Warning

  /** The colour choice of displayStatus: red at the warning threshold, yellow from the caution threshold, green below. */
  function TierOf(percent: nat): (t: Tier)
    ensures t == Warning <==> Warns(percent)
    ensures t == Normal <==> percent < CAUTION_THRESHOLD
  {
    if percent >= WARNING_THRESHOLD then Warning
    else if percent >= CAUTION_THRESHOLD then Caution
    else Normal
  }

  function TierRank(t: Tier): nat {
    match t
    case Normal => 0
    case Caution => 1
    case Warning => 2
  }

  /** A higher percentage never gives a milder tier. */
  lemma TierMonotone(p: nat, q: nat)
    requires p <= q
    ensures TierRank(TierOf(p)) <= TierRank(TierOf(q))
  {
  }

  /** The tier of a category in terms of its count: warning from 80% of the limit, caution from 60%. */
  lemma {:induction false} TierByCount(m: Mode, count: nat)
    ensures TierOf(Percent(count, Limit(m))) == Warning <==> 5 * count >= 4 * Limit(m)
    ensures TierOf(Percent(count, Limit(m))) == Caution <==> 5 * count >= 3 * Limit(m) && 5 * count < 4 * Limit(m)
    ensures TierOf(Percent(count, Limit(m))) == Normal <==> 5 * count < 3 * Limit(m)
    ensures m == Standard ==> (TierOf(Percent(count, Limit(m))) == Caution <==> 210 <= count < 280)
    ensures m == Experimental ==> (TierOf(Percent(count, Limit(m))) == Caution <==> 30 <= count < 40)
  {
    PercentAtLeast(count, Limit(m), WARNING_THRESHOLD);
    PercentAtLeast(count, Limit(m), CAUTION_THRESHOLD);
  }

  /** A width the bar can be drawn at with integer arithmetic: 100 / width is then exact. */
  predicate ExactWidth(width: nat) {
    0 < width && 100 % width == 0
  }

  /** Math.min(Math.floor(percent / (100 / width)), width): the number of filled cells. */
  function Filled(percent: nat, width: nat): (f: nat)
    requires ExactWidth(width)
    ensures f <= width
    ensures f == width <==> percent >= 100
    ensures f < width ==> f * (100 / width) <= percent < (f + 1) * (100 / width)
  {
    CellFacts(percent, width);
    var cells := percent / (100 / width);
    if cells < width then cells else width
  }

  /** The floor of percent / (100 / width) is below width exactly when percent is below 100. */
  lemma CellFacts(percent: nat, width: nat)
    requires ExactWidth(width)
    ensures 100 / width > 0
    ensures var step := 100 / width; var cells := percent / step;
      cells * step <= percent < (cells + 1) * step && (cells < width <==> percent < 100)
  {
    var step := 100 / width;
    assert step * width == 100;
    var cells := percent / step;
    assert cells * step <= percent < (cells + 1) * step;
    if cells < width {
      MulMonotone(cells + 1, width, step);
    } else {
      MulMonotone(width, cells, step);
    }
  }

  function Repeat(c: char, n: nat): (s: string)
    ensures |s| == n && forall i :: 0 <= i < n ==> s[i] == c
  {
    seq(n, _ => c)
  }

  /** renderProgressBar: the filled cells as '#', the rest as '-', in square brackets. */
  function ProgressBar(percent: nat, width: nat): (bar: string)
    requires ExactWidth(width)
    ensures |bar| == width + 2 && bar[0] == '[' && bar[width + 1] == ']'
    ensures forall i :: 1 <= i <= Filled(percent, width) ==> bar[i] == '#'
    ensures forall i :: Filled(percent, width) < i <= width ==> bar[i] == '-'
  {
    var f := Filled(percent, width);
    "[" + Repeat('#', f) + Repeat('-', width - f) + "]"
  }

  /** At the default width each '#' stands for 5%, and a bar never grows past its width. */
  lemma DefaultBar(percent: nat)
    ensures ExactWidth(BAR_WIDTH)
    ensures Filled(percent, BAR_WIDTH) == if percent / 5 < 20 then percent / 5 else 20
    ensures |ProgressBar(percent, BAR_WIDTH)| == 22
  {
  }
}
