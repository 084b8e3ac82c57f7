/**
 * The dashboard statistics hook (src/hooks/useDashboardStats.ts): the
 * aggregates computed from the campaign-statistics rows and the contact
 * rows, the seven-day call trend, and the hook's `stats`/`loading`/`error`
 * state as `fetchStats` updates it.
 *
 * Dates are day numbers. The clock (`new Date()`) is the parameter `today`,
 * and `toISOString().split('T')[0]` and `toLocaleDateString('en-US', ...)`
 * are the parameters `isoDate` and `shortDate`.
 */
module DashboardStats {
  import opened Wrappers
  import opened ContactRecords

  /** A row of the `v_campaign_stats` view, as far as the dashboard reads it. */
  datatype CampaignStat = CampaignStat(total: int, completed: int, failed: int)

  datatype TrendPoint = TrendPoint(date: string, calls: nat, success: nat)

  datatype Stats = Stats(
    totalCampaigns: nat, totalCalls: nat, successRate: nat, averageDuration: nat,
    todaysCalls: nat, activeCampaigns: nat, trendData: seq<TrendPoint>)

  /** The state the hook starts with. */
  const InitialStats: Stats := Stats(0, 0, 0, 0, 0, 0, [])

  /** The average call duration shown on the dashboard: a fixed figure, in seconds. */
  const AverageDuration: nat := 142

  /** The number of days in the trend chart. */
  const TrendDays: nat := 7

  // ---------------------------------------------------------------------------
  // Aggregates
  // ---------------------------------------------------------------------------

  /** A campaign still has contacts waiting or being called: `c.total > (c.completed + c.failed)`. */
  predicate IsActive(c: CampaignStat) {
    c.total > c.completed + c.failed
  }

  /** `campaignStats.filter(c => c.total > (c.completed + c.failed)).length`. */
  function CountActive(campaigns: seq<CampaignStat>): (n: nat)
    ensures n <= |campaigns|
  {
    if campaigns == [] then 0
    else CountActive(campaigns[..|campaigns| - 1]) + (if IsActive(campaigns[|campaigns| - 1]) then 1 else 0)
  }

  /** The active count is the size of the set of positions of active campaigns. */
  lemma {:induction false} CountActiveIsSize(campaigns: seq<CampaignStat>)
    ensures CountActive(campaigns) == |set i | 0 <= i < |campaigns| && IsActive(campaigns[i])|
  {
    if campaigns != [] {
      var n := |campaigns|;
      var front := campaigns[..n - 1];
      CountActiveIsSize(front);
      var before := set i | 0 <= i < n - 1 && IsActive(front[i]);
      var now := set i | 0 <= i < n && IsActive(campaigns[i]);
      assert forall i :: 0 <= i < n - 1 ==> front[i] == campaigns[i];
      if IsActive(campaigns[n - 1]) {
        assert now == before + {n - 1};
      } else {
        assert now == before;
      }
    }
  }

  /**
   * `successRate` of the dashboard: the rounded percentage of done contacts
   * among all contacts (not only the finished ones), or 0 without contacts.
   */
  function DashboardSuccessRate(contacts: seq<ContactRow>): (r: nat)
    ensures r <= 100
    ensures contacts == [] ==> r == 0
    ensures contacts != [] ==> r == RoundPercent(CountStatus(contacts, StatusDone), |contacts|)
  {
    var totalCalls := |contacts|;
    var completedCalls := CountStatus(contacts, StatusDone);
    if totalCalls > 0 then
      RoundPercentBounds(completedCalls, totalCalls);
      RoundPercent(completedCalls, totalCalls)
    else 0
  }

  // ---------------------------------------------------------------------------
  // Seven-day trend
  // ---------------------------------------------------------------------------

  /** The day numbers of the trend: the six days before `today`, then `today`, oldest first. */
  function LastWeek(today: int): (days: seq<int>)
    ensures |days| == TrendDays
    ensures forall k :: 0 <= k < |days| ==> days[k] == today - (TrendDays - 1) + k
  {
    seq(TrendDays, k requires 0 <= k < TrendDays => today - (TrendDays - 1) + k)
  }

  /**
   * The loop of `generateTrendData` that collects the days: `i` runs from 6
   * down to 0 and each step pushes the day `i` days before today.
   */
  method CollectDays(today: int) returns (days: seq<int>)
    ensures days == LastWeek(today)
  {
    days := [];
    var i: int := TrendDays - 1;
    while i >= 0
      invariant -1 <= i <= TrendDays - 1
      invariant |days| == TrendDays - 1 - i
      invariant forall k :: 0 <= k < |days| ==> days[k] == today - (TrendDays - 1) + k
    {
      days := days + [today - i];
      i := i - 1;
    }
  }

  /** The trend entry of one day: its short date, the contacts called that day, and how many of them are done. */
  function DayPoint(contacts: seq<ContactRow>, day: int, isoDate: int -> string, shortDate: int -> string): TrendPoint {
    var dayContacts := CalledOnDay(contacts, isoDate(day));
    TrendPoint(shortDate(day), |dayContacts|, CountStatus(dayContacts, StatusDone))
  }

  /** `days.map(...)`: one entry per day, in the order of the days. */
  function TrendOf(contacts: seq<ContactRow>, days: seq<int>, isoDate: int -> string, shortDate: int -> string): (t: seq<TrendPoint>)
    ensures |t| == |days|
    ensures forall k :: 0 <= k < |days| ==> t[k] == DayPoint(contacts, days[k], isoDate, shortDate)
  {
    seq(|days|, k requires 0 <= k < |days| => DayPoint(contacts, days[k], isoDate, shortDate))
  }

  /** `generateTrendData`: collect the seven days, then one entry per day. */
  method GenerateTrendData(contacts: seq<ContactRow>, today: int, isoDate: int -> string, shortDate: int -> string)
    returns (trend: seq<TrendPoint>)
    ensures trend == TrendOf(contacts, LastWeek(today), isoDate, shortDate)
  {
    var days := CollectDays(today);
    trend := TrendOf(contacts, days, isoDate, shortDate);
  }

  /**
   * The trend has seven entries, oldest first with today last; each entry
   * counts the contacts called on its day and the done ones among them, so
   * its success count never exceeds its call count.
   */
  lemma TrendShape(contacts: seq<ContactRow>, today: int, isoDate: int -> string, shortDate: int -> string)
    ensures var t := TrendOf(contacts, LastWeek(today), isoDate, shortDate);
      && |t| == TrendDays
      && (forall k :: 0 <= k < TrendDays ==> t[k].date == shortDate(today - (TrendDays - 1) + k))
      && (forall k :: 0 <= k < TrendDays ==> t[k].success <= t[k].calls <= |contacts|)
      && t[TrendDays - 1].calls == |CalledOnDay(contacts, isoDate(today))|
  {
  }

  // ---------------------------------------------------------------------------
  // All statistics
  // ---------------------------------------------------------------------------

  /**
   * The statistics `fetchStats` computes from the fetched rows. A missing
   * result (`data` null) counts as no rows, as `?.length || 0` and
   * `allContacts || []` do.
   */
  function ComputeStats(
    campaignRows: Option<seq<CampaignStat>>, contactRows: Option<seq<ContactRow>>,
    today: int, isoDate: int -> string, shortDate: int -> string): (s: Stats)
    ensures s.totalCampaigns == |campaignRows.GetOr([])|
    ensures s.totalCalls == |contactRows.GetOr([])|
    ensures s.todaysCalls == |CalledOnDay(contactRows.GetOr([]), isoDate(today))|
    ensures s.activeCampaigns == CountActive(campaignRows.GetOr([]))
    ensures s.averageDuration == AverageDuration
  {
    var campaigns := campaignRows.GetOr([]);
    var contacts := contactRows.GetOr([]);
    Stats(
      |campaigns|, |contacts|, DashboardSuccessRate(contacts), AverageDuration,
      |CalledOnDay(contacts, isoDate(today))|, CountActive(campaigns),
      TrendOf(contacts, LastWeek(today), isoDate, shortDate))
  }

  /**
   * The dashboard's figures are consistent: the success rate is a
   * percentage, the active campaigns and today's calls are parts of their
   * totals, today's calls are today's entry of the trend, and every trend
   * entry has no more successes than calls.
   */
  lemma StatsConsistent(
    campaignRows: Option<seq<CampaignStat>>, contactRows: Option<seq<ContactRow>>,
    today: int, isoDate: int -> string, shortDate: int -> string)
    ensures var s := ComputeStats(campaignRows, contactRows, today, isoDate, shortDate);
      && s.successRate <= 100
      && (s.totalCalls == 0 ==> s.successRate == 0)
      && s.activeCampaigns <= s.totalCampaigns
      && s.todaysCalls <= s.totalCalls
      && |s.trendData| == TrendDays
      && s.trendData[TrendDays - 1].calls == s.todaysCalls
      && (forall k :: 0 <= k < TrendDays ==> s.trendData[k].success <= s.trendData[k].calls)
  {
    TrendShape(contactRows.GetOr([]), today, isoDate, shortDate);
  }

  // ---------------------------------------------------------------------------
  // The hook's state
  // ---------------------------------------------------------------------------

  /** What was thrown: an `Error` with its message, or some other value. */
  datatype Failure = ErrorObject(message: string) | OtherFailure

  /** The outcome of the two queries: a failure of either one, or both results. */
  datatype FetchOutcome =
    | Failed(failure: Failure)
    | Fetched(campaignRows: Option<seq<CampaignStat>>, contactRows: Option<seq<ContactRow>>)

  /** `err instanceof Error ? err.message : 'Failed to fetch stats'`. */
  function ErrorText(f: Failure): string {
    match f
    case ErrorObject(message) => message
    case OtherFailure => "Failed to fetch stats"
  }

  /** The `stats`, `loading` and `error` state of the hook. */
  class DashboardStatsHook {
    var stats: Stats
    var loading: bool
    var error: Option<string>

    constructor ()
      ensures stats == InitialStats && loading && error == None
    {
      stats := InitialStats;
      loading := true;
      error := None;
    }

    /**
     * `fetchStats`: `loading` is set, then either the statistics are
     * replaced by those of the fetched rows or the error message is
     * recorded; `loading` is cleared in every case. A successful fetch
     * leaves `error` as it was: an earlier error is never cleared.
     */
    method FetchStats(outcome: FetchOutcome, today: int, isoDate: int -> string, shortDate: int -> string)
      modifies this
      ensures !loading
      ensures outcome.Failed? ==> stats == old(stats) && error == Some(ErrorText(outcome.failure))
      ensures outcome.Fetched? ==>
        stats == ComputeStats(outcome.campaignRows, outcome.contactRows, today, isoDate, shortDate)
        && error == old(error)
    {
      loading := true;
      match outcome {
        case Failed(failure) =>
          error := Some(ErrorText(failure));
        case Fetched(campaignRows, contactRows) =>
          stats := ComputeStats(campaignRows, contactRows, today, isoDate, shortDate);
      }
      loading := false;
    }
  }

  /** A failed fetch followed by a successful one shows the new statistics and still shows the old error. */
  method FailThenRefetch(
    hook: DashboardStatsHook, failure: Failure, campaignRows: Option<seq<CampaignStat>>,
    contactRows: Option<seq<ContactRow>>, today: int, isoDate: int -> string, shortDate: int -> string)
    modifies hook
    ensures !hook.loading
    ensures hook.error == Some(ErrorText(failure))
    ensures hook.stats == ComputeStats(campaignRows, contactRows, today, isoDate, shortDate)
  {
    hook.FetchStats(Failed(failure), today, isoDate, shortDate);
    hook.FetchStats(Fetched(campaignRows, contactRows), today, isoDate, shortDate);
  }
}
