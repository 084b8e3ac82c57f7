/**
 * The campaign page (src/pages/CampaignDetail.tsx): the badge style of a
 * contact's status, the statistics over the campaign's contacts, and the
 * progress bar value.
 */
module CampaignDetail {
  import opened ContactRecords

  // ---------------------------------------------------------------------------
  // Status badge
  // ---------------------------------------------------------------------------

  const DefaultStyle: string := "bg-gray-500 text-white"

  /** The `styles` table of `getStatusBadge`. */
  const Styles: map<string, string> := map[
    StatusNew := "bg-status-new text-white",
    StatusCalling := "bg-status-calling text-white animate-pulse-slow",
    StatusDone := "bg-status-done text-white",
    StatusFailed := "bg-status-failed text-white"
  ]

  /** The badge class of a status: its entry in the table, or the grey default for any other status. */
  function StatusStyle(status: string): string
  {
    if status in Styles then Styles[status] else DefaultStyle
  }

  /** Exactly the four known statuses get a style of their own, and no two share one. */
  lemma StatusStyleCases(status: string, other: string)
    ensures StatusStyle(status) == DefaultStyle <==>
      status != StatusNew && status != StatusCalling && status != StatusDone && status != StatusFailed
    ensures status in Styles && other in Styles && status != other ==> StatusStyle(status) != StatusStyle(other)
  {
    assert "bg-status-new text-white"[10] != DefaultStyle[10];
  }

  // ---------------------------------------------------------------------------
  // Statistics
  // ---------------------------------------------------------------------------

  datatype Stats = Stats(total: nat, completed: nat, failed: nat, inProgress: nat, successRate: nat)

  /**
   * `getStats`: the number of contacts, the numbers done, failed and being
   * called, and the success rate: the rounded percentage of done contacts
   * among those done or failed, where `completed + failed || 1` puts 1 in
   * the divisor when no contact is finished yet, and 0 without contacts.
   */
  function GetStats(contacts: seq<ContactRow>): (s: Stats)
    ensures s.total == |contacts|
    ensures s.completed == CountStatus(contacts, StatusDone)
    ensures s.failed == CountStatus(contacts, StatusFailed)
    ensures s.inProgress == CountStatus(contacts, StatusCalling)
  {
    var total := |contacts|;
    var completed := CountStatus(contacts, StatusDone);
    var failed := CountStatus(contacts, StatusFailed);
    var inProgress := CountStatus(contacts, StatusCalling);
    var divisor := if completed + failed == 0 then 1 else completed + failed;
    var successRate := if total > 0 then RoundPercent(completed, divisor) else 0;
    Stats(total, completed, failed, inProgress, successRate)
  }

  /** The done, failed and calling counts together never exceed the number of contacts. */
  lemma StatsCountsBounded(contacts: seq<ContactRow>)
    ensures var s := GetStats(contacts); s.completed + s.failed + s.inProgress <= s.total
  {
    DistinctCountsBounded(contacts, StatusDone, StatusFailed, StatusCalling);
  }

  /**
   * The success rate is a percentage: 0 without contacts or without finished
   * contacts, 100 when no contact failed and some are done, and otherwise
   * the rounded share of done contacts among the finished ones.
   */
  lemma SuccessRateCases(contacts: seq<ContactRow>)
    ensures var s := GetStats(contacts); s.successRate <= 100
    ensures var s := GetStats(contacts); s.total == 0 ==> s.successRate == 0
    ensures var s := GetStats(contacts); s.completed + s.failed == 0 ==> s.successRate == 0
    ensures var s := GetStats(contacts); s.failed == 0 && s.completed > 0 ==> s.successRate == 100
    ensures var s := GetStats(contacts); s.completed + s.failed > 0 ==>
      s.successRate == RoundPercent(s.completed, s.completed + s.failed)
  {
    var s := GetStats(contacts);
    StatsCountsBounded(contacts);
    if s.completed + s.failed == 0 {
      RoundPercentBounds(0, 1);
    } else {
      RoundPercentBounds(s.completed, s.completed + s.failed);
    }
  }

  // ---------------------------------------------------------------------------
  // Progress bar
  // ---------------------------------------------------------------------------

  /** `progressPercentage`: the finished share of the contacts, as a percentage, or 0 without contacts. */
  function ProgressPercentage(s: Stats): real {
    if s.total > 0 then ((s.completed + s.failed) as real / s.total as real) * 100.0 else 0.0
  }

  /** The progress bar value of a campaign's statistics lies between 0 and 100. */
  lemma ProgressInRange(contacts: seq<ContactRow>)
    ensures 0.0 <= ProgressPercentage(GetStats(contacts)) <= 100.0
    ensures |contacts| == 0 ==> ProgressPercentage(GetStats(contacts)) == 0.0
  {
    var s := GetStats(contacts);
    StatsCountsBounded(contacts);
    if s.total > 0 {
      ShareAtMostWhole(s.completed + s.failed, s.total);
    }
  }

  /** A part of a positive whole is a share between 0 and 1. */
  lemma ShareAtMostWhole(part: nat, whole: nat)
    requires 0 < whole && part <= whole
    ensures 0.0 <= part as real / whole as real <= 1.0
  {
  }
}
