/**
 * The campaign list (src/pages/Campaigns.tsx): the three-way status badge
 * of a campaign and the remaining-contacts and progress values of its card.
 */
module Campaigns {

  /** A row of the campaign statistics view; the numbers are whatever the row holds. */
  datatype Campaign = Campaign(
    campaignId: string, total: int, completed: int, failed: int,
    successPct: real, lastActivity: string)

  datatype Badge = InProgress | Completed | CompletedWithErrors

  /** The text shown on the badge. */
  function BadgeLabel(b: Badge): string {
    match b
    case InProgress => "In Progress"
    case Completed => "Completed"
    case CompletedWithErrors => "Completed with Errors"
  }

  /** The colour class of the badge. */
  function BadgeClass(b: Badge): string {
    match b
    case InProgress => "bg-status-calling text-white"
    case Completed => "bg-status-done text-white"
    case CompletedWithErrors => "bg-status-failed text-white"
  }

  /** `total - completed - failed`: the contacts not yet finished. */
  function Remaining(c: Campaign): int {
    c.total - c.completed - c.failed
  }

  /**
   * `getStatusBadge`: in progress while contacts remain, whatever failed;
   * otherwise completed when nothing failed and completed with errors when
   * something did. It computes the remaining contacts with the same formula
   * as the card, so the card shows a positive remaining count exactly when
   * the badge says "In Progress".
   */
  function GetStatusBadge(c: Campaign): (b: Badge)
    ensures b == InProgress <==> Remaining(c) > 0
    ensures b == Completed <==> Remaining(c) <= 0 && c.failed == 0
    ensures b == CompletedWithErrors <==> Remaining(c) <= 0 && c.failed != 0
  {
    var inProgress := c.total - c.completed - c.failed;
    if inProgress > 0 then InProgress
    else if c.failed == 0 then Completed
    else CompletedWithErrors
  }

  /**
   * The badge always reads one of the three labels with its own colour
   * class, and different badges differ in both.
   */
  lemma BadgeLabels(c: Campaign, d: Campaign)
    ensures BadgeLabel(GetStatusBadge(c)) in {"In Progress", "Completed", "Completed with Errors"}
    ensures BadgeClass(GetStatusBadge(c)) in
      {"bg-status-calling text-white", "bg-status-done text-white", "bg-status-failed text-white"}
    ensures GetStatusBadge(c) != GetStatusBadge(d) ==> BadgeLabel(GetStatusBadge(c)) != BadgeLabel(GetStatusBadge(d))
    ensures GetStatusBadge(c) != GetStatusBadge(d) ==> BadgeClass(GetStatusBadge(c)) != BadgeClass(GetStatusBadge(d))
  {
  }

  /**
   * The card's progress value `((completed + failed) / total) * 100`. The
   * division has no guard, so it is defined only for a nonzero total.
   */
  function CardProgress(c: Campaign): (p: real)
    requires c.total != 0
  {
    ((c.completed + c.failed) as real / c.total as real) * 100.0
  }

  /** For counts that fit the total, the card's progress lies between 0 and 100 and is 100 exactly when nothing remains. */
  lemma CardProgressInRange(c: Campaign)
    requires 0 < c.total && 0 <= c.completed && 0 <= c.failed && c.completed + c.failed <= c.total
    ensures 0.0 <= CardProgress(c) <= 100.0
    ensures CardProgress(c) == 100.0 <==> Remaining(c) == 0
  {
    var q := (c.completed + c.failed) as real / c.total as real;
    if Remaining(c) != 0 {
      assert q * c.total as real == (c.completed + c.failed) as real;
      assert q < 1.0;
    }
  }
}
