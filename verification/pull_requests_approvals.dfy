/**
 * The display decisions of the pull-request approvals panel: the badge each review state
 * gets, which reviews are shown and counted, and when the alarm is appended. The rendered
 * elements are modelled as a list of records.
 */
module PullRequestsApprovals {

  import opened Seqs
  import opened GitService

  datatype BadgeColor = Success | Error | Warning | Info

  datatype BadgeProps = BadgeProps(color: BadgeColor, badgeContent: string)

  /** The badge for a review state; every state not listed gets the neutral badge. */
  function GetBadgeProps(state: string): (b: BadgeProps)
    ensures b.color == Success <==> state == "APPROVED"
    ensures b.color == Error <==> state == "CHANGES_REQUESTED"
    ensures b.color == Warning <==> state == "COMMENTED"
    ensures b in {BadgeProps(Success, "✔"), BadgeProps(Error, "✘"),
                  BadgeProps(Warning, "✎"), BadgeProps(Info, "⚪")}
  {
    match state
    case "APPROVED" => BadgeProps(Success, "✔")
    case "CHANGES_REQUESTED" => BadgeProps(Error, "✘")
    case "COMMENTED" => BadgeProps(Warning, "✎")
    case _ => BadgeProps(Info, "⚪")
  }

  predicate NotDismissed(approval: Review) {
    approval.state != "DISMISSED"
  }

  predicate IsApproved(approval: Review) {
    approval.state == "APPROVED"
  }

  /** The reviews shown: all but the dismissed ones. */
  function AllApprovals(approvals: seq<Review>): (r: seq<Review>)
    ensures forall a :: a in r <==> a in approvals && a.state != "DISMISSED"
    ensures |r| <= |approvals|
  {
    Filter(approvals, NotDismissed)
  }

  /** The reviews counted: the approving ones, which are all among the shown ones. */
  function ActualApprovals(approvals: seq<Review>): (r: seq<Review>)
    ensures forall a :: a in r <==> a in approvals && a.state == "APPROVED"
    ensures r == Filter(AllApprovals(approvals), IsApproved)
    ensures |r| <= |AllApprovals(approvals)|
  {
    FilterOfFilter(approvals, NotDismissed, IsApproved);
    Filter(approvals, IsApproved)
  }

  /** Both filters keep the order of the reviews they keep. */
  lemma ApprovalFiltersKeepOrder(a: seq<Review>, b: seq<Review>)
    ensures AllApprovals(a + b) == AllApprovals(a) + AllApprovals(b)
    ensures ActualApprovals(a + b) == ActualApprovals(a) + ActualApprovals(b)
  {
    FilterAppend(a, b, NotDismissed);
    FilterAppend(a, b, IsApproved);
  }

  /** One rendered element: a reviewer's avatar with tooltip and badge, or the alarm. */
  datatype Item =
    | Avatar(key: string, title: string, badge: BadgeProps, alt: string, src: string)
    | Alarm(alt: string, src: string)

  const AlarmItem: Item := Alarm("alarm", "/alarm.gif")

  /** A reviewer's avatar: keyed by node id, tooltip "<state> by <login>", badge for the state. */
  function AvatarFor(approval: Review): Item {
    Avatar(approval.nodeId, approval.state + " by " + approval.user.login,
           GetBadgeProps(approval.state), approval.user.login, approval.user.avatarUrl)
  }

  predicate HasAlarm(items: seq<Item>) {
    exists i :: 0 <= i < |items| && items[i].Alarm?
  }

  /**
   * The elements of the panel: an avatar per shown review, in order, then the alarm when
   * fewer than two reviews approve.
   */
  method ApprovalAvatars(approvals: seq<Review>) returns (items: seq<Item>)
    ensures |items| == |AllApprovals(approvals)| + (if |ActualApprovals(approvals)| < 2 then 1 else 0)
    ensures forall i :: 0 <= i < |AllApprovals(approvals)| ==>
              items[i] == AvatarFor(AllApprovals(approvals)[i])
    ensures HasAlarm(items) <==> |ActualApprovals(approvals)| < 2
    ensures HasAlarm(items) ==> items[|items| - 1] == AlarmItem
  {
    var all := AllApprovals(approvals);
    items := seq(|all|, i requires 0 <= i < |all| => AvatarFor(all[i]));
    assert forall i :: 0 <= i < |items| ==> items[i].Avatar?;
    if |ActualApprovals(approvals)| < 2 {
      items := items + [AlarmItem];
      assert items[|items| - 1].Alarm?;
    }
  }

  /** The authors whose latest review approves. */
  function ApprovedReviewers(reviews: seq<Review>): set<string> {
    set login | login in Logins(reviews) && reviews[LatestIndex(reviews, login)].state == "APPROVED"
  }

  /** Counting approving entries of the per-author listing counts approving authors. */
  lemma ApprovalCount(reviews: seq<Review>, approvals: seq<Review>)
    requires ListsLatest(reviews, approvals)
    ensures |ActualApprovals(approvals)| == |ApprovedReviewers(reviews)|
  {
    var actual := ActualApprovals(approvals);
    FilterKeepsDistinctLogins(approvals, IsApproved);
    DistinctLoginsCount(actual);
    forall login ensures login in Logins(actual) <==> login in ApprovedReviewers(reviews) {
      if login in Logins(actual) {
        var r :| r in actual && r.user.login == login;
        var i :| 0 <= i < |approvals| && approvals[i] == r;
      }
      if login in ApprovedReviewers(reviews) {
        var r :| r in approvals && r.user.login == login;
        var i :| 0 <= i < |approvals| && approvals[i] == r;
        assert r in actual;
      }
    }
    assert Logins(actual) == ApprovedReviewers(reviews);
  }

  /** The reviews in a response's data; none unless it is an array. */
  function ReviewsIn(data: ReviewsData): seq<Review> {
    if data.Reviews? then data.items else []
  }

  /**
   * The panel for a fetched review list: the alarm is shown exactly when fewer than two
   * authors have an approval as their latest review.
   */
  method ApprovalsPanel(data: ReviewsData) returns (items: seq<Item>)
    ensures HasAlarm(items) <==> |ApprovedReviewers(ReviewsIn(data))| < 2
  {
    var approvals := ApprovalsOf(data);
    ApprovalCount(ReviewsIn(data), approvals);
    items := ApprovalAvatars(approvals);
  }

}
