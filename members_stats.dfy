/** The member statistics cards: totals, new members this week, members due a follow-up. */
module MembersStats {
  import opened Wrappers
  import opened Seqs
  import opened Schema
  import opened MembersList

  datatype MemberStats = MemberStats(totalMembers: nat, newThisWeek: nat, needsFollowUp: nat)

  /** `allMembers?.filter(inactive).length || 0` over the fetched `last_attendance_date` column. */
  function CountNeedingFollowUp(lastDates: Option<seq<Option<int>>>, now: int): (n: nat)
    ensures lastDates.None? ==> n == 0
    ensures lastDates.Some? ==> n <= |lastDates.value|
  {
    match lastDates
    case None => 0
    case Some(dates) => |Where(dates, d => NeedsFollowUp(d, now))|
  }

  /** `fetchStats`: an absent count becomes 0. */
  function FetchStats(totalMembers: Option<nat>, newThisWeek: Option<nat>, lastDates: Option<seq<Option<int>>>, now: int)
    : (stats: MemberStats)
    ensures totalMembers.None? ==> stats.totalMembers == 0
    ensures totalMembers.Some? ==> stats.totalMembers == totalMembers.value
    ensures newThisWeek.None? ==> stats.newThisWeek == 0
    ensures newThisWeek.Some? ==> stats.newThisWeek == newThisWeek.value
    ensures lastDates.None? ==> stats.needsFollowUp == 0
    ensures stats.needsFollowUp == CountNeedingFollowUp(lastDates, now)
    ensures lastDates.Some? ==> stats.needsFollowUp <= |lastDates.value|
  {
    MemberStats(
      if totalMembers.Some? then totalMembers.value else 0,
      if newThisWeek.Some? then newThisWeek.value else 0,
      CountNeedingFollowUp(lastDates, now))
  }

  /** The `last_attendance_date` column of some member rows. */
  function LastDates(members: seq<MemberRow>): (dates: seq<Option<int>>)
    ensures |dates| == |members|
    ensures forall i :: 0 <= i < |members| ==> dates[i] == members[i].lastAttendanceDate
  {
    if members == [] then [] else [members[0].lastAttendanceDate] + LastDates(members[1..])
  }

  /**
   * For the same rows and the same `now`, the follow-up card counts exactly the
   * members the directory's 'inactive' filter lists.
   */
  lemma {:induction false} FollowUpCountMatchesInactiveFilter(members: seq<MemberRow>, now: int)
    ensures CountNeedingFollowUp(Some(LastDates(members)), now) == |Filtered(members, "", "inactive", now)|
  {
    if members != [] {
      FollowUpCountMatchesInactiveFilter(members[1..], now);
      EmptySearchMatchesAll(members[0]);
    }
  }
}
